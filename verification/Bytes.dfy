/** Bytes and the fixed-width little-endian integers that both libraries store. */
module Bytes {

  type byte = b: int | 0 <= b < 256
  type Slice = seq<byte>
  type uint32 = x: int | 0 <= x < 0x1_0000_0000
  type uint64 = x: int | 0 <= x < 0x1_0000_0000_0000_0000

  datatype Option<+T> = None | Some(value: T)

  /** 256 to the power n: one more than the largest number n bytes can hold. */
  function Pow256(n: nat): nat {
    if n == 0 then 1 else 256 * Pow256(n - 1)
  }

  /** The n low bytes of x, least significant first. */
  function EncodeFixed(n: nat, x: nat): (s: Slice)
    ensures |s| == n
  {
    if n == 0 then [] else [x % 256] + EncodeFixed(n - 1, x / 256)
  }

  function DecodeFixed(s: Slice): nat {
    if s == [] then 0 else s[0] + 256 * DecodeFixed(s[1..])
  }

  lemma {:induction false} FixedRoundTrip(n: nat, x: nat)
    requires x < Pow256(n)
    ensures DecodeFixed(EncodeFixed(n, x)) == x
  {
    if n > 0 {
      FixedRoundTrip(n - 1, x / 256);
      assert EncodeFixed(n, x)[1..] == EncodeFixed(n - 1, x / 256);
    }
  }

  /** Every n-byte string is the encoding of exactly one number below 256^n. */
  lemma {:induction false} FixedOnto(s: Slice)
    ensures DecodeFixed(s) < Pow256(|s|)
    ensures EncodeFixed(|s|, DecodeFixed(s)) == s
  {
    if s != [] {
      FixedOnto(s[1..]);
      assert s == [s[0]] + s[1..];
      assert DecodeFixed(s) / 256 == DecodeFixed(s[1..]);
    }
  }

  lemma Pow256Values()
    ensures Pow256(4) == 0x1_0000_0000
    ensures Pow256(8) == 0x1_0000_0000_0000_0000
  {
    assert Pow256(2) == 65536;
    assert Pow256(4) == 65536 * Pow256(2);
    assert Pow256(6) == 65536 * Pow256(4);
    assert Pow256(8) == 65536 * Pow256(6);
  }

  function Zeros(n: nat): (s: Slice)
    ensures |s| == n
  {
    seq(n, _ => 0)
  }
}
