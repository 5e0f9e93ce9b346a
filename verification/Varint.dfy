/** Base 128 varints, as both libraries store them: seven bits a byte, least significant group first, and the
    top bit set on every byte but the last. */
module Varint {
  import opened Bytes

  function EncodeVarint(x: nat): (s: Slice)
    ensures |s| > 0
  {
    if x < 128 then [x] else [128 + x % 128] + EncodeVarint(x / 128)
  }

  /** A length, and that many bytes. */
  function LengthPrefixed(s: Slice): Slice {
    EncodeVarint(|s|) + s
  }

  lemma PrefixedIsLonger(s: Slice)
    ensures |s| < |LengthPrefixed(s)|
  {
  }

  function Pow128(n: nat): nat {
    if n == 0 then 1 else 128 * Pow128(n - 1)
  }

  /** A varint and nothing else. */
  ghost predicate IsVarint(s: Slice) {
    |s| > 0 && s[|s| - 1] < 128 && forall i :: 0 <= i < |s| - 1 ==> s[i] >= 128
  }

  /** The number that the groups of seven bits stand for. */
  ghost function GroupValue(s: Slice): nat {
    if s == [] then 0 else s[0] % 128 + 128 * GroupValue(s[1..])
  }

  lemma {:induction false} EncodeIsVarint(x: nat)
    ensures IsVarint(EncodeVarint(x)) && GroupValue(EncodeVarint(x)) == x
  {
    if x >= 128 {
      EncodeIsVarint(x / 128);
      var s, t := EncodeVarint(x), EncodeVarint(x / 128);
      assert s[1..] == t;
      assert s[|s| - 1] == t[|t| - 1];
      assert forall i :: 1 <= i < |s| - 1 ==> s[i] == t[i - 1];
    } else {
      assert EncodeVarint(x)[1..] == [];
    }
  }

  /** How many bytes a number takes. */
  lemma {:induction false} VarintSize(x: nat, n: nat)
    requires n > 0
    ensures |EncodeVarint(x)| <= n <==> x < Pow128(n)
  {
    if x >= 128 && n > 1 {
      VarintSize(x / 128, n - 1);
      assert Pow128(n) == 128 * Pow128(n - 1);
    } else if x >= 128 {
      assert Pow128(1) == 128 * Pow128(0);
    } else {
      Pow128Grows(1, n);
    }
  }

  lemma {:induction false} Pow128Grows(m: nat, n: nat)
    requires m <= n
    ensures 0 < Pow128(m) <= Pow128(n)
  {
    if m < n {
      Pow128Grows(m, n - 1);
    } else if m > 0 {
      Pow128Grows(m - 1, n - 1);
    }
  }

  lemma Pow128Values()
    ensures Pow128(1) == 0x80 && Pow128(2) == 0x4000 && Pow128(3) == 0x20_0000 && Pow128(4) == 0x1000_0000
    ensures Pow128(5) == 0x8_0000_0000 && Pow128(9) == 0x8000_0000_0000_0000 && Pow128(10) == 0x40_0000_0000_0000_0000
  {
    assert Pow128(2) == 0x4000;
    assert Pow128(4) == 0x4000 * Pow128(2);
    assert Pow128(6) == 0x4000 * Pow128(4);
    assert Pow128(8) == 0x4000 * Pow128(6);
    assert Pow128(10) == 0x4000 * Pow128(8);
  }
}
