/** Writing numbers and slices into a buffer, and reading them back. */
module Coding {
  import opened Bytes
  import opened Varint

  /** A buffer in which `s` was written at `p`. */
  ghost function Written(before: Slice, p: nat, s: Slice): (after: Slice)
    requires p + |s| <= |before|
    ensures |after| == |before|
  {
    before[..p] + s + before[p + |s|..]
  }

  lemma WrittenTwice(before: Slice, p: nat, s: Slice, t: Slice)
    requires p + |s| + |t| <= |before|
    ensures Written(Written(before, p, s), p + |s|, t) == Written(before, p, s + t)
  {
  }

  method CopyBytes(buf: array<byte>, p: nat, s: Slice) returns (p': nat)
    requires p + |s| <= buf.Length
    modifies buf
    ensures p' == p + |s| && buf[..] == Written(old(buf[..]), p, s)
  {
    var i := 0;
    while i < |s|
      invariant i <= |s|
      invariant forall k :: 0 <= k < buf.Length ==> buf[k] == if p <= k < p + i then s[k - p] else old(buf[k])
    {
      buf[p + i] := s[i];
      i := i + 1;
    }
    p' := p + |s|;
  }

  /** The bytes that EncodeVarint32 writes, chosen by the size of the number. */
  function Varint32Bytes(v: uint32): Slice {
    if v < 0x80 then [v]
    else if v < 0x4000 then [v % 128 + 128, v / 128]
    else if v < 0x20_0000 then [v % 128 + 128, v / 128 % 128 + 128, v / 0x4000]
    else if v < 0x1000_0000 then [v % 128 + 128, v / 128 % 128 + 128, v / 0x4000 % 128 + 128, v / 0x20_0000]
    else [v % 128 + 128, v / 128 % 128 + 128, v / 0x4000 % 128 + 128, v / 0x20_0000 % 128 + 128, v / 0x1000_0000]
  }

  lemma {:induction false} Varint32IsVarint(v: uint32)
    ensures Varint32Bytes(v) == EncodeVarint(v)
  {
    assert v / 128 / 128 == v / 0x4000;
    assert v / 0x4000 / 128 == v / 0x20_0000;
    assert v / 0x20_0000 / 128 == v / 0x1000_0000;
    if v >= 0x80 {
      assert EncodeVarint(v) == [128 + v % 128] + EncodeVarint(v / 128);
      if v >= 0x4000 {
        assert EncodeVarint(v / 128) == [128 + v / 128 % 128] + EncodeVarint(v / 0x4000);
        if v >= 0x20_0000 {
          assert EncodeVarint(v / 0x4000) == [128 + v / 0x4000 % 128] + EncodeVarint(v / 0x20_0000);
          if v >= 0x1000_0000 {
            assert EncodeVarint(v / 0x20_0000) == [128 + v / 0x20_0000 % 128] + EncodeVarint(v / 0x1000_0000);
          }
        }
      }
    }
  }

  method EncodeVarint32(buf: array<byte>, p: nat, v: uint32) returns (p': nat)
    requires p + |EncodeVarint(v)| <= buf.Length
    modifies buf
    ensures p' == p + |EncodeVarint(v)| && buf[..] == Written(old(buf[..]), p, EncodeVarint(v))
  {
    Varint32IsVarint(v);
    p' := CopyBytes(buf, p, Varint32Bytes(v));
  }

  method VarintLength(v: uint64) returns (len: nat)
    ensures len == |EncodeVarint(v)|
  {
    var rest := v;
    len := 1;
    while rest >= 128
      invariant len + |EncodeVarint(rest)| - 1 == |EncodeVarint(v)|
    {
      rest := rest / 128;
      len := len + 1;
    }
  }

  /** The next number, and where it ends. `x` is the number that was written there. */
  method GetVarint32Ptr(data: Slice, p: nat, limit: nat, ghost x: uint32) returns (value: uint32, p': nat)
    requires p + 5 <= limit && p <= |data| && EncodeVarint(x) <= data[p..]
    ensures value == x && p' == p + |EncodeVarint(x)|
  {
    hide EncodeVarint;
    value, p' := 0, p;
    var shift, scale := 0, 1;
    ghost var rest: nat := x;
    while shift <= 28 && p' < limit
      invariant shift <= 28 && 7 * (p' - p) == shift && p <= p' <= |data| && scale == Pow128(p' - p)
      invariant x == value + scale * rest && (p' > p ==> rest > 0)
      invariant EncodeVarint(rest) <= data[p'..] && p' + |EncodeVarint(rest)| == p + |EncodeVarint(x)|
      decreases rest
    {
      ReadGroup(data, p', rest);
      var b := data[p'];
      p' := p' + 1;
      Scaled(scale, rest);
      if b < 128 {
        value := value + scale * b;
        return;
      }
      value := value + scale * (b % 128);
      scale := scale * 128;
      rest := rest / 128;
      SmallScale(p' - p, scale, rest);
      shift := shift + 7;
    }
    assert false;
  }

  lemma Scaled(scale: nat, rest: nat)
    ensures scale * rest == scale * (rest % 128) + scale * 128 * (rest / 128)
  {
    assert rest == rest % 128 + 128 * (rest / 128);
    assert scale * rest == scale * (rest % 128 + 128 * (rest / 128));
  }

  lemma {:induction false} SmallScale(i: nat, scale: nat, rest: nat)
    requires scale == Pow128(i) && rest > 0 && scale * rest < 0x1_0000_0000
    ensures i <= 4
  {
    assert scale * rest == scale + scale * (rest - 1);
    if i > 4 {
      Pow128Grows(5, i);
      Pow128Values();
    }
  }

  /** The byte at `p` holds seven bits of the number written there. */
  lemma {:induction false} ReadGroup(data: Slice, p: nat, rest: nat)
    requires p <= |data| && EncodeVarint(rest) <= data[p..]
    ensures p < |data| && data[p] == if rest < 128 then rest else 128 + rest % 128
    ensures rest < 128 ==> |EncodeVarint(rest)| == 1
    ensures rest >= 128 ==> EncodeVarint(rest / 128) <= data[p + 1..]
                            && |EncodeVarint(rest)| == 1 + |EncodeVarint(rest / 128)|
  {
    var s := EncodeVarint(rest);
    assert data[p..][0] == s[0];
    if rest >= 128 {
      assert s[1..] == EncodeVarint(rest / 128);
      assert data[p..][1..] == data[p + 1..];
    }
  }
}
