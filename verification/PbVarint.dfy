/** nanopb's integers on the wire: varints of 64 and of 32 bits, and zigzag. */
module PbVarint {
  import opened Bytes
  import opened Varint

  const TWO_31 := 0x8000_0000
  const TWO_32 := 0x1_0000_0000
  const TWO_64 := 0x1_0000_0000_0000_0000

  /** Reading from the front of what is left of a stream. */
  datatype Read<+T> = Got(value: T, rest: Slice) | Bad

  // ----- bits -----

  function Pow2(n: nat): nat {
    if n == 0 then 1 else 2 * Pow2(n - 1)
  }

  function Low32(x: nat): nat {
    x % TWO_32
  }

  function Low64(x: nat): nat {
    x % TWO_64
  }

  function BitOr(a: nat, b: nat): nat
    decreases a + b
  {
    if a == 0 then b
    else if b == 0 then a
    else (if a % 2 == 1 || b % 2 == 1 then 1 else 0) + 2 * BitOr(a / 2, b / 2)
  }

  /** Numbers that share no bits add up. */
  lemma {:induction false} BitOrDisjoint(a: nat, c: nat, k: nat)
    requires a < Pow2(k)
    ensures BitOr(a, c * Pow2(k)) == a + c * Pow2(k)
  {
    if k > 0 && a > 0 {
      BitOrDisjoint(a / 2, c, k - 1);
      Doubled(c, Pow2(k - 1));
      BitOrEven(a, c * Pow2(k - 1));
    }
  }

  lemma Doubled(c: nat, p: nat)
    ensures c * (2 * p) == 2 * (c * p)
  {
  }

  lemma {:induction false} BitOrEven(a: nat, m: nat)
    ensures BitOr(a, 2 * m) == a % 2 + 2 * BitOr(a / 2, m)
  {
  }

  lemma Pow2Step(k: nat)
    ensures Pow2(k + 7) == 128 * Pow2(k)
  {
    assert Pow2(k + 2) == 4 * Pow2(k);
    assert Pow2(k + 4) == 4 * Pow2(k + 2);
    assert Pow2(k + 6) == 4 * Pow2(k + 4);
  }

  lemma {:induction false} SevenBits(n: nat)
    ensures Pow2(7 * n) == Pow128(n)
  {
    if n > 0 {
      SevenBits(n - 1);
      Pow2Step(7 * n - 7);
    }
  }

  // ----- decoding, as the loops do it -----

  /** pb_decode_varint, after some bytes. */
  function Loop64(s: Slice, bitpos: nat, result: nat): Read<nat> {
    if bitpos >= 64 then Bad
    else if s == [] then Bad
    else
      var result' := BitOr(result, Low64(s[0] % 128 * Pow2(bitpos)));
      if s[0] >= 128 then Loop64(s[1..], bitpos + 7, result') else Got(result', s[1..])
  }

  function ReadVarint64(s: Slice): Read<nat> {
    Loop64(s, 0, 0)
  }

  /** pb_decode_varint32_eof, after the first byte. `bitpos` has 8 bits. */
  function Loop32(s: Slice, bitpos: nat, result: nat): Read<nat> {
    if s == [] then Bad
    else
      var b := s[0];
      var signExtension := if bitpos < 63 then 0xff else 0x01;
      if bitpos >= 32 && b % 128 != 0 && (result < TWO_31 || b != signExtension) then Bad
      else
        var result' := if bitpos >= 32 then result else BitOr(result, Low32(b % 128 * Pow2(bitpos)));
        var bitpos' := (bitpos + 7) % 256;
        if b >= 128 then Loop32(s[1..], bitpos', result')
        else if bitpos' == 35 && b >= 16 then Bad
        else Got(result', s[1..])
  }

  function ReadVarint32(s: Slice): Read<nat> {
    if s == [] then Bad
    else if s[0] < 128 then Got(s[0], s[1..])
    else Loop32(s[1..], 7, s[0] % 128)
  }

  // ----- what they compute -----

  /** The number of bytes of the varint at the front. */
  ghost function VarintEnd(s: Slice): (n: Option<nat>)
    ensures n.Some? ==> 0 < n.value <= |s|
  {
    if s == [] then None
    else if s[0] < 128 then Some(1)
    else match VarintEnd(s[1..]) case None => None case Some(n) => Some(n + 1)
  }

  lemma GroupStep(s: Slice, n: nat, scale: nat, g: nat)
    requires 0 < n <= |s|
    ensures g + scale * GroupValue(s[..n]) == g + s[0] % 128 * scale + 128 * scale * GroupValue(s[1..][..n - 1])
  {
    assert s[..n][1..] == s[1..][..n - 1];
    var x := GroupValue(s[1..][..n - 1]);
    assert GroupValue(s[..n]) == s[0] % 128 + 128 * x;
    assert scale * (s[0] % 128 + 128 * x) == scale * (s[0] % 128) + scale * (128 * x);
    assert scale * (128 * x) == 128 * scale * x;
  }

  lemma BelowNext(g: nat, b: nat, p: nat)
    requires g < p && b < 128
    ensures g + b * p < 128 * p
  {
    var c: nat := 127 - b;
    assert 128 * p == p + (b + c) * p;
    assert (b + c) * p == b * p + c * p;
  }

  lemma Pow128Step(i: nat)
    ensures Pow128(i + 1) == 128 * Pow128(i)
  {
  }

  lemma {:induction false} OrWhole(g: nat, b: nat, i: nat)
    requires g < Pow128(i) && b < 128
    ensures Pow2(7 * i) == Pow128(i) && g + b * Pow128(i) < Pow128(i + 1)
    ensures BitOr(g, b * Pow128(i)) == g + b * Pow128(i)
  {
    hide Pow2, Pow128, BitOr;
    SevenBits(i);
    BitOrDisjoint(g, b, 7 * i);
    BelowNext(g, b, Pow128(i));
    Pow128Step(i);
  }

  lemma LowSmall(x: nat)
    ensures x < TWO_32 ==> Low32(x) == x
    ensures x < TWO_64 ==> Low64(x) == x
  {
  }

  lemma LastGroup64(g: nat, b: nat)
    requires g < 0x8000_0000_0000_0000
    ensures Low64(b * 0x8000_0000_0000_0000) == b % 2 * 0x8000_0000_0000_0000
    ensures Low64(g + b * 0x8000_0000_0000_0000) == g + b % 2 * 0x8000_0000_0000_0000
  {
    hide Low64;
    var q, r := b / 2, b % 2;
    assert b * 0x8000_0000_0000_0000 == q * TWO_64 + r * 0x8000_0000_0000_0000;
    Low64Of(q, r * 0x8000_0000_0000_0000);
    Low64Of(q, g + r * 0x8000_0000_0000_0000);
  }

  lemma Low64Of(q: nat, x: nat)
    requires x < TWO_64
    ensures Low64(q * TWO_64 + x) == x
  {
  }

  lemma LastGroup32(g: nat, b: nat)
    requires g < 0x1000_0000
    ensures Low32(b * 0x1000_0000) == b % 16 * 0x1000_0000
    ensures Low32(g + b * 0x1000_0000) == g + b % 16 * 0x1000_0000
  {
    hide Low32;
    var q, r := b / 16, b % 16;
    assert b * 0x1000_0000 == q * TWO_32 + r * 0x1000_0000;
    Low32Of(q, r * 0x1000_0000);
    Low32Of(q, g + r * 0x1000_0000);
  }

  lemma Low32Of(q: nat, x: nat)
    requires x < TWO_32
    ensures Low32(q * TWO_32 + x) == x
  {
  }

  /** Or-ing in the next group adds it, up to the width of the result. */
  lemma {:induction false} OrGroup64(g: nat, b: nat, i: nat)
    requires g < Pow128(i) && b < 128 && i < 10
    ensures BitOr(g, Low64(b * Pow2(7 * i))) == Low64(g + b * Pow128(i))
    ensures g + b * Pow128(i) < Pow128(i + 1)
  {
    hide Pow2, Pow128, BitOr, Low64;
    OrWhole(g, b, i);
    if i < 9 {
      SmallGroups64(g, b * Pow128(i), i);
    } else {
      Pow128Values();
      OrWhole(g, b % 2, i);
      LastGroup64(g, b);
    }
  }

  lemma SmallGroups64(g: nat, x: nat, i: nat)
    requires i < 9 && g + x < Pow128(i + 1)
    ensures Low64(x) == x && Low64(g + x) == g + x
  {
    hide Pow128;
    Pow128Values();
    Pow128Grows(i + 1, 9);
  }

  lemma {:induction false} OrGroup32(g: nat, b: nat, i: nat)
    requires g < Pow128(i) && b < 128 && i < 5
    ensures BitOr(g, Low32(b * Pow2(7 * i))) == Low32(g + b * Pow128(i))
    ensures g + b * Pow128(i) < Pow128(i + 1)
  {
    hide Pow2, Pow128, BitOr, Low32;
    OrWhole(g, b, i);
    if i < 4 {
      SmallGroups(g, b * Pow128(i), i);
    } else {
      Pow128Values();
      OrWhole(g, b % 16, i);
      LastGroup32(g, b);
    }
  }

  lemma SmallGroups(g: nat, x: nat, i: nat)
    requires i < 4 && g + x < Pow128(i + 1)
    ensures Low32(x) == x && Low32(g + x) == g + x
  {
    hide Pow128;
    Pow128Values();
    Pow128Grows(i + 1, 4);
  }

  /** One turn of the 64-bit loop. */
  lemma Loop64Step(s: Slice, i: nat, g: nat)
    requires i <= 10 && g < Pow128(i)
    ensures Loop64(s, 7 * i, Low64(g))
         == if i == 10 || s == [] then Bad
            else if s[0] >= 128 then Loop64(s[1..], 7 * (i + 1), Low64(g + s[0] % 128 * Pow128(i)))
            else Got(Low64(g + s[0] % 128 * Pow128(i)), s[1..])
    ensures i < 10 && s != [] ==> g + s[0] % 128 * Pow128(i) < Pow128(i + 1)
  {
    hide Pow128, Pow2, BitOr, Low64;
    if i < 10 && s != [] {
      LowBits64(g, s[0] % 128, i);
    }
  }

  /** What the 64-bit loop does after `i` bytes with the value `g`. */
  lemma {:induction false} Loop64Is(s: Slice, i: nat, g: nat)
    requires i <= 10 && g < Pow128(i)
    ensures var n := VarintEnd(s);
      Loop64(s, 7 * i, Low64(g))
      == if n.Some? && i + n.value <= 10 then Got(Low64(g + Pow128(i) * GroupValue(s[..n.value])), s[n.value..]) else Bad
    decreases 10 - i
  {
    hide Pow128, Loop64, GroupValue, Low64;
    Loop64Step(s, i, g);
    if i < 10 && s != [] {
      if s[0] >= 128 {
        Loop64Is(s[1..], i + 1, g + s[0] % 128 * Pow128(i));
        if VarintEnd(s).Some? {
          var n := VarintEnd(s).value;
          GroupStep(s, n, Pow128(i), g);
          Pow128Step(i);
          assert s[1..][n - 1..] == s[n..];
        }
      } else {
        GroupStep(s, 1, Pow128(i), g);
        NoGroups(s[1..][..0]);
      }
    }
  }

  lemma LowBits64(g: nat, b: nat, i: nat)
    requires g < Pow128(i) && b < 128 && i < 10
    ensures BitOr(Low64(g), Low64(b * Pow2(7 * i))) == Low64(g + b * Pow128(i))
    ensures g + b * Pow128(i) < Pow128(i + 1)
  {
    hide Pow128, Pow2, BitOr;
    Pow128Values();
    Pow128Grows(i, 9);
    OrGroup64(g, b, i);
  }

  lemma {:induction false} NoGroups(s: Slice)
    requires s == []
    ensures GroupValue(s) == 0 && forall k: nat :: k * GroupValue(s) == 0
  {
  }

  /** pb_decode_varint accepts a varint of at most ten bytes, and its value is taken modulo 2 to the 64. */
  lemma {:induction false} ReadVarint64Is(s: Slice)
    ensures var n := VarintEnd(s);
      ReadVarint64(s)
      == if n.Some? && n.value <= 10 then Got(Low64(GroupValue(s[..n.value])), s[n.value..]) else Bad
  {
    hide Loop64, GroupValue, VarintEnd;
    Loop64Is(s, 0, 0);
  }

  lemma {:induction false} HighGroups(i: nat, x: nat, g: nat)
    requires 5 <= i
    ensures Low32(g + Pow128(i) * x) == Low32(g)
  {
    hide Pow128;
    Pow128Values();
    Pow128Split(5, i - 5);
    var y := Pow128(i - 5) * x;
    assert Pow128(i) * x == Pow128(5) * y by {
      assert Pow128(5) * Pow128(i - 5) * x == Pow128(5) * (Pow128(i - 5) * x);
    }
    assert (g + 8 * y * TWO_32) % TWO_32 == Low32(g);
  }

  lemma {:induction false} Pow128Split(a: nat, b: nat)
    ensures Pow128(a + b) == Pow128(a) * Pow128(b)
  {
    if b > 0 {
      Pow128Split(a, b - 1);
      assert Pow128(a) * Pow128(b) == 128 * (Pow128(a) * Pow128(b - 1));
    }
  }

  /** As long as the 32-bit loop goes on, it keeps the low 32 bits of the value. */
  lemma {:induction false} Loop32Is(s: Slice, i: nat, g: nat)
    requires 1 <= i <= 10 && g < Pow128(i)
    requires VarintEnd(s).Some? && i + VarintEnd(s).value <= 10
    ensures var r, n := Loop32(s, 7 * i, Low32(g)), VarintEnd(s).value;
      r.Got? ==> r == Got(Low32(g + Pow128(i) * GroupValue(s[..n])), s[n..])
    decreases 10 - i
  {
    hide Pow128, Pow2, BitOr, GroupValue, Low32;
    Pow128Values();
    var n := VarintEnd(s).value;
    var g' := g + s[0] % 128 * Pow128(i);
    LowBits(g, s[0] % 128, i);
    GroupStep(s, n, Pow128(i), g);
    if s[0] >= 128 {
      Loop32Is(s[1..], i + 1, g');
      Pow128Step(i);
      assert s[1..][n - 1..] == s[n..];
    } else {
      NoGroups(s[1..][..0]);
    }
  }

  lemma LowBits(g: nat, b: nat, i: nat)
    requires g < Pow128(i) && b < 128
    ensures g + b * Pow128(i) < Pow128(i + 1)
    ensures i < 5 ==> BitOr(Low32(g), Low32(b * Pow2(7 * i))) == Low32(g + b * Pow128(i))
    ensures i >= 5 ==> Low32(g) == Low32(g + b * Pow128(i))
  {
    hide Pow128, Pow2, BitOr;
    Pow128Values();
    if i < 5 {
      Pow128Grows(i, 4);
      OrGroup32(g, b, i);
    } else {
      HighGroups(i, b, g);
      BelowNext(g, b, Pow128(i));
      Pow128Step(i);
    }
  }

  lemma FirstGroup(s: Slice, n: nat)
    requires 0 < n <= |s|
    ensures GroupValue(s[..n]) == s[0] % 128 + Pow128(1) * GroupValue(s[1..][..n - 1])
  {
    assert s[..n][1..] == s[1..][..n - 1];
  }

  /** What pb_decode_varint32 accepts of up to ten bytes it reads modulo 2 to the 32. */
  lemma {:induction false} ReadVarint32Is(s: Slice)
    requires VarintEnd(s).Some? && VarintEnd(s).value <= 10
    ensures ReadVarint32(s).Got? ==>
      ReadVarint32(s) == Got(Low32(GroupValue(s[..VarintEnd(s).value])), s[VarintEnd(s).value..])
  {
    hide Loop32, GroupValue, Pow128;
    var n := VarintEnd(s).value;
    FirstGroup(s, n);
    if s[0] >= 128 {
      Pow128Values();
      Loop32Is(s[1..], 1, s[0] % 128);
      assert s[1..][n - 1..] == s[n..];
    } else {
      NoGroups(s[1..][..0]);
    }
  }

  lemma LowHalf(x: nat)
    ensures Low64(x) % TWO_32 == Low32(x)
  {
    assert x == x / TWO_64 * TWO_64 + x % TWO_64;
  }

  /** Whenever both decoders accept the same bytes, they read as far, and the 32-bit result is the low half of
      the 64-bit one. */
  lemma DecodersAgree(s: Slice)
    requires ReadVarint32(s).Got? && ReadVarint64(s).Got?
    ensures ReadVarint32(s).value == ReadVarint64(s).value % TWO_32 && ReadVarint32(s).rest == ReadVarint64(s).rest
  {
    hide ReadVarint32, ReadVarint64, GroupValue, VarintEnd;
    ReadVarint64Is(s);
    ReadVarint32Is(s);
    LowHalf(GroupValue(s[..VarintEnd(s).value]));
  }

  // ----- every number that is encoded is read back -----

  lemma {:induction false} EncodedEnd(x: nat, t: Slice)
    ensures VarintEnd(EncodeVarint(x) + t) == Some(|EncodeVarint(x)|)
  {
    if x >= 128 {
      EncodedEnd(x / 128, t);
      assert (EncodeVarint(x) + t)[1..] == EncodeVarint(x / 128) + t;
    }
  }

  /** 64-bit decoding inverts encoding, for every number of 64 bits. */
  lemma {:induction false} Varint64RoundTrip(x: uint64, t: Slice)
    ensures ReadVarint64(EncodeVarint(x) + t) == Got(x, t)
  {
    hide GroupValue, Loop64, Pow128, EncodeVarint, VarintEnd, ReadVarint64;
    var s := EncodeVarint(x);
    ReadVarint64Is(s + t);
    EncodedEnd(x, t);
    EncodeIsVarint(x);
    Pow128Values();
    VarintSize(x, 10);
    assert (s + t)[..|s|] == s && (s + t)[|s|..] == t;
  }

  /** The encoder's buffer is large enough. */
  lemma {:induction false} TenBytesAreEnough(x: uint64)
    ensures |EncodeVarint(x)| <= 10
  {
    hide Pow128;
    Pow128Values();
    VarintSize(x, 10);
  }

  /** One turn of the 32-bit loop over the low 35 bits. */
  lemma Loop32Step(s: Slice, i: nat, g: nat)
    requires s != [] && 1 <= i <= 4 && g < Pow128(i)
    ensures Loop32(s, 7 * i, Low32(g))
         == if s[0] >= 128 then Loop32(s[1..], 7 * (i + 1), Low32(g + s[0] % 128 * Pow128(i)))
            else if i == 4 && s[0] >= 16 then Bad
            else Got(Low32(g + s[0] % 128 * Pow128(i)), s[1..])
    ensures g + s[0] % 128 * Pow128(i) < Pow128(i + 1)
  {
    hide Pow128, Pow2, BitOr, Low32;
    LowBits(g, s[0] % 128, i);
  }

  lemma {:induction false} AcceptLast(y: nat, i: nat, g: nat, t: Slice)
    requires 1 <= i <= 4 && g < Pow128(i) && y < 128 && g + Pow128(i) * y < TWO_32
    ensures Loop32([y] + t, 7 * i, g) == Got(g + Pow128(i) * y, t)
  {
    hide Pow128, Loop32, Low32;
    Pow128Values();
    assert ([y] + t)[1..] == t;
    LowSmall(g);
    LowSmall(g + Pow128(i) * y);
    Loop32Step([y] + t, i, g);
  }

  lemma AcceptMore(c: nat, q: nat, i: nat, g: nat, s: Slice)
    requires 1 <= i <= 4 && g < Pow128(i) && c < 128 && q > 0 && g + Pow128(i) * (c + 128 * q) < TWO_32
    ensures i < 4 && g + c * Pow128(i) < Pow128(i + 1)
    ensures g + Pow128(i) * (c + 128 * q) == g + c * Pow128(i) + Pow128(i + 1) * q
    ensures Loop32([128 + c] + s, 7 * i, g) == Loop32(s, 7 * (i + 1), g + c * Pow128(i))
  {
    hide Pow128, Loop32, Low32;
    Pow128Values();
    assert ([128 + c] + s)[1..] == s;
    LowSmall(g);
    LowSmall(g + c * Pow128(i));
    Loop32Step([128 + c] + s, i, g);
  }

  /** The 32-bit loop takes in the groups of a number of 32 bits. */
  lemma {:induction false} Loop32Accepts(y: nat, i: nat, g: nat, t: Slice)
    requires 1 <= i <= 4 && g < Pow128(i) && g + Pow128(i) * y < TWO_32
    ensures Loop32(EncodeVarint(y) + t, 7 * i, g) == Got(g + Pow128(i) * y, t)
    decreases y
  {
    hide Pow128, Loop32;
    if y < 128 {
      AcceptLast(y, i, g, t);
    } else {
      var c, q := y % 128, y / 128;
      assert y == c + 128 * q;
      AcceptMore(c, q, i, g, EncodeVarint(q) + t);
      assert EncodeVarint(y) + t == [128 + c] + (EncodeVarint(q) + t);
      Loop32Accepts(q, i + 1, g + c * Pow128(i), t);
    }
  }

  /** The 32-bit decoder accepts the encoding of every number of 32 bits. */
  lemma {:induction false} Varint32RoundTrip(x: uint32, t: Slice)
    ensures ReadVarint32(EncodeVarint(x) + t) == Got(x, t)
  {
    hide Pow128, Loop32;
    if x < 128 {
      assert (EncodeVarint(x) + t)[1..] == t;
    } else {
      var c, q := x % 128, x / 128;
      assert x == c + 128 * q;
      var s := EncodeVarint(q) + t;
      assert EncodeVarint(x) + t == [128 + c] + s && ([128 + c] + s)[1..] == s;
      FirstGroupAccepted(c, q, t);
    }
  }

  lemma {:induction false} FirstGroupAccepted(c: nat, q: nat, t: Slice)
    requires c < 128 && c + 128 * q < TWO_32
    ensures Loop32(EncodeVarint(q) + t, 7, c) == Got(c + 128 * q, t)
  {
    hide Pow128, Loop32, EncodeVarint;
    Pow128Values();
    Loop32Accepts(q, 1, c, t);
  }

  // ----- negative numbers -----

  /** The number of `m` states that has the same bits as `v`, and back. */
  function ToUnsigned(v: int, m: nat): nat
    requires m > 0
  {
    v % m
  }

  function ToSigned(u: nat, m: nat): int
    requires m > 0
  {
    var r := u % m;
    if r >= m / 2 then r - m else r
  }

  lemma UnsignedIsSmall(v: int)
    ensures ToUnsigned(v, TWO_64) < TWO_64
  {
  }

  lemma SignedRoundTrip(v: int, m: nat)
    requires m == 0x100 || m == 0x1_0000 || m == TWO_32 || m == TWO_64
    requires -(m / 2) <= v < m / 2
    ensures ToSigned(ToUnsigned(v, m), m) == v && ToUnsigned(v, m) < m
  {
    assert v % m == if v < 0 then v + m else v;
  }

  /** After five bytes of a negative number the 32-bit loop only checks the sign extension. */
  lemma {:induction false} Loop32SignExtension(result: nat, t: Slice)
    requires TWO_31 <= result < TWO_32
    ensures Loop32([0xff, 0xff, 0xff, 0xff, 0x01] + t, 35, result) == Got(result, t)
  {
    hide BitOr, Pow2;
    var s := [0xff, 0xff, 0xff, 0xff, 0x01] + t;
    assert s[1..][1..][1..][1..] == [0x01] + t && s[1..][1..][1..][1..][1..] == t;
    assert s[1..] == [0xff, 0xff, 0xff, 0x01] + t && s[1..][1..] == [0xff, 0xff, 0x01] + t
        && s[1..][1..][1..] == [0xff, 0x01] + t;
    calc {
      Loop32(s, 35, result);
      Loop32([0xff, 0xff, 0xff, 0x01] + t, 42, result);
      Loop32([0xff, 0xff, 0x01] + t, 49, result);
      Loop32([0xff, 0x01] + t, 56, result);
      Loop32([0x01] + t, 63, result);
      Got(result, t);
    }
  }

  lemma {:induction false} EncodeStep(x: nat)
    requires x >= 128
    ensures EncodeVarint(x) == [128 + x % 128] + EncodeVarint(x / 128)
  {
  }

  lemma SignGroups()
    ensures EncodeVarint(0x1fff_ffff) == [0xff, 0xff, 0xff, 0xff, 0x01]
  {
    hide EncodeVarint;
    EncodeStep(0x1fff_ffff);
    EncodeStep(0x3f_ffff);
    EncodeStep(0x7fff);
    EncodeStep(0xff);
    OneByte();
  }

  lemma OneByte()
    ensures EncodeVarint(1) == [1]
  {
  }

  /** A number by its five low groups and the rest. */
  function FromGroups(c0: nat, c1: nat, c2: nat, c3: nat, c4: nat, rest: nat): nat {
    c0 + 0x80 * c1 + 0x4000 * c2 + 0x20_0000 * c3 + 0x1000_0000 * c4 + 0x8_0000_0000 * rest
  }

  lemma GroupsOf(x: uint64) returns (c0: nat, c1: nat, c2: nat, c3: nat, c4: nat)
    ensures c0 < 128 && c1 < 128 && c2 < 128 && c3 < 128 && c4 < 128
    ensures x >= TWO_64 - TWO_31 ==> x == FromGroups(c0, c1, c2, c3, c4, 0x1fff_ffff)
  {
    var x1 := x / 128;
    var x2 := x1 / 128;
    var x3 := x2 / 128;
    var x4 := x3 / 128;
    c0, c1, c2, c3, c4 := x % 128, x1 % 128, x2 % 128, x3 % 128, x4 % 128;
    assert x == 128 * x1 + c0 && x1 == 128 * x2 + c1 && x2 == 128 * x3 + c2 && x3 == 128 * x4 + c3;
    assert x4 == 128 * (x4 / 128) + c4;
  }

  lemma NextGroup(c: nat, q: nat)
    requires c < 128 && q > 0
    ensures EncodeVarint(c + 128 * q) == [128 + c] + EncodeVarint(q)
  {
    assert (c + 128 * q) % 128 == c && (c + 128 * q) / 128 == q;
  }

  /** The encoding of a negative number of 32 bits, as one of 64 bits: five groups, then the sign. */
  lemma NegativeGroups(c0: nat, c1: nat, c2: nat, c3: nat, c4: nat)
    requires c0 < 128 && c1 < 128 && c2 < 128 && c3 < 128 && c4 < 128
    ensures EncodeVarint(FromGroups(c0, c1, c2, c3, c4, 0x1fff_ffff))
         == [128 + c0] + [128 + c1, 128 + c2, 128 + c3, 128 + c4] + [0xff, 0xff, 0xff, 0xff, 0x01]
  {
    hide EncodeVarint;
    SignGroups();
    var q4 := c4 + 128 * 0x1fff_ffff;
    var q3 := c3 + 128 * q4;
    var q2 := c2 + 128 * q3;
    var q1 := c1 + 128 * q2;
    NextGroup(c4, 0x1fff_ffff);
    NextGroup(c3, q4);
    NextGroup(c2, q3);
    NextGroup(c1, q2);
    NextGroup(c0, q1);
    assert FromGroups(c0, c1, c2, c3, c4, 0x1fff_ffff) == c0 + 128 * q1;
  }

  lemma Bits(v: int)
    requires -TWO_31 <= v < 0
    ensures ToUnsigned(v, TWO_64) == v + TWO_64 && ToUnsigned(v, TWO_32) == v + TWO_32 == Low32(v + TWO_64)
  {
  }

  lemma LowGroups(c0: nat, c1: nat, c2: nat, c3: nat, c4: nat, rest: nat)
    ensures Low32(FromGroups(c0, c1, c2, c3, c4, 0)) == Low32(FromGroups(c0, c1, c2, c3, c4, rest))
  {
    assert FromGroups(c0, c1, c2, c3, c4, rest) == FromGroups(c0, c1, c2, c3, c4, 0) + TWO_32 * (8 * rest);
  }

  /** The 32-bit decoder accepts the encoding of a negative number of 32 bits that was sign-extended to 64. */
  lemma NegativeRoundTrip(v: int, t: Slice)
    requires -TWO_31 <= v < 0
    ensures ReadVarint32(EncodeVarint(ToUnsigned(v, TWO_64)) + t) == Got(ToUnsigned(v, TWO_32), t)
  {
    hide Loop32, EncodeVarint, Low32, ToUnsigned, FromGroups, ReadVarint32;
    var x := v + TWO_64;
    Bits(v);
    var c0, c1, c2, c3, c4 := GroupsOf(x);
    NegativeGroups(c0, c1, c2, c3, c4);
    var sign := [0xff, 0xff, 0xff, 0xff, 0x01] + t;
    NegativeLoop(c0, c1, c2, c3, c4, sign);
    LowGroups(c0, c1, c2, c3, c4, 0x1fff_ffff);
    Loop32SignExtension(Low32(x), t);
    assert EncodeVarint(x) + t == [128 + c0] + [128 + c1, 128 + c2, 128 + c3, 128 + c4] + sign;
  }

  lemma Loop32More(c: nat, i: nat, p: nat, g: nat, s: Slice)
    requires c < 128 && 1 <= i <= 4 && p == Pow128(i) && g < p
    ensures Loop32([128 + c] + s, 7 * i, Low32(g)) == Loop32(s, 7 * (i + 1), Low32(g + c * p))
  {
    hide Pow128, Loop32, Low32;
    assert ([128 + c] + s)[1..] == s;
    Loop32Step([128 + c] + s, i, g);
  }

  /** The first five bytes bring in the low 32 bits. */
  lemma {:induction false} NegativeLoop(c0: nat, c1: nat, c2: nat, c3: nat, c4: nat, sign: Slice)
    requires c0 < 128 && c1 < 128 && c2 < 128 && c3 < 128 && c4 < 128
    ensures ReadVarint32([128 + c0] + [128 + c1, 128 + c2, 128 + c3, 128 + c4] + sign)
         == Loop32(sign, 35, Low32(FromGroups(c0, c1, c2, c3, c4, 0)))
  {
    hide Pow128, Loop32, Low32;
    Pow128Values();
    LowSmall(c0);
    var s3 := [128 + c4] + sign;
    var s2 := [128 + c3] + s3;
    var s1 := [128 + c2] + s2;
    var s0 := [128 + c1] + s1;
    var g2, g3 := c0 + c1 * 0x80, c0 + c1 * 0x80 + c2 * 0x4000;
    var g4 := g3 + c3 * 0x20_0000;
    Loop32More(c1, 1, 0x80, c0, s1);
    Loop32More(c2, 2, 0x4000, g2, s2);
    Loop32More(c3, 3, 0x20_0000, g3, s3);
    Loop32More(c4, 4, 0x1000_0000, g4, sign);
    var s: Slice := [128 + c0] + [128 + c1, 128 + c2, 128 + c3, 128 + c4] + sign;
    assert s[0] == 128 + c0 && s[1..] == s0;
  }

  // ----- zigzag -----

  /** pb_encode_svarint: the sign goes to the lowest bit. */
  function Zigzag(v: int): nat
    requires -(TWO_64 / 2) <= v < TWO_64 / 2
  {
    var shifted := ToUnsigned(2 * v, TWO_64);
    if v < 0 then TWO_64 - 1 - shifted else shifted
  }

  /** pb_decode_svarint. */
  function Unzigzag(u: uint64): int {
    ToSigned(if u % 2 == 1 then TWO_64 - 1 - u / 2 else u / 2, TWO_64)
  }

  lemma Wraps(v: int)
    requires -TWO_64 <= v < TWO_64
    ensures ToUnsigned(v, TWO_64) == if v < 0 then v + TWO_64 else v
  {
  }

  /** Zigzag is a bijection between the signed and the unsigned numbers of 64 bits. */
  lemma ZigzagRoundTrip(v: int, u: uint64)
    requires -(TWO_64 / 2) <= v < TWO_64 / 2
    ensures Zigzag(v) < TWO_64 && Unzigzag(Zigzag(v)) == v
    ensures -(TWO_64 / 2) <= Unzigzag(u) < TWO_64 / 2 && Zigzag(Unzigzag(u)) == u
  {
    hide ToUnsigned;
    Wraps(2 * v);
    Wraps(2 * Unzigzag(u));
  }
}
