/** Which bytes the decoder accepts and which it refuses, case by case, and what the encoder does not write. */
module PbAccepts {
  import opened Bytes
  import opened Varint
  import opened PbVarint
  import opened PbFormat
  import opened PbDecoding
  import opened PbRoundTrip
  import opened PbWire
  import opened PbBounds

  // ----- numbers -----

  /** Half the number of values of a field of `size` bytes. */
  function Half(size: nat): int {
    if size == 1 then 0x80 else if size == 2 then 0x8000 else if size == 4 then 0x8000_0000 else 0x8000_0000_0000_0000
  }

  /** A 64-bit number as a signed one of 64 bits, or its low half as one of 32. */
  function Signed(u: uint64, wide: bool): int {
    if wide then (if u >= 0x8000_0000_0000_0000 then u - 0x1_0000_0000_0000_0000 else u)
    else if u % 0x1_0000_0000 >= 0x8000_0000 then u % 0x1_0000_0000 - 0x1_0000_0000 else u % 0x1_0000_0000
  }

  lemma CastFits(v: int, size: nat)
    requires IsSize(size)
    ensures Cast(v, size) == v <==> -Half(size) <= v < Half(size)
  {
    hide Cast;
    CastInRange(v, size);
    if -Half(size) <= v < Half(size) {
      SignedFits(v, size);
    }
  }

  /** Signed numbers: fields of 32 bits and less look at the low half only; what does not fit the field is refused, and
      never cut. */
  lemma VarIntAccepted(u: uint64, size: nat)
    requires IsSize(size)
    ensures var v := Signed(u, size == 8); FitVarint(u, size) == if -Half(size) <= v < Half(size) then Some(v) else None
  {
    hide Cast;
    assert ToSigned(u, TWO_64) == Signed(u, true) && ToSigned(u, TWO_32) == Signed(u, false);
    CastFits(Signed(u, size == 8), size);
  }

  lemma UVarIntAccepted(u: uint64, size: nat)
    requires IsSize(size)
    ensures FitUVarint(u, size) == if u < 2 * Half(size) then Some(u) else None
  {
  }

  lemma SVarIntAccepted(u: uint64, size: nat)
    requires IsSize(size)
    ensures var v := if u % 2 == 0 then u / 2 else -(u / 2) - 1;
      FitSVarint(u, size) == if -Half(size) <= v < Half(size) then Some(v) else None
  {
    hide Cast;
    CastFits(Unzigzag(u), size);
  }

  lemma BoolAccepted(n: nat, t: Slice)
    requires n < 128
    ensures DecodeNumber(Bool, [n] + t) == Got(Num(if n == 0 then 0 else 1), t)
  {
    hide ReadVarint32;
    SmallRead(n, t);
  }

  // ----- 32-bit varints -----

  /** A byte from the sixth on, at place `k`: nothing but zeros, or the sign extension of a negative number to 64 bits. */
  predicate HighByte(b: byte, k: nat, negative: bool) {
    b % 128 == 0 || (negative && b == if k < 9 then 255 else 1)
  }

  /** After five bytes; `s` is what follows, from place `i` on. */
  lemma {:induction false} HighBytesAccepted(s: Slice, i: nat, result: nat)
    requires 5 <= i && VarintEnd(s).Some? && i + VarintEnd(s).value <= 36
    ensures Loop32(s, 7 * i, result).Got?
       <==> forall k :: 0 <= k < VarintEnd(s).value ==> HighByte(s[k], i + k, result >= 0x8000_0000)
    decreases |s|
  {
    hide BitOr, Low32, Pow2;
    var n, negative := VarintEnd(s).value, result >= 0x8000_0000;
    if s[0] >= 128 {
      HighBytesAccepted(s[1..], i + 1, result);
      assert (7 * i + 7) % 256 == 7 * (i + 1);
      ShiftedBytes(s, n, i, negative);
    }
  }

  lemma {:induction false} ShiftedBytes(s: Slice, n: nat, i: nat, negative: bool)
    requires 0 < n <= |s|
    ensures (forall k :: 0 <= k < n ==> HighByte(s[k], i + k, negative))
      <==> HighByte(s[0], i, negative) && forall k :: 0 <= k < n - 1 ==> HighByte(s[1..][k], i + 1 + k, negative)
  {
    hide HighByte;
    if HighByte(s[0], i, negative) && forall k :: 0 <= k < n - 1 ==> HighByte(s[1..][k], i + 1 + k, negative) {
      forall k | 0 <= k < n
        ensures HighByte(s[k], i + k, negative)
      {
        if k > 0 {
          assert HighByte(s[1..][k - 1], i + 1 + (k - 1), negative);
        }
      }
    } else if forall k :: 0 <= k < n ==> HighByte(s[k], i + k, negative) {
      forall k | 0 <= k < n - 1
        ensures HighByte(s[1..][k], i + 1 + k, negative)
      {
        assert HighByte(s[k + 1], i + (k + 1), negative);
      }
    }
  }

  /** The bytes of a varint, `s` from place `i` on, as the 32-bit loop accepts them. */
  ghost predicate Fits32(s: Slice, i: nat)
    requires i <= 4 && VarintEnd(s).Some?
  {
    var n := VarintEnd(s).value;
    && (i + n == 5 ==> s[n - 1] < 16)
    && forall k :: 5 - i <= k < n ==> HighByte(s[k], i + k, s[4 - i] / 8 % 2 == 1)
  }

  lemma {:induction false} FirstBytesAccepted(s: Slice, i: nat, g: nat)
    requires 1 <= i <= 4 && g < Pow128(i) && VarintEnd(s).Some? && i + VarintEnd(s).value <= 36
    ensures Loop32(s, 7 * i, Low32(g)).Got? <==> Fits32(s, i)
    decreases 5 - i
  {
    hide Pow128, Loop32, Low32, HighByte;
    var n, g' := VarintEnd(s).value, g + s[0] % 128 * Pow128(i);
    Loop32Step(s, i, g);
    if s[0] >= 128 {
      var rest := s[1..];
      if i < 4 {
        FirstBytesAccepted(rest, i + 1, g');
        FitsShifted(s, i);
      } else {
        Pow128Values();
        HighBytesAccepted(rest, 5, Low32(g'));
        SignBit(g, s[0]);
        FifthByte(s);
      }
    }
  }

  lemma {:induction false} FitsShifted(s: Slice, i: nat)
    requires i < 4 && VarintEnd(s).Some? && VarintEnd(s).value > 1
    ensures VarintEnd(s[1..]).Some? && (Fits32(s, i) <==> Fits32(s[1..], i + 1))
  {
    hide HighByte;
    var n, rest := VarintEnd(s).value, s[1..];
    if Fits32(s, i) {
      forall k | 5 - (i + 1) <= k < n - 1
        ensures HighByte(rest[k], i + 1 + k, rest[4 - (i + 1)] / 8 % 2 == 1)
      {
        assert HighByte(s[k + 1], i + (k + 1), s[4 - i] / 8 % 2 == 1);
      }
    } else if Fits32(rest, i + 1) {
      forall k | 5 - i <= k < n
        ensures HighByte(s[k], i + k, s[4 - i] / 8 % 2 == 1)
      {
        assert HighByte(rest[k - 1], i + 1 + (k - 1), rest[4 - (i + 1)] / 8 % 2 == 1);
      }
    }
  }

  lemma {:induction false} FifthByte(s: Slice)
    requires VarintEnd(s).Some? && VarintEnd(s).value > 1
    ensures VarintEnd(s[1..]).Some?
    ensures Fits32(s, 4) <==>
      forall k :: 0 <= k < VarintEnd(s[1..]).value ==> HighByte(s[1..][k], 5 + k, s[0] / 8 % 2 == 1)
  {
    hide HighByte;
    var n, rest, negative := VarintEnd(s).value, s[1..], s[0] / 8 % 2 == 1;
    if Fits32(s, 4) {
      forall k | 0 <= k < n - 1
        ensures HighByte(rest[k], 5 + k, negative)
      {
        assert HighByte(s[k + 1], 4 + (k + 1), negative);
      }
    } else if forall k :: 0 <= k < n - 1 ==> HighByte(rest[k], 5 + k, negative) {
      forall k | 1 <= k < n
        ensures HighByte(s[k], 4 + k, negative)
      {
        assert HighByte(rest[k - 1], 5 + (k - 1), negative);
      }
    }
  }

  lemma {:induction false} SignBit(g: nat, b: byte)
    requires g < 0x1000_0000
    ensures Low32(g + b % 128 * 0x1000_0000) >= 0x8000_0000 <==> b / 8 % 2 == 1
  {
    hide Low32;
    LastGroup32(g, b % 128);
    assert b % 128 % 16 >= 8 <==> b / 8 % 2 == 1;
  }

  /** Which varints of up to 36 bytes pb_decode_varint32 accepts: a fifth byte that is the last has no more than four bits;
      bytes behind the fifth hold nothing, or what a negative number of 32 bits has there when it is sent as one of 64. */
  lemma {:induction false} Varint32Accepted(s: Slice)
    requires VarintEnd(s).Some? && VarintEnd(s).value <= 36
    ensures var n := VarintEnd(s).value;
      ReadVarint32(s).Got? <==>
        && (n == 5 ==> s[4] < 16)
        && forall k :: 5 <= k < n ==> s[k] % 128 == 0 || (s[4] / 8 % 2 == 1 && s[k] == if k < 9 then 255 else 1)
  {
    hide Loop32, Pow128, Low32;
    if s[0] >= 128 {
      Pow128Values();
      LowSmall(s[0] % 128);
      FirstBytesAccepted(s[1..], 1, s[0] % 128);
      FitsShifted(s, 0);
    }
  }

  /** Nothing without a last byte is accepted. */
  lemma {:induction false} UnendedIsRefused(s: Slice)
    requires VarintEnd(s).None?
    ensures ReadVarint32(s).Bad? && ReadVarint64(s).Bad?
  {
    hide Loop32, Loop64;
    if s != [] {
      UnendedLoops(s[1..], 7, s[0] % 128);
    }
    UnendedLoops(s, 0, 0);
  }

  lemma {:induction false} UnendedLoops(s: Slice, bitpos: nat, result: nat)
    requires VarintEnd(s).None?
    ensures Loop32(s, bitpos, result).Bad? && Loop64(s, bitpos, result).Bad?
    decreases |s|
  {
    hide BitOr, Low32, Low64, Pow2;
    if s != [] {
      var b := s[0] % 128;
      UnendedLoops(s[1..], (bitpos + 7) % 256, if bitpos >= 32 then result else BitOr(result, Low32(b * Pow2(bitpos))));
      UnendedLoops(s[1..], bitpos + 7, BitOr(result, Low64(b * Pow2(bitpos))));
    }
  }

  // ----- byte strings -----

  /** A byte string, string or array of fixed length is accepted if and only if it fits, and arrives unchanged; an empty
      one makes an array of fixed length all zeros. */
  lemma {:induction false} BytesAccepted(ty: Type, b: Slice, t: Slice, base: Value)
    requires |b| < TWO_32
    ensures var r := DecodeValue(ty, LengthPrefixed(b) + t, base);
      match ty
      case Bytes(max) => r == if |b| <= max then Got(Data(b), t) else Bad
      case Str(dataSize) => r == if |b| < dataSize then Got(Data(b), t) else Bad
      case FixedBytes(dataSize) =>
        r == if |b| == dataSize then Got(Data(b), t) else if b == [] then Got(Data(Zeros(dataSize)), t) else Bad
      case _ => true
  {
    hide ReadPrefixed, LengthPrefixed, DecodeNumber, DecodeMessage;
    PrefixedRoundTrip(b, t);
    if b == [] {
      assert Zeros(0) == [];
    }
  }

  /** What is shorter than its length says is refused. */
  lemma {:induction false} TruncatedIsRefused(ty: Type, n: nat, s: Slice, base: Value)
    requires |s| < n < 128 && (ty.Bytes? || ty.Str? || ty.FixedBytes? || ty.Sub?)
    ensures DecodeValue(ty, [n] + s, base).Bad?
  {
    hide ReadVarint32, DecodeMessage, FitBytes;
    SmallRead(n, s);
  }

  // ----- arrays -----

  lemma {:induction false} PlainNumber(ty: Type, s: Slice, base: Value)
    requires Packable(ty)
    ensures DecodeValue(ty, s, base) == DecodeNumber(ty, s) && WireType(ty) < 8 && WireType(ty) != WT_STRING
  {
    hide DecodeNumber;
  }

  /** Items of a type that could be packed are accepted one by one as well. */
  lemma {:induction false} UnpackedItemAccepted(fields: seq<Field>, i: nat, v: Value, slots: seq<Slot>, seen: set<nat>, t: Slice)
    requires GoodFields(fields) && i < |fields| == |slots| && fields[i].rule.Repeated? && Packable(fields[i].ty)
    requires Shaped(fields[i].ty, v) && |ItemsOf(slots[i])| < fields[i].rule.max
    ensures var f := fields[i];
      DecodeLoop(fields, EncodeTag(f.tag, WireType(f.ty)) + (EncodeValue(f.ty, v) + t), slots, seen)
      == DecodeLoop(fields, t, slots[i := Array(ItemsOf(slots[i]) + [v])], seen)
  {
    hide DecodeLoop, GoodFields, EncodeTag, EncodeValue, DecodeNumber, DecodeValue, Shaped, WireType, Base;
    var f := fields[i];
    PlainNumber(f.ty, EncodeValue(f.ty, v) + t, Base(f, slots[i]));
    TagStep(fields, i, WireType(f.ty), EncodeValue(f.ty, v) + t, slots, seen);
    OnlyTag(fields, i);
    NumberRoundTrip(f.ty, v, t);
    assert seen + {} == seen;
  }

  /** One item too many is an error, packed or not. */
  lemma {:induction false} FullArrayRefuses(fields: seq<Field>, i: nat, wireType: nat, s: Slice, slots: seq<Slot>, seen: set<nat>)
    requires GoodFields(fields) && i < |fields| == |slots| && fields[i].rule.Repeated? && wireType < 8
    requires |ItemsOf(slots[i])| >= fields[i].rule.max && !(wireType == 2 && Packable(fields[i].ty))
    ensures DecodeLoop(fields, EncodeTag(fields[i].tag, wireType) + s, slots, seen).Failed?
  {
    hide DecodeLoop, GoodFields, EncodeTag;
    TagStep(fields, i, wireType, s, slots, seen);
  }

  lemma {:induction false} PackedOverflowIsRefused(ty: Type, items: seq<Value>, acc: seq<Value>, max: nat)
    requires Packable(ty) && GoodType(ty) && |acc| <= max < |acc| + |items|
    requires forall k :: 0 <= k < |items| ==> Shaped(ty, items[k])
    ensures DecodePacked(ty, EncodeItems(ty, items, |items|), acc, max).None?
  {
    hide DecodeNumber, EncodeValue, Shaped;
    var n := max - |acc|;
    var rest := ItemsBehind(ty, items, n);
    PackedRoundTrip(ty, items, n, acc, max, rest);
  }

  /** The bytes of the items from number `n` on. */
  lemma {:induction false} ItemsFrom(ty: Type, items: seq<Value>, n: nat, m: nat) returns (rest: Slice)
    requires Packable(ty) && n <= m <= |items| && forall k :: 0 <= k < |items| ==> Shaped(ty, items[k])
    ensures EncodeItems(ty, items, m) == EncodeItems(ty, items, n) + rest && (n < m ==> rest != [])
    decreases m
  {
    hide EncodeValue, Shaped;
    if n == m {
      rest := [];
    } else {
      rest := ItemsFrom(ty, items, n, m - 1);
      NumberIsSomething(ty, items[m - 1]);
      rest := rest + EncodeValue(ty, items[m - 1]);
    }
  }

  lemma ItemsBehind(ty: Type, items: seq<Value>, n: nat) returns (rest: Slice)
    requires Packable(ty) && n < |items| && forall k :: 0 <= k < |items| ==> Shaped(ty, items[k])
    ensures EncodeItems(ty, items, |items|) == EncodeItems(ty, items, n) + rest && rest != []
  {
    rest := ItemsFrom(ty, items, n, |items|);
  }

  // ----- the end of a message -----

  /** A zero byte in place of a tag ends the message early; what is behind it is not read. */
  lemma {:induction false} ZeroTagEnds(fields: seq<Field>, s: Slice, slots: seq<Slot>, seen: set<nat>)
    requires |slots| == |fields|
    ensures DecodeLoop(fields, [0] + s, slots, seen) == Stopped(slots, seen, s)
  {
    hide ReadVarint32;
    SmallRead(0, s);
  }

  /** In a message without fields a field with tag zero is read as a bool, whatever its wire type, and lost. */
  lemma {:induction false} ZeroTagWithoutFields(wireType: nat, n: nat, s: Slice, seen: set<nat>)
    requires 0 < wireType < 8 && n < 128
    ensures DecodeLoop([], [wireType] + ([n] + s), [], seen) == DecodeLoop([], s, [], seen)
  {
    hide ReadVarint32, DecodeNumber;
    SmallRead(wireType, [n] + s);
    BoolAccepted(n, s);
  }

  // ----- what is not written -----

  /** Absent fields and empty arrays take no bytes. */
  lemma {:induction false} NothingIsWritten(f: Field, a: Slot)
    requires ShapedSlot(f, a)
    ensures f.rule.Optional? && !a.has ==> EncodeSlot(f, a) == []
    ensures f.rule.Oneof? && !a.has ==> EncodeSlot(f, a) == []
    ensures f.rule.Repeated? && a.items == [] ==> EncodeSlot(f, a) == []
  {
  }

  /** Fields are written in the order of the descriptor. */
  lemma {:induction false} InOrder(fields: seq<Field>, slots: seq<Slot>)
    requires |fields| == 2 && ShapedFields(fields, slots)
    ensures Encode(fields, slots) == EncodeSlot(fields[0], slots[0]) + EncodeSlot(fields[1], slots[1])
  {
    hide EncodeSlot, ShapedSlot;
    assert EncodeFields(fields, slots, 0) == [];
    assert EncodeFields(fields, slots, 1) == [] + EncodeSlot(fields[0], slots[0]);
  }
}
