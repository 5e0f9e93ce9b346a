/** Fields that a descriptor does not know, and fields in any order. */
module PbUnknown {
  import opened Bytes
  import opened Varint
  import opened PbVarint
  import opened PbFormat
  import opened PbDecoding
  import opened PbRoundTrip

  // ----- reading does not depend on what follows -----

  /** What a successful read makes of a longer input. */
  ghost function Longer<T>(r: Read<T>, t: Slice): Read<T>
    requires r.Got?
  {
    Got(r.value, r.rest + t)
  }

  lemma Tail(s: Slice, t: Slice)
    requires s != []
    ensures (s + t)[0] == s[0] && (s + t)[1..] == s[1..] + t
  {
  }

  lemma {:induction false} Loop32Stable(s: Slice, t: Slice, bitpos: nat, result: nat)
    requires Loop32(s, bitpos, result).Got?
    ensures Loop32(s + t, bitpos, result) == Longer(Loop32(s, bitpos, result), t)
    decreases |s|
  {
    hide BitOr, Pow2, Low32;
    Tail(s, t);
    if s[0] >= 128 {
      Loop32Stable(s[1..], t, (bitpos + 7) % 256,
                   if bitpos >= 32 then result else BitOr(result, Low32(s[0] % 128 * Pow2(bitpos))));
    }
  }

  lemma Varint32Stable(s: Slice, t: Slice)
    requires ReadVarint32(s).Got?
    ensures ReadVarint32(s + t) == Longer(ReadVarint32(s), t)
  {
    hide Loop32;
    Tail(s, t);
    if s[0] >= 128 {
      Loop32Stable(s[1..], t, 7, s[0] % 128);
    }
  }

  lemma {:induction false} Loop64Stable(s: Slice, t: Slice, bitpos: nat, result: nat)
    requires Loop64(s, bitpos, result).Got?
    ensures Loop64(s + t, bitpos, result) == Longer(Loop64(s, bitpos, result), t)
    decreases |s|
  {
    hide BitOr, Pow2, Low64;
    Tail(s, t);
    if s[0] >= 128 {
      Loop64Stable(s[1..], t, bitpos + 7, BitOr(result, Low64(s[0] % 128 * Pow2(bitpos))));
    }
  }

  lemma TakeStable(s: Slice, t: Slice, n: nat)
    requires TakeBytes(s, n).Got?
    ensures TakeBytes(s + t, n) == Longer(TakeBytes(s, n), t)
  {
    assert (s + t)[..n] == s[..n] && (s + t)[n..] == s[n..] + t;
  }

  lemma PrefixedStable(s: Slice, t: Slice)
    requires ReadPrefixed(s).Got?
    ensures ReadPrefixed(s + t) == Longer(ReadPrefixed(s), t)
  {
    hide ReadVarint32, TakeBytes;
    Varint32Stable(s, t);
    var r := ReadVarint32(s);
    TakeStable(r.rest, t, r.value);
  }

  lemma NumberStable(ty: Type, s: Slice, t: Slice)
    requires Packable(ty) && DecodeNumber(ty, s).Got?
    ensures DecodeNumber(ty, s + t) == Longer(DecodeNumber(ty, s), t)
  {
    hide ReadVarint32, TakeBytes, FitVarint, FitUVarint, FitSVarint, Loop64, DecodeFixed;
    match ty
    case Bool => Varint32Stable(s, t);
    case VarInt(_) => Loop64Stable(s, t, 0, 0);
    case UVarInt(_) => Loop64Stable(s, t, 0, 0);
    case SVarInt(_) => Loop64Stable(s, t, 0, 0);
    case Fixed32 => TakeStable(s, t, 4);
    case Fixed64 => TakeStable(s, t, 8);
  }

  lemma {:induction false} ValueStable(ty: Type, s: Slice, t: Slice, base: Value)
    requires DecodeValue(ty, s, base).Got?
    ensures DecodeValue(ty, s + t, base) == Longer(DecodeValue(ty, s, base), t)
  {
    hide ReadPrefixed, DecodeNumber, DecodeMessage, SlotsOf, FitBytes;
    if Packable(ty) {
      NumberStable(ty, s, t);
    } else {
      PrefixedStable(s, t);
    }
  }

  lemma {:induction false} FieldStable(fields: seq<Field>, i: nat, wireType: nat, s: Slice, t: Slice, slots: seq<Slot>)
    requires i < |fields| == |slots| && DecodeField(fields, i, wireType, s, slots).Got?
    ensures DecodeField(fields, i, wireType, s + t, slots) == Longer(DecodeField(fields, i, wireType, s, slots), t)
  {
    hide ReadPrefixed, DecodePacked, DecodeValue, Store, Base;
    var f := fields[i];
    if f.rule.Repeated? && wireType == WT_STRING && Packable(f.ty) {
      PrefixedStable(s, t);
    } else {
      ValueStable(f.ty, s, t, Base(f, slots[i]));
    }
  }

  lemma {:induction false} SkipVarintStable(s: Slice, t: Slice)
    requires SkipVarint(s).Got?
    ensures SkipVarint(s + t) == Longer(SkipVarint(s), t)
  {
    Tail(s, t);
    if s[0] >= 128 {
      SkipVarintStable(s[1..], t);
    }
  }

  lemma SkipStable(wireType: nat, s: Slice, t: Slice)
    requires SkipField(wireType, s).Got?
    ensures SkipField(wireType, s + t) == Longer(SkipField(wireType, s), t)
  {
    hide ReadPrefixed, TakeBytes, SkipVarint;
    if wireType == WT_VARINT {
      SkipVarintStable(s, t);
    } else if wireType == WT_64BIT {
      TakeStable(s, t, 8);
    } else if wireType == WT_STRING {
      PrefixedStable(s, t);
    } else {
      TakeStable(s, t, 4);
    }
  }

  /** Decoding goes on where it stood. */
  lemma {:induction false} LoopStable(fields: seq<Field>, s: Slice, t: Slice, slots: seq<Slot>, seen: set<nat>)
    requires |slots| == |fields| && DecodeLoop(fields, s, slots, seen).Done?
    ensures var r := DecodeLoop(fields, s, slots, seen);
      DecodeLoop(fields, s + t, slots, seen) == DecodeLoop(fields, t, r.slots, r.seen)
    decreases |s|
  {
    hide ReadVarint32, DecodeField, FindTag, DecodeNumber, SkipField;
    if s == [] {
      assert s + t == t;
    } else {
      Varint32Stable(s, t);
      var x, rest := ReadVarint32(s).value, ReadVarint32(s).rest;
      ReadShrinks(s);
      var tag, wireType := x / 8, x % 8;
      if fields == [] && tag == 0 {
        NumberStable(Bool, rest, t);
        LoopStable(fields, DecodeNumber(Bool, rest).rest, t, slots, seen);
      } else if FindTag(fields, tag).None? {
        SkipStable(wireType, rest, t);
        LoopStable(fields, SkipField(wireType, rest).rest, t, slots, seen);
      } else {
        var i := FindTag(fields, tag).value;
        FieldStable(fields, i, wireType, rest, t, slots);
        var r := DecodeField(fields, i, wireType, rest, slots);
        LoopStable(fields, r.rest, t, r.value, if fields[i].rule.Required? then seen + {i} else seen);
      }
    }
  }

  // ----- unknown fields -----

  datatype Unknown =
    | UnknownVarint(groups: Slice)
    | Unknown64(bytes: Slice)
    | UnknownString(bytes: Slice)
    | Unknown32(bytes: Slice)

  /** The contents of a field as the wire types define them. A varint may have any length. */
  ghost predicate WellFormed(u: Unknown) {
    match u
    case UnknownVarint(groups) => IsVarint(groups)
    case Unknown64(bytes) => |bytes| == 8
    case UnknownString(bytes) => |bytes| < TWO_32
    case Unknown32(bytes) => |bytes| == 4
  }

  function WireTypeOf(u: Unknown): nat {
    match u
    case UnknownVarint(_) => WT_VARINT
    case Unknown64(_) => WT_64BIT
    case UnknownString(_) => WT_STRING
    case Unknown32(_) => WT_32BIT
  }

  function Payload(u: Unknown): Slice {
    match u
    case UnknownVarint(groups) => groups
    case Unknown64(bytes) => bytes
    case UnknownString(bytes) => LengthPrefixed(bytes)
    case Unknown32(bytes) => bytes
  }

  lemma {:induction false} SkipWholeVarint(s: Slice, t: Slice)
    requires IsVarint(s)
    ensures SkipVarint(s + t) == Got((), t)
  {
    Tail(s, t);
    if |s| > 1 {
      SkipWholeVarint(s[1..], t);
    } else {
      assert s[1..] + t == t;
    }
  }

  /** pb_skip_field takes exactly one field. */
  lemma SkipsOneField(u: Unknown, t: Slice)
    requires WellFormed(u)
    ensures SkipField(WireTypeOf(u), Payload(u) + t) == Got((), t)
  {
    hide SkipVarint, ReadPrefixed, LengthPrefixed;
    match u
    case UnknownVarint(groups) => SkipWholeVarint(groups, t);
    case Unknown64(bytes) => assert (bytes + t)[..8] == bytes && (bytes + t)[8..] == t;
    case UnknownString(bytes) => PrefixedRoundTrip(bytes, t);
    case Unknown32(bytes) => assert (bytes + t)[..4] == bytes && (bytes + t)[4..] == t;
  }

  /** A field with a tag that is not declared leaves the struct alone. */
  lemma {:induction false} UnknownStep(fields: seq<Field>, tag: nat, u: Unknown, t: Slice, slots: seq<Slot>, seen: set<nat>)
    requires |slots| == |fields| && 0 < tag < MAX_TAG && FindTag(fields, tag).None? && WellFormed(u)
    ensures DecodeLoop(fields, EncodeTag(tag, WireTypeOf(u)) + (Payload(u) + t), slots, seen) == DecodeLoop(fields, t, slots, seen)
  {
    hide ReadVarint32, SkipField, EncodeVarint, Payload, FindTag;
    var x := tag * 8 + WireTypeOf(u);
    Varint32RoundTrip(x, Payload(u) + t);
    assert x / 8 == tag && x % 8 == WireTypeOf(u);
    SkipsOneField(u, t);
    assert EncodeTag(tag, WireTypeOf(u)) + (Payload(u) + t) != [] by {
      assert |EncodeVarint(x)| > 0;
    }
  }

  /** Inserting a field with an unknown tag between the fields of any input, whatever comes after it, leaves the
      result as it is. */
  lemma {:induction false} UnknownFieldsAreTransparent(fields: seq<Field>, a: Slice, b: Slice, tag: nat, u: Unknown, slots: seq<Slot>)
    requires |slots| == |fields| && DecodeLoop(fields, a, slots, {}).Done?
    requires 0 < tag < MAX_TAG && FindTag(fields, tag).None? && WellFormed(u)
    ensures DecodeMessage(fields, a + (EncodeTag(tag, WireTypeOf(u)) + (Payload(u) + b)), slots)
         == DecodeMessage(fields, a + b, slots)
  {
    hide DecodeLoop, Payload, EncodeTag, FindTag;
    var r := DecodeLoop(fields, a, slots, {});
    LoopStable(fields, a, EncodeTag(tag, WireTypeOf(u)) + (Payload(u) + b), slots, {});
    LoopStable(fields, a, b, slots, {});
    UnknownStep(fields, tag, u, b, r.slots, r.seen);
  }

  // ----- unknown fields inside submessages -----

  /** A message with a gap, in the message itself or in a submessage of it. `a`: the bytes before the gap or
      before the field that holds the submessage; `b`: those after it. */
  datatype Gap = Here(a: Slice, b: Slice) | Inside(a: Slice, tag: nat, inner: Gap, b: Slice)

  /** The message with `u` in the gap. The length of every submessage around the gap grows with it. */
  function Plug(g: Gap, u: Slice): Slice {
    match g
    case Here(a, b) => a + (u + b)
    case Inside(a, tag, inner, b) => a + (EncodeTag(tag, WT_STRING) + (LengthPrefixed(Plug(inner, u)) + b))
  }

  /** The gap is between two fields, and each tag around it is that of a submessage. */
  ghost predicate AtBoundary(fields: seq<Field>, g: Gap, slots: seq<Slot>)
    decreases g
  {
    && |slots| == |fields|
    && var r := DecodeLoop(fields, g.a, slots, {});
    && r.Done?
    && (g.Inside? ==>
          && FindTag(fields, g.tag).Some?
          && var i := FindTag(fields, g.tag).value;
          && fields[i].ty.Sub?
          && AtBoundary(fields[i].ty.fields, g.inner, SlotsOf(fields[i].ty.fields, Base(fields[i], r.slots[i]))))
  }

  /** The fields of the message that the gap is in. */
  ghost function FieldsAround(fields: seq<Field>, g: Gap): seq<Field>
    decreases g
  {
    if g.Inside? && FindTag(fields, g.tag).Some? && fields[FindTag(fields, g.tag).value].ty.Sub? then
      FieldsAround(fields[FindTag(fields, g.tag).value].ty.fields, g.inner)
    else
      fields
  }

  lemma {:induction false} VarintGrows(x: nat, y: nat)
    requires x <= y
    ensures |EncodeVarint(x)| <= |EncodeVarint(y)|
    decreases y
  {
    if x >= 128 {
      VarintGrows(x / 128, y / 128);
    }
  }

  lemma {:induction false} PlugGrows(g: Gap, u: Slice)
    ensures |Plug(g, [])| <= |Plug(g, u)|
  {
    hide EncodeVarint, EncodeTag;
    if g.Inside? {
      PlugGrows(g.inner, u);
      VarintGrows(|Plug(g.inner, [])|, |Plug(g.inner, u)|);
    }
  }

  ghost function AsValue(r: Read<seq<Slot>>, rest: Slice): Read<Value> {
    if r.Got? then Got(Msg(r.value), rest) else Bad
  }

  /** A submessage is decoded from its own bytes, and nothing else is. */
  lemma {:induction false} SubmessageValue(ty: Type, body: Slice, b: Slice, base: Value)
    requires ty.Sub? && |body| < TWO_32
    ensures DecodeValue(ty, LengthPrefixed(body) + b, base)
         == AsValue(DecodeMessage(ty.fields, body, SlotsOf(ty.fields, base)), b)
  {
    hide DecodeMessage, LengthPrefixed, ReadPrefixed, SlotsOf;
    PrefixedRoundTrip(body, b);
  }

  lemma {:induction false} SubmessageField(fields: seq<Field>, i: nat, body: Slice, body': Slice, b: Slice, slots: seq<Slot>)
    requires i < |fields| == |slots| && fields[i].ty.Sub? && |body| < TWO_32 && |body'| < TWO_32
    requires var sub, base := fields[i].ty.fields, SlotsOf(fields[i].ty.fields, Base(fields[i], slots[i]));
      DecodeMessage(sub, body, base) == DecodeMessage(sub, body', base)
    ensures DecodeField(fields, i, WT_STRING, LengthPrefixed(body) + b, slots)
         == DecodeField(fields, i, WT_STRING, LengthPrefixed(body') + b, slots)
  {
    hide DecodeMessage, DecodeValue, LengthPrefixed, Store, SlotsOf, Base;
    SubmessageValue(fields[i].ty, body, b, Base(fields[i], slots[i]));
    SubmessageValue(fields[i].ty, body', b, Base(fields[i], slots[i]));
  }

  lemma {:induction false} SubFields(fields: seq<Field>, i: nat)
    requires GoodFields(fields) && i < |fields| && fields[i].ty.Sub?
    ensures GoodFields(fields[i].ty.fields)
  {
    assert GoodField(fields[i]) && GoodType(fields[i].ty);
  }

  /** An unknown field leaves the result as it is in a submessage at any depth too. */
  lemma {:induction false} NestedUnknownFieldsAreTransparent(fields: seq<Field>, g: Gap, tag: nat, u: Unknown,
                                                             slots: seq<Slot>)
    requires GoodFields(fields) && AtBoundary(fields, g, slots) && WellFormed(u)
    requires 0 < tag < MAX_TAG && FindTag(FieldsAround(fields, g), tag).None?
    requires g.Inside? ==> |Plug(g.inner, EncodeTag(tag, WireTypeOf(u)) + Payload(u))| < TWO_32
    ensures DecodeMessage(fields, Plug(g, EncodeTag(tag, WireTypeOf(u)) + Payload(u)), slots)
         == DecodeMessage(fields, Plug(g, []), slots)
    decreases g
  {
    hide DecodeLoop, Payload, EncodeTag, FindTag, GoodFields, LengthPrefixed, DecodeField, WellFormed, SlotsOf, Base;
    var field := EncodeTag(tag, WireTypeOf(u)) + Payload(u);
    match g
    case Here(a, b) =>
      assert field + b == EncodeTag(tag, WireTypeOf(u)) + (Payload(u) + b) && [] + b == b;
      UnknownFieldsAreTransparent(fields, a, b, tag, u, slots);
    case Inside(a, outer, inner, b) =>
      var i := FindTag(fields, outer).value;
      var r := DecodeLoop(fields, a, slots, {});
      var with, without := Plug(inner, field), Plug(inner, []);
      PlugGrows(inner, field);
      PrefixIsLonger(inner, field);
      SubFields(fields, i);
      NestedUnknownFieldsAreTransparent(fields[i].ty.fields, inner, tag, u,
                                        SlotsOf(fields[i].ty.fields, Base(fields[i], r.slots[i])));
      SubmessageField(fields, i, with, without, b, r.slots);
      SameAfter(fields, a, i, LengthPrefixed(with) + b, LengthPrefixed(without) + b, slots);
  }

  lemma {:induction false} PrefixIsLonger(g: Gap, u: Slice)
    ensures g.Inside? ==> |Plug(g.inner, u)| < |Plug(g, u)|
  {
    hide EncodeVarint, EncodeTag;
    if g.Inside? {
      PrefixedIsLonger(Plug(g.inner, u));
    }
  }

  /** Two inputs that differ in one field differ in what that field is decoded to at most. */
  lemma {:induction false} SameAfter(fields: seq<Field>, a: Slice, i: nat, s: Slice, s': Slice, slots: seq<Slot>)
    requires GoodFields(fields) && i < |fields| == |slots| && DecodeLoop(fields, a, slots, {}).Done?
    requires var r := DecodeLoop(fields, a, slots, {});
      DecodeField(fields, i, WT_STRING, s, r.slots) == DecodeField(fields, i, WT_STRING, s', r.slots)
    ensures DecodeMessage(fields, a + (EncodeTag(fields[i].tag, WT_STRING) + s), slots)
         == DecodeMessage(fields, a + (EncodeTag(fields[i].tag, WT_STRING) + s'), slots)
  {
    hide DecodeLoop, EncodeTag, GoodFields, DecodeField;
    var r := DecodeLoop(fields, a, slots, {});
    LoopStable(fields, a, EncodeTag(fields[i].tag, WT_STRING) + s, slots, {});
    LoopStable(fields, a, EncodeTag(fields[i].tag, WT_STRING) + s', slots, {});
    TagStep(fields, i, WT_STRING, s, r.slots, r.seen);
    TagStep(fields, i, WT_STRING, s', r.slots, r.seen);
  }

  // ----- fields in any order -----

  /** A field of a message and its contents. */
  datatype Piece = Piece(i: nat, a: Slot)

  /** Contents that pb_encode would write for their fields. */
  ghost predicate GoodPieces(fields: seq<Field>, pieces: seq<Piece>) {
    forall k :: 0 <= k < |pieces| ==>
      && var p := pieces[k];
      && p.i < |fields| && ShapedSlot(fields[p.i], p.a) && SendableSlot(fields[p.i], p.a)
      && |EncodeSlot(fields[p.i], p.a)| < TWO_32
  }

  ghost function EncodePieces(fields: seq<Field>, pieces: seq<Piece>, n: nat): Slice
    requires n <= |pieces| && GoodPieces(fields, pieces)
  {
    if n == 0 then []
    else EncodePieces(fields, pieces, n - 1) + EncodeSlot(fields[pieces[n - 1].i], pieces[n - 1].a)
  }

  ghost function MergePieces(fields: seq<Field>, pieces: seq<Piece>, n: nat, slots: seq<Slot>): (r: seq<Slot>)
    requires n <= |pieces| && GoodPieces(fields, pieces) && |slots| == |fields|
    ensures |r| == |fields|
  {
    if n == 0 then slots
    else MergeField(fields, MergePieces(fields, pieces, n - 1, slots), pieces[n - 1].i, pieces[n - 1].a)
  }

  /** There is room for every piece when it arrives. */
  ghost predicate RoomForPieces(fields: seq<Field>, pieces: seq<Piece>, slots: seq<Slot>)
    requires GoodPieces(fields, pieces) && |slots| == |fields|
  {
    forall k :: 0 <= k < |pieces| ==>
      RoomField(fields[pieces[k].i], MergePieces(fields, pieces, k, slots)[pieces[k].i], pieces[k].a)
  }

  ghost predicate Occurs(pieces: seq<Piece>, i: nat) {
    exists k :: 0 <= k < |pieces| && pieces[k].i == i
  }

  ghost function SentPieces(fields: seq<Field>, pieces: seq<Piece>, n: nat): set<nat>
    requires n <= |pieces| && GoodPieces(fields, pieces)
  {
    if n == 0 then {} else SentPieces(fields, pieces, n - 1) + Sent1(fields[pieces[n - 1].i], pieces[n - 1].i)
  }

  lemma {:induction false} SentIsOccurring(fields: seq<Field>, pieces: seq<Piece>, n: nat, i: nat)
    requires n <= |pieces| && GoodPieces(fields, pieces) && i < |fields| && fields[i].rule.Required?
    ensures i in SentPieces(fields, pieces, n) <==> exists k :: 0 <= k < n && pieces[k].i == i
  {
    if n > 0 {
      SentIsOccurring(fields, pieces, n - 1, i);
    }
  }

  lemma {:induction false} PiecesRoundTrip(fields: seq<Field>, pieces: seq<Piece>, n: nat, slots: seq<Slot>, t: Slice)
    requires GoodFields(fields) && GoodPieces(fields, pieces) && n <= |pieces| && |slots| == |fields|
    requires RoomForPieces(fields, pieces, slots)
    ensures DecodeLoop(fields, EncodePieces(fields, pieces, n) + t, slots, {})
         == DecodeLoop(fields, t, MergePieces(fields, pieces, n, slots), SentPieces(fields, pieces, n))
    decreases n
  {
    hide DecodeLoop, GoodFields, EncodeSlot, MergeField, ShapedSlot, SendableSlot, RoomField;
    if n == 0 {
      assert [] + t == t;
    } else {
      var p := pieces[n - 1];
      var before, slot := EncodePieces(fields, pieces, n - 1), EncodeSlot(fields[p.i], p.a);
      assert before + slot + t == before + (slot + t);
      PiecesRoundTrip(fields, pieces, n - 1, slots, slot + t);
      SlotRoundTrip(fields, p.i, p.a, MergePieces(fields, pieces, n - 1, slots), SentPieces(fields, pieces, n - 1), t);
    }
  }

  /** The fields that came and that are required. */
  lemma {:induction false} SentAreOccurring(fields: seq<Field>, pieces: seq<Piece>)
    requires GoodPieces(fields, pieces)
    ensures AllSeen(fields, SentPieces(fields, pieces, |pieces|))
      <==> forall i: nat :: i < |fields| && fields[i].rule.Required? && RequiredIndex(fields, i) < 64 ==> Occurs(pieces, i)
  {
    hide GoodPieces, RequiredIndex, SentPieces;
    forall i: nat | i < |fields| && fields[i].rule.Required?
      ensures i in SentPieces(fields, pieces, |pieces|) <==> Occurs(pieces, i)
    {
      SentIsOccurring(fields, pieces, |pieces|, i);
    }
  }

  /** The same when a zero tag ends the message early: what is behind it does not count. */
  lemma {:induction false} RequiredFieldsAreCheckedEarly(fields: seq<Field>, pieces: seq<Piece>, slots: seq<Slot>, rest: Slice)
    requires GoodFields(fields) && GoodPieces(fields, pieces) && |slots| == |fields|
    requires RoomForPieces(fields, pieces, slots)
    ensures DecodeMessage(fields, EncodePieces(fields, pieces, |pieces|) + ([0] + rest), slots).Got?
        <==> forall i: nat :: i < |fields| && fields[i].rule.Required? && RequiredIndex(fields, i) < 64
               ==> Occurs(pieces, i)
  {
    hide DecodeLoop, GoodFields, EncodePieces, MergePieces, RoomForPieces, RequiredIndex, SentPieces, GoodPieces, AllSeen;
    PiecesRoundTrip(fields, pieces, |pieces|, slots, [0] + rest);
    ZeroTag(fields, rest, MergePieces(fields, pieces, |pieces|, slots), SentPieces(fields, pieces, |pieces|));
    SentAreOccurring(fields, pieces);
  }

  lemma {:induction false} ZeroTag(fields: seq<Field>, rest: Slice, slots: seq<Slot>, seen: set<nat>)
    requires |slots| == |fields|
    ensures DecodeLoop(fields, [0] + rest, slots, seen) == Stopped(slots, seen, rest)
  {
    hide ReadVarint32;
    assert EncodeVarint(0) == [0];
    Varint32RoundTrip(0, rest);
  }

  /** With fields in any order and any number of times, decoding succeeds if and only if each of the first 64
      required fields came at least once. */
  lemma {:induction false} RequiredFieldsAreChecked(fields: seq<Field>, pieces: seq<Piece>, slots: seq<Slot>)
    requires GoodFields(fields) && GoodPieces(fields, pieces) && |slots| == |fields|
    requires RoomForPieces(fields, pieces, slots)
    ensures DecodeMessage(fields, EncodePieces(fields, pieces, |pieces|), slots).Got?
        <==> forall i: nat :: i < |fields| && fields[i].rule.Required? && RequiredIndex(fields, i) < 64
               ==> Occurs(pieces, i)
  {
    hide DecodeLoop, GoodFields, EncodePieces, MergePieces, RoomForPieces, RequiredIndex, SentPieces, GoodPieces, AllSeen;
    PiecesRoundTrip(fields, pieces, |pieces|, slots, []);
    assert EncodePieces(fields, pieces, |pieces|) + [] == EncodePieces(fields, pieces, |pieces|);
    LoopEnds(fields, MergePieces(fields, pieces, |pieces|, slots), SentPieces(fields, pieces, |pieces|));
    SentAreOccurring(fields, pieces);
  }
}
