/** Decoding what was encoded: round trips, and merging by concatenation. */
module PbRoundTrip {
  import opened Bytes
  import opened Varint
  import opened PbVarint
  import opened PbFormat
  import opened PbDecoding

  // ----- messages that can be sent -----

  /** Arrays and byte strings within bounds, strings terminated inside their array, whatever comes behind. */
  ghost predicate Sendable(ty: Type, v: Value)
    requires Shaped(ty, v)
    decreases ty, 1
  {
    match ty
    case Bytes(max) => |v.bytes| <= max
    case Str(dataSize) => |CString(v.bytes)| < dataSize
    case Sub(fields) => SendableFields(fields, v.slots)
    case _ => true
  }

  ghost predicate SendableSlot(f: Field, a: Slot)
    requires ShapedSlot(f, a)
    decreases f
  {
    match f.rule
    case Required => Sendable(f.ty, a.value)
    case Optional => a.has ==> Sendable(f.ty, a.value)
    case Oneof(_) => a.has ==> Sendable(f.ty, a.value)
    case Repeated(max) => |a.items| <= max && forall k :: 0 <= k < |a.items| ==> Sendable(f.ty, a.items[k])
  }

  ghost predicate SendableFields(fields: seq<Field>, slots: seq<Slot>)
    requires ShapedFields(fields, slots)
    decreases fields
  {
    forall i :: 0 <= i < |fields| ==> SendableSlot(fields[i], slots[i])
  }

  // ----- there is room for what arrives -----

  /** Repeated fields have room for the items that arrive, also in submessages that are merged. */
  ghost predicate RoomValue(ty: Type, base: Value, v: Value)
    decreases ty, 1
  {
    ty.Sub? ==> Room(ty.fields, SlotsOf(ty.fields, base), SlotsOf(ty.fields, v))
  }

  ghost predicate RoomField(f: Field, b: Slot, a: Slot)
    decreases f
  {
    match f.rule
    case Required => RoomValue(f.ty, ValueOf(b), ValueOf(a))
    case Optional => a.Single? && a.has ==> RoomValue(f.ty, ValueOf(b), a.value)
    case Oneof(_) => true
    case Repeated(max) => |ItemsOf(b)| + |ItemsOf(a)| <= max
  }

  ghost predicate Room(fields: seq<Field>, slots: seq<Slot>, from: seq<Slot>)
    decreases fields
  {
    |slots| == |from| == |fields| && forall i :: 0 <= i < |fields| ==> RoomField(fields[i], slots[i], from[i])
  }

  /** A message fits the bounds of its own descriptor: there is room for it in a fresh struct. */
  lemma {:induction false} RoomInDefaults(fields: seq<Field>, from: seq<Slot>)
    requires ShapedFields(fields, from) && SendableFields(fields, from)
    ensures Room(fields, Defaults(fields), from)
    decreases fields
  {
    forall i | 0 <= i < |fields|
      ensures RoomField(fields[i], Defaults(fields)[i], from[i])
    {
      RoomInDefault(fields[i], from[i]);
    }
  }

  lemma {:induction false} RoomInDefault(f: Field, a: Slot)
    requires ShapedSlot(f, a) && SendableSlot(f, a)
    ensures RoomField(f, DefaultSlot(f), a)
    decreases f, 0
  {
    if f.ty.Sub? && ((f.rule.Optional? && a.has) || f.rule.Required?) {
      RoomInFresh(f.ty, f.initial, a.value);
    }
  }

  lemma {:induction false} RoomInFresh(ty: Type, initial: Value, v: Value)
    requires Shaped(ty, v) && Sendable(ty, v)
    ensures RoomValue(ty, Fresh(ty, initial), v)
    decreases ty
  {
    if ty.Sub? {
      RoomInDefaults(ty.fields, v.slots);
    }
  }

  // ----- values -----

  lemma PrefixedRoundTrip(b: Slice, t: Slice)
    requires |b| < TWO_32
    ensures ReadPrefixed(LengthPrefixed(b) + t) == Got(b, t)
  {
    hide ReadVarint32, EncodeVarint;
    assert LengthPrefixed(b) + t == EncodeVarint(|b|) + (b + t);
    Varint32RoundTrip(|b|, b + t);
    assert (b + t)[..|b|] == b && (b + t)[|b|..] == t;
  }

  lemma {:induction false} FixedRead(n: nat, x: nat, t: Slice)
    requires x < Pow256(n)
    ensures TakeBytes(EncodeFixed(n, x) + t, n) == Got(EncodeFixed(n, x), t) && DecodeFixed(EncodeFixed(n, x)) == x
  {
    FixedRoundTrip(n, x);
    var s := EncodeFixed(n, x);
    assert (s + t)[..n] == s && (s + t)[n..] == t;
  }

  /** A signed number of `size` bytes survives the way through 64 bits, and through 32 if it is a narrow one. */
  lemma SignedFits(v: int, size: nat)
    requires IsSize(size) && InRange(v, -(Modulus(size) / 2), Modulus(size) / 2)
    ensures FitVarint(ToUnsigned(v, TWO_64), size) == Some(v)
    ensures Cast(v, size) == v
  {
    hide ToUnsigned, ToSigned;
    SignedRoundTrip(v, Modulus(size));
    SignedRoundTrip(v, TWO_64);
    if size != 8 {
      NarrowSign(v);
    }
  }

  lemma NarrowSign(v: int)
    requires -TWO_31 <= v < TWO_31
    ensures ToSigned(ToUnsigned(v, TWO_64), TWO_32) == v
  {
    assert ToUnsigned(v, TWO_64) == if v < 0 then v + TWO_64 else v;
    assert ToUnsigned(v, TWO_64) % TWO_32 == if v < 0 then v + TWO_32 else v;
  }

  lemma {:induction false} NumberRoundTrip(ty: Type, v: Value, t: Slice)
    requires Packable(ty) && GoodType(ty) && Shaped(ty, v)
    ensures DecodeNumber(ty, EncodeValue(ty, v) + t) == Got(v, t)
  {
    hide ReadVarint32, ReadVarint64, EncodeVarint, ToUnsigned, ToSigned, Zigzag, Unzigzag, EncodeFixed, DecodeFixed, Pow256,
         TakeBytes, Cast;
    match ty
    case Bool => Varint32RoundTrip(if v.n != 0 then 1 else 0, t);
    case VarInt(size) =>
      SignedFits(v.n, size);
      UnsignedIsSmall(v.n);
      Varint64RoundTrip(ToUnsigned(v.n, TWO_64), t);
    case UVarInt(size) => Varint64RoundTrip(v.n, t);
    case SVarInt(size) =>
      SignedFits(v.n, size);
      ZigzagRoundTrip(v.n, 0);
      Varint64RoundTrip(Zigzag(v.n), t);
    case Fixed32 =>
      Pow256Values();
      FixedRead(4, v.n, t);
    case Fixed64 =>
      Pow256Values();
      FixedRead(8, v.n, t);
  }

  lemma {:induction false} BytesRoundTrip(ty: Type, v: Value, t: Slice, base: Value)
    requires (ty.Bytes? || ty.Str? || ty.FixedBytes?) && Shaped(ty, v) && Sendable(ty, v)
    ensures DecodeValue(ty, EncodeValue(ty, v) + t, base) == Got(MergeValue(ty, base, v), t)
  {
    hide ReadPrefixed, LengthPrefixed, CString;
    PrefixedRoundTrip(v.bytes, t);
    PrefixedRoundTrip(CString(v.bytes), t);
    if ty.FixedBytes? && v.bytes == [] {
      assert Zeros(0) == [];
    }
  }

  /** A char array without a terminating zero is encoded all the same, but never decoded. */
  lemma {:induction false} StringsNeedTerminators(ty: Type, v: Value, t: Slice, base: Value)
    requires ty.Str? && Shaped(ty, v)
    ensures DecodeValue(ty, EncodeValue(ty, v) + t, base).Got? <==> |CString(v.bytes)| < ty.dataSize
  {
    hide ReadPrefixed, LengthPrefixed, CString;
    PrefixedRoundTrip(CString(v.bytes), t);
  }

  /** Decoding an encoded value merges it into what was there, and reads exactly its bytes. */
  lemma {:induction false} ValueRoundTrip(ty: Type, v: Value, base: Value, t: Slice)
    requires GoodType(ty) && Shaped(ty, v) && Sendable(ty, v) && RoomValue(ty, base, v)
    requires |EncodeValue(ty, v)| < TWO_32
    ensures DecodeValue(ty, EncodeValue(ty, v) + t, base) == Got(MergeValue(ty, base, v), t)
    decreases ty, 1
  {
    hide DecodeLoop, LengthPrefixed, ReadPrefixed, DecodeNumber;
    if ty.Sub? {
      var body := Encode(ty.fields, v.slots);
      PrefixedIsLonger(body);
      PrefixedRoundTrip(body, t);
      MessageRoundTrip(ty.fields, v.slots, SlotsOf(ty.fields, base));
    } else if ty.Bytes? || ty.Str? || ty.FixedBytes? {
      BytesRoundTrip(ty, v, t, base);
    } else {
      NumberRoundTrip(ty, v, t);
    }
  }

  /** Decoding an encoded message merges it into the struct. */
  lemma {:induction false} MessageRoundTrip(fields: seq<Field>, from: seq<Slot>, slots: seq<Slot>)
    requires GoodFields(fields) && ShapedFields(fields, from) && SendableFields(fields, from) && Room(fields, slots, from)
    requires |Encode(fields, from)| < TWO_32
    ensures DecodeMessage(fields, Encode(fields, from), slots) == Got(Merge(fields, slots, from), [])
    decreases fields, 3
  {
    hide DecodeLoop, GoodFields, ShapedSlot, SendableFields, RoomField, EncodeFields, MergeFields;
    LoopRoundTrip(fields, from, |fields|, slots, {}, []);
    assert Encode(fields, from) + [] == Encode(fields, from);
    LoopEnds(fields, Merge(fields, slots, from), {} + Sent(fields, |fields|));
  }

  /** The required fields among the first `n`. */
  ghost function Sent(fields: seq<Field>, n: nat): set<nat>
    requires n <= |fields|
  {
    set i: nat | i < n && fields[i].rule.Required?
  }

  lemma {:induction false} Untouched(fields: seq<Field>, slots: seq<Slot>, from: seq<Slot>, n: nat, i: nat)
    requires n <= i < |fields| == |slots| == |from| && !fields[i].rule.Oneof?
    ensures MergeFields(fields, slots, from, n)[i] == slots[i]
  {
    hide MergeOne, MergeArray;
    if n > 0 {
      Untouched(fields, slots, from, n - 1, i);
    }
  }

  lemma {:induction false} LoopRoundTrip(fields: seq<Field>, from: seq<Slot>, n: nat, slots: seq<Slot>, seen: set<nat>, t: Slice)
    requires GoodFields(fields) && ShapedFields(fields, from) && SendableFields(fields, from) && Room(fields, slots, from)
    requires n <= |fields| && |EncodeFields(fields, from, n)| < TWO_32
    ensures DecodeLoop(fields, EncodeFields(fields, from, n) + t, slots, seen)
         == DecodeLoop(fields, t, MergeFields(fields, slots, from, n), seen + Sent(fields, n))
    decreases fields, 2, n
  {
    hide DecodeLoop, GoodFields, EncodeSlot, MergeField, ShapedSlot, SendableSlot, RoomField;
    if n == 0 {
      assert EncodeFields(fields, from, 0) + t == t;
      assert seen + Sent(fields, 0) == seen;
    } else {
      var f, a := fields[n - 1], from[n - 1];
      var before, slot := EncodeFields(fields, from, n - 1), EncodeSlot(f, a);
      var merged := MergeFields(fields, slots, from, n - 1);
      assert before + slot + t == before + (slot + t);
      LoopRoundTrip(fields, from, n - 1, slots, seen, slot + t);
      StillRoom(fields, slots, from, n - 1);
      SlotRoundTrip(fields, n - 1, a, merged, seen + Sent(fields, n - 1), t);
      assert seen + Sent(fields, n - 1) + Sent1(f, n - 1) == seen + Sent(fields, n);
    }
  }

  ghost function Sent1(f: Field, i: nat): set<nat> {
    if f.rule.Required? then {i} else {}
  }

  lemma {:induction false} StillRoom(fields: seq<Field>, slots: seq<Slot>, from: seq<Slot>, i: nat)
    requires Room(fields, slots, from) && i < |fields|
    ensures RoomField(fields[i], MergeFields(fields, slots, from, i)[i], from[i])
  {
    if !fields[i].rule.Oneof? {
      Untouched(fields, slots, from, i, i);
    }
  }

  lemma {:induction false} OnlyTag(fields: seq<Field>, i: nat)
    requires GoodFields(fields) && i < |fields|
    ensures FindTag(fields, fields[i].tag) == Some(i) && GoodField(fields[i])
  {
    hide GoodField;
    var j := FindTag(fields, fields[i].tag);
  }

  /** A tag leads to its field. */
  lemma {:induction false} TagStep(fields: seq<Field>, i: nat, wireType: nat, s: Slice, slots: seq<Slot>, seen: set<nat>)
    requires GoodFields(fields) && i < |fields| == |slots| && wireType < 8
    ensures DecodeLoop(fields, EncodeTag(fields[i].tag, wireType) + s, slots, seen)
         == match DecodeField(fields, i, wireType, s, slots)
            case Bad => Failed
            case Got(slots', rest) => DecodeLoop(fields, rest, slots', seen + Sent1(fields[i], i))
  {
    hide GoodFields, DecodeField, ReadVarint32, EncodeVarint, FindTag;
    OnlyTag(fields, i);
    var x := fields[i].tag * 8 + wireType;
    Varint32RoundTrip(x, s);
    assert x / 8 == fields[i].tag && x % 8 == wireType;
    assert EncodeTag(fields[i].tag, wireType) + s != [] by {
      assert |EncodeVarint(x)| > 0;
    }
    assert seen + {} == seen;
  }

  lemma {:induction false} SlotRoundTrip(fields: seq<Field>, i: nat, a: Slot, slots: seq<Slot>, seen: set<nat>, t: Slice)
    requires GoodFields(fields) && i < |fields| == |slots|
    requires ShapedSlot(fields[i], a) && SendableSlot(fields[i], a) && RoomField(fields[i], slots[i], a)
    requires |EncodeSlot(fields[i], a)| < TWO_32
    ensures DecodeLoop(fields, EncodeSlot(fields[i], a) + t, slots, seen)
         == DecodeLoop(fields, t, MergeField(fields, slots, i, a), seen + Sent1(fields[i], i))
    decreases fields, 1, 0
  {
    hide DecodeLoop, GoodFields;
    var f := fields[i];
    if (f.rule.Optional? || f.rule.Oneof?) && !a.has {
      assert [] + t == t && seen + {} == seen;
    } else if !f.rule.Repeated? {
      SingleRoundTrip(fields, i, a.value, slots, seen, t);
    } else if a.items == [] {
      assert [] + t == t && seen + {} == seen;
    } else if Packable(f.ty) {
      ArrayRoundTrip(fields, i, a.items, slots, seen, t);
    } else {
      ItemsRoundTrip(fields, i, a.items, |a.items|, slots, seen, t);
      assert seen + {} == seen;
    }
  }

  lemma {:induction false} SingleRoundTrip(fields: seq<Field>, i: nat, v: Value, slots: seq<Slot>, seen: set<nat>, t: Slice)
    requires GoodFields(fields) && i < |fields| == |slots| && !fields[i].rule.Repeated?
    requires var f := fields[i]; Shaped(f.ty, v) && Sendable(f.ty, v) && |EncodeValue(f.ty, v)| < TWO_32
    requires fields[i].rule.Oneof? || RoomValue(fields[i].ty, ValueOf(slots[i]), v)
    ensures var f := fields[i];
      DecodeLoop(fields, EncodeTag(f.tag, WireType(f.ty)) + EncodeValue(f.ty, v) + t, slots, seen)
      == DecodeLoop(fields, t, Store(fields, slots, i, MergeOne(f, slots[i], v)), seen + Sent1(f, i))
    decreases fields, 0, 0
  {
    hide DecodeLoop, GoodFields, DecodeOne, MergeOne, EncodeTag, EncodeValue, Store;
    var f := fields[i];
    var s := EncodeValue(f.ty, v) + t;
    assert EncodeTag(f.tag, WireType(f.ty)) + EncodeValue(f.ty, v) + t == EncodeTag(f.tag, WireType(f.ty)) + s;
    TagStep(fields, i, WireType(f.ty), s, slots, seen);
    OnlyTag(fields, i);
    OneRoundTrip(f, v, slots[i], t);
  }

  /** One value for a field, into the place it is decoded into. */
  lemma {:induction false} OneRoundTrip(f: Field, v: Value, a: Slot, t: Slice)
    requires GoodField(f) && Shaped(f.ty, v) && Sendable(f.ty, v) && |EncodeValue(f.ty, v)| < TWO_32
    requires f.rule.Oneof? || f.rule.Repeated? || RoomValue(f.ty, ValueOf(a), v)
    ensures DecodeOne(f, EncodeValue(f.ty, v) + t, a) == Got(MergeOne(f, a, v), t)
    decreases f, 0
  {
    hide DecodeValue, EncodeValue, MergeValue, Fresh;
    if f.rule.Oneof? || f.rule.Repeated? {
      RoomInFresh(f.ty, Num(0), v);
    }
    ValueRoundTrip(f.ty, v, Base(f, a), t);
  }

  // ----- arrays -----

  /** Items that each carry their tag arrive one after another. */
  lemma {:induction false} ItemsRoundTrip(fields: seq<Field>, i: nat, items: seq<Value>, n: nat, slots: seq<Slot>,
                                          seen: set<nat>, t: Slice)
    requires GoodFields(fields) && i < |fields| == |slots| && n <= |items|
    requires fields[i].rule.Repeated? && !Packable(fields[i].ty) && |ItemsOf(slots[i])| + |items| <= fields[i].rule.max
    requires forall k :: 0 <= k < |items| ==> Shaped(fields[i].ty, items[k]) && Sendable(fields[i].ty, items[k])
    requires |EncodeTagged(fields[i].tag, fields[i].ty, items, n)| < TWO_32
    ensures DecodeLoop(fields, EncodeTagged(fields[i].tag, fields[i].ty, items, n) + t, slots, seen)
         == DecodeLoop(fields, t,
              if n == 0 then slots else slots[i := Array(ItemsOf(slots[i]) + MergeItems(fields[i].ty, items, n))], seen)
    decreases fields, 0, n
  {
    hide DecodeLoop, GoodFields, DecodeOne, MergeOne, MergeValue, EncodeTag, EncodeValue, Shaped, Sendable;
    var f := fields[i];
    if n == 0 {
      assert [] + t == t;
    } else {
      var tag, value := EncodeTag(f.tag, WireType(f.ty)), EncodeValue(f.ty, items[n - 1]);
      var before := EncodeTagged(f.tag, f.ty, items, n - 1);
      var slots1 := if n == 1 then slots else slots[i := Array(ItemsOf(slots[i]) + MergeItems(f.ty, items, n - 1))];
      assert before + (tag + value) + t == before + (tag + (value + t));
      ItemsRoundTrip(fields, i, items, n - 1, slots, seen, tag + (value + t));
      TagStep(fields, i, WireType(f.ty), value + t, slots1, seen);
      OnlyTag(fields, i);
      OneRoundTrip(f, items[n - 1], slots1[i], t);
      ItemStored(f, slots1[i], items[n - 1]);
      var slots2 := Store(fields, slots1, i, MergeOne(f, slots1[i], items[n - 1]));
      var one := MergeValue(f.ty, Fresh(f.ty, Num(0)), items[n - 1]);
      var all := MergeItems(f.ty, items, n - 1);
      assert MergeItems(f.ty, items, n) == all + [one];
      assert ItemsOf(slots[i]) + all + [one] == ItemsOf(slots[i]) + (all + [one]);
      assert ItemsOf(slots1[i]) == ItemsOf(slots[i]) + all;
      assert slots2 == slots[i := Array(ItemsOf(slots[i]) + MergeItems(f.ty, items, n))];
      assert seen + {} == seen;
    }
  }

  lemma {:induction false} ItemStored(f: Field, a: Slot, v: Value)
    requires f.rule.Repeated? || f.rule.Oneof?
    ensures MergeOne(f, a, v) == MergeValue(f.ty, Fresh(f.ty, Num(0)), v)
  {
  }

  lemma {:induction false} PackedRoundTrip(ty: Type, items: seq<Value>, n: nat, acc: seq<Value>, max: nat, s: Slice)
    requires Packable(ty) && GoodType(ty) && n <= |items| && |acc| + n <= max
    requires forall k :: 0 <= k < |items| ==> Shaped(ty, items[k])
    ensures DecodePacked(ty, EncodeItems(ty, items, n) + s, acc, max) == DecodePacked(ty, s, acc + items[..n], max)
    decreases n
  {
    hide DecodeNumber, EncodeValue, Shaped;
    if n == 0 {
      assert [] + s == s && acc + items[..0] == acc;
    } else {
      var value := EncodeValue(ty, items[n - 1]);
      var before := EncodeItems(ty, items, n - 1);
      assert before + value + s == before + (value + s);
      PackedRoundTrip(ty, items, n - 1, acc, max, value + s);
      NumberRoundTrip(ty, items[n - 1], s);
      assert acc + items[..n - 1] + [items[n - 1]] == acc + items[..n];
      assert value + s != [] by {
        NumberIsSomething(ty, items[n - 1]);
      }
    }
  }

  lemma {:induction false} NumberIsSomething(ty: Type, v: Value)
    requires Packable(ty) && Shaped(ty, v)
    ensures EncodeValue(ty, v) != []
  {
    hide EncodeVarint, EncodeFixed;
  }

  lemma {:induction false} NumbersAsTheyAre(ty: Type, items: seq<Value>, n: nat)
    requires Packable(ty) && n <= |items|
    ensures MergeItems(ty, items, n) == items[..n]
  {
    if n > 0 {
      NumbersAsTheyAre(ty, items, n - 1);
    }
  }

  /** A packed array arrives as a whole. */
  lemma {:induction false} ArrayRoundTrip(fields: seq<Field>, i: nat, items: seq<Value>, slots: seq<Slot>, seen: set<nat>, t: Slice)
    requires GoodFields(fields) && i < |fields| == |slots|
    requires fields[i].rule.Repeated? && Packable(fields[i].ty) && |ItemsOf(slots[i])| + |items| <= fields[i].rule.max
    requires forall k :: 0 <= k < |items| ==> Shaped(fields[i].ty, items[k])
    requires |LengthPrefixed(EncodeItems(fields[i].ty, items, |items|))| < TWO_32
    ensures var f := fields[i];
      DecodeLoop(fields, EncodeTag(f.tag, WT_STRING) + LengthPrefixed(EncodeItems(f.ty, items, |items|)) + t, slots, seen)
      == DecodeLoop(fields, t, slots[i := Array(ItemsOf(slots[i]) + MergeArray(f, items))], seen + Sent1(f, i))
  {
    hide DecodeLoop, GoodFields, EncodeTag, EncodeItems, Shaped, LengthPrefixed, ReadPrefixed, MergeItems;
    var f := fields[i];
    var body := EncodeItems(f.ty, items, |items|);
    assert EncodeTag(f.tag, WT_STRING) + LengthPrefixed(body) + t == EncodeTag(f.tag, WT_STRING) + (LengthPrefixed(body) + t);
    TagStep(fields, i, WT_STRING, LengthPrefixed(body) + t, slots, seen);
    OnlyTag(fields, i);
    PrefixedIsLonger(body);
    PrefixedRoundTrip(body, t);
    PackedRoundTrip(f.ty, items, |items|, ItemsOf(slots[i]), f.rule.max, []);
    assert body + [] == body && items[..|items|] == items;
    NumbersAsTheyAre(f.ty, items, |items|);
  }
}
