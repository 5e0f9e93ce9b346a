/** What a decoded struct can hold, whatever the bytes were: defaults for what did not come, and nothing that leaves its
    field. */
module PbBounds {
  import opened Bytes
  import opened Varint
  import opened PbVarint
  import opened PbFormat
  import opened PbDecoding
  import opened PbRoundTrip
  import opened PbProperties

  // ----- defaults -----

  /** The struct that decoding begins with: declared defaults, submessages with theirs, empty arrays, no member of any
      union. */
  lemma {:induction false} DefaultsAt(fields: seq<Field>, i: nat)
    requires i < |fields|
    ensures var f, a := fields[i], Defaults(fields)[i];
      match f.rule
      case Required => a == Single(false, if f.ty.Sub? then Msg(Defaults(f.ty.fields)) else f.initial)
      case Optional => a == Single(false, if f.ty.Sub? then Msg(Defaults(f.ty.fields)) else f.initial)
      case Repeated(_) => a == Array([])
      case Oneof(_) => a.Single? && !a.has
  {
    hide Defaults, Fresh;
    DefaultIs(fields, i);
    FreshIs(fields[i].ty, fields[i].initial);
  }

  lemma {:induction false} FreshIs(ty: Type, initial: Value)
    ensures Fresh(ty, initial) == if ty.Sub? then Msg(Defaults(ty.fields)) else initial
  {
  }

  lemma {:induction false} DefaultIs(fields: seq<Field>, i: nat)
    requires i < |fields|
    ensures Defaults(fields)[i] == DefaultSlot(fields[i])
  {
  }

  /** A field that was not sent has its default after decoding. */
  lemma {:induction false} AbsentFieldsGetDefaults(fields: seq<Field>, message: seq<Slot>, i: nat)
    requires GoodFields(fields) && ShapedFields(fields, message) && SendableFields(fields, message)
    requires |Encode(fields, message)| < TWO_32
    requires i < |fields| && fields[i].rule.Optional? && message[i].Single? && !message[i].has
    ensures var r := Decode(fields, Encode(fields, message)); r.Got? && |r.value| == |fields|
    ensures Decode(fields, Encode(fields, message)).value[i]
         == Single(false, if fields[i].ty.Sub? then Msg(Defaults(fields[i].ty.fields)) else fields[i].initial)
  {
    hide GoodFields, SendableFields, MergeFields, DecodeMessage, Encode, Room;
    RoomInDefaults(fields, message);
    MessageRoundTrip(fields, message, Defaults(fields));
    MergeAt(fields, Defaults(fields), message, i);
    DefaultsAt(fields, i);
    assert ShapedSlot(fields[i], message[i]);
  }

  // ----- bounds -----

  /** A value that lies within its field in the struct: numbers in range, byte strings within the array, strings with
      room for their terminating zero. */
  ghost predicate Holds(ty: Type, v: Value)
    decreases ty, 1
  {
    match ty
    case Bool => v.Num? && 0 <= v.n <= 1
    case VarInt(size) => v.Num? && IsSize(size) && InRange(v.n, -(Modulus(size) / 2), Modulus(size) / 2)
    case UVarInt(size) => v.Num? && IsSize(size) && InRange(v.n, 0, Modulus(size))
    case SVarInt(size) => v.Num? && IsSize(size) && InRange(v.n, -(Modulus(size) / 2), Modulus(size) / 2)
    case Fixed32 => v.Num? && InRange(v.n, 0, 0x1_0000_0000)
    case Fixed64 => v.Num? && InRange(v.n, 0, 0x1_0000_0000_0000_0000)
    case Bytes(max) => v.Data? && |v.bytes| <= max
    case Str(dataSize) => v.Data? && |v.bytes| < dataSize
    case FixedBytes(dataSize) => v.Data? && |v.bytes| == dataSize
    case Sub(fields) => v.Msg? && HoldsFields(fields, v.slots)
  }

  /** What is not present may be anything, except that a submessage always has the shape that decoding goes on from. */
  ghost predicate HoldsSlot(f: Field, a: Slot)
    decreases f
  {
    match f.rule
    case Required => a.Single? && (a.has || f.ty.Sub? ==> Holds(f.ty, a.value))
    case Optional => a.Single? && (a.has || f.ty.Sub? ==> Holds(f.ty, a.value))
    case Oneof(_) => a.Single? && (a.has ==> Holds(f.ty, a.value))
    case Repeated(max) => a.Array? && |a.items| <= max && forall k :: 0 <= k < |a.items| ==> Holds(f.ty, a.items[k])
  }

  ghost predicate HoldsFields(fields: seq<Field>, slots: seq<Slot>)
    decreases fields
  {
    |slots| == |fields| && forall i :: 0 <= i < |fields| ==> HoldsSlot(fields[i], slots[i])
  }

  lemma {:induction false} DefaultsHold(fields: seq<Field>)
    ensures HoldsFields(fields, Defaults(fields))
    decreases fields
  {
    forall i | 0 <= i < |fields|
      ensures HoldsSlot(fields[i], Defaults(fields)[i])
    {
      DefaultHolds(fields[i]);
    }
  }

  lemma {:induction false} DefaultHolds(f: Field)
    ensures HoldsSlot(f, DefaultSlot(f))
    decreases f
  {
    if f.ty.Sub? {
      DefaultsHold(f.ty.fields);
    }
  }

  lemma CastInRange(v: int, size: nat)
    requires IsSize(size)
    ensures InRange(Cast(v, size), -(Modulus(size) / 2), Modulus(size) / 2)
  {
  }

  lemma {:induction false} NumberHolds(ty: Type, s: Slice)
    requires Packable(ty) && DecodeNumber(ty, s).Got?
    ensures Holds(ty, DecodeNumber(ty, s).value)
  {
    hide ReadVarint32, ReadVarint64, Cast, Modulus, Unzigzag, ToSigned, ToUnsigned, TakeBytes;
    ReadShrinks(s);
    match ty
    case Bool =>
    case VarInt(size) => FitsHold(ReadVarint64(s).value, size);
    case UVarInt(size) => FitsHold(ReadVarint64(s).value, size);
    case SVarInt(size) => FitsHold(ReadVarint64(s).value, size);
    case Fixed32 => FixedHolds(s, 4);
    case Fixed64 => FixedHolds(s, 8);
  }

  lemma FitsHold(u: uint64, size: nat)
    ensures var half := Modulus(size) / 2;
      && (FitVarint(u, size).Some? ==> IsSize(size) && InRange(FitVarint(u, size).value, -half, half))
      && (FitSVarint(u, size).Some? ==> IsSize(size) && InRange(FitSVarint(u, size).value, -half, half))
      && (FitUVarint(u, size).Some? ==> IsSize(size) && InRange(FitUVarint(u, size).value, 0, Modulus(size)))
  {
    hide Cast, Unzigzag, ToSigned;
    if IsSize(size) {
      CastInRange(if size == 8 then ToSigned(u, TWO_64) else ToSigned(u, TWO_32), size);
      CastInRange(Unzigzag(u), size);
    }
  }

  lemma {:induction false} FixedHolds(s: Slice, n: nat)
    requires TakeBytes(s, n).Got?
    ensures DecodeFixed(TakeBytes(s, n).value) < Pow256(n)
  {
    FixedOnto(TakeBytes(s, n).value);
  }

  lemma {:induction false} BytesHold(ty: Type, b: Slice)
    requires ty.Bytes? || ty.Str? || ty.FixedBytes?
    ensures FitBytes(ty, b).Some? ==> Holds(ty, Data(FitBytes(ty, b).value))
  {
  }

  lemma {:induction false} PackedHolds(ty: Type, s: Slice, items: seq<Value>, max: nat)
    requires Packable(ty) && DecodePacked(ty, s, items, max).Some?
    requires |items| <= max && forall k :: 0 <= k < |items| ==> Holds(ty, items[k])
    ensures var r := DecodePacked(ty, s, items, max).value;
      |r| <= max && forall k :: 0 <= k < |r| ==> Holds(ty, r[k])
    decreases |s|
  {
    hide DecodeNumber, Holds;
    if s != [] {
      NumberHolds(ty, s);
      var r := DecodeNumber(ty, s);
      PackedHolds(ty, r.rest, items + [r.value], max);
    }
  }

  lemma {:induction false} ValueHolds(ty: Type, s: Slice, base: Value)
    requires DecodeValue(ty, s, base).Got?
    requires ty.Sub? ==> HoldsFields(ty.fields, SlotsOf(ty.fields, base))
    ensures Holds(ty, DecodeValue(ty, s, base).value)
    decreases ty, |s|, 0
  {
    hide DecodeMessage, DecodeNumber, FitBytes, ReadPrefixed, SlotsOf;
    if ty.Sub? {
      MessageHolds(ty.fields, ReadPrefixed(s).value, SlotsOf(ty.fields, base));
    } else if ty.Bytes? || ty.Str? || ty.FixedBytes? {
      BytesHold(ty, ReadPrefixed(s).value);
    } else {
      NumberHolds(ty, s);
    }
  }

  /** The place that a value is decoded into is in order. */
  lemma {:induction false} BaseHolds(f: Field, a: Slot)
    requires HoldsSlot(f, a) && f.ty.Sub?
    ensures HoldsFields(f.ty.fields, SlotsOf(f.ty.fields, Base(f, a)))
  {
    hide Defaults, HoldsFields;
    DefaultsHold(f.ty.fields);
    assert HoldsFields(f.ty.fields, Defaults(f.ty.fields));
  }

  lemma {:induction false} OneHolds(f: Field, s: Slice, a: Slot)
    requires HoldsSlot(f, a) && DecodeOne(f, s, a).Got?
    ensures Holds(f.ty, DecodeOne(f, s, a).value)
    decreases f, |s|, 0
  {
    hide DecodeValue, HoldsSlot, Holds, Base;
    if f.ty.Sub? {
      BaseHolds(f, a);
    }
    ValueHolds(f.ty, s, Base(f, a));
  }

  lemma {:induction false} StoredHolds(fields: seq<Field>, slots: seq<Slot>, i: nat, v: Value)
    requires HoldsFields(fields, slots) && i < |fields| && Holds(fields[i].ty, v)
    requires fields[i].rule.Repeated? ==> |ItemsOf(slots[i])| < fields[i].rule.max
    ensures HoldsFields(fields, Store(fields, slots, i, v))
  {
    hide Holds;
    var r := Store(fields, slots, i, v);
    forall j | 0 <= j < |fields|
      ensures HoldsSlot(fields[j], r[j])
    {
      assert HoldsSlot(fields[j], slots[j]);
    }
  }

  lemma {:induction false} FieldHolds(fields: seq<Field>, i: nat, wireType: nat, s: Slice, slots: seq<Slot>)
    requires HoldsFields(fields, slots) && i < |fields| && DecodeField(fields, i, wireType, s, slots).Got?
    ensures HoldsFields(fields, DecodeField(fields, i, wireType, s, slots).value)
    decreases fields, |s|, 0
  {
    hide DecodeOne, DecodePacked, Holds, Store, ReadPrefixed;
    var f := fields[i];
    assert HoldsSlot(f, slots[i]);
    if f.rule.Repeated? && wireType == WT_STRING && Packable(f.ty) {
      var body := ReadPrefixed(s).value;
      PackedHolds(f.ty, body, ItemsOf(slots[i]), f.rule.max);
      var items := DecodePacked(f.ty, body, ItemsOf(slots[i]), f.rule.max).value;
      ArrayHolds(fields, slots, i, items);
    } else {
      OneHolds(f, s, slots[i]);
      StoredHolds(fields, slots, i, DecodeOne(f, s, slots[i]).value);
    }
  }

  lemma ArrayHolds(fields: seq<Field>, slots: seq<Slot>, i: nat, items: seq<Value>)
    requires HoldsFields(fields, slots) && i < |fields| && fields[i].rule.Repeated? && |items| <= fields[i].rule.max
    requires forall k :: 0 <= k < |items| ==> Holds(fields[i].ty, items[k])
    ensures HoldsFields(fields, slots[i := Array(items)])
  {
    hide Holds;
  }

  lemma {:induction false} SameCount(fields: seq<Field>, slots: seq<Slot>)
    requires HoldsFields(fields, slots)
    ensures |slots| == |fields|
  {
  }

  lemma {:induction false} LoopHolds(fields: seq<Field>, s: Slice, slots: seq<Slot>, seen: set<nat>)
    requires HoldsFields(fields, slots) && !DecodeLoop(fields, s, slots, seen).Failed?
    ensures HoldsFields(fields, DecodeLoop(fields, s, slots, seen).slots)
    decreases fields, |s|, 1
  {
    hide ReadVarint32, DecodeField, FindTag, DecodeNumber, SkipField, HoldsFields;
    SameCount(fields, slots);
    if s != [] {
      ReadShrinks(s);
      var x, rest := ReadVarint32(s).value, ReadVarint32(s).rest;
      var tag, wireType := x / 8, x % 8;
      if x == 0 {
      } else if fields == [] && tag == 0 {
        LoopHolds(fields, DecodeNumber(Bool, rest).rest, slots, seen);
      } else if FindTag(fields, tag).None? {
        LoopHolds(fields, SkipField(wireType, rest).rest, slots, seen);
      } else {
        var i := FindTag(fields, tag).value;
        FieldHolds(fields, i, wireType, rest, slots);
        var r := DecodeField(fields, i, wireType, rest, slots);
        LoopHolds(fields, r.rest, r.value, if fields[i].rule.Required? then seen + {i} else seen);
      }
    }
  }

  lemma {:induction false} MessageHolds(fields: seq<Field>, s: Slice, slots: seq<Slot>)
    requires HoldsFields(fields, slots) && DecodeMessage(fields, s, slots).Got?
    ensures HoldsFields(fields, DecodeMessage(fields, s, slots).value)
    decreases fields, |s|, 2
  {
    hide DecodeLoop, HoldsFields;
    LoopHolds(fields, s, slots, {});
  }

  /** Whatever the bytes are: a struct that pb_decode accepts holds nothing that leaves its field. No array has more items
      than fit, no byte string or string is longer than its array, no number is out of its range, at any depth. */
  lemma {:induction false} DecodedStaysInBounds(fields: seq<Field>, s: Slice)
    requires Decode(fields, s).Got?
    ensures HoldsFields(fields, Decode(fields, s).value)
  {
    hide DecodeMessage, HoldsFields;
    DefaultsHold(fields);
    MessageHolds(fields, s, Defaults(fields));
  }
}
