/** What holds of encoded messages: round trips, merging, unknown fields, required fields. */
module PbProperties {
  import opened Bytes
  import opened Varint
  import opened PbVarint
  import opened PbFormat
  import opened PbDecoding
  import opened PbRoundTrip
  import PbEncoder

  // ----- the same fields are present -----

  ghost predicate SameValue(ty: Type, x: Value, y: Value)
    decreases ty
  {
    if ty.Sub? then x.Msg? && y.Msg? && SameFields(ty.fields, x.slots, y.slots)
    else if ty.Str? then x.Data? && y.Data? && CString(x.bytes) == CString(y.bytes)
    else x == y
  }

  ghost predicate SameSlot(f: Field, x: Slot, y: Slot)
    decreases f
  {
    match f.rule
    case Required => x.Single? && y.Single? && SameValue(f.ty, x.value, y.value)
    case Optional => x.Single? && y.Single? && x.has == y.has && (x.has ==> SameValue(f.ty, x.value, y.value))
    case Oneof(_) => x.Single? && y.Single? && x.has == y.has && (x.has ==> SameValue(f.ty, x.value, y.value))
    case Repeated(_) =>
      x.Array? && y.Array? && |x.items| == |y.items|
      && forall k :: 0 <= k < |x.items| ==> SameValue(f.ty, x.items[k], y.items[k])
  }

  /** Two structs hold the same present fields. What an absent field's memory holds does not matter, nor what
      comes behind the end of a string. */
  ghost predicate SameFields(fields: seq<Field>, x: seq<Slot>, y: seq<Slot>)
    decreases fields
  {
    |x| == |y| == |fields| && forall i :: 0 <= i < |fields| ==> SameSlot(fields[i], x[i], y[i])
  }

  // ----- merging, field by field -----

  ghost predicate SameUnion(fields: seq<Field>, i: nat, j: nat)
    requires i < |fields| && j < |fields|
  {
    fields[i].rule.Oneof? && fields[j].rule == fields[i].rule
  }

  /** Fields that are not in a union do not meddle with each other. */
  lemma {:induction false} MergeAlone(fields: seq<Field>, slots: seq<Slot>, from: seq<Slot>, n: nat, i: nat)
    requires i < n <= |fields| == |slots| == |from| && !fields[i].rule.Oneof?
    ensures MergeFields(fields, slots, from, n)[i] == MergeField(fields, slots, i, from[i])[i]
    decreases n
  {
    hide MergeOne, MergeArray;
    if i == n - 1 {
      Untouched(fields, slots, from, n - 1, i);
    } else {
      MergeAlone(fields, slots, from, n - 1, i);
    }
  }

  /** What becomes of a value that arrives where `was` was: a submessage is merged into the old one, of a char array the
      string arrives, everything else replaces what was there. */
  ghost predicate Arrived(ty: Type, was: Value, v: Value, r: Value) {
    match ty
    case Sub(sub) => r == Msg(Merge(sub, SlotsOf(sub, was), SlotsOf(sub, v)))
    case Str(_) => v.Data? ==> r == Data(CString(v.bytes))
    case _ => r == v
  }

  /** The same for one that begins afresh: an item of an array, or a member of a union. */
  ghost predicate ArrivedFresh(ty: Type, v: Value, r: Value) {
    match ty
    case Sub(sub) => r == Msg(Merge(sub, Defaults(sub), SlotsOf(sub, v)))
    case Str(_) => v.Data? ==> r == Data(CString(v.bytes))
    case _ => r == v
  }

  /** Merging, field by field: a value that is present arrives where the old one was, an absent field stays, items are
      appended. */
  lemma MergeAt(fields: seq<Field>, slots: seq<Slot>, from: seq<Slot>, i: nat)
    requires i < |fields| == |slots| == |from| && !fields[i].rule.Oneof?
    ensures var f, was, a, r := fields[i], slots[i], from[i], Merge(fields, slots, from)[i];
      match f.rule
      case Required => r.Single? && r.has && Arrived(f.ty, ValueOf(was), ValueOf(a), r.value)
      case Optional =>
        if a.Single? && a.has then r.Single? && r.has && Arrived(f.ty, ValueOf(was), a.value, r.value) else r == was
      case Repeated(_) =>
        && |ItemsOf(r)| == |ItemsOf(was)| + |ItemsOf(a)| && ItemsOf(r)[..|ItemsOf(was)|] == ItemsOf(was)
        && (ItemsOf(a) != [] ==> r.Array?) && (ItemsOf(a) == [] ==> r == was)
        && forall k :: 0 <= k < |ItemsOf(a)| ==> ArrivedFresh(f.ty, ItemsOf(a)[k], ItemsOf(r)[|ItemsOf(was)| + k])
  {
    hide MergeFields, MergeItems, MergeValue, Fresh, Arrived, ArrivedFresh;
    MergeAlone(fields, slots, from, |fields|, i);
    var f, items := fields[i], ItemsOf(from[i]);
    ValueArrives(f.ty, ValueOf(slots[i]), ValueOf(from[i]));
    if f.rule.Repeated? && items != [] {
      forall k | 0 <= k < |items|
        ensures ArrivedFresh(f.ty, items[k], MergeItems(f.ty, items, |items|)[k])
      {
        MergedItem(f.ty, items, |items|, k);
        FreshArrives(f.ty, items[k]);
      }
    }
  }

  lemma {:induction false} ValueArrives(ty: Type, was: Value, v: Value)
    ensures Arrived(ty, was, v, MergeValue(ty, was, v))
  {
    hide MergeFields, SlotsOf;
  }

  lemma {:induction false} FreshArrives(ty: Type, v: Value)
    ensures ArrivedFresh(ty, v, MergeValue(ty, Fresh(ty, Num(0)), v))
  {
    hide MergeFields, Defaults;
  }

  predicate Has(a: Slot) {
    a.Single? && a.has
  }

  /** A member of a union that arrives... */
  ghost predicate Arrives(fields: seq<Field>, from: seq<Slot>, i: nat, n: nat)
    requires i < |fields| == |from|
  {
    exists j: nat :: j < n && j < |fields| && SameUnion(fields, i, j) && Has(from[j])
  }

  /** ...is what the union holds in the end; with none, the union stays. */
  lemma {:induction false} MergeUnion(fields: seq<Field>, slots: seq<Slot>, from: seq<Slot>, n: nat, i: nat)
    requires ShapedFields(fields, from) && i < |fields| == |slots| == |from| && n <= |fields| && fields[i].rule.Oneof?
    requires slots[i].Single?
    ensures var r := MergeFields(fields, slots, from, n)[i];
      r == if !Arrives(fields, from, i, n) then slots[i]
           else if i < n && Has(from[i]) then
             Single(true, MergeValue(fields[i].ty, Fresh(fields[i].ty, Num(0)), ValueOf(from[i])))
           else slots[i].(has := false)
    decreases n
  {
    hide ShapedFields, MergeValue, Fresh, MergeArray;
    if n > 0 {
      MergeUnion(fields, slots, from, n - 1, i);
      assert Arrives(fields, from, i, n) <==>
             Arrives(fields, from, i, n - 1) || (SameUnion(fields, i, n - 1) && Has(from[n - 1]));
      if i != n - 1 && SameUnion(fields, i, n - 1) {
        OneMember(fields, from, i, n - 1);
      }
      assert SameUnion(fields, i, i);
      if i == n - 1 && Has(from[i]) {
        ItemStored(fields[i], MergeFields(fields, slots, from, n - 1)[i], from[i].value);
      }
    }
  }

  lemma {:induction false} OneMember(fields: seq<Field>, from: seq<Slot>, i: nat, j: nat)
    requires ShapedFields(fields, from) && i < |fields| == |from| && j < |fields| && i != j
    requires SameUnion(fields, i, j)
    ensures !(Has(from[i]) && Has(from[j]))
  {
    hide ShapedSlot;
  }

  // ----- round trips -----

  /** A message merged into a fresh struct leaves there what it holds. */
  lemma {:induction false} MergedIsSame(fields: seq<Field>, from: seq<Slot>)
    requires ShapedFields(fields, from)
    ensures SameFields(fields, Merge(fields, Defaults(fields), from), from)
    decreases fields, 1
  {
    hide SameSlot, ShapedSlot;
    forall i | 0 <= i < |fields|
      ensures SameSlot(fields[i], Merge(fields, Defaults(fields), from)[i], from[i])
    {
      MergedFieldIsSame(fields, from, i);
    }
  }

  lemma {:induction false} MergedFieldIsSame(fields: seq<Field>, from: seq<Slot>, i: nat)
    requires ShapedFields(fields, from) && i < |fields|
    ensures SameSlot(fields[i], Merge(fields, Defaults(fields), from)[i], from[i])
    decreases fields, 0
  {
    hide MergeValue, MergeArray, Fresh, SameValue, Shaped, MergeFields;
    var f, a, slots := fields[i], from[i], Defaults(fields);
    assert ShapedSlot(f, a) && slots[i] == DefaultSlot(f);
    if f.rule.Oneof? {
      MergeUnion(fields, slots, from, |fields|, i);
      if Has(a) {
        assert SameUnion(fields, i, i) && Arrives(fields, from, i, |fields|);
        MergedValueIsSame(f, Num(0), a.value);
      }
    } else {
      MergeAlone(fields, slots, from, |fields|, i);
      if f.rule.Repeated? {
        MergedArrayIsSame(f, a.items);
      } else if f.rule.Required? || a.has {
        MergedValueIsSame(f, f.initial, a.value);
      }
    }
  }

  lemma {:induction false} MergedValueIsSame(f: Field, initial: Value, v: Value)
    requires Shaped(f.ty, v)
    ensures SameValue(f.ty, MergeValue(f.ty, Fresh(f.ty, initial), v), v)
    decreases f, 0
  {
    hide MergeFields, SameFields, Defaults;
    if f.ty.Sub? {
      MergedIsSame(f.ty.fields, v.slots);
    } else if f.ty.Str? {
      StringOfString(v.bytes);
    }
  }

  lemma {:induction false} StringOfString(s: Slice)
    ensures CString(CString(s)) == CString(s)
  {
    if s != [] && s[0] != 0 {
      StringOfString(s[1..]);
      assert CString(s)[1..] == CString(s[1..]);
    }
  }

  lemma {:induction false} MergedArrayIsSame(f: Field, items: seq<Value>)
    requires forall k :: 0 <= k < |items| ==> Shaped(f.ty, items[k])
    ensures |MergeArray(f, items)| == |items|
    ensures forall k :: 0 <= k < |items| ==> SameValue(f.ty, MergeArray(f, items)[k], items[k])
    decreases f, 1
  {
    hide MergeValue, SameValue, Shaped, Fresh;
    forall k | 0 <= k < |items|
      ensures SameValue(f.ty, MergeArray(f, items)[k], items[k])
    {
      MergedItem(f.ty, items, |items|, k);
      MergedValueIsSame(f, Num(0), items[k]);
    }
  }

  lemma {:induction false} MergedItem(ty: Type, items: seq<Value>, n: nat, k: nat)
    requires k < n <= |items|
    ensures MergeItems(ty, items, n)[k] == MergeValue(ty, Fresh(ty, Num(0)), items[k])
    decreases n
  {
    hide MergeValue;
    if k < n - 1 {
      MergedItem(ty, items, n - 1, k);
    }
  }

  /** pb_decode of what pb_encode wrote succeeds, reads all of it, and yields the same present fields. */
  lemma {:induction false} RoundTrip(fields: seq<Field>, message: seq<Slot>)
    requires GoodFields(fields) && ShapedFields(fields, message) && SendableFields(fields, message)
    requires |Encode(fields, message)| < TWO_32
    ensures var r := Decode(fields, Encode(fields, message));
      r.Got? && r.rest == [] && SameFields(fields, r.value, message)
  {
    hide GoodFields, ShapedFields, SendableFields, SameFields, MergeFields, DecodeMessage, Encode, Room;
    RoomInDefaults(fields, message);
    MessageRoundTrip(fields, message, Defaults(fields));
    MergedIsSame(fields, message);
  }

  /** Decoding one encoded message after another merges the second into the first. */
  lemma {:induction false} MergeByConcatenation(fields: seq<Field>, a: seq<Slot>, b: seq<Slot>)
    requires GoodFields(fields)
    requires ShapedFields(fields, a) && SendableFields(fields, a) && |Encode(fields, a)| < TWO_32
    requires ShapedFields(fields, b) && SendableFields(fields, b) && |Encode(fields, b)| < TWO_32
    requires Room(fields, Merge(fields, Defaults(fields), a), b)
    ensures Decode(fields, Encode(fields, a) + Encode(fields, b))
         == Got(Merge(fields, Merge(fields, Defaults(fields), a), b), [])
  {
    hide GoodFields, ShapedSlot, SendableFields, MergeFields, DecodeLoop, EncodeFields, RoomField;
    var n, slots := |fields|, Defaults(fields);
    RoomInDefaults(fields, a);
    LoopRoundTrip(fields, a, n, slots, {}, Encode(fields, b));
    LoopRoundTrip(fields, b, n, Merge(fields, slots, a), {} + Sent(fields, n), []);
    assert Encode(fields, b) + [] == Encode(fields, b);
    LoopEnds(fields, Merge(fields, Merge(fields, slots, a), b), {} + Sent(fields, n) + Sent(fields, n));
  }

  // ----- the encoder does not fail on such messages -----

  /** What can be sent passes all the checks of the encoder: only a full stream can stop it. */
  lemma {:induction false} SendableIsEncodable(fields: seq<Field>, slots: seq<Slot>)
    requires ShapedFields(fields, slots) && SendableFields(fields, slots)
    ensures PbEncoder.EncodableFields(fields, slots, |fields|)
    decreases fields
  {
    forall i | 0 <= i < |fields|
      ensures PbEncoder.EncodableSlot(fields[i], slots[i])
    {
      SendableSlotIsEncodable(fields[i], slots[i]);
    }
  }

  lemma {:induction false} SendableSlotIsEncodable(f: Field, a: Slot)
    requires ShapedSlot(f, a) && SendableSlot(f, a)
    ensures PbEncoder.EncodableSlot(f, a)
    decreases f
  {
    if f.rule.Repeated? {
      forall k | 0 <= k < |a.items|
        ensures PbEncoder.Encodable(f.ty, a.items[k])
      {
        SendableValueIsEncodable(f.ty, a.items[k]);
      }
    } else if f.rule.Required? || a.has {
      SendableValueIsEncodable(f.ty, a.value);
    }
  }

  lemma {:induction false} SendableValueIsEncodable(ty: Type, v: Value)
    requires Shaped(ty, v) && Sendable(ty, v)
    ensures PbEncoder.Encodable(ty, v)
    decreases ty
  {
    if ty.Sub? {
      SendableIsEncodable(ty.fields, v.slots);
    }
  }

  // ----- and it does fail on others -----

  /** All char arrays that are present hold a terminating zero. */
  ghost predicate Terminated(ty: Type, v: Value)
    requires Shaped(ty, v)
    decreases ty, 1
  {
    match ty
    case Str(dataSize) => |CString(v.bytes)| < dataSize
    case Sub(fields) => TerminatedFields(fields, v.slots)
    case _ => true
  }

  ghost predicate TerminatedSlot(f: Field, a: Slot)
    requires ShapedSlot(f, a)
    decreases f
  {
    match f.rule
    case Required => Terminated(f.ty, a.value)
    case Optional => a.has ==> Terminated(f.ty, a.value)
    case Oneof(_) => a.has ==> Terminated(f.ty, a.value)
    case Repeated(_) => forall k :: 0 <= k < |a.items| ==> Terminated(f.ty, a.items[k])
  }

  ghost predicate TerminatedFields(fields: seq<Field>, slots: seq<Slot>)
    requires ShapedFields(fields, slots)
    decreases fields
  {
    forall i :: 0 <= i < |fields| ==> TerminatedSlot(fields[i], slots[i])
  }

  /** What passes the encoder's checks, with its strings terminated, can be sent: it will be decoded again. */
  lemma {:induction false} EncodableIsSendable(fields: seq<Field>, slots: seq<Slot>)
    requires ShapedFields(fields, slots) && PbEncoder.EncodableFields(fields, slots, |fields|)
    requires TerminatedFields(fields, slots)
    ensures SendableFields(fields, slots)
    decreases fields
  {
    forall i | 0 <= i < |fields|
      ensures SendableSlot(fields[i], slots[i])
    {
      EncodableSlotIsSendable(fields[i], slots[i]);
    }
  }

  lemma {:induction false} EncodableSlotIsSendable(f: Field, a: Slot)
    requires ShapedSlot(f, a) && PbEncoder.EncodableSlot(f, a) && TerminatedSlot(f, a)
    ensures SendableSlot(f, a)
    decreases f
  {
    if f.rule.Repeated? {
      forall k | 0 <= k < |a.items|
        ensures Sendable(f.ty, a.items[k])
      {
        EncodableValueIsSendable(f.ty, a.items[k]);
      }
    } else if f.rule.Required? || a.has {
      EncodableValueIsSendable(f.ty, a.value);
    }
  }

  lemma {:induction false} EncodableValueIsSendable(ty: Type, v: Value)
    requires Shaped(ty, v) && PbEncoder.Encodable(ty, v) && Terminated(ty, v)
    ensures Sendable(ty, v)
    decreases ty
  {
    if ty.Sub? {
      EncodableIsSendable(ty.fields, v.slots);
    }
  }
}
