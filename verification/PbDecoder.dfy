/** pb_decode: the decoder computes what PbDecoding says. */
module PbDecoder {
  import opened Bytes
  import opened PbVarint
  import opened PbFormat
  import opened PbDecoding
  import opened PbIStream
  import opened PbFieldIter

  // ----- one value -----

  /** pb_dec_bool, pb_dec_varint, pb_dec_uvarint, pb_dec_svarint, pb_dec_fixed32, pb_dec_fixed64. */
  method DecodeNumberFrom(stream: IStream, ty: Type) returns (ok: bool, v: Value)
    requires stream.Valid() && Packable(ty)
    modifies stream
    ensures var r := DecodeNumber(ty, old(stream.Rest()));
      && stream.Valid() && stream.End() == old(stream.End()) && (ok <==> r.Got?)
      && (ok ==> v == r.value && stream.Rest() == r.rest)
  {
    hide ReadVarint32, ReadVarint64, Unzigzag, ToSigned, ToUnsigned, DecodeFixed, Cast;
    v := Num(0);
    var u, bytes, eof;
    ReadShrinks(stream.Rest());
    match ty {
      case Bool =>
        ok, u, eof := stream.DecodeVarint32();
        v := Num(if u != 0 then 1 else 0);
      case VarInt(size) =>
        ok, u := stream.DecodeVarint();
        if ok {
          var fit := FitVarint(u, size);
          ok := fit.Some?;
          v := Num(if ok then fit.value else 0);
        }
      case UVarInt(size) =>
        ok, u := stream.DecodeVarint();
        if ok {
          var fit := FitUVarint(u, size);
          ok := fit.Some?;
          v := Num(if ok then fit.value else 0);
        }
      case SVarInt(size) =>
        ok, u := stream.DecodeVarint();
        if ok {
          var fit := FitSVarint(u, size);
          ok := fit.Some?;
          v := Num(if ok then fit.value else 0);
        }
      case Fixed32 =>
        ok, bytes := stream.Read(4);
        v := Num(if ok then DecodeFixed(bytes) else 0);
      case Fixed64 =>
        ok, bytes := stream.Read(8);
        v := Num(if ok then DecodeFixed(bytes) else 0);
    }
  }

  /** pb_dec_bytes, pb_dec_string, pb_dec_fixed_length_bytes: the length is checked before anything is read. */
  method DecodeBytesFrom(stream: IStream, ty: Type) returns (ok: bool, v: Value)
    requires stream.Valid() && (ty.Bytes? || ty.Str? || ty.FixedBytes?)
    modifies stream
    ensures var p := ReadPrefixed(old(stream.Rest()));
      && stream.Valid() && stream.End() == old(stream.End())
      && (ok <==> p.Got? && FitBytes(ty, p.value).Some?)
      && (ok ==> v == Data(FitBytes(ty, p.value).value) && stream.Rest() == p.rest)
  {
    hide ReadVarint32;
    v := Num(0);
    var size, eof;
    ok, size, eof := stream.DecodeVarint32();
    if !ok {
      return;
    }
    var fits := match ty
      case Bytes(max) => size <= max
      case Str(dataSize) => size + 1 <= dataSize
      case FixedBytes(dataSize) => size == 0 || size == dataSize;
    if !fits {
      return false, v;
    }
    var bytes;
    ok, bytes := stream.Read(size);
    v := Data(if ty.FixedBytes? && size == 0 then Zeros(ty.dataSize) else bytes);
  }

  /** pb_message_set_to_defaults. */
  method SetToDefaults(fields: seq<Field>) returns (slots: seq<Slot>)
    ensures slots == Defaults(fields)
    decreases fields, 1
  {
    slots := [];
    if fields == [] {
      return;
    }
    var iter := new FieldIter(fields, Layout(fields));
    var more := true;
    while more
      invariant fresh(iter) && iter.Valid() && iter.fields == fields && iter.pos < |fields|
      invariant |slots| == if more then iter.pos else |fields|
      invariant forall i :: 0 <= i < |slots| ==> slots[i] == DefaultSlot(fields[i])
      decreases more, |fields| - iter.pos
    {
      var slot := SetFieldToDefault(fields[iter.pos]);
      slots := slots + [slot];
      more := iter.Next();
    }
  }

  /** pb_field_set_to_default. */
  method SetFieldToDefault(f: Field) returns (slot: Slot)
    ensures slot == DefaultSlot(f)
    decreases f, 1
  {
    match f.rule
    case Required =>
      var v := FreshValue(f.ty, f.initial);
      slot := Single(false, v);
    case Optional =>
      var v := FreshValue(f.ty, f.initial);
      slot := Single(false, v);
    case Repeated(_) => slot := Array([]);
    case Oneof(_) => slot := Single(false, Num(0));
  }

  method FreshValue(ty: Type, initial: Value) returns (v: Value)
    ensures v == Fresh(ty, initial)
    decreases ty, 1
  {
    if ty.Sub? {
      var slots := SetToDefaults(ty.fields);
      v := Msg(slots);
    } else {
      v := initial;
    }
  }

  // ----- messages -----

  method DecodeValueFrom(stream: IStream, ty: Type, base: Value) returns (ok: bool, v: Value)
    requires stream.Valid() && GoodType(ty)
    modifies stream
    ensures var r := DecodeValue(ty, old(stream.Rest()), base);
      && stream.Valid() && stream.End() <= old(stream.End()) && (ok <==> r.Got?)
      && (ok ==> v == r.value && stream.Rest() == r.rest && stream.End() == old(stream.End()))
    decreases ty, stream.bytesLeft, 0
  {
    hide ReadPrefixed, DecodeNumber, DecodeMessage, FitBytes, GoodFields;
    if ty.Sub? {
      var slots;
      ok, slots := DecodeSubmessage(stream, ty.fields, SlotsOf(ty.fields, base));
      v := Msg(slots);
    } else if Packable(ty) {
      ok, v := DecodeNumberFrom(stream, ty);
    } else {
      ok, v := DecodeBytesFrom(stream, ty);
    }
  }

  /** pb_dec_submessage, into a struct that holds `dest`. */
  method DecodeSubmessage(stream: IStream, fields: seq<Field>, dest: seq<Slot>) returns (ok: bool, slots: seq<Slot>)
    requires stream.Valid() && GoodFields(fields) && |dest| == |fields|
    modifies stream
    ensures var p := ReadPrefixed(old(stream.Rest()));
      && stream.Valid() && stream.End() <= old(stream.End())
      && (ok <==> p.Got? && DecodeMessage(fields, p.value, dest).Got?)
      && (ok ==> slots == DecodeMessage(fields, p.value, dest).value
                 && stream.Rest() == p.rest && stream.End() == old(stream.End()))
    decreases fields, stream.bytesLeft, 2
  {
    hide ReadPrefixed, DecodeMessage, GoodFields;
    slots := dest;
    var made, sub := stream.MakeStringSubstream();
    if !made {
      return false, slots;
    }
    var status;
    status, slots := DecodeNoinit(sub, fields, dest);
    ok := stream.CloseStringSubstream(sub);
    return status, slots;
  }

  /** pb_decode_noinit. */
  method DecodeNoinit(stream: IStream, fields: seq<Field>, dest: seq<Slot>) returns (ok: bool, slots: seq<Slot>)
    requires stream.Valid() && GoodFields(fields) && |dest| == |fields|
    modifies stream
    ensures var r := DecodeMessage(fields, old(stream.Rest()), dest);
      && stream.Valid() && stream.End() <= old(stream.End()) && (ok <==> r.Got?)
      && (ok ==> slots == r.value && stream.Rest() == r.rest && stream.End() == old(stream.End()))
    decreases fields, stream.bytesLeft, 1
  {
    hide DecodeLoop, GoodFields, RequiredIndex, FieldIter.Valid, FieldsSeen.Valid, MarksOf, AllSeen;
    ghost var s, seen := stream.Rest(), {};
    slots := dest;
    var iter := new FieldIter(fields, Layout(fields));
    var marks := new FieldsSeen();
    MarksStart(fields);
    var step := Going;
    while stream.bytesLeft > 0 && step.Going?
      invariant fresh(iter) && iter.Valid() && iter.fields == fields
      invariant fresh(marks) && marks.Valid() && MarksOf(fields, marks.marked, seen)
      invariant stream.Valid() && stream.End() == old(stream.End()) && stream.bytesLeft <= old(stream.bytesLeft)
      invariant |slots| == |fields| && !step.Failing?
      invariant if step.Ending? then DecodeLoop(fields, s, dest, {}) == Stopped(slots, seen, stream.Rest())
                else DecodeLoop(fields, s, dest, {}) == DecodeLoop(fields, stream.Rest(), slots, seen)
      decreases stream.bytesLeft
    {
      step, slots, seen := DecodeNext(stream, fields, iter, marks, slots, seen);
      if step.Failing? {
        return false, slots;
      }
    }
    if step.Going? {
      LoopEnds(fields, slots, seen);
    }
    ok := CheckRequired(fields, iter, marks, seen);
  }

  datatype Step = Going | Ending | Failing

  /** One turn of the loop: a tag, and the field that it announces. */
  method DecodeNext(stream: IStream, fields: seq<Field>, iter: FieldIter, marks: FieldsSeen, dest: seq<Slot>, ghost seen: set<nat>)
    returns (step: Step, slots: seq<Slot>, ghost seen': set<nat>)
    requires stream.Valid() && stream.bytesLeft > 0 && GoodFields(fields) && |dest| == |fields|
    requires iter.Valid() && iter.fields == fields && marks.Valid() && MarksOf(fields, marks.marked, seen)
    modifies stream, iter, marks
    ensures stream.Valid() && stream.End() <= old(stream.End()) && iter.Valid() && marks.Valid() && |slots| == |fields|
    ensures var r := DecodeLoop(fields, old(stream.Rest()), dest, seen);
      match step
      case Failing => r == Failed
      case Ending => r == Stopped(slots, seen', stream.Rest())
      case Going => r == DecodeLoop(fields, stream.Rest(), slots, seen')
    ensures !step.Failing? ==> stream.End() == old(stream.End()) && stream.bytesLeft < old(stream.bytesLeft)
    ensures !step.Failing? ==> MarksOf(fields, marks.marked, seen')
    decreases fields, stream.bytesLeft, 0
  {
    hide DecodeLoop, GoodFields, ReadVarint32, RequiredIndex, DecodeField, FieldIter.Valid, FieldsSeen.Valid, MarksOf,
         PbDecoding.SkipField;
    slots, seen', step := dest, seen, Failing;
    TagRead(fields, stream.Rest(), dest, seen);
    ReadShrinks(stream.Rest());
    var ok, tag, wireType, eof := stream.DecodeTag();
    if !ok {
      step := if eof then Ending else Failing;
      return;
    }
    var found := iter.Find(tag);
    if !found {
      NotFound(fields, tag);
      ok := stream.SkipField(wireType);
    } else if fields == [] {
      var v;
      ok, v := DecodeNumberFrom(stream, Bool);
      MarksWithoutFields(marks.marked, marks.marked + {0}, seen);
      marks.Mark(0);
    } else {
      var i := iter.pos;
      IterFacts(iter);
      Found(fields, i, tag);
      if fields[i].rule.Required? {
        MarksGrow(fields, marks.marked, seen, i);
        if iter.requiredIndex < MAX_REQUIRED_FIELDS {
          marks.Mark(iter.requiredIndex);
        }
        seen' := seen + {i};
      }
      ok, slots := DecodeStaticField(stream, fields, i, wireType, dest);
      if !ok {
        slots := dest;
      }
    }
    step := if ok then Going else Failing;
  }

  /** decode_static_field. */
  method DecodeStaticField(stream: IStream, fields: seq<Field>, i: nat, wireType: nat, dest: seq<Slot>)
    returns (ok: bool, slots: seq<Slot>)
    requires stream.Valid() && i < |fields| == |dest| && GoodField(fields[i])
    modifies stream
    ensures var r := DecodeField(fields, i, wireType, old(stream.Rest()), dest);
      && stream.Valid() && stream.End() <= old(stream.End()) && (ok <==> r.Got?)
      && (ok ==> slots == r.value && stream.Rest() == r.rest && stream.End() == old(stream.End()))
    decreases fields, stream.bytesLeft, 0
  {
    hide ReadPrefixed, DecodePacked, DecodeValue, Store, Base, GoodType;
    var f := fields[i];
    slots := dest;
    if f.rule.Repeated? && wireType == WT_STRING && Packable(f.ty) {
      var items;
      ok, items := DecodePackedArray(stream, f.ty, ItemsOf(dest[i]), f.rule.max);
      if ok {
        slots := dest[i := Array(items)];
      }
    } else if f.rule.Repeated? && |ItemsOf(dest[i])| >= f.rule.max {
      ok := false;
    } else {
      var base := BaseValue(f, dest[i]);
      var v;
      ok, v := DecodeOneFrom(stream, f, base);
      if ok {
        slots := Store(fields, dest, i, v);
      }
    }
  }

  method DecodeOneFrom(stream: IStream, f: Field, base: Value) returns (ok: bool, v: Value)
    requires stream.Valid() && GoodField(f)
    modifies stream
    ensures var r := DecodeValue(f.ty, old(stream.Rest()), base);
      && stream.Valid() && stream.End() <= old(stream.End()) && (ok <==> r.Got?)
      && (ok ==> v == r.value && stream.Rest() == r.rest && stream.End() == old(stream.End()))
    decreases f, stream.bytesLeft, 0
  {
    ok, v := DecodeValueFrom(stream, f.ty, base);
  }

  /** Array items and members of unions start from defaults; singular submessages go on from what is there. */
  method BaseValue(f: Field, a: Slot) returns (v: Value)
    ensures v == Base(f, a)
  {
    if f.rule.Required? || f.rule.Optional? {
      v := ValueOf(a);
    } else {
      v := FreshValue(f.ty, Num(0));
    }
  }

  method DecodePackedArray(stream: IStream, ty: Type, dest: seq<Value>, max: nat) returns (ok: bool, items: seq<Value>)
    requires stream.Valid() && Packable(ty)
    modifies stream
    ensures var p := ReadPrefixed(old(stream.Rest()));
      && stream.Valid() && stream.End() <= old(stream.End())
      && (ok <==> p.Got? && DecodePacked(ty, p.value, dest, max).Some?)
      && (ok ==> items == DecodePacked(ty, p.value, dest, max).value
                 && stream.Rest() == p.rest && stream.End() == old(stream.End()))
  {
    hide ReadPrefixed, DecodeNumber;
    items := dest;
    var made, sub := stream.MakeStringSubstream();
    if !made {
      return false, items;
    }
    ghost var body, end, left := sub.Rest(), sub.End(), stream.bytesLeft;
    var status := true;
    while sub.bytesLeft > 0 && |items| < max && status
      invariant sub.Valid() && sub.End() == end && fresh(sub) && sub.data == stream.data
      invariant stream.Valid() && stream.End() <= old(stream.End()) && stream.bytesLeft == left
      invariant if status then DecodePacked(ty, body, dest, max) == DecodePacked(ty, sub.Rest(), items, max)
                else DecodePacked(ty, body, dest, max).None?
      decreases if status then sub.bytesLeft + 1 else 0
    {
      var v;
      status, v := DecodeNumberFrom(sub, ty);
      if status {
        items := items + [v];
      }
    }
    if sub.bytesLeft != 0 {
      return false, items;
    }
    ok := stream.CloseStringSubstream(sub);
    return status, items;
  }

  // ----- the loop, step by step -----

  /** A tag that was read leads to its field, or to the end. */
  lemma TagRead(fields: seq<Field>, s: Slice, slots: seq<Slot>, seen: set<nat>)
    requires |slots| == |fields| && s != []
    ensures var r := ReadVarint32(s);
      DecodeLoop(fields, s, slots, seen)
      == if r.Bad? then Failed
         else if r.value == 0 then Stopped(slots, seen, r.rest)
         else
           var tag, wireType := r.value / 8, r.value % 8;
           if fields == [] && tag == 0 then
             match DecodeNumber(Bool, r.rest) case Bad => Failed case Got(_, rest) => DecodeLoop(fields, rest, slots, seen)
           else
             match FindTag(fields, tag)
             case None =>
               (match SkipField(wireType, r.rest) case Bad => Failed case Got(_, rest) => DecodeLoop(fields, rest, slots, seen))
             case Some(i) =>
               match DecodeField(fields, i, wireType, r.rest, slots) case Bad => Failed case Got(slots', rest) =>
                 DecodeLoop(fields, rest, slots', if fields[i].rule.Required? then seen + {i} else seen)
  {
    hide ReadVarint32, DecodeNumber, FindTag, SkipField, DecodeField;
  }

  lemma {:induction false} NotFound(fields: seq<Field>, tag: nat)
    requires fields != [] ==> forall i :: 0 <= i < |fields| ==> fields[i].tag != tag
    ensures FindTag(fields, tag).None?
  {
  }

  lemma {:induction false} Found(fields: seq<Field>, i: nat, tag: nat)
    requires GoodFields(fields) && i < |fields| && fields[i].tag == tag
    ensures FindTag(fields, tag) == Some(i) && GoodField(fields[i])
  {
    hide GoodField;
    FoundByTag(fields, i, tag);
  }

  lemma IterFacts(iter: FieldIter)
    requires iter.Valid() && iter.fields != []
    ensures iter.pos < |iter.fields| && iter.requiredIndex == RequiredIndex(iter.fields, iter.pos)
  {
  }

  // ----- required fields -----

  /** The marks are the indices of the required fields seen, as far as there is a bit for them. In a message
      without fields a mark means nothing. */
  ghost predicate MarksOf(fields: seq<Field>, marked: set<nat>, seen: set<nat>) {
    && (forall i :: i in seen ==> i < |fields| && fields[i].rule.Required?)
    && (fields != [] ==>
         && (forall i :: i in seen && RequiredIndex(fields, i) < MAX_REQUIRED_FIELDS ==> RequiredIndex(fields, i) in marked)
         && (forall k :: k in marked ==> exists i :: i in seen && i < |fields| && RequiredIndex(fields, i) == k))
  }

  lemma MarksStart(fields: seq<Field>)
    ensures MarksOf(fields, {}, {})
  {
  }

  lemma MarksWithoutFields(marked: set<nat>, marked': set<nat>, seen: set<nat>)
    requires MarksOf([], marked, seen)
    ensures MarksOf([], marked', seen)
  {
  }

  lemma {:induction false} MarksGrow(fields: seq<Field>, marked: set<nat>, seen: set<nat>, i: nat)
    requires MarksOf(fields, marked, seen) && i < |fields| && fields[i].rule.Required?
    ensures var k := RequiredIndex(fields, i);
      MarksOf(fields, if k < MAX_REQUIRED_FIELDS then marked + {k} else marked, seen + {i})
  {
    hide RequiredIndex;
    var k := RequiredIndex(fields, i);
    var marked' := if k < MAX_REQUIRED_FIELDS then marked + {k} else marked;
    forall m | m in marked'
      ensures exists j :: j in seen + {i} && j < |fields| && RequiredIndex(fields, j) == m
    {
      if m in marked {
        var j :| j in seen && j < |fields| && RequiredIndex(fields, j) == m;
        assert j in seen + {i};
      } else {
        assert i in seen + {i};
      }
    }
  }

  lemma {:induction false} RequiredGrows(fields: seq<Field>, i: nat, j: nat)
    requires i <= j <= |fields|
    ensures RequiredIndex(fields, i) <= RequiredIndex(fields, j)
    ensures i < j && fields[i].rule.Required? ==> RequiredIndex(fields, i) < RequiredIndex(fields, j)
    decreases j
  {
    if i < j {
      RequiredGrows(fields, i, j - 1);
    }
  }

  /** Every index below the number of required fields belongs to one. */
  lemma {:induction false} RequiredAt(fields: seq<Field>, n: nat, k: nat) returns (i: nat)
    requires n <= |fields| && k < RequiredIndex(fields, n)
    ensures i < n && fields[i].rule.Required? && RequiredIndex(fields, i) == k
    decreases n
  {
    if k < RequiredIndex(fields, n - 1) {
      i := RequiredAt(fields, n - 1, k);
    } else {
      i := n - 1;
    }
  }

  /** The marks below the number of required fields are complete exactly when all checked fields were seen. */
  lemma {:induction false} MarksAreComplete(fields: seq<Field>, marked: set<nat>, seen: set<nat>, count: nat)
    requires fields != [] && MarksOf(fields, marked, seen)
    requires var total := RequiredIndex(fields, |fields|);
      count == if total < MAX_REQUIRED_FIELDS then total else MAX_REQUIRED_FIELDS
    ensures (forall k :: 0 <= k < count ==> k in marked) <==> AllSeen(fields, seen)
  {
    hide RequiredIndex;
    if AllSeen(fields, seen) {
      forall k | 0 <= k < count
        ensures k in marked
      {
        var i := RequiredAt(fields, |fields|, k);
      }
    }
    if forall k :: 0 <= k < count ==> k in marked {
      forall i: nat | i < |fields| && fields[i].rule.Required? && RequiredIndex(fields, i) < MAX_REQUIRED_FIELDS
        ensures i in seen
      {
        RequiredGrows(fields, i, |fields|);
        var k := RequiredIndex(fields, i);
        assert k in marked;
        var j :| j in seen && j < |fields| && RequiredIndex(fields, j) == k;
        RequiredUnique(fields, i, j);
      }
    }
  }

  lemma {:induction false} RequiredUnique(fields: seq<Field>, i: nat, j: nat)
    requires i < |fields| && j < |fields| && fields[i].rule.Required? && fields[j].rule.Required?
    requires RequiredIndex(fields, i) == RequiredIndex(fields, j)
    ensures i == j
  {
    hide RequiredIndex;
    if i < j {
      RequiredGrows(fields, i, j);
    } else if j < i {
      RequiredGrows(fields, j, i);
    }
  }

  /** The end of pb_decode_noinit: the number of required fields is found by going on to the last field. */
  method CheckRequired(fields: seq<Field>, iter: FieldIter, marks: FieldsSeen, ghost seen: set<nat>) returns (ok: bool)
    requires iter.Valid() && iter.fields == fields && marks.Valid() && MarksOf(fields, marks.marked, seen)
    modifies iter
    ensures ok <==> AllSeen(fields, seen)
  {
    hide RequiredIndex, FieldIter.Valid, FieldsSeen.Valid;
    if fields == [] {
      return true;
    }
    IterFacts(iter);
    var count := iter.requiredIndex;
    var last := fields[iter.pos];
    var more := true;
    while more
      invariant iter.Valid() && iter.fields == fields && iter.pos < |fields|
      invariant if more then true
                else last == fields[|fields| - 1] && count == RequiredIndex(fields, |fields| - 1)
      decreases more, |fields| - iter.pos
    {
      IterFacts(iter);
      count := iter.requiredIndex;
      last := fields[iter.pos];
      more := iter.Next();
    }
    LastIndex(fields);
    if last.rule.Required? {
      count := count + 1;
    }
    if count > MAX_REQUIRED_FIELDS {
      count := MAX_REQUIRED_FIELDS;
    }
    MarksBelow(fields, marks.marked, seen, count);
    MarksBounded(marks);
    ok := marks.AllMarked(count);
    MarksAreComplete(fields, marks.marked, seen, count);
  }

  lemma {:induction false} LastIndex(fields: seq<Field>)
    requires fields != []
    ensures RequiredIndex(fields, |fields|)
         == RequiredIndex(fields, |fields| - 1) + if fields[|fields| - 1].rule.Required? then 1 else 0
  {
  }

  lemma MarksBounded(marks: FieldsSeen)
    requires marks.Valid()
    ensures forall k :: k in marks.marked ==> k < MAX_REQUIRED_FIELDS
  {
  }

  lemma {:induction false} MarksBelow(fields: seq<Field>, marked: set<nat>, seen: set<nat>, count: nat)
    requires fields != [] && MarksOf(fields, marked, seen)
    requires var total := RequiredIndex(fields, |fields|);
      count == if total < MAX_REQUIRED_FIELDS then total else MAX_REQUIRED_FIELDS
    ensures forall k :: k in marked && k < MAX_REQUIRED_FIELDS ==> k < count
  {
    hide RequiredIndex;
    forall k | k in marked
      ensures k < RequiredIndex(fields, |fields|)
    {
      var i :| i in seen && i < |fields| && RequiredIndex(fields, i) == k;
      RequiredGrows(fields, i, |fields|);
    }
  }

  /** pb_decode. */
  method DecodeFrom(stream: IStream, fields: seq<Field>) returns (ok: bool, slots: seq<Slot>)
    requires stream.Valid() && GoodFields(fields)
    modifies stream
    ensures var r := Decode(fields, old(stream.Rest()));
      && stream.Valid() && (ok <==> r.Got?) && (ok ==> slots == r.value && stream.Rest() == r.rest)
  {
    hide DecodeMessage, GoodFields;
    slots := SetToDefaults(fields);
    ok, slots := DecodeNoinit(stream, fields, slots);
  }
}
