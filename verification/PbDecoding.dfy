/** What pb_decode makes of a byte string, and how a message is merged into a struct. */
module PbDecoding {
  import opened Bytes
  import opened Varint
  import opened PbVarint
  import opened PbFormat

  // ----- defaults -----

  /** pb_message_set_to_defaults. */
  function Defaults(fields: seq<Field>): (slots: seq<Slot>)
    ensures |slots| == |fields|
    decreases fields
  {
    seq(|fields|, i requires 0 <= i < |fields| => DefaultSlot(fields[i]))
  }

  function DefaultSlot(f: Field): Slot
    decreases f
  {
    match f.rule
    case Required => Single(false, Fresh(f.ty, f.initial))
    case Optional => Single(false, Fresh(f.ty, f.initial))
    case Repeated(_) => Array([])
    case Oneof(_) => Single(false, Num(0))
  }

  function Fresh(ty: Type, initial: Value): Value
    decreases ty
  {
    if ty.Sub? then Msg(Defaults(ty.fields)) else initial
  }

  // A struct always has the shape of its descriptor. These three read a part of it, and give a default where
  // the shape is another.

  function SlotsOf(fields: seq<Field>, v: Value): (slots: seq<Slot>)
    ensures |slots| == |fields|
  {
    if v.Msg? && |v.slots| == |fields| then v.slots else Defaults(fields)
  }

  function ValueOf(a: Slot): Value {
    if a.Single? then a.value else Num(0)
  }

  function ItemsOf(a: Slot): seq<Value> {
    if a.Array? then a.items else []
  }

  // ----- reading one value -----

  function TakeBytes(s: Slice, n: nat): (r: Read<Slice>)
    ensures r.Got? ==> r.value + r.rest == s && |r.value| == n
  {
    if |s| < n then Bad else Got(s[..n], s[n..])
  }

  /** A C cast to a signed integer of `size` bytes. */
  function Cast(v: int, size: nat): int {
    ToSigned(ToUnsigned(v, Modulus(size)), Modulus(size))
  }

  /** pb_dec_varint, pb_dec_uvarint, pb_dec_svarint: the value must not change in the cast to the field's size. */
  function FitVarint(u: uint64, size: nat): Option<int> {
    var v := if size == 8 then ToSigned(u, TWO_64) else ToSigned(u, TWO_32);
    if IsSize(size) && Cast(v, size) == v then Some(v) else None
  }

  function FitUVarint(u: uint64, size: nat): Option<int> {
    if IsSize(size) && u % Modulus(size) == u then Some(u) else None
  }

  function FitSVarint(u: uint64, size: nat): Option<int> {
    var v := Unzigzag(u);
    if IsSize(size) && Cast(v, size) == v then Some(v) else None
  }

  lemma ReadShrinks(s: Slice)
    ensures ReadVarint64(s).Got? ==> |ReadVarint64(s).rest| < |s| && ReadVarint64(s).value < TWO_64
    ensures ReadVarint32(s).Got? ==> |ReadVarint32(s).rest| < |s|
  {
    ReadVarint64Is(s);
    if s != [] {
      Loop32Shrinks(s[1..], 7, s[0] % 128);
    }
  }

  lemma {:induction false} Loop32Shrinks(s: Slice, bitpos: nat, result: nat)
    ensures Loop32(s, bitpos, result).Got? ==> |Loop32(s, bitpos, result).rest| < |s|
    decreases |s|
  {
    hide BitOr, Pow2, Low32;
    if s != [] {
      var result' := if bitpos >= 32 then result else BitOr(result, Low32(s[0] % 128 * Pow2(bitpos)));
      Loop32Shrinks(s[1..], (bitpos + 7) % 256, result');
    }
  }

  function DecodeNumber(ty: Type, s: Slice): (r: Read<Value>)
    requires Packable(ty)
    ensures r.Got? ==> |r.rest| < |s|
  {
    ReadShrinks(s);
    match ty
    case Bool =>
      (match ReadVarint32(s) case Bad => Bad case Got(u, rest) => Got(Num(if u != 0 then 1 else 0), rest))
    case VarInt(size) =>
      (match ReadVarint64(s) case Bad => Bad case Got(u, rest) =>
        match FitVarint(u, size) case None => Bad case Some(v) => Got(Num(v), rest))
    case UVarInt(size) =>
      (match ReadVarint64(s) case Bad => Bad case Got(u, rest) =>
        match FitUVarint(u, size) case None => Bad case Some(v) => Got(Num(v), rest))
    case SVarInt(size) =>
      (match ReadVarint64(s) case Bad => Bad case Got(u, rest) =>
        match FitSVarint(u, size) case None => Bad case Some(v) => Got(Num(v), rest))
    case Fixed32 =>
      (match TakeBytes(s, 4) case Bad => Bad case Got(b, rest) => Got(Num(DecodeFixed(b)), rest))
    case Fixed64 =>
      (match TakeBytes(s, 8) case Bad => Bad case Got(b, rest) => Got(Num(DecodeFixed(b)), rest))
  }

  /** A length and that many bytes. */
  function ReadPrefixed(s: Slice): (r: Read<Slice>)
    ensures r.Got? ==> |r.value| + |r.rest| < |s|
  {
    ReadShrinks(s);
    match ReadVarint32(s) case Bad => Bad case Got(size, rest) => TakeBytes(rest, size)
  }

  /** Byte strings. An empty one stands for zeros in a field of fixed length. */
  function FitBytes(ty: Type, b: Slice): Option<Slice>
    requires ty.Bytes? || ty.Str? || ty.FixedBytes?
  {
    match ty
    case Bytes(max) => if |b| <= max then Some(b) else None
    case Str(dataSize) => if |b| + 1 <= dataSize then Some(b) else None
    case FixedBytes(dataSize) =>
      if b == [] then Some(Zeros(dataSize)) else if |b| == dataSize then Some(b) else None
  }

  // ----- reading messages -----

  /** After the last field: the struct, and which fields came. `Stopped`: a zero tag ended the message early. */
  datatype Outcome =
    | Done(slots: seq<Slot>, seen: set<nat>)
    | Stopped(slots: seq<Slot>, seen: set<nat>, rest: Slice)
    | Failed

  /** pb_skip_varint. */
  function SkipVarint(s: Slice): (r: Read<()>)
    ensures r.Got? ==> |r.rest| < |s|
  {
    if s == [] then Bad else if s[0] < 128 then Got((), s[1..]) else SkipVarint(s[1..])
  }

  function Drop(r: Read<Slice>): Read<()> {
    match r case Bad => Bad case Got(_, rest) => Got((), rest)
  }

  /** pb_skip_field. */
  function SkipField(wireType: nat, s: Slice): (r: Read<()>)
    ensures r.Got? ==> |r.rest| <= |s|
  {
    if wireType == WT_VARINT then SkipVarint(s)
    else if wireType == WT_64BIT then Drop(TakeBytes(s, 8))
    else if wireType == WT_STRING then Drop(ReadPrefixed(s))
    else if wireType == WT_32BIT then Drop(TakeBytes(s, 4))
    else Bad
  }

  function FindTag(fields: seq<Field>, tag: nat): (i: Option<nat>)
    ensures i.Some? ==> i.value < |fields| && fields[i.value].tag == tag
    ensures i.None? ==> forall j :: 0 <= j < |fields| ==> fields[j].tag != tag
  {
    if fields == [] then None
    else if fields[0].tag == tag then Some(0)
    else match FindTag(fields[1..], tag) case None => None case Some(i) => Some(i + 1)
  }

  /** Storing a member of a union makes the which_ field name it, and no other. */
  function SetMember(fields: seq<Field>, slots: seq<Slot>, i: nat, v: Value): (r: seq<Slot>)
    requires i < |fields| == |slots|
    ensures |r| == |slots|
  {
    seq(|slots|, j requires 0 <= j < |slots| =>
      if j == i then Single(true, v)
      else if fields[j].rule == fields[i].rule && slots[j].Single? then slots[j].(has := false)
      else slots[j])
  }

  /** The items of a packed array, after those in `items`. */
  function DecodePacked(ty: Type, s: Slice, items: seq<Value>, max: nat): Option<seq<Value>>
    requires Packable(ty)
    decreases |s|
  {
    if s == [] then Some(items)
    else if |items| >= max then None
    else match DecodeNumber(ty, s) case Bad => None case Got(v, rest) => DecodePacked(ty, rest, items + [v], max)
  }

  /** Storing a value that came for field `i`, by its rule. */
  function Store(fields: seq<Field>, slots: seq<Slot>, i: nat, v: Value): (r: seq<Slot>)
    requires i < |fields| == |slots|
    ensures |r| == |slots|
  {
    match fields[i].rule
    case Required => slots[i := Single(true, v)]
    case Optional => slots[i := Single(true, v)]
    case Repeated(_) => slots[i := Array(ItemsOf(slots[i]) + [v])]
    case Oneof(_) => SetMember(fields, slots, i, v)
  }

  /** What a value for field `i` is decoded into: singular submessages are merged, array items and members of
      unions start from defaults. */
  function Base(f: Field, a: Slot): Value {
    match f.rule
    case Required => ValueOf(a)
    case Optional => ValueOf(a)
    case Repeated(_) => Fresh(f.ty, Num(0))
    case Oneof(_) => Fresh(f.ty, Num(0))
  }

  function DecodeValue(ty: Type, s: Slice, base: Value): (r: Read<Value>)
    ensures r.Got? ==> |r.rest| < |s|
    decreases ty, |s|, 0
  {
    match ty
    case Sub(fields) =>
      (match ReadPrefixed(s) case Bad => Bad case Got(body, rest) =>
        match DecodeMessage(fields, body, SlotsOf(fields, base)) case Bad => Bad case Got(slots, _) => Got(Msg(slots), rest))
    case Bytes(_) | Str(_) | FixedBytes(_) =>
      (match ReadPrefixed(s) case Bad => Bad case Got(b, rest) =>
        match FitBytes(ty, b) case None => Bad case Some(d) => Got(Data(d), rest))
    case _ => DecodeNumber(ty, s)
  }

  /** decode_static_field. */
  function DecodeField(fields: seq<Field>, i: nat, wireType: nat, s: Slice, slots: seq<Slot>): (r: Read<seq<Slot>>)
    requires i < |fields| == |slots|
    ensures r.Got? ==> |r.rest| < |s| && |r.value| == |slots|
    decreases fields, |s|, 0
  {
    var f := fields[i];
    if f.rule.Repeated? && wireType == WT_STRING && Packable(f.ty) then
      match ReadPrefixed(s) case Bad => Bad case Got(body, rest) =>
        match DecodePacked(f.ty, body, ItemsOf(slots[i]), f.rule.max)
        case None => Bad
        case Some(items) => Got(slots[i := Array(items)], rest)
    else if f.rule.Repeated? && |ItemsOf(slots[i])| >= f.rule.max then Bad
    else
      match DecodeOne(f, s, slots[i]) case Bad => Bad case Got(v, rest) => Got(Store(fields, slots, i, v), rest)
  }

  function DecodeOne(f: Field, s: Slice, a: Slot): (r: Read<Value>)
    ensures r.Got? ==> |r.rest| < |s|
    decreases f, |s|, 0
  {
    DecodeValue(f.ty, s, Base(f, a))
  }

  /** The loop of pb_decode_noinit. In a message without fields the iterator stays at the terminator, whose tag
      is zero: a field with tag zero is then read as a bool, and lost. */
  function DecodeLoop(fields: seq<Field>, s: Slice, slots: seq<Slot>, seen: set<nat>): (r: Outcome)
    requires |slots| == |fields|
    ensures !r.Failed? ==> |r.slots| == |fields|
    ensures r.Stopped? ==> |r.rest| < |s|
    decreases fields, |s|, 1
  {
    ReadShrinks(s);
    if s == [] then Done(slots, seen)
    else
      match ReadVarint32(s)
      case Bad => Failed
      case Got(x, rest) =>
        if x == 0 then Stopped(slots, seen, rest)
        else
          var tag, wireType := x / 8, x % 8;
          if fields == [] && tag == 0 then
            match DecodeNumber(Bool, rest) case Bad => Failed case Got(_, rest') =>
              DecodeLoop(fields, rest', slots, seen)
          else
            match FindTag(fields, tag)
            case None =>
              (match SkipField(wireType, rest) case Bad => Failed case Got(_, rest') =>
                DecodeLoop(fields, rest', slots, seen))
            case Some(i) =>
              match DecodeField(fields, i, wireType, rest, slots) case Bad => Failed case Got(slots', rest') =>
                DecodeLoop(fields, rest', slots', if fields[i].rule.Required? then seen + {i} else seen)
  }

  lemma {:induction false} LoopEnds(fields: seq<Field>, slots: seq<Slot>, seen: set<nat>)
    requires |slots| == |fields|
    ensures DecodeLoop(fields, [], slots, seen) == Done(slots, seen)
  {
  }

  /** The number of required fields before field `i`. */
  function RequiredIndex(fields: seq<Field>, i: nat): nat
    requires i <= |fields|
  {
    if i == 0 then 0 else RequiredIndex(fields, i - 1) + if fields[i - 1].rule.Required? then 1 else 0
  }

  /** All required fields came, as far as they are checked. */
  predicate AllSeen(fields: seq<Field>, seen: set<nat>) {
    forall i :: 0 <= i < |fields| && fields[i].rule.Required? && RequiredIndex(fields, i) < MAX_REQUIRED_FIELDS ==> i in seen
  }

  /** pb_decode_noinit. */
  function DecodeMessage(fields: seq<Field>, s: Slice, slots: seq<Slot>): (r: Read<seq<Slot>>)
    requires |slots| == |fields|
    ensures r.Got? ==> |r.value| == |fields| && |r.rest| <= |s|
    decreases fields, |s|, 2
  {
    match DecodeLoop(fields, s, slots, {})
    case Failed => Bad
    case Done(slots', seen) => if AllSeen(fields, seen) then Got(slots', []) else Bad
    case Stopped(slots', seen, rest) => if AllSeen(fields, seen) then Got(slots', rest) else Bad
  }

  /** pb_decode. */
  function Decode(fields: seq<Field>, s: Slice): Read<seq<Slot>> {
    DecodeMessage(fields, s, Defaults(fields))
  }

  // ----- merging -----

  /** Merging a value into another: submessages field by field, everything else is replaced. Of a char array only
      the string in it arrives. */
  function MergeValue(ty: Type, base: Value, v: Value): Value
    decreases ty, 1
  {
    if ty.Sub? then Msg(MergeFields(ty.fields, SlotsOf(ty.fields, base), SlotsOf(ty.fields, v), |ty.fields|))
    else if ty.Str? && v.Data? then Data(CString(v.bytes))
    else v
  }

  /** The first `n` items, as they arrive in an array. */
  function MergeItems(ty: Type, items: seq<Value>, n: nat): (r: seq<Value>)
    requires n <= |items|
    ensures |r| == n
    decreases ty, 2, n
  {
    if n == 0 then [] else MergeItems(ty, items, n - 1) + [MergeValue(ty, Fresh(ty, Num(0)), items[n - 1])]
  }

  function MergeOne(f: Field, a: Slot, v: Value): Value
    decreases f, 0
  {
    MergeValue(f.ty, Base(f, a), v)
  }

  function MergeArray(f: Field, items: seq<Value>): seq<Value>
    decreases f, 0
  {
    MergeItems(f.ty, items, |items|)
  }

  /** Field `i` of a message that arrives. */
  function MergeField(fields: seq<Field>, slots: seq<Slot>, i: nat, a: Slot): (r: seq<Slot>)
    requires i < |fields| == |slots|
    ensures |r| == |slots|
    decreases fields, 0
  {
    match fields[i].rule
    case Required => Store(fields, slots, i, MergeOne(fields[i], slots[i], ValueOf(a)))
    case Optional => if a.Single? && a.has then Store(fields, slots, i, MergeOne(fields[i], slots[i], a.value)) else slots
    case Oneof(_) => if a.Single? && a.has then Store(fields, slots, i, MergeOne(fields[i], slots[i], a.value)) else slots
    case Repeated(_) =>
      if ItemsOf(a) == [] then slots else slots[i := Array(ItemsOf(slots[i]) + MergeArray(fields[i], ItemsOf(a)))]
  }

  /** The first `n` fields of a message that arrives. */
  function MergeFields(fields: seq<Field>, slots: seq<Slot>, from: seq<Slot>, n: nat): (r: seq<Slot>)
    requires n <= |fields| == |slots| == |from|
    ensures |r| == |slots|
    decreases fields, 1, n
  {
    if n == 0 then slots
    else MergeField(fields, MergeFields(fields, slots, from, n - 1), n - 1, from[n - 1])
  }

  function Merge(fields: seq<Field>, slots: seq<Slot>, from: seq<Slot>): (r: seq<Slot>)
    requires |fields| == |slots| == |from|
    ensures |r| == |slots|
  {
    MergeFields(fields, slots, from, |fields|)
  }
}
