/** nanopb messages: descriptors, the structs they describe, and what the encoder and the decoder make of
    them. Only statically allocated fields are described. */
module PbFormat {
  import opened Bytes
  import opened Varint
  import opened PbVarint

  // ----- descriptors and structs -----

  datatype Type =
    | Bool
    | VarInt(size: nat)
    | UVarInt(size: nat)
    | SVarInt(size: nat)
    | Fixed32
    | Fixed64
    | Bytes(max: nat)
    | Str(dataSize: nat)          // a char array, terminated by a zero byte
    | FixedBytes(dataSize: nat)
    | Sub(fields: seq<Field>)

  datatype Rule = Required | Optional | Repeated(max: nat) | Oneof(union: nat)

  /** Where a field lies in its struct, relative to the field before it. */
  datatype Place = Place(dataOffset: nat, sizeOffset: int, dataSize: nat, isPointer: bool)

  datatype Field = Field(tag: nat, rule: Rule, ty: Type, initial: Value, place: Place)

  datatype Value = Num(n: int) | Data(bytes: Slice) | Msg(slots: seq<Slot>)

  /** One field of a struct. `has`: the has_ flag of an optional field; for a member of a union, that the which_
      field names it. */
  datatype Slot = Single(has: bool, value: Value) | Array(items: seq<Value>)

  const WT_VARINT := 0
  const WT_64BIT := 1
  const WT_STRING := 2
  const WT_32BIT := 5

  const MAX_TAG := 0x2000_0000
  const MAX_REQUIRED_FIELDS := 64

  predicate Packable(ty: Type) {
    ty.Bool? || ty.VarInt? || ty.UVarInt? || ty.SVarInt? || ty.Fixed32? || ty.Fixed64?
  }

  function WireType(ty: Type): nat {
    match ty
    case Bool | VarInt(_) | UVarInt(_) | SVarInt(_) => WT_VARINT
    case Fixed32 => WT_32BIT
    case Fixed64 => WT_64BIT
    case _ => WT_STRING
  }

  /** One more than the largest unsigned number of `size` bytes. */
  function Modulus(size: nat): (m: nat)
    ensures m > 0
  {
    if size == 1 then 0x100 else if size == 2 then 0x1_0000 else if size == 4 then TWO_32 else TWO_64
  }

  predicate IsSize(size: nat) {
    size == 1 || size == 2 || size == 4 || size == 8
  }

  /** Tags are distinct, from 1 to the largest that fits a tag byte string, here and in all submessages. */
  ghost predicate GoodFields(fields: seq<Field>)
    decreases fields
  {
    && (forall i :: 0 <= i < |fields| ==> GoodField(fields[i]))
    && (forall i, j :: 0 <= i < j < |fields| ==> fields[i].tag != fields[j].tag)
  }

  ghost predicate GoodField(f: Field)
    decreases f
  {
    0 < f.tag < MAX_TAG && GoodType(f.ty)
  }

  ghost predicate GoodType(ty: Type)
    decreases ty
  {
    match ty
    case VarInt(size) => IsSize(size)
    case UVarInt(size) => IsSize(size)
    case SVarInt(size) => IsSize(size)
    case Sub(fields) => GoodFields(fields)
    case _ => true
  }

  // ----- what a C struct can hold -----

  predicate InRange(n: int, lo: int, hi: int) {
    lo <= n < hi
  }

  ghost predicate Shaped(ty: Type, v: Value)
    decreases ty, 1
  {
    match ty
    case Bool => v.Num? && InRange(v.n, 0, 2)
    case VarInt(size) => v.Num? && InRange(v.n, -(Modulus(size) / 2), Modulus(size) / 2)
    case UVarInt(size) => v.Num? && InRange(v.n, 0, Modulus(size))
    case SVarInt(size) => v.Num? && InRange(v.n, -(Modulus(size) / 2), Modulus(size) / 2)
    case Fixed32 => v.Num? && InRange(v.n, 0, TWO_32)
    case Fixed64 => v.Num? && InRange(v.n, 0, TWO_64)
    case Bytes(_) => v.Data? && |v.bytes| < TWO_32
    case Str(dataSize) => v.Data? && |v.bytes| <= dataSize < TWO_32
    case FixedBytes(dataSize) => v.Data? && |v.bytes| == dataSize < TWO_32
    case Sub(fields) => v.Msg? && ShapedFields(fields, v.slots)
  }

  ghost predicate ShapedSlot(f: Field, a: Slot)
    decreases f
  {
    match f.rule
    case Required => a.Single? && Shaped(f.ty, a.value)
    case Optional => a.Single? && (a.has ==> Shaped(f.ty, a.value))
    case Oneof(_) => a.Single? && (a.has ==> Shaped(f.ty, a.value))
    case Repeated(_) => a.Array? && forall k :: 0 <= k < |a.items| ==> Shaped(f.ty, a.items[k])
  }

  ghost predicate ShapedFields(fields: seq<Field>, slots: seq<Slot>)
    decreases fields
  {
    && |slots| == |fields|
    && (forall i :: 0 <= i < |fields| ==> ShapedSlot(fields[i], slots[i]))
    && (forall i, j :: 0 <= i < j < |fields| && fields[i].rule.Oneof? && fields[j].rule == fields[i].rule
          ==> !(slots[i].Single? && slots[i].has && slots[j].Single? && slots[j].has))
  }

  // ----- the encoding -----

  function EncodeTag(tag: nat, wireType: nat): Slice {
    EncodeVarint(tag * 8 + wireType)
  }

  /** The bytes before the first zero byte. */
  function CString(s: Slice): (r: Slice)
    ensures r <= s
  {
    if s == [] || s[0] == 0 then [] else [s[0]] + CString(s[1..])
  }

  ghost function EncodeValue(ty: Type, v: Value): Slice
    requires Shaped(ty, v)
    decreases ty, 1
  {
    match ty
    case Bool => EncodeVarint(if v.n != 0 then 1 else 0)
    case VarInt(_) => EncodeVarint(ToUnsigned(v.n, TWO_64))
    case UVarInt(_) => EncodeVarint(v.n)
    case SVarInt(_) => EncodeVarint(Zigzag(v.n))
    case Fixed32 => EncodeFixed(4, v.n)
    case Fixed64 => EncodeFixed(8, v.n)
    case Bytes(_) => LengthPrefixed(v.bytes)
    case Str(_) => LengthPrefixed(CString(v.bytes))
    case FixedBytes(_) => LengthPrefixed(v.bytes)
    case Sub(fields) => LengthPrefixed(EncodeFields(fields, v.slots, |fields|))
  }

  /** The first `n` items of an array, packed. */
  ghost function EncodeItems(ty: Type, items: seq<Value>, n: nat): Slice
    requires n <= |items| && forall k :: 0 <= k < |items| ==> Shaped(ty, items[k])
    decreases ty, 2, n
  {
    if n == 0 then [] else EncodeItems(ty, items, n - 1) + EncodeValue(ty, items[n - 1])
  }

  /** The first `n` items of an array, each with its tag. */
  ghost function EncodeTagged(tag: nat, ty: Type, items: seq<Value>, n: nat): Slice
    requires n <= |items| && forall k :: 0 <= k < |items| ==> Shaped(ty, items[k])
    decreases ty, 2, n
  {
    if n == 0 then []
    else EncodeTagged(tag, ty, items, n - 1) + (EncodeTag(tag, WireType(ty)) + EncodeValue(ty, items[n - 1]))
  }

  ghost function EncodeSlot(f: Field, a: Slot): Slice
    requires ShapedSlot(f, a)
    decreases f
  {
    match f.rule
    case Required => EncodeTag(f.tag, WireType(f.ty)) + EncodeValue(f.ty, a.value)
    case Optional => if a.has then EncodeTag(f.tag, WireType(f.ty)) + EncodeValue(f.ty, a.value) else []
    case Oneof(_) => if a.has then EncodeTag(f.tag, WireType(f.ty)) + EncodeValue(f.ty, a.value) else []
    case Repeated(_) =>
      if a.items == [] then []
      else if Packable(f.ty) then
        EncodeTag(f.tag, WT_STRING) + LengthPrefixed(EncodeItems(f.ty, a.items, |a.items|))
      else EncodeTagged(f.tag, f.ty, a.items, |a.items|)
  }

  /** The first `n` fields. */
  ghost function EncodeFields(fields: seq<Field>, slots: seq<Slot>, n: nat): Slice
    requires n <= |fields| && ShapedFields(fields, slots)
    decreases fields, n
  {
    if n == 0 then [] else EncodeFields(fields, slots, n - 1) + EncodeSlot(fields[n - 1], slots[n - 1])
  }

  ghost function Encode(fields: seq<Field>, slots: seq<Slot>): Slice
    requires ShapedFields(fields, slots)
  {
    EncodeFields(fields, slots, |fields|)
  }
}
