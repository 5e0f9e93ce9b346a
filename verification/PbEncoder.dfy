/** pb_encode: the encoder writes what the encoding says, or fails because something does not fit. */
module PbEncoder {
  import opened Bytes
  import opened PbVarint
  import opened PbStreams
  import opened PbFieldIter
  import opened PbDecoding
  import PbFormat
  import F = PbFormat
  import V = Varint

  type Type = F.Type
  type Field = F.Field
  type Value = F.Value
  type Slot = F.Slot

  /** Arrays and byte strings are within bounds. */
  ghost predicate Encodable(ty: Type, v: Value)
    requires F.Shaped(ty, v)
    decreases ty, 1
  {
    match ty
    case Bytes(max) => |v.bytes| <= max
    case Sub(fields) => EncodableFields(fields, v.slots, |fields|)
    case _ => true
  }

  ghost predicate EncodableSlot(f: Field, a: Slot)
    requires F.ShapedSlot(f, a)
    decreases f
  {
    match f.rule
    case Required => Encodable(f.ty, a.value)
    case Optional => a.has ==> Encodable(f.ty, a.value)
    case Oneof(_) => a.has ==> Encodable(f.ty, a.value)
    case Repeated(max) => |a.items| <= max && forall k :: 0 <= k < |a.items| ==> Encodable(f.ty, a.items[k])
  }

  ghost predicate EncodableFields(fields: seq<Field>, slots: seq<Slot>, n: nat)
    requires F.ShapedFields(fields, slots) && n <= |fields|
    decreases fields, n
  {
    forall i :: 0 <= i < n ==> EncodableSlot(fields[i], slots[i])
  }

  /** pb_encode_tag. */
  method EncodeTag(stream: OStream, tag: nat, wireType: nat) returns (ok: bool)
    requires stream.Valid() && tag < F.MAX_TAG && wireType < 8
    modifies stream, stream.buf
    ensures var s := F.EncodeTag(tag, wireType);
      stream.Valid() && (ok <==> old(stream.Fits(|s|))) && (ok ==> stream.Appended(s))
  {
    ok := stream.EncodeVarint(tag * 8 + wireType);
  }

  /** pb_encode_string. */
  method EncodeString(stream: OStream, bytes: Slice) returns (ok: bool)
    requires stream.Valid() && |bytes| < TWO_64
    modifies stream, stream.buf
    ensures var s := V.LengthPrefixed(bytes);
      stream.Valid() && (ok <==> old(stream.Fits(|s|))) && (ok ==> stream.Appended(s))
  {
    hide V.EncodeVarint, OStream.Wrote;
    ghost var before, p := stream.buf[..], stream.state;
    ok := stream.EncodeVarint(|bytes|);
    if ok {
      stream.WroteSo(before, p, V.EncodeVarint(|bytes|));
      ghost var between, q := stream.buf[..], stream.state;
      ok := stream.Write(bytes);
      if ok {
        stream.WroteTwice(before, p, V.EncodeVarint(|bytes|), between, q, bytes);
      }
    }
  }

  method EncodeFixed(stream: OStream, n: nat, x: nat) returns (ok: bool)
    requires stream.Valid()
    modifies stream, stream.buf
    ensures stream.Valid() && (ok <==> old(stream.Fits(n))) && (ok ==> stream.Appended(Bytes.EncodeFixed(n, x)))
  {
    ok := stream.Write(Bytes.EncodeFixed(n, x));
  }

  /** The encoders of numbers. */
  method EncodeNumber(stream: OStream, ty: Type, v: Value) returns (ok: bool)
    requires stream.Valid() && F.Packable(ty) && F.GoodType(ty) && F.Shaped(ty, v)
    modifies stream, stream.buf
    ensures var s := F.EncodeValue(ty, v);
      stream.Valid() && (ok <==> old(stream.Fits(|s|))) && (ok ==> stream.Appended(s))
  {
    hide V.EncodeVarint, ToUnsigned, Zigzag;
    match ty
    case Bool => ok := stream.EncodeVarint(if v.n != 0 then 1 else 0);
    case VarInt(_) =>
      UnsignedIsSmall(v.n);
      ok := stream.EncodeVarint(ToUnsigned(v.n, TWO_64));
    case UVarInt(_) => ok := stream.EncodeVarint(v.n);
    case SVarInt(_) => ok := stream.EncodeSvarint(v.n);
    case Fixed32 => ok := EncodeFixed(stream, 4, v.n);
    case Fixed64 => ok := EncodeFixed(stream, 8, v.n);
  }

  /** The bytes of a char array before the first zero byte, or all. */
  method StringLength(bytes: Slice) returns (size: nat)
    ensures size == |F.CString(bytes)| <= |bytes| && F.CString(bytes) == bytes[..size]
  {
    size := 0;
    while size < |bytes| && bytes[size] != 0
      invariant size <= |bytes| && size + |F.CString(bytes[size..])| == |F.CString(bytes)|
    {
      assert bytes[size..][1..] == bytes[size + 1..];
      size := size + 1;
    }
  }

  // Every message that is encoded must be shorter than 2 to the 64, so that sizes do not overflow.

  /** PB_ENCODERS: the encoder of a field's type. */
  method EncodeValue(stream: OStream, ty: Type, v: Value) returns (ok: bool)
    requires stream.Valid() && F.GoodType(ty) && F.Shaped(ty, v) && |F.EncodeValue(ty, v)| < TWO_64
    modifies stream, stream.buf
    ensures var s := F.EncodeValue(ty, v);
      stream.Valid() && (ok <==> Encodable(ty, v) && old(stream.Fits(|s|))) && (ok ==> stream.Appended(s))
    decreases ty, 1
  {
    hide V.LengthPrefixed, F.CString, V.EncodeVarint, Bytes.EncodeFixed, Zigzag, ToUnsigned, F.EncodeFields, EncodableFields,
         F.ShapedFields, F.GoodFields;
    match ty
    case Bytes(max) =>
      if |v.bytes| > max {
        return false;
      }
      ok := EncodeString(stream, v.bytes);
    case Str(_) =>
      var size := StringLength(v.bytes);
      ok := EncodeString(stream, v.bytes[..size]);
    case FixedBytes(_) => ok := EncodeString(stream, v.bytes);
    case Sub(fields) =>
      V.PrefixedIsLonger(F.EncodeFields(fields, v.slots, |fields|));
      ok := EncodeSubmessage(stream, fields, v.slots);
    case _ => ok := EncodeNumber(stream, ty, v);
  }

  /** pb_encode_submessage: the size pass, the length, and the same again, written. */
  method EncodeSubmessage(stream: OStream, fields: seq<Field>, slots: seq<Slot>) returns (ok: bool)
    requires stream.Valid() && F.GoodFields(fields) && F.ShapedFields(fields, slots) && |F.Encode(fields, slots)| < TWO_64
    modifies stream, stream.buf
    ensures var s := V.LengthPrefixed(F.Encode(fields, slots));
      && stream.Valid() && (ok <==> EncodableFields(fields, slots, |fields|) && old(stream.Fits(|s|)))
      && (ok ==> stream.Appended(s))
    decreases fields, 3
  {
    hide V.EncodeVarint, F.GoodFields, F.ShapedFields, F.EncodeFields, EncodableFields;
    ghost var before, p, body := stream.buf[..], stream.state, F.Encode(fields, slots);
    var sizing := new OStream.Sizing();
    ok := Encode(sizing, fields, slots);
    if !ok {
      return;
    }
    var size := sizing.written;
    assert size == |body| && stream.buf[..] == before;
    ok := stream.EncodeVarint(size);
    if !ok {
      return;
    }
    ghost var between, q := stream.buf[..], stream.state;
    if !stream.writing {
      stream.Count(size);
      stream.WroteTwice(before, p, V.EncodeVarint(size), between, q, body);
      return;
    }
    if stream.written + size > stream.maxSize {
      return false;
    }
    var part := new OStream.Part(stream, size);
    var status := Encode(part, fields, slots);
    stream.written := stream.written + part.written;
    stream.state := part.state;
    if part.written != size {
      assert false;    // "submsg size changed"
    }
    stream.WroteTwice(before, p, V.EncodeVarint(size), between, q, body);
    return status;
  }

  /** pb_encode. */
  method Encode(stream: OStream, fields: seq<Field>, slots: seq<Slot>) returns (ok: bool)
    requires stream.Valid() && F.GoodFields(fields) && F.ShapedFields(fields, slots) && |F.Encode(fields, slots)| < TWO_64
    modifies stream, stream.buf
    ensures var s := F.Encode(fields, slots);
      && stream.Valid() && (ok <==> EncodableFields(fields, slots, |fields|) && old(stream.Fits(|s|)))
      && (ok ==> stream.Appended(s))
    decreases fields, 2
  {
    hide F.GoodField, F.ShapedSlot, F.EncodeSlot, EncodableSlot, F.EncodeFields, OStream.Wrote, F.GoodFields, F.ShapedFields,
         EncodableFields, Describes, UnionsShareSize, RequiredIndex, FieldIter.Valid;
    NoFields(fields, slots);
    ghost var before, p := stream.buf[..], stream.state;
    stream.WroteNothing();
    if fields == [] {
      return true;
    }
    var iter := new FieldIter(fields, Layout(fields));
    var more := true;
    while more
      invariant fresh(iter) && iter.Valid() && iter.fields == fields && iter.pos < |fields|
      invariant stream.Valid() && EncodableFields(fields, slots, Past(fields, more, iter.pos))
      invariant stream.Appended(F.EncodeFields(fields, slots, Past(fields, more, iter.pos)))
      decreases more, |fields| - iter.pos
    {
      var i := iter.pos;
      ghost var done := F.EncodeFields(fields, slots, i);
      FieldFits(fields, slots, i);
      stream.WroteSo(before, p, done);
      ghost var between, q := stream.buf[..], stream.state;
      ok := EncodeField(stream, fields[i], slots[i]);
      if !ok {
        return;
      }
      stream.WroteTwice(before, p, done, between, q, F.EncodeSlot(fields[i], slots[i]));
      more := iter.Next();
      assert Past(fields, more, iter.pos) == i + 1;
    }
    return true;
  }

  lemma {:induction false} NoFields(fields: seq<Field>, slots: seq<Slot>)
    requires F.ShapedFields(fields, slots)
    ensures |slots| == |fields| && F.EncodeFields(fields, slots, 0) == [] && EncodableFields(fields, slots, 0)
  {
  }

  /** How many fields the iterator has passed. */
  ghost function Past(fields: seq<Field>, more: bool, pos: nat): nat {
    if more then pos else |fields|
  }

  lemma {:induction false} PartIsShorter(fields: seq<Field>, slots: seq<Slot>, n: nat, m: nat)
    requires F.ShapedFields(fields, slots) && n <= m <= |fields|
    ensures |F.EncodeFields(fields, slots, n)| <= |F.EncodeFields(fields, slots, m)|
    decreases m
  {
    hide F.EncodeSlot;
    if n < m {
      PartIsShorter(fields, slots, n, m - 1);
    }
  }

  lemma FieldFits(fields: seq<Field>, slots: seq<Slot>, i: nat)
    requires F.GoodFields(fields) && F.ShapedFields(fields, slots) && i < |fields|
    ensures F.GoodField(fields[i]) && F.ShapedSlot(fields[i], slots[i])
    ensures F.EncodeFields(fields, slots, i + 1) == F.EncodeFields(fields, slots, i) + F.EncodeSlot(fields[i], slots[i])
    ensures |F.EncodeFields(fields, slots, i + 1)| <= |F.Encode(fields, slots)|
    ensures EncodableFields(fields, slots, i + 1) <==> EncodableFields(fields, slots, i) && EncodableSlot(fields[i], slots[i])
    ensures EncodableFields(fields, slots, |fields|) ==> EncodableFields(fields, slots, i + 1)
  {
    PartIsShorter(fields, slots, i + 1, |fields|);
  }

  /** encode_field, encode_basic_field. */
  method EncodeField(stream: OStream, f: Field, a: Slot) returns (ok: bool)
    requires stream.Valid() && F.GoodField(f) && F.ShapedSlot(f, a) && |F.EncodeSlot(f, a)| < TWO_64
    modifies stream, stream.buf
    ensures var s := F.EncodeSlot(f, a);
      && stream.Valid() && (ok <==> EncodableSlot(f, a) && old(stream.Fits(|s|)))
      && (ok ==> stream.Appended(s))
    decreases f, 3
  {
    hide F.EncodeTag, F.EncodeValue, F.Shaped, Encodable;
    match f.rule
    case Required => ok := EncodeOne(stream, f, a.value);
    case Optional =>
      ok := true;
      if a.has {
        ok := EncodeOne(stream, f, a.value);
      }
    case Repeated(_) => ok := EncodeArray(stream, f, a.items);
    case Oneof(_) =>
      ok := true;
      if a.has {
        ok := EncodeOne(stream, f, a.value);
      }
  }

  method EncodeOne(stream: OStream, f: Field, v: Value) returns (ok: bool)
    requires stream.Valid() && F.GoodField(f) && F.Shaped(f.ty, v) && |F.EncodeValue(f.ty, v)| < TWO_64
    modifies stream, stream.buf
    ensures var s := F.EncodeTag(f.tag, F.WireType(f.ty)) + F.EncodeValue(f.ty, v);
      && stream.Valid() && (ok <==> Encodable(f.ty, v) && old(stream.Fits(|s|)))
      && (ok ==> stream.Appended(s))
    decreases f, 0
  {
    hide F.EncodeTag, F.EncodeValue, F.Shaped, Encodable, F.GoodType, OStream.Wrote;
    ghost var before, p := stream.buf[..], stream.state;
    ghost var tag, value := F.EncodeTag(f.tag, F.WireType(f.ty)), F.EncodeValue(f.ty, v);
    ok := EncodeTag(stream, f.tag, F.WireType(f.ty));
    if ok {
      stream.WroteSo(before, p, tag);
      ghost var between, q := stream.buf[..], stream.state;
      ok := EncodeValue(stream, f.ty, v);
      if ok {
        stream.WroteTwice(before, p, tag, between, q, value);
      }
    }
  }

  /** encode_array. */
  method EncodeArray(stream: OStream, f: Field, items: seq<Value>) returns (ok: bool)
    requires f.rule.Repeated? && F.ShapedSlot(f, F.Array(items)) && F.GoodField(f)
    requires stream.Valid() && |F.EncodeSlot(f, F.Array(items))| < TWO_64
    modifies stream, stream.buf
    ensures var a := F.Array(items);
      var s := F.EncodeSlot(f, a);
      && stream.Valid() && (ok <==> EncodableSlot(f, a) && old(stream.Fits(|s|)))
      && (ok ==> stream.Appended(s))
    decreases f, 2
  {
    if |items| == 0 {
      return true;
    }
    if |items| > f.rule.max {
      return false;
    }
    if F.Packable(f.ty) {
      ok := EncodePacked(stream, f, items);
    } else {
      ok := EncodeUnpacked(stream, f, items);
    }
  }

  lemma {:induction false} FewerItems(tag: nat, ty: Type, items: seq<Value>, n: nat, m: nat)
    requires n <= m <= |items| && forall k :: 0 <= k < |items| ==> F.Shaped(ty, items[k])
    ensures |F.EncodeItems(ty, items, n)| <= |F.EncodeItems(ty, items, m)|
    ensures |F.EncodeTagged(tag, ty, items, n)| <= |F.EncodeTagged(tag, ty, items, m)|
    ensures F.EncodeItems(ty, items, 0) == []
    ensures n > 0 ==> F.EncodeItems(ty, items, n) == F.EncodeItems(ty, items, n - 1) + F.EncodeValue(ty, items[n - 1])
    decreases m
  {
    hide F.EncodeValue, F.EncodeTag, F.Shaped;
    if n < m {
      FewerItems(tag, ty, items, n, m - 1);
    }
  }

  method EncodeUnpacked(stream: OStream, f: Field, items: seq<Value>) returns (ok: bool)
    requires f.rule.Repeated? && F.GoodField(f) && stream.Valid()
    requires forall k :: 0 <= k < |items| ==> F.Shaped(f.ty, items[k])
    requires |F.EncodeTagged(f.tag, f.ty, items, |items|)| < TWO_64
    modifies stream, stream.buf
    ensures var s := F.EncodeTagged(f.tag, f.ty, items, |items|);
      && stream.Valid()
      && (ok <==> (forall k :: 0 <= k < |items| ==> Encodable(f.ty, items[k])) && old(stream.Fits(|s|)))
      && (ok ==> stream.Appended(s))
    decreases f, 1
  {
    hide F.EncodeValue, F.EncodeTag, F.Shaped, Encodable, F.GoodField, OStream.Wrote;
    ghost var before, p := stream.buf[..], stream.state;
    stream.WroteNothing();
    var i := 0;
    while i < |items|
      invariant i <= |items| && stream.Valid() && stream.Appended(F.EncodeTagged(f.tag, f.ty, items, i))
      invariant forall k :: 0 <= k < i ==> Encodable(f.ty, items[k])
    {
      ghost var done := F.EncodeTagged(f.tag, f.ty, items, i);
      FewerItems(f.tag, f.ty, items, i + 1, |items|);
      stream.WroteSo(before, p, done);
      ghost var between, q := stream.buf[..], stream.state;
      ok := EncodeOne(stream, f, items[i]);
      if !ok {
        return;
      }
      stream.WroteTwice(before, p, done, between, q,
                        F.EncodeTag(f.tag, F.WireType(f.ty)) + F.EncodeValue(f.ty, items[i]));
      i := i + 1;
    }
    return true;
  }

  /** All items of a packed array, after one another. */
  method EncodeItems(stream: OStream, ty: Type, items: seq<Value>) returns (ok: bool)
    requires stream.Valid() && F.Packable(ty) && F.GoodType(ty) && forall k :: 0 <= k < |items| ==> F.Shaped(ty, items[k])
    modifies stream, stream.buf
    ensures var s := F.EncodeItems(ty, items, |items|);
      && stream.Valid() && (ok <==> old(stream.Fits(|s|))) && (ok ==> stream.Appended(s))
  {
    hide F.EncodeValue, F.Shaped, F.GoodType, OStream.Wrote, F.EncodeItems;
    ghost var before, p := stream.buf[..], stream.state;
    stream.WroteNothing();
    FewerItems(0, ty, items, 0, |items|);
    var i := 0;
    while i < |items|
      invariant i <= |items| && stream.Valid() && stream.Appended(F.EncodeItems(ty, items, i))
    {
      ghost var done := F.EncodeItems(ty, items, i);
      FewerItems(0, ty, items, i + 1, |items|);
      stream.WroteSo(before, p, done);
      ghost var between, q := stream.buf[..], stream.state;
      ok := EncodeNumber(stream, ty, items[i]);
      if !ok {
        return;
      }
      stream.WroteTwice(before, p, done, between, q, F.EncodeValue(ty, items[i]));
      i := i + 1;
    }
    return true;
  }

  /** The bytes that the items of a packed array take: by count, or by a size pass. */
  method PackedSize(ty: Type, items: seq<Value>) returns (size: nat)
    requires F.Packable(ty) && F.GoodType(ty) && forall k :: 0 <= k < |items| ==> F.Shaped(ty, items[k])
    ensures size == |F.EncodeItems(ty, items, |items|)|
  {
    if ty.Fixed32? {
      size := 4 * |items|;
      FixedSize(ty, items, |items|, 4);
    } else if ty.Fixed64? {
      size := 8 * |items|;
      FixedSize(ty, items, |items|, 8);
    } else {
      var sizing := new OStream.Sizing();
      var ok := EncodeItems(sizing, ty, items);
      size := sizing.written;
    }
  }

  lemma {:induction false} FixedSize(ty: Type, items: seq<Value>, n: nat, size: nat)
    requires (ty.Fixed32? && size == 4) || (ty.Fixed64? && size == 8)
    requires n <= |items| && forall k :: 0 <= k < |items| ==> F.Shaped(ty, items[k])
    ensures |F.EncodeItems(ty, items, n)| == size * n
  {
    if n > 0 {
      FixedSize(ty, items, n - 1, size);
    }
  }

  method EncodePacked(stream: OStream, f: Field, items: seq<Value>) returns (ok: bool)
    requires F.GoodField(f) && F.Packable(f.ty) && stream.Valid()
    requires forall k :: 0 <= k < |items| ==> F.Shaped(f.ty, items[k])
    requires |F.EncodeItems(f.ty, items, |items|)| < TWO_64
    modifies stream, stream.buf
    ensures var s := F.EncodeTag(f.tag, F.WT_STRING) + V.LengthPrefixed(F.EncodeItems(f.ty, items, |items|));
      && stream.Valid() && (ok <==> old(stream.Fits(|s|))) && (ok ==> stream.Appended(s))
  {
    hide F.EncodeItems, F.EncodeTag, F.Shaped, V.EncodeVarint, F.GoodType, OStream.Wrote;
    ghost var before, p := stream.buf[..], stream.state;
    ghost var tag, body := F.EncodeTag(f.tag, F.WT_STRING), F.EncodeItems(f.ty, items, |items|);
    ok := EncodeTag(stream, f.tag, F.WT_STRING);
    if !ok {
      return;
    }
    stream.WroteSo(before, p, tag);
    ghost var b1, p1 := stream.buf[..], stream.state;
    var size := PackedSize(f.ty, items);
    assert stream.buf[..] == b1;
    ok := stream.EncodeVarint(size);
    if !ok {
      return;
    }
    ghost var head := tag + V.EncodeVarint(size);
    stream.WroteTwice(before, p, tag, b1, p1, V.EncodeVarint(size));
    stream.WroteSo(before, p, head);
    ghost var b2, p2 := stream.buf[..], stream.state;
    assert head + body == tag + V.LengthPrefixed(body);
    if !stream.writing {
      stream.Count(size);
      stream.WroteUncounted(b2, p2, body);
    } else {
      ok := EncodeItems(stream, f.ty, items);
      if !ok {
        return;
      }
    }
    stream.WroteTwice(before, p, head, b2, p2, body);
  }

  /** pb_get_encoded_size: the size pass tells how many bytes the write pass takes, and encoding into a buffer
      succeeds if and only if they fit. */
  method GetEncodedSize(fields: seq<Field>, slots: seq<Slot>) returns (ok: bool, size: nat)
    requires F.GoodFields(fields) && F.ShapedFields(fields, slots) && |F.Encode(fields, slots)| < TWO_64
    ensures ok <==> EncodableFields(fields, slots, |fields|)
    ensures ok ==> size == |F.Encode(fields, slots)|
  {
    var stream := new OStream.Sizing();
    ok := Encode(stream, fields, slots);
    size := stream.written;
  }

  /** Encoding into a buffer from its start. */
  method EncodeToBuffer(buf: array<byte>, fields: seq<Field>, slots: seq<Slot>) returns (ok: bool, size: nat)
    requires F.GoodFields(fields) && F.ShapedFields(fields, slots) && |F.Encode(fields, slots)| < TWO_64
    modifies buf
    ensures ok <==> EncodableFields(fields, slots, |fields|) && |F.Encode(fields, slots)| <= buf.Length
    ensures ok ==> size == |F.Encode(fields, slots)| <= buf.Length && buf[..size] == F.Encode(fields, slots)
  {
    hide F.Encode;
    var stream := new OStream(buf, buf.Length);
    ok := Encode(stream, fields, slots);
    size := stream.written;
  }
}
