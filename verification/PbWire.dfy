/** The wire format in plain numbers: what other implementations of Protocol Buffers rely on, and the examples of the
    "Encoding" guide. */
module PbWire {
  import opened Bytes
  import opened Varint
  import opened PbVarint
  import opened PbFormat
  import opened PbDecoding

  // ----- tags -----

  /** A field with a number below 16 begins with one byte: the number, and what kind of bytes follow. */
  lemma TagByte(f: Field)
    requires 0 < f.tag < 16
    ensures EncodeTag(f.tag, WireType(f.ty)) ==
      [8 * f.tag + match f.ty
                   case Bool => 0
                   case VarInt(_) => 0
                   case UVarInt(_) => 0
                   case SVarInt(_) => 0
                   case Fixed64 => 1
                   case Bytes(_) => 2
                   case Str(_) => 2
                   case FixedBytes(_) => 2
                   case Sub(_) => 2
                   case Fixed32 => 5]
  {
  }

  /** A packed array is a string of bytes: one tag, the number of bytes, and the items. */
  lemma {:induction false} PackedBytes(f: Field, a: Slot)
    requires 0 < f.tag < 16 && f.rule.Repeated? && ShapedSlot(f, a) && a.items != []
    requires f.ty.Bool? || f.ty.VarInt? || f.ty.UVarInt? || f.ty.SVarInt? || f.ty.Fixed32? || f.ty.Fixed64?
    ensures var items := EncodeItems(f.ty, a.items, |a.items|);
      EncodeSlot(f, a) == [8 * f.tag + 2] + (EncodeVarint(|items|) + items)
  {
    hide EncodeItems;
  }

  /** What is skipped of an unknown field. */
  lemma SkippedBytes(s: Slice)
    ensures SkipField(1, s) == if |s| < 8 then Bad else Got((), s[8..])
    ensures SkipField(5, s) == if |s| < 4 then Bad else Got((), s[4..])
    ensures SkipField(3, s).Bad? && SkipField(4, s).Bad? && SkipField(6, s).Bad? && SkipField(7, s).Bad?
  {
  }

  /** Of a varint, the bytes up to the first one below 128. */
  lemma {:induction false} SkippedVarint(s: Slice, n: nat)
    requires n < |s| && s[n] < 128 && forall k :: 0 <= k < n ==> s[k] >= 128
    ensures SkipField(0, s) == Got((), s[n + 1..])
    decreases |s|
  {
    if n > 0 {
      SkippedVarint(s[1..], n - 1);
      assert s[1..][n..] == s[n + 1..];
    }
  }

  /** Of a length-delimited field, the length and as many bytes. */
  lemma SkippedString(n: nat, s: Slice)
    requires n < 128
    ensures SkipField(2, [n] + s) == if |s| < n then Bad else Got((), s[n..])
  {
    assert ([n] + s)[1..] == s;
    SmallRead(n, s);
  }

  lemma SmallRead(n: nat, s: Slice)
    requires n < 128
    ensures ReadVarint32([n] + s) == Got(n, s)
  {
    hide ReadVarint32;
    assert EncodeVarint(n) == [n];
    Varint32RoundTrip(n, s);
  }

  // ----- values -----

  /** Zigzag: 0, -1, 1, -2, 2 and so on become 0, 1, 2, 3, 4. */
  lemma ZigzagIs(n: int)
    requires -0x8000_0000_0000_0000 <= n < 0x8000_0000_0000_0000
    ensures Zigzag(n) == if n >= 0 then 2 * n else -2 * n - 1
  {
  }

  /** Fixed-width numbers are little-endian. */
  lemma {:induction false} FixedBytesAre(n: nat)
    ensures EncodeFixed(4, n) == FourBytes(n)
    ensures EncodeFixed(8, n) == FourBytes(n) + FourBytes(n / 0x100 / 0x100 / 0x100 / 0x100)
  {
    hide FourBytes;
    var d := n / 0x100 / 0x100 / 0x100 / 0x100;
    MoreBytes(0, n);
    MoreBytes(4, n);
    MoreBytes(0, d);
    assert EncodeFixed(0, d) == [] && EncodeFixed(0, d / 0x100 / 0x100 / 0x100 / 0x100) == [];
    assert FourBytes(n) + [] == FourBytes(n) && FourBytes(d) + [] == FourBytes(d);
  }

  function FourBytes(n: nat): Slice {
    [n % 0x100, n / 0x100 % 0x100, n / 0x100 / 0x100 % 0x100, n / 0x100 / 0x100 / 0x100 % 0x100]
  }

  lemma {:induction false} MoreBytes(k: nat, n: nat)
    ensures EncodeFixed(4 + k, n) == FourBytes(n) + EncodeFixed(k, n / 0x100 / 0x100 / 0x100 / 0x100)
  {
    var a := n / 0x100;
    var b := a / 0x100;
    var c := b / 0x100;
    assert EncodeFixed(1 + k, c) == [c % 0x100] + EncodeFixed(k, c / 0x100);
    assert EncodeFixed(2 + k, b) == [b % 0x100] + EncodeFixed(1 + k, c);
    assert EncodeFixed(3 + k, a) == [a % 0x100] + EncodeFixed(2 + k, b);
    assert EncodeFixed(4 + k, n) == [n % 0x100] + EncodeFixed(3 + k, a);
  }

  /** Bools are 0 and 1, signed numbers of any width are extended to 64 bits, sint numbers are zigzagged. */
  lemma {:induction false} NumbersAre(size: nat, n: int)
    requires IsSize(size) && InRange(n, -(Modulus(size) / 2), Modulus(size) / 2)
    ensures EncodeValue(Bool, Num(0)) == [0] && EncodeValue(Bool, Num(1)) == [1]
    ensures EncodeValue(VarInt(size), Num(n)) == EncodeVarint(if n >= 0 then n else n + 0x1_0000_0000_0000_0000)
    ensures EncodeValue(SVarInt(size), Num(n)) == EncodeVarint(if n >= 0 then 2 * n else -2 * n - 1)
  {
    hide EncodeVarint, Zigzag;
    SmallBytes();
    ZigzagIs(n);
  }

  lemma SmallBytes()
    ensures EncodeVarint(0) == [0] && EncodeVarint(1) == [1]
  {
  }

  /** The ranges of the number types. */
  lemma RangesAre(size: nat)
    ensures IsSize(size) <==> size == 1 || size == 2 || size == 4 || size == 8
    ensures Modulus(1) == 0x100 && Modulus(2) == 0x1_0000 && Modulus(4) == 0x1_0000_0000
    ensures Modulus(8) == 0x1_0000_0000_0000_0000
  {
  }

  // ----- descriptors -----

  /** What a descriptor must be: tags from 1 to 2 to the 29 less one, numbers of 1, 2, 4 or 8 bytes. */
  lemma {:induction false} DescriptorsAre(f: Field)
    ensures GoodField(f) <==>
      && 1 <= f.tag <= 536870911
      && match f.ty
         case VarInt(size) => size == 1 || size == 2 || size == 4 || size == 8
         case UVarInt(size) => size == 1 || size == 2 || size == 4 || size == 8
         case SVarInt(size) => size == 1 || size == 2 || size == 4 || size == 8
         case Sub(fields) => GoodFields(fields)
         case Bool => true
         case Fixed32 => true
         case Fixed64 => true
         case Bytes(_) => true
         case Str(_) => true
         case FixedBytes(_) => true
  {
    hide GoodFields;
  }

  /** Two fields need different tags... */
  lemma {:induction false} PairIsGood(f: Field, g: Field)
    ensures GoodFields([f, g]) <==> GoodField(f) && GoodField(g) && f.tag != g.tag
  {
    hide GoodField;
    var fields := [f, g];
    assert fields[0] == f && fields[1] == g;
  }

  /** ...and may be present together unless they are members of the same union. */
  lemma {:induction false} PairIsShaped(f: Field, g: Field, a: Slot, b: Slot)
    ensures ShapedFields([f, g], [a, b]) <==>
      && ShapedSlot(f, a) && ShapedSlot(g, b)
      && !(f.rule.Oneof? && g.rule.Oneof? && f.rule.union == g.rule.union && a.has && b.has)
  {
    hide ShapedSlot;
    var fields, slots := [f, g], [a, b];
    assert fields[0] == f && fields[1] == g && slots[0] == a && slots[1] == b;
    UnionIsSingle(f, a);
    UnionIsSingle(g, b);
  }

  lemma {:induction false} UnionIsSingle(f: Field, a: Slot)
    ensures ShapedSlot(f, a) && f.rule.Oneof? ==> a.Single?
  {
    hide Shaped;
  }

  // ----- the examples of the guide -----

  function Plain(tag: nat, rule: Rule, ty: Type): Field {
    Field(tag, rule, ty, Num(0), Place(0, 0, 0, false))
  }

  /** `message Test1 { optional int32 a = 1; }` with a = 150. */
  const TEST1 := [Plain(1, Optional, VarInt(4))]
  const TEST1_BYTES: Slice := [0x08, 0x96, 0x01]

  lemma {:induction false} OneField(f: Field, a: Slot)
    requires ShapedFields([f], [a]) && ShapedSlot(f, a)
    ensures Encode([f], [a]) == EncodeSlot(f, a)
  {
    hide EncodeSlot, ShapedSlot;
    assert EncodeFields([f], [a], 0) == [];
    assert EncodeFields([f], [a], 1) == [] + EncodeSlot(f, a);
  }

  lemma {:induction false} ShapedOne(f: Field, a: Slot)
    requires ShapedSlot(f, a)
    ensures ShapedFields([f], [a])
  {
  }

  lemma Varints()
    ensures EncodeVarint(0x08) == [0x08] && EncodeVarint(0x12) == [0x12] && EncodeVarint(0x1a) == [0x1a]
    ensures EncodeVarint(0x32) == [0x32] && EncodeVarint(3) == [3] && EncodeVarint(6) == [6] && EncodeVarint(7) == [7]
    ensures EncodeVarint(150) == [0x96, 0x01] && EncodeVarint(270) == [0x8e, 0x02]
    ensures EncodeVarint(86942) == [0x9e, 0xa7, 0x05]
  {
    assert EncodeVarint(1) == [1] && EncodeVarint(2) == [2] && EncodeVarint(5) == [5];
    assert EncodeVarint(679) == [0xa7] + EncodeVarint(5);
    assert EncodeVarint(86942) == [0x9e] + EncodeVarint(679);
  }

  lemma Example1()
    ensures ShapedFields(TEST1, [Single(true, Num(150))])
    ensures Encode(TEST1, [Single(true, Num(150))]) == TEST1_BYTES
  {
    var f, a := TEST1[0], Single(true, Num(150));
    assert ShapedSlot(f, a);
    ShapedOne(f, a);
    OneField(f, a);
    Varints();
  }

  /** A string is sent up to its terminating zero. */
  lemma StringField(f: Field, word: Slice, behind: Slice)
    requires f.rule.Optional? && f.ty.Str? && 0 < f.tag < 16 && 0 !in word
    requires |word| < 128 && |word| + 1 + |behind| <= f.ty.dataSize < TWO_32
    ensures var a := Single(true, Data(word + [0] + behind));
      ShapedFields([f], [a]) && Encode([f], [a]) == [8 * f.tag + 2, |word|] + word
  {
    hide CString, ShapedFields, Encode;
    var a := Single(true, Data(word + [0] + behind));
    ShapedOne(f, a);
    OneField(f, a);
    StringEnds(word, behind);
    TagByte(f);
    assert EncodeVarint(|word|) == [|word|];
    assert EncodeSlot(f, a) == [8 * f.tag + 2] + ([|word|] + word);
  }

  /** `message Test2 { optional string b = 2; }` with b = "testing". */
  lemma Example2(behind: Slice)
    requires |behind| <= 8
    ensures var f, word := Plain(2, Optional, Str(16)), [0x74, 0x65, 0x73, 0x74, 0x69, 0x6e, 0x67];
      var a := Single(true, Data(word + [0] + behind));
      && ShapedFields([f], [a])
      && Encode([f], [a]) == [0x12, 0x07, 0x74, 0x65, 0x73, 0x74, 0x69, 0x6e, 0x67]
  {
    hide ShapedFields, Encode;
    StringField(Plain(2, Optional, Str(16)), [0x74, 0x65, 0x73, 0x74, 0x69, 0x6e, 0x67], behind);
  }

  lemma {:induction false} StringEnds(word: Slice, behind: Slice)
    requires 0 !in word
    ensures CString(word + [0] + behind) == word
  {
    var s := word + [0] + behind;
    if word == [] {
      assert s[0] == 0;
    } else {
      assert s[1..] == word[1..] + [0] + behind;
      StringEnds(word[1..], behind);
    }
  }

  /** `message Test3 { optional Test1 c = 3; }` with c.a = 150. */
  lemma Example3()
    ensures var f, a := Plain(3, Optional, Sub(TEST1)), Single(true, Msg([Single(true, Num(150))]));
      && ShapedFields([f], [a])
      && Encode([f], [a]) == [0x1a, 0x03, 0x08, 0x96, 0x01]
  {
    hide EncodeFields;
    var f, a := Plain(3, Optional, Sub(TEST1)), Single(true, Msg([Single(true, Num(150))]));
    Example1();
    assert Shaped(f.ty, a.value);
    assert ShapedSlot(f, a);
    ShapedOne(f, a);
    OneField(f, a);
    Varints();
    assert EncodeValue(f.ty, a.value) == [0x03] + TEST1_BYTES;
  }

  lemma {:induction false} Items3(ty: Type, u: Value, v: Value, w: Value)
    requires Shaped(ty, u) && Shaped(ty, v) && Shaped(ty, w)
    ensures var items := [u, v, w];
      && (forall k :: 0 <= k < |items| ==> Shaped(ty, items[k]))
      && EncodeItems(ty, items, |items|) == EncodeValue(ty, u) + EncodeValue(ty, v) + EncodeValue(ty, w)
  {
    hide EncodeValue, Shaped;
    var items := [u, v, w];
    assert EncodeItems(ty, items, 0) == [];
    assert EncodeItems(ty, items, 1) == EncodeValue(ty, u);
    assert EncodeItems(ty, items, 2) == EncodeValue(ty, u) + EncodeValue(ty, v);
  }

  /** `message Test5 { repeated int32 f = 6 [packed=true]; }` with 3, 270 and 86942. */
  lemma {:induction false} Example5()
    ensures var f, a := Plain(6, Repeated(8), VarInt(4)), Array([Num(3), Num(270), Num(86942)]);
      && ShapedFields([f], [a])
      && Encode([f], [a]) == [0x32, 0x06, 0x03, 0x8e, 0x02, 0x9e, 0xa7, 0x05]
  {
    hide ShapedFields, EncodeItems, EncodeVarint, Encode;
    var f, items := Plain(6, Repeated(8), VarInt(4)), [Num(3), Num(270), Num(86942)];
    var a := Array(items);
    Varints();
    Items3(f.ty, items[0], items[1], items[2]);
    ShapedOne(f, a);
    OneField(f, a);
    PackedBytes(f, a);
    assert EncodeItems(f.ty, items, |items|) == [0x03, 0x8e, 0x02, 0x9e, 0xa7, 0x05];
  }
}
