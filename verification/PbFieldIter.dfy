/** pb_field_iter_t: a walk over the fields of a descriptor that wraps around, and keeps the address of the
    current field and the number of required fields before it. */
module PbFieldIter {
  import opened Bytes
  import opened PbFormat
  import opened PbDecoding

  /** Marks a member of a union that is not the first: it shares the address of the one before it. */
  const SHARED := 0xffff_ffff
  const ADDRESS_SIZE := 8

  // ----- the layout of a struct -----

  /** The bytes that a field takes in the struct. */
  function MemberSize(f: Field): nat {
    if f.place.isPointer then ADDRESS_SIZE
    else if f.rule.Repeated? then f.place.dataSize * f.rule.max
    else f.place.dataSize
  }

  predicate SharesAddress(previous: Field, f: Field) {
    previous.rule.Oneof? && f.rule.Oneof? && f.place.dataOffset == SHARED
  }

  /** The descriptor describes a struct whose fields lie at `offsets`: each offset is stored relative to the end
      of the field before it, except in unions. */
  ghost predicate Describes(fields: seq<Field>, offsets: seq<nat>) {
    && |offsets| == |fields|
    && (fields != [] ==> fields[0].place.dataOffset == offsets[0])
    && forall i :: 0 < i < |fields| ==>
         if SharesAddress(fields[i - 1], fields[i]) then
           offsets[i] == offsets[i - 1]
         else offsets[i] == offsets[i - 1] + MemberSize(fields[i - 1]) + fields[i].place.dataOffset
  }

  /** The members of a union have one which_ field. */
  ghost predicate UnionsShareSize(fields: seq<Field>) {
    forall i :: 0 < i < |fields| && SharesAddress(fields[i - 1], fields[i]) ==>
      fields[i].place.sizeOffset == fields[i - 1].place.sizeOffset
  }

  ghost function OffsetAt(fields: seq<Field>, i: nat): nat
    requires i < |fields|
  {
    if i == 0 then fields[0].place.dataOffset
    else if SharesAddress(fields[i - 1], fields[i]) then OffsetAt(fields, i - 1)
    else OffsetAt(fields, i - 1) + MemberSize(fields[i - 1]) + fields[i].place.dataOffset
  }

  /** Every descriptor describes a struct. */
  ghost function Layout(fields: seq<Field>): (offsets: seq<nat>)
    ensures Describes(fields, offsets)
  {
    seq(|fields|, i requires 0 <= i < |fields| => OffsetAt(fields, i))
  }

  /** Fields lie one behind the other, except that members of a union lie in the same place; what follows a union
      lies behind its last member. */
  lemma {:induction false} FieldsDoNotOverlap(fields: seq<Field>, offsets: seq<nat>, i: nat, j: nat)
    requires Describes(fields, offsets) && i < j < |fields|
    ensures !SharesAddress(fields[i], fields[i + 1]) ==> offsets[i] + MemberSize(fields[i]) <= offsets[j]
    ensures offsets[i] <= offsets[j]
    ensures (forall k :: i < k <= j ==> SharesAddress(fields[k - 1], fields[k])) ==> offsets[i] == offsets[j]
    decreases j
  {
    hide MemberSize, SharesAddress;
    if i < j - 1 {
      FieldsDoNotOverlap(fields, offsets, i, j - 1);
    }
  }

  /** The addresses in plain numbers: the first field lies at its offset, and each other one at its offset behind the field
      before it, which takes 8 bytes as a pointer, and as an array its size times its length; the second and later members
      of a union lie where the first does. */
  lemma {:induction false} PlacesAre(fields: seq<Field>, offsets: seq<nat>, i: nat)
    requires Describes(fields, offsets) && i < |fields|
    ensures i == 0 ==> offsets[i] == fields[i].place.dataOffset
    ensures i > 0 ==>
      var f, g := fields[i - 1], fields[i];
      offsets[i] ==
        if f.rule.Oneof? && g.rule.Oneof? && g.place.dataOffset == 4294967295 then offsets[i - 1]
        else offsets[i - 1] + g.place.dataOffset
             + if f.place.isPointer then 8 else if f.rule.Repeated? then f.place.dataSize * f.rule.max else f.place.dataSize
  {
  }

  /** What makes the address of a which_ field right for every member. */
  lemma {:induction false} UnionsAre(fields: seq<Field>)
    requires forall i :: 0 < i < |fields| && fields[i - 1].rule.Oneof? && fields[i].rule.Oneof?
               && fields[i].place.dataOffset == 4294967295
               ==> fields[i].place.sizeOffset == fields[i - 1].place.sizeOffset
    ensures UnionsShareSize(fields)
  {
  }

  class FieldIter {
    const fields: seq<Field>
    ghost const offsets: seq<nat>
    var pos: nat
    var data: nat            // where the field lies
    var size: int            // where its has_, _count or which_ field lies
    var requiredIndex: nat

    /** At `pos` the terminator is meant if there are no fields. */
    ghost predicate Valid()
      reads this
    {
      && Describes(fields, offsets)
      && (fields == [] ==> pos == 0 && requiredIndex == 0)
      && (fields != [] ==>
            && pos < |fields|
            && data == offsets[pos]
            && (UnionsShareSize(fields) ==> size == offsets[pos] + fields[pos].place.sizeOffset)
            && requiredIndex == RequiredIndex(fields, pos))
    }

    /** pb_field_iter_begin. */
    constructor (fields: seq<Field>, ghost offsets: seq<nat>)
      requires Describes(fields, offsets)
      ensures Valid() && this.fields == fields && this.offsets == offsets && pos == 0
    {
      this.fields := fields;
      this.offsets := offsets;
      pos, requiredIndex := 0, 0;
      data := if fields == [] then 0 else fields[0].place.dataOffset;
      size := if fields == [] then 0 else fields[0].place.dataOffset + fields[0].place.sizeOffset;
    }

    /** pb_field_iter_next: false when it wraps around. */
    method Next() returns (more: bool)
      requires Valid()
      modifies this
      ensures Valid()
      ensures more <==> old(pos) + 1 < |fields|
      ensures pos == if more then old(pos) + 1 else 0
    {
      if fields == [] {
        return false;
      }
      var previous := fields[pos];
      pos := pos + 1;
      if pos == |fields| {
        pos, requiredIndex := 0, 0;
        data := fields[0].place.dataOffset;
        size := data + fields[0].place.sizeOffset;
        return false;
      }
      var previousSize := previous.place.dataSize;
      if SharesAddress(previous, fields[pos]) {
        return true;
      } else if !previous.place.isPointer && previous.rule.Repeated? {
        previousSize := previousSize * previous.rule.max;
      } else if previous.place.isPointer {
        previousSize := ADDRESS_SIZE;
      }
      if previous.rule.Required? {
        requiredIndex := requiredIndex + 1;
      }
      data := data + previousSize + fields[pos].place.dataOffset;
      size := data + fields[pos].place.sizeOffset;
      return true;
    }

    /** pb_field_iter_find: from where it stands, around, and back. In a message without fields the terminator
        is found by tag zero. */
    method Find(tag: nat) returns (found: bool)
      requires Valid()
      modifies this
      ensures Valid()
      ensures fields != [] ==> (found <==> exists i :: 0 <= i < |fields| && fields[i].tag == tag)
      ensures fields != [] && found ==> fields[pos].tag == tag
      ensures fields == [] ==> (found <==> tag == 0)
      ensures !found ==> pos == old(pos)
    {
      var start := pos;
      if fields == [] {
        return tag == 0;
      }
      while true
        invariant Valid() && start < |fields|
        invariant forall j :: start <= j < pos ==> fields[j].tag != tag
        invariant pos < start ==> forall j :: 0 <= j < |fields| && !(pos <= j < start) ==> fields[j].tag != tag
        decreases if pos >= start then |fields| + start - pos else start - pos
      {
        if fields[pos].tag == tag {
          return true;
        }
        var more := Next();
        if pos == start {
          return false;
        }
      }
    }
  }

  /** Distinct tags make the search independent of where it starts. */
  lemma {:induction false} FoundByTag(fields: seq<Field>, pos: nat, tag: nat)
    requires pos < |fields| && fields[pos].tag == tag
    requires forall i, j :: 0 <= i < j < |fields| ==> fields[i].tag != fields[j].tag
    ensures FindTag(fields, tag) == Some(pos)
  {
    var i := FindTag(fields, tag);
  }

  // ----- the bitmap of required fields -----

  const WORD := 32

  /** A word of 32 bits, lowest first. */
  type Word = w: seq<bool> | |w| == WORD witness seq(WORD, _ => false)

  const ZERO: Word := seq(WORD, _ => false)
  const ALL_BITS: Word := seq(WORD, _ => true)

  function Bit(k: nat): Word {
    seq(WORD, i => i == k)
  }

  function Or(a: Word, b: Word): Word {
    seq(WORD, i requires 0 <= i < WORD => a[i] || b[i])
  }

  /** `w >> k`. */
  function ShiftRight(w: Word, k: nat): Word {
    seq(WORD, i requires 0 <= i < WORD => i + k < WORD && w[i + k])
  }

  /** fields_seen: one bit for each of the first 64 required fields. */
  class FieldsSeen {
    var low: Word
    var high: Word
    ghost var marked: set<nat>

    ghost predicate Valid()
      reads this
    {
      && (forall k :: 0 <= k < WORD ==> (low[k] <==> k in marked))
      && (forall k :: 0 <= k < WORD ==> (high[k] <==> k + WORD in marked))
      && forall k :: k in marked ==> k < MAX_REQUIRED_FIELDS
    }

    constructor ()
      ensures Valid() && marked == {}
    {
      low, high, marked := ZERO, ZERO, {};
    }

    method Mark(index: nat)
      requires Valid() && index < MAX_REQUIRED_FIELDS
      modifies this
      ensures Valid() && marked == old(marked) + {index}
    {
      if index / WORD == 0 {
        low := Or(low, Bit(index % WORD));
      } else {
        high := Or(high, Bit(index % WORD));
      }
      marked := marked + {index};
    }

    /** The check at the end of pb_decode_noinit: all bits below `count`, words first, then the rest. No other
        bit may have been set. */
    method AllMarked(count: nat) returns (ok: bool)
      requires Valid() && count <= MAX_REQUIRED_FIELDS
      requires count > 0 ==> forall k :: k in marked ==> k < count
      ensures ok <==> forall k :: 0 <= k < count ==> k in marked
    {
      hide ShiftRight;
      if count > 0 {
        var whole, part := count / WORD, count % WORD;
        assert count == WORD * whole + part && whole <= 2 && (whole == 2 ==> part == 0);
        var i := 0;
        while i < whole
          invariant i <= whole
          invariant forall k :: 0 <= k < WORD * i ==> k in marked
        {
          WordMarks(i);
          var w := if i == 0 then low else high;
          if w != ALL_BITS {
            NotAllBits(w);
            return false;
          }
          AllBits(w);
          i := i + 1;
        }
        if part != 0 {
          WordMarks(whole);
          var w := if whole == 0 then low else high;
          LowBitsOnly(w, part);
          if w != ShiftRight(ALL_BITS, WORD - part) {
            return false;
          }
        }
      }
      return true;
    }

    /** Word `i` holds the marks from 32 times `i` on. */
    lemma WordMarks(i: nat)
      requires Valid() && i < 2
      ensures var w := if i == 0 then low else high;
        && (forall k :: 0 <= k < WORD ==> (w[k] <==> WORD * i + k in marked))
        && (forall m :: WORD * i <= m < WORD * (i + 1) ==> (m in marked <==> w[m - WORD * i]))
    {
      forall m | WORD * i <= m < WORD * (i + 1)
        ensures m in marked <==> (if i == 0 then low else high)[m - WORD * i]
      {
        assert i == 1 ==> (high[m - WORD] <==> m - WORD + WORD in marked);
      }
    }
  }

  lemma NotAllBits(w: Word)
    requires w != ALL_BITS
    ensures exists k :: 0 <= k < WORD && !w[k]
  {
    assert (forall k :: 0 <= k < WORD ==> w[k]) ==> w == ALL_BITS;
  }

  lemma AllBits(w: Word)
    requires w == ALL_BITS
    ensures forall k :: 0 <= k < WORD ==> w[k]
  {
  }

  lemma LowBitsOnly(w: Word, n: nat)
    requires n <= WORD && forall k :: n <= k < WORD ==> !w[k]
    ensures w == ShiftRight(ALL_BITS, WORD - n) <==> forall k :: 0 <= k < n ==> w[k]
  {
    var expected := ShiftRight(ALL_BITS, WORD - n);
    assert forall k :: 0 <= k < WORD ==> (expected[k] <==> k < n);
    if forall k :: 0 <= k < n ==> w[k] {
      assert w == expected;
    }
  }
}
