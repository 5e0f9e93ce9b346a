/** Internal keys: a user key with a sequence number and a value type packed behind it. */
module InternalKeys {
  import opened Bytes

  const TYPE_DELETION: nat := 0
  const TYPE_VALUE: nat := 1
  const TYPE_FOR_SEEK: nat := TYPE_VALUE
  const MAX_SEQUENCE: nat := 0xff_ffff_ffff_ffff

  /** The user's three-way comparison. */
  type Comparator = (Slice, Slice) -> int

  function Compare(cmp: Comparator, a: Slice, b: Slice): int {
    cmp(a, b)
  }

  /** What the Comparator interface demands: a total order in which only equal keys compare equal. */
  ghost predicate TotalOrder(cmp: Comparator) {
    && (forall a, b :: Compare(cmp, a, b) == 0 <==> a == b)
    && (forall a, b :: Compare(cmp, a, b) < 0 <==> Compare(cmp, b, a) > 0)
    && (forall a, b, c :: Compare(cmp, a, b) < 0 && Compare(cmp, b, c) < 0 ==> Compare(cmp, a, c) < 0)
  }

  /** An entry of a memtable or table: internal key, in its parts, and value. A type above
      TYPE_VALUE makes an internal key that does not parse. */
  datatype Entry = Entry(key: Slice, sequence: nat, t: byte, value: Slice)

  predicate Parses(e: Entry) {
    e.t <= TYPE_VALUE
  }

  predicate WellFormed(e: Entry) {
    e.sequence <= MAX_SEQUENCE
  }

  function PackSequenceAndType(sequence: nat, t: byte): nat {
    sequence * 256 + t
  }

  function Tag(e: Entry): nat {
    PackSequenceAndType(e.sequence, e.t)
  }

  /** The order of internal keys: user key ascending, then sequence and type descending. */
  predicate Before(cmp: Comparator, a: Entry, b: Entry) {
    Compare(cmp, a.key, b.key) < 0 || (a.key == b.key && Tag(a) > Tag(b))
  }

  // ----- the stored form -----

  function AppendInternalKey(e: Entry): Slice
    requires WellFormed(e)
  {
    e.key + EncodeFixed(8, Tag(e))
  }

  function ExtractUserKey(internalKey: Slice): Slice
    requires |internalKey| >= 8
  {
    internalKey[..|internalKey| - 8]
  }

  function ExtractTag(internalKey: Slice): nat
    requires |internalKey| >= 8
  {
    DecodeFixed(internalKey[|internalKey| - 8..])
  }

  /** The entry (without its value) that a stored internal key stands for. */
  function ParseInternalKey(internalKey: Slice): Option<Entry> {
    if |internalKey| < 8 then None
    else
      var tag := ExtractTag(internalKey);
      if tag % 256 <= TYPE_VALUE then Some(Entry(ExtractUserKey(internalKey), tag / 256, tag % 256, []))
      else None
  }

  /** InternalKeyComparator::Compare. */
  function CompareInternal(cmp: Comparator, a: Slice, b: Slice): int
    requires |a| >= 8 && |b| >= 8
  {
    var r := Compare(cmp, ExtractUserKey(a), ExtractUserKey(b));
    if r == 0 then
      if ExtractTag(a) > ExtractTag(b) then -1 else if ExtractTag(a) < ExtractTag(b) then 1 else 0
    else r
  }

  lemma StoredParts(e: Entry)
    requires WellFormed(e)
    ensures var s := AppendInternalKey(e);
      |s| >= 8 && ExtractUserKey(s) == e.key && ExtractTag(s) == Tag(e)
  {
    var s := AppendInternalKey(e);
    assert s[|s| - 8..] == EncodeFixed(8, Tag(e));
    Pow256Values();
    FixedRoundTrip(8, Tag(e));
  }

  /** Parsing inverts appending, and fails exactly on an unknown type. */
  lemma ParseAppended(e: Entry)
    requires WellFormed(e)
    ensures ParseInternalKey(AppendInternalKey(e)) == if Parses(e) then Some(e.(value := [])) else None
  {
    StoredParts(e);
    assert Tag(e) / 256 == e.sequence && Tag(e) % 256 == e.t;
  }

  lemma SameTag(a: Entry, b: Entry)
    ensures Tag(a) == Tag(b) <==> a.sequence == b.sequence && a.t == b.t
  {
  }

  /** The comparator on stored keys is the order on entries. */
  lemma CompareStored(cmp: Comparator, a: Entry, b: Entry)
    requires TotalOrder(cmp) && WellFormed(a) && WellFormed(b)
    ensures var r := CompareInternal(cmp, AppendInternalKey(a), AppendInternalKey(b));
      && (r < 0 <==> Before(cmp, a, b))
      && (r > 0 <==> Before(cmp, b, a))
      && (r == 0 <==> a.key == b.key && a.sequence == b.sequence && a.t == b.t)
  {
    hide Tag, AppendInternalKey, ExtractUserKey, ExtractTag;
    StoredParts(a);
    StoredParts(b);
    SameTag(a, b);
    if a.key != b.key {
      assert Compare(cmp, a.key, b.key) != 0;
    }
  }

  /** The stored form in plain numbers: the user key, one byte for the type, 1 of a value and 0 of a deletion, and seven
      for the sequence number, lowest first. */
  lemma {:induction false} StoredBytes(e: Entry, low: nat)
    requires WellFormed(e) && low == e.sequence
    ensures AppendInternalKey(e) == e.key + ([e.t] + EncodeFixed(7, low))
    ensures Parses(e) <==> e.t == 0 || e.t == 1
    ensures TYPE_VALUE == 1 && TYPE_DELETION == 0 && MAX_SEQUENCE == 0x100_0000_0000_0000 - 1
  {
    TagParts(e);
    var tag := Tag(e);
    hide Tag;
    assert EncodeFixed(8, tag) == [tag % 256] + EncodeFixed(7, tag / 256);
  }

  lemma TagParts(e: Entry)
    ensures Tag(e) % 256 == e.t && Tag(e) / 256 == e.sequence
  {
  }

  /** The order in plain words: by user key, then newer before older, then values before deletions. */
  lemma BeforeIs(cmp: Comparator, a: Entry, b: Entry)
    ensures Before(cmp, a, b) <==>
      || Compare(cmp, a.key, b.key) < 0
      || (a.key == b.key && (a.sequence > b.sequence || (a.sequence == b.sequence && a.t > b.t)))
  {
  }

  lemma BeforeIsStrictOrder(cmp: Comparator, a: Entry, b: Entry, c: Entry)
    requires TotalOrder(cmp)
    ensures !(Before(cmp, a, b) && Before(cmp, b, a))
    ensures Before(cmp, a, b) && Before(cmp, b, c) ==> Before(cmp, a, c)
    ensures !Before(cmp, a, b) && !Before(cmp, b, c) ==> !Before(cmp, a, c)
  {
    assert Compare(cmp, a.key, a.key) == 0 && Compare(cmp, b.key, b.key) == 0;
    assert a.key != b.key ==> Compare(cmp, a.key, b.key) != 0;
    assert b.key != c.key ==> Compare(cmp, b.key, c.key) != 0;
    assert Compare(cmp, b.key, a.key) < 0 && Compare(cmp, c.key, b.key) < 0 ==> Compare(cmp, c.key, a.key) < 0;
  }

  // ----- the default comparator -----

  /** BytewiseComparator: lexicographic, a proper prefix first. */
  function BytewiseCompare(a: Slice, b: Slice): int {
    if a == [] then (if b == [] then 0 else -1)
    else if b == [] then 1
    else if a[0] != b[0] then a[0] - b[0]
    else BytewiseCompare(a[1..], b[1..])
  }

  lemma {:induction false} BytewiseLaws(a: Slice, b: Slice, c: Slice)
    ensures BytewiseCompare(a, b) == 0 <==> a == b
    ensures BytewiseCompare(a, b) < 0 <==> BytewiseCompare(b, a) > 0
    ensures BytewiseCompare(a, b) < 0 && BytewiseCompare(b, c) < 0 ==> BytewiseCompare(a, c) < 0
  {
    if a != [] && b != [] {
      assert a == b <==> a[0] == b[0] && a[1..] == b[1..] by {
        assert a == [a[0]] + a[1..] && b == [b[0]] + b[1..];
      }
      BytewiseLaws(a[1..], b[1..], if c == [] then [] else c[1..]);
    }
  }

  lemma BytewiseIsTotalOrder()
    ensures TotalOrder(BytewiseCompare)
  {
    hide BytewiseCompare;
    forall a: Slice, b: Slice, c: Slice
      ensures BytewiseCompare(a, b) == 0 <==> a == b
      ensures BytewiseCompare(a, b) < 0 <==> BytewiseCompare(b, a) > 0
      ensures BytewiseCompare(a, b) < 0 && BytewiseCompare(b, c) < 0 ==> BytewiseCompare(a, c) < 0
    {
      BytewiseLaws(a, b, c);
    }
  }
}
