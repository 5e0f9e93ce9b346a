/** MemTable: entries encoded into one buffer each, kept in order in a skip list. */
module MemTable {
  import opened Bytes
  import opened Varint
  import opened Coding
  import opened InternalKeys
  import opened Views

  // ----- the encoding of an entry -----

  /** Lengths are stored in 32 bits. */
  predicate Storable(e: Entry) {
    WellFormed(e) && |e.key| + 8 < 0x1_0000_0000 && |e.value| < 0x1_0000_0000
  }

  /** What a lookup key and the first part of an entry look like. */
  function EncodeKey(e: Entry): Slice
    requires Storable(e)
  {
    LengthPrefixed(AppendInternalKey(e))
  }

  function EncodeEntry(e: Entry): Slice
    requires Storable(e)
  {
    EncodeKey(e) + LengthPrefixed(e.value)
  }

  /** LookupKey: as an entry for `k` with the largest tag at sequence number `s`. */
  function SeekEntry(k: Slice, s: nat): Entry {
    Entry(k, s, TYPE_FOR_SEEK, [])
  }

  function LookupKey(k: Slice, s: nat): Slice
    requires Storable(SeekEntry(k, s))
  {
    EncodeKey(SeekEntry(k, s))
  }

  lemma EntryLayout(e: Entry)
    requires Storable(e)
    ensures |AppendInternalKey(e)| < 0x1_0000_0000 && LengthPrefixed(AppendInternalKey(e)) <= EncodeEntry(e)
    ensures LengthPrefixed(e.value) <= EncodeEntry(e)[|LengthPrefixed(AppendInternalKey(e))|..]
  {
  }

  lemma StartsWithKey(e: Entry)
    requires Storable(e)
    ensures EncodeKey(e) <= EncodeEntry(e)
  {
  }

  method GetLengthPrefixedSlice(data: Slice, p: nat, ghost s: Slice) returns (r: Slice, p': nat)
    requires p <= |data| && |s| < 0x1_0000_0000 && LengthPrefixed(s) <= data[p..]
    ensures r == s && p' == p + |LengthPrefixed(s)| <= |data|
  {
    assert EncodeVarint(|s|) <= data[p..];
    var len;
    len, p' := GetVarint32Ptr(data, p, p + 5, |s|);
    assert data[p..][..|LengthPrefixed(s)|] == EncodeVarint(|s|) + s;
    assert data[p'..p' + len] == data[p..][|EncodeVarint(|s|)|..|LengthPrefixed(s)|];
    r := data[p'..p' + len];
    p' := p' + len;
  }

  // ----- where an entry goes, and where it is found -----

  lemma BeforeIsTotal(cmp: Comparator, a: Entry, b: Entry)
    requires TotalOrder(cmp) && (a.key != b.key || Tag(a) != Tag(b))
    ensures Before(cmp, a, b) || Before(cmp, b, a)
  {
    assert a.key != b.key ==> Compare(cmp, a.key, b.key) != 0;
  }

  lemma InsertKeepsOrder(cmp: Comparator, es: seq<Entry>, i: nat, e: Entry)
    requires TotalOrder(cmp) && StrictlySorted(cmp, es) && i <= |es|
    requires forall j :: 0 <= j < i ==> Before(cmp, es[j], e)
    requires forall j :: i <= j < |es| ==> !Before(cmp, es[j], e) && (es[j].key != e.key || Tag(es[j]) != Tag(e))
    ensures StrictlySorted(cmp, es[..i] + [e] + es[i..])
  {
    hide TotalOrder, Before;
    forall j | i <= j < |es|
      ensures Before(cmp, e, es[j])
    {
      BeforeIsTotal(cmp, es[j], e);
    }
  }

  lemma InsertedElements(es: seq<Entry>, i: nat, e: Entry)
    requires i <= |es|
    ensures multiset(es[..i] + [e] + es[i..]) == multiset(es) + multiset{e}
    ensures Entries(es[..i] + [e] + es[i..]) == Entries(es) + {e}
  {
    assert es == es[..i] + es[i..];
    var es' := es[..i] + [e] + es[i..];
    assert forall f :: f in es' <==> f in es || f == e;
  }

  /** The first entry at or after a lookup key is the newest one that shows, if it has the right user key. */
  lemma SeekFindsNewest(cmp: Comparator, es: seq<Entry>, k: Slice, s: nat, i: nat)
    requires TotalOrder(cmp) && StrictlySorted(cmp, es) && i <= |es| && forall e :: e in es ==> Parses(e)
    requires forall j :: 0 <= j < i ==> Before(cmp, es[j], SeekEntry(k, s))
    requires forall j :: i <= j < |es| ==> !Before(cmp, es[j], SeekEntry(k, s))
    ensures i < |es| && es[i].key == k ==> IsNewest(Entries(es), k, s, es[i])
    ensures !(i < |es| && es[i].key == k) ==> forall e :: e in Entries(es) ==> !ShowsFor(e, k, s)
  {
    assert Compare(cmp, k, k) == 0;
    forall e | e in Entries(es) && ShowsFor(e, k, s)
      ensures i < |es| && es[i].key == k && Tag(e) <= Tag(es[i])
    {
      var j :| 0 <= j < |es| && es[j] == e;
      assert Tag(e) <= Tag(SeekEntry(k, s));
      assert j >= i;
      if j > i {
        assert Before(cmp, es[i], es[j]);
        assert !Before(cmp, es[i], SeekEntry(k, s));
        KeysEqual(cmp, es[i].key, k);
      }
    }
  }

  lemma NewestDecides(es: set<Entry>, k: Slice, s: nat, e: Entry, v: Slice)
    requires IsNewest(es, k, s, e)
    requires forall f :: f in es && f.key == k && Tag(f) == Tag(e) ==> f == e
    ensures Maps(es, k, s, v) <==> e.t == TYPE_VALUE && e.value == v
  {
  }

  lemma NewestShows(es: set<Entry>, k: Slice, s: nat, e: Entry)
    requires IsNewest(es, k, s, e)
    ensures e in es && ShowsFor(e, k, s)
  {
  }

  lemma NothingMaps(es: set<Entry>, k: Slice, s: nat)
    requires forall e :: e in es ==> !ShowsFor(e, k, s)
    ensures forall v :: !Maps(es, k, s, v)
  {
  }

  lemma KeysEqual(cmp: Comparator, a: Slice, b: Slice)
    requires TotalOrder(cmp)
    ensures Compare(cmp, a, b) == 0 <==> a == b
  {
  }

  lemma LastByteIsType(e: Entry)
    requires Parses(e)
    ensures Tag(e) % 256 == e.t
  {
  }

  lemma TagsDiffer(cmp: Comparator, es: seq<Entry>, i: nat)
    requires TotalOrder(cmp) && StrictlySorted(cmp, es) && i < |es|
    ensures forall f :: f in Entries(es) && f.key == es[i].key && Tag(f) == Tag(es[i]) ==> f == es[i]
  {
    assert Compare(cmp, es[i].key, es[i].key) == 0;
    forall f | f in Entries(es) && f.key == es[i].key && Tag(f) == Tag(es[i])
      ensures f == es[i]
    {
      var j :| 0 <= j < |es| && es[j] == f;
    }
  }

  /** MemTable::Add fills a buffer through a moving pointer. */
  method FillBuffer(sequence: nat, t: byte, key: Slice, value: Slice) returns (buf: array<byte>)
    requires Storable(Entry(key, sequence, t, value))
    ensures fresh(buf) && buf[..] == EncodeEntry(Entry(key, sequence, t, value))
  {
    hide EncodeVarint, EncodeFixed, Written, PackSequenceAndType;
    var tag := EncodeFixed(8, PackSequenceAndType(sequence, t));
    var internalKeySize := |key| + 8;
    var l1 := VarintLength(internalKeySize);
    var l2 := VarintLength(|value|);
    buf := new byte[l1 + internalKeySize + l2 + |value|](_ => 0);
    ghost var blank := buf[..];
    ghost var s1 := EncodeVarint(internalKeySize);
    var p := EncodeVarint32(buf, 0, internalKeySize);
    p := CopyBytes(buf, p, key);
    WrittenTwice(blank, 0, s1, key);
    p := CopyBytes(buf, p, tag);
    WrittenTwice(blank, 0, s1 + key, tag);
    p := EncodeVarint32(buf, p, |value|);
    WrittenTwice(blank, 0, s1 + key + tag, EncodeVarint(|value|));
    p := CopyBytes(buf, p, value);
    WrittenTwice(blank, 0, s1 + key + tag + EncodeVarint(|value|), value);
    WrittenAll(blank, s1 + key + tag + EncodeVarint(|value|) + value);
    assert s1 + key + tag + EncodeVarint(|value|) + value == s1 + (key + tag) + (EncodeVarint(|value|) + value);
  }

  lemma WrittenAll(before: Slice, s: Slice)
    requires |s| == |before|
    ensures Written(before, 0, s) == s
  {
  }

  // ----- the table -----

  datatype Lookup = NotHere | Deleted | Found(value: Slice)

  class MemTable {
    const cmp: Comparator
    /** The skip list, as the sequence of its buffers. */
    var table: seq<Slice>
    ghost var entries: seq<Entry>

    ghost predicate Valid()
      reads this
    {
      && TotalOrder(cmp) && StrictlySorted(cmp, entries) && |table| == |entries|
      && forall i :: 0 <= i < |entries| ==> Storable(entries[i]) && Parses(entries[i]) && table[i] == EncodeEntry(entries[i])
    }

    constructor (cmp: Comparator)
      requires TotalOrder(cmp)
      ensures Valid() && entries == [] && this.cmp == cmp
    {
      this.cmp := cmp;
      table, entries := [], [];
    }

    /** KeyComparator: the order of two buffers. */
    method CompareKeys(a: Slice, b: Slice, ghost x: Entry, ghost y: Entry) returns (r: int)
      requires TotalOrder(cmp) && Storable(x) && Storable(y) && EncodeKey(x) <= a && EncodeKey(y) <= b
      ensures r < 0 <==> Before(cmp, x, y)
      ensures r > 0 <==> Before(cmp, y, x)
    {
      hide TotalOrder;
      assert a[0..] == a && b[0..] == b;
      var keyA, _ := GetLengthPrefixedSlice(a, 0, AppendInternalKey(x));
      var keyB, _ := GetLengthPrefixedSlice(b, 0, AppendInternalKey(y));
      r := CompareInternal(cmp, keyA, keyB);
      CompareStored(cmp, x, y);
    }

    /** The skip list's seek: the first buffer at or after `target`. */
    method Seek(target: Slice, ghost x: Entry) returns (i: nat)
      requires Valid() && Storable(x) && EncodeKey(x) <= target
      ensures i <= |entries| && (forall j :: 0 <= j < i ==> Before(cmp, entries[j], x))
      ensures forall j :: i <= j < |entries| ==> !Before(cmp, entries[j], x)
    {
      hide TotalOrder, EncodeKey, Before;
      i := 0;
      while i < |table|
        invariant i <= |entries| && forall j :: 0 <= j < i ==> Before(cmp, entries[j], x)
      {
        var r := CompareKeys(table[i], target, entries[i], x);
        if r >= 0 {
          break;
        }
        i := i + 1;
      }
      forall j | i <= j < |entries|
        ensures !Before(cmp, entries[j], x)
      {
        if j > i {
          BeforeIsStrictOrder(cmp, entries[i], entries[j], x);
          assert Before(cmp, entries[i], entries[j]);
        }
      }
    }

    /** Encodes the entry into a buffer of its own and inserts it. The same key, sequence number and type must
        not be there yet. */
    method Add(sequence: nat, t: byte, key: Slice, value: Slice)
      requires Valid() && Storable(Entry(key, sequence, t, value)) && t <= TYPE_VALUE
      requires forall f :: f in entries ==> f.key != key || f.sequence != sequence || f.t != t
      modifies this
      ensures Valid()
      ensures multiset(entries) == multiset(old(entries)) + multiset{Entry(key, sequence, t, value)}
      ensures Entries(entries) == Entries(old(entries)) + {Entry(key, sequence, t, value)}
    {
      var buf := FillBuffer(sequence, t, key, value);
      Insert(buf[..], Entry(key, sequence, t, value));
    }

    /** The skip list's insert. */
    method Insert(buf: Slice, ghost e: Entry)
      requires Valid() && Storable(e) && Parses(e) && buf == EncodeEntry(e)
      requires forall f :: f in entries ==> f.key != e.key || Tag(f) != Tag(e)
      modifies this
      ensures Valid()
      ensures multiset(entries) == multiset(old(entries)) + multiset{e}
      ensures Entries(entries) == Entries(old(entries)) + {e}
    {
      hide TotalOrder, Before, StrictlySorted, Storable, EncodeKey, EncodeEntry, LengthPrefixed, AppendInternalKey;
      StartsWithKey(e);
      var i := Seek(buf, e);
      InsertKeepsOrder(cmp, entries, i, e);
      InsertedElements(entries, i, e);
      table := table[..i] + [buf] + table[i..];
      entries := entries[..i] + [e] + entries[i..];
    }

    /** MemTable::Get, by one seek: whether this memtable knows what `k` is mapped to at sequence number `s`. */
    method Get(k: Slice, s: nat) returns (r: Lookup)
      requires Valid() && Storable(SeekEntry(k, s))
      ensures r.NotHere? <==> !exists e :: e in Entries(entries) && ShowsFor(e, k, s)
      ensures forall v :: Maps(Entries(entries), k, s, v) <==> r == Found(v)
    {
      hide TotalOrder, EncodeKey, EncodeEntry, LengthPrefixed, StrictlySorted, IsNewest, Maps, AppendInternalKey, DecodeFixed;
      ghost var x := SeekEntry(k, s);
      var i := Seek(LookupKey(k, s), x);
      r := NotHere;
      SeekFindsNewest(cmp, entries, k, s, i);
      if i < |table| {
        var entry := table[i];
        assert entry[0..] == entry;
        EntryLayout(entries[i]);
        var internalKey, p := GetLengthPrefixedSlice(entry, 0, AppendInternalKey(entries[i]));
        StoredParts(entries[i]);
        KeysEqual(cmp, entries[i].key, k);
        TagsDiffer(cmp, entries, i);
        LastByteIsType(entries[i]);
        if Compare(cmp, internalKey[..|internalKey| - 8], k) == 0 {
          var tag := DecodeFixed(internalKey[|internalKey| - 8..]);
          forall v ensures Maps(Entries(entries), k, s, v) <==> entries[i].t == TYPE_VALUE && entries[i].value == v {
            NewestDecides(Entries(entries), k, s, entries[i], v);
          }
          NewestShows(Entries(entries), k, s, entries[i]);
          if tag % 256 == TYPE_VALUE {
            var v, _ := GetLengthPrefixedSlice(entry, p, entries[i].value);
            r := Found(v);
          } else if tag % 256 == TYPE_DELETION {
            r := Deleted;
          }
          return;
        }
      }
      NothingMaps(Entries(entries), k, s);
    }
  }
}
