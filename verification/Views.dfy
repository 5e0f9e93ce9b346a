/** The user-visible map that a list of entries stands for at a sequence number. */
module Views {
  import opened Bytes
  import opened InternalKeys

  /** An entry that counts at sequence number `s`: later ones and corrupt ones are ignored. */
  predicate Shows(e: Entry, s: nat) {
    Parses(e) && e.sequence <= s
  }

  predicate ShowsFor(e: Entry, k: Slice, s: nat) {
    Shows(e, s) && e.key == k
  }

  /** `e` is a newest entry for `k` that shows at `s`. */
  ghost predicate IsNewest(es: set<Entry>, k: Slice, s: nat, e: Entry) {
    && e in es && ShowsFor(e, k, s)
    && forall f :: f in es && ShowsFor(f, k, s) ==> Tag(f) <= Tag(e)
  }

  /** `k` is mapped to `v` at `s`: its newest entry is a value. A deleted key is mapped to nothing. */
  ghost predicate Maps(es: set<Entry>, k: Slice, s: nat, v: Slice) {
    exists e :: IsNewest(es, k, s, e) && e.t == TYPE_VALUE && e.value == v
  }

  ghost function Entries(es: seq<Entry>): set<Entry> {
    set e | e in es
  }

  /** If any entry for `k` shows, there is a newest one. */
  lemma {:induction false} NewestExists(es: set<Entry>, k: Slice, s: nat, e: Entry) returns (newest: Entry)
    requires e in es && ShowsFor(e, k, s)
    ensures IsNewest(es, k, s, newest)
    decreases |es|
  {
    if f :| f in es && ShowsFor(f, k, s) && Tag(f) > Tag(e) {
      newest := NewestExists(es - {e}, k, s, f);
    } else {
      newest := e;
    }
  }

  /** In plain words: no entry for the key that shows has a larger sequence number, and of several with that number it
      has the largest type. */
  lemma NewestIsLatest(es: set<Entry>, k: Slice, s: nat, e: Entry)
    ensures IsNewest(es, k, s, e) <==>
      && e in es && e.key == k && (e.t == 0 || e.t == 1) && e.sequence <= s
      && forall f :: f in es && f.key == k && (f.t == 0 || f.t == 1) && f.sequence <= s ==>
           f.sequence < e.sequence || (f.sequence == e.sequence && f.t <= e.t)
  {
  }

  /** A list ordered as memtables, tables and merging iterators present it. */
  ghost predicate Sorted(cmp: Comparator, es: seq<Entry>) {
    forall i, j :: 0 <= i < j < |es| ==> !Before(cmp, es[j], es[i])
  }

  ghost predicate StrictlySorted(cmp: Comparator, es: seq<Entry>) {
    forall i, j :: 0 <= i < j < |es| ==> Before(cmp, es[i], es[j])
  }

  /** Entry `i` is what the list shows for its key: the first entry for the key that shows, and a value. */
  ghost predicate IsLive(es: seq<Entry>, s: nat, i: nat)
    requires i < |es|
  {
    && Shows(es[i], s) && es[i].t == TYPE_VALUE
    && forall j :: 0 <= j < i ==> !ShowsFor(es[j], es[i].key, s)
  }

  /** The live pairs among the first `n` entries, in the order of the list. */
  ghost function LivePairs(es: seq<Entry>, s: nat, n: nat): (pairs: seq<(Slice, Slice)>)
    requires n <= |es|
    ensures |pairs| <= n
  {
    if n == 0 then []
    else LivePairs(es, s, n - 1) + if IsLive(es, s, n - 1) then [(es[n - 1].key, es[n - 1].value)] else []
  }

  ghost function AllLivePairs(es: seq<Entry>, s: nat): seq<(Slice, Slice)> {
    LivePairs(es, s, |es|)
  }

  /** The pair of a live entry comes after the pairs of all live entries before it. */
  lemma {:induction false} LiveRank(es: seq<Entry>, s: nat, i: nat, n: nat)
    requires i < n <= |es| && IsLive(es, s, i)
    ensures |LivePairs(es, s, i)| < |LivePairs(es, s, n)|
    ensures LivePairs(es, s, n)[|LivePairs(es, s, i)|] == (es[i].key, es[i].value)
    decreases n
  {
    if i < n - 1 {
      LiveRank(es, s, i, n - 1);
    }
  }

  lemma {:induction false} NoLivePairs(es: seq<Entry>, s: nat, i: nat, n: nat)
    requires i <= n <= |es|
    requires forall j :: i <= j < n ==> !IsLive(es, s, j)
    ensures LivePairs(es, s, n) == LivePairs(es, s, i)
    decreases n
  {
    if i < n {
      NoLivePairs(es, s, i, n - 1);
    }
  }

  /** Every live pair comes from a live entry. */
  lemma {:induction false} LiveEntry(es: seq<Entry>, s: nat, n: nat, r: nat) returns (i: nat)
    requires n <= |es| && r < |LivePairs(es, s, n)|
    ensures i < n && IsLive(es, s, i)
    ensures |LivePairs(es, s, i)| == r && LivePairs(es, s, n)[r] == (es[i].key, es[i].value)
    decreases n
  {
    if r < |LivePairs(es, s, n - 1)| {
      i := LiveEntry(es, s, n - 1, r);
    } else {
      i := n - 1;
    }
  }

  lemma KeysInOrder(cmp: Comparator, es: seq<Entry>, i: nat, j: nat)
    requires TotalOrder(cmp) && Sorted(cmp, es) && i <= j < |es|
    ensures es[i].key == es[j].key || Compare(cmp, es[i].key, es[j].key) < 0
  {
    if i < j {
      assert !Before(cmp, es[j], es[i]);
      assert es[i].key != es[j].key ==> Compare(cmp, es[i].key, es[j].key) != 0;
    }
  }

  /** The live pairs are sorted by key, each key at most once. */
  lemma LivePairsSorted(cmp: Comparator, es: seq<Entry>, s: nat, p: nat, q: nat)
    requires TotalOrder(cmp) && Sorted(cmp, es) && p < q < |AllLivePairs(es, s)|
    ensures Compare(cmp, AllLivePairs(es, s)[p].0, AllLivePairs(es, s)[q].0) < 0
  {
    var i := LiveEntry(es, s, |es|, p);
    var j := LiveEntry(es, s, |es|, q);
    if j <= i {
      LivePairsGrow(es, s, j, i);
    }
    KeysInOrder(cmp, es, i, j);
    assert !ShowsFor(es[i], es[j].key, s);
  }

  lemma {:induction false} LivePairsGrow(es: seq<Entry>, s: nat, i: nat, n: nat)
    requires i <= n <= |es|
    ensures LivePairs(es, s, i) <= LivePairs(es, s, n)
    decreases n
  {
    if i < n {
      LivePairsGrow(es, s, i, n - 1);
    }
  }

  /** A key and a value are a live pair exactly when the map at `s` maps the key to the value. */
  lemma LivePairsAreTheMap(cmp: Comparator, es: seq<Entry>, s: nat, k: Slice, v: Slice)
    requires TotalOrder(cmp) && StrictlySorted(cmp, es)
    ensures (k, v) in AllLivePairs(es, s) <==> Maps(Entries(es), k, s, v)
  {
    if (k, v) in AllLivePairs(es, s) {
      var r :| 0 <= r < |AllLivePairs(es, s)| && AllLivePairs(es, s)[r] == (k, v);
      var i := LiveEntry(es, s, |es|, r);
      FirstIsNewest(cmp, es, s, i);
    }
    if Maps(Entries(es), k, s, v) {
      var e :| IsNewest(Entries(es), k, s, e) && e.t == TYPE_VALUE && e.value == v;
      var i :| 0 <= i < |es| && es[i] == e;
      forall j | 0 <= j < i
        ensures !ShowsFor(es[j], k, s)
      {
        assert Before(cmp, es[j], es[i]);
        assert es[j].key == k ==> Compare(cmp, es[j].key, k) == 0;
      }
      LiveRank(es, s, i, |es|);
    }
  }

  /** In a sorted list the first entry that shows for a key is its newest. */
  lemma FirstIsNewest(cmp: Comparator, es: seq<Entry>, s: nat, i: nat)
    requires TotalOrder(cmp) && StrictlySorted(cmp, es) && i < |es| && Shows(es[i], s)
    requires forall j :: 0 <= j < i ==> !ShowsFor(es[j], es[i].key, s)
    ensures IsNewest(Entries(es), es[i].key, s, es[i])
  {
    forall f | f in Entries(es) && ShowsFor(f, es[i].key, s)
      ensures Tag(f) <= Tag(es[i])
    {
      var j :| 0 <= j < |es| && es[j] == f;
      assert j > i ==> Before(cmp, es[i], es[j]);
      assert Compare(cmp, es[i].key, es[i].key) == 0;
    }
  }
}
