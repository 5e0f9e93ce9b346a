/** When two sets of entries look the same to readers, and which changes keep them looking the same. */
module EngineViews {
  import opened Bytes
  import opened InternalKeys
  import opened Views
  import opened Compaction
  import opened EngineState

  /** No reader at or above `floor` can tell `a` from `b`. */
  ghost predicate SameView(a: set<Entry>, b: set<Entry>, floor: nat) {
    forall k, t: nat, v :: t >= floor ==> (Maps(a, k, t, v) <==> Maps(b, k, t, v))
  }

  ghost predicate Newer(a: set<Entry>, b: set<Entry>) {
    forall e, f :: e in a && f in b ==> e.sequence > f.sequence
  }

  /** Entries that parse, with distinct sequence numbers. */
  ghost predicate Good(es: set<Entry>) {
    && (forall e :: e in es ==> Parses(e))
    && (forall e, f :: e in es && f in es && e.sequence == f.sequence ==> e == f)
  }

  /** Every entry of `w` is in both sets already, or newer than all of `f`. */
  ghost predicate Fits(w: set<Entry>, c: set<Entry>, f: set<Entry>) {
    forall e :: e in w ==> (e in c && e in f) || (forall g :: g in f ==> g.sequence < e.sequence)
  }

  /** Only the entries that show decide what a key is mapped to. */
  lemma SameNewest(a: set<Entry>, b: set<Entry>, k: Slice, t: nat, v: Slice)
    requires forall e :: ShowsFor(e, k, t) ==> (e in a <==> e in b)
    ensures Maps(a, k, t, v) <==> Maps(b, k, t, v)
  {
    assert forall e :: IsNewest(a, k, t, e) <==> IsNewest(b, k, t, e);
  }

  /** Newer entries hide older ones in the same way in both sets. */
  lemma AddNewerAt(c: set<Entry>, f: set<Entry>, w: set<Entry>, k: Slice, t: nat, v: Slice, e: Entry)
    requires c <= f && Fits(w, c, f)
    requires e in w && ShowsFor(e, k, t) && forall g :: g in f ==> g.sequence < e.sequence
    ensures Maps(c + w, k, t, v) <==> Maps(f + w, k, t, v)
  {
    forall x
      ensures IsNewest(c + w, k, t, x) <==> IsNewest(f + w, k, t, x)
    {
    }
  }

  /** Adding entries that fit keeps two sets looking the same. */
  lemma AddFits(c: set<Entry>, f: set<Entry>, w: set<Entry>, floor: nat)
    requires c <= f && Fits(w, c, f) && SameView(c, f, floor)
    ensures SameView(c + w, f + w, floor)
  {
    forall k, t: nat, v | t >= floor
      ensures Maps(c + w, k, t, v) <==> Maps(f + w, k, t, v)
    {
      if e :| e in w && ShowsFor(e, k, t) && forall g :: g in f ==> g.sequence < e.sequence {
        AddNewerAt(c, f, w, k, t, v, e);
      } else {
        SameNewest(c + w, c, k, t, v);
        SameNewest(f + w, f, k, t, v);
        assert Maps(c, k, t, v) <==> Maps(f, k, t, v);
      }
    }
  }

  lemma RaiseFloor(a: set<Entry>, b: set<Entry>, floor: nat, floor': nat)
    requires SameView(a, b, floor) && floor <= floor'
    ensures SameView(a, b, floor')
  {
  }

  lemma ViewTransitive(a: set<Entry>, b: set<Entry>, c: set<Entry>, floor: nat)
    requires SameView(a, b, floor) && SameView(b, c, floor)
    ensures SameView(a, c, floor)
  {
    forall k, t: nat, v | t >= floor
      ensures Maps(a, k, t, v) <==> Maps(c, k, t, v)
    {
      assert Maps(a, k, t, v) <==> Maps(b, k, t, v);
    }
  }

  /** A compaction's outputs in place of its inputs look the same at and above its smallest snapshot. */
  lemma CompactionView(job: Job, rest: set<Entry>, flushed: set<Entry>, floor: nat)
    requires Setting(job.cmp, job.entries, rest, job.base) && job.smallest < MAX_SEQUENCE
    requires forall e :: e in job.entries ==> Parses(e)
    requires SameView(rest + Entries(job.entries), flushed, floor)
    ensures SameView(rest + Entries(Kept(job.entries, |job.entries|, job.smallest, job.base)), flushed,
                     Max(floor, job.smallest))
  {
    hide Setting, Kept;
    var before := rest + Entries(job.entries);
    var after := rest + Entries(Kept(job.entries, |job.entries|, job.smallest, job.base));
    PreservesViews(job.cmp, job.entries, rest, job.smallest, job.base);
    assert before == AllBefore(job.entries, rest);
    assert after == AllAfter(job.entries, rest, job.smallest, job.base);
    RaiseFloor(before, flushed, floor, Max(floor, job.smallest));
    ViewTransitive(after, before, flushed, Max(floor, job.smallest));
  }

  /** The version set's promise about a compaction outlives flushes: they add newer entries only. */
  lemma SettingGrows(job: Job, rest: set<Entry>, added: set<Entry>)
    requires Setting(job.cmp, job.entries, rest, job.base)
    requires Newer(added, Entries(job.entries))
    ensures Setting(job.cmp, job.entries, rest + added, job.base)
  {
    forall r, i | r in added && 0 <= i < |job.entries|
      ensures r.sequence > job.entries[i].sequence
    {
      assert job.entries[i] in Entries(job.entries);
    }
  }
}
