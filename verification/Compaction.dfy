/** The merging loop of a compaction: which entries it drops, and that no reader can tell. */
module Compaction {
  import opened Bytes
  import opened InternalKeys
  import opened Views

  /** What the version set knows of a key: no level below the output level holds it. */
  type BaseLevel = Slice -> bool

  // ----- which entries are dropped -----

  /** The loop's last_sequence_for_key when it reaches entry `i`. A corrupt entry makes it forget. */
  function LastSequence(es: seq<Entry>, i: nat): nat
    requires i < |es|
  {
    if i > 0 && Parses(es[i - 1]) && es[i - 1].key == es[i].key then es[i - 1].sequence else MAX_SEQUENCE
  }

  /** Rule (A): hidden by a newer entry for the same user key. */
  predicate HiddenEntry(es: seq<Entry>, i: nat, smallest: nat)
    requires i < |es|
  {
    Parses(es[i]) && LastSequence(es, i) <= smallest
  }

  /** Rule (B): a deletion marker with nothing below it left to delete. */
  predicate ObsoleteDeletion(es: seq<Entry>, i: nat, smallest: nat, base: BaseLevel)
    requires i < |es|
  {
    es[i].t == TYPE_DELETION && es[i].sequence <= smallest && base(es[i].key)
  }

  predicate Drops(es: seq<Entry>, i: nat, smallest: nat, base: BaseLevel)
    requires i < |es|
  {
    HiddenEntry(es, i, smallest) || ObsoleteDeletion(es, i, smallest, base)
  }

  /** What is kept of the first `n` entries. */
  ghost function Kept(es: seq<Entry>, n: nat, smallest: nat, base: BaseLevel): seq<Entry>
    requires n <= |es|
  {
    if n == 0 then []
    else Kept(es, n - 1, smallest, base) + if Drops(es, n - 1, smallest, base) then [] else [es[n - 1]]
  }

  // ----- the loop -----

  /** An output table with the range that is recorded for it. */
  datatype Output = Output(smallest: Entry, largest: Entry, entries: seq<Entry>)

  ghost predicate GoodOutput(o: Output) {
    o.entries != [] && o.smallest == o.entries[0] && o.largest == o.entries[|o.entries| - 1]
  }

  ghost function Concat(outputs: seq<Output>): seq<Entry> {
    if outputs == [] then [] else Concat(outputs[..|outputs| - 1]) + outputs[|outputs| - 1].entries
  }

  /** What happens around the loop: when a file is cut, whether the database shuts down, and whether the input can
      be read and output number `n` can be opened and finished. */
  datatype Environment = Environment(
    stopBefore: nat -> bool,
    full: (nat, nat) -> bool,
    shutdown: nat -> bool,
    readable: nat -> bool,
    opens: nat -> bool,
    finishes: nat -> bool)

  ghost predicate Trouble(env: Environment) {
    exists n: nat :: env.shutdown(n) || !env.readable(n) || !env.opens(n) || !env.finishes(n)
  }

  class CompactionState {
    var outputs: seq<Output>    // finished tables
    var building: seq<Entry>    // contents of the table being built; empty when there is none

    ghost function Written(): seq<Entry>
      reads this
    {
      Concat(outputs) + building
    }

    ghost predicate Valid()
      reads this
    {
      forall o :: o in outputs ==> GoodOutput(o)
    }

    constructor ()
      ensures Valid() && Written() == [] && outputs == [] && building == []
    {
      outputs, building := [], [];
    }

    /** A table that cannot be finished is given up. */
    method FinishOutputFile(env: Environment) returns (ok: bool)
      requires Valid() && building != []
      modifies this
      ensures Valid() && building == [] && ok == env.finishes(|old(outputs)|)
      ensures if ok then Written() == old(Written()) else outputs == old(outputs)
    {
      ok := env.finishes(|outputs|);
      if ok {
        var last := Output(building[0], building[|building| - 1], building);
        outputs := outputs + [last];
        assert outputs[..|outputs| - 1] == old(outputs);
      }
      building := [];
    }

    method Add(e: Entry)
      requires Valid()
      modifies this
      ensures Valid() && outputs == old(outputs) && building == old(building) + [e]
      ensures Written() == old(Written()) + [e]
    {
      building := building + [e];
    }

    /** The loop over the merged input. It fails only when the database shuts down or a file fails. */
    method DoCompactionWork(cmp: Comparator, es: seq<Entry>, smallest: nat, base: BaseLevel, env: Environment)
      returns (ok: bool)
      requires TotalOrder(cmp)
      requires Valid() && Written() == []
      modifies this
      ensures Valid()
      ensures ok ==> building == [] && Concat(outputs) == Kept(es, |es|, smallest, base)
      ensures !ok ==> Trouble(env)
    {
      hide Concat;
      var currentUserKey: Slice, hasCurrentUserKey, lastSequenceForKey := [], false, MAX_SEQUENCE;
      var i := 0;
      while i < |es| && env.readable(i) && !env.shutdown(i)
        invariant 0 <= i <= |es| && Valid()
        invariant Written() == Kept(es, i, smallest, base)
        invariant hasCurrentUserKey <==> i > 0 && Parses(es[i - 1])
        invariant hasCurrentUserKey ==> currentUserKey == es[i - 1].key && lastSequenceForKey == es[i - 1].sequence
        invariant !hasCurrentUserKey ==> lastSequenceForKey == MAX_SEQUENCE
      {
        assert Compare(cmp, es[i].key, currentUserKey) == 0 <==> es[i].key == currentUserKey;
        var e := es[i];
        if env.stopBefore(i) && building != [] {
          ok := FinishOutputFile(env);
          if !ok {
            return;
          }
        }
        var drop := false;
        if !Parses(e) {
          // what follows is not shadowed by a key that does not parse
          currentUserKey, hasCurrentUserKey, lastSequenceForKey := [], false, MAX_SEQUENCE;
        } else {
          if !hasCurrentUserKey || Compare(cmp, e.key, currentUserKey) != 0 {
            // another user key begins: none of its entries was seen
            currentUserKey, hasCurrentUserKey, lastSequenceForKey := e.key, true, MAX_SEQUENCE;
          }
          if lastSequenceForKey <= smallest {
            drop := true;  // (A)
          } else if e.t == TYPE_DELETION && e.sequence <= smallest && base(e.key) {
            drop := true;  // (B)
          }
          lastSequenceForKey := e.sequence;
        }
        if !drop {
          if building == [] && !env.opens(|outputs|) {
            return false;
          }
          Add(e);
          if env.full(i, |building|) {
            ok := FinishOutputFile(env);
            if !ok {
              return;
            }
          }
        }
        i := i + 1;
      }
      if env.shutdown(i) {
        return false;
      }
      if building != [] {
        ok := FinishOutputFile(env);
        if !ok {
          return;
        }
      }
      ok := i == |es|;
    }
  }

  // ----- what readers see -----

  /** The compaction's input `es` among all entries: `rest` is everything else. Where the version set
      vouches for a key, its entries elsewhere are newer; no two entries share key, sequence and type. */
  ghost predicate Setting(cmp: Comparator, es: seq<Entry>, rest: set<Entry>, base: BaseLevel) {
    && TotalOrder(cmp) && StrictlySorted(cmp, es)
    && (forall r, i :: r in rest && 0 <= i < |es| && Parses(r) && r.key == es[i].key && base(r.key)
          ==> r.sequence > es[i].sequence)
    && (forall r, i :: r in rest && 0 <= i < |es| && r.key == es[i].key && Tag(r) == Tag(es[i]) ==> r == es[i])
  }

  ghost function AllBefore(es: seq<Entry>, rest: set<Entry>): set<Entry> {
    rest + Entries(es)
  }

  ghost function AllAfter(es: seq<Entry>, rest: set<Entry>, smallest: nat, base: BaseLevel): set<Entry> {
    rest + Entries(Kept(es, |es|, smallest, base))
  }

  lemma {:induction false} KeptEntry(es: seq<Entry>, n: nat, smallest: nat, base: BaseLevel, i: nat)
    requires i < n <= |es| && !Drops(es, i, smallest, base)
    ensures es[i] in Kept(es, n, smallest, base)
    decreases n
  {
    if i < n - 1 {
      KeptEntry(es, n - 1, smallest, base, i);
    }
  }

  lemma {:induction false} KeptFrom(es: seq<Entry>, n: nat, smallest: nat, base: BaseLevel, e: Entry) returns (i: nat)
    requires n <= |es| && e in Kept(es, n, smallest, base)
    ensures i < n && es[i] == e && !Drops(es, i, smallest, base)
    decreases n
  {
    if e in Kept(es, n - 1, smallest, base) {
      i := KeptFrom(es, n - 1, smallest, base, e);
    } else {
      i := n - 1;
    }
  }

  /** The newest entry for a key is a deletion that rule (B) drops, and a value below it survives behind
      a corrupt entry. */
  ghost predicate Resurrects(es: seq<Entry>, rest: set<Entry>, smallest: nat, base: BaseLevel, s: nat, i: nat, m: nat)
  {
    && i < m < |es|
    && IsNewest(AllBefore(es, rest), es[i].key, s, es[i]) && ObsoleteDeletion(es, i, smallest, base)
    && es[m].key == es[i].key && es[m].t == TYPE_VALUE && !Parses(es[m - 1])
  }

  ghost predicate Resurrected(es: seq<Entry>, rest: set<Entry>, smallest: nat, base: BaseLevel, s: nat, k: Slice) {
    exists i: nat, m: nat :: Resurrects(es, rest, smallest, base, s, i, m) && es[i].key == k
  }

  lemma SameKeyOrder(cmp: Comparator, es: seq<Entry>, i: nat, m: nat)
    requires TotalOrder(cmp) && StrictlySorted(cmp, es) && i < m < |es| && es[i].key == es[m].key
    ensures Tag(es[i]) > Tag(es[m]) && es[i].sequence >= es[m].sequence
    ensures forall j :: i <= j <= m ==> es[j].key == es[i].key
  {
    assert Before(cmp, es[i], es[m]);
    assert Compare(cmp, es[i].key, es[i].key) == 0;
    forall j | i < j < m
      ensures es[j].key == es[i].key
    {
      assert Before(cmp, es[i], es[j]) && Before(cmp, es[j], es[m]);
    }
  }

  /** The newest entry that shows at or above the smallest snapshot is never dropped by rule (A). */
  lemma NewestNotHidden(cmp: Comparator, es: seq<Entry>, rest: set<Entry>, smallest: nat, base: BaseLevel, s: nat, i: nat)
    requires Setting(cmp, es, rest, base) && smallest <= s && smallest < MAX_SEQUENCE
    requires i < |es| && IsNewest(AllBefore(es, rest), es[i].key, s, es[i])
    ensures !HiddenEntry(es, i, smallest)
  {
    if i > 0 && es[i - 1].key == es[i].key {
      SameKeyOrder(cmp, es, i - 1, i);
      assert es[i - 1] in AllBefore(es, rest);
    }
  }

  /** When the newest entry is dropped, what is left for its key are values behind corrupt entries. */
  lemma LeftOver(cmp: Comparator, es: seq<Entry>, rest: set<Entry>, smallest: nat, base: BaseLevel, s: nat, i: nat, f: Entry)
    returns (m: nat)
    requires Setting(cmp, es, rest, base) && smallest <= s && smallest < MAX_SEQUENCE
    requires i < |es| && IsNewest(AllBefore(es, rest), es[i].key, s, es[i]) && ObsoleteDeletion(es, i, smallest, base)
    requires f in AllAfter(es, rest, smallest, base) && ShowsFor(f, es[i].key, s)
    ensures Resurrects(es, rest, smallest, base, s, i, m) && es[m] == f
  {
    assert Tag(f) <= Tag(es[i]) by {
      if f !in rest {
        var j := KeptFrom(es, |es|, smallest, base, f);
      }
      assert f in AllBefore(es, rest);
    }
    assert f !in rest;
    m := KeptFrom(es, |es|, smallest, base, f);
    if m < i {
      SameKeyOrder(cmp, es, m, i);
    }
    SameKeyOrder(cmp, es, i, m);
    if m - 1 > i {
      SameKeyOrder(cmp, es, i, m - 1);
    }
  }

  /** The places in the input of the first `n` entries' survivors. */
  ghost function Places(es: seq<Entry>, n: nat, smallest: nat, base: BaseLevel): seq<nat>
    requires n <= |es|
  {
    if n == 0 then []
    else Places(es, n - 1, smallest, base) + if Drops(es, n - 1, smallest, base) then [] else [n - 1]
  }

  /** The outputs are a subsequence of the input: the entries at these places, in the order of the input... */
  lemma {:induction false} KeptIsSubsequence(es: seq<Entry>, n: nat, smallest: nat, base: BaseLevel)
    requires n <= |es|
    ensures var kept, places := Kept(es, n, smallest, base), Places(es, n, smallest, base);
      && |places| == |kept|
      && (forall p :: 0 <= p < |places| ==> places[p] < n && es[places[p]] == kept[p])
      && (forall p, q :: 0 <= p < q < |places| ==> places[p] < places[q])
  {
    hide Drops;
    if n > 0 {
      KeptIsSubsequence(es, n - 1, smallest, base);
    }
  }

  /** ...which are the places of the entries that no rule drops. */
  lemma {:induction false} PlacesOfKept(es: seq<Entry>, n: nat, smallest: nat, base: BaseLevel, i: nat)
    requires i < n <= |es|
    ensures i in Places(es, n, smallest, base) <==> !Drops(es, i, smallest, base)
    decreases n
  {
    hide Drops, Kept;
    var before := Places(es, n - 1, smallest, base);
    var last := if Drops(es, n - 1, smallest, base) then [] else [n - 1];
    assert i in before + last <==> i in before || i in last;
    if i < n - 1 {
      PlacesOfKept(es, n - 1, smallest, base, i);
    } else {
      KeptIsSubsequence(es, n - 1, smallest, base);
      assert i !in before;
    }
  }

  /** So they are strictly sorted. */
  lemma {:induction false} KeptSorted(cmp: Comparator, es: seq<Entry>, smallest: nat, base: BaseLevel)
    requires StrictlySorted(cmp, es)
    ensures StrictlySorted(cmp, Kept(es, |es|, smallest, base))
  {
    hide Drops, Kept, Before, Places;
    var kept := Kept(es, |es|, smallest, base);
    var places := Places(es, |es|, smallest, base);
    KeptIsSubsequence(es, |es|, smallest, base);
    forall p, q | 0 <= p < q < |kept|
      ensures Before(cmp, kept[p], kept[q])
    {
      assert es[places[p]] == kept[p] && es[places[q]] == kept[q];
    }
  }

  /** Where the entries of output `i` are in the concatenation. */
  lemma {:induction false} ConcatAt(outputs: seq<Output>, i: nat, n: nat)
    requires i < n <= |outputs|
    ensures var before := |Concat(outputs[..i])|;
      && before + |outputs[i].entries| <= |Concat(outputs[..n])|
      && Concat(outputs[..n])[before..before + |outputs[i].entries|] == outputs[i].entries
    decreases n
  {
    assert outputs[..n][..n - 1] == outputs[..n - 1];
    if i < n - 1 {
      ConcatAt(outputs, i, n - 1);
      var before := |Concat(outputs[..i])|;
      assert Concat(outputs[..n])[before..before + |outputs[i].entries|]
          == Concat(outputs[..n - 1])[before..before + |outputs[i].entries|];
    }
  }

  /** The ranges recorded for the outputs hold their entries, and do not overlap: each begins behind the one before. */
  lemma {:induction false} RangesAreDisjoint(cmp: Comparator, outputs: seq<Output>, i: nat, j: nat, x: nat)
    requires StrictlySorted(cmp, Concat(outputs)) && forall o :: o in outputs ==> GoodOutput(o)
    requires i < |outputs| && x < |outputs[i].entries|
    ensures var e := outputs[i].entries[x];
      && (e == outputs[i].smallest || Before(cmp, outputs[i].smallest, e))
      && (e == outputs[i].largest || Before(cmp, e, outputs[i].largest))
    ensures i < j < |outputs| ==> Before(cmp, outputs[i].largest, outputs[j].smallest)
  {
    hide Before, Concat;
    var all, before, n := Concat(outputs), |Concat(outputs[..i])|, |outputs[i].entries|;
    assert outputs[..|outputs|] == outputs;
    assert GoodOutput(outputs[i]);
    ConcatAt(outputs, i, |outputs|);
    assert all[before] == outputs[i].entries[0] && all[before + x] == outputs[i].entries[x];
    assert all[before + n - 1] == outputs[i].entries[n - 1];
    if i < j < |outputs| {
      assert GoodOutput(outputs[j]);
      ConcatAt(outputs, i, j);
      ConcatAt(outputs, j, |outputs|);
      assert all[|Concat(outputs[..j])|] == outputs[j].entries[0];
    }
  }

  lemma KeptIsSubset(es: seq<Entry>, rest: set<Entry>, smallest: nat, base: BaseLevel)
    ensures AllAfter(es, rest, smallest, base) <= AllBefore(es, rest)
  {
    forall f | f in Kept(es, |es|, smallest, base)
      ensures f in es
    {
      var i := KeptFrom(es, |es|, smallest, base, f);
    }
  }

  lemma SamePlace(cmp: Comparator, es: seq<Entry>, i: nat, j: nat)
    requires TotalOrder(cmp) && StrictlySorted(cmp, es) && i < |es| && j < |es|
    requires es[i].key == es[j].key && Tag(es[i]) == Tag(es[j])
    ensures i == j
  {
    if i < j { SameKeyOrder(cmp, es, i, j); }
    if j < i { SameKeyOrder(cmp, es, j, i); }
  }

  lemma SameTagSameEntry(cmp: Comparator, es: seq<Entry>, rest: set<Entry>, base: BaseLevel, i: nat, f: Entry)
    requires Setting(cmp, es, rest, base) && i < |es|
    requires f in AllBefore(es, rest) && f.key == es[i].key && Tag(f) == Tag(es[i])
    ensures f == es[i]
  {
    if f !in rest {
      var j :| 0 <= j < |es| && es[j] == f;
      SamePlace(cmp, es, i, j);
    }
  }

  /** A newest entry that stays is still what readers see, and nothing is resurrected. */
  lemma NewestStays(cmp: Comparator, es: seq<Entry>, rest: set<Entry>, smallest: nat, base: BaseLevel, k: Slice, s: nat,
                    newest: Entry)
    requires Setting(cmp, es, rest, base) && smallest <= s && smallest < MAX_SEQUENCE
    requires IsNewest(AllBefore(es, rest), k, s, newest) && newest in AllAfter(es, rest, smallest, base)
    ensures forall f :: IsNewest(AllBefore(es, rest), k, s, f) <==> IsNewest(AllAfter(es, rest, smallest, base), k, s, f)
    ensures !Resurrected(es, rest, smallest, base, s, k)
  {
    KeptIsSubset(es, rest, smallest, base);
    forall f | IsNewest(AllBefore(es, rest), k, s, f)
      ensures f in AllAfter(es, rest, smallest, base)
    {
      if f !in rest {
        var i :| 0 <= i < |es| && es[i] == f;
        SameTagSameEntry(cmp, es, rest, base, i, newest);
      }
    }
    forall i: nat, m: nat | Resurrects(es, rest, smallest, base, s, i, m) && es[i].key == k
      ensures false
    {
      SameTagSameEntry(cmp, es, rest, base, i, newest);
      if newest !in rest {
        var j := KeptFrom(es, |es|, smallest, base, newest);
        SamePlace(cmp, es, i, j);
      }
    }
  }

  /** A newest entry that is dropped maps its key to nothing. */
  lemma NewestDropped(cmp: Comparator, es: seq<Entry>, rest: set<Entry>, smallest: nat, base: BaseLevel, s: nat, i: nat)
    requires Setting(cmp, es, rest, base) && smallest <= s && smallest < MAX_SEQUENCE
    requires i < |es| && IsNewest(AllBefore(es, rest), es[i].key, s, es[i]) && Drops(es, i, smallest, base)
    ensures ObsoleteDeletion(es, i, smallest, base)
    ensures forall v :: !Maps(AllBefore(es, rest), es[i].key, s, v)
  {
    NewestNotHidden(cmp, es, rest, smallest, base, s, i);
    forall f | IsNewest(AllBefore(es, rest), es[i].key, s, f)
      ensures f.t != TYPE_VALUE
    {
      SameTagSameEntry(cmp, es, rest, base, i, f);
    }
  }

  /** A key whose newest entry was dropped is mapped to something afterwards exactly when a value is resurrected. */
  lemma MappedAfterDrop(cmp: Comparator, es: seq<Entry>, rest: set<Entry>, smallest: nat, base: BaseLevel, s: nat, i: nat)
    requires Setting(cmp, es, rest, base) && smallest <= s && smallest < MAX_SEQUENCE
    requires i < |es| && IsNewest(AllBefore(es, rest), es[i].key, s, es[i]) && ObsoleteDeletion(es, i, smallest, base)
    ensures (exists v :: Maps(AllAfter(es, rest, smallest, base), es[i].key, s, v))
       <==> Resurrected(es, rest, smallest, base, s, es[i].key)
  {
    hide Setting, AllAfter, AllBefore, IsNewest, ObsoleteDeletion, StrictlySorted, TotalOrder;
    var k, d' := es[i].key, AllAfter(es, rest, smallest, base);
    if v :| Maps(d', k, s, v) {
      var f :| IsNewest(d', k, s, f) && f.t == TYPE_VALUE && f.value == v;
      NewestIsMember(d', k, s, f);
      var m := LeftOver(cmp, es, rest, smallest, base, s, i, f);
    }
    if Resurrected(es, rest, smallest, base, s, k) {
      var i': nat, m: nat :| Resurrects(es, rest, smallest, base, s, i', m) && es[i'].key == k;
      ValueKept(cmp, es, rest, smallest, base, s, i', m);
      var f := NewestExists(d', k, s, es[m]);
      NewestIsMember(d', k, s, f);
      var m' := LeftOver(cmp, es, rest, smallest, base, s, i, f);
      assert Maps(d', k, s, f.value);
    }
  }

  lemma NewestIsMember(es: set<Entry>, k: Slice, s: nat, e: Entry)
    requires IsNewest(es, k, s, e)
    ensures e in es && ShowsFor(e, k, s)
  {
  }

  lemma ValueKept(cmp: Comparator, es: seq<Entry>, rest: set<Entry>, smallest: nat, base: BaseLevel, s: nat, i: nat, m: nat)
    requires Setting(cmp, es, rest, base) && smallest <= s && smallest < MAX_SEQUENCE
    requires Resurrects(es, rest, smallest, base, s, i, m)
    ensures es[m] in AllAfter(es, rest, smallest, base) && ShowsFor(es[m], es[i].key, s)
  {
    SameKeyOrder(cmp, es, i, m);
    KeptEntry(es, |es|, smallest, base, m);
  }

  /** What readers at or above the smallest snapshot see of a key changes exactly when its newest entry
      is a dropped deletion with a value right behind a corrupt entry below it. */
  lemma ExactViews(cmp: Comparator, es: seq<Entry>, rest: set<Entry>, smallest: nat, base: BaseLevel, k: Slice, s: nat)
    requires Setting(cmp, es, rest, base) && smallest <= s && smallest < MAX_SEQUENCE
    ensures (forall v :: Maps(AllAfter(es, rest, smallest, base), k, s, v) <==> Maps(AllBefore(es, rest), k, s, v))
       <==> !Resurrected(es, rest, smallest, base, s, k)
  {
    var d, d' := AllBefore(es, rest), AllAfter(es, rest, smallest, base);
    KeptIsSubset(es, rest, smallest, base);
    if e :| e in d && ShowsFor(e, k, s) {
      var newest := NewestExists(d, k, s, e);
      if newest in d' {
        NewestStays(cmp, es, rest, smallest, base, k, s, newest);
      } else {
        var i :| 0 <= i < |es| && es[i] == newest;
        if !Drops(es, i, smallest, base) {
          KeptEntry(es, |es|, smallest, base, i);
        }
        NewestDropped(cmp, es, rest, smallest, base, s, i);
        MappedAfterDrop(cmp, es, rest, smallest, base, s, i);
      }
    }
  }

  /** When every input key parses, no reader at or above the smallest snapshot sees a difference. */
  lemma PreservesViews(cmp: Comparator, es: seq<Entry>, rest: set<Entry>, smallest: nat, base: BaseLevel)
    requires Setting(cmp, es, rest, base) && smallest < MAX_SEQUENCE
    requires forall e :: e in es ==> Parses(e)
    ensures forall k, s, v :: s >= smallest ==>
      (Maps(AllAfter(es, rest, smallest, base), k, s, v) <==> Maps(AllBefore(es, rest), k, s, v))
  {
    forall k, s: nat, v | s >= smallest
      ensures Maps(AllAfter(es, rest, smallest, base), k, s, v) <==> Maps(AllBefore(es, rest), k, s, v)
    {
      ExactViews(cmp, es, rest, smallest, base, k, s);
      assert !Resurrected(es, rest, smallest, base, s, k);
    }
  }

  /** A corrupt entry between a deletion and the value it deletes brings the value back. */
  lemma CorruptKeyResurrects(cmp: Comparator, k: Slice, v: Slice)
    requires TotalOrder(cmp)
    ensures var es := [Entry(k, 5, TYPE_DELETION, []), Entry(k, 4, 7, []), Entry(k, 3, TYPE_VALUE, v)];
      && Setting(cmp, es, {}, _ => true)
      && !Maps(AllBefore(es, {}), k, 9, v)
      && Maps(AllAfter(es, {}, 9, _ => true), k, 9, v)
  {
    var es := [Entry(k, 5, TYPE_DELETION, []), Entry(k, 4, 7, []), Entry(k, 3, TYPE_VALUE, v)];
    var all: BaseLevel := _ => true;
    assert Compare(cmp, k, k) == 0;
    CorruptLoop(es, k, v);
    CorruptNewest(es, Kept(es, 3, 9, all), k, v);
  }

  /** The corrupt entry makes the loop forget the key. */
  lemma {:induction false} CorruptLoop(es: seq<Entry>, k: Slice, v: Slice)
    requires es == [Entry(k, 5, TYPE_DELETION, []), Entry(k, 4, 7, []), Entry(k, 3, TYPE_VALUE, v)]
    ensures Kept(es, 3, 9, _ => true) == [es[1], es[2]]
  {
    var all: BaseLevel := _ => true;
    assert Drops(es, 0, 9, all) && !Drops(es, 1, 9, all) && !Drops(es, 2, 9, all);
    assert Kept(es, 1, 9, all) == [];
    assert Kept(es, 2, 9, all) == [es[1]];
  }

  lemma CorruptNewest(es: seq<Entry>, kept: seq<Entry>, k: Slice, v: Slice)
    requires es == [Entry(k, 5, TYPE_DELETION, []), Entry(k, 4, 7, []), Entry(k, 3, TYPE_VALUE, v)]
    requires kept == [es[1], es[2]]
    ensures !Maps(Entries(es) + {}, k, 9, v) && Maps(Entries(kept) + {}, k, 9, v)
  {
    assert es[0] in Entries(es) && ShowsFor(es[0], k, 9);
    assert IsNewest(Entries(kept) + {}, k, 9, es[2]);
  }

  // ----- what must go -----

  ghost function PairsOf(es: seq<Entry>): seq<(Slice, Slice)> {
    seq(|es|, i requires 0 <= i < |es| => (es[i].key, es[i].value))
  }

  lemma OnePair(e: Entry)
    ensures PairsOf([e]) == [(e.key, e.value)]
  {
  }

  lemma NoPairs()
    ensures PairsOf([]) == []
  {
  }

  lemma PairsOfBoth(a: seq<Entry>, b: seq<Entry>)
    ensures PairsOf(a + b) == PairsOf(a) + PairsOf(b)
  {
  }

  /** In a sorted list the entry before has the same key if any entry before has. */
  lemma EarlierIsBefore(cmp: Comparator, es: seq<Entry>, j: nat, i: nat)
    requires TotalOrder(cmp) && StrictlySorted(cmp, es) && j < i < |es| && es[j].key == es[i].key
    ensures es[i - 1].key == es[i].key
  {
    SameKeyOrder(cmp, es, j, i);
  }

  /** With all entries at or below the smallest snapshot and no deeper level, an entry is kept if and only if it is
      live. */
  lemma KeptIffLive(cmp: Comparator, es: seq<Entry>, smallest: nat, base: BaseLevel, i: nat)
    requires TotalOrder(cmp) && StrictlySorted(cmp, es) && smallest < MAX_SEQUENCE && (forall k :: base(k))
    requires forall e :: e in es ==> Parses(e) && e.sequence <= smallest
    requires i < |es|
    ensures !Drops(es, i, smallest, base) <==> IsLive(es, smallest, i)
  {
    assert es[i] in es;
    if j :| 0 <= j < i && es[j].key == es[i].key {
      EarlierIsBefore(cmp, es, j, i);
      assert es[i - 1] in es && ShowsFor(es[i - 1], es[i].key, smallest);
    }
  }

  lemma {:induction false} LivePairsAreKept(cmp: Comparator, es: seq<Entry>, smallest: nat, base: BaseLevel, n: nat)
    requires TotalOrder(cmp) && StrictlySorted(cmp, es) && smallest < MAX_SEQUENCE && (forall k :: base(k))
    requires forall e :: e in es ==> Parses(e) && e.sequence <= smallest
    requires n <= |es|
    ensures PairsOf(Kept(es, n, smallest, base)) == LivePairs(es, smallest, n)
    ensures forall e :: e in Kept(es, n, smallest, base) ==> e.t == TYPE_VALUE
  {
    hide Drops, StrictlySorted, TotalOrder, Parses, PairsOf;
    if n > 0 {
      LivePairsAreKept(cmp, es, smallest, base, n - 1);
      KeptIffLive(cmp, es, smallest, base, n - 1);
      PairsOfBoth(Kept(es, n - 1, smallest, base), [es[n - 1]]);
      OnePair(es[n - 1]);
      assert Kept(es, n - 1, smallest, base) + [] == Kept(es, n - 1, smallest, base);
    } else {
      NoPairs();
    }
  }

  /** A compaction of the last level without snapshots writes exactly the live pairs: every overwritten value and every
      deletion is gone. */
  lemma {:induction false} OnlyLivePairsRemain(cmp: Comparator, es: seq<Entry>, smallest: nat, base: BaseLevel)
    requires TotalOrder(cmp) && StrictlySorted(cmp, es) && smallest < MAX_SEQUENCE && (forall k :: base(k))
    requires forall e :: e in es ==> Parses(e) && e.sequence <= smallest
    ensures PairsOf(Kept(es, |es|, smallest, base)) == AllLivePairs(es, smallest)
    ensures forall e :: e in Kept(es, |es|, smallest, base) ==> e.t == TYPE_VALUE
  {
    LivePairsAreKept(cmp, es, smallest, base, |es|);
  }

  /** Some reader from the smallest snapshot on finds entry `i`. */
  ghost predicate Visible(es: seq<Entry>, smallest: nat, i: nat)
    requires i < |es|
  {
    exists s: nat :: smallest <= s && IsNewest(Entries(es), es[i].key, s, es[i])
  }

  /** With snapshots: an entry is kept if and only if some reader finds it, unless it is a deletion that all readers see
      and that has nothing below it to delete. */
  lemma KeptIffNeeded(cmp: Comparator, es: seq<Entry>, smallest: nat, base: BaseLevel, i: nat)
    requires TotalOrder(cmp) && StrictlySorted(cmp, es) && smallest < MAX_SEQUENCE
    requires forall e :: e in es ==> Parses(e)
    requires forall e, f :: e in es && f in es && e.key == f.key && e.sequence == f.sequence ==> e == f
    requires i < |es|
    ensures !Drops(es, i, smallest, base) <==>
      Visible(es, smallest, i) && !(es[i].t == 0 && es[i].sequence <= smallest && base(es[i].key))
  {
    if HiddenEntry(es, i, smallest) {
      HiddenIsInvisible(cmp, es, smallest, i);
    } else {
      UnhiddenIsVisible(cmp, es, smallest, i);
    }
  }

  lemma HiddenIsInvisible(cmp: Comparator, es: seq<Entry>, smallest: nat, i: nat)
    requires TotalOrder(cmp) && StrictlySorted(cmp, es) && smallest < MAX_SEQUENCE && i < |es|
    requires HiddenEntry(es, i, smallest)
    ensures !Visible(es, smallest, i)
  {
    SameKeyOrder(cmp, es, i - 1, i);
    forall s: nat | smallest <= s
      ensures !IsNewest(Entries(es), es[i].key, s, es[i])
    {
      assert es[i - 1] in Entries(es) && ShowsFor(es[i - 1], es[i].key, s);
    }
  }

  /** What stands before an entry that rule (A) spares is too new for some reader. */
  lemma EarlierIsNewer(cmp: Comparator, es: seq<Entry>, smallest: nat, j: nat, i: nat, s: nat)
    requires TotalOrder(cmp) && StrictlySorted(cmp, es) && j < i < |es| && !HiddenEntry(es, i, smallest)
    requires forall e :: e in es ==> Parses(e)
    requires forall e, f :: e in es && f in es && e.key == f.key && e.sequence == f.sequence ==> e == f
    requires s == if smallest < es[i].sequence then es[i].sequence else smallest
    ensures !ShowsFor(es[j], es[i].key, s)
  {
    if es[j].key == es[i].key {
      EarlierIsBefore(cmp, es, j, i);
      SameKeyOrder(cmp, es, i - 1, i);
      assert es[i - 1] in es && es[i] in es;
      if j < i - 1 {
        SameKeyOrder(cmp, es, j, i - 1);
      }
    }
  }

  lemma UnhiddenIsVisible(cmp: Comparator, es: seq<Entry>, smallest: nat, i: nat)
    requires TotalOrder(cmp) && StrictlySorted(cmp, es) && i < |es|
    requires forall e :: e in es ==> Parses(e)
    requires forall e, f :: e in es && f in es && e.key == f.key && e.sequence == f.sequence ==> e == f
    requires !HiddenEntry(es, i, smallest)
    ensures Visible(es, smallest, i)
  {
    hide HiddenEntry, StrictlySorted, TotalOrder;
    var s := if smallest < es[i].sequence then es[i].sequence else smallest;
    forall f | f in Entries(es) && ShowsFor(f, es[i].key, s)
      ensures Tag(f) <= Tag(es[i])
    {
      var j :| 0 <= j < |es| && es[j] == f;
      if j < i {
        EarlierIsNewer(cmp, es, smallest, j, i, s);
      } else if i < j {
        SameKeyOrder(cmp, es, i, j);
      }
    }
    assert IsNewest(Entries(es), es[i].key, s, es[i]);
  }
}
