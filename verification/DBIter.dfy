/** DBIter: a bidirectional cursor over the live map at one sequence number, on top of a cursor over
    all entries.

    The specification is a plain cursor over the live pairs: a position in `AllLivePairs`, or none. */
module DBIter {
  import opened Bytes
  import opened InternalKeys
  import opened Views

  // ----- the plain cursor -----

  type Position = Option<nat>

  /** How many of the pairs have a key before `target`. */
  ghost function CountBelow(cmp: Comparator, pairs: seq<(Slice, Slice)>, target: Slice): (n: nat)
    ensures n <= |pairs|
  {
    if pairs == [] then 0
    else if Compare(cmp, pairs[0].0, target) < 0 then 1 + CountBelow(cmp, pairs[1..], target)
    else 0
  }

  function At(pairs: seq<(Slice, Slice)>, i: int): Position {
    if 0 <= i < |pairs| then Some(i) else None
  }

  datatype Op = SeekToFirst | SeekToLast | Seek(target: Slice) | Next | Prev

  ghost function CursorStep(cmp: Comparator, pairs: seq<(Slice, Slice)>, at: Position, op: Op): Position
    requires op.Next? || op.Prev? ==> at.Some?
  {
    match op
    case SeekToFirst => At(pairs, 0)
    case SeekToLast => At(pairs, |pairs| - 1)
    case Seek(target) => At(pairs, CountBelow(cmp, pairs, target))
    case Next => At(pairs, at.value + 1)
    case Prev => At(pairs, at.value - 1)
  }

  function Shown(pairs: seq<(Slice, Slice)>, at: Position): Option<(Slice, Slice)>
    requires at.Some? ==> at.value < |pairs|
  {
    if at.Some? then Some(pairs[at.value]) else None
  }

  // ----- the iterator over all entries -----

  class InternalIterator {
    const cmp: Comparator
    const entries: seq<Entry>
    var pos: nat    // |entries| when not valid

    ghost predicate Ok()
      reads this
    {
      pos <= |entries|
    }

    predicate Valid()
      reads this
    {
      pos < |entries|
    }

    constructor (cmp: Comparator, entries: seq<Entry>)
      ensures Ok() && this.cmp == cmp && this.entries == entries
    {
      this.cmp, this.entries, pos := cmp, entries, |entries|;
    }

    method SeekToFirst()
      modifies this
      ensures Ok() && pos == 0
    {
      pos := 0;
    }

    method SeekToLast()
      modifies this
      ensures Ok() && pos == if entries == [] then 0 else |entries| - 1
    {
      pos := if |entries| == 0 then 0 else |entries| - 1;
    }

    /** Positions at the first entry that is not before `target`. */
    method Seek(target: Entry)
      modifies this
      ensures Ok()
      ensures forall j :: 0 <= j < pos ==> Before(cmp, entries[j], target)
      ensures Valid() ==> !Before(cmp, entries[pos], target)
    {
      pos := 0;
      while pos < |entries| && Before(cmp, entries[pos], target)
        invariant Ok() && forall j :: 0 <= j < pos ==> Before(cmp, entries[j], target)
      {
        pos := pos + 1;
      }
    }

    method Next()
      requires Ok() && Valid()
      modifies this
      ensures Ok() && pos == old(pos) + 1
    {
      pos := pos + 1;
    }

    method Prev()
      requires Ok() && Valid()
      modifies this
      ensures Ok() && pos == if old(pos) == 0 then |entries| else old(pos) - 1
    {
      pos := if pos == 0 then |entries| else pos - 1;
    }
  }

  datatype Direction = Forward | Reverse

  class Iterator {
    const userComparator: Comparator
    const iter: InternalIterator
    const sequence: nat
    var statusOk: bool
    var savedKey: Slice      // == current key when direction is Reverse
    var savedValue: Slice    // == current value when direction is Reverse
    var direction: Direction
    var valid: bool
    ghost var current: nat   // the entry that yields the current key and value
    ghost var parsed: set<nat>    // the entries that were parsed

    /** `iter` stands at this entry, or at -1, before the first. */
    ghost function Back(): int
      reads this, iter
    {
      if iter.Valid() then iter.pos else -1
    }

    ghost predicate Inv()
      reads this, iter
    {
      && iter.Ok() && iter.cmp == userComparator
      && TotalOrder(userComparator) && Sorted(userComparator, iter.entries)
      && (valid ==> current < |iter.entries| && IsLive(iter.entries, sequence, current))
      && (valid && direction == Forward ==> iter.pos == current)
      && (valid && direction == Reverse ==> Behind(current))
      && StatusInv()
    }

    /** The status tells whether all entries that were parsed so far have a known type. */
    ghost predicate StatusInv()
      reads `parsed, `statusOk
    {
      && (forall i :: i in parsed ==> i < |iter.entries|)
      && (statusOk <==> forall i :: i in parsed && i < |iter.entries| ==> Parses(iter.entries[i]))
    }

    /** Moving backwards: every entry up to `iter` has a smaller key, and none shows between it and
        the current entry. */
    ghost predicate Behind(q: nat)
      reads this, iter
      requires q < |iter.entries|
    {
      var es := iter.entries;
      && savedKey == es[q].key && savedValue == es[q].value
      && Back() < q
      && StandsBehind(userComparator, es, sequence, Back(), q)
    }

    ghost function Pairs(): seq<(Slice, Slice)>
      reads this, iter
    {
      AllLivePairs(iter.entries, sequence)
    }

    /** The abstract state: where in the live pairs the cursor stands. */
    ghost function Where(): Position
      reads this, iter
      requires Inv()
      ensures Where().Some? ==> Where().value < |Pairs()|
    {
      if valid then
        LiveRank(iter.entries, sequence, current, |iter.entries|);
        Some(|LivePairs(iter.entries, sequence, current)|)
      else None
    }

    constructor (cmp: Comparator, iter: InternalIterator, sequence: nat)
      requires TotalOrder(cmp) && iter.Ok() && iter.cmp == cmp && Sorted(cmp, iter.entries)
      ensures Inv() && Where() == None && this.iter == iter && this.sequence == sequence && userComparator == cmp
    {
      userComparator, this.iter, this.sequence := cmp, iter, sequence;
      statusOk, savedKey, savedValue, direction, valid, current, parsed := true, [], [], Forward, false, 0, {};
    }

    /** The current key and value are those of the pair the cursor stands at. */
    method KeyAndValue() returns (key: Slice, value: Slice)
      requires Inv() && valid
      ensures Pairs()[Where().value] == (key, value)
    {
      LiveRank(iter.entries, sequence, current, |iter.entries|);
      key := if direction == Forward then iter.entries[iter.pos].key else savedKey;
      value := if direction == Forward then iter.entries[iter.pos].value else savedValue;
    }

    method ParseKey() returns (ok: bool)
      requires Inv() && iter.Valid()
      modifies this`statusOk, this`parsed
      ensures Inv() && ok == Parses(iter.entries[iter.pos]) && parsed == old(parsed) + {iter.pos}
    {
      ok := Parses(iter.entries[iter.pos]);
      parsed := parsed + {iter.pos};
      if !ok {
        statusOk := false;
      }
    }

    /** Advances to the first live entry from `from` on. */
    method FindNextUserEntry(skipping0: bool, skip: Slice, ghost from: nat)
      requires Inv() && !valid && iter.Valid() && direction == Forward
      requires iter.pos <= from
      requires Skips(userComparator, iter.entries, sequence, iter.pos, from, skipping0, skip)
      modifies this, iter
      ensures Inv() && direction == Forward
      ensures valid ==> from <= current
      ensures NoneLive(iter.entries, sequence, from, if valid then current else |iter.entries|)
      ensures forall i :: old(iter.pos) <= i < (if valid then current + 1 else |iter.entries|) ==> i in parsed
    {
      hide Sorted, TotalOrder, IsLive, Skips, NoneLive, StatusInv;
      NothingLive(iter.entries, sequence, from);
      var skipping := skipping0;
      savedKey := skip;
      while true
        invariant Inv() && !valid && direction == Forward && iter.Valid()
        invariant Skips(userComparator, iter.entries, sequence, iter.pos, from, skipping, savedKey)
        invariant NoneLive(iter.entries, sequence, from, iter.pos)
        invariant forall i :: old(iter.pos) <= i < iter.pos ==> i in parsed
        decreases |iter.entries| - iter.pos
      {
        ghost var skipping', skip' := skipping, savedKey;
        var e := iter.entries[iter.pos];
        var parsed := ParseKey();
        if parsed && e.sequence <= sequence {
          if e.t == TYPE_DELETION {
            // a tombstone: the older entries of its key are dead
            savedKey := e.key;
            skipping := true;
          } else if skipping && Compare(userComparator, e.key, savedKey) <= 0 {
            // dead
          } else {
            Found(userComparator, iter.entries, sequence, iter.pos, from, skipping, savedKey);
            current := iter.pos;
            valid := true;
            savedKey := [];
            return;
          }
        }
        Skipped(userComparator, iter.entries, sequence, iter.pos, from, skipping', skip');
        iter.Next();
        if !iter.Valid() {
          break;
        }
      }
      savedKey := [];
      valid := false;
    }

    /** Goes back to the last live entry up to `iter`. */
    method FindPrevUserEntry()
      requires Inv() && !valid && direction == Reverse
      modifies this, iter
      ensures Inv()
      ensures !valid ==> direction == Forward
      ensures valid ==> direction == Reverse && current <= old(Back())
      ensures NoneLive(iter.entries, sequence, if valid then current + 1 else 0, old(Back()) + 1)
      ensures forall i :: Back() < i <= old(Back()) ==> i in parsed
    {
      hide Sorted, TotalOrder, IsLive, NoneLive, Gathered, StandsBehind, ShowsFor, StatusInv;
      ghost var es, start := iter.entries, Back();
      ghost var q: nat := 0;
      var valueType: nat := TYPE_DELETION;
      NothingGathered(es, sequence, start);
      while iter.Valid()
        invariant iter.Ok() && iter.cmp == userComparator && !valid && direction == Reverse
        invariant Inv() && Back() <= start
        invariant Gathered(es, sequence, Back(), start, valueType, q)
        invariant valueType != TYPE_DELETION ==> Back() < q <= start
        invariant valueType != TYPE_DELETION ==> savedKey == es[q].key && savedValue == es[q].value
        invariant forall i :: Back() < i <= start ==> i in parsed
        decreases Back()
      {
        var e := iter.entries[iter.pos];
        var parsed := ParseKey();
        if parsed && e.sequence <= sequence {
          if valueType != TYPE_DELETION && Compare(userComparator, e.key, savedKey) < 0 {
            // the gathered key is live, and its entries are over
            break;
          }
          Gather(userComparator, es, sequence, iter.pos, start, valueType, q);
          valueType := e.t;
          q := iter.pos;
          if valueType == TYPE_DELETION {
            savedKey, savedValue := [], [];
          } else {
            savedKey, savedValue := e.key, e.value;
          }
        } else {
          Gather(userComparator, es, sequence, iter.pos, start, valueType, q);
        }
        iter.Prev();
      }
      AllGathered(userComparator, es, sequence, Back(), start, valueType, q);
      if valueType == TYPE_DELETION {
        savedKey, savedValue := [], [];
        direction := Forward;
      } else {
        valid := true;
        current := q;
      }
    }

    method Next()
      requires Inv() && valid
      modifies this, iter
      ensures Inv()
      ensures Where() == CursorStep(userComparator, Pairs(), old(Where()), Op.Next)
      ensures forall i :: old(current) < i < (if valid then current + 1 else |iter.entries|) ==> i in parsed
    {
      hide Sorted, TotalOrder, IsLive, NoneLive, Skips, StatusInv;
      ghost var es, from := iter.entries, current + 1;
      ghost var key := es[current].key;
      valid := false;
      if direction == Reverse {
        direction := Forward;
        // the position is left of all entries with the current user key
        if !iter.Valid() {
          iter.SeekToFirst();
        } else {
          iter.Next();
        }
        if !iter.Valid() {
          assert false;  // the entries of the current key are ahead
        }
      } else {
        savedKey := iter.entries[iter.pos].key;
      }
      SkipCurrent(userComparator, es, sequence, iter.pos, current);
      FindNextUserEntry(true, savedKey, from);
      RankAfter(es, sequence, from - 1, if valid then current else |es|);
    }

    method Prev()
      requires Inv() && valid
      modifies this, iter
      ensures Inv()
      ensures Where() == CursorStep(userComparator, Pairs(), old(Where()), Op.Prev)
    {
      hide Sorted, TotalOrder, IsLive, NoneLive, StatusInv;
      ghost var es, was := iter.entries, current;
      if direction == Forward {
        ScanToPreviousKey();
        if !iter.Valid() {
          valid := false;
          savedKey, savedValue := [], [];
          NothingLive(es, sequence, 0);
          NoneShown(es, sequence, 0, -1, was);
          RankFirst(es, sequence, was);
          return;
        }
        direction := Reverse;
      }
      valid := false;
      ghost var back := Back();
      FindPrevUserEntry();
      NoneShown(es, sequence, if valid then current + 1 else 0, back, was);
      if valid {
        RankAfter(es, sequence, current, was);
      } else {
        RankFirst(es, sequence, was);
      }
    }

    /** Scans backwards from the current entry until the key changes. */
    method ScanToPreviousKey()
      requires Inv() && valid && direction == Forward
      modifies this`savedKey, iter
      ensures iter.Ok() && Back() < current
      ensures forall j :: Back() < j < current ==> !Shows(iter.entries[j], sequence)
    {
      hide Sorted, TotalOrder, IsLive;
      ghost var es := iter.entries;
      savedKey := iter.entries[iter.pos].key;
      iter.Prev();
      while iter.Valid() && !(Compare(userComparator, iter.entries[iter.pos].key, savedKey) < 0)
        modifies iter
        invariant iter.Ok() && Back() < current
        invariant forall j :: Back() < j < current ==> es[j].key == savedKey
        decreases Back()
      {
        KeysInOrder(userComparator, es, iter.pos, current);
        iter.Prev();
      }
      HiddenBelow(es, sequence, Back(), current);
    }

    method Seek(target: Slice)
      requires Inv()
      modifies this, iter
      ensures Inv()
      ensures forall i :: 0 <= i < (if valid then current + 1 else |iter.entries|) ==>
        Before(userComparator, iter.entries[i], Entry(target, sequence, TYPE_FOR_SEEK, [])) || i in parsed
      ensures Where() == CursorStep(userComparator, Pairs(), old(Where()), Op.Seek(target))
    {
      hide Sorted, TotalOrder, IsLive, NoneLive, Skips, StatusInv;
      direction, valid := Forward, false;
      savedKey, savedValue := [], [];
      iter.Seek(Entry(target, sequence, TYPE_FOR_SEEK, []));
      ghost var es, pos := iter.entries, iter.pos;
      SeekSkips(userComparator, es, sequence, target, pos);
      NothingLive(es, sequence, pos);
      if iter.Valid() {
        FindNextUserEntry(false, savedKey, pos);
      }
      SeekRank(userComparator, es, sequence, target, pos, if valid then current else |es|);
    }

    method SeekToFirst()
      requires Inv()
      modifies this, iter
      ensures Inv()
      ensures Where() == CursorStep(userComparator, Pairs(), old(Where()), Op.SeekToFirst)
      ensures forall i :: 0 <= i < (if valid then current + 1 else |iter.entries|) ==> i in parsed
    {
      hide Sorted, TotalOrder, IsLive, NoneLive, Skips, StatusInv;
      direction, valid, savedValue := Forward, false, [];
      iter.SeekToFirst();
      ghost var es := iter.entries;
      NothingLive(es, sequence, 0);
      SkipsNothing(userComparator, es, sequence, savedKey);
      if iter.Valid() {
        FindNextUserEntry(false, savedKey, 0);
      }
      RankFirst(es, sequence, if valid then current else |es|);
    }

    method Do(op: Op)
      requires Inv() && (op.Next? || op.Prev? ==> Where().Some?)
      modifies this, iter
      ensures Inv()
      ensures Where() == CursorStep(userComparator, Pairs(), old(Where()), op)
    {
      match op
      case SeekToFirst => SeekToFirst();
      case SeekToLast => SeekToLast();
      case Seek(target) => Seek(target);
      case Next => Next();
      case Prev => Prev();
    }

    method SeekToLast()
      requires Inv()
      modifies this, iter
      ensures Inv()
      ensures Where() == CursorStep(userComparator, Pairs(), old(Where()), Op.SeekToLast)
      ensures forall i :: Back() < i < |iter.entries| ==> i in parsed
    {
      hide Sorted, TotalOrder, IsLive, NoneLive, StatusInv;
      direction, valid, savedValue := Reverse, false, [];
      iter.SeekToLast();
      FindPrevUserEntry();
      if valid {
        RankAfter(iter.entries, sequence, current, |iter.entries|);
      } else {
        RankFirst(iter.entries, sequence, |iter.entries|);
      }
    }
  }

  /** Where a plain cursor goes: Seek finds the first pair whose key is not before the target. */
  lemma {:induction false} CountBelowSplits(cmp: Comparator, pairs: seq<(Slice, Slice)>, target: Slice)
    ensures var n := CountBelow(cmp, pairs, target);
      && (forall r :: 0 <= r < n ==> Compare(cmp, pairs[r].0, target) < 0)
      && (n < |pairs| ==> Compare(cmp, pairs[n].0, target) >= 0)
  {
    if pairs != [] {
      CountBelowSplits(cmp, pairs[1..], target);
    }
  }

  lemma CursorIsPlain(cmp: Comparator, pairs: seq<(Slice, Slice)>, at: Position, target: Slice)
    ensures at.Some? && at.value < |pairs| ==> Shown(pairs, at) == Some(pairs[at.value])
    ensures CursorStep(cmp, pairs, at, SeekToFirst) == if pairs == [] then None else Some(0)
    ensures CursorStep(cmp, pairs, at, SeekToLast) == if pairs == [] then None else Some(|pairs| - 1)
    ensures at.Some? && at.value < |pairs| ==>
      && CursorStep(cmp, pairs, at, Next) == (if at.value == |pairs| - 1 then None else Some(at.value + 1))
      && CursorStep(cmp, pairs, at, Prev) == (if at.value == 0 then None else Some(at.value - 1))
    ensures match CursorStep(cmp, pairs, at, Seek(target))
      case None => forall r :: 0 <= r < |pairs| ==> Compare(cmp, pairs[r].0, target) < 0
      case Some(n) => n < |pairs| && Compare(cmp, pairs[n].0, target) >= 0
                      && forall r :: 0 <= r < n ==> Compare(cmp, pairs[r].0, target) < 0
  {
    CountBelowSplits(cmp, pairs, target);
  }

  // ----- whole runs -----

  /** Next and Prev are called only on a valid cursor. */
  ghost predicate Runnable(cmp: Comparator, pairs: seq<(Slice, Slice)>, at: Position, ops: seq<Op>)
    decreases |ops|
  {
    ops == [] || (
      && (ops[0].Next? || ops[0].Prev? ==> at.Some?)
      && Runnable(cmp, pairs, CursorStep(cmp, pairs, at, ops[0]), ops[1..]))
  }

  /** What a plain cursor over `pairs` shows after each of the calls. */
  ghost function CursorRun(cmp: Comparator, pairs: seq<(Slice, Slice)>, at: Position, ops: seq<Op>)
    : seq<Option<(Slice, Slice)>>
    requires Runnable(cmp, pairs, at, ops)
    decreases |ops|
  {
    if ops == [] then []
    else
      var next := CursorStep(cmp, pairs, at, ops[0]);
      [Shown(pairs, next)] + CursorRun(cmp, pairs, next, ops[1..])
  }

  /** Any sequence of calls shows what the same calls on a plain cursor over the live pairs show. */
  method Run(it: Iterator, ops: seq<Op>) returns (shown: seq<Option<(Slice, Slice)>>)
    requires it.Inv() && Runnable(it.userComparator, it.Pairs(), it.Where(), ops)
    modifies it, it.iter
    ensures it.Inv()
    ensures shown == CursorRun(it.userComparator, it.Pairs(), old(it.Where()), ops)
  {
    hide AllLivePairs, CursorStep, IsLive, Sorted, TotalOrder, Runnable, CursorRun;
    shown := [];
    var i := 0;
    ghost var cmp, pairs, all := it.userComparator, it.Pairs(), CursorRun(it.userComparator, it.Pairs(), it.Where(), ops);
    assert ops[0..] == ops;
    while i < |ops|
      invariant 0 <= i <= |ops| && it.Inv()
      invariant Runnable(cmp, pairs, it.Where(), ops[i..])
      invariant all == shown + CursorRun(cmp, pairs, it.Where(), ops[i..])
    {
      RunStep(cmp, pairs, it.Where(), ops, i);
      it.Do(ops[i]);
      var now := None;
      if it.valid {
        var key, value := it.KeyAndValue();
        now := Some((key, value));
      }
      shown := shown + [now];
      i := i + 1;
    }
    NothingToRun(cmp, pairs, it.Where(), ops[i..]);
  }

  lemma {:induction false} RunStep(cmp: Comparator, pairs: seq<(Slice, Slice)>, at: Position, ops: seq<Op>, i: nat)
    requires i < |ops| && Runnable(cmp, pairs, at, ops[i..])
    ensures ops[i].Next? || ops[i].Prev? ==> at.Some?
    ensures var next := CursorStep(cmp, pairs, at, ops[i]);
      && Runnable(cmp, pairs, next, ops[i + 1..])
      && CursorRun(cmp, pairs, at, ops[i..]) == [Shown(pairs, next)] + CursorRun(cmp, pairs, next, ops[i + 1..])
  {
    assert ops[i..][0] == ops[i] && ops[i..][1..] == ops[i + 1..];
  }

  lemma {:induction false} NothingToRun(cmp: Comparator, pairs: seq<(Slice, Slice)>, at: Position, ops: seq<Op>)
    requires ops == []
    ensures Runnable(cmp, pairs, at, ops) && CursorRun(cmp, pairs, at, ops) == []
  {
  }

  // ----- ranks -----

  lemma {:induction false} RankAfter(es: seq<Entry>, s: nat, i: nat, j: nat)
    requires i < j <= |es| && IsLive(es, s, i) && NoneLive(es, s, i + 1, j)
    ensures |LivePairs(es, s, j)| == |LivePairs(es, s, i)| + 1
  {
    NoLivePairs(es, s, i + 1, j);
  }

  lemma {:induction false} RankFirst(es: seq<Entry>, s: nat, j: nat)
    requires j <= |es| && NoneLive(es, s, 0, j)
    ensures LivePairs(es, s, j) == []
  {
    NoLivePairs(es, s, 0, j);
  }

  /** Entries with the key of a live entry, before it, do not show. */
  lemma HiddenBelow(es: seq<Entry>, s: nat, back: int, i: nat)
    requires -1 <= back < i < |es| && IsLive(es, s, i)
    requires forall j :: back < j < i ==> es[j].key == es[i].key
    ensures forall j :: back < j < i ==> !Shows(es[j], s)
  {
    forall j | back < j < i
      ensures !Shows(es[j], s)
    {
      assert !ShowsFor(es[j], es[i].key, s);
    }
  }

  lemma NoneShown(es: seq<Entry>, s: nat, from: nat, back: int, i: nat)
    requires -1 <= back < i < |es| && NoneLive(es, s, from, back + 1)
    requires forall j :: back < j < i ==> !Shows(es[j], s)
    ensures NoneLive(es, s, from, i)
  {
  }

  lemma {:induction false} CountBelowIs(cmp: Comparator, pairs: seq<(Slice, Slice)>, target: Slice, n: nat)
    requires n <= |pairs|
    requires forall r :: 0 <= r < n ==> Compare(cmp, pairs[r].0, target) < 0
    requires n < |pairs| ==> !(Compare(cmp, pairs[n].0, target) < 0)
    ensures CountBelow(cmp, pairs, target) == n
  {
    if n > 0 {
      CountBelowIs(cmp, pairs[1..], target, n - 1);
    }
  }

  /** Where Seek leaves the internal iterator: entries before `pos` are before (target, s) in the
      order of internal keys. Those of them that show have a smaller user key. */
  ghost predicate Sought(cmp: Comparator, es: seq<Entry>, s: nat, target: Slice, pos: nat) {
    && pos <= |es|
    && (forall j :: 0 <= j < pos ==> Before(cmp, es[j], Entry(target, s, TYPE_FOR_SEEK, [])))
    && (pos < |es| ==> !Before(cmp, es[pos], Entry(target, s, TYPE_FOR_SEEK, [])))
  }

  lemma SeekSplits(cmp: Comparator, es: seq<Entry>, s: nat, target: Slice, pos: nat)
    requires TotalOrder(cmp) && Sorted(cmp, es) && Sought(cmp, es, s, target, pos)
    ensures forall j :: 0 <= j < pos && Shows(es[j], s) ==> Compare(cmp, es[j].key, target) < 0
    ensures forall j :: pos <= j < |es| ==> !(Compare(cmp, es[j].key, target) < 0)
  {
    forall j | pos <= j < |es|
      ensures !(Compare(cmp, es[j].key, target) < 0)
    {
      KeysInOrder(cmp, es, pos, j);
    }
  }

  lemma SeekSkips(cmp: Comparator, es: seq<Entry>, s: nat, target: Slice, pos: nat)
    requires TotalOrder(cmp) && Sorted(cmp, es) && Sought(cmp, es, s, target, pos)
    ensures forall skip :: Skips(cmp, es, s, pos, pos, false, skip)
  {
    SeekSplits(cmp, es, s, target, pos);
  }

  lemma {:induction false} SeekRank(cmp: Comparator, es: seq<Entry>, s: nat, target: Slice, pos: nat, next: nat)
    requires TotalOrder(cmp) && Sorted(cmp, es) && Sought(cmp, es, s, target, pos)
    requires pos <= next <= |es| && NoneLive(es, s, pos, next) && (next < |es| ==> IsLive(es, s, next))
    ensures CountBelow(cmp, AllLivePairs(es, s), target) == |LivePairs(es, s, next)|
  {
    hide Sorted, TotalOrder, Before, LivePairs;
    var pairs, n := AllLivePairs(es, s), |LivePairs(es, s, next)|;
    NoLivePairs(es, s, pos, next);
    SeekSplits(cmp, es, s, target, pos);
    LivePairsGrow(es, s, pos, |es|);
    forall r | 0 <= r < n
      ensures Compare(cmp, pairs[r].0, target) < 0
    {
      var j := LiveEntry(es, s, pos, r);
    }
    if next < |es| {
      LiveRank(es, s, next, |es|);
    }
    CountBelowIs(cmp, pairs, target, n);
  }

  // ----- scanning backwards -----

  /** Up to `p` every key is smaller than that of `q`, and between them nothing shows. */
  ghost predicate StandsBehind(cmp: Comparator, es: seq<Entry>, s: nat, p: int, q: nat)
    requires -1 <= p < q < |es|
  {
    && (forall j :: 0 <= j <= p ==> Compare(cmp, es[j].key, es[q].key) < 0)
    && (forall j :: p < j < q ==> !Shows(es[j], s))
  }

  /** Entries from `start` down to just above `p` have been read. `q` is the last one of them that
      shows; if that is a value, it is the only candidate among them. */
  ghost predicate Gathered(es: seq<Entry>, s: nat, p: int, start: int, valueType: nat, q: nat)
    requires -1 <= p <= start < |es|
  {
    if valueType == TYPE_DELETION then
      forall j :: p < j <= start ==> !IsLive(es, s, j)
    else
      && p < q <= start && Shows(es[q], s) && es[q].t == TYPE_VALUE
      && (forall j :: p < j < q ==> !Shows(es[j], s))
      && (forall j :: q < j <= start ==> !IsLive(es, s, j))
  }

  lemma NothingGathered(es: seq<Entry>, s: nat, start: int)
    requires -1 <= start < |es|
    ensures Gathered(es, s, start, start, TYPE_DELETION, 0)
  {
  }

  lemma Gather(cmp: Comparator, es: seq<Entry>, s: nat, p: int, start: int, valueType: nat, q: nat)
    requires TotalOrder(cmp) && Sorted(cmp, es)
    requires 0 <= p <= start < |es| && Gathered(es, s, p, start, valueType, q)
    requires Shows(es[p], s) && valueType != TYPE_DELETION ==> !(Compare(cmp, es[p].key, es[q].key) < 0)
    ensures if Shows(es[p], s) then Gathered(es, s, p - 1, start, es[p].t, p)
            else Gathered(es, s, p - 1, start, valueType, q)
    ensures valueType != TYPE_DELETION ==> p < q <= start
  {
    if Shows(es[p], s) && valueType != TYPE_DELETION {
      KeysInOrder(cmp, es, p, q);
      assert ShowsFor(es[p], es[q].key, s);
    }
  }

  /** The scan ends at the first entry, or at an entry for an earlier key; its candidate is live. */
  lemma AllGathered(cmp: Comparator, es: seq<Entry>, s: nat, p: int, start: int, valueType: nat, q: nat)
    requires TotalOrder(cmp) && Sorted(cmp, es)
    requires -1 <= p <= start < |es| && Gathered(es, s, p, start, valueType, q)
    requires p >= 0 ==> valueType != TYPE_DELETION && Compare(cmp, es[p].key, es[q].key) < 0
    ensures if valueType == TYPE_DELETION then NoneLive(es, s, 0, start + 1)
            else p < q <= start && IsLive(es, s, q) && NoneLive(es, s, q + 1, start + 1)
    ensures valueType != TYPE_DELETION ==> StandsBehind(cmp, es, s, p, q)
  {
    if valueType != TYPE_DELETION {
      forall j | 0 <= j <= p
        ensures Compare(cmp, es[j].key, es[q].key) < 0
      {
        KeysInOrder(cmp, es, j, p);
      }
      assert Compare(cmp, es[q].key, es[q].key) == 0;
    }
  }

  // ----- scanning forwards -----

  ghost predicate NoneLive(es: seq<Entry>, s: nat, from: nat, to: nat)
    requires to <= |es|
  {
    forall j :: from <= j < to ==> !IsLive(es, s, j)
  }

  lemma NothingLive(es: seq<Entry>, s: nat, from: nat)
    ensures forall to :: 0 <= to <= |es| && to <= from ==> NoneLive(es, s, from, to)
  {
  }

  lemma SkipsNothing(cmp: Comparator, es: seq<Entry>, s: nat, skip: Slice)
    ensures Skips(cmp, es, s, 0, 0, false, skip)
  {
  }

  /** To find the entry after live entry `i`, starting at it or at entries before it that do not show. */
  lemma SkipCurrent(cmp: Comparator, es: seq<Entry>, s: nat, pos: nat, i: nat)
    requires TotalOrder(cmp) && Sorted(cmp, es)
    requires pos <= i < |es| && IsLive(es, s, i)
    requires forall j :: pos <= j < i ==> !Shows(es[j], s)
    ensures Skips(cmp, es, s, pos, i + 1, true, es[i].key)
  {
    assert Compare(cmp, es[i].key, es[i].key) == 0;
    forall j | i < j < |es|
      ensures if Covered(cmp, es[j], true, es[i].key) then !IsLive(es, s, j)
              else forall h :: 0 <= h < pos ==> !ShowsFor(es[h], es[j].key, s)
    {
      KeysInOrder(cmp, es, i, j);
      if Covered(cmp, es[j], true, es[i].key) {
        assert ShowsFor(es[i], es[j].key, s);
      } else {
        forall h | 0 <= h < pos
          ensures !ShowsFor(es[h], es[j].key, s)
        {
          KeysInOrder(cmp, es, h, i);
        }
      }
    }
  }

  predicate Covered(cmp: Comparator, e: Entry, skipping: bool, skip: Slice) {
    skipping && Compare(cmp, e.key, skip) <= 0
  }

  /** What FindNextUserEntry relies on at entry `pos` when the next live entry wanted is not before
      `from`: entries that `skip` covers are not live, and it covers those an earlier entry hides. */
  ghost predicate Skips(cmp: Comparator, es: seq<Entry>, s: nat, pos: nat, from: nat, skipping: bool, skip: Slice) {
    forall j :: pos <= j < |es| ==>
      if j < from then
        Shows(es[j], s) ==> es[j].t == TYPE_VALUE && Covered(cmp, es[j], skipping, skip)
      else if Covered(cmp, es[j], skipping, skip) then
        !IsLive(es, s, j)
      else
        forall i :: 0 <= i < pos && i < |es| ==> !ShowsFor(es[i], es[j].key, s)
  }

  /** An entry that shows, is a value, and is not covered is the live entry looked for. */
  lemma Found(cmp: Comparator, es: seq<Entry>, s: nat, pos: nat, from: nat, skipping: bool, skip: Slice)
    requires Skips(cmp, es, s, pos, from, skipping, skip) && pos < |es|
    requires Shows(es[pos], s) && es[pos].t == TYPE_VALUE && !Covered(cmp, es[pos], skipping, skip)
    ensures from <= pos && IsLive(es, s, pos)
  {
  }

  /** Any other entry is passed over; a deletion makes its key the one to skip. */
  lemma Skipped(cmp: Comparator, es: seq<Entry>, s: nat, pos: nat, from: nat, skipping: bool, skip: Slice)
    requires TotalOrder(cmp) && Sorted(cmp, es)
    requires Skips(cmp, es, s, pos, from, skipping, skip) && pos < |es|
    requires Shows(es[pos], s) && es[pos].t == TYPE_VALUE ==> Covered(cmp, es[pos], skipping, skip)
    requires NoneLive(es, s, from, pos)
    ensures NoneLive(es, s, from, pos + 1)
    ensures var deletion := Shows(es[pos], s) && es[pos].t == TYPE_DELETION;
      Skips(cmp, es, s, pos + 1, from, skipping || deletion, if deletion then es[pos].key else skip)
  {
    var e := es[pos];
    var deletion := Shows(e, s) && e.t == TYPE_DELETION;
    var skipping', skip' := skipping || deletion, if deletion then e.key else skip;
    forall j | pos < j < |es| && j >= from
      ensures Covered(cmp, es[j], skipping', skip') ==> !IsLive(es, s, j)
      ensures !Covered(cmp, es[j], skipping', skip') ==> forall i :: 0 <= i <= pos ==> !ShowsFor(es[i], es[j].key, s)
    {
      KeysInOrder(cmp, es, pos, j);
      assert Compare(cmp, e.key, e.key) == 0;
      if deletion {
        if Covered(cmp, es[j], skipping', skip') {
          assert es[j].key == e.key;
          assert ShowsFor(e, es[j].key, s);
        }
        forall i | 0 <= i < pos && ShowsFor(es[i], es[j].key, s)
          ensures es[j].key == e.key
        {
          KeysInOrder(cmp, es, i, pos);
        }
      }
    }
  }
}
