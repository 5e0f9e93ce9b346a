/** What the write queue guarantees in every reachable state. */
module WriteQueueProperties {
  import opened Bytes
  import opened BatchGroup
  import opened WriteQueue

  /** What the invariant says of one group. */
  lemma GroupAt(s: State, i: nat)
    requires Inv(s) && i < |s.groups|
    ensures QueueInv(s) && GroupInv(s, s.groups[i])
    ensures s.groups[i].first == EndAt(s.groups, i) && s.groups[i].base == SequenceAt(s.groups, i) + 1
    ensures EndAt(s.groups, i + 1) == s.groups[i].first + s.groups[i].n
    ensures SequenceAt(s.groups, i + 1) == s.groups[i].base + |s.groups[i].ops| - 1
  {
    hide GroupInv, FilesInv, CommitInv, ThreadsInv;
  }

  lemma LastBoundsOf(s: State)
    requires Inv(s)
    ensures EndAt(s.groups, |s.groups|) == Retired(s) && SequenceAt(s.groups, |s.groups|) == s.lastSequence
  {
    hide GroupInv, FilesInv, CommitInv, ThreadsInv;
  }

  // ----- sequence numbers -----

  /** Successive groups use disjoint, increasing ranges of sequence numbers, up to the last one published. */
  lemma RangesIncrease(s: State, i: nat, j: nat)
    requires Inv(s) && i < j <= |s.groups|
    ensures s.groups[i].base + |s.groups[i].ops| - 1 <= s.lastSequence
    ensures j < |s.groups| ==> s.groups[i].base + |s.groups[i].ops| <= s.groups[j].base
  {
    hide Inv, SequenceAt, EndAt, GroupInv;
    GroupAt(s, i);
    SequencesGrow(s, i + 1, j);
    SequencesGrow(s, j, |s.groups|);
    LastBoundsOf(s);
    if j < |s.groups| {
      GroupAt(s, j);
    }
  }

  lemma {:induction false} SequencesGrow(s: State, i: nat, j: nat)
    requires Inv(s) && i <= j <= |s.groups|
    ensures 0 <= SequenceAt(s.groups, i) <= SequenceAt(s.groups, j)
    decreases j
  {
    hide Inv, EndAt, GroupInv;
    if j > 0 {
      GroupAt(s, j - 1);
      if i < j {
        SequencesGrow(s, i, j - 1);
      } else {
        SequencesGrow(s, j - 1, j - 1);
      }
    }
  }

  // ----- what readers see -----

  /** The entries of the memtable that a reader at sequence number `t` looks at. */
  ghost function UpTo(mem: seq<(nat, Op)>, t: int): seq<(nat, Op)> {
    if mem == [] then []
    else UpTo(mem[..|mem| - 1], t) + if mem[|mem| - 1].0 <= t then [mem[|mem| - 1]] else []
  }

  lemma {:induction false} UpToAll(a: seq<(nat, Op)>, t: int)
    requires forall i :: 0 <= i < |a| ==> a[i].0 <= t
    ensures UpTo(a, t) == a
  {
    if a != [] {
      UpToAll(a[..|a| - 1], t);
    }
  }

  lemma {:induction false} UpToNone(a: seq<(nat, Op)>, b: seq<(nat, Op)>, t: int)
    requires forall i :: 0 <= i < |b| ==> b[i].0 > t
    ensures UpTo(a + b, t) == UpTo(a, t)
    decreases |b|
  {
    if b == [] {
      assert a + b == a;
    } else {
      assert (a + b)[..|a + b| - 1] == a + b[..|b| - 1];
      UpToNone(a, b[..|b| - 1], t);
    }
  }

  lemma {:induction false} AppliedBelow(s: State, n: nat)
    requires Inv(s) && n <= |s.groups|
    ensures forall i :: 0 <= i < |Applied(s.groups, n)| ==> Applied(s.groups, n)[i].0 <= SequenceAt(s.groups, n)
  {
    hide Inv, GroupInv, EndAt;
    if n > 0 {
      GroupAt(s, n - 1);
      AppliedBelow(s, n - 1);
      SequencesGrow(s, n - 1, n);
    }
  }

  lemma {:induction false} LaterGroupsAreNewer(s: State, n: nat, m: nat)
    requires Inv(s) && n <= m <= |s.groups|
    ensures UpTo(Applied(s.groups, m), SequenceAt(s.groups, n)) == Applied(s.groups, n)
    decreases m
  {
    hide Inv, GroupInv, EndAt, UpTo;
    AppliedBelow(s, n);
    UpToAll(Applied(s.groups, n), SequenceAt(s.groups, n));
    if n < m {
      LaterGroupsAreNewer(s, n, m - 1);
      SequencesGrow(s, n, m - 1);
      var g := s.groups[m - 1];
      GroupAt(s, m - 1);
      UpToNone(Applied(s.groups, m - 1), if g.ok then Numbered(g.base, g.ops) else [], SequenceAt(s.groups, n));
    }
  }

  /** A reader at a sequence number that was published sees a prefix of the groups, each of them whole, even
      while the next group is being inserted. */
  lemma {:induction false} ReadersSeeWholeGroups(s: State, n: nat)
    requires Inv(s) && n <= |s.groups|
    ensures UpTo(s.mem, SequenceAt(s.groups, n)) == Applied(s.groups, n)
    ensures UpTo(s.mem, s.lastSequence) == Applied(s.groups, |s.groups|)
  {
    hide GroupInv, Applied, UpTo, SequenceAt, GroupsInv, ThreadsInv;
    LastBoundsOf(s);
    var k := |s.groups|;
    SequencesGrow(s, n, k);
    LaterGroupsAreNewer(s, n, k);
    LaterGroupsAreNewer(s, k, k);
    if s.commit.Some? {
      var c := s.commit.value;
      var part := Numbered(c.last + 1, c.ops[..c.inserted]);
      UpToNone(Applied(s.groups, k), part, SequenceAt(s.groups, n));
      UpToNone(Applied(s.groups, k), part, s.lastSequence);
    } else {
      assert s.mem == Applied(s.groups, k);
    }
  }

  // ----- each batch once, in order -----

  ghost function OpsIn(mem: seq<(nat, Op)>): seq<Op> {
    seq(|mem|, i requires 0 <= i < |mem| => mem[i].1)
  }

  /** The operations of the first `n` threads whose call succeeds, in order of arrival. */
  ghost function SuccessfulOps(ts: seq<Thread>, n: nat): seq<Op>
    requires n <= |ts|
  {
    if n == 0 then [] else SuccessfulOps(ts, n - 1) + if ts[n - 1].ok then OpsOf(ts[n - 1].w) else []
  }

  lemma {:induction false} SuccessfulGroup(ts: seq<Thread>, lo: nat, hi: nat, ok: bool)
    requires lo <= hi <= |ts| && forall id :: lo <= id < hi ==> ts[id].ok == ok
    ensures SuccessfulOps(ts, hi) == SuccessfulOps(ts, lo) + if ok then MemberOps(ts, lo, hi) else []
    decreases hi
  {
    hide OpsOf;
    if lo < hi {
      SuccessfulGroup(ts, lo, hi - 1, ok);
      var before := SuccessfulOps(ts, lo);
      if ok {
        assert before + MemberOps(ts, lo, hi - 1) + OpsOf(ts[hi - 1].w)
            == before + (MemberOps(ts, lo, hi - 1) + OpsOf(ts[hi - 1].w));
      }
    }
  }

  lemma {:induction false} AppliedOps(s: State, n: nat)
    requires Inv(s) && n <= |s.groups|
    ensures EndAt(s.groups, n) <= |s.threads|
    ensures OpsIn(Applied(s.groups, n)) == SuccessfulOps(s.threads, EndAt(s.groups, n))
  {
    hide Inv, GroupInv, MemberOps;
    if n > 0 {
      AppliedOps(s, n - 1);
      GroupAt(s, n - 1);
      var g := s.groups[n - 1];
      GroupMembers(s, g);
      OpsInBoth(Applied(s.groups, n - 1), if g.ok then Numbered(g.base, g.ops) else []);
    }
  }

  lemma OpsInBoth(a: seq<(nat, Op)>, b: seq<(nat, Op)>)
    ensures OpsIn(a + b) == OpsIn(a) + OpsIn(b)
  {
  }

  lemma GroupMembers(s: State, g: Group)
    requires QueueInv(s) && GroupInv(s, g)
    ensures g.first + g.n <= |s.threads|
    ensures SuccessfulOps(s.threads, g.first + g.n) == SuccessfulOps(s.threads, g.first) + if g.ok then g.ops else []
    ensures OpsIn(Numbered(g.base, g.ops)) == g.ops
  {
    hide SuccessfulOps, MemberOps, Durable;
    SuccessfulGroup(s.threads, g.first, g.first + g.n, g.ok);
  }

  /** The memtable holds the operations of each call that succeeds exactly once, in queue order, and nothing
      else except the part of the current group that is inserted so far. */
  lemma AppliedExactlyOnce(s: State)
    requires Inv(s)
    ensures OpsIn(s.mem) == SuccessfulOps(s.threads, Retired(s))
                            + if s.commit.Some? then s.commit.value.ops[..s.commit.value.inserted] else []
  {
    hide GroupInv, Applied, GroupsInv, ThreadsInv;
    LastBoundsOf(s);
    AppliedOps(s, |s.groups|);
    if s.commit.Some? {
      var c := s.commit.value;
      assert OpsIn(Numbered(c.last + 1, c.ops[..c.inserted])) == c.ops[..c.inserted];
    }
  }

  lemma {:induction false} SuccessfulPart(ts: seq<Thread>, id: nat, n: nat) returns (k: nat)
    requires id < n <= |ts| && ts[id].ok && ts[id].w.batch.Some?
    ensures k + |ts[id].w.batch.value| <= |SuccessfulOps(ts, n)|
    ensures SuccessfulOps(ts, n)[k..k + |ts[id].w.batch.value|] == ts[id].w.batch.value
    decreases n
  {
    if id == n - 1 {
      k := |SuccessfulOps(ts, n - 1)|;
    } else {
      k := SuccessfulPart(ts, id, n - 1);
    }
  }

  /** In particular the batch of a call that succeeded is in the memtable, whole and in its order. */
  lemma SuccessfulCallIsApplied(s: State, id: nat) returns (k: nat)
    requires Inv(s) && id < Retired(s) && s.threads[id].ok && s.threads[id].w.batch.Some?
    ensures var b := s.threads[id].w.batch.value;
      k + |b| <= |s.mem| && forall i :: 0 <= i < |b| ==> s.mem[k + i].1 == b[i]
  {
    hide Inv, SuccessfulOps;
    QueueOf(s);
    AppliedExactlyOnce(s);
    k := SuccessfulPart(s.threads, id, Retired(s));
    var b, all := s.threads[id].w.batch.value, SuccessfulOps(s.threads, Retired(s));
    forall i | 0 <= i < |b|
      ensures OpsIn(s.mem)[k + i] == b[i]
    {
      assert all[k..k + |b|][i] == all[k + i];
    }
  }

  // ----- the log -----

  lemma {:induction false} GroupOf(s: State, id: nat, n: nat) returns (i: nat)
    requires Inv(s) && n <= |s.groups| && id < EndAt(s.groups, n)
    ensures i < n && s.groups[i].first <= id < s.groups[i].first + s.groups[i].n
  {
    hide Inv, GroupInv;
    GroupAt(s, n - 1);
    if s.groups[n - 1].first <= id {
      i := n - 1;
    } else {
      i := GroupOf(s, id, n - 1);
    }
  }

  lemma {:induction false} MemberPart(ts: seq<Thread>, lo: nat, hi: nat, id: nat) returns (k: nat)
    requires lo <= id < hi <= |ts|
    ensures k + |OpsOf(ts[id].w)| <= |MemberOps(ts, lo, hi)|
    ensures MemberOps(ts, lo, hi)[k..k + |OpsOf(ts[id].w)|] == OpsOf(ts[id].w)
    decreases hi
  {
    if id == hi - 1 {
      k := |MemberOps(ts, lo, hi - 1)|;
    } else {
      k := MemberPart(ts, lo, hi - 1, id);
    }
  }

  /** The batch of a call that asked for a sync and succeeded is in a log record that was synced, whoever
      wrote it. */
  lemma SyncedCallIsDurable(s: State, id: nat) returns (r: Record, k: nat)
    requires Inv(s) && id < Retired(s) && s.threads[id].ok && s.threads[id].w.sync && s.threads[id].w.batch.Some?
    ensures Durable(s, r) && k + |s.threads[id].w.batch.value| <= |r.ops|
    ensures r.ops[k..k + |s.threads[id].w.batch.value|] == s.threads[id].w.batch.value
  {
    hide FilesInv, CommitInv, ThreadsInv, GroupsInv, Durable, MemberOps;
    LastBoundsOf(s);
    var i := GroupOf(s, id, |s.groups|);
    var g := s.groups[i];
    GroupAt(s, i);
    k := MemberPart(s.threads, g.first, g.first + g.n, id);
    r := Record(g.base, g.ops);
  }

  /** The operations of a log, in the order of its records. */
  ghost function OpsOfLog(log: seq<Record>): seq<Op> {
    if log == [] then [] else OpsOfLog(log[..|log| - 1]) + log[|log| - 1].ops
  }

  /** The operations of those of the first `n` threads that are in `some`, in order of arrival. */
  ghost function OpsOfSome(ts: seq<Thread>, some: set<nat>, n: nat): seq<Op>
    requires n <= |ts|
  {
    if n == 0 then [] else OpsOfSome(ts, some, n - 1) + if n - 1 in some then OpsOf(ts[n - 1].w) else []
  }

  ghost function Span(lo: nat, n: nat): (ids: set<nat>)
    ensures forall id :: id in ids <==> lo <= id < lo + n
  {
    if n == 0 then {} else Span(lo, n - 1) + {lo + n - 1}
  }

  ghost function LoggedThreads(gs: seq<Group>, n: nat): set<nat>
    requires n <= |gs|
  {
    if n == 0 then {} else LoggedThreads(gs, n - 1) + if gs[n - 1].logged then Span(gs[n - 1].first, gs[n - 1].n) else {}
  }

  lemma {:induction false} OpsOfLogAppend(log: seq<Record>, r: Record)
    ensures OpsOfLog(log + [r]) == OpsOfLog(log) + r.ops
  {
    assert (log + [r])[..|log|] == log;
  }

  lemma {:induction false} OpsOfMore(ts: seq<Thread>, some: set<nat>, lo: nat, n: nat, hi: nat)
    requires lo <= hi <= |ts| && hi <= lo + n && forall id :: id in some ==> id < lo
    ensures OpsOfSome(ts, some, hi) == OpsOfSome(ts, some, lo)
    ensures OpsOfSome(ts, some + Span(lo, n), hi) == OpsOfSome(ts, some, lo) + MemberOps(ts, lo, hi)
    decreases hi
  {
    hide OpsOf;
    if lo < hi {
      OpsOfMore(ts, some, lo, n, hi - 1);
      assert hi - 1 in Span(lo, n);
    } else {
      SameSome(ts, some, some + Span(lo, n), lo);
    }
  }

  lemma {:induction false} SameSome(ts: seq<Thread>, some: set<nat>, some': set<nat>, n: nat)
    requires n <= |ts| && forall id :: 0 <= id < n ==> (id in some <==> id in some')
    ensures OpsOfSome(ts, some, n) == OpsOfSome(ts, some', n)
  {
    if n > 0 {
      SameSome(ts, some, some', n - 1);
    }
  }

  /** One more group: its operations follow if it is in the log... */
  lemma LogGrows(gs: seq<Group>, n: nat)
    requires 0 < n <= |gs|
    ensures OpsOfLog(LogOf(gs, n)) == OpsOfLog(LogOf(gs, n - 1)) + if gs[n - 1].logged then gs[n - 1].ops else []
  {
    hide OpsOfLog;
    var g := gs[n - 1];
    OpsOfLogAppend(LogOf(gs, n - 1), Record(g.base, g.ops));
    assert LogOf(gs, n - 1) + [] == LogOf(gs, n - 1);
  }

  /** ...and so do those of its threads. */
  lemma LoggedThreadsGrow(ts: seq<Thread>, gs: seq<Group>, n: nat, before: set<nat>, lo: nat)
    requires 0 < n <= |gs| && gs[n - 1].first == lo && lo + gs[n - 1].n <= |ts|
    requires before == LoggedThreads(gs, n - 1) && forall id :: id in before ==> id < lo
    ensures forall id :: id in LoggedThreads(gs, n) ==> id < lo + gs[n - 1].n
    ensures OpsOfSome(ts, LoggedThreads(gs, n), lo + gs[n - 1].n)
            == OpsOfSome(ts, before, lo) + if gs[n - 1].logged then MemberOps(ts, lo, lo + gs[n - 1].n) else []
  {
    hide MemberOps, OpsOfSome;
    OpsOfMore(ts, before, lo, gs[n - 1].n, lo + gs[n - 1].n);
    assert before + {} == before;
  }

  lemma {:induction false} LoggedOps(s: State, n: nat)
    requires Inv(s) && n <= |s.groups|
    ensures EndAt(s.groups, n) <= |s.threads|
    ensures forall id :: id in LoggedThreads(s.groups, n) ==> id < EndAt(s.groups, n)
    ensures OpsOfLog(LogOf(s.groups, n)) == OpsOfSome(s.threads, LoggedThreads(s.groups, n), EndAt(s.groups, n))
  {
    hide Inv, MemberOps, OpsOfSome, OpsOfLog, LogOf, GroupInv;
    if n == 0 {
      NoneLogged(s.threads, s.groups);
    } else {
      LoggedOps(s, n - 1);
      GroupAt(s, n - 1);
      GroupSpan(s, s.groups[n - 1]);
      LogGrows(s.groups, n);
      LoggedThreadsGrow(s.threads, s.groups, n, LoggedThreads(s.groups, n - 1), s.groups[n - 1].first);
    }
  }

  lemma GroupSpan(s: State, g: Group)
    requires QueueInv(s) && GroupInv(s, g)
    ensures g.first + g.n <= |s.threads|
    ensures g.logged ==> g.ops == MemberOps(s.threads, g.first, g.first + g.n)
  {
    hide MemberOps, Durable, SyncRule;
  }

  lemma {:induction false} NoneLogged(ts: seq<Thread>, gs: seq<Group>)
    ensures OpsOfSome(ts, {}, 0) == OpsOfLog(LogOf(gs, 0))
  {
  }

  lemma {:induction false} SuccessfulAreLogged(s: State, n: nat, id: nat)
    requires Inv(s) && n <= |s.groups| && id < EndAt(s.groups, n) <= |s.threads|
    requires s.threads[id].ok && s.threads[id].w.batch.Some?
    ensures id in LoggedThreads(s.groups, n)
  {
    hide Inv, MemberOps, Durable, SyncRule;
    GroupAt(s, n - 1);
    if id < s.groups[n - 1].first {
      SuccessfulAreLogged(s, n - 1, id);
    }
  }

  /** Batches reach the log in queue order, each once and whole: the log holds the operations of the threads in
      `logged`, in order of arrival. Every call with a batch that succeeds is among them; one that fails may be,
      since a failed append or sync may leave the record behind. */
  lemma LoggedInQueueOrder(s: State) returns (logged: set<nat>)
    requires Inv(s)
    ensures var leading := s.commit.Some? && s.commit.value.logged;
      && var end := Retired(s) + if leading then s.commit.value.n else 0;
      && end <= |s.threads| && OpsOfLog(s.log) == OpsOfSome(s.threads, logged, end)
      && (leading ==> Span(Retired(s), s.commit.value.n) <= logged)
    ensures forall id :: 0 <= id < Retired(s) && s.threads[id].ok && s.threads[id].w.batch.Some? ==> id in logged
  {
    hide GroupInv, GroupsInv, ThreadsInv, LogOf, Applied, MemberOps, OpsOfSome, OpsOfLog, LoggedThreads, Durable, SyncRule;
    var k := |s.groups|;
    LastBoundsOf(s);
    LoggedOps(s, k);
    logged := LoggedThreads(s.groups, k);
    forall id | 0 <= id < Retired(s) && s.threads[id].ok && s.threads[id].w.batch.Some?
      ensures id in LoggedThreads(s.groups, k)
    {
      SuccessfulAreLogged(s, k, id);
    }
    if s.commit.Some? && s.commit.value.logged {
      var c := s.commit.value;
      OpsOfMore(s.threads, logged, Retired(s), c.n, Retired(s) + c.n);
      OpsOfLogAppend(LogOf(s.groups, k), Record(c.last + 1, c.ops));
      logged := logged + Span(Retired(s), c.n);
    } else {
      assert s.log == LogOf(s.groups, k);
    }
  }

  /** Nothing succeeds any more: the failed commit is still there, or its error is recorded; no group that left the
      queue after `before` is ok. */
  ghost predicate Failing(s: State, before: seq<Group>) {
    && before <= s.groups
    && (forall i :: |before| <= i < |s.groups| ==> !s.groups[i].ok)
    && if s.commit.Some? then s.commit.value.stage == Failed(true) else s.bgError
  }

  lemma FailingStays(s: State, s': State, before: seq<Group>)
    requires Failing(s, before) && Inv(s) && Next(s, s')
    ensures Failing(s', before)
  {
    hide GroupsInv, FilesInv, Retire, IsGroup, GroupOps;
    if s.commit.Some? {
      HeadLeads(s);
    }
  }

  lemma HeadLeads(s: State)
    requires Inv(s) && s.commit.Some?
    ensures HeadIs(s, Committing)
  {
    hide FilesInv, GroupsInv, MemberOps, SyncRule;
    assert s.writers[0] == Retired(s) + 0;
  }

  lemma {:induction false} FailingFrom(run: seq<State>, i: nat, j: nat, before: seq<Group>)
    requires IsRun(run) && i <= j < |run| && Failing(run[i], before)
    ensures Failing(run[j], before)
    decreases j
  {
    hide Next, Init, Inv, Failing;
    if i < j {
      FailingFrom(run, i, j - 1, before);
      RunsAreSafe(run, j - 1);
      assert Next(run[j - 1], run[j - 1 + 1]);
      FailingStays(run[j - 1], run[j], before);
    }
  }

  lemma {:induction false} EndsGrow(s: State, i: nat, j: nat)
    requires Inv(s) && i <= j <= |s.groups|
    ensures EndAt(s.groups, i) <= EndAt(s.groups, j)
    decreases j
  {
    hide Inv, GroupInv, SequenceAt;
    if i < j {
      EndsGrow(s, i, j - 1);
      GroupAt(s, j - 1);
    }
  }

  /** A call that left the queue after the groups in `before` did not succeed. */
  lemma LaterCallsFail(s: State, before: seq<Group>, id: nat)
    requires Inv(s) && Failing(s, before) && EndAt(before, |before|) <= id < Retired(s)
    ensures !s.threads[id].ok
  {
    hide FilesInv, CommitInv, ThreadsInv, GroupsInv, Durable, MemberOps, SyncRule;
    LastBoundsOf(s);
    var k := GroupOf(s, id, |s.groups|);
    GroupAt(s, k);
    assert EndAt(s.groups, |before|) == EndAt(before, |before|);
    if k < |before| {
      EndsGrow(s, k + 1, |before|);
    }
  }

  /** Once a sync fails, no call that was not back before ever succeeds: neither those of its group nor later ones. */
  lemma NothingSucceedsAfterFailedSync(run: seq<State>, i: nat, j: nat)
    requires IsRun(run) && i < j < |run| && SyncLog(run[i], run[i + 1], false)
    ensures |run[i].groups| <= |run[j].groups|
    ensures forall k :: |run[i].groups| <= k < |run[j].groups| ==> !run[j].groups[k].ok
    ensures QueueInv(run[i]) && QueueInv(run[j])
    ensures forall id :: Retired(run[i]) <= id < Retired(run[j]) ==> !run[j].threads[id].ok
  {
    hide Next, Init, Inv, GroupsInv, FilesInv, EndAt;
    RunsAreSafe(run, i);
    RunsAreSafe(run, j);
    QueueOf(run[i]);
    QueueOf(run[j]);
    LastBoundsOf(run[i]);
    FailingFrom(run, i + 1, j, run[i].groups);
    forall id | Retired(run[i]) <= id < Retired(run[j])
      ensures !run[j].threads[id].ok
    {
      LaterCallsFail(run[j], run[i].groups, id);
    }
  }

  lemma QueueOf(s: State)
    requires Inv(s)
    ensures QueueInv(s)
  {
  }

  /** An error is recorded, and groups that were not begun by then fail: those from number `m` on. The log that was in
      use stays. */
  ghost predicate Stopped(s: State, m: nat, fileStart: nat) {
    && s.bgError && s.fileStart == fileStart && (forall k :: m <= k < |s.groups| ==> !s.groups[k].ok)
    && (if s.commit.Some? then |s.groups| + 1 == m else m <= |s.groups|)
  }

  lemma StoppedStays(s: State, s': State, m: nat, fileStart: nat)
    requires Stopped(s, m, fileStart) && Next(s, s')
    ensures Stopped(s', m, fileStart)
  {
    hide Retire, IsGroup, GroupOps;
  }

  /** Once a background error is recorded, the group under way may still succeed, and no other ever does; no new log is
      begun. */
  lemma {:induction false} NothingSucceedsAfterError(run: seq<State>, i: nat, j: nat)
    requires IsRun(run) && i <= j < |run| && run[i].bgError
    ensures var m := |run[i].groups| + if run[i].commit.Some? then 1 else 0;
      run[j].bgError && run[j].fileStart == run[i].fileStart && forall k :: m <= k < |run[j].groups| ==> !run[j].groups[k].ok
    ensures Stopped(run[j], |run[i].groups| + if run[i].commit.Some? then 1 else 0, run[i].fileStart)
    decreases j
  {
    hide Next, Init;
    if i < j {
      NothingSucceedsAfterError(run, i, j - 1);
      assert Next(run[j - 1], run[j - 1 + 1]);
      StoppedStays(run[j - 1], run[j], |run[i].groups| + (if run[i].commit.Some? then 1 else 0), run[i].fileStart);
    }
  }

  /** A failed append, unlike a failed sync, fails its group only. */
  lemma ErrorsComeFromSyncs(s: State, s': State)
    requires Next(s, s') && !s.bgError && s'.bgError
    ensures BackgroundError(s, s') || (Publish(s, s') && s.commit.Some? && s.commit.value.stage == Failed(true))
  {
    hide Retire, IsGroup, GroupOps;
  }

  /** Two steps: an append that fails, and the leader's return. */
  lemma FailedAppendIsForgotten(s: State, s1: State, s2: State, there: bool)
    requires AppendRecord(s, s1, false, there) && Publish(s1, s2)
    ensures s2.bgError == s.bgError
  {
    hide Retire;
  }

  /** A thread is signalled when it leaves the queue as a follower, or comes to the head of it; nobody else signals. */
  lemma SignalsComeFromLeaders(s: State, s': State, id: nat)
    requires Inv(s) && Next(s, s') && id < |s'.threads| && s'.threads[id].pc == Waiting(true)
    requires id >= |s.threads| || s.threads[id].pc != Waiting(true)
    ensures Publish(s, s') || exists room :: Skip(s, s', room)
    ensures s'.threads[id].done || (s'.writers != [] && s'.writers[0] == id)
  {
    hide FilesInv, GroupsInv, CommitInv, IsGroup, GroupOps;
  }

  /** Waking uses up the signal. */
  lemma WakingUsesTheSignal(s: State, s': State, id: nat)
    requires Wake(s, s', id)
    ensures s'.threads[id].pc == if s.threads[id].done then Returned else if s.writers[0] == id then Running else Waiting(false)
  {
  }

  // ----- what counts as synced -----

  lemma FileStartGrows(s: State, s': State)
    requires Inv(s) && Next(s, s')
    ensures s.fileStart <= s'.fileStart && (SwitchLog(s, s') ==> |s.log| <= s'.fileStart)
  {
    hide GroupsInv, CommitInv, ThreadsInv, Retire, IsGroup, GroupOps, Applied, Numbered;
  }

  lemma {:induction false} SwitchesBefore(run: seq<State>, m: nat, n: nat)
    requires IsRun(run) && m < n < |run| && SwitchLog(run[m], run[m + 1])
    ensures |run[m].log| <= run[n].fileStart
    decreases n
  {
    hide Next, Init, Inv, SwitchLog;
    RunsAreSafe(run, n - 1);
    assert Next(run[n - 1], run[n - 1 + 1]);
    FileStartGrows(run[n - 1], run[n]);
    if m < n - 1 {
      SwitchesBefore(run, m, n - 1);
    }
  }

  lemma NewlySynced(s: State, s': State, r: nat)
    requires Next(s, s') && r in s'.synced && r !in s.synced
    ensures SyncLog(s, s', true) && s.fileStart <= r < |s.log|
  {
    hide Retire, IsGroup, GroupOps;
  }

  /** A log record counts as synced only if a sync succeeded after it was appended, and before the log file was
      switched. */
  lemma {:induction false} SyncedMeansSynced(run: seq<State>, j: nat, r: nat) returns (n: nat)
    requires IsRun(run) && j < |run| && r in run[j].synced
    ensures n < j && SyncLog(run[n], run[n + 1], true) && r < |run[n].log|
    ensures forall m :: 0 <= m < n && SwitchLog(run[m], run[m + 1]) ==> |run[m].log| <= r
  {
    hide Next, SyncLog, SwitchLog;
    assert Next(run[j - 1], run[j - 1 + 1]);
    if r in run[j - 1].synced {
      n := SyncedMeansSynced(run, j - 1, r);
    } else {
      n := j - 1;
      NewlySynced(run[n], run[j], r);
      forall m | 0 <= m < n && SwitchLog(run[m], run[m + 1])
        ensures |run[m].log| <= r
      {
        SwitchesBefore(run, m, n);
      }
    }
  }

  // ----- waking up -----

  ghost predicate Awake(t: Thread) {
    t.pc.Running? || t.pc.Committing? || t.pc == Waiting(true)
  }

  /** No wakeup is lost: a thread is back from its call, or running, or told that it is done, or waits behind
      a head that is running or signalled. */
  lemma NobodyIsForgotten(s: State, id: nat)
    requires Inv(s) && id < |s.threads|
    ensures var t := s.threads[id];
      || t.pc.Returned? || Awake(t)
      || (t.pc.Waiting? && s.writers != [] && s.writers[0] < id && Awake(s.threads[s.writers[0]]))
  {
    hide FilesInv, CommitInv, GroupsInv;
    if id >= Retired(s) {
      assert s.writers[0] == Retired(s) + 0;
    }
  }

  /** A leader is never stuck in the part it runs without the mutex, and when it is done its group leaves. */
  lemma LeaderCanGoOn(s: State) returns (s': State)
    requires Inv(s) && s.commit.Some?
    ensures Next(s, s')
    ensures s'.commit.Some? || |s'.writers| == |s.writers| - s.commit.value.n
  {
    hide FilesInv, GroupsInv;
    var c := s.commit.value;
    assert s.writers[0] == Retired(s) + 0;
    match c.stage
    case Logging =>
      s' := s.(log := s.log + [Record(c.last + 1, c.ops)],
               commit := Some(c.(logged := true, stage := if s.threads[s.writers[0]].w.sync then Syncing else Inserting)));
      assert AppendRecord(s, s', true, true);
    case Syncing =>
      s' := s.(commit := Some(c.(stage := Failed(true))));
      assert SyncLog(s, s', false);
    case Inserting =>
      if c.inserted < |c.ops| {
        s' := s.(mem := s.mem + [(c.last + 1 + c.inserted, c.ops[c.inserted])],
                 commit := Some(c.(inserted := c.inserted + 1)));
        assert InsertOne(s, s');
      } else {
        s' := Published(s);
      }
    case Failed(_) =>
      s' := Published(s);
  }

  lemma Published(s: State) returns (s': State)
    requires Inv(s) && s.commit.Some?
    requires s.commit.value.stage.Failed?
      || (s.commit.value.stage.Inserting? && s.commit.value.inserted == |s.commit.value.ops|)
    ensures Publish(s, s') && |s'.writers| == |s.writers| - s.commit.value.n
  {
    hide FilesInv, GroupsInv, Durable, MemberOps, SyncRule;
    var c := s.commit.value;
    var ok := c.stage.Inserting?;
    assert s.writers[0] == Retired(s) + 0;
    var ts := seq(|s.threads|, id requires 0 <= id < |s.threads| =>
      if id == s.writers[0] then s.threads[id].(pc := Returned, ok := ok)
      else if id in s.writers[..c.n] then s.threads[id].(pc := Waiting(true), done := true, ok := ok)
      else if c.n < |s.writers| && id == s.writers[c.n] && s.threads[id].pc.Waiting?
        then s.threads[id].(pc := Waiting(true))
      else s.threads[id]);
    s' := s.(threads := ts, writers := s.writers[c.n..], commit := None, lastSequence := c.last + |c.ops|,
             bgError := s.bgError || (c.stage.Failed? && c.stage.syncError),
             groups := s.groups + [Group(s.writers[0], c.n, c.last + 1, c.ops, c.logged, ok)]);
  }
}
