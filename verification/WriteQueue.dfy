/** DBImpl::Write as a transition system. Many threads queue up; the one at the head of the queue writes for
    a group of them, without the mutex, and then wakes them. A step is what one thread does while it holds the
    mutex, or one effect of the leader while it does not. */
module WriteQueue {
  import opened Bytes
  import opened BatchGroup

  // ----- state -----

  /** Waiting on the thread's condition variable; in MakeRoomForWrite; leading a group; back from the call. */
  datatype Pc = Waiting(signalled: bool) | Running | Committing | Returned

  datatype Thread = Thread(w: Writer, pc: Pc, done: bool, ok: bool)

  datatype Stage = Logging | Syncing | Inserting | Failed(syncError: bool)

  /** What the leader of `n` writers is doing; `last` is the last sequence number before its group. */
  datatype Commit = Commit(n: nat, last: nat, ops: seq<Op>, stage: Stage, logged: bool, inserted: nat)

  datatype Record = Record(base: nat, ops: seq<Op>)

  /** Writers that left the queue together: those from `first` on, `n` of them. For the specification only. */
  datatype Group = Group(first: nat, n: nat, base: nat, ops: seq<Op>, logged: bool, ok: bool)

  /** Threads are numbered by arrival. Log records and memtable entries are kept across log switches;
      `fileStart` is where the log file in use begins. */
  datatype State = State(
    threads: seq<Thread>,
    writers: seq<nat>,
    commit: Option<Commit>,
    log: seq<Record>,
    fileStart: nat,
    synced: set<nat>,
    mem: seq<(nat, Op)>,
    lastSequence: nat,
    bgError: bool,
    groups: seq<Group>)

  ghost predicate Init(s: State) {
    s == State([], [], None, [], 0, {}, [], 0, false, [])
  }

  // ----- steps -----

  ghost predicate Arrive(s: State, s': State, w: Writer) {
    s' == s.(threads := s.threads + [Thread(w, if s.writers == [] then Running else Waiting(false), false, false)],
             writers := s.writers + [|s.threads|])
  }

  /** A waiting thread wakes, signalled or not, and looks whether it is done or at the head. */
  ghost predicate Wake(s: State, s': State, id: nat) {
    && id < |s.threads| && s.threads[id].pc.Waiting? && (s.threads[id].done || s.writers != [])
    && s' == s.(threads := s.threads[id := s.threads[id].(
         pc := if s.threads[id].done then Returned
               else if s.writers[0] == id then Running else Waiting(false))])
  }

  ghost predicate HeadIs(s: State, pc: Pc) {
    && s.writers != [] && s.writers[0] < |s.threads| && s.threads[s.writers[0]].pc == pc
  }

  /** MakeRoomForWrite starts a new log file and memtable. */
  ghost predicate SwitchLog(s: State, s': State) {
    && HeadIs(s, Running) && !s.bgError
    && s' == s.(fileStart := |s.log|)
  }

  ghost predicate BackgroundError(s: State, s': State) {
    s' == s.(bgError := true)
  }

  /** The first `n` writers leave the queue, the leader last of all; the others and the new head are signalled. */
  ghost predicate Retire(s: State, s': State, n: nat, ok: bool) {
    && 0 < n <= |s.writers| && |s'.threads| == |s.threads| && s'.writers == s.writers[n..]
    && forall id :: 0 <= id < |s.threads| ==>
         s'.threads[id] ==
           if id == s.writers[0] then s.threads[id].(pc := Returned, ok := ok)
           else if id in s.writers[..n] then s.threads[id].(pc := Waiting(true), done := true, ok := ok)
           else if n < |s.writers| && id == s.writers[n] && s.threads[id].pc.Waiting?
             then s.threads[id].(pc := Waiting(true))
           else s.threads[id]
  }

  /** No room, or a null batch: nothing is written, and the head alone leaves. */
  ghost predicate Skip(s: State, s': State, room: bool) {
    && HeadIs(s, Running) && s.commit.None?
    && (room ==> s.threads[s.writers[0]].w.batch.None?) && (!s.bgError || !room)
    && Retire(s, s', 1, room)
    && s' == s.(threads := s'.threads, writers := s'.writers,
                groups := s.groups + [Group(s.writers[0], 1, s.lastSequence + 1, [], false, room)])
  }

  ghost function Queue(s: State): (ws: seq<Writer>)
    requires forall i :: 0 <= i < |s.writers| ==> s.writers[i] < |s.threads|
    ensures |ws| == |s.writers|
  {
    seq(|s.writers|, i requires 0 <= i < |s.writers| => s.threads[s.writers[i]].w)
  }

  ghost predicate StartCommit(s: State, s': State, n: nat) {
    && HeadIs(s, Running) && s.commit.None? && !s.bgError
    && (forall i :: 0 <= i < |s.writers| ==> s.writers[i] < |s.threads|)
    && IsGroup(Queue(s), n)
    && s' == s.(threads := s.threads[s.writers[0] := s.threads[s.writers[0]].(pc := Committing)],
                commit := Some(Commit(n, s.lastSequence, GroupOps(Queue(s), n), Logging, false, 0)))
  }

  ghost predicate Stage?(s: State, stage: Stage) {
    HeadIs(s, Committing) && s.commit.Some? && s.commit.value.stage == stage
  }

  /** A failed append may have left the record in the log. */
  ghost predicate AppendRecord(s: State, s': State, ok: bool, there: bool) {
    && Stage?(s, Logging) && (ok ==> there)
    && var c := s.commit.value;
    && s' == s.(log := if there then s.log + [Record(c.last + 1, c.ops)] else s.log,
                commit := Some(c.(logged := there,
                                  stage := if !ok then Failed(false)
                                           else if s.threads[s.writers[0]].w.sync then Syncing else Inserting)))
  }

  /** Syncing makes the records of the log file in use durable. */
  ghost predicate SyncLog(s: State, s': State, ok: bool) {
    && Stage?(s, Syncing)
    && var c := s.commit.value;
    && (if ok then forall i: nat :: i in s'.synced <==> i in s.synced || s.fileStart <= i < |s.log|
        else s'.synced == s.synced)
    && s' == s.(synced := s'.synced, commit := Some(c.(stage := if ok then Inserting else Failed(true))))
  }

  ghost predicate InsertOne(s: State, s': State) {
    && Stage?(s, Inserting) && s.commit.value.inserted < |s.commit.value.ops|
    && var c := s.commit.value;
    && s' == s.(mem := s.mem + [(c.last + 1 + c.inserted, c.ops[c.inserted])],
                commit := Some(c.(inserted := c.inserted + 1)))
  }

  /** Back under the mutex: the sequence numbers are published and the group leaves the queue. */
  ghost predicate Publish(s: State, s': State) {
    && HeadIs(s, Committing) && s.commit.Some?
    && var c := s.commit.value;
    && var ok := c.stage.Inserting? && c.inserted == |c.ops|;
    && (ok || c.stage.Failed?)
    && Retire(s, s', c.n, ok)
    && s' == s.(threads := s'.threads, writers := s'.writers, commit := None,
                lastSequence := c.last + |c.ops|,
                bgError := s.bgError || (c.stage.Failed? && c.stage.syncError),
                groups := s.groups + [Group(s.writers[0], c.n, c.last + 1, c.ops, c.logged, ok)])
  }

  ghost predicate Next(s: State, s': State) {
    || (exists w :: Arrive(s, s', w)) || (exists id: nat :: Wake(s, s', id))
    || SwitchLog(s, s') || BackgroundError(s, s') || (exists room :: Skip(s, s', room))
    || (exists n: nat :: StartCommit(s, s', n)) || (exists ok, there :: AppendRecord(s, s', ok, there))
    || (exists ok :: SyncLog(s, s', ok)) || InsertOne(s, s') || Publish(s, s')
  }

  ghost predicate IsRun(run: seq<State>) {
    run != [] && Init(run[0]) && forall i :: 0 <= i < |run| - 1 ==> Next(run[i], run[i + 1])
  }

  // ----- the invariant -----

  /** The operations of the threads from `lo` to `hi`, in order of arrival. */
  ghost function MemberOps(ts: seq<Thread>, lo: nat, hi: nat): seq<Op>
    requires lo <= hi <= |ts|
  {
    if lo == hi then [] else MemberOps(ts, lo, hi - 1) + OpsOf(ts[hi - 1].w)
  }

  ghost function Numbered(base: nat, ops: seq<Op>): (r: seq<(nat, Op)>)
    ensures |r| == |ops|
  {
    seq(|ops|, i requires 0 <= i < |ops| => (base + i, ops[i]))
  }

  ghost function EndAt(gs: seq<Group>, i: nat): nat
    requires i <= |gs|
  {
    if i == 0 then 0 else gs[i - 1].first + gs[i - 1].n
  }

  /** The last sequence number that the first `i` groups used. */
  ghost function SequenceAt(gs: seq<Group>, i: nat): int
    requires i <= |gs|
  {
    if i == 0 then 0 else gs[i - 1].base + |gs[i - 1].ops| - 1
  }

  /** What the first `n` groups left in the log, and in the memtable. */
  ghost function LogOf(gs: seq<Group>, n: nat): seq<Record>
    requires n <= |gs|
  {
    if n == 0 then []
    else LogOf(gs, n - 1) + if gs[n - 1].logged then [Record(gs[n - 1].base, gs[n - 1].ops)] else []
  }

  ghost function Applied(gs: seq<Group>, n: nat): seq<(nat, Op)>
    requires n <= |gs|
  {
    if n == 0 then []
    else Applied(gs, n - 1) + if gs[n - 1].ok then Numbered(gs[n - 1].base, gs[n - 1].ops) else []
  }

  /** The number of threads that have left the queue. */
  ghost function Retired(s: State): nat
    requires |s.writers| <= |s.threads|
  {
    |s.threads| - |s.writers|
  }

  /** The queue holds the last threads that arrived, in order of arrival. */
  ghost predicate QueueInv(s: State) {
    && |s.writers| <= |s.threads|
    && forall i :: 0 <= i < |s.writers| ==> s.writers[i] == Retired(s) + i
  }

  /** Who has left the queue is back or signalled; the head is running or signalled; the others wait. */
  ghost predicate ThreadsInv(s: State)
    requires QueueInv(s)
  {
    && (forall id :: 0 <= id < Retired(s) ==> s.threads[id].pc.Returned? || (s.threads[id].done && s.threads[id].pc == Waiting(true)))
    && (forall id :: Retired(s) < id < |s.threads| ==> !s.threads[id].done && s.threads[id].pc.Waiting?)
    && (s.commit.Some? ==> s.writers != [])
    && (s.writers != [] ==>
          && var head := s.threads[Retired(s)];
          && !head.done
          && if s.commit.Some? then head.pc == Committing else head.pc == Running || head.pc == Waiting(true))
  }

  ghost predicate SyncRule(ts: seq<Thread>, lo: nat, n: nat)
    requires lo + n <= |ts|
  {
    forall id :: lo <= id < lo + n && ts[id].w.sync ==> ts[lo].w.sync
  }

  ghost predicate Durable(s: State, r: Record) {
    exists i: nat :: i in s.synced && i < |s.log| && s.log[i] == r
  }

  ghost predicate CommitInv(s: State)
    requires QueueInv(s)
  {
    s.commit.Some? ==>
      && var c, lo := s.commit.value, Retired(s);
      && 0 < c.n <= |s.writers| && c.last == s.lastSequence && c.inserted <= |c.ops|
      && s.threads[lo].w.batch.Some? && c.ops == MemberOps(s.threads, lo, lo + c.n) && SyncRule(s.threads, lo, c.n)
      && (!c.stage.Inserting? ==> c.inserted == 0)
      && (c.stage.Logging? ==> !c.logged)
      && (c.stage.Syncing? || c.stage.Inserting? ==> c.logged)
      && (c.stage.Inserting? && s.threads[lo].w.sync ==> Durable(s, Record(c.last + 1, c.ops)))
  }

  ghost predicate GroupInv(s: State, g: Group)
    requires QueueInv(s)
  {
    && 0 < g.n && g.first + g.n <= Retired(s)
    && (forall id :: g.first <= id < g.first + g.n ==> s.threads[id].ok == g.ok)
    && SyncRule(s.threads, g.first, g.n)
    && (g.ok && !g.logged ==> g.n == 1)
    && (g.ok || g.logged ==> g.ops == MemberOps(s.threads, g.first, g.first + g.n))
    && (g.ok ==> (g.logged <==> s.threads[g.first].w.batch.Some?))
    && (g.ok && g.logged && s.threads[g.first].w.sync ==> Durable(s, Record(g.base, g.ops)))
  }

  ghost predicate GroupsInv(s: State)
    requires QueueInv(s)
  {
    && (forall i :: 0 <= i < |s.groups| ==>
          GroupInv(s, s.groups[i]) && s.groups[i].first == EndAt(s.groups, i)
          && s.groups[i].base == SequenceAt(s.groups, i) + 1)
    && EndAt(s.groups, |s.groups|) == Retired(s)
    && SequenceAt(s.groups, |s.groups|) == s.lastSequence
  }

  ghost predicate FilesInv(s: State) {
    && s.log == LogOf(s.groups, |s.groups|)
                + (if s.commit.Some? && s.commit.value.logged
                   then [Record(s.commit.value.last + 1, s.commit.value.ops)] else [])
    && (s.commit.Some? ==> s.commit.value.inserted <= |s.commit.value.ops|)
    && s.mem == Applied(s.groups, |s.groups|)
                + (if s.commit.Some?
                   then Numbered(s.commit.value.last + 1, s.commit.value.ops[..s.commit.value.inserted]) else [])
    && s.fileStart <= |LogOf(s.groups, |s.groups|)|
    && forall i :: i in s.synced ==> i < |s.log|
  }

  ghost predicate Inv(s: State) {
    QueueInv(s) && ThreadsInv(s) && CommitInv(s) && GroupsInv(s) && FilesInv(s)
  }

  // ----- frames -----

  lemma {:induction false} SameMembers(ts: seq<Thread>, ts': seq<Thread>, lo: nat, hi: nat)
    requires lo <= hi <= |ts| && hi <= |ts'| && forall id :: lo <= id < hi ==> ts'[id].w == ts[id].w
    ensures MemberOps(ts', lo, hi) == MemberOps(ts, lo, hi)
    decreases hi
  {
    if lo < hi {
      SameMembers(ts, ts', lo, hi - 1);
    }
  }

  ghost predicate Extends(s: State, s': State) {
    && |s.threads| <= |s'.threads| && (forall id :: 0 <= id < |s.threads| ==> s'.threads[id].w == s.threads[id].w)
    && s.log <= s'.log && s.synced <= s'.synced
  }

  lemma DurableStays(s: State, s': State, r: Record)
    requires s.log <= s'.log && s.synced <= s'.synced && Durable(s, r)
    ensures Durable(s', r)
  {
    var i: nat :| i in s.synced && i < |s.log| && s.log[i] == r;
    assert s'.log[i] == r;
  }

  lemma GroupFrame(s: State, s': State, g: Group)
    requires QueueInv(s) && QueueInv(s') && GroupInv(s, g) && Extends(s, s') && Retired(s) <= Retired(s')
    requires forall id :: 0 <= id < Retired(s) ==> s'.threads[id].ok == s.threads[id].ok
    ensures GroupInv(s', g)
  {
    hide Durable;
    SameMembers(s.threads, s'.threads, g.first, g.first + g.n);
    if Durable(s, Record(g.base, g.ops)) {
      DurableStays(s, s', Record(g.base, g.ops));
    }
  }

  lemma GroupsFrame(s: State, s': State)
    requires QueueInv(s) && QueueInv(s') && GroupsInv(s) && Extends(s, s') && Retired(s) == Retired(s')
    requires forall id :: 0 <= id < Retired(s) ==> s'.threads[id].ok == s.threads[id].ok
    requires s'.groups == s.groups && s'.lastSequence == s.lastSequence
    ensures GroupsInv(s')
  {
    hide GroupInv;
    forall i | 0 <= i < |s.groups|
      ensures GroupInv(s', s'.groups[i])
    {
      GroupFrame(s, s', s.groups[i]);
    }
  }

  // ----- every step keeps the invariant -----

  lemma ArriveKeeps(s: State, s': State, w: Writer)
    requires Inv(s) && Arrive(s, s', w)
    ensures Inv(s')
  {
    hide GroupsInv, FilesInv, CommitInv;
    GroupsFrame(s, s');
    FilesFrame(s, s');
    CommitFrame(s, s');
  }

  lemma FilesFrame(s: State, s': State)
    requires FilesInv(s) && s'.log == s.log && s'.mem == s.mem && s'.groups == s.groups && s'.commit == s.commit
    requires s'.fileStart == s.fileStart && s'.synced == s.synced
    ensures FilesInv(s')
  {
  }

  lemma CommitFrame(s: State, s': State)
    requires QueueInv(s) && QueueInv(s') && CommitInv(s) && Extends(s, s') && Retired(s') == Retired(s)
    requires s'.commit == s.commit && s'.lastSequence == s.lastSequence
    ensures CommitInv(s')
  {
    hide Durable;
    if s.commit.Some? {
      var c := s.commit.value;
      SameMembers(s.threads, s'.threads, Retired(s), Retired(s) + c.n);
      if Durable(s, Record(c.last + 1, c.ops)) {
        DurableStays(s, s', Record(c.last + 1, c.ops));
      }
    }
  }

  lemma WakeKeeps(s: State, s': State, id: nat)
    requires Inv(s) && Wake(s, s', id)
    ensures Inv(s')
  {
    hide GroupsInv, FilesInv, CommitInv;
    GroupsFrame(s, s');
    FilesFrame(s, s');
    CommitFrame(s, s');
  }

  lemma SwitchLogKeeps(s: State, s': State)
    requires Inv(s) && SwitchLog(s, s')
    ensures Inv(s')
  {
    hide GroupsInv;
    GroupsFrame(s, s');
  }

  lemma BackgroundErrorKeeps(s: State, s': State)
    requires Inv(s) && BackgroundError(s, s')
    ensures Inv(s')
  {
    hide GroupsInv, FilesInv;
    GroupsFrame(s, s');
    FilesFrame(s, s');
  }

  /** The batch of a group is the operations of its threads. */
  lemma {:induction false} QueueOps(s: State, n: nat)
    requires QueueInv(s) && n <= |s.writers|
    ensures GroupOps(Queue(s), n) == MemberOps(s.threads, Retired(s), Retired(s) + n)
    decreases n
  {
    if n > 0 {
      QueueOps(s, n - 1);
      assert Queue(s)[n - 1] == s.threads[Retired(s) + n - 1].w;
    }
  }

  lemma QueueSync(s: State, n: nat)
    requires QueueInv(s) && IsGroup(Queue(s), n)
    ensures SyncRule(s.threads, Retired(s), n)
  {
    GroupIsSound(Queue(s), n, n);
    forall id | Retired(s) <= id < Retired(s) + n && s.threads[id].w.sync
      ensures s.threads[Retired(s)].w.sync
    {
      assert Queue(s)[id - Retired(s)] == s.threads[id].w;
      assert Queue(s)[0] == s.threads[Retired(s)].w;
    }
  }

  /** A group that is not yet in the log or memtable leaves both as they are. */
  lemma FilesStart(s: State, s': State)
    requires FilesInv(s) && s.commit.None? && s'.commit.Some?
    requires !s'.commit.value.logged && s'.commit.value.inserted == 0
    requires s'.log == s.log && s'.mem == s.mem && s'.groups == s.groups
    requires s'.fileStart == s.fileStart && s'.synced == s.synced
    ensures FilesInv(s')
  {
    assert Numbered(s'.commit.value.last + 1, s'.commit.value.ops[..0]) == [];
  }

  lemma StartCommitKeeps(s: State, s': State, n: nat)
    requires Inv(s) && StartCommit(s, s', n)
    ensures Inv(s')
  {
    hide GroupsInv, IsGroup, Durable, FilesInv, MemberOps, GroupOps, SyncRule;
    GroupsFrame(s, s');
    FilesStart(s, s');
    IsGroupBounds(Queue(s), n);
    QueueOps(s, n);
    QueueSync(s, n);
    assert Queue(s)[0] == s.threads[Retired(s)].w;
    SameMembers(s.threads, s'.threads, Retired(s), Retired(s) + n);
    SameSyncRule(s.threads, s'.threads, Retired(s), n);
  }

  lemma SameSyncRule(ts: seq<Thread>, ts': seq<Thread>, lo: nat, n: nat)
    requires 0 < n && lo + n <= |ts| && lo + n <= |ts'| && SyncRule(ts, lo, n)
    requires forall id :: lo <= id < lo + n ==> ts'[id].w == ts[id].w
    ensures SyncRule(ts', lo, n)
  {
  }

  lemma IsGroupBounds(ws: seq<Writer>, n: nat)
    requires IsGroup(ws, n)
    ensures 0 < n <= |ws| && ws[0].batch.Some?
  {
  }

  lemma AppendRecordKeeps(s: State, s': State, ok: bool, there: bool)
    requires Inv(s) && AppendRecord(s, s', ok, there)
    ensures Inv(s')
  {
    hide GroupsInv;
    GroupsFrame(s, s');
  }

  lemma SyncLogKeeps(s: State, s': State, ok: bool)
    requires Inv(s) && SyncLog(s, s', ok)
    ensures Inv(s')
  {
    hide GroupsInv;
    GroupsFrame(s, s');
    if ok {
      assert |s.log| - 1 in s'.synced;
    }
  }

  /** The entry inserted is the next one of the group. */
  lemma FilesInsert(s: State, s': State)
    requires FilesInv(s) && InsertOne(s, s')
    ensures FilesInv(s')
  {
    hide LogOf, Applied;
    var c := s.commit.value;
    assert Numbered(c.last + 1, c.ops[..c.inserted + 1])
        == Numbered(c.last + 1, c.ops[..c.inserted]) + [(c.last + 1 + c.inserted, c.ops[c.inserted])];
  }

  lemma CommitInsert(s: State, s': State)
    requires QueueInv(s) && QueueInv(s') && CommitInv(s) && InsertOne(s, s')
    ensures CommitInv(s')
  {
    hide MemberOps, SyncRule;
  }

  lemma InsertOneKeeps(s: State, s': State)
    requires Inv(s) && InsertOne(s, s')
    ensures Inv(s')
  {
    hide GroupsInv, FilesInv, CommitInv;
    GroupsFrame(s, s');
    FilesInsert(s, s');
    CommitInsert(s, s');
  }

  // ----- leaving the queue -----

  lemma RetireQueue(s: State, s': State, n: nat, ok: bool)
    requires QueueInv(s) && Retire(s, s', n, ok)
    ensures QueueInv(s') && Retired(s') == Retired(s) + n && |s'.threads| == |s.threads|
    ensures forall id :: 0 <= id < |s.threads| ==> s'.threads[id].w == s.threads[id].w
    ensures forall id :: 0 <= id < Retired(s) ==> s'.threads[id] == s.threads[id]
    ensures forall id :: Retired(s) <= id < Retired(s) + n ==> s'.threads[id].ok == ok
  {
    forall id | 0 <= id < |s.threads|
      ensures id in s.writers[..n] <==> Retired(s) <= id < Retired(s) + n
    {
      if Retired(s) <= id < Retired(s) + n {
        assert s.writers[..n][id - Retired(s)] == id;
      }
    }
  }

  lemma RetireThreads(s: State, s': State, n: nat, ok: bool)
    requires QueueInv(s) && ThreadsInv(s) && Retire(s, s', n, ok) && s'.commit.None?
    requires s.writers != [] && !s.threads[Retired(s)].pc.Waiting?
    ensures QueueInv(s') && ThreadsInv(s')
  {
    RetireQueue(s, s', n, ok);
    forall id | Retired(s) < id < Retired(s) + n
      ensures s'.threads[id].done && s'.threads[id].pc == Waiting(true)
    {
      assert s.writers[..n][id - Retired(s)] == id;
    }
  }

  lemma SameBounds(gs: seq<Group>, g: Group, i: nat)
    requires i <= |gs|
    ensures EndAt(gs + [g], i) == EndAt(gs, i) && SequenceAt(gs + [g], i) == SequenceAt(gs, i)
  {
  }

  lemma GroupsGrow(s: State, s': State, g: Group)
    requires QueueInv(s) && QueueInv(s') && GroupsInv(s) && Extends(s, s') && Retired(s') == Retired(s) + g.n
    requires forall id :: 0 <= id < Retired(s) ==> s'.threads[id].ok == s.threads[id].ok
    requires s'.groups == s.groups + [g] && GroupInv(s', g)
    requires g.first == Retired(s) && g.base == s.lastSequence + 1 && s'.lastSequence == s.lastSequence + |g.ops|
    ensures GroupsInv(s')
  {
    hide GroupInv, Extends, EndAt, SequenceAt, QueueInv;
    forall i | 0 <= i < |s'.groups|
      ensures GroupInv(s', s'.groups[i]) && s'.groups[i].first == EndAt(s'.groups, i)
      ensures s'.groups[i].base == SequenceAt(s'.groups, i) + 1
    {
      SameBounds(s.groups, g, i);
      if i < |s.groups| {
        GroupFrame(s, s', s.groups[i]);
      }
    }
    LastBounds(s.groups, g);
  }

  lemma LastBounds(gs: seq<Group>, g: Group)
    ensures EndAt(gs + [g], |gs| + 1) == g.first + g.n && SequenceAt(gs + [g], |gs| + 1) == g.base + |g.ops| - 1
  {
  }

  lemma {:induction false} SamePrefix(gs: seq<Group>, g: Group, n: nat)
    requires n <= |gs|
    ensures LogOf(gs + [g], n) == LogOf(gs, n) && Applied(gs + [g], n) == Applied(gs, n)
  {
    if n > 0 {
      SamePrefix(gs, g, n - 1);
    }
  }

  lemma SkipKeeps(s: State, s': State, room: bool)
    requires Inv(s) && Skip(s, s', room)
    ensures Inv(s')
  {
    hide GroupsInv, Retire, LogOf, Applied;
    var g := Group(s.writers[0], 1, s.lastSequence + 1, [], false, room);
    RetireQueue(s, s', 1, room);
    RetireThreads(s, s', 1, room);
    assert MemberOps(s'.threads, g.first, g.first) == [];
    GroupsGrow(s, s', g);
    LastGroup(s.groups, g);
  }

  lemma {:induction false} LastGroup(gs: seq<Group>, g: Group)
    ensures LogOf(gs + [g], |gs| + 1) == LogOf(gs, |gs|) + if g.logged then [Record(g.base, g.ops)] else []
    ensures Applied(gs + [g], |gs| + 1) == Applied(gs, |gs|) + if g.ok then Numbered(g.base, g.ops) else []
  {
    SamePrefix(gs, g, |gs|);
  }

  /** The group that leaves the queue, as the specification records it. */
  ghost function Leaving(s: State): Group
    requires s.commit.Some? && s.writers != []
  {
    var c := s.commit.value;
    Group(s.writers[0], c.n, c.last + 1, c.ops, c.logged, c.stage.Inserting?)
  }

  lemma LeavingGroup(s: State, s': State)
    requires Inv(s) && s.commit.Some?
    requires s'.log == s.log && s'.synced == s.synced
    requires Retire(s, s', s.commit.value.n, s.commit.value.stage.Inserting?)
    ensures QueueInv(s') && GroupInv(s', Leaving(s)) && Leaving(s).first == Retired(s)
  {
    hide GroupsInv, FilesInv, Retire, Durable;
    var c := s.commit.value;
    RetireQueue(s, s', c.n, c.stage.Inserting?);
    SameMembers(s.threads, s'.threads, Retired(s), Retired(s) + c.n);
    if Durable(s, Record(c.last + 1, c.ops)) {
      DurableStays(s, s', Record(c.last + 1, c.ops));
    }
  }

  /** What the group wrote is accounted to it when it leaves. */
  lemma FilesLeave(s: State, s': State)
    requires FilesInv(s) && s.commit.Some? && s.writers != [] && s'.commit.None?
    requires s.commit.value.stage.Inserting? ==> s.commit.value.inserted == |s.commit.value.ops|
    requires !s.commit.value.stage.Inserting? ==> s.commit.value.inserted == 0
    requires s'.log == s.log && s'.mem == s.mem && s'.groups == s.groups + [Leaving(s)]
    requires s'.fileStart == s.fileStart && s'.synced == s.synced
    ensures FilesInv(s')
  {
    hide LogOf, Applied;
    var c := s.commit.value;
    LastGroup(s.groups, Leaving(s));
    assert c.ops[..|c.ops|] == c.ops;
  }

  lemma PublishKeeps(s: State, s': State)
    requires Inv(s) && Publish(s, s')
    ensures Inv(s')
  {
    hide GroupsInv, FilesInv, Retire, GroupInv, MemberOps, Durable, SyncRule;
    var c := s.commit.value;
    RetireQueue(s, s', c.n, c.stage.Inserting?);
    RetireThreads(s, s', c.n, c.stage.Inserting?);
    LeavingGroup(s, s');
    GroupsGrow(s, s', Leaving(s));
    FilesLeave(s, s');
  }

  lemma NextKeeps(s: State, s': State)
    requires Inv(s) && Next(s, s')
    ensures Inv(s')
  {
    hide Inv;
    if w :| Arrive(s, s', w) { ArriveKeeps(s, s', w); }
    else if id: nat :| Wake(s, s', id) { WakeKeeps(s, s', id); }
    else if SwitchLog(s, s') { SwitchLogKeeps(s, s'); }
    else if BackgroundError(s, s') { BackgroundErrorKeeps(s, s'); }
    else if room :| Skip(s, s', room) { SkipKeeps(s, s', room); }
    else if n: nat :| StartCommit(s, s', n) { StartCommitKeeps(s, s', n); }
    else if ok, there :| AppendRecord(s, s', ok, there) { AppendRecordKeeps(s, s', ok, there); }
    else if ok :| SyncLog(s, s', ok) { SyncLogKeeps(s, s', ok); }
    else if InsertOne(s, s') { InsertOneKeeps(s, s'); }
    else { PublishKeeps(s, s'); }
  }

  lemma {:induction false} RunsAreSafe(run: seq<State>, i: nat)
    requires IsRun(run) && i < |run|
    ensures Inv(run[i])
  {
    hide Inv, Next;
    if i == 0 {
      InitKeeps(run[0]);
    } else {
      RunsAreSafe(run, i - 1);
      assert Next(run[i - 1], run[i - 1 + 1]);
      NextKeeps(run[i - 1], run[i]);
    }
  }

  lemma InitKeeps(s: State)
    requires Init(s)
    ensures Inv(s)
  {
  }
}
