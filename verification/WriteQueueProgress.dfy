/** That the write queue makes progress: what a group achieves when nothing fails, and that all calls can return. */
module WriteQueueProgress {
  import opened Bytes
  import opened BatchGroup
  import opened WriteQueue
  import opened WriteQueueProperties

  ghost predicate IsPath(path: seq<State>) {
    path != [] && forall i :: 0 <= i < |path| - 1 ==> Next(path[i], path[i + 1])
  }

  ghost predicate Leads(path: seq<State>, s: State, t: State) {
    IsPath(path) && path[0] == s && path[|path| - 1] == t
  }

  lemma OneStep(s: State, t: State)
    requires Next(s, t)
    ensures Leads([s, t], s, t)
  {
    hide Next;
  }

  lemma NoStep(s: State)
    ensures Leads([s], s, s)
  {
  }

  lemma Joined(a: seq<State>, b: seq<State>, s: State, t: State, u: State) returns (path: seq<State>)
    requires Leads(a, s, t) && Leads(b, t, u)
    ensures Leads(path, s, u)
  {
    hide Next;
    path := a + b[1..];
    forall i | 0 <= i < |path| - 1
      ensures Next(path[i], path[i + 1])
    {
      if i >= |a| - 1 {
        var k := i - (|a| - 1);
        assert path[i] == b[k] && path[i + 1] == b[k + 1];
        assert Next(b[k], b[k + 1]);
      }
    }
  }

  // ----- one group -----

  ghost predicate Healthy(s: State) {
    s.commit.Some? && !s.commit.value.stage.Failed?
  }

  /** Steps that the leader still has to take. */
  ghost function Left(c: Commit): int {
    match c.stage
    case Logging => |c.ops| + 3
    case Syncing => |c.ops| + 2
    case Inserting => |c.ops| - c.inserted + 1
    case Failed(_) => 0
  }

  /** The group that `s` is about to become, if it succeeds. */
  ghost function Success(s: State): Group
    requires s.commit.Some? && s.writers != []
  {
    var c := s.commit.value;
    Group(s.writers[0], c.n, c.last + 1, c.ops, true, true)
  }

  /** The leader's next step, when nothing fails. */
  lemma HealthyStep(s: State) returns (t: State)
    requires Inv(s) && Healthy(s)
    ensures Next(s, t) && t.bgError == s.bgError && s.writers != [] && |t.threads| == |s.threads|
    ensures if t.commit.Some? then
        Healthy(t) && t.groups == s.groups && t.writers == s.writers && Success(t) == Success(s)
        && 0 <= Left(t.commit.value) < Left(s.commit.value)
      else
        t.groups == s.groups + [Success(s)] && |t.writers| < |s.writers|
  {
    hide FilesInv, GroupsInv, MemberOps, SyncRule, Durable;
    var c := s.commit.value;
    assert s.writers[0] == Retired(s) + 0;
    match c.stage
    case Logging =>
      t := s.(log := s.log + [Record(c.last + 1, c.ops)],
              commit := Some(c.(logged := true, stage := if s.threads[s.writers[0]].w.sync then Syncing else Inserting)));
      assert AppendRecord(s, t, true, true);
    case Syncing =>
      var synced := s.synced + Span(s.fileStart, if s.fileStart <= |s.log| then |s.log| - s.fileStart else 0);
      t := s.(synced := synced, commit := Some(c.(stage := Inserting)));
      assert SyncLog(s, t, true);
    case Inserting =>
      if c.inserted < |c.ops| {
        t := s.(mem := s.mem + [(c.last + 1 + c.inserted, c.ops[c.inserted])],
                commit := Some(c.(inserted := c.inserted + 1)));
        assert InsertOne(s, t);
      } else {
        t := Published(s);
      }
  }

  lemma {:induction false} HealthyCommit(s: State) returns (path: seq<State>, t: State)
    requires Inv(s) && Healthy(s)
    ensures Leads(path, s, t) && s.writers != [] && t.bgError == s.bgError && t.commit.None? && |t.threads| == |s.threads|
    ensures t.groups == s.groups + [Success(s)] && |t.writers| < |s.writers|
    decreases Left(s.commit.value)
  {
    hide Inv, Next, Leads;
    var s1 := HealthyStep(s);
    OneStep(s, s1);
    if s1.commit.None? {
      path, t := [s, s1], s1;
    } else {
      NextKeeps(s, s1);
      var rest;
      rest, t := HealthyCommit(s1);
      path := Joined([s, s1], rest, s, s1, t);
    }
  }

  lemma {:induction false} GroupFrom(ws: seq<Writer>, n: nat) returns (m: nat)
    requires 0 < n <= |ws| && ws[0].batch.Some? && forall j :: 1 <= j < n ==> !Stops(ws, j)
    ensures IsGroup(ws, m)
    decreases |ws| - n
  {
    hide Stops;
    if n < |ws| && !Stops(ws, n) {
      m := GroupFrom(ws, n + 1);
    } else {
      m := n;
    }
  }

  lemma HeadIsFirst(s: State)
    requires Inv(s) && s.writers != []
    ensures s.writers[0] == Retired(s) < |s.threads| && forall i :: 0 <= i < |s.writers| ==> s.writers[i] < |s.threads|
    ensures s.commit.None? ==> HeadIs(s, Running) || HeadIs(s, Waiting(true))
    ensures s.commit.Some? ==> HeadIs(s, Committing)
    ensures !s.threads[s.writers[0]].done
  {
    hide FilesInv, GroupsInv, CommitInv;
    assert s.writers[0] == Retired(s) + 0;
  }

  lemma StartGroup(s: State) returns (t: State)
    requires Inv(s) && HeadIs(s, Running) && s.commit.None? && !s.bgError
    requires s.threads[s.writers[0]].w.batch.Some?
    ensures Next(s, t) && Healthy(t) && t.groups == s.groups && t.writers == s.writers && !t.bgError
    ensures |t.threads| == |s.threads|
  {
    hide Inv;
    HeadIsFirst(s);
    var n := GroupFrom(Queue(s), 1);
    t := s.(threads := s.threads[s.writers[0] := s.threads[s.writers[0]].(pc := Committing)],
            commit := Some(Commit(n, s.lastSequence, GroupOps(Queue(s), n), Logging, false, 0)));
    assert StartCommit(s, t, n);
  }

  /** When nothing fails, the batch of the writer at the head is written: its group leaves the queue, logged and ok. */
  lemma BatchIsWritten(s: State) returns (path: seq<State>, t: State)
    requires Inv(s) && HeadIs(s, Running) && s.commit.None? && !s.bgError
    requires s.threads[s.writers[0]].w.batch.Some?
    ensures Leads(path, s, t) && t.commit.None? && !t.bgError && |t.writers| < |s.writers| && |t.threads| == |s.threads|
    ensures |t.groups| == |s.groups| + 1 && t.groups[..|s.groups|] == s.groups
    ensures var g := t.groups[|s.groups|]; g.first == s.writers[0] && g.logged && g.ok
  {
    hide Inv, Next, Leads, HeadIs;
    var s1 := StartGroup(s);
    OneStep(s, s1);
    NextKeeps(s, s1);
    var rest;
    rest, t := HealthyCommit(s1);
    path := Joined([s, s1], rest, s, s1, t);
  }

  /** The first call of all can succeed. */
  lemma FirstCallSucceeds(s: State, w: Writer) returns (path: seq<State>, t: State)
    requires Init(s) && w.batch.Some?
    ensures Leads(path, s, t) && |t.groups| == 1 && t.groups[0].first == 0 && t.groups[0].logged && t.groups[0].ok
    ensures |t.threads| == 1 && t.threads[0].w == w
  {
    hide Next, Leads;
    var s1 := s.(threads := [Thread(w, Running, false, false)], writers := [0]);
    assert Arrive(s, s1, w);
    ArriveIsNext(s, s1, w);
    InitKeeps(s);
    ArriveKeeps(s, s1, w);
    OneStep(s, s1);
    var rest;
    rest, t := BatchIsWritten(s1);
    path := Joined([s, s1], rest, s, s1, t);
    WritersStay(rest, s1, t, 0);
  }

  lemma ArriveIsNext(s: State, t: State, w: Writer)
    requires Arrive(s, t, w)
    ensures Next(s, t)
  {
    hide Wake, SwitchLog, Skip, StartCommit, AppendRecord, SyncLog, InsertOne, Publish;
  }

  lemma WriterStays(s: State, t: State, id: nat)
    requires Next(s, t) && id < |s.threads|
    ensures id < |t.threads| && t.threads[id].w == s.threads[id].w
  {
    hide IsGroup, GroupOps;
  }

  lemma {:induction false} WritersStay(path: seq<State>, s: State, t: State, id: nat)
    requires Leads(path, s, t) && id < |s.threads|
    ensures id < |t.threads| && t.threads[id].w == s.threads[id].w
    decreases |path|
  {
    hide Next;
    if |path| > 1 {
      assert Next(path[0], path[0 + 1]);
      WriterStays(path[0], path[1], id);
      var rest := path[1..];
      forall i | 0 <= i < |rest| - 1
        ensures Next(rest[i], rest[i + 1])
      {
        assert Next(path[i + 1], path[i + 1 + 1]);
      }
      WritersStay(rest, path[1], t, id);
    }
  }

  /** A null batch succeeds once there is room; after an error nothing does, but the call returns. */
  lemma HeadReturns(s: State, room: bool) returns (t: State)
    requires Inv(s) && HeadIs(s, Running) && s.commit.None?
    requires if room then !s.bgError && s.threads[s.writers[0]].w.batch.None? else s.bgError
    ensures Next(s, t) && t.writers == s.writers[1..] && |t.groups| == |s.groups| + 1 && |t.threads| == |s.threads|
    ensures t.groups[|s.groups|].first == s.writers[0] && t.groups[|s.groups|].ok == room
  {
    hide Inv;
    HeadIsFirst(s);
    var ts := seq(|s.threads|, id requires 0 <= id < |s.threads| =>
      if id == s.writers[0] then s.threads[id].(pc := Returned, ok := room)
      else if id in s.writers[..1] then s.threads[id].(pc := Waiting(true), done := true, ok := room)
      else if 1 < |s.writers| && id == s.writers[1] && s.threads[id].pc.Waiting? then s.threads[id].(pc := Waiting(true))
      else s.threads[id]);
    t := s.(threads := ts, writers := s.writers[1..],
            groups := s.groups + [Group(s.writers[0], 1, s.lastSequence + 1, [], false, room)]);
    assert Skip(s, t, room);
  }

  // ----- all calls -----

  lemma HeadWakes(s: State) returns (t: State)
    requires Inv(s) && HeadIs(s, Waiting(true)) && s.commit.None?
    ensures Next(s, t) && HeadIs(t, Running) && t.commit.None? && t.writers == s.writers && |t.threads| == |s.threads|
  {
    hide Inv;
    HeadIsFirst(s);
    var id := s.writers[0];
    t := s.(threads := s.threads[id := s.threads[id].(pc := Running)]);
    assert Wake(s, t, id);
  }

  /** From a running head the queue gets shorter. */
  lemma RunningHead(s: State) returns (path: seq<State>, t: State)
    requires Inv(s) && HeadIs(s, Running) && s.commit.None?
    ensures Leads(path, s, t) && |t.writers| < |s.writers| && |t.threads| == |s.threads|
  {
    hide Inv, Next, Leads;
    if !s.bgError && s.threads[s.writers[0]].w.batch.Some? {
      path, t := BatchIsWritten(s);
    } else {
      t := HeadReturns(s, !s.bgError);
      OneStep(s, t);
      path := [s, t];
    }
  }

  lemma ShorterQueue(s: State) returns (path: seq<State>, t: State)
    requires Inv(s) && s.writers != []
    ensures Leads(path, s, t) && |t.writers| < |s.writers| && |t.threads| == |s.threads|
  {
    hide Inv, Next, Leads, HeadIs;
    HeadIsFirst(s);
    if s.commit.Some? {
      if Healthy(s) {
        path, t := HealthyCommit(s);
      } else {
        t := FailedLeaves(s);
        OneStep(s, t);
        path := [s, t];
      }
    } else if HeadIs(s, Running) {
      path, t := RunningHead(s);
    } else {
      var s1 := HeadWakes(s);
      OneStep(s, s1);
      NextKeeps(s, s1);
      var rest;
      rest, t := RunningHead(s1);
      path := Joined([s, s1], rest, s, s1, t);
    }
  }

  lemma FailedLeaves(s: State) returns (t: State)
    requires Inv(s) && s.commit.Some? && s.commit.value.stage.Failed?
    ensures Next(s, t) && |t.writers| < |s.writers| && |t.threads| == |s.threads|
  {
    hide FilesInv, GroupsInv, ThreadsInv, MemberOps, SyncRule, Durable;
    t := Published(s);
  }

  lemma {:induction false} PathKeeps(path: seq<State>, s: State, t: State)
    requires Leads(path, s, t) && Inv(s)
    ensures Inv(t)
    decreases |path|
  {
    hide Inv, Next;
    if |path| > 1 {
      assert Next(path[0], path[0 + 1]);
      NextKeeps(path[0], path[1]);
      var rest := path[1..];
      forall i | 0 <= i < |rest| - 1
        ensures Next(rest[i], rest[i + 1])
      {
        assert Next(path[i + 1], path[i + 1 + 1]);
      }
      PathKeeps(rest, path[1], t);
    }
  }

  lemma {:induction false} QueueDrains(s: State) returns (path: seq<State>, t: State)
    requires Inv(s)
    ensures Leads(path, s, t) && t.writers == [] && |t.threads| == |s.threads|
    decreases |s.writers|
  {
    hide Inv, Next, Leads;
    if s.writers == [] {
      NoStep(s);
      path, t := [s], s;
    } else {
      var first, s1 := ShorterQueue(s);
      PathKeeps(first, s, s1);
      var rest;
      rest, t := QueueDrains(s1);
      path := Joined(first, rest, s, s1, t);
    }
  }

  /** Calls among the first `n` that are told that they are done, but are not back yet. */
  ghost function Pending(s: State, n: nat): nat
    requires n <= |s.threads|
  {
    if n == 0 then 0 else Pending(s, n - 1) + if s.threads[n - 1].pc.Returned? then 0 else 1
  }

  lemma {:induction false} FewerPending(s: State, t: State, id: nat, n: nat)
    requires id < |s.threads| == |t.threads| && n <= |s.threads| && !s.threads[id].pc.Returned?
    requires t.threads == s.threads[id := s.threads[id].(pc := Returned)]
    ensures Pending(t, n) == Pending(s, n) - if id < n then 1 else 0
    decreases n
  {
    if n > 0 {
      FewerPending(s, t, id, n - 1);
    }
  }

  lemma DoneWakes(s: State, id: nat) returns (t: State)
    requires Inv(s) && s.writers == [] && id < |s.threads| && !s.threads[id].pc.Returned?
    ensures Next(s, t) && t.writers == []
    ensures t.threads == s.threads[id := s.threads[id].(pc := Returned)]
  {
    hide FilesInv, GroupsInv, CommitInv;
    t := s.(threads := s.threads[id := s.threads[id].(pc := Returned)]);
    assert Wake(s, t, id);
  }

  lemma {:induction false} DoneReturn(s: State) returns (path: seq<State>, t: State)
    requires Inv(s) && s.writers == []
    ensures Leads(path, s, t) && t.writers == [] && |t.threads| == |s.threads|
    ensures forall id :: 0 <= id < |t.threads| ==> t.threads[id].pc.Returned?
    decreases Pending(s, |s.threads|)
  {
    hide Inv, Next, Leads, Pending;
    if id: nat :| id < |s.threads| && !s.threads[id].pc.Returned? {
      var s1 := DoneWakes(s, id);
      OneStep(s, s1);
      NextKeeps(s, s1);
      FewerPending(s, s1, id, |s.threads|);
      var rest;
      rest, t := DoneReturn(s1);
      path := Joined([s, s1], rest, s, s1, t);
    } else {
      NoStep(s);
      path, t := [s], s;
    }
  }

  /** No deadlock: from every reachable state there is a way on, without new calls, on which all calls return. */
  lemma AllCallsCanReturn(run: seq<State>, i: nat) returns (path: seq<State>, t: State)
    requires IsRun(run) && i < |run|
    ensures Leads(path, run[i], t) && t.writers == [] && |t.threads| == |run[i].threads|
    ensures forall id :: 0 <= id < |t.threads| ==> t.threads[id].pc.Returned?
  {
    hide Inv, Next, Init, Leads;
    RunsAreSafe(run, i);
    var first, s1 := QueueDrains(run[i]);
    PathKeeps(first, run[i], s1);
    var rest;
    rest, t := DoneReturn(s1);
    path := Joined(first, rest, run[i], s1, t);
  }
}
