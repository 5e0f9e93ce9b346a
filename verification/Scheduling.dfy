/** When background work is handed to the environment, and who waits for it. A step is what one thread does
    while it holds the mutex. */
module Scheduling {
  import opened Bytes

  const L0_COMPACTION_TRIGGER := 4
  const L0_STOP_WRITES_TRIGGER := 12

  /** A background call: not started, in CompactMemTable, in a compaction, in CompactMemTable inside one. */
  datatype Work = Queued | Flushing | Compacting(isManual: bool) | NestedFlush(isManual: bool)

  /** `imm`: there is an immutable memtable; `hasImm`: the flag that a compaction looks at without the mutex.
      `level0`: files in level 0; `overfull`: some other reason why the version needs a compaction.
      `waiters`: threads waiting for background_work_finished_signal_, and whether it was signalled. */
  datatype State = State(
    imm: bool,
    hasImm: bool,
    manual: Option<nat>,
    level0: nat,
    overfull: bool,
    bgError: bool,
    shuttingDown: bool,
    scheduled: bool,
    pool: seq<Work>,
    waiters: map<nat, bool>)

  predicate NeedsCompaction(s: State) {
    s.level0 >= L0_COMPACTION_TRIGGER || s.overfull
  }

  predicate HasWork(s: State) {
    s.imm || s.manual.Some? || NeedsCompaction(s)
  }

  function MaybeScheduleCompaction(s: State): State {
    if s.scheduled then s
    else if s.shuttingDown then s
    else if s.bgError then s
    else if !HasWork(s) then s
    else s.(scheduled := true, pool := s.pool + [Queued])
  }

  function SignalAll(s: State): State {
    s.(waiters := map t | t in s.waiters :: true)
  }

  function RecordBackgroundError(s: State): State {
    if s.bgError then s else SignalAll(s.(bgError := true))
  }

  /** The end of BackgroundCall number `i`. */
  function FinishCall(s: State, i: nat): State
    requires i < |s.pool|
  {
    SignalAll(MaybeScheduleCompaction(s.(pool := s.pool[..i] + s.pool[i + 1..], scheduled := false)))
  }

  // ----- steps of callers -----

  ghost predicate Init(s: State) {
    exists level0: nat, overfull ::
      s == MaybeScheduleCompaction(State(false, false, None, level0, overfull, false, false, false, [], map[]))
  }

  /** MakeRoomForWrite switches memtables. */
  ghost predicate SwitchMemtable(s: State, s': State) {
    && !s.bgError && !s.imm && s.level0 < L0_STOP_WRITES_TRIGGER
    && s' == MaybeScheduleCompaction(s.(imm := true, hasImm := true))
  }

  /** MakeRoomForWrite, or a caller of TEST_CompactMemTable, waits. */
  ghost predicate WaitForRoom(s: State, s': State, t: nat) {
    && t !in s.waiters && !s.bgError && (s.imm || s.level0 >= L0_STOP_WRITES_TRIGGER)
    && s' == s.(waiters := s.waiters[t := false])
  }

  ghost predicate RequestManual(s: State, s': State, id: nat) {
    && !s.shuttingDown && !s.bgError && s.manual.None?
    && s' == MaybeScheduleCompaction(s.(manual := Some(id)))
  }

  ghost predicate WaitForManual(s: State, s': State, t: nat) {
    && t !in s.waiters && !s.shuttingDown && !s.bgError && s.manual.Some?
    && s' == s.(waiters := s.waiters[t := false])
  }

  /** A manual compaction is given up: its owner found an error or a shutdown. */
  ghost predicate CancelManual(s: State, s': State, id: nat) {
    && s.manual == Some(id) && (s.shuttingDown || s.bgError)
    && s' == s.(manual := None)
  }

  ghost predicate Wake(s: State, s': State, t: nat) {
    && t in s.waiters
    && s' == s.(waiters := s.waiters - {t})
  }

  /** A writer's sync failed. */
  ghost predicate WriterError(s: State, s': State) {
    s' == RecordBackgroundError(s)
  }

  /** A read charged a seek to a file that now should be compacted. */
  ghost predicate ChargeSeek(s: State, s': State) {
    s' == MaybeScheduleCompaction(s.(overfull := true))
  }

  /** The destructor waits until no background work is scheduled. */
  ghost predicate Shutdown(s: State, s': State, t: nat) {
    && t !in s.waiters
    && s' == s.(shuttingDown := true, waiters := if s.scheduled then s.waiters[t := false] else s.waiters)
  }

  // ----- steps of the background thread -----

  /** BackgroundCall starts. `picked`: there is something to compact. */
  ghost predicate StartCall(s: State, s': State, i: nat, picked: bool) {
    && i < |s.pool| && s.pool[i].Queued?
    && s' ==
       if s.shuttingDown || s.bgError then FinishCall(s, i)
       else if s.imm then s.(pool := s.pool[i := Flushing])
       else if picked then s.(pool := s.pool[i := Compacting(s.manual.Some?)])
       else FinishCall(s.(manual := None), i)
  }

  /** CompactMemTable is over; a success installs a version. */
  ghost predicate Flushed(s: State, s1: State, ok: bool) {
    if ok then s1 == s.(imm := false, hasImm := false, level0 := s1.level0, overfull := s1.overfull)
    else s1 == RecordBackgroundError(s)
  }

  ghost predicate EndFlush(s: State, s': State, i: nat, ok: bool, s1: State) {
    && i < |s.pool| && s.pool[i].Flushing? && s.imm && Flushed(s, s1, ok)
    && s' == FinishCall(s1, i)
  }

  /** A running compaction sees the flag, takes the mutex and looks again. */
  ghost predicate StartNestedFlush(s: State, s': State, i: nat) {
    && i < |s.pool| && s.pool[i].Compacting? && s.hasImm && s.imm
    && s' == s.(pool := s.pool[i := NestedFlush(s.pool[i].isManual)])
  }

  ghost predicate EndNestedFlush(s: State, s': State, i: nat, ok: bool, s1: State) {
    && i < |s.pool| && s.pool[i].NestedFlush? && s.imm && Flushed(s, s1, ok)
    && s' == SignalAll(s1.(pool := s.pool[i := Compacting(s.pool[i].isManual)]))
  }

  ghost predicate EndCompaction(s: State, s': State, i: nat, ok: bool, s1: State) {
    && i < |s.pool| && s.pool[i].Compacting?
    && (if ok then s1 == s.(level0 := s1.level0, overfull := s1.overfull) else s1 == RecordBackgroundError(s))
    && s' == FinishCall(if s.pool[i].isManual then s1.(manual := None) else s1, i)
  }

  ghost predicate BackgroundStep(s: State, s': State) {
    || (exists i: nat, picked :: StartCall(s, s', i, picked))
    || (exists i: nat, ok, s1 :: EndFlush(s, s', i, ok, s1))
    || (exists i: nat :: StartNestedFlush(s, s', i))
    || (exists i: nat, ok, s1 :: EndNestedFlush(s, s', i, ok, s1))
    || (exists i: nat, ok, s1 :: EndCompaction(s, s', i, ok, s1))
  }

  /** Steps of callers that ask for background work... */
  ghost predicate AskingStep(s: State, s': State) {
    SwitchMemtable(s, s') || (exists id: nat :: RequestManual(s, s', id)) || ChargeSeek(s, s')
  }

  /** ...that wait... */
  ghost predicate WaitingStep(s: State, s': State) {
    || (exists t: nat :: WaitForRoom(s, s', t)) || (exists t: nat :: WaitForManual(s, s', t))
    || (exists t: nat :: Shutdown(s, s', t))
  }

  /** ...and others. */
  ghost predicate OtherStep(s: State, s': State) {
    || (exists id: nat :: CancelManual(s, s', id)) || (exists t: nat :: Wake(s, s', t)) || WriterError(s, s')
  }

  ghost predicate Next(s: State, s': State) {
    AskingStep(s, s') || WaitingStep(s, s') || OtherStep(s, s') || BackgroundStep(s, s')
  }

  ghost predicate IsRun(run: seq<State>) {
    run != [] && Init(run[0]) && forall i :: 0 <= i < |run| - 1 ==> Next(run[i], run[i + 1])
  }

  // ----- the invariant -----

  ghost predicate WorkInv(s: State, w: Work) {
    && (w.Flushing? || w.NestedFlush? ==> s.imm)
    && ((w.Compacting? || w.NestedFlush?) && w.isManual && s.manual.None? ==> s.bgError || s.shuttingDown)
  }

  /** What holds before MaybeScheduleCompaction is asked... */
  ghost predicate Unasked(s: State) {
    && |s.pool| == (if s.scheduled then 1 else 0)
    && s.hasImm == s.imm
    && (forall i :: 0 <= i < |s.pool| ==> WorkInv(s, s.pool[i]))
    && (forall t :: t in s.waiters && !s.waiters[t] ==> s.scheduled || s.shuttingDown)
  }

  /** ...and after. */
  ghost predicate Inv(s: State) {
    Unasked(s) && (HasWork(s) && !s.bgError && !s.shuttingDown ==> s.scheduled)
  }

  lemma AskingKeeps(s: State)
    requires Unasked(s)
    ensures Inv(MaybeScheduleCompaction(s))
  {
    hide HasWork;
  }

  lemma FinishKeeps(s: State, i: nat)
    requires i == 0 && |s.pool| == 1 && s.hasImm == s.imm
    ensures Inv(FinishCall(s, i))
    ensures forall t :: t in FinishCall(s, i).waiters ==> FinishCall(s, i).waiters[t]
  {
    var s1 := s.(pool := s.pool[..i] + s.pool[i + 1..], scheduled := false);
    assert s1.pool == [];
  }

  /** The steps at whose end the background thread signals. */
  ghost predicate SignallingStep(s: State, s': State) {
    || (exists i: nat, ok, s1 :: EndFlush(s, s', i, ok, s1))
    || (exists i: nat, ok, s1 :: EndNestedFlush(s, s', i, ok, s1))
    || (exists i: nat, ok, s1 :: EndCompaction(s, s', i, ok, s1))
  }

  lemma SignallingStepKeeps(s: State, s': State)
    requires Inv(s) && SignallingStep(s, s')
    ensures Inv(s') && forall t :: t in s'.waiters ==> s'.waiters[t]
  {
    hide FinishCall, HasWork;
    if i: nat, ok, s1 :| EndFlush(s, s', i, ok, s1) {
      FinishKeeps(s1, i);
    } else if i: nat, ok, s1 :| EndCompaction(s, s', i, ok, s1) {
      FinishKeeps(if s.pool[i].isManual then s1.(manual := None) else s1, i);
    } else {
    }
  }

  lemma StartingStepKeeps(s: State, s': State)
    requires Inv(s) && BackgroundStep(s, s') && !SignallingStep(s, s')
    ensures Inv(s')
    ensures s'.imm == s.imm && s'.level0 == s.level0 && s'.bgError == s.bgError
  {
    hide SignallingStep, FinishCall, EndFlush, EndNestedFlush, EndCompaction, HasWork;
    if i: nat, picked :| StartCall(s, s', i, picked) {
      FinishKeeps(s, i);
      FinishKeeps(s.(manual := None), i);
      FinishLeaves(s, i);
      FinishLeaves(s.(manual := None), i);
    } else {
      NotSignalling(s, s');
    }
  }

  lemma FinishLeaves(s: State, i: nat)
    requires i < |s.pool|
    ensures FinishCall(s, i).imm == s.imm && FinishCall(s, i).level0 == s.level0 && FinishCall(s, i).bgError == s.bgError
    ensures FinishCall(s, i).shuttingDown == s.shuttingDown && FinishCall(s, i).hasImm == s.hasImm
  {
  }

  lemma NotSignalling(s: State, s': State)
    requires BackgroundStep(s, s') && !SignallingStep(s, s') && !exists i: nat, picked :: StartCall(s, s', i, picked)
    ensures exists i: nat :: StartNestedFlush(s, s', i)
  {
    hide StartCall, StartNestedFlush, EndFlush, EndNestedFlush, EndCompaction;
  }

  lemma AskingStepKeeps(s: State, s': State)
    requires Inv(s) && AskingStep(s, s')
    ensures Inv(s') && (s'.imm || !s.imm) && s'.level0 == s.level0 && s'.bgError == s.bgError
  {
    hide MaybeScheduleCompaction, HasWork;
    var s1;
    if SwitchMemtable(s, s') {
      s1 := s.(imm := true, hasImm := true);
    } else if id: nat :| RequestManual(s, s', id) {
      s1 := s.(manual := Some(id));
    } else {
      s1 := s.(overfull := true);
    }
    AskingKeeps(s1);
    AskingLeaves(s1);
  }

  /** A step that leaves the work alone and only changes who waits, or gives up or fails. */
  ghost predicate Passive(s: State, s': State) {
    && s'.imm == s.imm && s'.hasImm == s.hasImm && s'.level0 == s.level0 && s'.overfull == s.overfull
    && s'.scheduled == s.scheduled && s'.pool == s.pool
    && (s.bgError ==> s'.bgError) && (s.shuttingDown ==> s'.shuttingDown)
    && (s'.manual == s.manual || (s'.manual.None? && (s.bgError || s.shuttingDown)))
    && (!s.bgError && s'.bgError ==> forall t :: t in s'.waiters ==> s'.waiters[t])
    && (forall t :: t in s'.waiters && !s'.waiters[t] ==>
          (t in s.waiters && !s.waiters[t]) || s.scheduled || (HasWork(s) && !s.bgError) || s'.shuttingDown)
  }

  lemma WaitIsPassive(s: State, s': State, t: nat)
    requires WaitForRoom(s, s', t) || WaitForManual(s, s', t)
    ensures Passive(s, s')
  {
  }

  lemma ShutdownIsPassive(s: State, s': State, t: nat)
    requires Shutdown(s, s', t)
    ensures Passive(s, s')
  {
    hide HasWork;
  }

  lemma WaitingIsPassive(s: State, s': State)
    requires WaitingStep(s, s')
    ensures Passive(s, s')
  {
    hide Passive, WaitForRoom, WaitForManual, Shutdown;
    if t: nat :| WaitForRoom(s, s', t) || WaitForManual(s, s', t) {
      WaitIsPassive(s, s', t);
    } else {
      var t: nat :| Shutdown(s, s', t);
      ShutdownIsPassive(s, s', t);
    }
  }

  lemma CancelIsPassive(s: State, s': State, id: nat)
    requires CancelManual(s, s', id)
    ensures Passive(s, s')
  {
    hide HasWork;
  }

  lemma WakeIsPassive(s: State, s': State, t: nat)
    requires Wake(s, s', t)
    ensures Passive(s, s')
  {
    hide HasWork;
  }

  lemma ErrorIsPassive(s: State, s': State)
    requires WriterError(s, s')
    ensures Passive(s, s')
  {
    hide HasWork;
  }

  lemma OtherIsPassive(s: State, s': State)
    requires OtherStep(s, s')
    ensures Passive(s, s')
  {
    hide Passive, CancelManual, Wake, WriterError;
    if id: nat :| CancelManual(s, s', id) {
      CancelIsPassive(s, s', id);
    } else if t: nat :| Wake(s, s', t) {
      WakeIsPassive(s, s', t);
    } else {
      ErrorIsPassive(s, s');
    }
  }

  lemma PassiveKeeps(s: State, s': State)
    requires Inv(s) && Passive(s, s')
    ensures Inv(s')
  {
  }

  lemma CallerStepKeeps(s: State, s': State)
    requires Inv(s) && Next(s, s') && !BackgroundStep(s, s')
    ensures Inv(s') && (s'.imm || !s.imm) && s'.level0 == s.level0
    ensures !s.bgError && s'.bgError ==> forall t :: t in s'.waiters ==> s'.waiters[t]
  {
    hide AskingStep, WaitingStep, OtherStep, BackgroundStep, Inv;
    if AskingStep(s, s') {
      AskingStepKeeps(s, s');
    } else {
      if WaitingStep(s, s') {
        WaitingIsPassive(s, s');
      } else {
        OtherIsPassive(s, s');
      }
      PassiveKeeps(s, s');
    }
  }

  lemma AskingLeaves(s: State)
    ensures var s' := MaybeScheduleCompaction(s);
      s'.imm == s.imm && s'.level0 == s.level0 && s'.bgError == s.bgError && s'.waiters == s.waiters
  {
  }

  lemma NextKeeps(s: State, s': State)
    requires Inv(s) && Next(s, s')
    ensures Inv(s')
  {
    hide *;
    if !BackgroundStep(s, s') {
      CallerStepKeeps(s, s');
    } else if SignallingStep(s, s') {
      SignallingStepKeeps(s, s');
    } else {
      StartingStepKeeps(s, s');
    }
  }

  lemma {:induction false} RunsAreSafe(run: seq<State>, i: nat)
    requires IsRun(run) && i < |run|
    ensures Inv(run[i])
  {
    hide Inv, Next;
    if i == 0 {
      InitKeeps(run[0]);
    } else {
      RunsAreSafe(run, i - 1);
      assert Next(run[i - 1], run[i - 1 + 1]);
      NextKeeps(run[i - 1], run[i]);
    }
  }

  lemma InitKeeps(s: State)
    requires Init(s)
    ensures Inv(s)
  {
  }

  // ----- what follows -----

  /** At every release of the mutex: there is never more than one background call; there is exactly one when
      there is work and neither an error nor a shutdown; and the flag agrees with the immutable memtable. */
  lemma OneBackgroundCall(run: seq<State>, i: nat)
    requires IsRun(run) && i < |run|
    ensures var s := run[i];
      && |s.pool| <= 1 && (|s.pool| == 1 <==> s.scheduled)
      && ((s.imm || s.manual.Some? || s.level0 >= 4 || s.overfull) && !s.bgError && !s.shuttingDown ==> |s.pool| == 1)
      && (s.hasImm <==> s.imm)
  {
    RunsAreSafe(run, i);
  }

  /** A thread that waits was signalled, or a background call is on its way that will signal it. */
  lemma NobodyWaitsForNothing(run: seq<State>, i: nat, t: nat)
    requires IsRun(run) && i < |run| && t in run[i].waiters && !run[i].shuttingDown
    ensures run[i].waiters[t] || |run[i].pool| == 1
  {
    RunsAreSafe(run, i);
  }

  // ----- errors and shutdown -----

  /** No background call is there, and none may start. */
  ghost predicate Quiet(s: State) {
    s.pool == [] && (s.bgError || s.shuttingDown)
  }

  lemma AskingStaysQuiet(s: State, s': State)
    requires Quiet(s) && AskingStep(s, s')
    ensures Quiet(s')
  {
    hide HasWork;
  }

  lemma WaitingStaysQuiet(s: State, s': State)
    requires Quiet(s) && WaitingStep(s, s')
    ensures Quiet(s')
  {
    hide HasWork;
  }

  lemma OtherStaysQuiet(s: State, s': State)
    requires Quiet(s) && OtherStep(s, s')
    ensures Quiet(s')
  {
    hide HasWork;
  }

  lemma NoBackgroundStep(s: State, s': State)
    requires s.pool == []
    ensures !BackgroundStep(s, s')
  {
    hide HasWork, FinishCall, Flushed;
  }

  /** After an error or a shutdown, once no background call is left, there is never one again: the destructor may free
      what a call would use. */
  lemma {:induction false} QuietForever(run: seq<State>, i: nat, j: nat)
    requires IsRun(run) && i <= j < |run| && run[i].pool == [] && (run[i].bgError || run[i].shuttingDown)
    ensures run[j].pool == [] && (run[j].bgError || run[j].shuttingDown)
    decreases j
  {
    hide Init, AskingStep, WaitingStep, OtherStep, BackgroundStep;
    if i < j {
      QuietForever(run, i, j - 1);
      var s, s' := run[j - 1], run[j];
      assert Next(run[j - 1], run[j - 1 + 1]);
      NoBackgroundStep(s, s');
      if AskingStep(s, s') { AskingStaysQuiet(s, s'); }
      else if WaitingStep(s, s') { WaitingStaysQuiet(s, s'); }
      else { OtherStaysQuiet(s, s'); }
    }
  }

  /** A failed flush or compaction, and a failed sync of a writer, are recorded. */
  lemma ErrorsAreRecorded(s: State, s': State, i: nat, s1: State)
    requires WriterError(s, s') || EndFlush(s, s', i, false, s1) || EndNestedFlush(s, s', i, false, s1)
      || EndCompaction(s, s', i, false, s1)
    ensures s'.bgError
  {
    hide HasWork;
  }

  /** A background call that ends, or finds nothing to compact, takes its request with it: the owner can return. */
  lemma RequestIsServed(s: State, s': State, i: nat, ok: bool, s1: State)
    requires i < |s.pool|
    requires (EndCompaction(s, s', i, ok, s1) && s.pool[i].isManual)
      || (StartCall(s, s', i, false) && !s.shuttingDown && !s.bgError && !s.imm)
    ensures s'.manual.None?
  {
    hide HasWork;
  }

  /** A background call that is started when neither an error nor a shutdown came first writes the immutable memtable
      before anything else; a compaction that is running does so in between. Success makes room for a new one. */
  lemma MemtableGoesFirst(s: State, s': State, i: nat, s1: State)
    requires i < |s.pool| && s.imm
    ensures forall picked :: StartCall(s, s', i, picked) && !s.shuttingDown && !s.bgError ==>
      s'.pool[i] == Flushing && s'.imm && s'.manual == s.manual
    ensures StartNestedFlush(s, s', i) ==> s'.imm && s'.pool[i].NestedFlush?
    ensures EndFlush(s, s', i, true, s1) || EndNestedFlush(s, s', i, true, s1) ==> !s'.imm && !s'.hasImm
    ensures EndFlush(s, s', i, false, s1) || EndNestedFlush(s, s', i, false, s1) ==> s'.imm && s'.hasImm == s.hasImm
  {
    hide HasWork, FinishCall, RecordBackgroundError;
    RecordingLeaves(s);
    if i < |s1.pool| {
      FinishLeaves(s1, i);
    }
  }

  /** A writer that needs a new memtable can switch or must wait, unless there is an error: it waits for the immutable
      memtable, and for level 0 to have less than twelve files. */
  lemma WritersSwitchOrWait(s: State, t: nat)
    ensures (exists s' :: SwitchMemtable(s, s')) <==> !s.bgError && !s.imm && s.level0 < 12
    ensures (exists s' :: WaitForRoom(s, s', t)) <==> !s.bgError && t !in s.waiters && (s.imm || s.level0 >= 12)
  {
    hide HasWork, MaybeScheduleCompaction;
    if !s.bgError && !s.imm && s.level0 < 12 {
      assert SwitchMemtable(s, MaybeScheduleCompaction(s.(imm := true, hasImm := true)));
    }
    if !s.bgError && t !in s.waiters && (s.imm || s.level0 >= 12) {
      assert WaitForRoom(s, s.(waiters := s.waiters[t := false]), t);
    }
  }

  /** A manual compaction asks if no other one is asked for, waits if one is, and gives up at an error or a shutdown. */
  lemma ManualAsksOrWaits(s: State, id: nat, t: nat)
    ensures (exists s' :: RequestManual(s, s', id)) <==> !s.bgError && !s.shuttingDown && s.manual.None?
    ensures (exists s' :: WaitForManual(s, s', t)) <==>
      !s.bgError && !s.shuttingDown && s.manual.Some? && t !in s.waiters
    ensures (exists s' :: CancelManual(s, s', id)) <==> (s.bgError || s.shuttingDown) && s.manual == Some(id)
  {
    hide HasWork, MaybeScheduleCompaction;
    if !s.bgError && !s.shuttingDown && s.manual.None? {
      assert RequestManual(s, MaybeScheduleCompaction(s.(manual := Some(id))), id);
    }
    if !s.bgError && !s.shuttingDown && s.manual.Some? && t !in s.waiters {
      assert WaitForManual(s, s.(waiters := s.waiters[t := false]), t);
    }
    if (s.bgError || s.shuttingDown) && s.manual == Some(id) {
      assert CancelManual(s, s.(manual := None), id);
    }
  }

  /** A compaction may leave any number of files in level 0, and all who wait are told. */
  lemma CompactionMakesRoom(s: State, n: nat, overfull: bool) returns (s': State)
    requires Inv(s) && |s.pool| == 1 && s.pool[0].Compacting?
    ensures BackgroundStep(s, s') && s'.level0 == n && s'.overfull == overfull && s'.imm == s.imm
    ensures forall t :: t in s'.waiters ==> s'.waiters[t]
  {
    hide HasWork;
    var s1 := s.(level0 := n, overfull := overfull);
    s' := FinishCall(if s.pool[0].isManual then s1.(manual := None) else s1, 0);
    assert EndCompaction(s, s', 0, true, s1);
  }

  /** So may a flush. */
  lemma FlushAddsFiles(s: State, n: nat, overfull: bool) returns (s': State)
    requires Inv(s) && |s.pool| == 1 && (s.pool[0].Flushing? || s.pool[0].NestedFlush?)
    ensures BackgroundStep(s, s') && s'.level0 == n && s'.overfull == overfull && !s'.imm
    ensures forall t :: t in s'.waiters ==> s'.waiters[t]
  {
    hide HasWork;
    assert WorkInv(s, s.pool[0]);
    var s1 := s.(imm := false, hasImm := false, level0 := n, overfull := overfull);
    if s.pool[0].Flushing? {
      s' := FinishCall(s1, 0);
      assert EndFlush(s, s', 0, true, s1);
    } else {
      s' := SignalAll(s1.(pool := s.pool[0 := Compacting(s.pool[0].isManual)]));
      assert EndNestedFlush(s, s', 0, true, s1);
    }
  }

  // ----- signals and the destructor -----

  lemma AskingSignalsNobody(s: State, s': State)
    requires AskingStep(s, s')
    ensures s'.waiters == s.waiters && forall t: nat :: !Signalled(s, s', t)
  {
    hide HasWork, MaybeScheduleCompaction;
    AskingLeaves(s.(imm := true, hasImm := true));
    AskingLeaves(s.(overfull := true));
    forall id: nat
      ensures MaybeScheduleCompaction(s.(manual := Some(id))).waiters == s.waiters
    {
      AskingLeaves(s.(manual := Some(id)));
    }
  }

  /** Thread `t` is newly signalled. */
  ghost predicate Signalled(s: State, s': State, t: nat) {
    t in s'.waiters && s'.waiters[t] && !(t in s.waiters && s.waiters[t])
  }

  lemma WaitingSignalsNobody(s: State, s': State, t: nat)
    requires WaitingStep(s, s')
    ensures !Signalled(s, s', t)
  {
    hide HasWork;
    if t': nat :| WaitForRoom(s, s', t') {
    } else if t': nat :| WaitForManual(s, s', t') {
    } else {
      var t': nat :| Shutdown(s, s', t');
    }
  }

  lemma ErrorSignals(s: State, s': State, t: nat)
    requires OtherStep(s, s') && Signalled(s, s', t)
    ensures !s.bgError && s'.bgError && t in s.waiters
  {
    hide HasWork;
    if id: nat :| CancelManual(s, s', id) {
      assert false;
    } else if t': nat :| Wake(s, s', t') {
      assert false;
    } else {
    }
  }

  /** A thread is signalled only by the background thread, or by one that records an error. */
  lemma SignalsHaveCause(s: State, s': State, t: nat)
    requires Next(s, s') && Signalled(s, s', t)
    ensures BackgroundStep(s, s') || (!s.bgError && s'.bgError && t in s.waiters)
  {
    hide AskingStep, WaitingStep, OtherStep, BackgroundStep, Signalled;
    if AskingStep(s, s') {
      AskingSignalsNobody(s, s');
    } else if WaitingStep(s, s') {
      WaitingSignalsNobody(s, s', t);
    } else if OtherStep(s, s') {
      ErrorSignals(s, s', t);
    }
  }

  /** `t` waits for a background call that is on its way, or was signalled. */
  ghost predicate WaitsForCall(s: State, t: nat) {
    s.shuttingDown && (t in s.waiters ==> s.waiters[t] || s.scheduled)
  }

  lemma CallerKeepsWaiting(s: State, s': State, t: nat)
    requires WaitsForCall(s, t) && t in s.waiters && (AskingStep(s, s') || WaitingStep(s, s') || OtherStep(s, s'))
    ensures WaitsForCall(s', t)
  {
    hide HasWork;
  }

  lemma CallKeepsWaiting(s: State, s': State, t: nat)
    requires Inv(s) && WaitsForCall(s, t) && BackgroundStep(s, s')
    ensures WaitsForCall(s', t)
  {
    hide HasWork, EndFlush, EndNestedFlush, EndCompaction;
    if SignallingStep(s, s') {
      SignallingStepKeeps(s, s');
      SignallingShutdown(s, s');
    } else if i: nat, picked :| StartCall(s, s', i, picked) {
      FinishKeeps(s, i);
    } else {
      NotSignalling(s, s');
    }
  }

  lemma FlushShutdown(s: State, s': State, i: nat, ok: bool, s1: State)
    requires EndFlush(s, s', i, ok, s1) || EndNestedFlush(s, s', i, ok, s1)
    ensures s'.shuttingDown == s.shuttingDown
  {
    hide FinishCall, RecordBackgroundError;
    RecordingLeaves(s);
    FinishLeaves(s1, i);
  }

  lemma CompactionShutdown(s: State, s': State, i: nat, ok: bool, s1: State)
    requires EndCompaction(s, s', i, ok, s1)
    ensures s'.shuttingDown == s.shuttingDown
  {
    hide FinishCall, RecordBackgroundError;
    RecordingLeaves(s);
    FinishLeaves(if s.pool[i].isManual then s1.(manual := None) else s1, i);
  }

  lemma SignallingShutdown(s: State, s': State)
    requires SignallingStep(s, s')
    ensures s'.shuttingDown == s.shuttingDown
  {
    hide EndFlush, EndNestedFlush, EndCompaction;
    if i: nat, ok, s1 :| EndFlush(s, s', i, ok, s1) {
      FlushShutdown(s, s', i, ok, s1);
    } else if i: nat, ok, s1 :| EndCompaction(s, s', i, ok, s1) {
      CompactionShutdown(s, s', i, ok, s1);
    } else {
      var i: nat, ok, s1 :| EndNestedFlush(s, s', i, ok, s1);
      FlushShutdown(s, s', i, ok, s1);
    }
  }

  /** The destructor waits if and only if a call is scheduled, and never for nothing: as long as it waits unsignalled, the
      call is still there. */
  lemma {:induction false} DestructorIsTold(run: seq<State>, i: nat, j: nat, t: nat)
    requires IsRun(run) && i < j < |run| && Shutdown(run[i], run[i + 1], t)
    requires forall n :: i < n < j ==> t in run[n].waiters
    ensures run[j].shuttingDown && (t in run[j].waiters ==> run[j].waiters[t] || |run[j].pool| == 1)
    ensures j == i + 1 ==> (t in run[j].waiters <==> run[i].scheduled) && (t in run[j].waiters ==> !run[j].waiters[t])
    ensures WaitsForCall(run[j], t)
    decreases j
  {
    hide Init, AskingStep, WaitingStep, OtherStep, BackgroundStep;
    RunsAreSafe(run, j);
    if i + 1 < j {
      DestructorIsTold(run, i, j - 1, t);
      RunsAreSafe(run, j - 1);
      assert Next(run[j - 1], run[j - 1 + 1]);
      if BackgroundStep(run[j - 1], run[j]) {
        CallKeepsWaiting(run[j - 1], run[j], t);
      } else {
        CallerKeepsWaiting(run[j - 1], run[j], t);
      }
    }
  }

  /** A background call can always go on. */
  lemma CallCanGoOn(s: State) returns (s': State)
    requires Inv(s) && s.pool != []
    ensures BackgroundStep(s, s')
  {
    match s.pool[0]
    case Queued =>
      s' := if s.shuttingDown || s.bgError then FinishCall(s, 0)
            else if s.imm then s.(pool := s.pool[0 := Flushing])
            else FinishCall(s.(manual := None), 0);
      assert StartCall(s, s', 0, false);
    case Flushing =>
      s' := FinishCall(RecordBackgroundError(s), 0);
      assert EndFlush(s, s', 0, false, RecordBackgroundError(s));
    case Compacting(isManual) =>
      s' := FinishCall(if isManual then s.(manual := None) else s, 0);
      assert EndCompaction(s, s', 0, true, s);
    case NestedFlush(isManual) =>
      var s1 := s.(imm := false, hasImm := false);
      s' := SignalAll(s1.(pool := s.pool[0 := Compacting(isManual)]));
      assert EndNestedFlush(s, s', 0, true, s1);
  }

  /** When the immutable memtable goes, or a version with fewer files in level 0 comes, all who wait are told. */
  lemma RoomIsAnnounced(s: State, s': State)
    requires Inv(s) && Next(s, s')
    requires (s.imm && !s'.imm) || s'.level0 != s.level0 || (!s.bgError && s'.bgError)
    ensures forall t :: t in s'.waiters ==> s'.waiters[t]
  {
    hide Inv, Next, BackgroundStep, SignallingStep;
    if !BackgroundStep(s, s') {
      CallerStepKeeps(s, s');
    } else if SignallingStep(s, s') {
      SignallingStepKeeps(s, s');
    } else {
      StartingStepKeeps(s, s');
    }
  }

  /** A manual compaction is running. Between its end and the start of the next one a call is queued or there
      is none, so successive states that satisfy this belong to one compaction. */
  ghost predicate RunsManual(s: State) {
    s.pool == [Compacting(true)] || s.pool == [NestedFlush(true)]
  }

  ghost predicate RunsManualFrom(run: seq<State>, i: nat, j: nat)
    requires j < |run|
  {
    forall n :: i <= n <= j ==> RunsManual(run[n])
  }

  /** The owner of the running manual compaction gives up: it found an error or a shutdown. */
  ghost predicate OwnerLeaves(s: State, s': State) {
    exists id: nat :: CancelManual(s, s', id)
  }

  /** A request stays while its compaction runs, or its owner leaves; no other takes its place. */
  ghost predicate RequestStep(s: State, s': State) {
    if s.manual.None? then s'.manual.None? else s'.manual == s.manual || (s'.manual.None? && OwnerLeaves(s, s'))
  }

  lemma AskingRequest(s: State, s': State)
    requires Inv(s) && RunsManual(s) && AskingStep(s, s')
    ensures RequestStep(s, s')
  {
    hide HasWork;
    assert WorkInv(s, s.pool[0]);
  }

  lemma WaitingRequest(s: State, s': State)
    requires WaitingStep(s, s')
    ensures RequestStep(s, s')
  {
    hide HasWork;
  }

  lemma RecordingLeaves(s: State)
    ensures var s' := RecordBackgroundError(s);
      s'.manual == s.manual && s'.imm == s.imm && s'.hasImm == s.hasImm && s'.shuttingDown == s.shuttingDown
      && |s'.pool| == |s.pool|
  {
  }

  lemma OtherRequest(s: State, s': State)
    requires OtherStep(s, s')
    ensures RequestStep(s, s')
  {
    hide HasWork, RecordBackgroundError;
    RecordingLeaves(s);
    if id: nat :| CancelManual(s, s', id) {
      assert OwnerLeaves(s, s');
    }
  }

  /** After a call is finished there is none, or a queued one. */
  lemma FinishedCall(s: State, i: nat)
    requires i < |s.pool| && |s.pool| == 1
    ensures FinishCall(s, i).pool == [] || FinishCall(s, i).pool == [Queued]
  {
    hide HasWork;
  }

  lemma EndNestedRequest(s: State, s': State, i: nat, ok: bool, s1: State)
    requires EndNestedFlush(s, s', i, ok, s1)
    ensures s'.manual == s.manual
  {
  }

  lemma EndRequest(s: State, s': State, i: nat, ok: bool, s1: State)
    requires |s.pool| == 1 && EndCompaction(s, s', i, ok, s1)
    ensures !RunsManual(s')
  {
    hide HasWork, FinishCall;
    FinishedCall(if s.pool[i].isManual then s1.(manual := None) else s1, i);
  }

  lemma BackgroundRequest(s: State, s': State)
    requires RunsManual(s) && RunsManual(s') && BackgroundStep(s, s')
    ensures s'.manual == s.manual && RequestStep(s, s')
  {
    hide FinishCall, EndNestedFlush, EndCompaction;
    if i: nat, ok, s1 :| EndCompaction(s, s', i, ok, s1) {
      EndRequest(s, s', i, ok, s1);
    } else if i: nat, ok, s1 :| EndNestedFlush(s, s', i, ok, s1) {
      EndNestedRequest(s, s', i, ok, s1);
    }
  }

  lemma RequestKept(s: State, s': State)
    requires Inv(s) && RunsManual(s) && RunsManual(s') && Next(s, s')
    ensures RequestStep(s, s')
  {
    hide Inv, RunsManual, AskingStep, WaitingStep, OtherStep, BackgroundStep, RequestStep;
    if AskingStep(s, s') { AskingRequest(s, s'); }
    else if WaitingStep(s, s') { WaitingRequest(s, s'); }
    else if OtherStep(s, s') { OtherRequest(s, s'); }
    else { BackgroundRequest(s, s'); }
  }

  /** A running manual compaction finds its request gone if and only if its owner left meanwhile, which it does
      at an error or a shutdown only. */
  lemma {:induction false} RequestIsGone(run: seq<State>, i: nat, j: nat)
    requires IsRun(run) && i <= j < |run| && RunsManualFrom(run, i, j) && run[i].manual.Some?
    ensures run[j].manual.None? <==> exists n: nat :: i <= n < j && OwnerLeaves(run[n], run[n + 1])
    ensures run[j].manual.Some? ==> run[j].manual == run[i].manual
    decreases j
  {
    hide Inv, Next, Init, RunsManual, CancelManual;
    if i < j {
      RequestIsGone(run, i, j - 1);
      RunsAreSafe(run, j - 1);
      assert RunsManual(run[j - 1]) && RunsManual(run[j]);
      assert Next(run[j - 1], run[j - 1 + 1]);
      RequestKept(run[j - 1], run[j]);
      LeavingCancels(run[j - 1], run[j]);
      if run[j].manual.None? {
        if run[j - 1].manual.Some? {
          assert OwnerLeaves(run[j - 1], run[j - 1 + 1]);
        }
      }
    }
  }

  lemma LeavingCancels(s: State, s': State)
    ensures OwnerLeaves(s, s') ==> s.manual.Some? && s'.manual.None? && (s.bgError || s.shuttingDown)
  {
  }

  /** In particular the request is there as long as there is neither an error nor a shutdown. */
  lemma OwnerStays(run: seq<State>, i: nat)
    requires IsRun(run) && i < |run| && RunsManual(run[i]) && !run[i].bgError && !run[i].shuttingDown
    ensures run[i].manual.Some?
  {
    RunsAreSafe(run, i);
    assert WorkInv(run[i], run[i].pool[0]);
  }

  /** It can lose it indeed: a writer's sync fails meanwhile, and the owner gives up. */
  lemma OwnerMayLeave() returns (run: seq<State>)
    ensures IsRun(run) && run[|run| - 1].pool == [Compacting(true)] && run[|run| - 1].manual.None?
  {
    var s0 := State(false, false, None, 0, false, false, false, false, [], map[]);
    var s1 := s0.(manual := Some(0), scheduled := true, pool := [Queued]);
    var s2 := s1.(pool := [Compacting(true)]);
    var s3 := RecordBackgroundError(s2);
    var s4 := s3.(manual := None);
    run := [s0, s1, s2, s3, s4];
    assert s0 == MaybeScheduleCompaction(State(false, false, None, 0, false, false, false, false, [], map[]));
    assert RequestManual(s0, s1, 0);
    assert StartCall(s1, s2, 0, true);
    assert WriterError(s2, s3);
    assert CancelManual(s3, s4, 0);
  }
}
