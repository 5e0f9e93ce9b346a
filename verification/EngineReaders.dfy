/** What a Get or an iterator sees while it works: memtable, immutable memtable and version were pinned when it
    started, and it goes on without the mutex. */
module EngineReaders {
  import opened Bytes
  import opened InternalKeys
  import opened Views
  import opened Compaction
  import opened EngineState
  import opened EngineViews
  import opened EngineInvariant
  import opened EngineSafety

  /** A table being built is not part of a version that a reader holds. */
  ghost predicate Apart(m: Memory) {
    m.flush.Some? ==> !InUse(m.readers, m.flush.value.table)
  }

  /** Which flush runs and which versions are held changes in few steps. */
  ghost predicate PinsStep(s: State, s': State)
    requires s.phase.Up? && s'.phase.Up?
  {
    var m, m' := s.phase.m, s'.phase.m;
    || StartFlush(s, s') || StartRead(s, s') || (exists i: nat :: EndRead(s, s', i))
    || (&& m'.readers == m.readers
        && (m'.flush.Some? ==> m.flush.Some? && m'.flush.value.table == m.flush.value.table))
  }

  lemma WriterPins(s: State, s': State)
    requires WriterStep(s, s')
    ensures s.phase.Up? && s'.phase.Up? && PinsStep(s, s')
  {
    hide FreshBatch;
  }

  lemma FlushPins(s: State, s': State)
    requires FlushStep(s, s')
    ensures s.phase.Up? && s'.phase.Up? && PinsStep(s, s')
  {
    hide DeleteObsoleteFiles, FlushManifest;
  }

  lemma JobPins(s: State, s': State)
    requires JobStep(s, s')
    ensures s.phase.Up? && s'.phase.Up? && PinsStep(s, s')
  {
    hide DeleteObsoleteFiles, JobManifest, Setting, Kept, Contents;
  }

  lemma ReaderPins(s: State, s': State)
    requires ReaderStep(s, s')
    ensures s.phase.Up? && s'.phase.Up? && PinsStep(s, s')
  {
  }

  lemma PinsStay(s: State, s': State)
    requires s.phase.Up? && s'.phase.Up? && Next(s, s')
    ensures PinsStep(s, s')
  {
    hide WriterStep, FlushStep, JobStep, ReaderStep, RestartStep, PinsStep;
    if WriterStep(s, s') { WriterPins(s, s'); }
    else if FlushStep(s, s') { FlushPins(s, s'); }
    else if JobStep(s, s') { JobPins(s, s'); }
    else if ReaderStep(s, s') { ReaderPins(s, s'); }
    else { RestartChangesPhase(s, s'); }
  }

  lemma NumbersHold(s: State)
    requires s.phase.Up? && UpInv(s)
    ensures NumbersInv(s.disk, s.phase.m)
    ensures s.phase.m.flush.Some? ==> s.phase.m.flush.value.table !in s.phase.m.current.live
  {
    hide VersionOk, LogsInv, LayersInv, ManifestInv, SnapshotsInv, JobInv, AckedInv;
  }

  lemma StepKeepsApart(s: State, s': State)
    requires s.phase.Up? && s'.phase.Up? && UpInv(s) && Apart(s.phase.m) && Next(s, s')
    ensures Apart(s'.phase.m)
  {
    hide UpInv, Next;
    NumbersHold(s);
    PinsStay(s, s');
  }

  lemma OpenIsApart(s: State, s': State)
    requires !s.phase.Up? && s'.phase.Up? && Next(s, s')
    ensures Apart(s'.phase.m)
  {
    hide RecoveredSequence, LogsBetween, DeleteObsoleteFiles, AllReplayed;
  }

  lemma {:induction false} AlwaysApart(run: seq<State>, i: nat)
    requires IsRun(run) && i < |run| && run[i].phase.Up?
    ensures Apart(run[i].phase.m)
  {
    hide UpInv, Next, Apart;
    if i > 0 {
      assert Next(run[i - 1], run[i - 1 + 1]);
      if run[i - 1].phase.Up? {
        AlwaysApart(run, i - 1);
        RunsAreSafe(run, i - 1);
        StepKeepsApart(run[i - 1], run[i]);
      } else {
        OpenIsApart(run[i - 1], run[i]);
      }
    }
  }

  /** A released snapshot, or a reader that lets go, is gone, and the others stay in their order. */
  lemma {:induction false} ReleasedIsGone(s: State, s': State, i: nat)
    ensures ReleaseSnapshot(s, s', i) ==>
      var was, now := s.phase.m.snapshots, s'.phase.m.snapshots;
      |now| == |was| - 1 && now[..i] == was[..i] && now[i..] == was[i + 1..] && i < |was|
    ensures EndRead(s, s', i) ==>
      var was, now := s.phase.m.readers, s'.phase.m.readers;
      |now| == |was| - 1 && now[..i] == was[..i] && now[i..] == was[i + 1..] && i < |was|
  {
  }

  // ----- what was pinned -----

  /** A reader pins the version of state `i`, and holds it up to state `j`. */
  ghost predicate Pinned(run: seq<State>, i: nat, j: nat) {
    && i < j < |run| && StartRead(run[i], run[i + 1])
    && forall n :: i < n <= j ==> run[n].phase.Up? && run[i].phase.m.current.live in run[n].phase.m.readers
  }

  ghost predicate Switched(run: seq<State>, i: nat, j: nat)
    requires j < |run|
  {
    exists n :: i <= n < j && SwitchMemtable(run[n], run[n + 1])
  }

  /** The memtable of state `i` as it is in state `j`: written to until a switch makes it immutable. */
  ghost function PinnedMem(run: seq<State>, i: nat, j: nat): set<Entry>
    requires i <= j < |run| && forall n :: i <= n <= j ==> run[n].phase.Up?
  {
    if i < j && Switched(run, i, j) then PinnedMem(run, i, j - 1) else run[j].phase.m.mem
  }

  /** What a reader that started in state `i` looks at in state `j`. */
  ghost function PinnedSet(run: seq<State>, i: nat, j: nat): set<Entry>
    requires Pinned(run, i, j)
  {
    Contents(run[j].disk.tables, run[i].phase.m.current.live) + ImmSet(run[i].phase.m) + PinnedMem(run, i, j)
  }

  /** A table that a reader holds is there, and its contents do not change. */
  lemma HeldTable(s: State, s': State, live: set<nat>, n: nat)
    requires s.phase.Up? && s'.phase.Up? && UpInv(s) && UpInv(s') && Apart(s.phase.m) && Next(s, s')
    requires live in s.phase.m.readers && live in s'.phase.m.readers && n in live
    ensures n in s.disk.tables && n in s'.disk.tables && s'.disk.tables[n] == s.disk.tables[n]
  {
    hide UpInv, Next, InstallFlush, InstallJob;
    NumbersHold(s);
    NumbersHold(s');
    FilesStay(s, s');
    var i :| 0 <= i < |s.phase.m.readers| && s.phase.m.readers[i] == live;
    var j :| 0 <= j < |s'.phase.m.readers| && s'.phase.m.readers[j] == live;
    assert s.phase.m.readers[i] <= s.disk.tables.Keys && s'.phase.m.readers[j] <= s'.disk.tables.Keys;
  }

  lemma {:induction false} HeldTables(run: seq<State>, i: nat, j: nat)
    requires IsRun(run) && Pinned(run, i, j)
    ensures Contents(run[j].disk.tables, run[i].phase.m.current.live)
            == Contents(run[i].disk.tables, run[i].phase.m.current.live)
    decreases j
  {
    hide UpInv, Next, Init, Contents, Apart;
    var live := run[i].phase.m.current.live;
    if j > i + 1 {
      HeldTables(run, i, j - 1);
      assert Next(run[j - 1], run[j - 1 + 1]);
      RunsAreSafe(run, j - 1);
      RunsAreSafe(run, j);
      AlwaysApart(run, j - 1);
      assert run[j - 1].phase.Up? && live in run[j - 1].phase.m.readers;
      forall n | n in live
        ensures n in run[j - 1].disk.tables && n in run[j].disk.tables
        ensures run[j].disk.tables[n] == run[j - 1].disk.tables[n]
      {
        HeldTable(run[j - 1], run[j], live, n);
      }
      SameContents(run[j - 1].disk.tables, run[j].disk.tables, live);
    }
  }

  /** Without a switch the memtable only grows, by entries newer than the last sequence number. */
  lemma MemtableGrows(s: State, s': State)
    requires s.phase.Up? && s'.phase.Up? && UpInv(s) && Next(s, s') && !SwitchMemtable(s, s')
    ensures s.phase.m.mem <= s'.phase.m.mem
    ensures forall e :: e in s'.phase.m.mem && e !in s.phase.m.mem ==> e.sequence > s.phase.m.lastSequence
  {
    hide UpInv, Next, DeleteObsoleteFiles, SwitchMemtable, Newer;
    LayersHold(s);
    LayersStay(s, s');
  }

  lemma LastSequenceGrows(s: State, s': State)
    requires s.phase.Up? && s'.phase.Up? && Next(s, s')
    ensures s.phase.m.lastSequence <= s'.phase.m.lastSequence
  {
    hide Next, InstallFlush, InstallJob, FinishWrite, SwitchMemtable;
    LayersStay(s, s');
  }

  lemma {:induction false} PinnedMemGrows(run: seq<State>, i: nat, j: nat)
    requires IsRun(run) && i <= j < |run| && forall n :: i <= n <= j ==> run[n].phase.Up?
    ensures run[i].phase.m.lastSequence <= run[j].phase.m.lastSequence
    ensures run[i].phase.m.mem <= PinnedMem(run, i, j)
    ensures forall e :: e in PinnedMem(run, i, j) && e !in run[i].phase.m.mem ==> e.sequence > run[i].phase.m.lastSequence
    decreases j
  {
    hide UpInv, Next, Init, SwitchMemtable;
    if i < j {
      PinnedMemGrows(run, i, j - 1);
      assert Next(run[j - 1], run[j - 1 + 1]);
      RunsAreSafe(run, j - 1);
      LastSequenceGrows(run[j - 1], run[j]);
      if !Switched(run, i, j) {
        assert !SwitchMemtable(run[j - 1], run[j - 1 + 1]);
        assert !Switched(run, i, j - 1);
        MemtableGrows(run[j - 1], run[j]);
      }
    }
  }

  lemma ImmStays(s: State, s': State)
    requires s.phase.Up? && s'.phase.Up? && Next(s, s') && s.phase.m.imm.Some? && s'.phase.m.imm.Some?
    ensures s'.phase.m.imm == s.phase.m.imm && !SwitchMemtable(s, s')
  {
    hide Next, DeleteObsoleteFiles;
    LayersStay(s, s');
  }

  /** From the switch at `n` on the pinned memtable is the immutable one, until that is flushed. */
  lemma {:induction false} PinnedMemIsImm(run: seq<State>, i: nat, n: nat, j: nat)
    requires IsRun(run) && i <= n < j < |run| && forall x :: i <= x <= j ==> run[x].phase.Up?
    requires SwitchMemtable(run[n], run[n + 1]) && !Switched(run, i, n)
    requires forall x :: n < x <= j ==> run[x].phase.m.imm.Some?
    ensures run[j].phase.m.imm == Some(PinnedMem(run, i, j))
    decreases j
  {
    hide Next, Init;
    if j > n + 1 {
      PinnedMemIsImm(run, i, n, j - 1);
      assert Next(run[j - 1], run[j - 1 + 1]);
      ImmStays(run[j - 1], run[j]);
    }
    assert Switched(run, i, j);
  }

  /** What a reader sees at a sequence number that was there when it started does not change while it reads, and
      takes no snapshot, whatever is written, flushed, compacted or collected meanwhile. */
  lemma PinnedReadersAreStable(run: seq<State>, i: nat, j: nat, k: Slice, t: nat, v: Slice)
    requires IsRun(run) && Pinned(run, i, j) && t <= run[i].phase.m.lastSequence
    ensures Maps(PinnedSet(run, i, j), k, t, v) <==> Maps(ReadSet(run[i].disk, run[i].phase.m), k, t, v)
    ensures run[i].floor <= t ==> (Maps(PinnedSet(run, i, j), k, t, v) <==> Maps(Readable(run[i].phase.m), k, t, v))
  {
    hide UpInv, Next, Init, SwitchMemtable, Contents, Maps, SameView, Readable, PinnedMem;
    HeldTables(run, i, j);
    PinnedMemGrows(run, i, j);
    SameNewest(PinnedSet(run, i, j), ReadSet(run[i].disk, run[i].phase.m), k, t, v);
    RunsAreSafe(run, i);
    ReadersSeeTheWrites(run[i]);
    if run[i].floor <= t {
      SameViewAt(ReadSet(run[i].disk, run[i].phase.m), Readable(run[i].phase.m), run[i].floor, k, t, v);
    }
  }
}
