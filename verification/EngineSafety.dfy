/** What every run of the database guarantees. */
module EngineSafety {
  import opened Bytes
  import opened InternalKeys
  import opened Views
  import opened Compaction
  import opened EngineState
  import opened EngineViews
  import opened EngineInvariant
  import opened EngineWrites
  import opened EngineBackground
  import opened EngineRecovery

  // ----- the invariant holds along every run -----

  lemma InitKeeps(s: State)
    requires Init(s)
    ensures Inv(s)
  {
    assert LogsFrom(s.disk.logs, 0) == {};
  }

  lemma WriterStepKeeps(s: State, s': State)
    requires Inv(s) && WriterStep(s, s')
    ensures Inv(s')
  {
    hide UpInv;
    if batch, count: nat, sync :| AdmitWrite(s, s', batch, count, sync) { AdmitWriteKeeps(s, s', batch, count, sync); }
    else if AppendLog(s, s') { AppendLogKeeps(s, s'); }
    else if FinishWrite(s, s') { FinishWriteKeeps(s, s'); }
    else if FailSync(s, s') { FailSyncKeeps(s, s'); }
    else { SwitchMemtableKeeps(s, s'); }
  }

  lemma FlushStepKeeps(s: State, s': State)
    requires Inv(s) && FlushStep(s, s')
    ensures Inv(s')
  {
    hide UpInv;
    if StartFlush(s, s') { StartFlushKeeps(s, s'); }
    else if BuildTable(s, s') { BuildTableKeeps(s, s'); }
    else if CommitFlush(s, s') { CommitFlushKeeps(s, s'); }
    else if InstallFlush(s, s') { InstallFlushKeeps(s, s'); }
    else {
      var reached :| FailFlush(s, s', reached);
      FailFlushKeeps(s, s', reached);
    }
  }

  lemma JobStepKeeps(s: State, s': State)
    requires Inv(s) && JobStep(s, s')
    ensures Inv(s')
  {
    hide UpInv;
    if job :| StartJob(s, s', job) { StartJobKeeps(s, s', job); }
    else if part :| WriteOutput(s, s', part) { WriteOutputKeeps(s, s', part); }
    else if FinishLoop(s, s') { FinishLoopKeeps(s, s'); }
    else if CommitJob(s, s') { CommitJobKeeps(s, s'); }
    else if InstallJob(s, s') { InstallJobKeeps(s, s'); }
    else {
      var reached :| FailJob(s, s', reached);
      FailJobKeeps(s, s', reached);
    }
  }

  lemma ReaderStepKeeps(s: State, s': State)
    requires Inv(s) && ReaderStep(s, s')
    ensures Inv(s')
  {
    hide UpInv;
    if TakeSnapshot(s, s') { TakeSnapshotKeeps(s, s'); }
    else if i: nat :| ReleaseSnapshot(s, s', i) { ReleaseSnapshotKeeps(s, s', i); }
    else if StartRead(s, s') { StartReadKeeps(s, s'); }
    else {
      var i: nat :| EndRead(s, s', i);
      EndReadKeeps(s, s', i);
    }
  }

  lemma RestartStepKeeps(s: State, s': State)
    requires Inv(s) && RestartStep(s, s')
    ensures Inv(s')
  {
    hide Inv;
    if lost, hidden :| Crash(s, s', lost, hidden) { CrashKeeps(s, s', lost, hidden); }
    else if StartRecovery(s, s') { StartRecoveryKeeps(s, s'); }
    else if n: nat, part :| ReplayPart(s, s', n, part) { ReplayPartKeeps(s, s', n, part); }
    else if n: nat :| ReplayDone(s, s', n) { ReplayDoneKeeps(s, s', n); }
    else if n: nat :| ReuseLog(s, s', n) { ReuseLogKeeps(s, s', n); }
    else {
      var last: nat, save, fails, reached :| Open(s, s', last, save, fails, reached);
      OpenKeeps(s, s', last, save, fails, reached);
    }
  }

  lemma NextKeeps(s: State, s': State)
    requires Inv(s) && Next(s, s')
    ensures Inv(s')
  {
    if RestartStep(s, s') {
      hide *;
      RestartStepKeeps(s, s');
    } else {
      hide Inv, RestartStep, WriterStep, FlushStep, JobStep, ReaderStep;
      if WriterStep(s, s') { WriterStepKeeps(s, s'); }
      else if FlushStep(s, s') { FlushStepKeeps(s, s'); }
      else if JobStep(s, s') { JobStepKeeps(s, s'); }
      else { ReaderStepKeeps(s, s'); }
    }
  }

  lemma {:induction false} RunsAreSafe(run: seq<State>, i: nat)
    requires IsRun(run) && i < |run|
    ensures Inv(run[i])
  {
    hide Inv, Next, Init;
    if i == 0 {
      InitKeeps(run[0]);
    } else {
      RunsAreSafe(run, i - 1);
      assert Next(run[i - 1], run[i - 1 + 1]);
      NextKeeps(run[i - 1], run[i]);
    }
  }

  // ----- what readers see -----

  /** The three layers together look like the writes that readers are to see. */
  lemma ReadersSeeTheWrites(s: State)
    requires s.phase.Up? && UpInv(s)
    ensures SameView(ReadSet(s.disk, s.phase.m), Readable(s.phase.m), s.floor)
    ensures s.floor <= s.phase.m.lastSequence
  {
    hide SameView, LogsOrdered, LogsBetween, LogsFrom, DurableFrom, History, JobInv, Good, Contents, LogsInv, NumbersInv,
         SnapshotsInv, AckedInv;
    var d, m := s.disk, s.phase.m;
    var c, f := Contents(d.tables, m.current.live), m.current.flushed;
    ContentsUnion(d.tables, m.current.live - Inputs(m), m.current.live * Inputs(m));
    assert m.current.live - Inputs(m) + m.current.live * Inputs(m) == m.current.live;
    FitsSubset(ImmSet(m), ImmSet(m), Contents(d.tables, m.current.live - Inputs(m)), c, f);
    AddFits(c, f, ImmSet(m), s.floor);
    AddFits(c + ImmSet(m), f + ImmSet(m), m.mem, s.floor);
    assert ReadSet(d, m) == c + ImmSet(m) + m.mem;
  }

  /** A key's newest acknowledged write is what a reader gets, unless a later one hides it. */
  lemma AcknowledgedWriteIsRead(s: State, e: Entry, t: nat, v: Slice)
    requires s.phase.Up? && UpInv(s) && e in s.acked
    requires s.floor <= t && e.sequence <= t
    requires forall f :: f in Readable(s.phase.m) && f.key == e.key && f.sequence <= t ==> f.sequence <= e.sequence
    ensures Maps(ReadSet(s.disk, s.phase.m), e.key, t, v) <==> e.t == TYPE_VALUE && e.value == v
  {
    hide SameView, LogsOrdered, LogsBetween, LogsFrom, DurableFrom, JobInv, Contents, LogsInv, NumbersInv, SnapshotsInv,
         FlushInv, VersionOk, ReadSet, LayersInv, Readable, InFlight;
    var d, m := s.disk, s.phase.m;
    var all := Readable(m);
    ReadersSeeTheWrites(s);
    ReadableGood(d, m, s.floor);
    OnlyNewest(all, e, t, v);
    SameViewAt(ReadSet(d, m), all, s.floor, e.key, t, v);
  }

  lemma ReadableGood(d: Disk, m: Memory, floor: nat)
    requires LogsInv(d, m) && ManifestInv(d, m, floor)
    ensures Good(Readable(m))
  {
    hide LogsBetween, LogsFrom;
    HistoryParts(d, m);
  }

  lemma SameViewAt(a: set<Entry>, b: set<Entry>, floor: nat, k: Slice, t: nat, v: Slice)
    requires SameView(a, b, floor) && t >= floor
    ensures Maps(a, k, t, v) <==> Maps(b, k, t, v)
  {
  }

  lemma OnlyNewest(es: set<Entry>, e: Entry, t: nat, v: Slice)
    requires Good(es) && e in es && e.sequence <= t
    requires forall f :: f in es && f.key == e.key && f.sequence <= t ==> f.sequence <= e.sequence
    ensures Maps(es, e.key, t, v) <==> e.t == TYPE_VALUE && e.value == v
  {
    assert IsNewest(es, e.key, t, e);
    forall f | IsNewest(es, e.key, t, f)
      ensures f == e
    {
    }
  }

  // ----- durability -----

  /** In every reachable state the files hold the history, with every acknowledged write that no crash took away. */
  lemma HistoryIsOnDisk(run: seq<State>, i: nat)
    requires IsRun(run) && i < |run|
    ensures var s, d, v := run[i], run[i].disk, run[i].disk.manifest.version;
      && v.live <= d.tables.Keys
      && SameView(Contents(d.tables, v.live) + LogsFrom(d.logs, v.logNumber), History(d.logs, v), s.floor)
      && s.acked <= History(d.logs, v) && s.syncAcked <= v.flushed + DurableFrom(d.logs, v.logNumber)
  {
    hide Inv, IsRun, SameView, Contents, LogsFrom, LogsOrdered, DurableFrom, Good;
    RunsAreSafe(run, i);
    ReachableDisk(run[i]);
    var s, d, v := run[i], run[i].disk, run[i].disk.manifest.version;
    assert v.live - {} == v.live;
    AddFits(Contents(d.tables, v.live), v.flushed, LogsFrom(d.logs, v.logNumber), s.floor);
  }

  lemma ReachableDisk(s: State)
    requires Inv(s)
    ensures DiskInv(s)
  {
    hide UpInv, OpeningInv, DiskInv;
    if s.phase.Up? {
      RunningDisk(s);
    }
  }

  /** A crash takes away a write that no table stands for: it was not synced, or stands behind a cut record. */
  ghost predicate Takes(s: State, s': State, e: Entry) {
    exists lost, hidden :: Crash(s, s', lost, hidden) && e in lost + hidden - s.disk.manifest.version.flushed
  }

  /** It stands behind a cut record. */
  ghost predicate Hides(s: State, s': State, e: Entry) {
    exists lost, hidden :: Crash(s, s', lost, hidden) && e in hidden - s.disk.manifest.version.flushed
  }

  /** A step withdraws an acknowledgement if and only if it is a crash that takes the write away. */
  lemma AcknowledgedStays(s: State, s': State, e: Entry)
    requires Next(s, s')
    ensures e in s.acked ==> (e in s'.acked <==> !Takes(s, s', e))
    ensures e in s.syncAcked ==> (e in s'.syncAcked <==> !Hides(s, s', e))
  {
    hide DeleteObsoleteFiles, Contents, LogsFrom, Setting, Kept, LogsBetween, Edit, FreshBatch, AllReplayed, RecoveredSequence,
         NextLog, CrashedLog;
  }

  /** Opening makes readable exactly what the files held. */
  lemma OpeningRebuilds(s: State, s': State, last: nat, save: bool, reached: bool)
    requires Inv(s) && Open(s, s', last, save, false, reached)
    ensures s'.phase.Up? && Readable(s'.phase.m) == History(s.disk.logs, s.disk.manifest.version)
  {
    hide DiskInv, LastLogNewest, OpeningInv, AllReplayed, RecoveredSequence, LogsBetween, LogsFrom, DeleteObsoleteFiles,
         UpInv, LogsInv;
    OpenStarts(s, s', last, save, false, reached);
    OpenedLogs(s);
    SavedHistory(s);
    var d, o, m := s.disk, s.phase.o, s'.phase.m;
    var s1 := s.(disk := Disk(d.tables, OpenLogs(d, o), if save then Manifest(m.current, m.nextFile, last) else d.manifest),
                 phase := Up(m));
    assert JustOpened(s, s1, last, save);
    OpenedLogsInv(s, s1, last, save);
    HistoryParts(s1.disk, m);
  }

  // ----- snapshots -----

  /** The layers change in four steps only. */
  ghost predicate LayersStep(s: State, s': State)
    requires s.phase.Up? && s'.phase.Up?
  {
    var m, m' := s.phase.m, s'.phase.m;
    && (|| FinishWrite(s, s') || SwitchMemtable(s, s') || InstallFlush(s, s') || InstallJob(s, s')
        || (m'.current == m.current && m'.imm == m.imm && m'.mem == m.mem))
    && s.floor <= s'.floor && m.lastSequence <= m'.lastSequence
  }

  lemma WriterLayers(s: State, s': State)
    requires WriterStep(s, s')
    ensures s.phase.Up? && s'.phase.Up? && LayersStep(s, s')
  {
    hide FreshBatch;
  }

  lemma FlushLayers(s: State, s': State)
    requires FlushStep(s, s')
    ensures s.phase.Up? && s'.phase.Up? && LayersStep(s, s')
  {
    hide DeleteObsoleteFiles, FlushManifest;
  }

  lemma JobLayers(s: State, s': State)
    requires JobStep(s, s')
    ensures s.phase.Up? && s'.phase.Up? && LayersStep(s, s')
  {
    hide DeleteObsoleteFiles, JobManifest, Setting, Kept, Contents;
  }

  lemma ReaderLayers(s: State, s': State)
    requires ReaderStep(s, s')
    ensures s.phase.Up? && s'.phase.Up? && LayersStep(s, s')
  {
  }

  lemma RestartChangesPhase(s: State, s': State)
    requires RestartStep(s, s')
    ensures !(s.phase.Up? && s'.phase.Up?)
  {
    hide RecoveredSequence, LogsBetween, DeleteObsoleteFiles;
  }

  lemma LayersStay(s: State, s': State)
    requires s.phase.Up? && s'.phase.Up? && Next(s, s')
    ensures LayersStep(s, s')
  {
    hide WriterStep, FlushStep, JobStep, ReaderStep, RestartStep, LayersStep;
    if WriterStep(s, s') { WriterLayers(s, s'); }
    else if FlushStep(s, s') { FlushLayers(s, s'); }
    else if JobStep(s, s') { JobLayers(s, s'); }
    else if ReaderStep(s, s') { ReaderLayers(s, s'); }
    else { RestartChangesPhase(s, s'); }
  }

  /** While the database runs, readers lose nothing, and what is new is newer than the last sequence number. */
  lemma ReadableGrows(s: State, s': State)
    requires s.phase.Up? && s'.phase.Up? && LayersInv(s.phase.m) && Next(s, s')
    ensures Readable(s.phase.m) <= Readable(s'.phase.m)
    ensures forall e :: e in Readable(s'.phase.m) && e !in Readable(s.phase.m) ==> e.sequence > s.phase.m.lastSequence
    ensures s.floor <= s'.floor && s.phase.m.lastSequence <= s'.phase.m.lastSequence
  {
    hide DeleteObsoleteFiles, Next, Newer;
    LayersStay(s, s');
  }

  lemma LayersHold(s: State)
    requires s.phase.Up? && UpInv(s)
    ensures LayersInv(s.phase.m)
  {
  }

  /** One step of a running database does not change what a key is mapped to at a sequence number that is
      not new and that the step leaves readable. */
  lemma StepKeepsView(s: State, s': State, k: Slice, t: nat, v: Slice)
    requires s.phase.Up? && s'.phase.Up? && UpInv(s) && UpInv(s') && Next(s, s')
    requires s'.floor <= t <= s.phase.m.lastSequence
    ensures Maps(ReadSet(s.disk, s.phase.m), k, t, v) <==> Maps(ReadSet(s'.disk, s'.phase.m), k, t, v)
  {
    hide SameView, UpInv, Next, Readable, ReadSet, Maps;
    LayersHold(s);
    ReadersSeeTheWrites(s);
    ReadersSeeTheWrites(s');
    ReadableGrows(s, s');
    SameViewAt(ReadSet(s.disk, s.phase.m), Readable(s.phase.m), s.floor, k, t, v);
    SameViewAt(ReadSet(s'.disk, s'.phase.m), Readable(s'.phase.m), s'.floor, k, t, v);
    SameNewest(Readable(s.phase.m), Readable(s'.phase.m), k, t, v);
  }

  /** A snapshot that is held from state `i` to state `j` of a run. */
  ghost predicate Held(run: seq<State>, i: nat, j: nat, t: nat) {
    forall n :: i <= n <= j && n < |run| ==> run[n].phase.Up? && t in run[n].phase.m.snapshots
  }

  lemma HeldIsReadable(s: State, t: nat)
    requires s.phase.Up? && UpInv(s) && t in s.phase.m.snapshots
    ensures s.floor <= t <= s.phase.m.lastSequence
  {
    hide SameView, LogsOrdered, LogsBetween, LogsFrom, DurableFrom, History, JobInv, Good, Contents, LogsInv, NumbersInv,
         AckedInv, VersionOk, FlushInv;
  }

  /** What a snapshot shows does not change while it is held, whatever is written, flushed, compacted or
      collected meanwhile. */
  lemma {:induction false} SnapshotsAreStable(run: seq<State>, i: nat, j: nat, k: Slice, t: nat, v: Slice)
    requires IsRun(run) && i <= j < |run| && Held(run, i, j, t)
    ensures Maps(ReadSet(run[i].disk, run[i].phase.m), k, t, v) <==> Maps(ReadSet(run[j].disk, run[j].phase.m), k, t, v)
  {
    hide UpInv, Next, Init, ReadSet, Maps;
    if i < j {
      assert Held(run, i, j - 1, t);
      SnapshotsAreStable(run, i, j - 1, k, t, v);
      assert Next(run[j - 1], run[j - 1 + 1]);
      RunsAreSafe(run, j - 1);
      RunsAreSafe(run, j);
      assert run[j - 1].phase.Up? && run[j].phase.Up?;
      HeldIsReadable(run[j - 1], t);
      HeldIsReadable(run[j], t);
      StepKeepsView(run[j - 1], run[j], k, t, v);
    }
  }

  /** The smallest snapshot of a running compaction bounds all snapshots that are held and all that can still
      be taken. */
  lemma SmallestSnapshotIsLowerBound(run: seq<State>, i: nat)
    requires IsRun(run) && i < |run| && run[i].phase.Up? && run[i].phase.m.job.Some?
    ensures var m := run[i].phase.m;
      && (forall t :: t in m.snapshots ==> m.job.value.smallest <= t)
      && m.job.value.smallest <= m.lastSequence
  {
    hide Next, Init, SameView, LogsOrdered, LogsBetween, LogsFrom, DurableFrom, History, Good, Contents, LogsInv, NumbersInv,
         AckedInv, VersionOk, FlushInv, Setting, Kept;
    RunsAreSafe(run, i);
  }

  /** It is the largest such bound when the compaction starts: everything below it may go. */
  lemma SmallestSnapshotIsTight(run: seq<State>, i: nat, job: Job, n: nat)
    requires IsRun(run) && i < |run| - 1 && StartJob(run[i], run[i + 1], job)
    ensures var m := run[i].phase.m;
      n <= job.smallest <==> n <= m.lastSequence && forall t :: t in m.snapshots ==> n <= t
  {
    hide Next, Init, SameView, LogsOrdered, LogsBetween, LogsFrom, DurableFrom, History, Good, Contents, LogsInv, NumbersInv,
         AckedInv, VersionOk, FlushInv, JobInv, Setting, Kept;
    RunsAreSafe(run, i);
    var m := run[i].phase.m;
    if m.snapshots != [] {
      assert m.snapshots[0] in m.snapshots;
    }
  }

  /** A new snapshot can be read at once, and shows all that was acknowledged before it was taken. */
  lemma NewSnapshotIsReadable(s: State, s': State)
    requires s.phase.Up? && UpInv(s) && TakeSnapshot(s, s')
    ensures var t := s.phase.m.lastSequence;
      && s'.floor <= t && t in s'.phase.m.snapshots && forall e :: e in s.acked ==> e.sequence <= t
  {
    hide SameView, LogsOrdered, LogsBetween, LogsFrom, DurableFrom, History, JobInv, Good, Contents, LogsInv, NumbersInv,
         VersionOk, FlushInv, Newer;
    var m' := s'.phase.m;
    assert m'.snapshots[|m'.snapshots| - 1] == s.phase.m.lastSequence;
  }

  // ----- reading layer by layer -----

  ghost predicate Hits(layer: set<Entry>, k: Slice, t: nat) {
    exists e :: e in layer && ShowsFor(e, k, t)
  }

  /** DBImpl::Get: the memtable, then the immutable one, then the tables; the first with an entry decides. */
  ghost predicate Gets(d: Disk, m: Memory, k: Slice, t: nat, v: Slice) {
    if Hits(m.mem, k, t) then Maps(m.mem, k, t, v)
    else if Hits(ImmSet(m), k, t) then Maps(ImmSet(m), k, t, v)
    else Maps(Contents(d.tables, m.current.live), k, t, v)
  }

  /** A layer with newer entries only decides for the keys it has. */
  lemma FirstLayerDecides(first: set<Entry>, rest: set<Entry>, k: Slice, t: nat, v: Slice)
    requires Newer(first, rest)
    ensures Maps(first + rest, k, t, v) <==> if Hits(first, k, t) then Maps(first, k, t, v) else Maps(rest, k, t, v)
  {
    if Hits(first, k, t) {
      var e :| e in first && ShowsFor(e, k, t);
      forall x
        ensures IsNewest(first + rest, k, t, x) <==> IsNewest(first, k, t, x)
      {
        if IsNewest(first + rest, k, t, x) {
          assert Tag(e) <= Tag(x);
        }
        if IsNewest(first, k, t, x) {
          assert forall f :: f in rest ==> Tag(f) <= Tag(x);
        }
      }
    } else {
      SameNewest(first + rest, rest, k, t, v);
    }
  }

  /** The first hit is the newest entry over all layers. */
  lemma GetFindsTheNewest(s: State, k: Slice, t: nat, v: Slice)
    requires s.phase.Up? && UpInv(s)
    ensures Gets(s.disk, s.phase.m, k, t, v) <==> Maps(ReadSet(s.disk, s.phase.m), k, t, v)
  {
    hide SameView, LogsOrdered, LogsBetween, LogsFrom, DurableFrom, History, JobInv, Good, LogsInv, NumbersInv,
         SnapshotsInv, AckedInv, FlushInv, ManifestInv, Maps, Hits, Contents;
    var d, m := s.disk, s.phase.m;
    var tables := Contents(d.tables, m.current.live);
    FirstLayerDecides(ImmSet(m), tables, k, t, v);
    FirstLayerDecides(m.mem, ImmSet(m) + tables, k, t, v);
    assert ReadSet(d, m) == m.mem + (ImmSet(m) + tables);
  }

  // ----- files -----

  /** In every reachable state every file that is still needed is there. */
  lemma NeededFilesExist(run: seq<State>, i: nat, n: nat)
    requires IsRun(run) && i < |run| && run[i].phase.Up?
    ensures var d, m := run[i].disk, run[i].phase.m;
      && (TableNeeded(d, m, n) && (m.flush.Some? ==> n != m.flush.value.table) && n !in m.pendingOutputs ==> n in d.tables)
      && (m.flush.Some? ==> m.imm.Some?)
      && (m.flush.Some? && !m.flush.value.stage.Working? && n in FlushTables(m) ==>
            n in d.tables && d.tables[n] == m.imm.value)
      && (m.job.Some? && n in m.job.value.outputs ==> n in d.tables)
      && m.mem + ImmSet(m) <= LogsFrom(d.logs, m.current.logNumber)
  {
    hide Next, Init, SameView, LogsOrdered, LogsBetween, LogsFrom, DurableFrom, History, Good, Setting, Kept, Fits, AckedInv,
         Entries, Contents;
    RunsAreSafe(run, i);
    HistoryParts(run[i].disk, run[i].phase.m);
  }

  /** Files are deleted in two steps only, and a table that is there is never written again, except under a
      number that is not in use yet. */
  ghost predicate FilesStep(s: State, s': State)
    requires s.phase.Up?
  {
    && (|| InstallFlush(s, s') || InstallJob(s, s')
        || (s.disk.tables.Keys <= s'.disk.tables.Keys && s.disk.logs.Keys <= s'.disk.logs.Keys))
    && forall n :: n in s.disk.tables && n in s'.disk.tables ==>
         || s'.disk.tables[n] == s.disk.tables[n] || n == s.phase.m.nextFile
         || (BuildTable(s, s') && n == s.phase.m.flush.value.table)
  }

  lemma WriterFiles(s: State, s': State)
    requires WriterStep(s, s')
    ensures s.phase.Up? && FilesStep(s, s')
  {
    hide FreshBatch;
  }

  lemma FlushFiles(s: State, s': State)
    requires FlushStep(s, s')
    ensures s.phase.Up? && FilesStep(s, s')
  {
    hide KeptLogs, FlushManifest;
  }

  lemma JobFiles(s: State, s': State)
    requires JobStep(s, s')
    ensures s.phase.Up? && FilesStep(s, s')
  {
    hide KeptLogs, JobManifest, Setting, Kept, Contents;
  }

  lemma ReaderFiles(s: State, s': State)
    requires ReaderStep(s, s')
    ensures s.phase.Up? && FilesStep(s, s')
  {
  }

  lemma FilesStay(s: State, s': State)
    requires s.phase.Up? && s'.phase.Up? && Next(s, s')
    ensures FilesStep(s, s')
  {
    hide WriterStep, FlushStep, JobStep, ReaderStep, RestartStep, FilesStep;
    if WriterStep(s, s') { WriterFiles(s, s'); }
    else if FlushStep(s, s') { FlushFiles(s, s'); }
    else if JobStep(s, s') { JobFiles(s, s'); }
    else if ReaderStep(s, s') { ReaderFiles(s, s'); }
    else { RestartChangesPhase(s, s'); }
  }

  /** No step of a running database takes away a file that is needed after it. */
  lemma NeededFilesStay(s: State, s': State, n: nat)
    requires s.phase.Up? && s'.phase.Up? && UpInv(s) && Next(s, s')
    ensures n in s.disk.tables && TableNeeded(s'.disk, s'.phase.m, n) ==> n in s'.disk.tables
    ensures n in s.disk.logs && n >= s'.disk.manifest.version.logNumber ==> n in s'.disk.logs
  {
    hide UpInv, Next, LogsFrom, ImmSet;
    FilesStay(s, s');
    var s1 := s.(phase := s'.phase);
    if InstallFlush(s, s') {
      InstalledFlush(s, s'.phase.m);
      FlushLeavesJob(s);
      CollectingIsSafe(s1);
    } else if InstallJob(s, s') {
      InstalledJob(s, s'.phase.m);
      JobLeavesFlush(s);
      CollectingIsSafe(s1);
    }
  }
}
