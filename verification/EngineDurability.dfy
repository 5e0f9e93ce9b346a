/** Which acknowledged writes survive which crashes, over whole runs. What can be said depends on one branch of
    recovery: whether a log that ends in a cut record is kept in use. */
module EngineDurability {
  import opened Bytes
  import opened InternalKeys
  import opened Views
  import opened Compaction
  import opened EngineState
  import opened EngineViews
  import opened EngineInvariant
  import opened EngineRecovery
  import opened EngineSafety

  lemma DurableIsThere(logs: map<nat, LogFile>, lo: nat)
    ensures DurableFrom(logs, lo) <= LogsFrom(logs, lo)
  {
    forall e | e in DurableFrom(logs, lo)
      ensures e in LogsFrom(logs, lo)
    {
      var n :| n in logs && lo <= n && e in logs[n].durable;
      assert e in logs[n].All();
    }
  }

  // ----- what recovery brings back -----

  /** Entries in the logs that a reader certainly finds: they do not stand behind a cut record. */
  ghost function FoundFrom(logs: map<nat, LogFile>, lo: nat): set<Entry> {
    set n, e | n in logs && lo <= n && e in logs[n].All() - logs[n].behind :: e
  }

  /** The writes that opening the files certainly brings back. */
  ghost function Recoverable(d: Disk): set<Entry> {
    d.manifest.version.flushed + FoundFrom(d.logs, d.manifest.version.logNumber)
  }

  ghost predicate Exposed(logs: map<nat, LogFile>, e: Entry) {
    exists n :: n in logs && e in logs[n].behind
  }

  /** Nothing stands behind a cut record: a reader finds every entry of every log. */
  ghost predicate Findable(logs: map<nat, LogFile>) {
    forall n :: n in logs ==> logs[n].behind == {}
  }

  lemma FoundParts(logs: map<nat, LogFile>, lo: nat)
    ensures FoundFrom(logs, lo) <= LogsFrom(logs, lo)
    ensures forall e :: e in LogsFrom(logs, lo) ==> e in FoundFrom(logs, lo) || Exposed(logs, e)
  {
    hide LogFile.All;
    forall e | e in FoundFrom(logs, lo)
      ensures e in LogsFrom(logs, lo)
    {
      var n :| n in logs && lo <= n && e in logs[n].All() - logs[n].behind;
      assert e in logs[n].All();
    }
    forall e | e in LogsFrom(logs, lo) && !Exposed(logs, e)
      ensures e in FoundFrom(logs, lo)
    {
      var n :| n in logs && lo <= n && e in logs[n].All();
      assert e in logs[n].All() - logs[n].behind;
    }
  }

  lemma NoneExposed(logs: map<nat, LogFile>)
    requires Findable(logs)
    ensures forall e :: !Exposed(logs, e)
  {
  }

  lemma AllFound(d: Disk)
    requires Findable(d.logs)
    ensures FoundFrom(d.logs, d.manifest.version.logNumber) == LogsFrom(d.logs, d.manifest.version.logNumber)
    ensures Recoverable(d) == History(d.logs, d.manifest.version)
  {
    FoundParts(d.logs, d.manifest.version.logNumber);
    NoneExposed(d.logs);
  }

  /** While the database does not run, what is in its logs is what a reader finds. */
  lemma DownStep(s: State, s': State)
    requires Next(s, s') && !s'.phase.Up? && (!s.phase.Up? ==> Findable(s.disk.logs))
    ensures Findable(s'.disk.logs)
  {
    hide WriterStep, FlushStep, JobStep, ReaderStep;
    if RestartStep(s, s') {
      RestartLogs(s, s');
    } else {
      StaysUp(s, s');
    }
  }

  lemma StaysUp(s: State, s': State)
    requires Next(s, s') && !RestartStep(s, s')
    ensures s.phase.Up? && s'.phase.Up?
  {
    hide WriterStep, FlushStep, JobStep, ReaderStep, RestartStep, LayersStep;
    if WriterStep(s, s') { WriterLayers(s, s'); }
    else if FlushStep(s, s') { FlushLayers(s, s'); }
    else if JobStep(s, s') { JobLayers(s, s'); }
    else { ReaderLayers(s, s'); }
  }

  lemma CrashFinds(s: State, s': State, lost: set<Entry>, hidden: set<Entry>)
    requires Crash(s, s', lost, hidden)
    ensures Findable(s'.disk.logs)
  {
    forall n: nat | n in s'.disk.logs
      ensures s'.disk.logs[n].behind == {}
    {
      assert n in s.disk.logs && CrashedLog(s.disk.logs[n], s'.disk.logs[n], lost, hidden);
    }
  }

  lemma RestartLogs(s: State, s': State)
    requires RestartStep(s, s') && !s'.phase.Up? && (!s.phase.Up? ==> Findable(s.disk.logs))
    ensures Findable(s'.disk.logs)
  {
    hide RecoveredSequence, LogsBetween, DeleteObsoleteFiles, Crash;
    if lost, hidden :| Crash(s, s', lost, hidden) {
      CrashFinds(s, s', lost, hidden);
    } else if last: nat, save, fails, reached :| Open(s, s', last, save, fails, reached) {
      assert s'.disk.logs == OpenLogs(s.disk, s.phase.o);
    }
  }

  lemma {:induction false} DownIsFindable(run: seq<State>, i: nat)
    requires IsRun(run) && i < |run| && !run[i].phase.Up?
    ensures Findable(run[i].disk.logs)
  {
    hide Next, Findable;
    if i == 0 {
      NoLogs(run[0]);
    } else {
      assert Next(run[i - 1], run[i - 1 + 1]);
      if !run[i - 1].phase.Up? {
        DownIsFindable(run, i - 1);
      }
      DownStep(run[i - 1], run[i]);
    }
  }

  lemma NoLogs(s: State)
    requires Init(s)
    ensures Findable(s.disk.logs)
  {
  }

  /** In every reachable state the tables of the version in the manifest, with what is found in the logs that are
      still needed on top, show the recoverable writes. These are all the acknowledged writes that no crash took away,
      except for those that stand behind a cut record at the moment, which there are in a running database only. */
  lemma NothingIsLost(run: seq<State>, i: nat)
    requires IsRun(run) && i < |run|
    ensures var s, d, v := run[i], run[i].disk, run[i].disk.manifest.version;
      && v.live <= d.tables.Keys
      && SameView(Contents(d.tables, v.live) + FoundFrom(d.logs, v.logNumber), Recoverable(d), s.floor)
      && (forall e :: e in s.acked + s.syncAcked ==> e in Recoverable(d) || Exposed(d.logs, e))
      && (!s.phase.Up? ==> forall e :: !Exposed(d.logs, e))
  {
    hide Inv, IsRun, SameView, Contents, LogsFrom, LogsOrdered, DurableFrom, Good, FoundFrom, Findable, Exposed;
    HistoryIsOnDisk(run, i);
    RunsAreSafe(run, i);
    ReachableDisk(run[i]);
    var s, d, v := run[i], run[i].disk, run[i].disk.manifest.version;
    DurableIsThere(d.logs, v.logNumber);
    FoundParts(d.logs, v.logNumber);
    assert v.live - {} == v.live;
    FitsSubset(LogsFrom(d.logs, v.logNumber), FoundFrom(d.logs, v.logNumber), Contents(d.tables, v.live),
               Contents(d.tables, v.live), v.flushed);
    AddFits(Contents(d.tables, v.live), v.flushed, FoundFrom(d.logs, v.logNumber), s.floor);
    if !s.phase.Up? {
      DownIsFindable(run, i);
      NoneExposed(d.logs);
    }
  }

  // ----- what a crash leaves alone stays -----

  /** A write that was acknowledged stays so for as long as no crash takes it away... */
  lemma {:induction false} AcknowledgedSurvives(run: seq<State>, i: nat, j: nat, e: Entry)
    requires IsRun(run) && i <= j < |run| && e in run[i].acked
    requires forall n :: i <= n < j ==> !Takes(run[n], run[n + 1], e)
    ensures e in run[j].acked && (e in Recoverable(run[j].disk) || Exposed(run[j].disk.logs, e))
    decreases j
  {
    hide Next, Init, Takes, Recoverable, Exposed, SameView;
    if i < j {
      AcknowledgedSurvives(run, i, j - 1, e);
      assert Next(run[j - 1], run[j - 1 + 1]) && !Takes(run[j - 1], run[j - 1 + 1], e);
      AcknowledgedStays(run[j - 1], run[j], e);
    }
    NothingIsLost(run, j);
  }

  /** ...and one that was synced for as long as none hides it behind a cut record. */
  lemma {:induction false} SyncedSurvives(run: seq<State>, i: nat, j: nat, e: Entry)
    requires IsRun(run) && i <= j < |run| && e in run[i].syncAcked
    requires forall n :: i <= n < j ==> !Hides(run[n], run[n + 1], e)
    ensures e in run[j].syncAcked && (e in Recoverable(run[j].disk) || Exposed(run[j].disk.logs, e))
    decreases j
  {
    hide Next, Init, Hides, Recoverable, Exposed, SameView;
    if i < j {
      SyncedSurvives(run, i, j - 1, e);
      assert Next(run[j - 1], run[j - 1 + 1]) && !Hides(run[j - 1], run[j - 1 + 1], e);
      AcknowledgedStays(run[j - 1], run[j], e);
    }
    NothingIsLost(run, j);
  }

  // ----- cut records -----

  /** Recovery keeps a log in use whose last record was cut off. */
  ghost predicate TornReuse(s: State, s': State) {
    exists n: nat :: n in s.disk.logs && s.disk.logs[n].torn && ReuseLog(s, s', n)
  }

  ghost predicate NoTornReuse(run: seq<State>, j: nat)
    requires j < |run|
  {
    forall n :: 0 <= n < j ==> !TornReuse(run[n], run[n + 1])
  }

  /** The log in use, or about to be, does not end in a cut record. */
  ghost predicate WholeInUse(s: State) {
    match s.phase
    case Down => true
    case Recovering(o) => o.reused.Some? && o.reused.value in s.disk.logs ==> !s.disk.logs[o.reused.value].torn
    case Up(m) => m.logfileNumber in s.disk.logs ==> !s.disk.logs[m.logfileNumber].torn
  }

  lemma WriterWhole(s: State, s': State)
    requires WholeInUse(s) && Findable(s.disk.logs) && WriterStep(s, s')
    ensures WholeInUse(s') && Findable(s'.disk.logs)
  {
    hide FreshBatch, LogFile.All;
  }

  lemma FlushWhole(s: State, s': State)
    requires WholeInUse(s) && Findable(s.disk.logs) && FlushStep(s, s')
    ensures WholeInUse(s') && Findable(s'.disk.logs)
  {
    hide KeptTables, FlushManifest;
  }

  lemma JobWhole(s: State, s': State)
    requires WholeInUse(s) && Findable(s.disk.logs) && JobStep(s, s')
    ensures WholeInUse(s') && Findable(s'.disk.logs)
  {
    hide KeptTables, JobManifest, Setting, Kept, Contents;
  }

  lemma ReaderWhole(s: State, s': State)
    requires WholeInUse(s) && Findable(s.disk.logs) && ReaderStep(s, s')
    ensures WholeInUse(s') && Findable(s'.disk.logs)
  {
  }

  lemma OpenIsWhole(s: State, s': State, last: nat, save: bool, fails: bool, reached: bool)
    requires WholeInUse(s) && Findable(s.disk.logs) && Open(s, s', last, save, fails, reached)
    ensures WholeInUse(s') && Findable(s'.disk.logs)
  {
    hide RecoveredSequence, LogsBetween, DeleteObsoleteFiles, LogFile.All, WholeInUse;
    var logs := OpenLogs(s.disk, s.phase.o);
    OpenLogsAreWhole(s);
    if !fails {
      var m := s'.phase.m;
      var d' := Disk(s.disk.tables, logs, if reached then Manifest(m.current, m.nextFile, last) else s.disk.manifest);
      assert s'.disk == DeleteObsoleteFiles(d', m);
      FewerLogs(d', m);
      UpIsWhole(s', m, logs);
    } else {
      DownIsWhole(s');
    }
  }

  lemma OpenLogsAreWhole(s: State)
    requires s.phase.Recovering? && WholeInUse(s) && Findable(s.disk.logs)
    ensures var logs := OpenLogs(s.disk, s.phase.o);
      Findable(logs) && (OpenLog(s.phase.o) in logs ==> !logs[OpenLog(s.phase.o)].torn)
  {
  }

  lemma FewerLogs(d: Disk, m: Memory)
    ensures DeleteObsoleteFiles(d, m).logs.Keys <= d.logs.Keys
    ensures forall n :: n in DeleteObsoleteFiles(d, m).logs ==> DeleteObsoleteFiles(d, m).logs[n] == d.logs[n]
  {
    hide KeptTables;
  }

  lemma UpIsWhole(s: State, m: Memory, logs: map<nat, LogFile>)
    requires s.phase == Up(m) && (m.logfileNumber in logs ==> !logs[m.logfileNumber].torn)
    requires s.disk.logs.Keys <= logs.Keys && forall n :: n in s.disk.logs ==> s.disk.logs[n] == logs[n]
    ensures WholeInUse(s)
  {
  }

  lemma DownIsWhole(s: State)
    requires s.phase.Down?
    ensures WholeInUse(s)
  {
  }

  lemma RestartWhole(s: State, s': State)
    requires WholeInUse(s) && Findable(s.disk.logs) && RestartStep(s, s') && !TornReuse(s, s')
    ensures WholeInUse(s') && Findable(s'.disk.logs)
  {
    hide RecoveredSequence, LogsBetween, KeptTables, AllReplayed, LogFile.All, CrashedLog;
    if lost, hidden :| Crash(s, s', lost, hidden) {
      CrashFinds(s, s', lost, hidden);
    } else if n: nat :| ReuseLog(s, s', n) {
      assert n in s.disk.logs;
    } else if last: nat, save, fails, reached :| Open(s, s', last, save, fails, reached) {
      OpenIsWhole(s, s', last, save, fails, reached);
    }
  }

  lemma StepIsWhole(s: State, s': State)
    requires WholeInUse(s) && Findable(s.disk.logs) && Next(s, s') && !TornReuse(s, s')
    ensures WholeInUse(s') && Findable(s'.disk.logs)
  {
    hide WriterStep, FlushStep, JobStep, ReaderStep, RestartStep, WholeInUse, Findable, TornReuse;
    if WriterStep(s, s') { WriterWhole(s, s'); }
    else if FlushStep(s, s') { FlushWhole(s, s'); }
    else if JobStep(s, s') { JobWhole(s, s'); }
    else if ReaderStep(s, s') { ReaderWhole(s, s'); }
    else { RestartWhole(s, s'); }
  }

  /** As long as no torn log is kept in use, nothing stands behind a cut record. */
  lemma {:induction false} AlwaysFindable(run: seq<State>, i: nat)
    requires IsRun(run) && i < |run| && NoTornReuse(run, i)
    ensures WholeInUse(run[i]) && Findable(run[i].disk.logs)
  {
    hide Next, WholeInUse, Findable, TornReuse;
    if i == 0 {
      NothingInUse(run[0]);
    } else {
      AlwaysFindable(run, i - 1);
      assert Next(run[i - 1], run[i - 1 + 1]) && !TornReuse(run[i - 1], run[i - 1 + 1]);
      StepIsWhole(run[i - 1], run[i]);
    }
  }

  lemma NothingInUse(s: State)
    requires Init(s)
    ensures WholeInUse(s) && Findable(s.disk.logs)
  {
  }

  /** What a crash does to entries that stand behind a cut record: if any of them are left on disk at least one is hidden,
      and those that a reader still finds are newer than those that are hidden. */
  lemma {:induction false} SomethingBehindIsHidden(s: State, s': State, lost: set<Entry>, hidden: set<Entry>, n: nat)
    requires Crash(s, s', lost, hidden) && n in s.disk.logs
    ensures n in s'.disk.logs
    ensures s.disk.logs[n].behind - lost != {} ==>
      exists e :: e in s.disk.logs[n].behind - lost && e !in s'.disk.logs[n].All()
    ensures forall e, f ::
      (&& e in s.disk.logs[n].behind && f in s.disk.logs[n].behind - lost
       && e in s'.disk.logs[n].All() && f !in s'.disk.logs[n].All() && f in s.disk.logs[n].All())
      ==> f.sequence < e.sequence
  {
    var log, log' := s.disk.logs[n], s'.disk.logs[n];
    assert CrashedLog(log, log', lost, hidden);
    if log.behind - lost != {} {
      var e :| e in (log.behind - lost) * hidden;
      assert e !in log'.All();
    }
    forall e, f | e in log.behind && f in log.behind - lost && e in log'.All() && f !in log'.All() && f in log.All()
      ensures f.sequence < e.sequence
    {
      assert e in log.behind - lost - hidden && f in log.behind * hidden;
    }
  }

  lemma NotHiddenInLog(log: LogFile, log': LogFile, lost: set<Entry>, hidden: set<Entry>, e: Entry)
    requires CrashedLog(log, log', lost, hidden) && log.behind == {} && e in log.All()
    ensures e !in hidden
  {
    assert e in hidden ==> e in log.All() * hidden;
  }

  /** With nothing behind a cut record a crash hides no write that the history holds. */
  lemma NothingHidden(s: State, s': State, lost: set<Entry>, hidden: set<Entry>, e: Entry)
    requires Findable(s.disk.logs) && e in History(s.disk.logs, s.disk.manifest.version)
    requires Crash(s, s', lost, hidden)
    ensures e !in hidden - s.disk.manifest.version.flushed
  {
    hide CrashedLog, LogFile.All;
    var v := s.disk.manifest.version;
    if e !in v.flushed {
      var n: nat :| n in s.disk.logs && v.logNumber <= n && e in s.disk.logs[n].All();
      assert n in s'.disk.logs;
      NotHiddenInLog(s.disk.logs[n], s'.disk.logs[n], lost, hidden, e);
    }
  }

  lemma HidesNothing(s: State, s': State, e: Entry)
    requires Findable(s.disk.logs) && e in History(s.disk.logs, s.disk.manifest.version)
    ensures !Hides(s, s', e)
  {
    hide Findable, History, Crash;
    forall lost, hidden | Crash(s, s', lost, hidden)
      ensures e !in hidden - s.disk.manifest.version.flushed
    {
      NothingHidden(s, s', lost, hidden, e);
    }
  }

  /** A synced write, once acknowledged, is recoverable for ever, through crashes and interrupted recoveries, unless
      a torn log is kept in use. */
  lemma {:induction false} SyncedWritesAreForever(run: seq<State>, i: nat, j: nat)
    requires IsRun(run) && i <= j < |run| && NoTornReuse(run, j)
    ensures run[i].syncAcked <= run[j].syncAcked && run[i].syncAcked <= Recoverable(run[j].disk)
    decreases j
  {
    hide Next, Init, History, TornReuse, Hides, Findable, DurableFrom, Recoverable, Exposed;
    AlwaysFindable(run, j);
    AllFound(run[j].disk);
    NoneExposed(run[j].disk.logs);
    forall e | e in run[i].syncAcked
      ensures e in run[j].syncAcked && e in Recoverable(run[j].disk)
    {
      forall n | i <= n < j
        ensures !Hides(run[n], run[n + 1], e)
      {
        SyncedWritesAreForever(run, i, n);
        AlwaysFindable(run, n);
        AllFound(run[n].disk);
        HidesNothing(run[n], run[n + 1], e);
      }
      SyncedSurvives(run, i, j, e);
    }
  }

  /** A crash of the process alone: no machine takes entries that were not synced. */
  ghost predicate ProcessDies(s: State, s': State) {
    exists hidden :: Crash(s, s', {}, hidden)
  }

  ghost predicate NoMachineDies(s: State, s': State) {
    (exists lost, hidden :: Crash(s, s', lost, hidden)) ==> ProcessDies(s, s')
  }

  lemma ProcessDeathKeeps(s: State, s': State)
    requires Findable(s.disk.logs) && s.acked <= History(s.disk.logs, s.disk.manifest.version) && ProcessDies(s, s')
    ensures s.acked <= s'.acked
  {
    hide Findable, History, CrashedLog;
    var hidden :| Crash(s, s', {}, hidden);
    forall e | e in s.acked
      ensures e in s'.acked
    {
      NothingHidden(s, s', {}, hidden, e);
    }
  }

  /** Without a crash of the machine no acknowledged write is lost at all, synced or not, unless a torn log is kept
      in use. */
  lemma {:induction false} ProcessDeathsLoseNothing(run: seq<State>, i: nat, j: nat)
    requires IsRun(run) && i <= j < |run| && NoTornReuse(run, j)
    requires forall n :: i <= n < j ==> NoMachineDies(run[n], run[n + 1])
    ensures run[i].acked <= run[j].acked <= Recoverable(run[j].disk)
    decreases j
  {
    hide Next, Init, History, TornReuse, Findable, Crash, DurableFrom, Recoverable;
    AlwaysFindable(run, j);
    AllFound(run[j].disk);
    HistoryIsOnDisk(run, j);
    if i < j {
      ProcessDeathsLoseNothing(run, i, j - 1);
      assert Next(run[j - 1], run[j - 1 + 1]) && NoMachineDies(run[j - 1], run[j - 1 + 1]);
      AlwaysFindable(run, j - 1);
      AllFound(run[j - 1].disk);
      if ProcessDies(run[j - 1], run[j]) {
        ProcessDeathKeeps(run[j - 1], run[j]);
      } else {
        forall e | e in run[j - 1].acked
          ensures e in run[j].acked
        {
          AcknowledgedStays(run[j - 1], run[j], e);
        }
      }
    }
  }

  /** No log ends in a cut record. */
  ghost predicate NothingIsTorn(logs: map<nat, LogFile>) {
    forall n :: n in logs ==> !logs[n].torn
  }

  lemma {:induction false} RunningTearsNothing(s: State, s': State)
    requires NothingIsTorn(s.disk.logs) && (WriterStep(s, s') || FlushStep(s, s') || JobStep(s, s') || ReaderStep(s, s'))
    ensures NothingIsTorn(s'.disk.logs)
  {
    hide FreshBatch, LogFile.All, KeptTables, FlushManifest, JobManifest, Setting, Kept, Contents;
  }

  lemma {:induction false} CrashTearsNothing(s: State, s': State, hidden: set<Entry>)
    requires NothingIsTorn(s.disk.logs) && Crash(s, s', {}, hidden)
    ensures NothingIsTorn(s'.disk.logs)
  {
    forall n | n in s'.disk.logs
      ensures !s'.disk.logs[n].torn
    {
      assert CrashedLog(s.disk.logs[n], s'.disk.logs[n], {}, hidden);
    }
  }

  lemma {:induction false} OpenTearsNothing(s: State, s': State, last: nat, save: bool, fails: bool, reached: bool)
    requires NothingIsTorn(s.disk.logs) && Open(s, s', last, save, fails, reached)
    ensures NothingIsTorn(s'.disk.logs)
  {
    hide RecoveredSequence, LogsBetween, KeptTables, AllReplayed;
  }

  lemma {:induction false} RestartTearsNothing(s: State, s': State)
    requires NothingIsTorn(s.disk.logs) && RestartStep(s, s') && NoMachineDies(s, s')
    ensures NothingIsTorn(s'.disk.logs)
  {
    hide Crash, Open, NextLog, NothingIsTorn;
    if lost, hidden :| Crash(s, s', lost, hidden) {
      var hidden' :| Crash(s, s', {}, hidden');
      CrashTearsNothing(s, s', hidden');
    } else if last: nat, save, fails, reached :| Open(s, s', last, save, fails, reached) {
      OpenTearsNothing(s, s', last, save, fails, reached);
    } else {
      assert s'.disk.logs == s.disk.logs;
    }
  }

  /** The process alone never tears a log: it takes a crash of the machine that loses part of one. */
  lemma {:induction false} OnlyMachinesTear(run: seq<State>, i: nat)
    requires IsRun(run) && i < |run| && forall n :: 0 <= n < i ==> NoMachineDies(run[n], run[n + 1])
    ensures NothingIsTorn(run[i].disk.logs) && NoTornReuse(run, i)
  {
    hide Next, NoMachineDies, NothingIsTorn, ReuseLog;
    if i == 0 {
      InitIsWhole(run[0]);
    } else {
      OnlyMachinesTear(run, i - 1);
      assert Next(run[i - 1], run[i - 1 + 1]) && NoMachineDies(run[i - 1], run[i - 1 + 1]);
      UntornIsNotReused(run[i - 1], run[i]);
      StepTearsNothing(run[i - 1], run[i]);
    }
  }

  lemma {:induction false} InitIsWhole(s: State)
    requires Init(s)
    ensures NothingIsTorn(s.disk.logs)
  {
  }

  lemma {:induction false} UntornIsNotReused(s: State, s': State)
    requires NothingIsTorn(s.disk.logs)
    ensures !TornReuse(s, s')
  {
    hide ReuseLog;
  }

  lemma {:induction false} StepTearsNothing(s: State, s': State)
    requires NothingIsTorn(s.disk.logs) && Next(s, s') && NoMachineDies(s, s')
    ensures NothingIsTorn(s'.disk.logs)
  {
    hide WriterStep, FlushStep, JobStep, ReaderStep, RestartStep, NothingIsTorn, NoMachineDies;
    if RestartStep(s, s') {
      RestartTearsNothing(s, s');
    } else {
      RunningTearsNothing(s, s');
    }
  }

  /** So in a run in which only the process dies, however often, nothing that was acknowledged is ever lost, synced or
      not, whether logs are kept in use or not. */
  lemma {:induction false} OnlyMachinesLose(run: seq<State>, i: nat, j: nat)
    requires IsRun(run) && i <= j < |run| && forall n :: 0 <= n < j ==> NoMachineDies(run[n], run[n + 1])
    ensures run[i].acked <= run[j].acked <= Recoverable(run[j].disk)
  {
    hide Next, Init, NoMachineDies, NothingIsTorn, TornReuse, Recoverable;
    OnlyMachinesTear(run, j);
    ProcessDeathsLoseNothing(run, i, j);
  }

  // ----- keeping a torn log in use loses a write -----

  /** Recovery may keep log `n` in use: it is the last one, and nothing of it was replayed. */
  ghost predicate MayReuse(s: State, n: nat) {
    NextLog(s, n) && s.phase.o.partial == {} && forall l :: l in s.disk.logs ==> l <= n
  }

  ghost predicate SequencesLeft(s: State) {
    && s.disk.manifest.lastSequence + 1 < MAX_SEQUENCE
    && forall e :: e in LogsFrom(s.disk.logs, s.disk.manifest.version.logNumber) ==> e.sequence + 1 < MAX_SEQUENCE
  }

  lemma {:induction false} Largest(es: set<Entry>, least: nat) returns (last: nat)
    ensures least <= last && (forall e :: e in es ==> e.sequence <= last)
    ensures last == least || exists e :: e in es && e.sequence == last
    decreases |es|
  {
    if es == {} {
      last := least;
    } else {
      var e :| e in es;
      last := Largest(es - {e}, least);
      if last < e.sequence {
        last := e.sequence;
      }
    }
  }

  lemma Extended(run: seq<State>, s': State)
    requires IsRun(run) && Next(run[|run| - 1], s')
    ensures IsRun(run + [s'])
  {
    hide Next, Init;
    forall i | 0 <= i < |run + [s']| - 1
      ensures Next((run + [s'])[i], (run + [s'])[i + 1])
    {
      if i < |run| - 1 {
        assert Next(run[i], run[i + 1]);
      }
    }
  }

  /** The database is opened with log `n` in use. */
  lemma OpenReused(s: State, n: nat, last: nat) returns (s1: State, s2: State)
    requires MayReuse(s, n) && RecoveredSequence(s, last) && last < MAX_SEQUENCE
    ensures ReuseLog(s, s1, n) && Open(s1, s2, last, true, false, true)
    ensures s2.phase.Up? && s2.disk.logs == map[n := s.disk.logs[n]]
    ensures var m, v := s2.phase.m, s.disk.manifest.version;
      && m.logfileNumber == n && m.lastSequence == last && m.writing.NoWrite? && !m.bgError
      && s2.disk.manifest.version.logNumber == n
      && s2.disk.manifest.version.flushed == v.flushed + LogsBetween(s.disk.logs, v.logNumber, n)
  {
    hide RecoveredSequence, LogsBetween, KeptTables, LogFile.All;
    var d, v, o := s.disk, s.disk.manifest.version, s.phase.o;
    var o1 := o.(next := n + 1, nextFile := Max(o.nextFile, n + 1), reused := Some(n));
    s1 := s.(phase := Recovering(o1));
    var v' := Edit(v, {}, o1.added, n, LogsBetween(d.logs, v.logNumber, n));
    var m := Memory(v', d.logs[n].All(), None, n, last, o1.nextFile, {}, [], [], false, NoWrite, {}, None, None);
    s2 := s1.(disk := DeleteObsoleteFiles(Disk(d.tables, d.logs, Manifest(v', o1.nextFile, last)), m), phase := Up(m));
    SameRecovered(s, s1, last);
    assert s2.disk.logs == map[n := s.disk.logs[n]];
  }

  lemma SameRecovered(s: State, s1: State, last: nat)
    requires RecoveredSequence(s, last) && s1.disk == s.disk
    ensures RecoveredSequence(s1, last)
  {
  }

  /** A write of `e` with a sync is admitted, appended and acknowledged. */
  lemma WriteSynced(s2: State, n: nat, e: Entry) returns (s3: State, s4: State, s5: State)
    requires s2.phase.Up? && n in s2.disk.logs
    requires var m := s2.phase.m; m.logfileNumber == n && m.writing.NoWrite? && !m.bgError
    requires Parses(e) && e.sequence == s2.phase.m.lastSequence + 1 < MAX_SEQUENCE
    ensures AdmitWrite(s2, s3, {e}, 1, true) && AppendLog(s3, s4) && FinishWrite(s4, s5)
    ensures s3.phase.Up? && s4.phase.Up? && s5.phase.Up? && e in s5.syncAcked && s5.disk.manifest == s2.disk.manifest
    ensures s5.disk.logs == s2.disk.logs[n := s2.disk.logs[n].Append({e}).Sync()]
  {
    hide LogFile.Append, LogFile.Sync;
    var m, log := s2.phase.m, s2.disk.logs[n];
    s3 := s2.(phase := Up(m.(writing := Admitted({e}, 1, true))));
    s4 := s3.(disk := s3.disk.(logs := s3.disk.logs[n := log.Append({e})]), phase := Up(m.(writing := Appended({e}, 1, true))));
    s5 := s4.(disk := s4.disk.(logs := s4.disk.logs[n := log.Append({e}).Sync()]),
              phase := Up(m.(mem := m.mem + {e}, lastSequence := m.lastSequence + 1, writing := NoWrite)),
              acked := s4.acked + {e}, syncAcked := s4.syncAcked + {e});
  }

  /** The process dies, and the write stands behind a cut record. */
  lemma DieAfter(s5: State, n: nat, log: LogFile, e: Entry) returns (s6: State)
    requires s5.disk.logs == map[n := log.Append({e}).Sync()] && log.torn && log.behind == {}
    requires e !in s5.disk.manifest.version.flushed
    ensures Crash(s5, s6, {}, {e}) && s6.phase.Down?
    ensures e !in Recoverable(s6.disk)
  {
    var flushed := s5.disk.manifest.version.flushed;
    var left := LogFile(log.All() + {e} - {e}, {}, true, {});
    s6 := State(s5.disk.(logs := map[n := left]), Down, s5.floor, s5.acked - ({} + {e} - flushed),
                s5.syncAcked - ({e} - flushed));
    assert CrashedLog(s5.disk.logs[n], left, {}, {e});
  }

  lemma RecoverLast(s: State) returns (last: nat)
    requires SequencesLeft(s)
    ensures RecoveredSequence(s, last) && last + 1 < MAX_SEQUENCE
  {
    hide LogsFrom;
    last := Largest(LogsFrom(s.disk.logs, s.disk.manifest.version.logNumber), s.disk.manifest.lastSequence);
  }

  lemma NewerIsNew(s: State, n: nat, last: nat, e: Entry)
    requires DiskInv(s) && RecoveredSequence(s, last) && e.sequence > last
    ensures var v := s.disk.manifest.version; e !in v.flushed + LogsBetween(s.disk.logs, v.logNumber, n)
  {
    hide VersionOk, Good, LogsOrdered, DurableFrom, History, LogFile.All;
  }

  lemma RestartIsNext(s: State, s': State)
    requires RestartStep(s, s')
    ensures Next(s, s')
  {
    hide RestartStep, WriterStep, FlushStep, JobStep, ReaderStep;
  }

  lemma WriterIsNext(s: State, s': State)
    requires WriterStep(s, s')
    ensures Next(s, s')
  {
    hide RestartStep, WriterStep, FlushStep, JobStep, ReaderStep;
  }

  /** Recovery keeps log `n` in use, and no torn log after that. */
  ghost predicate Continues(run: seq<State>, run': seq<State>, n: nat) {
    && run != [] && run < run' && IsRun(run') && ReuseLog(run[|run| - 1], run'[|run|], n)
    && forall k :: |run| <= k < |run'| - 1 ==> !TornReuse(run'[k], run'[k + 1])
  }

  lemma OnlyRecoveryReuses(s: State, s': State)
    requires !s'.phase.Recovering?
    ensures !TornReuse(s, s')
  {
    hide NextLog;
  }

  /** Every run in which recovery keeps a torn log in use can go on, with no further such step, to lose a write that
      was synced and acknowledged. */
  lemma TornReuseLoses(run: seq<State>, n: nat) returns (run': seq<State>, i: nat, j: nat, e: Entry)
    requires IsRun(run) && Findable(run[|run| - 1].disk.logs)
    requires MayReuse(run[|run| - 1], n) && run[|run| - 1].disk.logs[n].torn && SequencesLeft(run[|run| - 1])
    ensures Continues(run, run', n) && i <= j < |run'|
    ensures e in run'[i].syncAcked && e !in Recoverable(run'[j].disk)
  {
    hide Next, Init, ReuseLog, Open, AdmitWrite, AppendLog, FinishWrite, Crash, Recoverable, Contents, LogsFrom,
         LogsBetween, RecoveredSequence, SequencesLeft, DiskInv, LastLogNewest, OpeningInv, LogFile.All, LogFile.Append,
         LogFile.Sync, TornReuse;
    var s := run[|run| - 1];
    var last := RecoverLast(s);
    var s1, s2 := OpenReused(s, n, last);
    e := Entry([], last + 1, TYPE_VALUE, []);
    var s3, s4, s5 := WriteSynced(s2, n, e);
    RunsAreSafe(run, |run| - 1);
    NewerIsNew(s, n, last, e);
    var s6 := DieAfter(s5, n, s.disk.logs[n], e);
    RestartIsNext(s, s1);
    Extended(run, s1);
    RestartIsNext(s1, s2);
    Extended(run + [s1], s2);
    WriterIsNext(s2, s3);
    Extended(run + [s1] + [s2], s3);
    WriterIsNext(s3, s4);
    Extended(run + [s1] + [s2] + [s3], s4);
    WriterIsNext(s4, s5);
    Extended(run + [s1] + [s2] + [s3] + [s4], s5);
    RestartIsNext(s5, s6);
    Extended(run + [s1] + [s2] + [s3] + [s4] + [s5], s6);
    run', i, j := run + [s1] + [s2] + [s3] + [s4] + [s5] + [s6], |run| + 4, |run| + 5;
    forall k | |run| <= k < |run'| - 1
      ensures !TornReuse(run'[k], run'[k + 1])
    {
      assert run'[k + 1] in [s2, s3, s4, s5, s6];
      OnlyRecoveryReuses(run'[k], run'[k + 1]);
    }
  }

  /** Every synced and acknowledged write of a run is recoverable in every later state. */
  ghost predicate Durable(run: seq<State>) {
    forall i, j :: 0 <= i <= j < |run| ==> run[i].syncAcked <= Recoverable(run[j].disk)
  }

  lemma ReuseOfWholeLog(s: State, s': State, n: nat)
    requires ReuseLog(s, s', n) && !s.disk.logs[n].torn
    ensures !TornReuse(s, s')
  {
    hide NextLog;
  }

  lemma WholeReuseIsDurable(run: seq<State>, n: nat, run': seq<State>)
    requires IsRun(run) && NoTornReuse(run, |run| - 1) && MayReuse(run[|run| - 1], n)
    requires !run[|run| - 1].disk.logs[n].torn && Continues(run, run', n)
    ensures Durable(run')
  {
    hide Next, Init, Recoverable, TornReuse, NextLog, ReuseLog;
    ReuseOfWholeLog(run[|run| - 1], run'[|run|], n);
    forall k | 0 <= k < |run'| - 1
      ensures !TornReuse(run'[k], run'[k + 1])
    {
      if k < |run| - 1 {
        assert !TornReuse(run[k], run[k + 1]);
      }
    }
    forall i, j | 0 <= i <= j < |run'|
      ensures run'[i].syncAcked <= Recoverable(run'[j].disk)
    {
      assert NoTornReuse(run', j);
      SyncedWritesAreForever(run', i, j);
    }
  }

  /** Whether recovery may keep a log in use is decided by the one thing it does not look at: no continuation of the
      run loses a synced and acknowledged write if and only if the log does not end in a cut record. */
  lemma ReuseIsSafe(run: seq<State>, n: nat)
    requires IsRun(run) && NoTornReuse(run, |run| - 1) && MayReuse(run[|run| - 1], n) && SequencesLeft(run[|run| - 1])
    ensures !run[|run| - 1].disk.logs[n].torn <==> forall run' :: Continues(run, run', n) ==> Durable(run')
  {
    hide Next, Init, Recoverable, TornReuse, SequencesLeft, Continues, Findable;
    if run[|run| - 1].disk.logs[n].torn {
      AlwaysFindable(run, |run| - 1);
      var run', i, j, e := TornReuseLoses(run, n);
      assert Continues(run, run', n) && !Durable(run');
    } else {
      forall run' | Continues(run, run', n)
        ensures Durable(run')
      {
        WholeReuseIsDurable(run, n, run');
      }
    }
  }

  /** It happens: the write of an entry is cut off by a crash, recovery keeps the log in use, and the next write, synced
      and acknowledged, is lost when the process dies. */
  lemma SyncedWriteIsLost() returns (run: seq<State>, i: nat, j: nat, e: Entry)
    ensures IsRun(run) && i <= j < |run|
    ensures e in run[i].syncAcked && e !in Recoverable(run[j].disk)
  {
    hide Next, Init, Findable, Crash, Recoverable, MayReuse, SequencesLeft, Continues;
    var torn := TornLogRun();
    run, i, j, e := TornReuseLoses(torn, 3);
    ContinuesIsRun(torn, run, 3);
  }

  lemma ContinuesIsRun(run: seq<State>, run': seq<State>, n: nat)
    requires Continues(run, run', n)
    ensures IsRun(run')
  {
  }

  /** A new database is created and opened, its first write is cut off by a crash of the machine, and recovery
      starts. */
  lemma TornLogRun() returns (run: seq<State>)
    ensures IsRun(run) && Findable(run[|run| - 1].disk.logs)
    ensures MayReuse(run[|run| - 1], 3) && run[|run| - 1].disk.logs[3].torn && SequencesLeft(run[|run| - 1])
  {
    hide Next, Init, Open, Crash, StartRecovery, AdmitWrite, AppendLog, LogFile.All;
    var s0, s1, s2 := CreateAndOpen();
    var e := Entry([], 1, TYPE_VALUE, []);
    var s3, s4, s5 := WriteIsCut(s2, e);
    run := [s0];
    RestartIsNext(s0, s1);
    Extended(run, s1);
    RestartIsNext(s1, s2);
    Extended(run + [s1], s2);
    WriterIsNext(s2, s3);
    Extended(run + [s1] + [s2], s3);
    WriterIsNext(s3, s4);
    Extended(run + [s1] + [s2] + [s3], s4);
    RestartIsNext(s4, s5);
    Extended(run + [s1] + [s2] + [s3] + [s4], s5);
    var s6 := s5.(phase := Recovering(Opening(3, {}, {}, 5, None)));
    RecoverTorn(s5, s6);
    RestartIsNext(s5, s6);
    Extended(run + [s1] + [s2] + [s3] + [s4] + [s5], s6);
    run := run + [s1] + [s2] + [s3] + [s4] + [s5] + [s6];
  }

  lemma CreateAndOpen() returns (s0: State, s1: State, s2: State)
    ensures IsRun([s0]) && StartRecovery(s0, s1) && Open(s1, s2, 0, true, false, true)
    ensures s2.disk == Disk(map[], map[3 := NEW_LOG], Manifest(Version({}, 3, {}), 4, 0))
    ensures s2.phase == Up(Memory(Version({}, 3, {}), {}, None, 3, 0, 4, {}, [], [], false, NoWrite, {}, None, None))
    ensures s2.floor == 0 && s2.acked == {} && s2.syncAcked == {}
  {
    s0 := State(Disk(map[], map[], Manifest(Version({}, 0, {}), 2, 0)), Down, 0, {}, {});
    s1 := s0.(phase := Recovering(Opening(0, {}, {}, 3, None)));
    var d := Disk(map[], map[3 := NEW_LOG], Manifest(Version({}, 3, {}), 4, 0));
    var m := Memory(Version({}, 3, {}), {}, None, 3, 0, 4, {}, [], [], false, NoWrite, {}, None, None);
    s2 := State(d, Up(m), 0, {}, {});
    NewDisk(d, m);
    NothingRecovered(s1);
    FirstOpen(s0, s1, s2, d, m);
  }

  lemma NewDisk(d: Disk, m: Memory)
    requires d == Disk(map[], map[3 := NEW_LOG], Manifest(Version({}, 3, {}), 4, 0))
    requires m == Memory(Version({}, 3, {}), {}, None, 3, 0, 4, {}, [], [], false, NoWrite, {}, None, None)
    ensures DeleteObsoleteFiles(d, m) == d
  {
  }

  lemma NothingRecovered(s: State)
    requires s.disk == Disk(map[], map[], Manifest(Version({}, 0, {}), 2, 0))
    ensures RecoveredSequence(s, 0) && LogsBetween(s.disk.logs, 0, 3) == {}
  {
  }

  lemma FirstOpen(s0: State, s1: State, s2: State, d: Disk, m: Memory)
    requires s0 == State(Disk(map[], map[], Manifest(Version({}, 0, {}), 2, 0)), Down, 0, {}, {})
    requires s1 == s0.(phase := Recovering(Opening(0, {}, {}, 3, None))) && s2 == State(d, Up(m), 0, {}, {})
    requires d == Disk(map[], map[3 := NEW_LOG], Manifest(Version({}, 3, {}), 4, 0))
    requires m == Memory(Version({}, 3, {}), {}, None, 3, 0, 4, {}, [], [], false, NoWrite, {}, None, None)
    requires DeleteObsoleteFiles(d, m) == d && RecoveredSequence(s1, 0) && LogsBetween(s1.disk.logs, 0, 3) == {}
    ensures StartRecovery(s0, s1) && Open(s1, s2, 0, true, false, true)
  {
    hide DeleteObsoleteFiles, RecoveredSequence, LogsBetween;
    assert Edit(s1.disk.manifest.version, {}, {}, 3, {}) == Version({}, 3, {});
    assert map[][3 := NEW_LOG] == map[3 := NEW_LOG];
  }

  lemma WriteIsCut(s2: State, e: Entry) returns (s3: State, s4: State, s5: State)
    requires s2.disk == Disk(map[], map[3 := NEW_LOG], Manifest(Version({}, 3, {}), 4, 0))
    requires s2.phase == Up(Memory(Version({}, 3, {}), {}, None, 3, 0, 4, {}, [], [], false, NoWrite, {}, None, None))
    requires s2.floor == 0 && s2.acked == {} && s2.syncAcked == {} && Parses(e) && e.sequence == 1
    ensures AdmitWrite(s2, s3, {e}, 1, false) && AppendLog(s3, s4) && Crash(s4, s5, {e}, {})
    ensures s5 == State(Disk(map[], map[3 := NEW_LOG.(torn := true)], s2.disk.manifest), Down, 0, {}, {})
  {
    var m := s2.phase.m;
    s3 := s2.(phase := Up(m.(writing := Admitted({e}, 1, false))));
    var log := NEW_LOG.Append({e});
    s4 := s3.(disk := s3.disk.(logs := map[3 := log]), phase := Up(m.(writing := Appended({e}, 1, false))));
    s5 := State(Disk(map[], map[3 := NEW_LOG.(torn := true)], s2.disk.manifest), Down, 0, {}, {});
    assert CrashedLog(log, NEW_LOG.(torn := true), {e}, {});
    assert s3.disk.logs[3 := log] == map[3 := log];
  }

  lemma RecoverTorn(s5: State, s6: State)
    requires s5 == State(Disk(map[], map[3 := NEW_LOG.(torn := true)], Manifest(Version({}, 3, {}), 4, 0)), Down, 0, {}, {})
    requires s6 == s5.(phase := Recovering(Opening(3, {}, {}, 5, None)))
    ensures StartRecovery(s5, s6) && MayReuse(s6, 3) && Findable(s6.disk.logs) && SequencesLeft(s6)
  {
  }

  /** The condition is needed on the other side too: an acknowledged write that was not synced may be lost in a crash of
      the machine. */
  lemma UnsyncedWriteMayBeLost() returns (run: seq<State>, e: Entry)
    ensures IsRun(run) && |run| > 1 && NoTornReuse(run, |run| - 1)
    ensures e in run[|run| - 2].acked && e !in Recoverable(run[|run| - 1].disk) && e !in run[|run| - 1].acked
  {
    hide Next, Init, Open, Crash, StartRecovery, AdmitWrite, AppendLog, FinishWrite, LogFile.All, TornReuse;
    var s0, s1, s2 := CreateAndOpen();
    e := Entry([], 1, TYPE_VALUE, []);
    var s3, s4, s5, s6 := WriteAndCrash(s2, e);
    RestartIsNext(s0, s1);
    Extended([s0], s1);
    RestartIsNext(s1, s2);
    Extended([s0] + [s1], s2);
    WriterIsNext(s2, s3);
    Extended([s0] + [s1] + [s2], s3);
    WriterIsNext(s3, s4);
    Extended([s0] + [s1] + [s2] + [s3], s4);
    WriterIsNext(s4, s5);
    Extended([s0] + [s1] + [s2] + [s3] + [s4], s5);
    RestartIsNext(s5, s6);
    Extended([s0] + [s1] + [s2] + [s3] + [s4] + [s5], s6);
    run := [s0] + [s1] + [s2] + [s3] + [s4] + [s5] + [s6];
    forall k | 0 <= k < 6
      ensures !TornReuse(run[k], run[k + 1])
    {
      if k == 0 {
        DownReusesNothing(s0, s1);
      } else {
        assert run[k + 1] in [s2, s3, s4, s5, s6];
        OnlyRecoveryReuses(run[k], run[k + 1]);
      }
    }
  }

  lemma DownReusesNothing(s: State, s': State)
    requires s.phase.Down?
    ensures !TornReuse(s, s')
  {
  }

  lemma WriteAndCrash(s2: State, e: Entry) returns (s3: State, s4: State, s5: State, s6: State)
    requires s2.disk == Disk(map[], map[3 := NEW_LOG], Manifest(Version({}, 3, {}), 4, 0))
    requires s2.phase == Up(Memory(Version({}, 3, {}), {}, None, 3, 0, 4, {}, [], [], false, NoWrite, {}, None, None))
    requires s2.floor == 0 && s2.acked == {} && s2.syncAcked == {} && Parses(e) && e.sequence == 1
    ensures AdmitWrite(s2, s3, {e}, 1, false) && AppendLog(s3, s4) && FinishWrite(s4, s5) && Crash(s5, s6, {e}, {})
    ensures s2.phase.Up? && s3.phase.Up? && s4.phase.Up? && s5.phase.Up? && s6.phase.Down?
    ensures e in s5.acked && e !in s6.acked && e !in Recoverable(s6.disk)
  {
    var m := s2.phase.m;
    s3 := s2.(phase := Up(m.(writing := Admitted({e}, 1, false))));
    var log := NEW_LOG.Append({e});
    s4 := s3.(disk := s3.disk.(logs := map[3 := log]), phase := Up(m.(writing := Appended({e}, 1, false))));
    s5 := s4.(phase := Up(m.(mem := {e}, lastSequence := 1)), acked := {e});
    s6 := State(s2.disk, Down, 0, {}, {});
    assert s3.disk.logs[3 := log] == map[3 := log] && s4.disk.logs[3 := log] == map[3 := log];
    assert m.mem + {e} == {e} && s4.acked + {e} == {e} && s4.syncAcked + {} == {};
    assert CrashedLog(log, NEW_LOG, {e}, {});
  }
}
