/** Crashes and recoveries, interrupted ones too, keep the invariant. */
module EngineRecovery {
  import opened Bytes
  import opened InternalKeys
  import opened Views
  import opened Compaction
  import opened EngineState
  import opened EngineViews
  import opened EngineInvariant
  import opened EngineWrites
  import opened EngineBackground

  lemma RunningLastLog(d: Disk, m: Memory)
    requires LogsInv(d, m) && LayersInv(m) && d.manifest.version.flushed <= m.current.flushed + ImmSet(m)
    ensures LastLogNewest(d)
  {
    hide LogsFrom, LogsBetween, LogsOrdered;
    assert forall e :: e in d.logs[m.logfileNumber].All() ==> e in m.mem + m.orphans + InFlight(m);
  }

  /** What is on disk at any moment of a running database can be opened. */
  lemma RunningDisk(s: State)
    requires s.phase.Up? && UpInv(s)
    ensures DiskInv(s) && LastLogNewest(s.disk)
  {
    hide VersionOk, LogsFrom, LogsBetween, SameView, Good, DurableFrom, LogsOrdered, Setting, Contents, Kept, Entries, Fits,
         FlushInv, JobInv, SnapshotsInv, History, LayersInv, LastLogNewest;
    var d, m := s.disk, s.phase.m;
    RunningLastLog(d, m);
    VersionRaise(d, d.manifest.version, DurableInputs(m), {}, s.floor, s.floor);
    OrderedFrom(d.logs, m.current.logNumber, d.manifest.version.logNumber);
  }

  lemma LeftOfLog(log: LogFile, log': LogFile, lost: set<Entry>, hidden: set<Entry>)
    requires CrashedLog(log, log', lost, hidden)
    ensures log'.All() == log.All() - (lost + hidden) && log'.durable == log.durable - hidden
  {
  }

  lemma CrashLogs(s: State, s': State, lost: set<Entry>, hidden: set<Entry>, lo: nat)
    requires Crash(s, s', lost, hidden)
    ensures LogsFrom(s'.disk.logs, lo) == LogsFrom(s.disk.logs, lo) - (lost + hidden)
    ensures DurableFrom(s.disk.logs, lo) - hidden <= DurableFrom(s'.disk.logs, lo)
    ensures LogsOrdered(s.disk.logs, lo) ==> LogsOrdered(s'.disk.logs, lo)
  {
    hide LogFile.All, CrashedLog;
    var logs, logs' := s.disk.logs, s'.disk.logs;
    assert logs'.Keys == logs.Keys;
    forall n: nat | n in logs
      ensures logs'[n].All() == logs[n].All() - (lost + hidden) && logs'[n].durable == logs[n].durable - hidden
    {
      LeftOfLog(logs[n], logs'[n], lost, hidden);
    }
    forall e
      ensures e in LogsFrom(logs', lo) <==> e in LogsFrom(logs, lo) && e !in lost + hidden
    {
      if e in LogsFrom(logs, lo) && e !in lost + hidden {
        var n: nat :| n in logs && lo <= n && e in logs[n].All();
        assert e in logs'[n].All();
      }
      if e in LogsFrom(logs', lo) {
        var n: nat :| n in logs' && lo <= n && e in logs'[n].All();
        assert e in logs[n].All();
      }
    }
    forall e | e in DurableFrom(logs, lo) - hidden
      ensures e in DurableFrom(logs', lo)
    {
      var n: nat :| n in logs && lo <= n && e in logs[n].durable;
      assert e in logs'[n].durable;
    }
  }

  /** The last log has only lost entries. */
  lemma CrashedLast(s: State, s': State, lost: set<Entry>, hidden: set<Entry>)
    requires LastLogNewest(s.disk) && Crash(s, s', lost, hidden)
    ensures LastLogNewest(s'.disk)
  {
    hide LogFile.All, CrashedLog;
    var logs, logs', v := s.disk.logs, s'.disk.logs, s.disk.manifest.version;
    forall n: nat | n in logs' && (forall l :: l in logs' ==> l <= n) && n >= v.logNumber
      ensures Newer(logs'[n].All(), v.flushed)
    {
      assert n in logs && forall l :: l in logs ==> l in logs';
      LeftOfLog(logs[n], logs'[n], lost, hidden);
    }
  }

  lemma CrashedDisk(s: State, s': State, lost: set<Entry>, hidden: set<Entry>)
    requires DiskInv(s) && LastLogNewest(s.disk) && Crash(s, s', lost, hidden)
    ensures DiskInv(s') && LastLogNewest(s'.disk)
  {
    hide LogsFrom, LogsBetween, SameView, DurableFrom, LogsOrdered, Contents, LastLogNewest, CrashedLog, Fits;
    var d, v := s.disk, s.disk.manifest.version;
    CrashLogs(s, s', lost, hidden, v.logNumber);
    CrashedLast(s, s', lost, hidden);
    FitsSubset(LogsFrom(d.logs, v.logNumber), LogsFrom(s'.disk.logs, v.logNumber), Contents(d.tables, v.live - {}),
               Contents(d.tables, v.live - {}), v.flushed);
  }

  lemma CrashKeeps(s: State, s': State, lost: set<Entry>, hidden: set<Entry>)
    requires Inv(s) && Crash(s, s', lost, hidden)
    ensures Inv(s')
  {
    hide UpInv, DiskInv, LastLogNewest, OpeningInv;
    if s.phase.Up? {
      RunningDisk(s);
    }
    CrashedDisk(s, s', lost, hidden);
  }

  lemma StartRecoveryKeeps(s: State, s': State)
    requires Inv(s) && StartRecovery(s, s')
    ensures Inv(s')
  {
    hide VersionOk, LogsFrom, LogsBetween, SameView, Good, DurableFrom, LogsOrdered, History;
    NothingBetween(s.disk.logs, s.disk.manifest.version.logNumber);
  }

  /** A table no version knows changes nothing for the files. */
  lemma DiskNewTable(s: State, s': State, n: nat, part: set<Entry>)
    requires DiskInv(s) && n >= s.disk.manifest.nextFile
    requires s'.disk == s.disk.(tables := s.disk.tables[n := part])
    requires s'.floor == s.floor && s'.acked == s.acked && s'.syncAcked == s.syncAcked
    ensures DiskInv(s')
  {
    hide VersionOk, LogsFrom, LogsBetween, Good, DurableFrom, LogsOrdered, History;
    VersionTables(s.disk, s.disk.manifest.version, {}, s.floor);
    VersionSameTables(s.disk, s'.disk, s.disk.manifest.version, {}, s.floor);
  }

  /** Only one log is next, so the part replayed so far is part of it. */
  lemma PartOfNextLog(s: State, n: nat)
    requires NextLog(s, n) && OpeningInv(s)
    ensures s.phase.o.partial <= s.disk.logs[n].All()
  {
    hide LogsBetween, Contents;
    if s.phase.o.partial != {} {
      var l: nat :| NextLog(s, l) && s.phase.o.partial <= s.disk.logs[l].All();
      assert l == n;
    }
  }

  lemma ReplayPartKeeps(s: State, s': State, n: nat, part: set<Entry>)
    requires Inv(s) && ReplayPart(s, s', n, part)
    ensures Inv(s')
  {
    hide DiskInv, LogsBetween, Contents, LogFile.All;
    var d, o, d' := s.disk, s.phase.o, s'.disk;
    ManifestNumbers(s);
    DiskNewTable(s, s', o.nextFile, part);
    SameContents(d.tables, d'.tables, o.added);
    ContentsUnion(d'.tables, o.added, {o.nextFile});
    ContentsOne(d'.tables, o.nextFile);
    PartOfNextLog(s, n);
    assert NextLog(s', n) && s'.phase.o.partial <= d'.logs[n].All();
  }

  lemma ManifestNumbers(s: State)
    requires DiskInv(s)
    ensures Below(s.disk.manifest.version.live, s.disk.manifest.nextFile)
    ensures s.disk.manifest.version.logNumber < s.disk.manifest.nextFile
  {
    hide VersionOk, LogsFrom, Good, DurableFrom, LogsOrdered, History;
  }

  lemma LogsBetweenStep(logs: map<nat, LogFile>, lo: nat, next: nat, n: nat)
    requires n in logs && lo <= next <= n && forall l :: l in logs && l >= next ==> n <= l
    ensures LogsBetween(logs, lo, n) == LogsBetween(logs, lo, next)
    ensures LogsBetween(logs, lo, n + 1) == LogsBetween(logs, lo, next) + logs[n].All()
  {
  }

  lemma ReplayDoneKeeps(s: State, s': State, n: nat)
    requires Inv(s) && ReplayDone(s, s', n)
    ensures Inv(s')
  {
    hide VersionOk, LogsFrom, LogsBetween, SameView, Good, DurableFrom, LogsOrdered, Contents, Newer, History;
    LogsBetweenStep(s.disk.logs, s.disk.manifest.version.logNumber, s.phase.o.next, n);
  }

  lemma ReuseLogKeeps(s: State, s': State, n: nat)
    requires Inv(s) && ReuseLog(s, s', n)
    ensures Inv(s')
  {
    hide VersionOk, LogsFrom, LogsBetween, SameView, Good, DurableFrom, LogsOrdered, Contents, Newer, History;
    LogsBetweenStep(s.disk.logs, s.disk.manifest.version.logNumber, s.phase.o.next, n);
  }

  // ----- opening -----

  /** The log in use after opening, and the logs that then exist. */
  ghost function OpenLog(o: Opening): nat {
    if o.reused.Some? then o.reused.value else o.nextFile
  }

  ghost function OpenLogs(d: Disk, o: Opening): map<nat, LogFile> {
    if o.reused.Some? then d.logs else d.logs[o.nextFile := NEW_LOG]
  }

  ghost predicate Opened(s: State) {
    && s.phase.Recovering? && AllReplayed(s) && DiskInv(s) && LastLogNewest(s.disk) && OpeningInv(s)
    && (s.phase.o.reused.Some? ==> s.phase.o.reused.value in s.disk.logs)
  }

  ghost function Replayed(d: Disk, o: Opening): set<Entry> {
    LogsBetween(d.logs, d.manifest.version.logNumber, OpenLog(o))
  }

  /** The log in use is the last one, and all before it were replayed. */
  lemma OpenedLogs(s: State)
    requires Opened(s)
    ensures var d, o, lo := s.disk, s.phase.o, s.disk.manifest.version.logNumber;
      var log, logs := OpenLog(o), OpenLogs(d, o);
      && log in logs && (forall n :: n in logs ==> n <= log) && lo <= log
      && LogsFrom(logs, lo) == LogsFrom(d.logs, lo) && DurableFrom(logs, lo) == DurableFrom(d.logs, lo)
      && LogsOrdered(logs, lo)
      && Contents(d.tables, o.added) == Replayed(d, o) == LogsBetween(logs, lo, log)
      && Newer(logs[log].All(), d.manifest.version.flushed)
  {
    hide VersionOk, Good, Contents, SameView;
    var d, o, lo := s.disk, s.phase.o, s.disk.manifest.version.logNumber;
    if o.reused.None? {
      assert forall l :: l in d.logs ==> l < o.nextFile;
      EmptyLogFrom(d.logs, o.nextFile, lo);
      assert LogsBetween(d.logs, lo, o.next) == LogsBetween(d.logs, lo, o.nextFile);
    }
  }

  /** The version that opening saves: the replayed logs have become tables. */
  ghost function Saved(d: Disk, o: Opening): Version {
    Edit(d.manifest.version, {}, o.added, OpenLog(o), Replayed(d, o))
  }

  lemma OpenedVersion(s: State)
    requires Opened(s)
    ensures var d, o := s.disk, s.phase.o;
      var d1 := d.(logs := OpenLogs(d, o));
      VersionOk(d1, d.manifest.version, {}, s.floor) && VersionOk(d1, Saved(d, o), {}, s.floor)
  {
    hide Good, Contents, SameView, LogsOrdered, LogsFrom, LogsBetween, Newer, DurableFrom, OpenLogs, LastLogNewest;
    var d, o, v := s.disk, s.phase.o, s.disk.manifest.version;
    var log, d1, c := OpenLog(o), d.(logs := OpenLogs(d, o)), Contents(d.tables, v.live - {});
    OpenedLogs(s);
    VersionSameLogs(d, d1, v, {}, s.floor);
    LogsSplit(d1.logs, v.logNumber, log);
    LaterLogNewer(d1.logs, v.logNumber, log);
    FitsSubset(LogsFrom(d1.logs, v.logNumber), Replayed(d, o), c, c, v.flushed);
    FitsSubset(LogsFrom(d1.logs, v.logNumber), LogsFrom(d1.logs, log), c, c, v.flushed);
    FlushedVersion(d1, v, {}, s.floor, Replayed(d, o), o.added, log);
  }

  lemma LaterLogNewer(logs: map<nat, LogFile>, lo: nat, log: nat)
    requires LogsOrdered(logs, lo) && lo <= log
    ensures Newer(LogsFrom(logs, log), LogsBetween(logs, lo, log))
  {
  }

  /** Saving moves entries from logs to tables: the history stays. */
  lemma SavedHistory(s: State)
    requires Opened(s)
    ensures var d, o, v := s.disk, s.phase.o, s.disk.manifest.version;
      && History(OpenLogs(d, o), v) == History(d.logs, v)
      && History(OpenLogs(d, o), Saved(d, o)) == History(d.logs, v)
      && v.flushed + DurableFrom(d.logs, v.logNumber)
         <= v.flushed + Replayed(d, o) + DurableFrom(OpenLogs(d, o), OpenLog(o))
  {
    hide Good, Contents, SameView, LogsOrdered, VersionOk, OpenLogs, LastLogNewest, DiskInv;
    var d, o, v := s.disk, s.phase.o, s.disk.manifest.version;
    OpenedLogs(s);
    LogsSplit(OpenLogs(d, o), v.logNumber, OpenLog(o));
    DurableSplit(OpenLogs(d, o), v.logNumber, OpenLog(o));
  }

  lemma DurableSplit(logs: map<nat, LogFile>, lo: nat, hi: nat)
    ensures DurableFrom(logs, lo) <= LogsBetween(logs, lo, hi) + DurableFrom(logs, hi)
  {
    forall e | e in DurableFrom(logs, lo) && e !in DurableFrom(logs, hi)
      ensures e in LogsBetween(logs, lo, hi)
    {
      var n :| n in logs && lo <= n && e in logs[n].durable;
      assert e in logs[n].All();
    }
  }

  ghost function OpenedMemory(d: Disk, o: Opening, last: nat, save: bool): Memory
    requires OpenLog(o) in OpenLogs(d, o)
  {
    Memory(if save then Saved(d, o) else d.manifest.version, OpenLogs(d, o)[OpenLog(o)].All(), None, OpenLog(o), last,
           if o.reused.Some? then o.nextFile else o.nextFile + 1, {}, [], [], false, NoWrite, {}, None, None)
  }

  /** The database just after opening, before obsolete files are deleted. */
  ghost predicate JustOpened(s: State, s1: State, last: nat, save: bool) {
    && Opened(s) && RecoveredSequence(s, last) && last < MAX_SEQUENCE && (s.phase.o.added != {} ==> save)
    && var d, o := s.disk, s.phase.o;
    && OpenLog(o) in OpenLogs(d, o)
    && var m := OpenedMemory(d, o, last, save);
    && s1 == s.(disk := Disk(d.tables, OpenLogs(d, o),
                             if save then Manifest(m.current, m.nextFile, last) else d.manifest), phase := Up(m))
  }

  lemma OpenedLogsInv(s: State, s1: State, last: nat, save: bool)
    requires JustOpened(s, s1, last, save)
    ensures LogsInv(s1.disk, s1.phase.m)
  {
    hide Good, SameView, LogsOrdered, VersionOk, OpenLogs, LastLogNewest, DiskInv, LogsFrom, LogsBetween;
    var d, o, log := s.disk, s.phase.o, OpenLog(s.phase.o);
    OpenedLogs(s);
    NothingBetween(OpenLogs(d, o), log);
    OrderedFrom(OpenLogs(d, o), d.manifest.version.logNumber, log);
    assert o.added == {} ==> Contents(d.tables, o.added) == {};
  }

  lemma OpenedLayers(s: State, s1: State, last: nat, save: bool)
    requires JustOpened(s, s1, last, save)
    ensures LayersInv(s1.phase.m)
    ensures forall e :: e in s1.disk.manifest.version.flushed ==> e.sequence <= s1.disk.manifest.lastSequence
  {
    hide Good, SameView, LogsOrdered, VersionOk, OpenLogs, LastLogNewest, Contents, OpeningInv, AllReplayed;
    var d, o, log, lo := s.disk, s.phase.o, OpenLog(s.phase.o), s.disk.manifest.version.logNumber;
    var logs := OpenLogs(d, o);
    OpenedLogs(s);
    LogsSplit(logs, lo, log);
    LaterLogNewer(logs, lo, log);
    LastLogOnly(logs, log);
  }

  lemma OpenedNumbers(s: State, s1: State, last: nat, save: bool)
    requires JustOpened(s, s1, last, save)
    ensures NumbersInv(s1.disk, s1.phase.m)
  {
    hide Good, SameView, LogsOrdered, VersionOk, LastLogNewest, Contents, LogsBetween, LogsFrom, DurableFrom, History, RecoveredSequence;
  }

  lemma OpenedUp(s: State, s1: State, last: nat, save: bool)
    requires JustOpened(s, s1, last, save)
    ensures UpInv(s1)
  {
    hide Good, SameView, LogsOrdered, VersionOk, LastLogNewest, Contents, LogsBetween, LogsFrom, DurableFrom, History,
         LogsInv, LayersInv, NumbersInv, Fits, OpeningInv, AllReplayed, OpenLogs, LogFile.All;
    var d, o, d1, m, v := s.disk, s.phase.o, s1.disk, s1.phase.m, s.disk.manifest.version;
    var d0 := d.(logs := OpenLogs(d, o));
    OpenedLogsInv(s, s1, last, save);
    OpenedLayers(s, s1, last, save);
    OpenedNumbers(s, s1, last, save);
    OpenedVersion(s);
    OpenedLogs(s);
    VersionSameFiles(d0, d1, m.current, {}, s.floor);
    NothingFits(Contents(d1.tables, m.current.live - {}), m.current.flushed);
    SavedHistory(s);
    HistoryParts(d1, m);
  }

  lemma OpenedLastLog(s: State, d': Disk)
    requires Opened(s) && d' == s.disk.(logs := OpenLogs(s.disk, s.phase.o))
    ensures LastLogNewest(d')
  {
    hide Good, SameView, LogsOrdered, VersionOk, Contents, LogsBetween, LogsFrom, DurableFrom, History, OpeningInv,
         AllReplayed, LogFile.All, Newer, OpenLogs, DiskInv;
    OpenedLogs(s);
    forall n | n in d'.logs && (forall l :: l in d'.logs ==> l <= n)
      ensures Newer(d'.logs[n].All(), d'.manifest.version.flushed)
    {
      assert n == OpenLog(s.phase.o);
    }
  }

  /** The manifest was not reached: at most an empty log is new. */
  lemma OpenFailedKeeps(s: State, s': State)
    requires Opened(s)
    requires s' == s.(disk := s.disk.(logs := OpenLogs(s.disk, s.phase.o)), phase := Down)
    ensures Inv(s')
  {
    hide Good, SameView, LogsOrdered, VersionOk, Contents, LogsBetween, LogsFrom, DurableFrom, History, OpeningInv,
         AllReplayed, LogFile.All, Newer, OpenLogs, LastLogNewest;
    OpenedVersion(s);
    OpenedLogs(s);
    SavedHistory(s);
    OpenedLastLog(s, s'.disk);
  }

  lemma DownIsDisk(s: State, s': State)
    requires DiskInv(s) && LastLogNewest(s.disk) && s' == s.(phase := Down)
    ensures Inv(s')
  {
    hide VersionOk, Good, History, DurableFrom, LogsOrdered, LastLogNewest;
  }

  lemma OpenStarts(s: State, s': State, last: nat, save: bool, fails: bool, reached: bool)
    requires Inv(s) && Open(s, s', last, save, fails, reached)
    ensures Opened(s)
  {
    hide DiskInv, LastLogNewest, OpeningInv, RecoveredSequence, LogsBetween, Edit, DeleteObsoleteFiles;
  }

  lemma OpenKeeps(s: State, s': State, last: nat, save: bool, fails: bool, reached: bool)
    requires Inv(s) && Open(s, s', last, save, fails, reached)
    ensures Inv(s')
  {
    hide DiskInv, LastLogNewest, OpeningInv, UpInv, AllReplayed, RecoveredSequence, LogsBetween, Edit;
    OpenStarts(s, s', last, save, fails, reached);
    if fails && !reached {
      OpenFailedKeeps(s, s');
    } else {
      var d, o := s.disk, s.phase.o;
      OpenedLogs(s);
      var m := OpenedMemory(d, o, last, save);
      var s1 := s.(disk := Disk(d.tables, OpenLogs(d, o), if save then Manifest(m.current, m.nextFile, last) else d.manifest),
                   phase := Up(m));
      assert JustOpened(s, s1, last, save);
      OpenedUp(s, s1, last, save);
      if fails {
        RunningDisk(s1);
        DownIsDisk(s1, s');
      } else {
        CollectingKeeps(s1, s');
      }
    }
  }
}
