/** Flushes, compactions and the collection of obsolete files keep the invariant. */
module EngineBackground {
  import opened Bytes
  import opened InternalKeys
  import opened Views
  import opened Compaction
  import opened EngineState
  import opened EngineViews
  import opened EngineInvariant
  import opened EngineWrites

  // ----- versions after an edit -----

  lemma FitsBoth(w: set<Entry>, imm: set<Entry>, c: set<Entry>, f: set<Entry>)
    requires Fits(w, c, f) && Newer(w, imm)
    ensures Fits(w, c + imm, f + imm)
  {
  }

  /** A version that takes in the immutable memtable as a table. */
  lemma FlushedVersion(d: Disk, v: Version, inputs: set<nat>, floor: nat, imm: set<Entry>, tables: set<nat>, log: nat)
    requires VersionOk(d, v, inputs, floor)
    requires Fits(imm, Contents(d.tables, v.live - inputs), v.flushed)
    requires tables <= d.tables.Keys && Contents(d.tables, tables) == imm && tables !! inputs
    requires Fits(LogsFrom(d.logs, log), Contents(d.tables, v.live - inputs), v.flushed)
    requires Newer(LogsFrom(d.logs, log), imm)
    ensures VersionOk(d, Edit(v, {}, tables, log, imm), inputs, floor)
    ensures Fits(imm, Contents(d.tables, v.live - {} + tables - inputs), v.flushed + imm)
    ensures Contents(d.tables, v.live - {} + tables - inputs) == Contents(d.tables, v.live - inputs) + imm
  {
    hide Contents, SameView, LogsFrom, Newer;
    assert v.live - {} + tables == v.live + tables;
    assert v.live - {} + tables - inputs == (v.live - inputs) + tables;
    ContentsUnion(d.tables, v.live, tables);
    ContentsUnion(d.tables, v.live - inputs, tables);
    ContentsUnion(d.tables, v.live - inputs, v.live * inputs);
    assert (v.live - inputs) + v.live * inputs == v.live;
    var c := Contents(d.tables, v.live);
    FitsSubset(imm, imm, Contents(d.tables, v.live - inputs), c, v.flushed);
    AddFits(c, v.flushed, imm, floor);
    FitsBoth(LogsFrom(d.logs, log), imm, Contents(d.tables, v.live - inputs), v.flushed);
  }

  /** A version in which a compaction's outputs replace its inputs. */
  lemma CompactedVersion(d: Disk, v: Version, job: Job, floor: nat, log: nat)
    requires VersionOk(d, v, job.inputs, floor)
    requires job.inputs <= v.live && Entries(job.entries) == Contents(d.tables, job.inputs)
    requires Setting(job.cmp, job.entries, Contents(d.tables, v.live - job.inputs), job.base)
    requires job.smallest < MAX_SEQUENCE && forall e :: e in v.flushed ==> Parses(e)
    requires job.outputs <= d.tables.Keys
    requires Contents(d.tables, job.outputs) == Entries(Kept(job.entries, |job.entries|, job.smallest, job.base))
    requires Fits(LogsFrom(d.logs, log), Contents(d.tables, v.live - job.inputs), v.flushed)
    ensures VersionOk(d, Edit(v, job.inputs, job.outputs, log, {}), {}, Max(floor, job.smallest))
    ensures Contents(d.tables, v.live - job.inputs) <= Contents(d.tables, v.live - job.inputs + job.outputs)
  {
    hide Contents, SameView, LogsFrom, Setting, Kept;
    var rest := Contents(d.tables, v.live - job.inputs);
    ContentsUnion(d.tables, v.live - job.inputs, job.inputs);
    assert v.live - job.inputs + job.inputs == v.live;
    ContentsUnion(d.tables, v.live - job.inputs, job.outputs);
    ParsesAll(job.entries, v.flushed);
    CompactionView(job, rest, v.flushed, floor);
    KeptIsSubset(job.entries, rest, job.smallest, job.base);
    assert v.live - job.inputs + job.outputs - {} == v.live - job.inputs + job.outputs;
    assert v.flushed + {} == v.flushed;
    FitsSubset(LogsFrom(d.logs, log), LogsFrom(d.logs, log), rest,
               Contents(d.tables, v.live - job.inputs + job.outputs), v.flushed);
  }

  lemma ParsesAll(es: seq<Entry>, f: set<Entry>)
    requires Entries(es) <= f && forall e :: e in f ==> Parses(e)
    ensures forall e :: e in es ==> Parses(e)
  {
    forall e | e in es
      ensures Parses(e)
    {
      assert e in Entries(es);
    }
  }

  // ----- starting and building a flush -----

  lemma StartFlushKeeps(s: State, s': State)
    requires s.phase.Up? && UpInv(s) && StartFlush(s, s')
    ensures UpInv(s')
  {
    hide VersionOk, Contents, LogsFrom, LogsBetween, SameView, Good, Newer, DurableFrom, Fits, Setting, LogsOrdered, History;
  }

  /** A new table file that no version knows changes no version. */
  lemma VersionSameTables(d: Disk, d': Disk, v: Version, inputs: set<nat>, floor: nat)
    requires VersionOk(d, v, inputs, floor) && d'.logs == d.logs
    requires forall n :: n in v.live && n in d.tables ==> n in d'.tables && d'.tables[n] == d.tables[n]
    ensures VersionOk(d', v, inputs, floor)
  {
    hide Contents, LogsFrom, SameView, Fits;
    SameContents(d.tables, d'.tables, v.live);
    SameContents(d.tables, d'.tables, v.live - inputs);
  }

  lemma JobNewTable(d: Disk, m: Memory, d': Disk, m': Memory, floor: nat, n: nat, part: set<Entry>)
    requires JobInv(d, m, floor) && d'.tables == d.tables[n := part] && d'.manifest == d.manifest
    requires n !in m.current.live && n !in d.manifest.version.live
    requires m.job.Some? ==> n !in m.job.value.outputs && m.current.live <= d.tables.Keys
    requires m.job.Some? && !m.job.value.stage.Committed? ==> d.manifest.version.live <= d.tables.Keys
    requires m'.job == m.job && m'.current == m.current && m'.snapshots == m.snapshots
    requires m'.lastSequence == m.lastSequence && m'.nextFile >= m.nextFile
    requires m.job.Some? ==> m.job.value.outputs <= m'.pendingOutputs
    ensures JobInv(d', m', floor)
  {
    hide Contents, Setting, Kept, Entries;
    if m.job.Some? {
      var job := m.job.value;
      SameContents(d.tables, d'.tables, job.inputs);
      SameContents(d.tables, d'.tables, job.outputs);
      SameContents(d.tables, d'.tables, m.current.live - job.inputs);
      SameContents(d.tables, d'.tables, d.manifest.version.live - job.inputs);
    }
  }

  lemma VersionTables(d: Disk, v: Version, inputs: set<nat>, floor: nat)
    requires VersionOk(d, v, inputs, floor)
    ensures v.live <= d.tables.Keys
  {
  }

  lemma BuildTableKeeps(s: State, s': State)
    requires s.phase.Up? && UpInv(s) && BuildTable(s, s')
    ensures UpInv(s')
  {
    hide Readable, VersionOk, Contents, LogsFrom, LogsBetween, SameView, Good, Newer, DurableFrom, Fits, LogsOrdered, History, JobInv;
    ReadableFrame(s.phase.m, s'.phase.m);
    var d, m, d', m', v := s.disk, s.phase.m, s'.disk, s'.phase.m, s.disk.manifest.version;
    var n := m.flush.value.table;
    VersionTables(d, m.current, Inputs(m), s.floor);
    VersionTables(d, v, DurableInputs(m), s.floor);
    VersionSameTables(d, d', m.current, Inputs(m), s.floor);
    VersionSameTables(d, d', v, DurableInputs(m), s.floor);
    JobOutputs(d, m, s.floor);
    SameContents(d.tables, d'.tables, m.current.live - Inputs(m));
    SameContents(d.tables, d'.tables, v.live - DurableInputs(m));
    if m.imm.value == {} {
      JobFrameFewerPending(d, m, m', s.floor);
    } else {
      JobNewTable(d, m, d', m', s.floor, n, m.imm.value);
    }
  }

  lemma JobOutputs(d: Disk, m: Memory, floor: nat)
    requires JobInv(d, m, floor)
    ensures m.job.Some? ==> m.job.value.outputs <= m.pendingOutputs && m.job.value.outputs <= d.tables.Keys
  {
  }

  lemma JobFrameFewerPending(d: Disk, m: Memory, m': Memory, floor: nat)
    requires JobInv(d, m, floor)
    requires m'.job == m.job && m'.current == m.current && m'.snapshots == m.snapshots
    requires m'.lastSequence == m.lastSequence && m'.nextFile >= m.nextFile
    requires m.job.Some? ==> m.job.value.outputs <= m'.pendingOutputs
    ensures JobInv(d, m', floor)
  {
    hide Contents, Setting, Kept, Entries;
  }

  // ----- installing a flush -----

  ghost predicate Flushing(s: State) {
    s.phase.Up? && UpInv(s) && s.phase.m.flush.Some? && !s.phase.m.flush.value.stage.Working?
  }

  /** What is known of a flush whose table is written. */
  lemma FlushFacts(s: State)
    requires Flushing(s)
    ensures var d, m := s.disk, s.phase.m;
      && m.imm.Some? && FlushTables(m) <= d.tables.Keys && Contents(d.tables, FlushTables(m)) == m.imm.value
      && FlushTables(m) !! Inputs(m) && FlushTables(m) !! m.current.live && Below(FlushTables(m), m.nextFile)
      && Newer(LogsFrom(d.logs, m.logfileNumber), m.imm.value) && Newer(m.imm.value, m.current.flushed)
  {
    hide VersionOk, LogsFrom, LogsBetween, SameView, Good, DurableFrom, Fits, LogsOrdered, History, Setting;
    var d, m := s.disk, s.phase.m;
    LastLogOnly(d.logs, m.logfileNumber);
    if m.imm.value != {} {
      ContentsOne(d.tables, m.flush.value.table);
    } else {
      assert Contents(d.tables, {}) == {};
    }
  }

  /** The logs still needed after a flush fit both versions. */
  lemma NewestLogFits(s: State, v: Version, inputs: set<nat>)
    requires s.phase.Up? && VersionOk(s.disk, v, inputs, s.floor) && v.logNumber <= s.phase.m.logfileNumber
    ensures Fits(LogsFrom(s.disk.logs, s.phase.m.logfileNumber), Contents(s.disk.tables, v.live - inputs), v.flushed)
  {
    hide Contents, SameView;
    LogsSplit(s.disk.logs, v.logNumber, s.phase.m.logfileNumber);
    FitsSubset(LogsFrom(s.disk.logs, v.logNumber), LogsFrom(s.disk.logs, s.phase.m.logfileNumber),
               Contents(s.disk.tables, v.live - inputs), Contents(s.disk.tables, v.live - inputs), v.flushed);
  }

  /** A flush moves entries from the logs to the tables: the history stays. */
  lemma FlushHistory(d: Disk, m: Memory, v: Version, tables: set<nat>)
    requires LogsInv(d, m) && m.imm.Some?
    requires v.logNumber == m.current.logNumber || v.logNumber == m.logfileNumber
    requires History(d.logs, v) == History(d.logs, m.current)
    ensures History(d.logs, Edit(v, {}, tables, m.logfileNumber, m.imm.value)) == History(d.logs, v)
    ensures v.flushed + DurableFrom(d.logs, v.logNumber)
         <= v.flushed + m.imm.value + DurableFrom(d.logs, m.logfileNumber)
  {
    HistoryParts(d, m);
    LogsSplit(d.logs, m.current.logNumber, m.logfileNumber);
    forall e | e in DurableFrom(d.logs, v.logNumber) && e !in DurableFrom(d.logs, m.logfileNumber)
      ensures e in m.imm.value
    {
      var n :| n in d.logs && v.logNumber <= n && e in d.logs[n].durable;
      assert e in d.logs[n].All();
      assert e in LogsBetween(d.logs, m.current.logNumber, m.logfileNumber);
    }
  }

  /** The version that takes in the flush is in order, in the manifest and in memory. */
  lemma FlushEdits(s: State)
    requires Flushing(s)
    ensures var d, m := s.disk, s.phase.m;
      && m.imm.Some?
      && var cur := Edit(m.current, {}, FlushTables(m), m.logfileNumber, m.imm.value);
      && var man := Edit(d.manifest.version, {}, FlushTables(m), m.logfileNumber, m.imm.value);
      && VersionOk(d, cur, Inputs(m), s.floor) && VersionOk(d, man, DurableInputs(m), s.floor)
      && Fits(m.imm.value, Contents(d.tables, cur.live - Inputs(m)), cur.flushed)
      && Fits(m.imm.value, Contents(d.tables, man.live - DurableInputs(m)), man.flushed)
      && Contents(d.tables, cur.live - Inputs(m)) == Contents(d.tables, m.current.live - Inputs(m)) + m.imm.value
      && Contents(d.tables, man.live - DurableInputs(m))
         == Contents(d.tables, d.manifest.version.live - DurableInputs(m)) + m.imm.value
  {
    hide VersionOk, LogsFrom, LogsBetween, SameView, Good, DurableFrom, Fits, LogsOrdered, History, Setting, Contents, Newer,
         LogsInv, LayersInv, NumbersInv, ManifestInv, SnapshotsInv, JobInv, AckedInv, FlushTables;
    var d, m := s.disk, s.phase.m;
    FlushFacts(s);
    LogNumbers(d, m);
    NewestLogFits(s, m.current, Inputs(m));
    NewestLogFits(s, d.manifest.version, DurableInputs(m));
    FlushedVersion(d, m.current, Inputs(m), s.floor, m.imm.value, FlushTables(m), m.logfileNumber);
    FlushedVersion(d, d.manifest.version, DurableInputs(m), s.floor, m.imm.value, FlushTables(m), m.logfileNumber);
  }

  /** A compaction running meanwhile keeps what the version set promised it. */
  lemma FlushJob(d: Disk, m: Memory, rest: set<Entry>, imm: set<Entry>, floor: nat)
    requires JobInv(d, m, floor) && m.job.Some? && VersionOk(d, m.current, Inputs(m), floor)
    requires Setting(m.job.value.cmp, m.job.value.entries, rest, m.job.value.base)
    requires Newer(imm, m.current.flushed)
    ensures Setting(m.job.value.cmp, m.job.value.entries, rest + imm, m.job.value.base)
  {
    hide Contents, SameView, Setting, Fits, Kept;
    var job := m.job.value;
    ContentsUnion(d.tables, m.current.live - job.inputs, job.inputs);
    assert m.current.live - job.inputs + job.inputs == m.current.live;
    SettingGrows(job, rest, imm);
  }

  lemma VersionSameFiles(d: Disk, d': Disk, v: Version, inputs: set<nat>, floor: nat)
    requires VersionOk(d, v, inputs, floor) && d'.tables == d.tables && d'.logs == d.logs
    ensures VersionOk(d', v, inputs, floor)
  {
    hide Contents, LogsFrom, SameView, Fits;
  }

  lemma FlushCommitJob(s: State, d': Disk, m': Memory)
    requires Flushing(s) && s.phase.m.imm.Some? && s.phase.m.flush.value.stage.Applying?
    requires d' == s.disk.(manifest := FlushManifest(s.disk, s.phase.m))
    requires m'.job == s.phase.m.job && m'.current == s.phase.m.current && m'.snapshots == s.phase.m.snapshots
    requires m'.lastSequence == s.phase.m.lastSequence
    requires s.phase.m.job.Some? ==> s.phase.m.job.value.outputs <= m'.pendingOutputs
    ensures JobInv(d', m', s.floor)
  {
    hide VersionOk, LogsFrom, LogsBetween, SameView, Good, DurableFrom, Fits, LogsOrdered, History, Setting, Contents, Newer,
         LogsInv, LayersInv, NumbersInv, ManifestInv, SnapshotsInv, AckedInv, Kept, Entries;
    var d, m := s.disk, s.phase.m;
    FlushFacts(s);
    FlushEdits(s);
    if m.job.Some? {
      FlushJob(d, m, Contents(d.tables, d.manifest.version.live - m.job.value.inputs), m.imm.value, s.floor);
    }
  }

  /** The numbers written with a flush bound those that the manifest now holds. */
  lemma FlushNumbers(s: State, d': Disk)
    requires Flushing(s) && s.phase.m.imm.Some? && s.phase.m.flush.value.stage.Applying?
    requires d' == s.disk.(manifest := FlushManifest(s.disk, s.phase.m))
    ensures NumbersInv(d', s.phase.m)
    ensures s.floor <= d'.manifest.lastSequence <= s.phase.m.lastSequence
    ensures forall e :: e in d'.manifest.version.flushed ==> e.sequence <= d'.manifest.lastSequence
  {
    hide VersionOk, LogsFrom, LogsBetween, SameView, Good, DurableFrom, Fits, LogsOrdered, Setting, Contents, Newer,
         JobInv, LayersInv, History, SnapshotsInv, LogsInv, AckedInv;
  }

  /** After the durable part of installing a flush: everything but the flush itself is as it should be. */
  lemma FlushManifestKeeps(s: State, d': Disk)
    requires Flushing(s) && s.phase.m.imm.Some? && s.phase.m.flush.value.stage.Applying?
    requires d' == s.disk.(manifest := FlushManifest(s.disk, s.phase.m))
    ensures var m := s.phase.m;
      && VersionOk(d', m.current, Inputs(m), s.floor) && VersionOk(d', d'.manifest.version, DurableInputs(m), s.floor)
      && History(d'.logs, d'.manifest.version) == History(s.disk.logs, s.disk.manifest.version)
      && s.syncAcked <= d'.manifest.version.flushed + DurableFrom(d'.logs, m.logfileNumber)
      && LogsInv(d', m) && NumbersInv(d', m)
      && s.floor <= d'.manifest.lastSequence <= m.lastSequence
      && forall e :: e in d'.manifest.version.flushed ==> e.sequence <= d'.manifest.lastSequence
  {
    hide VersionOk, LogsFrom, LogsBetween, SameView, Good, DurableFrom, Fits, LogsOrdered, Setting, Contents, Newer,
         FlushTables, JobInv, FlushInv, LayersInv, History, SnapshotsInv, NumbersInv;
    var d, m := s.disk, s.phase.m;
    FlushNumbers(s, d');
    FlushFacts(s);
    FlushEdits(s);
    FlushHistory(d, m, d.manifest.version, FlushTables(m));
    VersionSameFiles(d, d', m.current, Inputs(m), s.floor);
    VersionSameFiles(d, d', d'.manifest.version, DurableInputs(m), s.floor);
  }

  lemma CommitFlushKeeps(s: State, s': State)
    requires s.phase.Up? && UpInv(s) && CommitFlush(s, s')
    ensures UpInv(s')
  {
    hide Readable, VersionOk, LogsFrom, LogsBetween, SameView, Good, DurableFrom, Fits, LogsOrdered, History, Setting, Contents, Newer,
         JobInv;
    ReadableFrame(s.phase.m, s'.phase.m);
    FlushFacts(s);
    FlushEdits(s);
    FlushManifestKeeps(s, s'.disk);
    JobOutputs(s.disk, s.phase.m, s.floor);
    FlushCommitJob(s, s'.disk, s'.phase.m);
  }

  lemma FailFlushKeeps(s: State, s': State, reached: bool)
    requires s.phase.Up? && UpInv(s) && FailFlush(s, s', reached)
    ensures UpInv(s')
  {
    hide Readable, VersionOk, LogsFrom, LogsBetween, SameView, Good, DurableFrom, Fits, LogsOrdered, History, Setting, Contents, Newer,
         JobInv;
    ReadableFrame(s.phase.m, s'.phase.m);
    JobOutputs(s.disk, s.phase.m, s.floor);
    if reached {
      FlushFacts(s);
      FlushEdits(s);
      FlushManifestKeeps(s, s'.disk);
      FlushCommitJob(s, s'.disk, s'.phase.m);
    } else {
      JobFrameFewerPending(s.disk, s.phase.m, s'.phase.m, s.floor);
    }
  }

  // ----- collecting obsolete files -----

  /** Tables that a live version, a reader, a running compaction or a flush needs. */
  ghost predicate TableNeeded(d: Disk, m: Memory, n: nat) {
    || n in m.current.live || n in d.manifest.version.live || n in m.pendingOutputs || InUse(m.readers, n)
    || (m.job.Some? && (n in m.job.value.inputs || n in m.job.value.outputs))
    || (m.flush.Some? && n == m.flush.value.table)
  }

  /** When files are collected: the background thread has just installed something and flushes nothing. */
  ghost predicate Collecting(s: State) {
    && s.phase.Up? && UpInv(s) && s.phase.m.flush.None?
    && (s.phase.m.job.Some? ==> s.phase.m.job.value.stage.Working?)
  }

  /** No needed table is deleted, no log that recovery would read, and none with data of the memtables. */
  lemma CollectingIsSafe(s: State)
    requires Collecting(s)
    ensures var d, m, d' := s.disk, s.phase.m, DeleteObsoleteFiles(s.disk, s.phase.m);
      && (forall n :: n in d.tables && TableNeeded(d, m, n) ==> n in d'.tables && d'.tables[n] == d.tables[n])
      && (forall n :: n in d.logs && n >= d.manifest.version.logNumber ==> n in d'.logs && d'.logs[n] == d.logs[n])
      && m.mem + ImmSet(m) <= LogsFrom(d'.logs, m.current.logNumber)
  {
    hide VersionOk, SameView, Good, DurableFrom, Fits, LogsOrdered, History, Setting, Contents, Newer, Kept, LogsBetween;
    HistoryParts(s.disk, s.phase.m);
    SameLogsFrom(s.disk.logs, KeptLogs(s.disk, s.phase.m), s.phase.m.current.logNumber);
  }

  lemma SameLogsFrom(logs: map<nat, LogFile>, logs': map<nat, LogFile>, lo: nat)
    requires forall n :: lo <= n ==> (n in logs <==> n in logs') && (n in logs ==> logs'[n] == logs[n])
    ensures LogsFrom(logs', lo) == LogsFrom(logs, lo) && DurableFrom(logs', lo) == DurableFrom(logs, lo)
    ensures forall hi :: LogsBetween(logs', lo, hi) == LogsBetween(logs, lo, hi)
    ensures LogsOrdered(logs, lo) ==> LogsOrdered(logs', lo)
  {
    hide Newer;
  }

  lemma CollectingVersions(s: State, d': Disk)
    requires Collecting(s) && d' == DeleteObsoleteFiles(s.disk, s.phase.m)
    ensures VersionOk(d', s.phase.m.current, Inputs(s.phase.m), s.floor)
    ensures VersionOk(d', d'.manifest.version, DurableInputs(s.phase.m), s.floor)
  {
    hide SameView, Good, DurableFrom, Fits, LogsOrdered, History, Setting, Contents, Newer, Kept, LogsBetween, LogsFrom;
    var d, m, v := s.disk, s.phase.m, s.disk.manifest.version;
    CollectingIsSafe(s);
    SameContents(d.tables, d'.tables, m.current.live);
    SameContents(d.tables, d'.tables, m.current.live - Inputs(m));
    SameContents(d.tables, d'.tables, v.live);
    SameContents(d.tables, d'.tables, v.live - DurableInputs(m));
    SameLogsFrom(d.logs, d'.logs, m.current.logNumber);
    SameLogsFrom(d.logs, d'.logs, v.logNumber);
  }

  lemma CollectingJob(s: State, d': Disk)
    requires Collecting(s) && d' == DeleteObsoleteFiles(s.disk, s.phase.m)
    ensures JobInv(d', s.phase.m, s.floor)
  {
    hide SameView, Good, DurableFrom, Fits, LogsOrdered, History, Setting, Contents, Newer, Kept, LogsBetween, LogsFrom,
         Entries;
    var d, m, v := s.disk, s.phase.m, s.disk.manifest.version;
    if m.job.Some? {
      var job := m.job.value;
      CollectingIsSafe(s);
      SameContents(d.tables, d'.tables, job.inputs);
      SameContents(d.tables, d'.tables, job.outputs);
      SameContents(d.tables, d'.tables, m.current.live - job.inputs);
      SameContents(d.tables, d'.tables, v.live - job.inputs);
    }
  }

  lemma CollectingKeeps(s: State, s': State)
    requires Collecting(s) && s' == s.(disk := DeleteObsoleteFiles(s.disk, s.phase.m))
    ensures UpInv(s')
  {
    hide VersionOk, SameView, Good, DurableFrom, Fits, LogsOrdered, Setting, Contents, Newer, LogsBetween, LogsFrom,
         JobInv;
    var d, m, v, d' := s.disk, s.phase.m, s.disk.manifest.version, s'.disk;
    CollectingVersions(s, d');
    CollectingJob(s, d');
    CollectingIsSafe(s);
    VersionTables(d, m.current, Inputs(m), s.floor);
    VersionTables(d, v, DurableInputs(m), s.floor);
    SameLogsFrom(d.logs, d'.logs, m.current.logNumber);
    SameLogsFrom(d.logs, d'.logs, v.logNumber);
    SameContents(d.tables, d'.tables, m.current.live - Inputs(m));
    SameContents(d.tables, d'.tables, v.live - DurableInputs(m));
  }

  lemma InstallFlushJob(s: State, m': Memory)
    requires Flushing(s) && s.phase.m.imm.Some?
    requires m'.current == Edit(s.phase.m.current, {}, FlushTables(s.phase.m), s.phase.m.logfileNumber, s.phase.m.imm.value)
    requires m'.job == s.phase.m.job && m'.snapshots == s.phase.m.snapshots && m'.lastSequence == s.phase.m.lastSequence
    requires m'.pendingOutputs == s.phase.m.pendingOutputs
    ensures JobInv(s.disk, m', s.floor)
  {
    hide VersionOk, LogsFrom, LogsBetween, SameView, Good, DurableFrom, Fits, LogsOrdered, History, Setting, Contents, Newer,
         LogsInv, LayersInv, NumbersInv, ManifestInv, SnapshotsInv, AckedInv, Kept, Entries;
    var d, m := s.disk, s.phase.m;
    FlushFacts(s);
    FlushEdits(s);
    if m.job.Some? {
      FlushJob(d, m, Contents(d.tables, m.current.live - m.job.value.inputs), m.imm.value, s.floor);
    }
  }

  lemma NothingFits(c: set<Entry>, f: set<Entry>)
    ensures Fits({}, c, f)
  {
  }

  lemma NothingBetween(logs: map<nat, LogFile>, n: nat)
    ensures LogsBetween(logs, n, n) == {}
  {
  }

  lemma OrderedFrom(logs: map<nat, LogFile>, lo: nat, hi: nat)
    requires LogsOrdered(logs, lo) && lo <= hi
    ensures LogsOrdered(logs, hi)
  {
    hide Newer;
  }

  lemma InstalledLayers(m: Memory, m': Memory)
    requires LayersInv(m) && m.imm.Some? && m'.current.flushed == m.current.flushed + m.imm.value && m'.imm.None?
    requires m'.mem == m.mem && m'.orphans == m.orphans && m'.writing == m.writing
    requires m'.lastSequence == m.lastSequence && m'.bgError == m.bgError
    ensures LayersInv(m')
  {
  }

  lemma InstalledFlush(s: State, m': Memory)
    requires s.phase.Up? && UpInv(s) && s.phase.m.flush.Some? && s.phase.m.flush.value.stage.Committed?
    requires s.phase.m.imm.Some?
    requires m' == s.phase.m.(current := Edit(s.phase.m.current, {}, FlushTables(s.phase.m), s.phase.m.logfileNumber,
                                              s.phase.m.imm.value), imm := None, flush := None)
    ensures UpInv(s.(phase := Up(m')))
  {
    hide VersionOk, LogsFrom, LogsBetween, SameView, Good, DurableFrom, Fits, LogsOrdered, History, Setting, Contents,
         JobInv, LayersInv, Newer;
    var d, m := s.disk, s.phase.m;
    FlushFacts(s);
    FlushEdits(s);
    FlushHistory(d, m, m.current, FlushTables(m));
    InstallFlushJob(s, m');
    InstalledLayers(m, m');
    NothingFits(Contents(d.tables, m'.current.live - Inputs(m')), m'.current.flushed);
    NothingFits(Contents(d.tables, d.manifest.version.live - DurableInputs(m')), d.manifest.version.flushed);
    NothingBetween(d.logs, m.logfileNumber);
    OrderedFrom(d.logs, m.current.logNumber, m.logfileNumber);
  }

  lemma InstallFlushKeeps(s: State, s': State)
    requires s.phase.Up? && UpInv(s) && InstallFlush(s, s')
    ensures UpInv(s')
  {
    hide UpInv;
    var m' := s'.phase.m;
    InstalledFlush(s, m');
    FlushLeavesJob(s);
    CollectingKeeps(s.(phase := Up(m')), s');
  }

  lemma FlushLeavesJob(s: State)
    requires s.phase.Up? && UpInv(s) && s.phase.m.flush.Some?
    ensures s.phase.m.job.Some? ==> s.phase.m.job.value.stage.Working?
  {
  }

  // ----- compactions -----

  lemma FreshVersion(d: Disk, m: Memory, floor: nat, inputs: set<nat>)
    requires LogsInv(d, m) && LayersInv(m) && m.imm.None? && m.orphans == {}
    requires VersionOk(d, m.current, {}, floor)
    ensures VersionOk(d, m.current, inputs, floor)
  {
    hide SameView, LogsOrdered, Contents;
    HistoryParts(d, m);
  }

  lemma StartJobKeeps(s: State, s': State, job: Job)
    requires s.phase.Up? && UpInv(s) && StartJob(s, s', job)
    ensures UpInv(s')
  {
    hide VersionOk, LogsFrom, LogsBetween, SameView, Good, DurableFrom, LogsOrdered, History, Setting, Contents, Newer,
         LogsInv, LayersInv, Kept, Entries;
    var d, m := s.disk, s.phase.m;
    NoOrphans(m);
    FreshVersion(d, m, s.floor, job.inputs);
    LogNumbersSame(s, s');
  }

  lemma NoOrphans(m: Memory)
    requires LayersInv(m) && !m.bgError
    ensures m.orphans == {}
  {
  }

  lemma WriteOutputKeeps(s: State, s': State, part: set<Entry>)
    requires s.phase.Up? && UpInv(s) && WriteOutput(s, s', part)
    ensures UpInv(s')
  {
    hide VersionOk, LogsFrom, LogsBetween, SameView, Good, DurableFrom, LogsOrdered, History, Setting, Contents, Newer,
         LogsInv, LayersInv, Kept, Entries, Fits;
    var d, m, v, d' := s.disk, s.phase.m, s.disk.manifest.version, s'.disk;
    var job := m.job.value;
    VersionTables(d, m.current, Inputs(m), s.floor);
    VersionTables(d, v, DurableInputs(m), s.floor);
    VersionSameTables(d, d', m.current, Inputs(m), s.floor);
    VersionSameTables(d, d', v, DurableInputs(m), s.floor);
    SameContents(d.tables, d'.tables, job.inputs);
    SameContents(d.tables, d'.tables, m.current.live - job.inputs);
    SameContents(d.tables, d'.tables, v.live - job.inputs);
    LogNumbersSame(s, s');
  }

  lemma LogNumbersSame(s: State, s': State)
    requires s.phase.Up? && s'.phase.Up? && LogsInv(s.disk, s.phase.m) && LayersInv(s.phase.m)
    requires s'.disk.logs == s.disk.logs && s'.disk.manifest == s.disk.manifest
    requires var m, m' := s.phase.m, s'.phase.m;
      && m'.current == m.current && m'.mem == m.mem && m'.imm == m.imm && m'.logfileNumber == m.logfileNumber
      && m'.lastSequence == m.lastSequence && m'.writing == m.writing && m'.orphans == m.orphans && m'.bgError == m.bgError
    ensures LogsInv(s'.disk, s'.phase.m) && LayersInv(s'.phase.m)
  {
    hide LogsFrom, LogsBetween, LogsOrdered, Newer;
  }

  lemma FinishLoopKeeps(s: State, s': State)
    requires s.phase.Up? && UpInv(s) && FinishLoop(s, s')
    ensures UpInv(s')
  {
    hide VersionOk, LogsFrom, LogsBetween, SameView, Good, DurableFrom, LogsOrdered, History, Setting, Contents, Newer,
         LogsInv, LayersInv, Kept, Entries, Fits;
    LogNumbers(s.disk, s.phase.m);
    LogNumbersSame(s, s');
  }

  ghost predicate Finished(s: State) {
    s.phase.Up? && UpInv(s) && s.phase.m.job.Some? && !s.phase.m.job.value.stage.Working?
  }

  /** The logs from the current log number on fit the version in the manifest as well. */
  lemma CurrentLogsFit(s: State)
    requires s.phase.Up? && UpInv(s)
    ensures var d, m := s.disk, s.phase.m;
      Fits(LogsFrom(d.logs, m.current.logNumber), Contents(d.tables, d.manifest.version.live - DurableInputs(m)),
           d.manifest.version.flushed)
  {
    hide LogsFrom, LogsBetween, SameView, Good, DurableFrom, LogsOrdered, Setting, Contents, Newer, Kept, Entries;
    var d, m := s.disk, s.phase.m;
    LogsSplit(d.logs, m.current.logNumber, m.logfileNumber);
  }

  lemma JobEdits(s: State)
    requires Finished(s)
    ensures var d, m, job := s.disk, s.phase.m, s.phase.m.job.value;
      && VersionOk(d, Edit(m.current, job.inputs, job.outputs, m.current.logNumber, {}), {}, Max(s.floor, job.smallest))
      && (!job.stage.Committed? ==>
            VersionOk(d, Edit(d.manifest.version, job.inputs, job.outputs, m.current.logNumber, {}), {},
                      Max(s.floor, job.smallest)))
      && Contents(d.tables, m.current.live - job.inputs) <= Contents(d.tables, m.current.live - job.inputs + job.outputs)
      && (!job.stage.Committed? ==>
            Contents(d.tables, d.manifest.version.live - job.inputs)
              <= Contents(d.tables, d.manifest.version.live - job.inputs + job.outputs))
  {
    hide VersionOk, LogsFrom, LogsBetween, SameView, DurableFrom, LogsOrdered, Setting, Contents, Newer, Kept, Entries,
         LogsInv, Fits;
    var d, m, job := s.disk, s.phase.m, s.phase.m.job.value;
    CurrentLogsFit(s);
    LogsFit(d, m.current, Inputs(m), s.floor);
    SmallestBelowMax(m, job.smallest);
    CompactedVersion(d, m.current, job, s.floor, m.current.logNumber);
    if !job.stage.Committed? {
      CompactedVersion(d, d.manifest.version, job, s.floor, m.current.logNumber);
    }
  }

  lemma SmallestBelowMax(m: Memory, smallest: nat)
    requires LayersInv(m) && smallest <= m.lastSequence
    ensures smallest < MAX_SEQUENCE
  {
  }

  /** Replacing tables, and going back to the current log number, leaves the history as it is. */
  lemma JobHistory(s: State)
    requires s.phase.Up? && UpInv(s) && s.phase.m.job.Some?
    ensures var d, m, job := s.disk, s.phase.m, s.phase.m.job.value;
      && History(d.logs, Edit(d.manifest.version, job.inputs, job.outputs, m.current.logNumber, {}))
         == History(d.logs, d.manifest.version)
      && DurableFrom(d.logs, d.manifest.version.logNumber) <= DurableFrom(d.logs, m.current.logNumber)
  {
    hide VersionOk, LogsBetween, SameView, Good, LogsOrdered, Setting, Contents, Newer, Kept, Entries, Fits, FlushInv, JobInv;
    var d, m := s.disk, s.phase.m;
    HistoryParts(d, m);
    LogsSplit(d.logs, m.current.logNumber, m.logfileNumber);
  }

  lemma VersionRaise(d: Disk, v: Version, inputs: set<nat>, inputs': set<nat>, floor: nat, floor': nat)
    requires VersionOk(d, v, inputs, floor) && inputs' <= inputs && floor <= floor'
    ensures VersionOk(d, v, inputs', floor')
  {
    hide SameView, LogsFrom;
    RaiseFloor(Contents(d.tables, v.live), v.flushed, floor, floor');
  }

  lemma FlushFits(d: Disk, m: Memory)
    requires FlushInv(d, m)
    ensures Fits(ImmSet(m), Contents(d.tables, m.current.live - Inputs(m)), m.current.flushed)
    ensures Fits(ImmSet(m), Contents(d.tables, d.manifest.version.live - DurableInputs(m)), d.manifest.version.flushed)
  {
  }

  lemma CommitJobKeeps(s: State, s': State)
    requires s.phase.Up? && UpInv(s) && CommitJob(s, s')
    ensures UpInv(s')
  {
    hide VersionOk, LogsFrom, LogsBetween, SameView, Good, DurableFrom, LogsOrdered, History, Setting, Contents, Newer,
         Kept, Entries, Fits, LayersInv;
    var d, m, d' := s.disk, s.phase.m, s'.disk;
    JobEdits(s);
    JobHistory(s);
    VersionRaise(d, m.current, Inputs(m), Inputs(m), s.floor, s'.floor);
    VersionSameFiles(d, d', m.current, Inputs(m), s'.floor);
    VersionSameFiles(d, d', d'.manifest.version, {}, s'.floor);
    FlushFits(d, m);
    JobImmFits(s, d'.manifest.version);
    LayersSame(m, s'.phase.m);
  }

  lemma LayersSame(m: Memory, m': Memory)
    requires LayersInv(m) && m'.current.flushed == m.current.flushed && m'.imm == m.imm && m'.mem == m.mem
    requires m'.orphans == m.orphans && m'.writing == m.writing && m'.lastSequence == m.lastSequence
    requires m.bgError ==> m'.bgError
    ensures LayersInv(m')
  {
    hide Newer;
  }

  lemma InstalledJob(s: State, m': Memory)
    requires s.phase.Up? && UpInv(s) && s.phase.m.job.Some? && s.phase.m.job.value.stage.Committed?
    requires var m, job := s.phase.m, s.phase.m.job.value;
      m' == m.(current := Edit(m.current, job.inputs, job.outputs, m.current.logNumber, {}),
               pendingOutputs := m.pendingOutputs - job.outputs, job := None)
    ensures UpInv(s.(phase := Up(m')))
  {
    hide VersionOk, LogsFrom, LogsBetween, SameView, Good, DurableFrom, LogsOrdered, Setting, Contents, Newer,
         Kept, Entries, Fits, LayersInv;
    var d, m, job := s.disk, s.phase.m, s.phase.m.job.value;
    JobEdits(s);
    assert m.current.flushed + {} == m.current.flushed;
    FlushFits(d, m);
    assert m'.current.live - {} == m.current.live - job.inputs + job.outputs;
    FitsSubset(ImmSet(m), ImmSet(m), Contents(d.tables, m.current.live - job.inputs),
               Contents(d.tables, m'.current.live - {}), m.current.flushed);
    LayersSame(m, m');
  }

  lemma InstallJobKeeps(s: State, s': State)
    requires s.phase.Up? && UpInv(s) && InstallJob(s, s')
    ensures UpInv(s')
  {
    hide UpInv;
    var m' := s'.phase.m;
    InstalledJob(s, m');
    JobLeavesFlush(s);
    CollectingKeeps(s.(phase := Up(m')), s');
  }

  lemma JobLeavesFlush(s: State)
    requires s.phase.Up? && UpInv(s) && s.phase.m.job.Some? && !s.phase.m.job.value.stage.Working?
    ensures s.phase.m.flush.None?
  {
  }

  lemma FailJobKeeps(s: State, s': State, reached: bool)
    requires s.phase.Up? && UpInv(s) && FailJob(s, s', reached)
    ensures UpInv(s')
  {
    hide VersionOk, LogsFrom, LogsBetween, SameView, Good, DurableFrom, LogsOrdered, History, Setting, Contents, Newer,
         Kept, Entries, Fits, LayersInv;
    var d, m, d', v := s.disk, s.phase.m, s'.disk, s.disk.manifest.version;
    FlushFits(d, m);
    LayersSame(m, s'.phase.m);
    VersionRaise(d, m.current, Inputs(m), {}, s.floor, s'.floor);
    VersionSameFiles(d, d', m.current, {}, s'.floor);
    FitsMore(d, m.current.live, Inputs(m), ImmSet(m), m.current.flushed);
    if reached {
      JobEdits(s);
      JobHistory(s);
      VersionSameFiles(d, d', d'.manifest.version, {}, s'.floor);
      JobImmFits(s, d'.manifest.version);
    } else {
      VersionRaise(d, v, DurableInputs(m), {}, s.floor, s'.floor);
      FitsMore(d, v.live, DurableInputs(m), ImmSet(m), v.flushed);
    }
  }

  lemma FitsMore(d: Disk, live: set<nat>, inputs: set<nat>, w: set<Entry>, f: set<Entry>)
    requires Fits(w, Contents(d.tables, live - inputs), f)
    ensures Fits(w, Contents(d.tables, live - {}), f)
  {
  }

  /** The immutable memtable fits the version with the compaction's outputs too. */
  lemma JobImmFits(s: State, v: Version)
    requires Finished(s) && !s.phase.m.job.value.stage.Committed?
    requires var job := s.phase.m.job.value;
      v == Edit(s.disk.manifest.version, job.inputs, job.outputs, s.phase.m.current.logNumber, {})
    ensures Fits(ImmSet(s.phase.m), Contents(s.disk.tables, v.live - {}), v.flushed)
  {
    hide VersionOk, LogsFrom, LogsBetween, SameView, Good, DurableFrom, LogsOrdered, History, Setting, Contents, Newer,
         Kept, Entries, Fits, LayersInv, LogsInv, NumbersInv, ManifestInv, SnapshotsInv, AckedInv;
    var d, m, job := s.disk, s.phase.m, s.phase.m.job.value;
    JobEdits(s);
    FlushFits(d, m);
    assert v.live - {} == d.manifest.version.live - job.inputs + job.outputs;
    assert v.flushed == d.manifest.version.flushed;
    FitsSubset(ImmSet(m), ImmSet(m), Contents(d.tables, d.manifest.version.live - job.inputs), Contents(d.tables, v.live - {}),
               v.flushed);
  }
}
