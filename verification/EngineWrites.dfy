/** Writes, snapshots and readers keep the invariant. */
module EngineWrites {
  import opened Bytes
  import opened InternalKeys
  import opened Views
  import opened Compaction
  import opened EngineState
  import opened EngineViews
  import opened EngineInvariant

  /** The history of a running database is what its three layers and its log hold. */
  lemma HistoryParts(d: Disk, m: Memory)
    requires LogsInv(d, m)
    ensures History(d.logs, m.current) == m.current.flushed + ImmSet(m) + m.mem + m.orphans + InFlight(m)
    ensures LogsFrom(d.logs, m.current.logNumber) == ImmSet(m) + m.mem + m.orphans + InFlight(m)
  {
    LogsSplit(d.logs, m.current.logNumber, m.logfileNumber);
    LastLogOnly(d.logs, m.logfileNumber);
  }

  lemma AdmitWriteKeeps(s: State, s': State, batch: set<Entry>, count: nat, sync: bool)
    requires s.phase.Up? && UpInv(s) && AdmitWrite(s, s', batch, count, sync)
    ensures UpInv(s')
  {
    hide VersionOk, Contents, LogsFrom, LogsBetween, SameView, Good, Newer, DurableFrom, JobInv, FlushInv, NumbersInv;
    JobFrame(s.disk, s.phase.m, s'.disk, s'.phase.m, s.floor);
    FlushFrame(s.disk, s.phase.m, s'.disk, s'.phase.m);
    NumbersFrame(s.disk, s.phase.m, s'.disk, s'.phase.m);
  }

  lemma TakeSnapshotKeeps(s: State, s': State)
    requires s.phase.Up? && UpInv(s) && TakeSnapshot(s, s')
    ensures UpInv(s')
  {
    hide VersionOk, Contents, LogsFrom, LogsBetween, SameView, Good, Newer, Fits, Setting, DurableFrom, FlushInv;
    FlushFrame(s.disk, s.phase.m, s'.disk, s'.phase.m);
  }

  lemma ReleaseSnapshotKeeps(s: State, s': State, i: nat)
    requires s.phase.Up? && UpInv(s) && ReleaseSnapshot(s, s', i)
    ensures UpInv(s')
  {
    hide VersionOk, Contents, LogsFrom, LogsBetween, SameView, Good, Newer, Fits, Setting, DurableFrom, FlushInv;
    FlushFrame(s.disk, s.phase.m, s'.disk, s'.phase.m);
  }

  lemma StartReadKeeps(s: State, s': State)
    requires s.phase.Up? && UpInv(s) && StartRead(s, s')
    ensures UpInv(s')
  {
    hide Contents, LogsFrom, LogsBetween, SameView, Good, Newer, Fits, DurableFrom, FlushInv, JobInv;
    FlushFrame(s.disk, s.phase.m, s'.disk, s'.phase.m);
    JobFrame(s.disk, s.phase.m, s'.disk, s'.phase.m, s.floor);
  }

  lemma EndReadKeeps(s: State, s': State, i: nat)
    requires s.phase.Up? && UpInv(s) && EndRead(s, s', i)
    ensures UpInv(s')
  {
    hide VersionOk, Contents, LogsFrom, LogsBetween, SameView, Good, Newer, Fits, Setting, DurableFrom, FlushInv;
    FlushFrame(s.disk, s.phase.m, s'.disk, s'.phase.m);
  }

  // ----- appending to the log -----

  lemma AppendedFrom(logs: map<nat, LogFile>, n: nat, batch: set<Entry>, lo: nat)
    requires n in logs && lo <= n
    ensures var logs' := logs[n := logs[n].Append(batch)];
      && LogsFrom(logs', lo) == LogsFrom(logs, lo) + batch
      && LogsBetween(logs', lo, n) == LogsBetween(logs, lo, n)
      && DurableFrom(logs', lo) == DurableFrom(logs, lo)
  {
    var logs' := logs[n := logs[n].Append(batch)];
    assert logs'[n].All() == logs[n].All() + batch;
    assert forall l :: l in logs && l != n ==> logs'[l] == logs[l];
  }

  lemma FitsNewer(w: set<Entry>, batch: set<Entry>, c: set<Entry>, f: set<Entry>)
    requires Fits(w, c, f) && Newer(batch, f)
    ensures Fits(w + batch, c, f)
  {
  }

  lemma AppendVersion(d: Disk, d': Disk, v: Version, inputs: set<nat>, floor: nat, batch: set<Entry>)
    requires VersionOk(d, v, inputs, floor) && Newer(batch, v.flushed)
    requires d'.tables == d.tables && LogsFrom(d'.logs, v.logNumber) == LogsFrom(d.logs, v.logNumber) + batch
    ensures VersionOk(d', v, inputs, floor)
    ensures History(d'.logs, v) == History(d.logs, v) + batch
  {
    hide Contents, LogsFrom, SameView;
    FitsNewer(LogsFrom(d.logs, v.logNumber), batch, Contents(d.tables, v.live - inputs), v.flushed);
  }

  /** A batch that takes the next sequence numbers is newer than everything in the database. */
  lemma BatchIsNewer(d: Disk, m: Memory, batch: set<Entry>, count: nat, floor: nat)
    requires LogsInv(d, m) && LayersInv(m) && ManifestInv(d, m, floor) && FreshBatch(batch, m.lastSequence, count)
    requires m.writing.Admitted?
    ensures Newer(batch, History(d.logs, m.current))
    ensures Newer(batch, m.current.flushed) && Newer(batch, d.manifest.version.flushed)
    ensures Good(History(d.logs, m.current) + batch)
  {
    hide LogsFrom, LogsBetween, Contents;
    HistoryParts(d, m);
  }

  lemma AppendOrdered(logs: map<nat, LogFile>, n: nat, batch: set<Entry>, lo: nat)
    requires LogsOrdered(logs, lo) && n in logs && lo <= n && (forall l :: l in logs ==> l <= n)
    requires Newer(batch, LogsFrom(logs, lo))
    ensures LogsOrdered(logs[n := logs[n].Append(batch)], lo)
  {
    var logs' := logs[n := logs[n].Append(batch)];
    forall a, b | a in logs' && b in logs' && lo <= a < b
      ensures Newer(logs'[b].All(), logs'[a].All())
    {
      assert logs'[a] == logs[a];
      assert forall e :: e in logs[a].All() ==> e in LogsFrom(logs, lo);
    }
  }

  lemma LogNumbers(d: Disk, m: Memory)
    requires LogsInv(d, m)
    ensures m.logfileNumber in d.logs
    ensures m.current.logNumber <= m.logfileNumber && d.manifest.version.logNumber <= m.logfileNumber
  {
  }

  lemma AppendLogsInv(s: State, s': State)
    requires s.phase.Up? && LogsInv(s.disk, s.phase.m) && AppendLog(s, s')
    requires Newer(s.phase.m.writing.batch, History(s.disk.logs, s.phase.m.current))
    ensures LogsInv(s'.disk, s'.phase.m)
  {
    hide LogsFrom, LogsBetween, Newer, DurableFrom, LogsOrdered;
    var d, m, batch := s.disk, s.phase.m, s.phase.m.writing.batch;
    NewerThanLogs(d, m, batch);
    AppendOrdered(d.logs, m.logfileNumber, batch, m.current.logNumber);
    AppendedFrom(d.logs, m.logfileNumber, batch, m.current.logNumber);
  }

  lemma AppendLogKeeps(s: State, s': State)
    requires s.phase.Up? && UpInv(s) && AppendLog(s, s')
    ensures UpInv(s')
  {
    hide VersionOk, Contents, LogsFrom, LogsBetween, SameView, Good, Newer, DurableFrom, LogsInv, JobInv, FlushInv,
         NumbersInv, History;
    var d, m, batch, v := s.disk, s.phase.m, s.phase.m.writing.batch, s.disk.manifest.version;
    LogNumbers(d, m);
    BatchIsNewer(d, m, batch, m.writing.count, s.floor);
    AppendedFrom(d.logs, m.logfileNumber, batch, m.current.logNumber);
    AppendedFrom(d.logs, m.logfileNumber, batch, v.logNumber);
    AppendVersion(d, s'.disk, m.current, Inputs(m), s.floor, batch);
    AppendVersion(d, s'.disk, v, DurableInputs(m), s.floor, batch);
    AppendLogsInv(s, s');
    JobFrame(d, m, s'.disk, s'.phase.m, s.floor);
    FlushFrame(d, m, s'.disk, s'.phase.m);
    NumbersFrame(d, m, s'.disk, s'.phase.m);
  }

  lemma NewerThanLogs(d: Disk, m: Memory, batch: set<Entry>)
    requires Newer(batch, History(d.logs, m.current))
    ensures Newer(batch, LogsFrom(d.logs, m.current.logNumber))
  {
  }

  // ----- finishing a write -----

  /** Syncing moves a log's tail to its durable part. */
  lemma SyncedFrom(logs: map<nat, LogFile>, n: nat, log': LogFile, lo: nat)
    requires n in logs && log'.All() == logs[n].All() && logs[n].durable <= log'.durable
    ensures var logs' := logs[n := log'];
      && LogsFrom(logs', lo) == LogsFrom(logs, lo)
      && (forall hi :: LogsBetween(logs', lo, hi) == LogsBetween(logs, lo, hi))
      && (LogsOrdered(logs, lo) ==> LogsOrdered(logs', lo))
      && DurableFrom(logs, lo) <= DurableFrom(logs', lo)
      && (lo <= n ==> log'.durable <= DurableFrom(logs', lo))
  {
    hide Newer;
    var logs' := logs[n := log'];
    assert forall l :: l in logs ==> logs'[l].All() == logs[l].All();
    forall e | e in DurableFrom(logs, lo)
      ensures e in DurableFrom(logs', lo)
    {
      var l :| l in logs && lo <= l && e in logs[l].durable;
      assert e in logs'[l].durable;
    }
  }

  lemma VersionSameLogs(d: Disk, d': Disk, v: Version, inputs: set<nat>, floor: nat)
    requires VersionOk(d, v, inputs, floor)
    requires d'.tables == d.tables && LogsFrom(d'.logs, v.logNumber) == LogsFrom(d.logs, v.logNumber)
    ensures VersionOk(d', v, inputs, floor)
    ensures History(d'.logs, v) == History(d.logs, v)
  {
    hide Contents, LogsFrom, SameView, Fits;
  }

  lemma FinishLayers(m: Memory, m': Memory)
    requires LayersInv(m) && m.writing.Appended?
    requires m' == m.(mem := m.mem + m.writing.batch, lastSequence := m.lastSequence + m.writing.count, writing := NoWrite)
    ensures LayersInv(m')
  {
  }

  lemma FinishWriteKeeps(s: State, s': State)
    requires s.phase.Up? && UpInv(s) && FinishWrite(s, s')
    ensures UpInv(s')
  {
    hide VersionOk, Contents, LogsFrom, LogsBetween, SameView, Good, Newer, DurableFrom, LogsOrdered, LayersInv,
         JobInv, FlushInv, NumbersInv, History;
    var d, m, v, d' := s.disk, s.phase.m, s.disk.manifest.version, s'.disk;
    var log' := d'.logs[m.logfileNumber];
    SyncedFrom(d.logs, m.logfileNumber, log', m.current.logNumber);
    SyncedFrom(d.logs, m.logfileNumber, log', v.logNumber);
    VersionSameLogs(d, d', m.current, Inputs(m), s.floor);
    VersionSameLogs(d, d', v, DurableInputs(m), s.floor);
    FinishLayers(m, s'.phase.m);
    LastBatchInHistory(d, m);
    JobFrame(d, m, d', s'.phase.m, s.floor);
    FlushFrame(d, m, d', s'.phase.m);
    NumbersFrame(d, m, d', s'.phase.m);
  }

  lemma LastBatchInHistory(d: Disk, m: Memory)
    requires LogsInv(d, m) && History(d.logs, m.current) == History(d.logs, d.manifest.version)
    ensures InFlight(m) <= History(d.logs, d.manifest.version)
    ensures InFlight(m) <= d.logs[m.logfileNumber].All()
  {
    hide LogsFrom, LogsBetween;
    HistoryParts(d, m);
  }

  lemma FailSyncKeeps(s: State, s': State)
    requires s.phase.Up? && UpInv(s) && FailSync(s, s')
    ensures UpInv(s')
  {
    hide VersionOk, Contents, LogsFrom, LogsBetween, SameView, Good, DurableFrom, LogsOrdered,
         JobInv, FlushInv, NumbersInv, History;
    JobFrame(s.disk, s.phase.m, s'.disk, s'.phase.m, s.floor);
    FlushFrame(s.disk, s.phase.m, s'.disk, s'.phase.m);
    NumbersFrame(s.disk, s.phase.m, s'.disk, s'.phase.m);
  }

  // ----- switching to a new memtable -----

  lemma EmptyLogFrom(logs: map<nat, LogFile>, n: nat, lo: nat)
    requires forall l :: l in logs ==> l < n
    ensures var logs' := logs[n := NEW_LOG];
      && LogsFrom(logs', lo) == LogsFrom(logs, lo)
      && LogsBetween(logs', lo, n) == LogsFrom(logs, lo)
      && DurableFrom(logs', lo) == DurableFrom(logs, lo)
      && (LogsOrdered(logs, lo) ==> LogsOrdered(logs', lo))
  {
    var logs' := logs[n := NEW_LOG];
    assert forall l :: l in logs ==> logs'[l] == logs[l];
    assert logs'[n].All() == {};
  }

  lemma SwitchMemtableKeeps(s: State, s': State)
    requires s.phase.Up? && UpInv(s) && SwitchMemtable(s, s')
    ensures UpInv(s')
  {
    hide VersionOk, Contents, LogsFrom, LogsBetween, SameView, Good, DurableFrom, LogsOrdered, JobInv, History,
         Fits;
    var d, m, v, d' := s.disk, s.phase.m, s.disk.manifest.version, s'.disk;
    HistoryParts(d, m);
    EmptyLogFrom(d.logs, m.nextFile, m.current.logNumber);
    EmptyLogFrom(d.logs, m.nextFile, v.logNumber);
    VersionSameLogs(d, d', m.current, Inputs(m), s.floor);
    VersionSameLogs(d, d', v, DurableInputs(m), s.floor);
    LogsFit(d, m.current, Inputs(m), s.floor);
    LogsFit(d, v, DurableInputs(m), s.floor);
    JobFrame(d, m, d', s'.phase.m, s.floor);
  }

  lemma LogsFit(d: Disk, v: Version, inputs: set<nat>, floor: nat)
    requires VersionOk(d, v, inputs, floor)
    ensures Fits(LogsFrom(d.logs, v.logNumber), Contents(d.tables, v.live - inputs), v.flushed)
  {
  }
}
