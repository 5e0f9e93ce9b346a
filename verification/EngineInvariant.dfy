/** What holds of the database between any two steps. */
module EngineInvariant {
  import opened Bytes
  import opened InternalKeys
  import opened Views
  import opened Compaction
  import opened EngineState
  import opened EngineViews

  /** The tables of a version exist, look like the writes they stand for, and the logs still needed
      continue these writes. `inputs` are tables that are about to be replaced. */
  ghost predicate VersionOk(d: Disk, v: Version, inputs: set<nat>, floor: nat) {
    && v.live <= d.tables.Keys
    && Contents(d.tables, v.live) <= v.flushed
    && SameView(Contents(d.tables, v.live), v.flushed, floor)
    && Fits(LogsFrom(d.logs, v.logNumber), Contents(d.tables, v.live - inputs), v.flushed)
  }

  /** Later logs hold newer entries. */
  ghost predicate LogsOrdered(logs: map<nat, LogFile>, lo: nat) {
    forall a, b :: a in logs && b in logs && lo <= a < b ==> Newer(logs[b].All(), logs[a].All())
  }

  /** The files alone: opening them gives back a view of the history, with all acknowledged writes. */
  ghost predicate DiskInv(s: State) {
    && var d, v := s.disk, s.disk.manifest.version;
    && VersionOk(d, v, {}, s.floor)
    && Good(History(d.logs, v))
    && LogsOrdered(d.logs, v.logNumber)
    && (forall n :: n in v.live ==> n < d.manifest.nextFile) && v.logNumber < d.manifest.nextFile
    && (forall e :: e in v.flushed ==> e.sequence <= d.manifest.lastSequence)
    && s.floor <= d.manifest.lastSequence
    && s.acked <= History(d.logs, v)
    && s.syncAcked <= v.flushed + DurableFrom(d.logs, v.logNumber)
  }

  /** The newest log holds nothing older than what the tables stand for. */
  ghost predicate LastLogNewest(d: Disk) {
    forall n :: n in d.logs && (forall l :: l in d.logs ==> l <= n) && n >= d.manifest.version.logNumber
      ==> Newer(d.logs[n].All(), d.manifest.version.flushed)
  }

  // ----- running -----

  ghost function ImmSet(m: Memory): set<Entry> {
    if m.imm.Some? then m.imm.value else {}
  }

  ghost function InFlight(m: Memory): set<Entry> {
    if m.writing.Appended? then m.writing.batch else {}
  }

  /** The inputs of the running compaction that are still part of the current version... */
  ghost function Inputs(m: Memory): set<nat> {
    if m.job.Some? then m.job.value.inputs else {}
  }

  /** ...and those still part of the version in the manifest. */
  ghost function DurableInputs(m: Memory): set<nat> {
    if m.job.Some? && !m.job.value.stage.Committed? then m.job.value.inputs else {}
  }

  ghost predicate LogsInv(d: Disk, m: Memory) {
    && m.logfileNumber in d.logs && (forall n :: n in d.logs ==> n <= m.logfileNumber)
    && d.logs[m.logfileNumber].All() == m.mem + m.orphans + InFlight(m)
    && m.current.logNumber <= m.logfileNumber
    && (d.manifest.version.logNumber == m.current.logNumber || d.manifest.version.logNumber == m.logfileNumber)
    && LogsBetween(d.logs, m.current.logNumber, m.logfileNumber) == ImmSet(m)
    && LogsOrdered(d.logs, m.current.logNumber)
  }

  /** Layers: the memtable is newer than the immutable one, and that is newer than the tables. */
  ghost predicate LayersInv(m: Memory) {
    && Newer(m.mem + m.orphans, m.current.flushed + ImmSet(m))
    && Newer(ImmSet(m), m.current.flushed)
    && (forall e :: e in m.current.flushed + ImmSet(m) + m.mem + m.orphans ==> e.sequence <= m.lastSequence)
    && m.lastSequence < MAX_SEQUENCE
    && (!m.writing.NoWrite? ==> FreshBatch(m.writing.batch, m.lastSequence, m.writing.count))
    && (m.orphans != {} ==> m.bgError)
  }

  ghost predicate Below(ns: set<nat>, bound: nat) {
    forall n :: n in ns ==> n < bound
  }

  ghost predicate NumbersInv(d: Disk, m: Memory) {
    && Below(m.current.live, m.nextFile) && Below(m.pendingOutputs, m.nextFile)
    && (forall i :: 0 <= i < |m.readers| ==> Below(m.readers[i], m.nextFile) && m.readers[i] <= d.tables.Keys)
    && m.logfileNumber < m.nextFile && d.manifest.nextFile <= m.nextFile
    && Below(d.manifest.version.live, d.manifest.nextFile) && d.manifest.version.logNumber < d.manifest.nextFile
  }

  /** The version that the manifest holds: the current one, or the one about to become current. */
  ghost function Expected(m: Memory): Version {
    if m.flush.Some? && m.imm.Some? && m.flush.value.stage.Committed? then
      Edit(m.current, {}, FlushTables(m), m.logfileNumber, m.imm.value)
    else if m.job.Some? && m.job.value.stage.Committed? then
      Edit(m.current, m.job.value.inputs, m.job.value.outputs, m.current.logNumber, {})
    else
      m.current
  }

  ghost predicate ManifestInv(d: Disk, m: Memory, floor: nat) {
    && floor <= d.manifest.lastSequence <= m.lastSequence
    && (forall e :: e in d.manifest.version.flushed ==> e.sequence <= d.manifest.lastSequence)
    && (!m.bgError ==> d.manifest.version == Expected(m))
    && d.manifest.version.flushed <= m.current.flushed + ImmSet(m)
    && History(d.logs, m.current) == History(d.logs, d.manifest.version)
    && Good(History(d.logs, m.current))
  }

  ghost predicate SnapshotsInv(m: Memory, floor: nat) {
    && (forall i, j :: 0 <= i < j < |m.snapshots| ==> m.snapshots[i] <= m.snapshots[j])
    && (forall i :: 0 <= i < |m.snapshots| ==> floor <= m.snapshots[i] <= m.lastSequence)
  }

  /** The numbers that are about to be written are between those of the manifest and those in memory. */
  ghost predicate NumbersFixed(d: Disk, m: Memory, stage: Stage)
    requires stage.Applying?
  {
    && d.manifest.nextFile <= stage.nextFile <= m.nextFile
    && d.manifest.lastSequence <= stage.lastSequence <= m.lastSequence
  }

  ghost predicate FlushInv(d: Disk, m: Memory) {
    && Fits(ImmSet(m), Contents(d.tables, m.current.live - Inputs(m)), m.current.flushed)
    && Fits(ImmSet(m), Contents(d.tables, d.manifest.version.live - DurableInputs(m)), d.manifest.version.flushed)
    && (m.flush.Some? ==>
      && var n, stage := m.flush.value.table, m.flush.value.stage;
      && m.imm.Some? && n < m.nextFile && n !in m.current.live
      && (m.job.Some? ==> m.job.value.stage.Working? && n !in m.job.value.outputs)
      && (stage.Working? ==> n in m.pendingOutputs)
      && (!stage.Committed? ==> n !in d.manifest.version.live)
      && (!stage.Working? && m.imm.value != {} ==> n in d.tables && d.tables[n] == m.imm.value)
      && (stage.Applying? ==>
            && NumbersFixed(d, m, stage) && n < stage.nextFile && m.logfileNumber < stage.nextFile
            && forall e :: e in m.imm.value ==> e.sequence <= stage.lastSequence)
      && (stage.Committed? ==> d.manifest.version.logNumber == m.logfileNumber))
  }

  ghost predicate JobInv(d: Disk, m: Memory, floor: nat) {
    m.job.Some? ==>
      && var job := m.job.value;
      && job.inputs <= m.current.live
      && (!job.stage.Committed? ==> job.inputs <= d.manifest.version.live)
      && Entries(job.entries) == Contents(d.tables, job.inputs)
      && Setting(job.cmp, job.entries, Contents(d.tables, m.current.live - job.inputs), job.base)
      && (!job.stage.Committed? ==>
            Setting(job.cmp, job.entries, Contents(d.tables, d.manifest.version.live - job.inputs), job.base))
      && job.outputs <= m.pendingOutputs && job.outputs <= d.tables.Keys && job.outputs !! m.current.live
      && (!job.stage.Committed? ==> job.outputs !! d.manifest.version.live)
      && (!job.stage.Working? ==>
            Contents(d.tables, job.outputs) == Entries(Kept(job.entries, |job.entries|, job.smallest, job.base)))
      && (job.stage.Applying? ==>
            && NumbersFixed(d, m, job.stage) && Below(job.outputs, job.stage.nextFile)
            && m.current.logNumber < job.stage.nextFile && job.smallest <= job.stage.lastSequence)
      && job.smallest <= m.lastSequence
      && (forall i :: 0 <= i < |m.snapshots| ==> job.smallest <= m.snapshots[i])
      && (job.stage.Committed? ==> job.smallest <= floor)
  }

  /** The writes that readers of a running database are to see. */
  ghost function Readable(m: Memory): set<Entry> {
    m.current.flushed + ImmSet(m) + m.mem
  }

  ghost predicate AckedInv(s: State)
    requires s.phase.Up?
  {
    && s.acked <= Readable(s.phase.m)
    && s.acked <= History(s.disk.logs, s.disk.manifest.version)
    && s.syncAcked <= s.disk.manifest.version.flushed + DurableFrom(s.disk.logs, s.disk.manifest.version.logNumber)
  }

  ghost predicate UpInv(s: State)
    requires s.phase.Up?
  {
    && var d, m := s.disk, s.phase.m;
    && VersionOk(d, m.current, Inputs(m), s.floor)
    && VersionOk(d, d.manifest.version, DurableInputs(m), s.floor)
    && LogsInv(d, m) && LayersInv(m) && NumbersInv(d, m) && ManifestInv(d, m, s.floor)
    && SnapshotsInv(m, s.floor) && FlushInv(d, m) && JobInv(d, m, s.floor) && AckedInv(s)
  }

  // ----- opening -----

  ghost predicate OpeningInv(s: State)
    requires s.phase.Recovering?
  {
    && var d, o, v := s.disk, s.phase.o, s.disk.manifest.version;
    && v.logNumber <= o.next
    && o.added <= d.tables.Keys && o.added !! v.live
    && Below(o.added, o.nextFile) && d.manifest.nextFile < o.nextFile
    && (forall l :: l in d.logs && l < o.next ==> l < o.nextFile || l < v.logNumber)
    && (o.partial != {} ==> exists n :: NextLog(s, n) && o.partial <= d.logs[n].All())
    && (if o.reused.Some? then
          && var n := o.reused.value;
          && n in d.logs && n >= v.logNumber && o.partial == {} && o.next == n + 1 && (forall l :: l in d.logs ==> l <= n)
          && Contents(d.tables, o.added) == LogsBetween(d.logs, v.logNumber, n)
        else
          Contents(d.tables, o.added) == LogsBetween(d.logs, v.logNumber, o.next) + o.partial)
  }

  ghost predicate Inv(s: State) {
    match s.phase
    case Down => DiskInv(s) && LastLogNewest(s.disk)
    case Recovering(_) => DiskInv(s) && LastLogNewest(s.disk) && OpeningInv(s)
    case Up(_) => UpInv(s)
  }

  // ----- sets of entries in files -----

  lemma SameContents(tables: map<nat, set<Entry>>, tables': map<nat, set<Entry>>, live: set<nat>)
    requires forall n :: n in live ==> (n in tables <==> n in tables') && (n in tables ==> tables[n] == tables'[n])
    ensures Contents(tables, live) == Contents(tables', live)
  {
  }

  lemma ContentsUnion(tables: map<nat, set<Entry>>, a: set<nat>, b: set<nat>)
    ensures Contents(tables, a + b) == Contents(tables, a) + Contents(tables, b)
  {
  }

  lemma ContentsOne(tables: map<nat, set<Entry>>, n: nat)
    requires n in tables
    ensures Contents(tables, {n}) == tables[n]
  {
  }

  lemma LogsSplit(logs: map<nat, LogFile>, lo: nat, hi: nat)
    requires lo <= hi
    ensures LogsFrom(logs, lo) == LogsBetween(logs, lo, hi) + LogsFrom(logs, hi)
  {
  }

  /** With no log behind `n`, the logs from `n` on are that one. */
  lemma LastLogOnly(logs: map<nat, LogFile>, n: nat)
    requires n in logs && forall l :: l in logs ==> l <= n
    ensures LogsFrom(logs, n) == logs[n].All()
  {
  }

  lemma FitsSubset(w: set<Entry>, w': set<Entry>, c: set<Entry>, c': set<Entry>, f: set<Entry>)
    requires Fits(w, c, f) && w' <= w && c <= c'
    ensures Fits(w', c', f)
  {
  }

  // ----- parts of the invariant that a step does not touch -----

  ghost predicate SameVersions(d: Disk, m: Memory, d': Disk, m': Memory) {
    m'.current == m.current && d'.manifest == d.manifest
  }

  lemma JobFrame(d: Disk, m: Memory, d': Disk, m': Memory, floor: nat)
    requires JobInv(d, m, floor) && SameVersions(d, m, d', m') && d'.tables == d.tables
    requires m'.job == m.job && m'.pendingOutputs == m.pendingOutputs && m'.snapshots == m.snapshots
    requires m'.lastSequence >= m.lastSequence && m'.nextFile >= m.nextFile
    ensures JobInv(d', m', floor)
  {
    hide Contents, Setting, Kept, Entries;
  }

  lemma FlushFrame(d: Disk, m: Memory, d': Disk, m': Memory)
    requires FlushInv(d, m) && SameVersions(d, m, d', m') && d'.tables == d.tables
    requires m'.job == m.job && m'.flush == m.flush && m'.imm == m.imm && m'.pendingOutputs == m.pendingOutputs
    requires m'.logfileNumber == m.logfileNumber && m'.nextFile >= m.nextFile && m'.lastSequence >= m.lastSequence
    ensures FlushInv(d', m')
  {
    hide Contents, Fits;
  }

  lemma NumbersFrame(d: Disk, m: Memory, d': Disk, m': Memory)
    requires NumbersInv(d, m) && SameVersions(d, m, d', m') && d'.tables == d.tables
    requires m'.pendingOutputs == m.pendingOutputs && m'.readers == m.readers
    requires m'.logfileNumber == m.logfileNumber && m'.nextFile == m.nextFile
    ensures NumbersInv(d', m')
  {
  }

  lemma ReadableFrame(m: Memory, m': Memory)
    requires m'.current == m.current && m'.imm == m.imm && m'.mem == m.mem
    ensures Readable(m') == Readable(m)
  {
  }
}
