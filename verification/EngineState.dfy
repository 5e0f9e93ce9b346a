/** The database as a transition system. A step is what one thread does between taking and releasing
    the mutex, or one effect on disk in between. Files survive a crash, memory does not. */
module EngineState {
  import opened Bytes
  import opened InternalKeys
  import opened Views
  import opened Compaction

  // ----- files -----

  /** A log file: entries that were synced, and entries that a crash may still take away. `torn`: the file holds a
      record that was cut off, in a block with room for more; entries in `behind` were written behind it.
      `LogReuse.ReusedLog` says which of these a reader can still find. */
  datatype LogFile = LogFile(durable: set<Entry>, tail: set<Entry>, torn: bool, behind: set<Entry>) {
    function All(): set<Entry> { durable + tail }

    function Append(batch: set<Entry>): LogFile {
      this.(tail := tail + batch, behind := behind + if torn then batch else {})
    }

    function Sync(): LogFile {
      this.(durable := All(), tail := {})
    }
  }

  const NEW_LOG := LogFile({}, {}, false, {})

  /** What the version set knows: the tables that make up the database and the first log that is still
      needed. `flushed` records, for the specification, the writes that the tables stand for. */
  datatype Version = Version(live: set<nat>, logNumber: nat, flushed: set<Entry>)

  datatype Manifest = Manifest(version: Version, nextFile: nat, lastSequence: nat)

  datatype Disk = Disk(tables: map<nat, set<Entry>>, logs: map<nat, LogFile>, manifest: Manifest)

  ghost function Contents(tables: map<nat, set<Entry>>, live: set<nat>): set<Entry> {
    set n, e | n in live && n in tables && e in tables[n] :: e
  }

  /** Entries of the logs numbered from `lo` up to, but not including, `hi`. */
  ghost function LogsBetween(logs: map<nat, LogFile>, lo: nat, hi: nat): set<Entry> {
    set n, e | n in logs && lo <= n < hi && e in logs[n].All() :: e
  }

  ghost function LogsFrom(logs: map<nat, LogFile>, lo: nat): set<Entry> {
    set n, e | n in logs && lo <= n && e in logs[n].All() :: e
  }

  ghost function DurableFrom(logs: map<nat, LogFile>, lo: nat): set<Entry> {
    set n, e | n in logs && lo <= n && e in logs[n].durable :: e
  }

  /** The writes that opening the files would bring back: those the tables stand for and those in the
      logs that are still needed. */
  ghost function History(logs: map<nat, LogFile>, v: Version): set<Entry> {
    v.flushed + LogsFrom(logs, v.logNumber)
  }

  // ----- memory -----

  /** The writer at the head of the queue, past MakeRoomForWrite. */
  datatype Writing =
    | NoWrite
    | Admitted(batch: set<Entry>, count: nat, sync: bool)    // about to append to the log
    | Appended(batch: set<Entry>, count: nat, sync: bool)    // in the log, not yet in the memtable

  /** Before, inside and after the durable part of LogAndApply, which fixes the numbers it writes when it is entered
      and then gives up the mutex. */
  datatype Stage = Working | Applying(nextFile: nat, lastSequence: nat) | Committed

  /** The background thread inside CompactMemTable. */
  datatype Flush = Flush(table: nat, stage: Stage)

  /** The background thread inside DoCompactionWork. */
  datatype Job = Job(cmp: Comparator, inputs: set<nat>, entries: seq<Entry>, smallest: nat, base: BaseLevel,
                     outputs: set<nat>, stage: Stage)

  datatype Memory = Memory(
    current: Version,
    mem: set<Entry>,
    imm: Option<set<Entry>>,
    logfileNumber: nat,
    lastSequence: nat,
    nextFile: nat,
    pendingOutputs: set<nat>,
    readers: seq<set<nat>>,      // the tables of versions that readers hold
    snapshots: seq<nat>,         // oldest first
    bgError: bool,
    writing: Writing,
    orphans: set<Entry>,         // in the log, but not in the memtable since their sync failed
    flush: Option<Flush>,
    job: Option<Job>)

  /** Opening: logs below `next` are replayed, `partial` of the next one too. */
  datatype Opening = Opening(next: nat, partial: set<Entry>, added: set<nat>, nextFile: nat, reused: Option<nat>)

  datatype Phase = Down | Recovering(o: Opening) | Up(m: Memory)

  /** `floor`: no reader looks below it. `acked`: writes that were acknowledged, and not taken away or hidden by a
      crash; `syncAcked`: those acknowledged after a sync. All three are for the specification only. */
  datatype State = State(disk: Disk, phase: Phase, floor: nat, acked: set<Entry>, syncAcked: set<Entry>)

  /** What a reader consults: memtable, immutable memtable, tables of the current version. */
  ghost function ReadSet(d: Disk, m: Memory): set<Entry> {
    Contents(d.tables, m.current.live) + m.mem + if m.imm.Some? then m.imm.value else {}
  }

  ghost function Max(a: nat, b: nat): nat {
    if a < b then b else a
  }

  // ----- steps of a running database -----

  /** The batch takes the sequence numbers after the last one used. */
  ghost predicate FreshBatch(batch: set<Entry>, last: nat, count: nat) {
    && (forall e :: e in batch ==> Parses(e) && last < e.sequence <= last + count)
    && (forall e, f :: e in batch && f in batch && e.sequence == f.sequence ==> e == f)
    && last + count < MAX_SEQUENCE
  }

  ghost predicate AdmitWrite(s: State, s': State, batch: set<Entry>, count: nat, sync: bool) {
    && s.phase.Up? && s.phase.m.writing.NoWrite? && !s.phase.m.bgError
    && FreshBatch(batch, s.phase.m.lastSequence, count)
    && s' == s.(phase := Up(s.phase.m.(writing := Admitted(batch, count, sync))))
  }

  ghost predicate AppendLog(s: State, s': State) {
    && s.phase.Up? && s.phase.m.writing.Admitted?
    && var m, w := s.phase.m, s.phase.m.writing;
    && m.logfileNumber in s.disk.logs
    && var log := s.disk.logs[m.logfileNumber];
    && s' == s.(disk := s.disk.(logs := s.disk.logs[m.logfileNumber := log.Append(w.batch)]),
                phase := Up(m.(writing := Appended(w.batch, w.count, w.sync))))
  }

  /** The log is synced if asked for, the batch goes into the memtable, and its sequence numbers are published. */
  ghost predicate FinishWrite(s: State, s': State) {
    && s.phase.Up? && s.phase.m.writing.Appended?
    && var m, w := s.phase.m, s.phase.m.writing;
    && m.logfileNumber in s.disk.logs
    && var log := s.disk.logs[m.logfileNumber];
    && var log' := if w.sync then log.Sync() else log;
    && s' == s.(disk := s.disk.(logs := s.disk.logs[m.logfileNumber := log']),
                phase := Up(m.(mem := m.mem + w.batch, lastSequence := m.lastSequence + w.count, writing := NoWrite)),
                acked := s.acked + w.batch,
                syncAcked := s.syncAcked + if w.sync then w.batch else {})
  }

  /** The sync fails: the batch may or may not be on disk, and all later writes will fail. */
  ghost predicate FailSync(s: State, s': State) {
    && s.phase.Up? && s.phase.m.writing.Appended? && s.phase.m.writing.sync
    && var m, w := s.phase.m, s.phase.m.writing;
    && s' == s.(phase := Up(m.(lastSequence := m.lastSequence + w.count, writing := NoWrite,
                               orphans := m.orphans + w.batch, bgError := true)))
  }

  /** MakeRoomForWrite switches to a new memtable and log. */
  ghost predicate SwitchMemtable(s: State, s': State) {
    && s.phase.Up? && s.phase.m.writing.NoWrite? && !s.phase.m.bgError && s.phase.m.imm.None?
    && var m := s.phase.m;
    && s' == s.(disk := s.disk.(logs := s.disk.logs[m.nextFile := NEW_LOG]),
                phase := Up(m.(imm := Some(m.mem), mem := {}, logfileNumber := m.nextFile, nextFile := m.nextFile + 1)))
  }

  // ----- the background thread -----

  /** An edit of the version set. */
  ghost function Edit(v: Version, removed: set<nat>, added: set<nat>, logNumber: nat, flushed: set<Entry>): Version {
    Version(v.live - removed + added, logNumber, v.flushed + flushed)
  }

  /** CompactMemTable is entered from BackgroundCompaction, or from inside a running compaction. */
  ghost predicate StartFlush(s: State, s': State) {
    && s.phase.Up? && s.phase.m.imm.Some? && s.phase.m.flush.None?
    && var m := s.phase.m;
    && (if m.job.None? then !m.bgError else m.job.value.stage.Working?)
    && s' == s.(phase := Up(m.(flush := Some(Flush(m.nextFile, Working)), nextFile := m.nextFile + 1,
                               pendingOutputs := m.pendingOutputs + {m.nextFile})))
  }

  /** The table is written and no longer pending; the version set is being asked to install it. */
  ghost predicate BuildTable(s: State, s': State) {
    && s.phase.Up? && s.phase.m.flush.Some? && s.phase.m.flush.value.stage.Working? && s.phase.m.imm.Some?
    && var m, n := s.phase.m, s.phase.m.flush.value.table;
    && s' == s.(disk := s.disk.(tables := if m.imm.value == {} then s.disk.tables
                                          else s.disk.tables[n := m.imm.value]),
                phase := Up(m.(flush := Some(Flush(n, Applying(m.nextFile, m.lastSequence))),
                               pendingOutputs := m.pendingOutputs - {n})))
  }

  ghost function FlushTables(m: Memory): set<nat>
    requires m.flush.Some? && m.imm.Some?
  {
    if m.imm.value == {} then {} else {m.flush.value.table}
  }

  /** The durable effect of LogAndApply for a flush. */
  ghost function FlushManifest(d: Disk, m: Memory): Manifest
    requires m.flush.Some? && m.flush.value.stage.Applying? && m.imm.Some?
  {
    Manifest(Edit(d.manifest.version, {}, FlushTables(m), m.logfileNumber, m.imm.value),
             m.flush.value.stage.nextFile, m.flush.value.stage.lastSequence)
  }

  ghost predicate CommitFlush(s: State, s': State) {
    && s.phase.Up? && s.phase.m.flush.Some? && s.phase.m.flush.value.stage.Applying? && s.phase.m.imm.Some?
    && var m := s.phase.m;
    && s' == s.(disk := s.disk.(manifest := FlushManifest(s.disk, m)),
                phase := Up(m.(flush := Some(m.flush.value.(stage := Committed)))))
  }

  /** The files DeleteObsoleteFiles keeps. After an error it deletes nothing. */
  ghost function KeptTables(d: Disk, m: Memory): map<nat, set<Entry>> {
    if m.bgError then d.tables
    else map n | n in d.tables && (n in m.pendingOutputs || n in m.current.live || InUse(m.readers, n)) :: d.tables[n]
  }

  ghost predicate InUse(readers: seq<set<nat>>, n: nat) {
    exists i :: 0 <= i < |readers| && n in readers[i]
  }

  ghost function KeptLogs(d: Disk, m: Memory): map<nat, LogFile> {
    if m.bgError then d.logs else map n | n in d.logs && n >= m.current.logNumber :: d.logs[n]
  }

  ghost function DeleteObsoleteFiles(d: Disk, m: Memory): Disk {
    d.(tables := KeptTables(d, m), logs := KeptLogs(d, m))
  }

  /** Back under the mutex: the new version becomes current, imm is dropped, files are collected. */
  ghost predicate InstallFlush(s: State, s': State) {
    && s.phase.Up? && s.phase.m.flush.Some? && s.phase.m.flush.value.stage.Committed? && s.phase.m.imm.Some?
    && var m := s.phase.m;
    && var m' := m.(current := Edit(m.current, {}, FlushTables(m), m.logfileNumber, m.imm.value),
                    imm := None, flush := None);
    && s' == s.(disk := DeleteObsoleteFiles(s.disk, m'), phase := Up(m'))
  }

  /** Building or installing fails. A failed installation may have reached the manifest nevertheless. */
  ghost predicate FailFlush(s: State, s': State, reached: bool) {
    && s.phase.Up? && s.phase.m.flush.Some? && !s.phase.m.flush.value.stage.Committed? && s.phase.m.imm.Some?
    && var m := s.phase.m;
    && (reached ==> m.flush.value.stage.Applying?)
    && s' == s.(disk := if reached then s.disk.(manifest := FlushManifest(s.disk, m)) else s.disk,
                phase := Up(m.(flush := None, bgError := true,
                               pendingOutputs := m.pendingOutputs - {m.flush.value.table})))
  }

  /** A compaction starts on some tables; what the version set promises about them is `Setting`. */
  ghost predicate StartJob(s: State, s': State, job: Job) {
    && s.phase.Up? && s.phase.m.job.None? && s.phase.m.flush.None? && s.phase.m.imm.None? && !s.phase.m.bgError
    && var m := s.phase.m;
    && job.inputs <= m.current.live && job.outputs == {} && job.stage.Working?
    && Entries(job.entries) == Contents(s.disk.tables, job.inputs)
    && Setting(job.cmp, job.entries, Contents(s.disk.tables, m.current.live - job.inputs), job.base)
    && job.smallest == (if m.snapshots == [] then m.lastSequence else m.snapshots[0])
    && s' == s.(phase := Up(m.(job := Some(job))))
  }

  ghost predicate JobMayRun(m: Memory) {
    m.job.Some? && m.job.value.stage.Working? && m.flush.None?
  }

  /** The compaction opens an output table and fills it with `part`. */
  ghost predicate WriteOutput(s: State, s': State, part: set<Entry>) {
    && s.phase.Up? && JobMayRun(s.phase.m)
    && var m, n := s.phase.m, s.phase.m.nextFile;
    && s' == s.(disk := s.disk.(tables := s.disk.tables[n := part]),
                phase := Up(m.(job := Some(m.job.value.(outputs := m.job.value.outputs + {n})), nextFile := n + 1,
                               pendingOutputs := m.pendingOutputs + {n})))
  }

  /** The loop is done: the outputs hold what the compaction keeps. */
  ghost predicate FinishLoop(s: State, s': State) {
    && s.phase.Up? && JobMayRun(s.phase.m)
    && var m, job := s.phase.m, s.phase.m.job.value;
    && Contents(s.disk.tables, job.outputs)
       == Entries(Kept(job.entries, |job.entries|, job.smallest, job.base))
    && s' == s.(phase := Up(m.(job := Some(job.(stage := Applying(m.nextFile, m.lastSequence))))))
  }

  ghost function JobManifest(d: Disk, m: Memory): Manifest
    requires m.job.Some? && m.job.value.stage.Applying?
  {
    var job := m.job.value;
    Manifest(Edit(d.manifest.version, job.inputs, job.outputs, m.current.logNumber, {}),
             job.stage.nextFile, job.stage.lastSequence)
  }

  ghost predicate CommitJob(s: State, s': State) {
    && s.phase.Up? && s.phase.m.job.Some? && s.phase.m.job.value.stage.Applying?
    && var m := s.phase.m;
    && s' == s.(disk := s.disk.(manifest := JobManifest(s.disk, m)),
                phase := Up(m.(job := Some(m.job.value.(stage := Committed)))),
                floor := Max(s.floor, m.job.value.smallest))
  }

  ghost predicate InstallJob(s: State, s': State) {
    && s.phase.Up? && s.phase.m.job.Some? && s.phase.m.job.value.stage.Committed?
    && var m, job := s.phase.m, s.phase.m.job.value;
    && var m' := m.(current := Edit(m.current, job.inputs, job.outputs, m.current.logNumber, {}),
                    pendingOutputs := m.pendingOutputs - job.outputs, job := None);
    && s' == s.(disk := DeleteObsoleteFiles(s.disk, m'), phase := Up(m'))
  }

  ghost predicate FailJob(s: State, s': State, reached: bool) {
    && s.phase.Up? && s.phase.m.job.Some? && !s.phase.m.job.value.stage.Committed? && s.phase.m.flush.None?
    && var m, job := s.phase.m, s.phase.m.job.value;
    && (reached ==> job.stage.Applying?)
    && s' == s.(disk := if reached then s.disk.(manifest := JobManifest(s.disk, m)) else s.disk,
                phase := Up(m.(job := None, bgError := true, pendingOutputs := m.pendingOutputs - job.outputs)),
                floor := if reached then Max(s.floor, job.smallest) else s.floor)
  }

  // ----- readers -----

  ghost predicate TakeSnapshot(s: State, s': State) {
    && s.phase.Up?
    && s' == s.(phase := Up(s.phase.m.(snapshots := s.phase.m.snapshots + [s.phase.m.lastSequence])))
  }

  ghost predicate ReleaseSnapshot(s: State, s': State, i: nat) {
    && s.phase.Up? && i < |s.phase.m.snapshots|
    && s' == s.(phase := Up(s.phase.m.(snapshots := s.phase.m.snapshots[..i] + s.phase.m.snapshots[i + 1..])))
  }

  ghost predicate StartRead(s: State, s': State) {
    && s.phase.Up?
    && s' == s.(phase := Up(s.phase.m.(readers := s.phase.m.readers + [s.phase.m.current.live])))
  }

  ghost predicate EndRead(s: State, s': State, i: nat) {
    && s.phase.Up? && i < |s.phase.m.readers|
    && s' == s.(phase := Up(s.phase.m.(readers := s.phase.m.readers[..i] + s.phase.m.readers[i + 1..])))
  }

  // ----- crash and recovery -----

  /** What a crash leaves of a log. `lost`: entries that were not synced and are gone; one of them may leave a cut
      record. `hidden`: entries behind a cut record that no reader will find. The first of these is one of them, and
      those found are newer. */
  ghost predicate CrashedLog(log: LogFile, log': LogFile, lost: set<Entry>, hidden: set<Entry>) {
    && log.durable !! lost && log.All() * hidden <= log.behind
    && (log.behind - lost != {} ==> (log.behind - lost) * hidden != {})
    && (forall e, f :: e in log.behind - lost - hidden && f in log.behind * hidden ==> f.sequence < e.sequence)
    && log' == LogFile(log.durable - hidden, log.tail - lost - hidden, log'.torn, {})
    && (log'.torn ==> log.torn || log.tail * lost != {})
  }

  /** The process dies, or ends. If the machine does too, entries that were not synced may be lost. */
  ghost predicate Crash(s: State, s': State, lost: set<Entry>, hidden: set<Entry>) {
    && var flushed := s.disk.manifest.version.flushed;
    && s'.disk.tables == s.disk.tables && s'.disk.manifest == s.disk.manifest
    && s'.disk.logs.Keys == s.disk.logs.Keys
    && (forall n :: n in s.disk.logs ==> CrashedLog(s.disk.logs[n], s'.disk.logs[n], lost, hidden))
    && s'.phase == Down && s'.floor == s.floor
    && s'.acked == s.acked - (lost + hidden - flushed) && s'.syncAcked == s.syncAcked - (hidden - flushed)
  }

  ghost predicate StartRecovery(s: State, s': State) {
    && s.phase.Down?
    && s' == s.(phase := Recovering(Opening(s.disk.manifest.version.logNumber, {}, {}, s.disk.manifest.nextFile + 1, None)))
  }

  /** `n` is the next log to replay. */
  ghost predicate NextLog(s: State, n: nat) {
    && s.phase.Recovering? && n in s.disk.logs && n >= s.phase.o.next
    && forall l :: l in s.disk.logs && l >= s.phase.o.next ==> n <= l
  }

  /** RecoverLogFile: `part` more of the log fills a memtable, which is written as a table. */
  ghost predicate ReplayPart(s: State, s': State, n: nat, part: set<Entry>) {
    && NextLog(s, n)
    && var o := s.phase.o;
    && part != {} && part <= s.disk.logs[n].All() - o.partial
    && s' == s.(disk := s.disk.(tables := s.disk.tables[o.nextFile := part]),
                phase := Recovering(o.(partial := o.partial + part, added := o.added + {o.nextFile},
                                       nextFile := o.nextFile + 1)))
  }

  ghost predicate ReplayDone(s: State, s': State, n: nat) {
    && NextLog(s, n) && s.phase.o.partial == s.disk.logs[n].All()
    && var o := s.phase.o;
    && s' == s.(phase := Recovering(o.(next := n + 1, partial := {}, nextFile := Max(o.nextFile, n + 1))))
  }

  /** The last log is kept in use, torn or not: its contents stay in the memtable. */
  ghost predicate ReuseLog(s: State, s': State, n: nat) {
    && NextLog(s, n) && s.phase.o.partial == {} && (forall l :: l in s.disk.logs ==> l <= n)
    && var o := s.phase.o;
    && s' == s.(phase := Recovering(o.(next := n + 1, nextFile := Max(o.nextFile, n + 1), reused := Some(n))))
  }

  ghost predicate AllReplayed(s: State) {
    && s.phase.Recovering? && s.phase.o.partial == {}
    && forall l :: l in s.disk.logs ==> l < s.phase.o.next
  }

  /** The last sequence number found in the manifest or in a log. */
  ghost predicate RecoveredSequence(s: State, last: nat) {
    && s.disk.manifest.lastSequence <= last
    && (forall e :: e in LogsFrom(s.disk.logs, s.disk.manifest.version.logNumber) ==> e.sequence <= last)
    && (last == s.disk.manifest.lastSequence
        || exists e :: e in LogsFrom(s.disk.logs, s.disk.manifest.version.logNumber) && e.sequence == last)
  }

  /** DB::Open after Recover: a log to write to and, if tables were written or the manifest is renewed, an
      edit of the version set that may fail, and may have reached the manifest even then. */
  ghost predicate Open(s: State, s': State, last: nat, save: bool, fails: bool, reached: bool) {
    && AllReplayed(s) && RecoveredSequence(s, last) && last < MAX_SEQUENCE
    && var d, o := s.disk, s.phase.o;
    && (o.added != {} ==> save) && (o.reused.Some? ==> o.reused.value in d.logs)
    && (reached ==> save) && (save && !fails ==> reached)
    && var log := if o.reused.Some? then o.reused.value else o.nextFile;
    && var logs := if o.reused.Some? then d.logs else d.logs[log := NEW_LOG];
    && var nextFile := if o.reused.Some? then o.nextFile else o.nextFile + 1;
    && var v := d.manifest.version;
    && var v' := if save then Edit(v, {}, o.added, log, LogsBetween(d.logs, v.logNumber, log)) else v;
    && var d' := Disk(d.tables, logs, if reached then Manifest(v', nextFile, last) else d.manifest);
    && var m := Memory(v', logs[log].All(), None, log, last, nextFile, {}, [], [], false, NoWrite, {}, None, None);
    && s' == if fails then s.(disk := d', phase := Down)
             else s.(disk := DeleteObsoleteFiles(d', m), phase := Up(m))
  }

  // ----- runs -----

  ghost predicate WriterStep(s: State, s': State) {
    || (exists batch, count: nat, sync :: AdmitWrite(s, s', batch, count, sync))
    || AppendLog(s, s') || FinishWrite(s, s') || FailSync(s, s') || SwitchMemtable(s, s')
  }

  ghost predicate FlushStep(s: State, s': State) {
    || StartFlush(s, s') || BuildTable(s, s') || CommitFlush(s, s') || InstallFlush(s, s')
    || (exists reached :: FailFlush(s, s', reached))
  }

  ghost predicate JobStep(s: State, s': State) {
    || (exists job :: StartJob(s, s', job))
    || (exists part :: WriteOutput(s, s', part))
    || FinishLoop(s, s') || CommitJob(s, s') || InstallJob(s, s')
    || (exists reached :: FailJob(s, s', reached))
  }

  ghost predicate ReaderStep(s: State, s': State) {
    || TakeSnapshot(s, s') || (exists i: nat :: ReleaseSnapshot(s, s', i))
    || StartRead(s, s') || (exists i: nat :: EndRead(s, s', i))
  }

  ghost predicate RestartStep(s: State, s': State) {
    || (exists lost, hidden :: Crash(s, s', lost, hidden))
    || StartRecovery(s, s')
    || (exists n: nat, part :: ReplayPart(s, s', n, part))
    || (exists n: nat :: ReplayDone(s, s', n))
    || (exists n: nat :: ReuseLog(s, s', n))
    || (exists last: nat, save, fails, reached :: Open(s, s', last, save, fails, reached))
  }

  ghost predicate Next(s: State, s': State) {
    WriterStep(s, s') || FlushStep(s, s') || JobStep(s, s') || ReaderStep(s, s') || RestartStep(s, s')
  }

  /** A database whose manifest was just created: nothing in it, next file number 2. */
  ghost predicate Init(s: State) {
    s == State(Disk(map[], map[], Manifest(Version({}, 0, {}), 2, 0)), Down, 0, {}, {})
  }

  ghost predicate IsRun(run: seq<State>) {
    run != [] && Init(run[0]) && forall i :: 0 <= i < |run| - 1 ==> Next(run[i], run[i + 1])
  }
}
