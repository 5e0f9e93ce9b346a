/** That the database makes progress: when nothing fails, writes are acknowledged, memtables are flushed, compactions are
    installed, and a database that went down can be opened again. */
module EngineProgress {
  import opened Bytes
  import opened InternalKeys
  import opened Views
  import opened Compaction
  import opened EngineState
  import opened EngineViews
  import opened EngineInvariant
  import opened EngineSafety
  import opened EngineDurability

  ghost predicate IsPath(path: seq<State>) {
    path != [] && forall i :: 0 <= i < |path| - 1 ==> Next(path[i], path[i + 1])
  }

  ghost predicate Leads(path: seq<State>, s: State, t: State) {
    IsPath(path) && path[0] == s && path[|path| - 1] == t
  }

  lemma {:induction false} NoStep(s: State)
    ensures Leads([s], s, s)
  {
  }

  lemma {:induction false} OneMore(path: seq<State>, s: State, t: State, u: State)
    requires Leads(path, s, t) && Next(t, u)
    ensures Leads(path + [u], s, u)
  {
    hide Next;
  }

  lemma {:induction false} Joined(a: seq<State>, b: seq<State>, s: State, t: State, u: State) returns (path: seq<State>)
    requires Leads(a, s, t) && Leads(b, t, u)
    ensures Leads(path, s, u)
  {
    hide Next;
    path := a + b[1..];
    forall i | 0 <= i < |path| - 1
      ensures Next(path[i], path[i + 1])
    {
      if i >= |a| - 1 {
        var k := i - (|a| - 1);
        assert path[i] == b[k] && path[i + 1] == b[k + 1];
        assert Next(b[k], b[k + 1]);
      }
    }
  }

  // ----- writing -----

  /** When nothing fails a write is logged and acknowledged, and readers see it. */
  lemma {:induction false} WriteSucceeds(s: State, batch: set<Entry>, count: nat, sync: bool)
    returns (path: seq<State>, t: State)
    requires s.phase.Up? && UpInv(s) && s.phase.m.writing.NoWrite? && !s.phase.m.bgError
    requires FreshBatch(batch, s.phase.m.lastSequence, count)
    ensures Leads(path, s, t) && t.phase.Up? && t.phase.m.writing.NoWrite? && !t.phase.m.bgError
    ensures batch <= t.acked && (sync ==> batch <= t.syncAcked) && batch <= Readable(t.phase.m)
    ensures t.phase.m.lastSequence == s.phase.m.lastSequence + count
  {
    hide Next, FreshBatch, UpInv, Leads;
    var m, n := s.phase.m, s.phase.m.logfileNumber;
    LogIsThere(s);
    var s1 := s.(phase := Up(m.(writing := Admitted(batch, count, sync))));
    assert AdmitWrite(s, s1, batch, count, sync);
    WriterIsNext(s, s1);
    var log := s.disk.logs[n].Append(batch);
    var s2 := s1.(disk := s.disk.(logs := s.disk.logs[n := log]), phase := Up(m.(writing := Appended(batch, count, sync))));
    assert AppendLog(s1, s2);
    WriterIsNext(s1, s2);
    var log' := if sync then log.Sync() else log;
    t := s2.(disk := s2.disk.(logs := s2.disk.logs[n := log']),
             phase := Up(m.(mem := m.mem + batch, lastSequence := m.lastSequence + count, writing := NoWrite)),
             acked := s.acked + batch, syncAcked := s.syncAcked + if sync then batch else {});
    assert FinishWrite(s2, t);
    WriterIsNext(s2, t);
    NoStep(s);
    OneMore([s], s, s, s1);
    OneMore([s] + [s1], s, s1, s2);
    OneMore([s] + [s1] + [s2], s, s2, t);
    path := [s] + [s1] + [s2] + [t];
  }

  lemma {:induction false} LogIsThere(s: State)
    requires s.phase.Up? && UpInv(s)
    ensures s.phase.m.logfileNumber in s.disk.logs
  {
    hide VersionOk, LayersInv, NumbersInv, ManifestInv, SnapshotsInv, FlushInv, JobInv, AckedInv, LogsBetween, LogsOrdered;
  }

  // ----- flushing -----

  lemma {:induction false} FlushIsNext(s: State, t: State)
    requires FlushStep(s, t)
    ensures Next(s, t)
  {
    hide RestartStep, WriterStep, FlushStep, JobStep, ReaderStep;
  }

  /** When nothing fails an immutable memtable becomes a table, and its log is not needed any more. */
  lemma {:induction false} MemtableCanBeFlushed(s: State) returns (path: seq<State>, t: State)
    requires s.phase.Up? && s.phase.m.imm.Some? && s.phase.m.flush.None? && s.phase.m.job.None? && !s.phase.m.bgError
    ensures Leads(path, s, t) && t.phase.Up? && t.phase.m.imm.None? && !t.phase.m.bgError
    ensures t.phase.m.current.logNumber == s.phase.m.logfileNumber == t.disk.manifest.version.logNumber
    ensures t.phase.m.current.flushed == s.phase.m.current.flushed + s.phase.m.imm.value && t.phase.m.mem == s.phase.m.mem
  {
    hide Next, Leads;
    var m, n := s.phase.m, s.phase.m.nextFile;
    var m1 := m.(flush := Some(Flush(n, Working)), nextFile := n + 1, pendingOutputs := m.pendingOutputs + {n});
    var s1 := s.(phase := Up(m1));
    assert StartFlush(s, s1);
    FlushIsNext(s, s1);
    var tables := if m.imm.value == {} then s.disk.tables else s.disk.tables[n := m.imm.value];
    var m2 := m1.(flush := Some(Flush(n, Applying(m1.nextFile, m1.lastSequence))), pendingOutputs := m1.pendingOutputs - {n});
    var s2 := s1.(disk := s.disk.(tables := tables), phase := Up(m2));
    assert BuildTable(s1, s2);
    FlushIsNext(s1, s2);
    var s3, t' := FlushIsInstalled(s2);
    t := t';
    NoStep(s);
    OneMore([s], s, s, s1);
    OneMore([s] + [s1], s, s1, s2);
    OneMore([s] + [s1] + [s2], s, s2, s3);
    OneMore([s] + [s1] + [s2] + [s3], s, s3, t);
    path := [s] + [s1] + [s2] + [s3] + [t];
  }

  lemma {:induction false} FlushIsInstalled(s: State) returns (s1: State, t: State)
    requires s.phase.Up? && s.phase.m.imm.Some? && s.phase.m.flush.Some? && s.phase.m.flush.value.stage.Applying?
    ensures Next(s, s1) && Next(s1, t) && t.phase.Up? && t.phase.m.imm.None? && t.phase.m.bgError == s.phase.m.bgError
    ensures t.phase.m.current.logNumber == s.phase.m.logfileNumber == t.disk.manifest.version.logNumber
    ensures t.phase.m.current.flushed == s.phase.m.current.flushed + s.phase.m.imm.value && t.phase.m.mem == s.phase.m.mem
  {
    hide Next, KeptTables, KeptLogs;
    var m := s.phase.m;
    s1 := s.(disk := s.disk.(manifest := FlushManifest(s.disk, m)),
             phase := Up(m.(flush := Some(m.flush.value.(stage := Committed)))));
    assert CommitFlush(s, s1);
    FlushIsNext(s, s1);
    var m1 := s1.phase.m;
    var m2 := m1.(current := Edit(m1.current, {}, FlushTables(m1), m1.logfileNumber, m1.imm.value), imm := None,
                  flush := None);
    t := s1.(disk := DeleteObsoleteFiles(s1.disk, m2), phase := Up(m2));
    assert InstallFlush(s1, t);
    FlushIsNext(s1, t);
  }

  // ----- compacting -----

  lemma {:induction false} JobIsNext(s: State, t: State)
    requires JobStep(s, t)
    ensures Next(s, t)
  {
    hide RestartStep, WriterStep, FlushStep, JobStep, ReaderStep;
  }

  /** Any compaction can start while there is no error, no other one and no immutable memtable, and when nothing fails it
      is installed: its outputs take the place of its inputs. */
  lemma {:induction false} CompactionCanFinish(s: State, job: Job) returns (path: seq<State>, t: State)
    requires s.phase.Up? && UpInv(s) && !s.phase.m.bgError
    requires s.phase.m.job.None? && s.phase.m.flush.None? && s.phase.m.imm.None?
    requires job.inputs <= s.phase.m.current.live && job.outputs == {} && job.stage.Working?
    requires Entries(job.entries) == Contents(s.disk.tables, job.inputs)
    requires Setting(job.cmp, job.entries, Contents(s.disk.tables, s.phase.m.current.live - job.inputs), job.base)
    requires job.smallest == if s.phase.m.snapshots == [] then s.phase.m.lastSequence else s.phase.m.snapshots[0]
    ensures Leads(path, s, t) && t.phase.Up? && t.phase.m.job.None? && !t.phase.m.bgError
    ensures var n := s.phase.m.nextFile;
      && n !in s.phase.m.current.live && t.phase.m.current.live == s.phase.m.current.live - job.inputs + {n}
      && n in t.disk.tables && t.disk.tables[n] == Entries(Kept(job.entries, |job.entries|, job.smallest, job.base))
  {
    hide Next, Leads, Kept, Setting, UpInv, Contents, Entries, JobManifest;
    var s1 := s.(phase := Up(s.phase.m.(job := Some(job))));
    assert StartJob(s, s1, job);
    var m, n, part := s1.phase.m, s1.phase.m.nextFile, Entries(Kept(job.entries, |job.entries|, job.smallest, job.base));
    NextIsFree(s);
    StartIsNext(s, s1, job);
    var s2 := s1.(disk := s1.disk.(tables := s1.disk.tables[n := part]),
                  phase := Up(m.(job := Some(job.(outputs := {n})), nextFile := n + 1,
                                 pendingOutputs := m.pendingOutputs + {n})));
    assert job.outputs + {n} == {n};
    assert WriteOutput(s1, s2, part);
    JobIsNext(s1, s2);
    ContentsOne(s2.disk.tables, n);
    var m3 := s2.phase.m.(job := Some(job.(outputs := {n}, stage := Applying(n + 1, m.lastSequence))));
    var s3 := s2.(phase := Up(m3));
    assert FinishLoop(s2, s3);
    JobIsNext(s2, s3);
    var s4 := CommitIsNext(s3);
    t := InstallIsNext(s4);
    NoStep(s);
    OneMore([s], s, s, s1);
    OneMore([s] + [s1], s, s1, s2);
    OneMore([s] + [s1] + [s2], s, s2, s3);
    OneMore([s] + [s1] + [s2] + [s3], s, s3, s4);
    OneMore([s] + [s1] + [s2] + [s3] + [s4], s, s4, t);
    path := [s] + [s1] + [s2] + [s3] + [s4] + [t];
  }

  lemma {:induction false} StartIsNext(s: State, s1: State, job: Job)
    requires StartJob(s, s1, job)
    ensures Next(s, s1)
  {
    hide Next, StartJob;
    JobIsNext(s, s1);
  }

  lemma {:induction false} NextIsFree(s: State)
    requires s.phase.Up? && UpInv(s)
    ensures s.phase.m.nextFile !in s.phase.m.current.live
  {
    hide VersionOk, LayersInv, LogsInv, ManifestInv, SnapshotsInv, FlushInv, JobInv, AckedInv;
  }

  lemma {:induction false} CommitIsNext(s: State) returns (t: State)
    requires s.phase.Up? && s.phase.m.job.Some? && s.phase.m.job.value.stage.Applying?
    ensures Next(s, t) && t.phase.Up? && t.disk.tables == s.disk.tables
    ensures t.phase.m == s.phase.m.(job := Some(s.phase.m.job.value.(stage := Committed)))
  {
    hide Next, JobManifest;
    var m := s.phase.m;
    t := s.(disk := s.disk.(manifest := JobManifest(s.disk, m)),
            phase := Up(m.(job := Some(m.job.value.(stage := Committed)))), floor := Max(s.floor, m.job.value.smallest));
    assert CommitJob(s, t);
    JobIsNext(s, t);
  }

  lemma {:induction false} InstallIsNext(s: State) returns (t: State)
    requires s.phase.Up? && s.phase.m.job.Some? && s.phase.m.job.value.stage.Committed?
    ensures Next(s, t) && t.phase.Up? && t.phase.m.job.None? && t.phase.m.bgError == s.phase.m.bgError
    ensures var job := s.phase.m.job.value;
      && t.phase.m.current.live == s.phase.m.current.live - job.inputs + job.outputs
      && forall n :: n in job.outputs && n in s.disk.tables ==> n in t.disk.tables && t.disk.tables[n] == s.disk.tables[n]
  {
    hide Next, KeptLogs;
    var m, job := s.phase.m, s.phase.m.job.value;
    var m' := m.(current := Edit(m.current, job.inputs, job.outputs, m.current.logNumber, {}),
                 pendingOutputs := m.pendingOutputs - job.outputs, job := None);
    t := s.(disk := DeleteObsoleteFiles(s.disk, m'), phase := Up(m'));
    assert InstallJob(s, t);
    JobIsNext(s, t);
  }

  // ----- sequence numbers stay in range -----

  /** All sequence numbers on disk leave room for another. */
  ghost predicate InRange(d: Disk) {
    && d.manifest.lastSequence < MAX_SEQUENCE
    && forall n, e :: n in d.logs && e in d.logs[n].All() ==> e.sequence < MAX_SEQUENCE
  }

  lemma {:induction false} WriterInRange(s: State, t: State)
    requires s.phase.Up? && UpInv(s) && InRange(s.disk) && WriterStep(s, t)
    ensures InRange(t.disk)
  {
    hide VersionOk, LogsInv, NumbersInv, ManifestInv, SnapshotsInv, FlushInv, JobInv, AckedInv;
  }

  lemma {:induction false} FlushInRange(s: State, t: State)
    requires s.phase.Up? && UpInv(s) && InRange(s.disk) && FlushStep(s, t)
    ensures InRange(t.disk)
  {
    hide VersionOk, LogsInv, NumbersInv, ManifestInv, SnapshotsInv, JobInv, AckedInv, Fits, KeptTables, Edit, FlushTables;
  }

  lemma {:induction false} JobInRange(s: State, t: State)
    requires s.phase.Up? && UpInv(s) && InRange(s.disk) && JobStep(s, t)
    ensures InRange(t.disk)
  {
    hide VersionOk, LogsInv, NumbersInv, ManifestInv, SnapshotsInv, FlushInv, AckedInv, Contents, Setting, Kept, KeptTables,
         Edit;
  }

  lemma {:induction false} CrashInRange(s: State, t: State, lost: set<Entry>, hidden: set<Entry>)
    requires InRange(s.disk) && Crash(s, t, lost, hidden)
    ensures InRange(t.disk)
  {
    forall n, e | n in t.disk.logs && e in t.disk.logs[n].All()
      ensures e.sequence < MAX_SEQUENCE
    {
      assert CrashedLog(s.disk.logs[n], t.disk.logs[n], lost, hidden);
      assert e in s.disk.logs[n].All();
    }
  }

  lemma {:induction false} OpenInRange(s: State, t: State, last: nat, save: bool, fails: bool, reached: bool)
    requires InRange(s.disk) && Open(s, t, last, save, fails, reached)
    ensures InRange(t.disk)
  {
    hide AllReplayed, RecoveredSequence, KeptTables, Edit, LogsBetween;
  }

  lemma {:induction false} RestartInRange(s: State, t: State)
    requires InRange(s.disk) && RestartStep(s, t)
    ensures InRange(t.disk)
  {
    hide Crash, Open, InRange, NextLog;
    if lost, hidden :| Crash(s, t, lost, hidden) {
      CrashInRange(s, t, lost, hidden);
    } else if last: nat, save, fails, reached :| Open(s, t, last, save, fails, reached) {
      OpenInRange(s, t, last, save, fails, reached);
    } else {
      SameNumbers(s.disk, t.disk);
    }
  }

  lemma {:induction false} SameNumbers(d: Disk, d': Disk)
    requires InRange(d) && d'.logs == d.logs && d'.manifest == d.manifest
    ensures InRange(d')
  {
  }

  lemma {:induction false} StaysInRange(s: State, t: State)
    requires Inv(s) && InRange(s.disk) && Next(s, t)
    ensures InRange(t.disk)
  {
    hide UpInv, InRange, WriterStep, FlushStep, JobStep, ReaderStep, RestartStep, DiskInv, OpeningInv;
    if RestartStep(s, t) { RestartInRange(s, t); }
    else if WriterStep(s, t) { StepsUp(s, t); WriterInRange(s, t); }
    else if FlushStep(s, t) { StepsUp(s, t); FlushInRange(s, t); }
    else if JobStep(s, t) { StepsUp(s, t); JobInRange(s, t); }
    else { ReaderKeepsDisk(s, t); SameNumbers(s.disk, t.disk); }
  }

  lemma {:induction false} StepsUp(s: State, t: State)
    requires WriterStep(s, t) || FlushStep(s, t) || JobStep(s, t)
    ensures s.phase.Up?
  {
    hide FreshBatch, KeptTables, KeptLogs, Setting, Kept, Contents;
  }

  lemma {:induction false} ReaderKeepsDisk(s: State, t: State)
    requires ReaderStep(s, t)
    ensures t.disk == s.disk
  {
  }

  lemma {:induction false} AlwaysInRange(run: seq<State>, i: nat)
    requires IsRun(run) && i < |run|
    ensures InRange(run[i].disk)
  {
    hide Inv, Next, InRange;
    if i == 0 {
      InitInRange(run[0]);
    } else {
      AlwaysInRange(run, i - 1);
      RunsAreSafe(run, i - 1);
      assert Next(run[i - 1], run[i - 1 + 1]);
      StaysInRange(run[i - 1], run[i]);
    }
  }

  lemma {:induction false} InitInRange(s: State)
    requires Init(s)
    ensures InRange(s.disk)
  {
  }

  // ----- opening -----

  /** The logs that are still to be replayed. */
  ghost function ToReplay(logs: map<nat, LogFile>, next: nat): set<nat> {
    set l | l in logs && l >= next
  }

  lemma {:induction false} FirstOf(ls: set<nat>) returns (n: nat)
    requires ls != {}
    ensures n in ls && forall l :: l in ls ==> n <= l
    decreases |ls|
  {
    var m :| m in ls;
    n := m;
    var rest := ls - {m};
    if rest != {} {
      var k := FirstOf(rest);
      n := if k < m then k else m;
    }
    assert forall l :: l in ls ==> l == m || l in rest;
  }

  /** Recovery of the same files, so far without keeping a log in use. */
  ghost predicate Recovers(s: State, t: State) {
    && s.phase.Recovering? && t.phase.Recovering? && s.phase.o.reused.None? && t.phase.o.reused.None?
    && t.disk.logs == s.disk.logs && t.disk.manifest == s.disk.manifest && t.acked == s.acked
  }

  /** One more log: what is left of it becomes a table. */
  lemma {:induction false} LogCanBeReplayed(s: State, n: nat) returns (path: seq<State>, t: State)
    requires Inv(s) && NextLog(s, n) && s.phase.o.reused.None?
    ensures Leads(path, s, t) && Recovers(s, t) && t.phase.o.next == n + 1
  {
    hide Next, Leads, Inv, NextLog, LogFile.All;
    PartialIsPart(s, n);
    var o, all := s.phase.o, s.disk.logs[n].All();
    NoStep(s);
    if o.partial == all {
      t := LogIsDone(s, n);
      OneMore([s], s, s, t);
      path := [s] + [t];
    } else {
      var part := all - o.partial;
      var s1 := s.(disk := s.disk.(tables := s.disk.tables[o.nextFile := part]),
                   phase := Recovering(o.(partial := o.partial + part, added := o.added + {o.nextFile},
                                          nextFile := o.nextFile + 1)));
      assert part != {} && o.partial + part == all;
      assert ReplayPart(s, s1, n, part);
      PartIsNext(s, s1, n, part);
      NextLogStays(s, s1, n);
      t := LogIsDone(s1, n);
      OneMore([s], s, s, s1);
      OneMore([s] + [s1], s, s1, t);
      path := [s] + [s1] + [t];
    }
  }

  lemma {:induction false} PartIsNext(s: State, t: State, n: nat, part: set<Entry>)
    requires ReplayPart(s, t, n, part)
    ensures Next(s, t)
  {
    hide Next, ReplayPart;
    RestartIsNext(s, t);
  }

  lemma {:induction false} NextLogStays(s: State, t: State, n: nat)
    requires NextLog(s, n) && t.phase.Recovering? && t.disk.logs == s.disk.logs && t.phase.o.next == s.phase.o.next
    ensures NextLog(t, n)
  {
  }

  lemma {:induction false} LogIsDone(s: State, n: nat) returns (t: State)
    requires NextLog(s, n) && s.phase.o.reused.None? && s.phase.o.partial == s.disk.logs[n].All()
    ensures Next(s, t) && Recovers(s, t) && t.phase.o.next == n + 1
  {
    hide Next;
    var o := s.phase.o;
    t := s.(phase := Recovering(o.(next := n + 1, partial := {}, nextFile := Max(o.nextFile, n + 1))));
    assert ReplayDone(s, t, n);
    RestartIsNext(s, t);
  }

  lemma {:induction false} PartialIsPart(s: State, n: nat)
    requires Inv(s) && NextLog(s, n)
    ensures s.phase.Recovering? && n in s.disk.logs && s.phase.o.partial <= s.disk.logs[n].All()
  {
    hide DiskInv, LastLogNewest, Contents, LogsBetween;
    if s.phase.o.partial != {} {
      var k :| NextLog(s, k) && s.phase.o.partial <= s.disk.logs[k].All();
      assert k == n;
    }
  }

  lemma {:induction false} PathKeeps(path: seq<State>, s: State, t: State)
    requires Leads(path, s, t) && Inv(s)
    ensures Inv(t)
    decreases |path|
  {
    hide Inv, Next;
    if |path| > 1 {
      assert Next(path[0], path[0 + 1]);
      NextKeeps(path[0], path[1]);
      var rest := path[1..];
      forall i | 0 <= i < |rest| - 1
        ensures Next(rest[i], rest[i + 1])
      {
        assert Next(path[i + 1], path[i + 1 + 1]);
      }
      PathKeeps(rest, path[1], t);
    }
  }

  lemma {:induction false} LogsCanBeReplayed(s: State) returns (path: seq<State>, t: State)
    requires Inv(s) && s.phase.Recovering? && s.phase.o.reused.None?
    ensures Leads(path, s, t) && Recovers(s, t) && AllReplayed(t)
    decreases |ToReplay(s.disk.logs, s.phase.o.next)|
  {
    hide Next, Leads, Inv;
    var ls := ToReplay(s.disk.logs, s.phase.o.next);
    if ls == {} {
      NothingLeft(s);
      NoStep(s);
      path, t := [s], s;
    } else {
      var n := FirstOf(ls);
      assert NextLog(s, n) by {
        forall l | l in s.disk.logs && l >= s.phase.o.next
          ensures n <= l
        {
          assert l in ls;
        }
      }
      var first, s1 := LogCanBeReplayed(s, n);
      PathKeeps(first, s, s1);
      var ls1 := ToReplay(s1.disk.logs, s1.phase.o.next);
      assert ls1 < ls by {
        assert n in ls && n !in ls1;
      }
      Fewer(ls1, ls);
      var rest;
      rest, t := LogsCanBeReplayed(s1);
      path := Joined(first, rest, s, s1, t);
    }
  }

  lemma {:induction false} Fewer(a: set<nat>, b: set<nat>)
    requires a < b
    ensures |a| < |b|
  {
    var n :| n in b && n !in a;
    Subset(a, b - {n});
  }

  lemma {:induction false} Subset(a: set<nat>, b: set<nat>)
    requires a <= b
    ensures |a| <= |b|
    decreases |a|
  {
    if a != {} {
      var n :| n in a;
      Subset(a - {n}, b - {n});
    }
  }

  lemma {:induction false} NothingLeft(s: State)
    requires Inv(s) && s.phase.Recovering? && ToReplay(s.disk.logs, s.phase.o.next) == {}
    ensures AllReplayed(s)
  {
    hide DiskInv, LastLogNewest, Contents, LogsBetween;
    forall l | l in s.disk.logs
      ensures l < s.phase.o.next
    {
      assert l !in ToReplay(s.disk.logs, s.phase.o.next);
    }
  }

  lemma {:induction false} SequenceCanBeRecovered(s: State) returns (last: nat)
    requires InRange(s.disk)
    ensures RecoveredSequence(s, last) && last < MAX_SEQUENCE
  {
    last := Largest(LogsFrom(s.disk.logs, s.disk.manifest.version.logNumber), s.disk.manifest.lastSequence);
  }

  lemma {:induction false} CanOpen(s: State) returns (t: State)
    requires Inv(s) && InRange(s.disk) && s.phase.Recovering? && AllReplayed(s) && s.phase.o.reused.None?
    ensures Next(s, t) && t.phase.Up? && t.acked == s.acked
    ensures Readable(t.phase.m) == History(s.disk.logs, s.disk.manifest.version)
  {
    hide Next, Inv, InRange, AllReplayed, RecoveredSequence, KeptTables, KeptLogs, Readable, History;
    var last := SequenceCanBeRecovered(s);
    var d, o, v := s.disk, s.phase.o, s.disk.manifest.version;
    var log := o.nextFile;
    var logs := d.logs[log := NEW_LOG];
    var v' := Edit(v, {}, o.added, log, LogsBetween(d.logs, v.logNumber, log));
    var d' := Disk(d.tables, logs, Manifest(v', o.nextFile + 1, last));
    var m := Memory(v', logs[log].All(), None, log, last, o.nextFile + 1, {}, [], [], false, NoWrite, {}, None, None);
    t := s.(disk := DeleteObsoleteFiles(d', m), phase := Up(m));
    assert Open(s, t, last, true, false, true);
    OpenIsNext(s, t, last);
    OpeningRebuilds(s, t, last, true, true);
  }

  lemma {:induction false} OpenIsNext(s: State, t: State, last: nat)
    requires Open(s, t, last, true, false, true)
    ensures Next(s, t)
  {
    hide Next, Open;
    RestartIsNext(s, t);
  }

  /** However the database went down: when nothing fails it can be opened again, and then shows the whole history that its
      files hold. */
  lemma {:induction false} DatabaseCanBeOpened(run: seq<State>, i: nat) returns (path: seq<State>, t: State)
    requires IsRun(run) && i < |run| && run[i].phase.Down?
    ensures Leads(path, run[i], t) && t.phase.Up? && t.acked == run[i].acked
    ensures Readable(t.phase.m) == History(run[i].disk.logs, run[i].disk.manifest.version)
  {
    hide Next, Leads, Inv, InRange, Readable, History, AllReplayed;
    var s := run[i];
    RunsAreSafe(run, i);
    AlwaysInRange(run, i);
    var s1 := s.(phase := Recovering(Opening(s.disk.manifest.version.logNumber, {}, {}, s.disk.manifest.nextFile + 1, None)));
    assert StartRecovery(s, s1);
    RestartIsNext(s, s1);
    NextKeeps(s, s1);
    NoStep(s);
    OneMore([s], s, s, s1);
    var rest, s2 := LogsCanBeReplayed(s1);
    PathKeeps(rest, s1, s2);
    SameNumbers(s.disk, s2.disk);
    t := CanOpen(s2);
    var first := Joined([s] + [s1], rest, s, s1, s2);
    OneMore(first, s, s2, t);
    path := first + [t];
  }
}
