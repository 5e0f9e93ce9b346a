/** Errors of a running database, and what deleting obsolete files achieves. */
module EngineFailures {
  import opened Bytes
  import opened InternalKeys
  import opened Views
  import opened Compaction
  import opened EngineState
  import opened EngineInvariant
  import opened EngineSafety

  // ----- errors -----

  /** A failed sync, flush or compaction is recorded... */
  lemma FailuresAreRecorded(s: State, s': State, reached: bool)
    requires FailSync(s, s') || FailFlush(s, s', reached) || FailJob(s, s', reached)
    ensures s'.phase.Up? && s'.phase.m.bgError
  {
    hide FlushManifest, JobManifest;
  }

  /** The batch of the write that is under way. */
  ghost function UnderWay(m: Memory): set<Entry> {
    if m.writing.NoWrite? then {} else m.writing.batch
  }

  ghost predicate ErrorStep(s: State, s': State)
    requires s.phase.Up? && s'.phase.Up?
  {
    s.phase.m.bgError ==>
      s'.phase.m.bgError && s'.acked + UnderWay(s'.phase.m) <= s.acked + UnderWay(s.phase.m)
  }

  lemma WriterError(s: State, s': State)
    requires WriterStep(s, s')
    ensures s.phase.Up? && s'.phase.Up? && ErrorStep(s, s')
  {
    hide FreshBatch, LogFile.Append, LogFile.Sync;
  }

  lemma FlushError(s: State, s': State)
    requires FlushStep(s, s')
    ensures s.phase.Up? && s'.phase.Up? && ErrorStep(s, s')
  {
    hide DeleteObsoleteFiles, FlushManifest;
  }

  lemma JobError(s: State, s': State)
    requires JobStep(s, s')
    ensures s.phase.Up? && s'.phase.Up? && ErrorStep(s, s')
  {
    hide DeleteObsoleteFiles, JobManifest, Setting, Kept, Contents;
  }

  lemma ReaderError(s: State, s': State)
    requires ReaderStep(s, s')
    ensures s.phase.Up? && s'.phase.Up? && ErrorStep(s, s')
  {
  }

  lemma ErrorStays(s: State, s': State)
    requires s.phase.Up? && s'.phase.Up? && Next(s, s')
    ensures ErrorStep(s, s')
  {
    hide WriterStep, FlushStep, JobStep, ReaderStep, RestartStep, ErrorStep;
    if WriterStep(s, s') { WriterError(s, s'); }
    else if FlushStep(s, s') { FlushError(s, s'); }
    else if JobStep(s, s') { JobError(s, s'); }
    else if ReaderStep(s, s') { ReaderError(s, s'); }
    else { RestartChangesPhase(s, s'); }
  }

  /** ...and from then on, until the database is opened again, no write is acknowledged but the one that was under way. */
  lemma {:induction false} NoWritesAfterAnError(run: seq<State>, i: nat, j: nat)
    requires IsRun(run) && i <= j < |run| && forall n :: i <= n <= j ==> run[n].phase.Up?
    requires run[i].phase.m.bgError
    ensures run[j].phase.m.bgError
    ensures run[j].acked + UnderWay(run[j].phase.m) <= run[i].acked + UnderWay(run[i].phase.m)
    decreases j
  {
    hide Next, Init, UnderWay;
    if i < j {
      NoWritesAfterAnError(run, i, j - 1);
      assert Next(run[j - 1], run[j - 1 + 1]);
      ErrorStays(run[j - 1], run[j]);
    }
  }

  /** Once the manifest holds a flush or a compaction, it is installed; it does not fail any more, and nothing else becomes
      of it as long as the database runs. */
  ghost predicate Installs(s: State, s': State)
    requires s.phase.Up? && s'.phase.Up?
  {
    var m, m' := s.phase.m, s'.phase.m;
    && (m.flush.Some? && m.flush.value.stage.Committed? ==>
          m'.flush == m.flush || (m'.flush.None? && m'.imm.None? && m'.bgError == m.bgError))
    && (m.job.Some? && m.job.value.stage.Committed? ==>
          m'.job == m.job || (m'.job.None? && m'.bgError == m.bgError
                              && m'.current.live == m.current.live - m.job.value.inputs + m.job.value.outputs))
  }

  lemma {:induction false} WriterInstalls(s: State, s': State)
    requires WriterStep(s, s')
    ensures s.phase.Up? && s'.phase.Up? && Installs(s, s')
  {
    hide FreshBatch, LogFile.Append, LogFile.Sync;
  }

  lemma {:induction false} FlushInstalls(s: State, s': State)
    requires FlushStep(s, s')
    ensures s.phase.Up? && s'.phase.Up? && Installs(s, s')
  {
    hide DeleteObsoleteFiles, FlushManifest;
  }

  lemma {:induction false} JobInstalls(s: State, s': State)
    requires JobStep(s, s')
    ensures s.phase.Up? && s'.phase.Up? && Installs(s, s')
  {
    hide DeleteObsoleteFiles, JobManifest, Setting, Kept, Contents;
  }

  lemma {:induction false} ReaderInstalls(s: State, s': State)
    requires ReaderStep(s, s')
    ensures s.phase.Up? && s'.phase.Up? && Installs(s, s')
  {
  }

  lemma {:induction false} CommittedIsInstalled(s: State, s': State)
    requires s.phase.Up? && s'.phase.Up? && Next(s, s')
    ensures Installs(s, s')
  {
    hide WriterStep, FlushStep, JobStep, ReaderStep, RestartStep, Installs;
    if WriterStep(s, s') { WriterInstalls(s, s'); }
    else if FlushStep(s, s') { FlushInstalls(s, s'); }
    else if JobStep(s, s') { JobInstalls(s, s'); }
    else if ReaderStep(s, s') { ReaderInstalls(s, s'); }
    else { RestartChangesPhase(s, s'); }
  }

  // ----- obsolete files -----

  /** After an error nothing is deleted: it is not known which version the manifest holds. */
  lemma {:induction false} NothingIsDeletedAfterAnError(s: State, s': State)
    requires InstallFlush(s, s') || InstallJob(s, s')
    requires s.phase.m.bgError
    ensures s'.disk == s.disk
  {
  }

  /** When a flush or a compaction is installed and no error is recorded, every file that is left has a use: a table is
      part of the current version, is being written, or is held by a reader; a log is at or above the log number. */
  lemma NothingObsoleteStays(s: State, s': State, n: nat)
    requires InstallFlush(s, s') || InstallJob(s, s')
    requires !s.phase.m.bgError
    ensures var m' := s'.phase.m;
      n in s'.disk.tables ==> n in m'.current.live || n in m'.pendingOutputs || exists r :: r in m'.readers && n in r
    ensures n in s'.disk.logs ==> n >= s'.phase.m.current.logNumber
  {
    if n in s'.disk.tables && InUse(s'.phase.m.readers, n) {
      var i :| 0 <= i < |s'.phase.m.readers| && n in s'.phase.m.readers[i];
      assert s'.phase.m.readers[i] in s'.phase.m.readers;
    }
  }

  /** So the inputs of a compaction are gone, and the logs of a flushed memtable are, unless a reader holds the table. */
  lemma InputsAreDeleted(s: State, s': State, n: nat)
    requires s.phase.Up? && UpInv(s) && !s.phase.m.bgError
    requires forall r :: r in s.phase.m.readers ==> n !in r
    ensures InstallJob(s, s') && n in s.phase.m.job.value.inputs && n !in s.phase.m.pendingOutputs ==> n !in s'.disk.tables
    ensures InstallFlush(s, s') && n < s.phase.m.logfileNumber ==> n !in s'.disk.logs
  {
    hide UpInv;
    if InstallFlush(s, s') {
      NothingObsoleteStays(s, s', n);
    } else if InstallJob(s, s') && n in s.phase.m.job.value.inputs && n !in s.phase.m.pendingOutputs {
      NothingObsoleteStays(s, s', n);
      OutputsArePending(s);
    }
  }

  lemma OutputsArePending(s: State)
    requires s.phase.Up? && UpInv(s) && s.phase.m.job.Some?
    ensures s.phase.m.job.value.outputs <= s.phase.m.pendingOutputs
  {
    hide VersionOk, LogsInv, LayersInv, NumbersInv, ManifestInv, SnapshotsInv, FlushInv, AckedInv, Setting, Contents, Kept;
  }
}
