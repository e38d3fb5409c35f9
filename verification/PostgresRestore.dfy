/** The restore job of an instance with a PostgreSQL database (backend/internal/restore/postgres.go). */
module PostgresRestore {
  import opened Wrappers
  import opened Disk
  import opened RestoreJob
  import G = WriteGate
  import T = TransferRestore

  /**
   Main result: the job asks for intervention exactly when the restore failed and CheckPending reports a transfer journal,
   and then the gate stays held, so no request gets in; in every other case this call has let go of the gate, there is no
   journal, and data and files are wholly new (no error) or wholly old.
   */
  method RunPostgres(gate: G.SharedGate, me: nat, patience: nat, job: Job, disk: FileTree<T.Place>, names: seq<T.Name>, b: T.Backup)
    requires gate.Valid() && me !in gate.calls && job.running && !job.needsIntervention
    requires disk.Valid() && T.Distinct(names)
    requires forall n :: T.Previous(n) !in disk.files && T.Incoming(n) !in disk.files
    modifies gate, job, disk
    ensures gate.Valid() && disk.Valid() && job.done && !job.running
    ensures T.SafeSince(old(disk.files), b, disk.history, |old(disk.history)|, names)
    ensures job.needsIntervention ==> job.err.Some? && G.At(gate.State(), me, G.Holding) && gate.engaged && gate.requests == {}
    ensures job.needsIntervention ==> T.Journal in disk.files || Unreadable(disk)
    ensures !job.needsIntervention ==> !G.At(gate.State(), me, G.Holding) && gate.operation != Some(me)
    ensures !job.needsIntervention && G.At(gate.State(), me, G.Closed(true)) ==> gate.operation == None && gate.engaged == gate.outside
    ensures job.err == None ==> T.Journal !in disk.files && T.WhollyNew(b, disk.files, names)
    ensures job.err == None ==> T.AllSteps(disk.steps, |old(disk.steps)|, b, names)
    ensures job.err.Some? && !job.needsIntervention ==> T.WhollyOld(old(disk.files), disk.files, names)
    ensures job.err.Some? && job.err != Some(FreezeFailed) && T.Journal in disk.files ==> job.needsIntervention
    ensures job.err.Some? ==> job.err == Some(FreezeFailed) || disk.faults > old(disk.faults) || T.Journal in old(disk.files)
  {
    job.SetPhase(Validating);
    var frozen := gate.Freeze(me, patience);
    if !frozen {
      job.Finish(Some(FreezeFailed));
      return;
    }
    RestoreFrozen(gate, me, job, disk, names, b);
  }

  /** The last thing tried was to look for a journal, and it failed. */
  ghost predicate Unreadable(disk: FileTree<T.Place>)
    reads disk
  {
    disk.steps != [] && disk.steps[|disk.steps| - 1].name == "journal looked for" && !disk.steps[|disk.steps| - 1].ok
  }

  /** The transfer, and behind a failure CheckPending: the journal is there, or the check itself fails. */
  method Transfer(disk: FileTree<T.Place>, names: seq<T.Name>, b: T.Backup) returns (failed: bool, pending: bool)
    requires disk.Valid() && T.Distinct(names)
    requires forall n :: T.Previous(n) !in disk.files && T.Incoming(n) !in disk.files
    modifies disk
    ensures disk.Valid() && T.SafeSince(old(disk.files), b, disk.history, |old(disk.history)|, names)
    ensures !failed ==> T.Journal !in disk.files && T.WhollyNew(b, disk.files, names) && T.AllSteps(disk.steps, |old(disk.steps)|, b, names)
    ensures failed && !pending ==> T.WhollyOld(old(disk.files), disk.files, names) && T.Journal !in disk.files
    ensures pending ==> failed && (T.Journal in disk.files || Unreadable(disk))
    ensures failed ==> disk.faults > old(disk.faults) || T.Journal in old(disk.files)
  {
    hide T.WhollyOld, T.WhollyNew, T.SafeSince, T.Distinct, T.AllSteps, T.StageRemains, T.CameTo;
    var failure := T.RestoreBackup(disk, names, b, true);
    failed, pending := failure.Some?, false;
    if failed {
      var journal := disk.Exists(T.Journal);
      var readable := disk.Attempt("journal looked for");
      pending := journal || !readable;
    }
  }

  /** The restore under the frozen gate, and its end. */
  method RestoreFrozen(gate: G.SharedGate, me: nat, job: Job, disk: FileTree<T.Place>, names: seq<T.Name>, b: T.Backup)
    requires gate.Valid() && G.At(gate.State(), me, G.Holding) && job.running && !job.needsIntervention
    requires disk.Valid() && T.Distinct(names)
    requires forall n :: T.Previous(n) !in disk.files && T.Incoming(n) !in disk.files
    modifies gate, job, disk
    ensures gate.Valid() && disk.Valid() && job.done && !job.running
    ensures T.SafeSince(old(disk.files), b, disk.history, |old(disk.history)|, names)
    ensures job.needsIntervention ==> job.err.Some? && G.At(gate.State(), me, G.Holding) && gate.engaged && gate.requests == {}
    ensures job.needsIntervention ==> T.Journal in disk.files || Unreadable(disk)
    ensures !job.needsIntervention ==> G.At(gate.State(), me, G.Closed(true)) && gate.operation == None && gate.engaged == gate.outside
    ensures job.err == None ==> T.Journal !in disk.files && T.WhollyNew(b, disk.files, names)
    ensures job.err == None ==> T.AllSteps(disk.steps, |old(disk.steps)|, b, names)
    ensures job.err.Some? && !job.needsIntervention ==> T.WhollyOld(old(disk.files), disk.files, names)
    ensures job.err.Some? && T.Journal in disk.files ==> job.needsIntervention
    ensures job.err in {None, Some(TransferFailed)}
    ensures job.err.Some? ==> disk.faults > old(disk.faults) || T.Journal in old(disk.files)
  {
    hide G.Run, T.WhollyOld, T.WhollyNew, T.SafeSince, T.Distinct, T.AllSteps;
    job.SetPhase(Swapping);
    var failed, pending := Transfer(disk, names, b);
    gate.Others(me);
    if pending {
      G.FreezesExclude(gate.outside, gate.trace, me, me);
      job.FinishNeedsIntervention(TransferFailed);
      return;
    }
    gate.Thaw(me);
    job.Finish(if failed then Some(TransferFailed) else None);
  }
}
