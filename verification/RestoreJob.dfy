/** The status record of a background restore (backend/internal/restore/job.go). */
module RestoreJob {
  import opened Wrappers

  datatype Phase = NoPhase | Validating | Swapping | ReopeningAuth | InvalidatingSessions | ReloadingBranding

  /** Why a restore failed; the source's wrapped error texts. */
  datatype Cause =
    | SnapshotMissing
    | ValidationFailed
    | PauseFailed
    | WalCleanupFailed
    | SwapFailed
    | ReopenFailed
    | BrandingFailed
    | PublicAccessFailed
    | FreezeFailed
    | TransferFailed

  class Job {
    var running: bool
    var phase: Phase
    var done: bool
    var err: Option<Cause>
    var versionWarning: bool
    var needsIntervention: bool

    /** The job ended, and this is how. */
    predicate Ended(cause: Option<Cause>, intervention: bool)
      reads this
    {
      !running && done && err == cause && needsIntervention == intervention
    }

    constructor ()
      ensures !running && !done && phase == NoPhase && err == None && !versionWarning && !needsIntervention
    {
      running, phase, done, err, versionWarning, needsIntervention := false, NoPhase, false, None, false, false;
    }

    /** Each method is one critical section. A running job is not started again; a new run forgets the last one. */
    method Start() returns (started: bool)
      modifies this
      ensures started == !old(running) && running
      ensures started ==> !done && phase == NoPhase && err == None && !versionWarning && !needsIntervention
      ensures !started ==> unchanged(this)
    {
      if running {
        return false;
      }
      running, done, phase, err, versionWarning, needsIntervention := true, false, NoPhase, None, false, false;
      started := true;
    }

    method SetPhase(p: Phase)
      modifies this`phase
      ensures phase == p
    {
      phase := p;
    }

    method SetVersionWarning()
      modifies this`versionWarning
      ensures versionWarning
    {
      versionWarning := true;
    }

    /** Despite its comment in the source, Finish leaves needsIntervention alone; Start is what clears it. */
    method Finish(cause: Option<Cause>)
      modifies this`running, this`done, this`err
      ensures Ended(cause, old(needsIntervention))
    {
      running, done, err := false, true, cause;
    }

    method FinishNeedsIntervention(cause: Cause)
      modifies this`running, this`done, this`err, this`needsIntervention
      ensures Ended(Some(cause), true)
    {
      running, done, err, needsIntervention := false, true, Some(cause), true;
    }
  }
}
