/**
 A restore into the running server (backend/internal/restore/manager.go, without a PostgreSQL database): validate the
 snapshot, close the write gate, pause the stores, swap the files, reopen everything, commit; or roll back.

 Every phase may fail. The proofs cover each point in time through the history of the disk.
 */
module RestoreManager {
  import opened Wrappers
  import opened Disk
  import opened Swap
  import opened RestoreJob
  import opened RestoredTree

  /** An archive: its entries, the verdict of the checks on it and on the staged databases, and its version mark. */
  datatype Archive = Archive(entries: Snapshot, intact: bool, sameVersion: bool)

  datatype TriggerResult = Ran | AlreadyRunning | NeedsIntervention

  /** Failures before any item was touched: after them the gate is open, whether the stores came back or not. */
  const BEFORE_SWAP := {PauseFailed, WalCleanupFailed}

  class Manager {
    const disk: FileTree<Place>
    const job: Job
    const configured: set<Store>
    var gateEngaged: bool
    var suspended: set<Store>
    /** The content of the database file each store read when it was last opened. */
    var serving: map<Store, Content>
    /** The number of the next restore; it stands for the unused names that restore will pick. */
    var runs: nat

    /** A store answers from the file that is on disk now. */
    predicate Serves(s: Store)
      reads this`serving, disk`files
    {
      s in serving && Live(DbOf(s)) in disk.files && serving[s] == disk.files[Live(DbOf(s))]
    }

    /** The instance works normally. */
    ghost predicate Ready()
      reads this, disk
    {
      disk.Valid() && !gateEngaged && suspended == {} && forall s :: s in configured ==> Serves(s)
    }

    ghost predicate FilesExist()
      reads this, disk
    {
      disk.Valid() && forall s :: s in configured ==> Live(DbOf(s)) in disk.files
    }

    /** Of these databases only those of open stores have log files. */
    ghost predicate ClosedClean(names: set<Name>)
      reads this, disk
    {
      CleanWhenClosed(disk.files, names, Dbs(configured - suspended))
    }

    /** The server has started: every configured service has created and opened its file. */
    constructor (tree: FileTree<Place>, stores: set<Store>, unused: nat)
      requires tree.Valid() && Unused(tree.files, unused) && forall s :: s in stores ==> Live(DbOf(s)) in tree.files
      ensures disk == tree && configured == stores && fresh(job) && Ready() && AtRest()
    {
      disk, configured := tree, stores;
      gateEngaged, suspended, runs := false, {}, unused;
      serving := map s | s in stores :: tree.files[Live(DbOf(s))];
      job := new Job();
    }

    /** Between restores: the instance works, or it asks for intervention; the next restore finds unused names. */
    ghost predicate AtRest()
      reads this, disk, job
    {
      !job.running && disk.Valid() && Unused(disk.files, runs) && (job.needsIntervention || Ready())
    }

    // ----- Stores -----

    /**
     PauseForSwap marks the store suspended even when closing its connection fails; a closed connection takes its log with
     it. On a suspended store it does nothing.
     */
    method Pause(s: Store) returns (ok: bool)
      requires s in configured && disk.Valid()
      modifies this`suspended, disk
      ensures disk.Valid() && suspended == old(suspended) + {s} && disk.faults == old(disk.faults) + if ok then 0 else 1
      ensures EngineSteps(Dbs(configured), old(disk.files), old(disk.history), disk.files, disk.history)
      ensures Shrinks(old(disk.files), disk.files)
      ensures s in old(suspended) ==> ok
      ensures s in old(suspended) || !ok ==> disk.files == old(disk.files)
      ensures ok && s !in old(suspended) ==> NoSidecars(disk.files, DbOf(s))
    {
      NoEngineStep(Dbs(configured), disk.files, disk.history);
      if s in suspended {
        suspended := suspended + {s};
        return true;
      }
      suspended := suspended + {s};
      ok := disk.Attempt("connection closed");
      if ok {
        ghost var start, earlier := disk.files, disk.history;
        disk.Discard(Sidecar(DbOf(s), true));
        ghost var mid := disk.files;
        disk.Discard(Sidecar(DbOf(s), false));
        OneLogStep(DbOf(s), true, start, mid);
        OneLogStep(DbOf(s), false, mid, disk.files);
        TwoLogSteps(Dbs(configured), DbOf(s), start, mid, disk.files, earlier, disk.history);
      }
    }

    /**
     Replace opens the file at the live path, and the engine may begin a log for it; if that fails the store stays as it
     is, and what was opened is closed again.
     */
    method Replace(s: Store) returns (ok: bool)
      requires s in configured && FilesExist()
      modifies this`suspended, this`serving, disk
      ensures disk.Valid() && disk.faults == old(disk.faults) + (if ok then 0 else 1) && old(disk.steps) <= disk.steps
      ensures EngineSteps(Dbs(configured), old(disk.files), old(disk.history), disk.files, disk.history)
      ensures forall n: Name, wal: bool :: n != DbOf(s) ==> SameAt(old(disk.files), disk.files, Sidecar(n, wal))
      ensures ok ==> suspended == old(suspended) - {s} && serving == old(serving)[s := old(disk.files)[Live(DbOf(s))]]
      ensures !ok ==> suspended == old(suspended) && serving == old(serving) && disk.files == old(disk.files)
    {
      NoEngineStep(Dbs(configured), disk.files, disk.history);
      ok := disk.Attempt("connection opened");
      if ok {
        var n := DbOf(s);
        var content := disk.files[Live(n)];
        suspended := suspended - {s};
        serving := serving[s := content];
        ghost var start, earlier := disk.files, disk.history;
        disk.MayAppear(Sidecar(n, true), content);
        ghost var mid := disk.files;
        disk.MayAppear(Sidecar(n, false), content);
        OneLogStep(n, true, start, mid);
        OneLogStep(n, false, mid, disk.files);
        TwoLogSteps(Dbs(configured), n, start, mid, disk.files, earlier, disk.history);
      }
    }

    method ReplaceIfConfigured(s: Store, ghost names: set<Name>) returns (ok: bool)
      requires FilesExist()
      modifies this`suspended, this`serving, disk
      ensures FilesExist() && disk.faults == old(disk.faults) + (if ok then 0 else 1) && old(disk.steps) <= disk.steps
      ensures EngineSteps(Dbs(configured), old(disk.files), old(disk.history), disk.files, disk.history)
      ensures suspended <= old(suspended)
      ensures old(ClosedClean(names)) ==> ClosedClean(names)
      ensures forall t :: t in configured && old(Serves(t)) ==> Serves(t)
      ensures ok && s in configured ==> s !in suspended && Serves(s)
    {
      ok := true;
      NoEngineStep(Dbs(configured), disk.files, disk.history);
      if s in configured {
        ghost var start, closed := disk.files, suspended;
        ok := Replace(s);
        DatabasesStay(start, disk.files);
        if CleanWhenClosed(start, names, Dbs(configured - closed)) {
          OpenedIsExempt(start, disk.files, names, configured, closed, suspended, s);
        }
      }
    }

    /** The files of all stores are as they were. */
    lemma DatabasesStay(a: Tree, b: Tree)
      requires OnlyLogsOf(Dbs(configured), a, b)
      ensures forall s: Store :: SameAt(a, b, Live(DbOf(s)))
    {
    }

    method PauseIfConfigured(s: Store, ghost names: set<Name>)
      requires disk.Valid()
      modifies this`suspended, disk
      ensures disk.Valid() && disk.faults >= old(disk.faults)
      ensures EngineSteps(Dbs(configured), old(disk.files), old(disk.history), disk.files, disk.history)
      ensures suspended == old(suspended) + ({s} * configured)
      ensures disk.faults == old(disk.faults) && old(ClosedClean(names)) ==> ClosedClean(names)
    {
      NoEngineStep(Dbs(configured), disk.files, disk.history);
      if s in configured {
        ghost var start, open := disk.files, suspended;
        var paused := Pause(s);
        if paused && CleanWhenClosed(start, names, Dbs(configured - open)) {
          ClosedIsClean(start, disk.files, names, configured, open, s);
        }
      }
    }

    /** A failure to pause a store is only logged. */
    method PauseAllStoresForRollback(ghost names: set<Name>)
      requires disk.Valid() && suspended <= configured
      modifies this`suspended, disk
      ensures disk.Valid() && suspended == configured && disk.faults >= old(disk.faults)
      ensures EngineSteps(Dbs(configured), old(disk.files), old(disk.history), disk.files, disk.history)
      ensures disk.faults == old(disk.faults) && old(ClosedClean(names)) ==> ClosedClean(names)
    {
      hide EngineSteps, CleanWhenClosed, Dbs;
      ghost var dbs := Dbs(configured);
      ghost var f0, h0 := disk.files, disk.history;
      PauseIfConfigured(Users, names);
      ghost var f1, h1 := disk.files, disk.history;
      PauseIfConfigured(ApiKeys, names);
      ghost var f2, h2 := disk.files, disk.history;
      EngineStepsTwice(dbs, f0, h0, f1, h1, f2, h2);
      PauseIfConfigured(Favorites, names);
      ghost var f3, h3 := disk.files, disk.history;
      EngineStepsTwice(dbs, f0, h0, f2, h2, f3, h3);
      PauseIfConfigured(UserSettings, names);
      EngineStepsTwice(dbs, f0, h0, f3, h3, disk.files, disk.history);
      StoresAre(configured);
    }

    /** Tries every store and reports whether all of them are open again. */
    method ReopenAllStores() returns (ok: bool)
      requires FilesExist() && suspended <= configured
      modifies this`suspended, this`serving, disk
      ensures FilesExist() && suspended <= configured
      ensures EngineSteps(Dbs(configured), old(disk.files), old(disk.history), disk.files, disk.history)
      ensures disk.faults >= old(disk.faults) && (!ok ==> disk.faults > old(disk.faults))
      ensures ok ==> suspended == {} && forall s :: s in configured ==> Serves(s)
    {
      hide EngineSteps, CleanWhenClosed, Dbs;
      ghost var dbs := Dbs(configured);
      ghost var f0, h0 := disk.files, disk.history;
      var a := ReplaceIfConfigured(Users, {});
      ghost var f1, h1 := disk.files, disk.history;
      var b := ReplaceIfConfigured(ApiKeys, {});
      ghost var f2, h2 := disk.files, disk.history;
      EngineStepsTwice(dbs, f0, h0, f1, h1, f2, h2);
      var c := ReplaceIfConfigured(Favorites, {});
      ghost var f3, h3 := disk.files, disk.history;
      EngineStepsTwice(dbs, f0, h0, f2, h2, f3, h3);
      var d := ReplaceIfConfigured(UserSettings, {});
      EngineStepsTwice(dbs, f0, h0, f3, h3, disk.files, disk.history);
      ok := a && b && c && d;
      StoresAre(suspended);
    }

    lemma StoresAre(s: set<Store>)
      ensures s <= {Users, ApiKeys, Favorites, UserSettings}
    {
      forall x | x in s
        ensures x in {Users, ApiKeys, Favorites, UserSettings}
      {
        match x
        case Users =>
        case ApiKeys =>
        case Favorites =>
        case UserSettings =>
      }
    }

    // ----- Failures -----

    /** A failure before any item was touched: the gate opens first, then the stores are reopened. */
    method Recover(cause: Cause)
      requires FilesExist() && suspended <= configured && !job.needsIntervention
      modifies this`gateEngaged, this`suspended, this`serving, job`running, job`done, job`err, job`needsIntervention, disk
      ensures FilesExist() && !gateEngaged && suspended <= configured
      ensures EngineSteps(Dbs(configured), old(disk.files), old(disk.history), disk.files, disk.history)
      ensures disk.faults >= old(disk.faults) && (job.needsIntervention ==> disk.faults > old(disk.faults))
      ensures job.Ended(Some(cause), job.needsIntervention)
      ensures !job.needsIntervention ==> Ready()
    {
      gateEngaged := false;
      var reopened := ReopenAllStores();
      if reopened {
        job.Finish(Some(cause));
      } else {
        job.FinishNeedsIntervention(cause);
      }
    }

    /** Files are rolled back only behind the closed gate and with every store paused. */
    method RollbackFiles(sw: Swapper) returns (ok: bool)
      requires gateEngaged && suspended == configured && sw.disk == disk && sw.Valid() && sw.names == SWAP_NAMES
      modifies sw, disk
      ensures sw.Valid() && old(disk.history) <= disk.history && sw.SafeSince(|old(disk.history)|)
      ensures ok ==> AllOld(sw.was, disk.files, SWAP_NAMES)
      ensures Outside(sw.run, old(disk.files), disk.files)
      ensures disk.faults >= old(disk.faults) && (!ok ==> disk.faults > old(disk.faults))
    {
      ok := sw.RollbackAll();
    }

    /**
     A failure after the swap began. Either everything is exactly as before and works, or the gate stays closed and the
     job asks for intervention; the originals are safe in both cases. A log of a restored database can be left beside an
     original only if pausing its store failed.
     */
    method RollbackOrIntervene(sw: Swapper, cause: Cause)
      requires sw.disk == disk && sw.Valid() && sw.names == SWAP_NAMES
      requires forall s :: s in configured ==> Live(DbOf(s)) in sw.was
      requires UnstagedStay(sw.run, sw.was, disk.files, SWAP_NAMES) && ClosedClean(StagedDbs(sw.run, sw.was))
      requires gateEngaged && suspended <= configured && !job.needsIntervention
      modifies this`gateEngaged, this`suspended, this`serving, job`running, job`done, job`err, job`needsIntervention, sw, disk
      ensures OtherRuns(sw.run, old(disk.files), disk.files) && LogsOutside(Dbs(configured), old(disk.files), disk.files)
      ensures sw.Valid() && old(disk.history) <= disk.history && sw.SafeSince(|old(disk.history)|)
      ensures job.Ended(Some(cause), job.needsIntervention)
      ensures !job.needsIntervention ==> Ready() && AllOld(sw.was, disk.files, SWAP_NAMES)
      ensures !job.needsIntervention ==> LogsKept(old(disk.files), disk.files) || disk.faults > old(disk.faults)
      ensures job.needsIntervention <==> gateEngaged
      ensures disk.faults >= old(disk.faults) && (job.needsIntervention ==> disk.faults > old(disk.faults))
    {
      hide AllKept, AllConserved, UnstagedStay, Outside, OtherRuns, LogsOutside, LogsMatch, StagedDbs, OnlySidecars, Distinct;
      ghost var f0, h0 := disk.files, disk.history;
      PauseAllStoresForRollback(StagedDbs(sw.run, sw.was));
      ghost var f1, h1 := disk.files, disk.history;
      LogsKeepSwap(sw.run, sw.was, f0, f1, h1, |h0|, sw.items);
      UnstagedThroughLogs(sw.run, sw.was, f0, f1);
      var rolledBack := RollbackFiles(sw);
      ghost var f2, h2 := disk.files, disk.history;
      ConservedTwice(sw.run, sw.was, h1, h2, |h0|);
      SameHere(Dbs(configured), f2);
      if rolledBack && disk.faults == old(disk.faults) {
        RollbackKeepsLogs(sw.run, sw.was, f1, f2);
      }
      if !rolledBack {
        RollbackFrames(sw.run, Dbs(configured), f0, f1, f2, f2);
        job.FinishNeedsIntervention(cause);
        return;
      }
      OldFilesExist(sw.was, disk.files, configured);
      var reopened := ReopenAllStores();
      LogsKeepSwap(sw.run, sw.was, f2, disk.files, disk.history, |h2|, sw.items);
      ConservedTwice(sw.run, sw.was, h2, disk.history, |h0|);
      RollbackFrames(sw.run, Dbs(configured), f0, f1, f2, disk.files);
      if !reopened {
        job.FinishNeedsIntervention(cause);
        return;
      }
      gateEngaged := false;
      job.Finish(Some(cause));
    }

    // ----- Before the swap -----

    /** Pauses one store before the swap; a failure ends the job. */
    method PauseOrRecover(s: Store) returns (ok: bool)
      requires FilesExist() && gateEngaged && suspended <= configured && !job.needsIntervention
      modifies this`gateEngaged, this`suspended, this`serving, job`running, job`done, job`err, job`needsIntervention, disk
      ensures FilesExist() && suspended <= configured && disk.faults >= old(disk.faults)
      ensures EngineSteps(Dbs(configured), old(disk.files), old(disk.history), disk.files, disk.history)
      ensures !ok ==> disk.faults > old(disk.faults) && (job.needsIntervention ==> disk.faults > old(disk.faults) + 1)
      ensures ok ==> suspended == old(suspended) + ({s} * configured)
      ensures ok ==> gateEngaged && job.running == old(job.running) && !job.needsIntervention
      ensures !ok ==> !gateEngaged && job.Ended(Some(PauseFailed), job.needsIntervention) && (!job.needsIntervention ==> Ready())
    {
      ok := true;
      ghost var f0, h0 := disk.files, disk.history;
      NoEngineStep(Dbs(configured), disk.files, disk.history);
      if s in configured {
        ok := Pause(s);
        DatabasesStay(f0, disk.files);
        if !ok {
          ghost var f1, h1 := disk.files, disk.history;
          Recover(PauseFailed);
          EngineStepsTwice(Dbs(configured), f0, h0, f1, h1, disk.files, disk.history);
        }
      }
    }

    method PauseStores() returns (ok: bool)
      requires FilesExist() && gateEngaged && suspended <= configured && !job.needsIntervention
      modifies this`gateEngaged, this`suspended, this`serving, job`running, job`done, job`err, job`needsIntervention, disk
      ensures FilesExist() && suspended <= configured && disk.faults >= old(disk.faults)
      ensures EngineSteps(Dbs(configured), old(disk.files), old(disk.history), disk.files, disk.history)
      ensures !ok ==> disk.faults > old(disk.faults) && (job.needsIntervention ==> disk.faults > old(disk.faults) + 1)
      ensures ok ==> suspended == configured
      ensures ok ==> gateEngaged && job.running == old(job.running) && !job.needsIntervention
      ensures !ok ==> !gateEngaged && job.Ended(Some(PauseFailed), job.needsIntervention) && (!job.needsIntervention ==> Ready())
    {
      hide EngineSteps, CleanWhenClosed, Dbs;
      ghost var dbs := Dbs(configured);
      ghost var f0, h0 := disk.files, disk.history;
      StoresAre(configured);
      ok := PauseOrRecover(Users);
      if !ok { return; }
      ghost var f1, h1 := disk.files, disk.history;
      ok := PauseOrRecover(ApiKeys);
      EngineStepsTwice(dbs, f0, h0, f1, h1, disk.files, disk.history);
      if !ok { return; }
      ghost var f2, h2 := disk.files, disk.history;
      ok := PauseOrRecover(Favorites);
      EngineStepsTwice(dbs, f0, h0, f2, h2, disk.files, disk.history);
      if !ok { return; }
      ghost var f3, h3 := disk.files, disk.history;
      ok := PauseOrRecover(UserSettings);
      EngineStepsTwice(dbs, f0, h0, f3, h3, disk.files, disk.history);
    }

    /** Removes the write-ahead log files of the databases that will be replaced, and of no other. */
    method RemoveStaleWalSidecars(run: nat) returns (ok: bool)
      requires disk.Valid()
      modifies disk
      ensures disk.Valid() && old(disk.history) <= disk.history
      ensures disk.faults >= old(disk.faults) && (!ok ==> disk.faults > old(disk.faults))
      ensures OnlySidecars(old(disk.files), disk.files) && OnlyStagedCleaned(run, old(disk.files), disk.files)
      ensures Shrinks(old(disk.files), disk.files)
      ensures ok ==> Cleaned(run, disk.files, |DB_NAMES|)
      ensures forall k :: |old(disk.history)| <= k < |disk.history| ==> OnlySidecars(old(disk.files), disk.history[k])
    {
      for i := 0 to |DB_NAMES|
        invariant OnlyStagedCleaned(run, old(disk.files), disk.files) && Cleaned(run, disk.files, i)
        invariant disk.Valid() && old(disk.history) <= disk.history && disk.faults >= old(disk.faults)
        invariant OnlySidecars(old(disk.files), disk.files)
        invariant Shrinks(old(disk.files), disk.files)
        invariant forall n: Name :: Staged(run, n) in disk.files <==> Staged(run, n) in old(disk.files)
        invariant forall k :: |old(disk.history)| <= k < |disk.history| ==> OnlySidecars(old(disk.files), disk.history[k])
      {
        var staged := disk.Exists(Staged(run, DB_NAMES[i]));
        if staged {
          ghost var start := disk.files;
          ok := RemoveSidecars(run, DB_NAMES[i]);
          CleanedStep(run, old(disk.files), start, disk.files, i);
          if !ok { return; }
        }
      }
      ok := true;
    }

    /** removeStaleWALSidecars for one database: both files are tried. */
    method RemoveSidecars(run: nat, n: Name) returns (ok: bool)
      requires disk.Valid() && Staged(run, n) in disk.files
      modifies disk
      ensures disk.Valid() && old(disk.history) <= disk.history
      ensures disk.faults >= old(disk.faults) && (!ok ==> disk.faults > old(disk.faults))
      ensures SameButSidecarsOf(old(disk.files), disk.files, n) && (ok ==> NoSidecars(disk.files, n))
      ensures Shrinks(old(disk.files), disk.files)
      ensures forall k :: |old(disk.history)| <= k < |disk.history| ==> SameButSidecarsOf(old(disk.files), disk.history[k], n)
    {
      var wal := disk.Remove(Sidecar(n, true));
      var shm := disk.Remove(Sidecar(n, false));
      ok := wal && shm;
    }

    /** extractAndValidate: `intact` is the verdict of the checks on the archive and on the staged databases. */
    method Extract(run: nat, snapshot: Snapshot, intact: bool) returns (ok: bool)
      requires disk.Valid() && forall n: Name :: Staged(run, n) !in disk.files
      modifies disk
      ensures disk.Valid() && old(disk.history) <= disk.history
      ensures SameButStaged(run, old(disk.files), disk.files)
      ensures forall k :: |old(disk.history)| <= k < |disk.history| ==> SameButStaged(run, old(disk.files), disk.history[k])
      ensures ok ==> intact && UsersDb in snapshot && StagedIs(run, snapshot, disk.files)
      ensures disk.faults >= old(disk.faults) && (!ok ==> disk.faults > old(disk.faults) || !intact || UsersDb !in snapshot)
      ensures !ok && disk.faults == old(disk.faults) ==> forall n: Name :: Staged(run, n) !in disk.files
    {
      if UsersDb !in snapshot {
        return false;
      }
      ok := true;
      var i := 0;
      while i < |SWAP_NAMES| && ok
        invariant 0 <= i <= |SWAP_NAMES|
        invariant disk.Valid() && old(disk.history) <= disk.history
        invariant SameButStaged(run, old(disk.files), disk.files)
        invariant forall k :: |old(disk.history)| <= k < |disk.history| ==> SameButStaged(run, old(disk.files), disk.history[k])
        invariant disk.faults >= old(disk.faults) && (!ok ==> disk.faults > old(disk.faults))
        invariant ok ==> forall j :: 0 <= j < i ==> StagedAs(run, snapshot, disk.files, SWAP_NAMES[j])
        invariant ok ==> forall j :: i <= j < |SWAP_NAMES| ==> Staged(run, SWAP_NAMES[j]) !in disk.files
      {
        if SWAP_NAMES[i] in snapshot {
          ok := disk.Create(Staged(run, SWAP_NAMES[i]), snapshot[SWAP_NAMES[i]]);
        }
        EveryNameIsListed(SWAP_NAMES[i]);
        i := i + 1;
      }
      if ok {
        StagedAll(run, snapshot, disk.files);
      }
      ok := ok && intact;
      if !ok {
        DropStaging(run);
      }
    }

    /** Removes the staging directory, as far as possible. */
    method DropStaging(run: nat)
      requires disk.Valid()
      modifies disk
      ensures disk.Valid() && old(disk.history) <= disk.history && disk.faults >= old(disk.faults)
      ensures SameButStaged(run, old(disk.files), disk.files)
      ensures forall k :: |old(disk.history)| <= k < |disk.history| ==> SameButStaged(run, old(disk.files), disk.history[k])
      ensures disk.steps == old(disk.steps)
      ensures disk.faults == old(disk.faults) ==> forall n: Name :: Staged(run, n) !in disk.files
    {
      for i := 0 to |SWAP_NAMES|
        invariant disk.steps == old(disk.steps)
        invariant disk.faults == old(disk.faults) ==> forall j :: 0 <= j < i ==> Staged(run, SWAP_NAMES[j]) !in disk.files
        invariant disk.Valid() && old(disk.history) <= disk.history && disk.faults >= old(disk.faults)
        invariant SameButStaged(run, old(disk.files), disk.files)
        invariant forall k :: |old(disk.history)| <= k < |disk.history| ==> SameButStaged(run, old(disk.files), disk.history[k])
      {
        ghost var start := disk.files;
        var _ := disk.RemoveAll(Staged(run, SWAP_NAMES[i]));
        forall p: Place | !(p.Staged? && p.run == run)
          ensures SameAt(old(disk.files), disk.files, p)
        {
          assert SameAt(start, disk.files, p);
        }
        assert forall j :: 0 <= j < i && SWAP_NAMES[j] != SWAP_NAMES[i] ==> SameAt(start, disk.files, Staged(run, SWAP_NAMES[j]));
      }
      forall n: Name | disk.faults == old(disk.faults)
        ensures Staged(run, n) !in disk.files
      {
        EveryNameIsListed(n);
      }
    }

    /** Closes the gate, pauses the stores, cleans up; up to here a failure leaves every item where it is. */
    method PrepareSwap(run: nat, ghost before: Tree, ghost first: nat) returns (ok: bool)
      requires job.running && !job.needsIntervention && Ready()
      requires SameItems(run, before, disk.files) && NothingLostBetween(run, before, disk.history, first, |disk.history|)
      modifies this`gateEngaged, this`suspended, this`serving, job`running, job`done, job`err, job`needsIntervention, job`phase, disk
      ensures disk.Valid() && old(disk.history) <= disk.history
      ensures SameItems(run, before, disk.files) && NothingLostBetween(run, before, disk.history, first, |disk.history|)
      ensures OnlySidecars(old(disk.files), disk.files) && LogsKept(old(disk.files), disk.files)
      ensures LogsOutside(Dbs(configured) + StagedDbs(run, old(disk.files)), old(disk.files), disk.files)
      ensures ok ==> FilesExist() && Cleaned(run, disk.files, |DB_NAMES|)
      ensures ok ==> gateEngaged && suspended == configured && !job.needsIntervention
      ensures !ok ==> Settled() && job.Ended(job.err, job.needsIntervention) && job.err.Some? && job.err.value in BEFORE_SWAP && !gateEngaged
      ensures disk.faults >= old(disk.faults)
      ensures !ok ==> disk.faults > old(disk.faults) && (job.needsIntervention ==> disk.faults > old(disk.faults) + 1)
      ensures job.phase == Swapping
    {
      ghost var f0, h0 := disk.files, disk.history;
      job.SetPhase(Swapping);
      // The wait for requests in flight may time out; the restore goes on regardless.
      gateEngaged := true;
      ok := PauseStores();
      ghost var f1, h1 := disk.files, disk.history;
      LogsAreSidecars(Dbs(configured), f0, f1);
      SidecarsKeepItems(run, before, f0, f1);
      SidecarsLoseNothing(run, before, f0, h0, h1, first);
      if !ok { return; }
      ok := RemoveStaleWalSidecars(run);
      ghost var f2, h2 := disk.files, disk.history;
      SidecarsKeepItems(run, before, f1, f2);
      SidecarsLoseNothing(run, before, f1, h1, h2, first);
      SidecarsKeepFiles(f1, f2, configured);
      RemovalKeepsLogs(f1, f2);
      SidecarsTwice(f0, f1, f2);
      if !ok {
        Recover(WalCleanupFailed);
        LogsAreSidecars(Dbs(configured), f2, disk.files);
        SidecarsKeepItems(run, before, f2, disk.files);
        SidecarsLoseNothing(run, before, f2, h2, disk.history, first);
        SidecarsTwice(f0, f2, disk.files);
        CleanupFrames(run, Dbs(configured), f0, f1, f2, disk.files);
      } else {
        SameHere(Dbs(configured), f2);
        CleanupFrames(run, Dbs(configured), f0, f1, f2, f2);
      }
    }

    // ----- The swap and its outcome -----

    /** Files are swapped only behind the closed gate and with every store paused. */
    method SwapFiles(sw: Swapper) returns (ok: bool)
      requires gateEngaged && suspended == configured && sw.disk == disk && sw.Valid() && sw.names == SWAP_NAMES
      requires forall i :: 0 <= i < |sw.items| ==> NotReached(sw.run, sw.was, disk.files, sw.items[i])
      modifies sw, disk
      ensures sw.Valid() && old(disk.history) <= disk.history && sw.SafeSince(|old(disk.history)|)
      ensures ok ==> AllNew(sw.run, sw.was, disk.files, SWAP_NAMES)
      ensures ok ==> forall i :: 0 <= i < |sw.items| ==> Passed(sw.run, sw.was, disk.files, sw.items[i])
      ensures UnstagedStay(sw.run, sw.was, disk.files, SWAP_NAMES) && Outside(sw.run, old(disk.files), disk.files)
      ensures disk.faults >= old(disk.faults) && (!ok ==> disk.faults > old(disk.faults))
    {
      ok := sw.SwapAll();
    }

    /** The pre-restore copies go only while the gate is still closed and every store serves the restored file. */
    method CommitFiles(sw: Swapper)
      requires gateEngaged && suspended == {} && forall s :: s in configured ==> Serves(s)
      requires sw.disk == disk && disk.Valid() && Named(sw.items, sw.names)
      modifies disk
      ensures disk.Valid() && old(disk.history) <= disk.history && disk.faults >= old(disk.faults)
      ensures SameButAside(sw.run, old(disk.files), disk.files)
      ensures forall k :: |old(disk.history)| <= k < |disk.history| ==> SameButAside(sw.run, old(disk.files), disk.history[k])
      ensures disk.steps == old(disk.steps) && forall n: Name :: Aside(sw.run, n) in disk.files ==> Aside(sw.run, n) in old(disk.files)
      ensures disk.faults == old(disk.faults) ==> forall i :: 0 <= i < |sw.items| && sw.items[i].swapped ==> Aside(sw.run, sw.items[i].name) !in disk.files
    {
      sw.CommitAll();
    }

    /** Every store opens its restored file again. */
    method ReopenStores(ghost names: set<Name>) returns (ok: bool)
      requires FilesExist() && suspended <= configured && ClosedClean(names)
      modifies this`suspended, this`serving, job`phase, disk
      ensures FilesExist() && suspended <= configured && ClosedClean(names)
      ensures EngineSteps(Dbs(configured), old(disk.files), old(disk.history), disk.files, disk.history)
      ensures disk.faults >= old(disk.faults) && (!ok ==> disk.faults > old(disk.faults))
      ensures ok ==> suspended == {} && forall s :: s in configured ==> Serves(s)
      ensures job.phase in if Users in configured then {ReopeningAuth, InvalidatingSessions} else {old(job.phase)}
      ensures ok && Users in configured ==>
                TriedBeside("sessions invalidated", false, old(disk.files)) && TriedBeside("author labels reloaded", false, old(disk.files))
    {
      hide EngineSteps, CleanWhenClosed, Dbs, OnlySidecars, Serves, TriedBeside;
      ghost var dbs := Dbs(configured);
      ghost var f0, h0 := disk.files, disk.history;
      ok := ReopenUsers(names);
      if !ok { return; }
      ghost var f1, h1, reopened := disk.files, disk.history, disk.steps;
      StepsBeside(dbs, f0, h0, f1, h1);
      ok := ReopenOthers(names);
      EngineStepsTwice(dbs, f0, h0, f1, h1, disk.files, disk.history);
      if !ok { return; }
      StoresAre(configured);
      StoresAre(suspended);
      if Users in configured {
        TriedEarlier(reopened, f0, f1);
      }
    }

    /** Everything between the swap and its commit; no item is touched. None means that every phase succeeded. */
    method ReopenAfterSwap(ghost names: set<Name>) returns (failure: Option<Cause>)
      requires FilesExist() && suspended <= configured && ClosedClean(names)
      modifies this`suspended, this`serving, job`phase, disk
      ensures FilesExist() && suspended <= configured && ClosedClean(names)
      ensures EngineSteps(Dbs(configured), old(disk.files), old(disk.history), disk.files, disk.history)
      ensures disk.faults >= old(disk.faults) && (failure.Some? ==> disk.faults > old(disk.faults) && failure.value !in BEFORE_SWAP)
      ensures failure == None ==> suspended == {} && forall s :: s in configured ==> Serves(s)
      ensures failure == None ==> TriedBeside("branding reloaded", true, old(disk.files)) && TriedBeside("public access reloaded", true, old(disk.files))
      ensures failure == None && Users in configured ==>
                TriedBeside("sessions invalidated", false, old(disk.files)) && TriedBeside("author labels reloaded", false, old(disk.files))
      ensures failure == None || failure.value in {BrandingFailed, PublicAccessFailed} ==> job.phase == ReloadingBranding
      ensures failure == Some(ReopenFailed) ==> job.phase in if Users in configured then {ReopeningAuth, InvalidatingSessions} else {old(job.phase)}
      ensures failure.Some? ==> failure.value in {ReopenFailed, BrandingFailed, PublicAccessFailed}
    {
      hide EngineSteps, CleanWhenClosed, Dbs, OnlySidecars, Serves;
      ghost var dbs := Dbs(configured);
      ghost var f0, h0 := disk.files, disk.history;
      var reopened := ReopenStores(names);
      if !reopened { return Some(ReopenFailed); }
      StepsBeside(dbs, f0, h0, disk.files, disk.history);
      ghost var before := disk.steps;
      failure := ReloadCaches();
      if failure == None {
        CachesTried(f0);
        if Users in configured {
          StaysTried("sessions invalidated", before, f0);
          StaysTried("author labels reloaded", before, f0);
        }
      }
    }

    /** A step that was tried stays tried. */
    lemma StaysTried(name: string, before: seq<Step<Place>>, a: Tree)
      requires before <= disk.steps
      requires exists i :: 0 <= i < |before| && before[i].name == name && OnlySidecars(a, before[i].files)
      ensures TriedBeside(name, false, a)
    {
      hide OnlySidecars;
      var i :| 0 <= i < |before| && before[i].name == name && OnlySidecars(a, before[i].files);
      assert disk.steps[i] == before[i];
    }

    lemma StepsBeside(dbs: set<Name>, a: Tree, earlier: seq<Tree>, b: Tree, history: seq<Tree>)
      requires EngineSteps(dbs, a, earlier, b, history)
      ensures OnlySidecars(a, b)
    {
      LogsAreSidecars(dbs, a, b);
    }

    lemma CachesTried(a: Tree)
      requires LastTried("branding reloaded", "public access reloaded", true) && OnlySidecars(a, disk.files)
      ensures TriedBeside("branding reloaded", true, a) && TriedBeside("public access reloaded", true, a)
    {
      hide OnlySidecars;
      var n := |disk.steps| - 2;
      assert disk.steps[n].name == "branding reloaded" && disk.steps[n + 1].name == "public access reloaded";
    }

    lemma TriedEarlier(earlier: seq<Step<Place>>, a: Tree, b: Tree)
      requires earlier <= disk.steps && |earlier| >= 2 && OnlySidecars(a, b)
      requires earlier[|earlier| - 2].name == "sessions invalidated" && earlier[|earlier| - 1].name == "author labels reloaded"
      requires earlier[|earlier| - 2].files == b && earlier[|earlier| - 1].files == b
      ensures TriedBeside("sessions invalidated", false, a) && TriedBeside("author labels reloaded", false, a)
    {
      hide OnlySidecars;
      assert disk.steps[|earlier| - 2] == earlier[|earlier| - 2] && disk.steps[|earlier| - 1] == earlier[|earlier| - 1];
    }

    /** The other stores, until one fails. */
    method ReopenOthers(ghost names: set<Name>) returns (ok: bool)
      requires FilesExist()
      modifies this`suspended, this`serving, disk
      ensures FilesExist() && disk.faults >= old(disk.faults) && (!ok ==> disk.faults > old(disk.faults))
      ensures EngineSteps(Dbs(configured), old(disk.files), old(disk.history), disk.files, disk.history)
      ensures suspended <= old(suspended) && (old(ClosedClean(names)) ==> ClosedClean(names))
      ensures forall t :: t in configured && old(Serves(t)) ==> Serves(t)
      ensures ok ==> forall t :: t in configured * {ApiKeys, Favorites, UserSettings} ==> t !in suspended && Serves(t)
      ensures old(disk.steps) <= disk.steps
    {
      hide EngineSteps, CleanWhenClosed, Dbs;
      ghost var dbs := Dbs(configured);
      ghost var f0, h0 := disk.files, disk.history;
      ok := ReplaceIfConfigured(ApiKeys, names);
      if !ok { return; }
      ghost var f1, h1 := disk.files, disk.history;
      ok := ReplaceIfConfigured(Favorites, names);
      EngineStepsTwice(dbs, f0, h0, f1, h1, disk.files, disk.history);
      if !ok { return; }
      ghost var f2, h2 := disk.files, disk.history;
      ok := ReplaceIfConfigured(UserSettings, names);
      EngineStepsTwice(dbs, f0, h0, f2, h2, disk.files, disk.history);
    }

    /** The last two steps had these names and saw the files as they are now; `succeeded` tells whether they had to succeed. */
    ghost predicate LastTried(first: string, second: string, succeeded: bool)
      reads disk
    {
      var n := |disk.steps|;
      && n >= 2 && disk.steps[n - 2].name == first && disk.steps[n - 1].name == second
      && disk.steps[n - 2].files == disk.files && disk.steps[n - 1].files == disk.files
      && (succeeded ==> disk.steps[n - 2].ok && disk.steps[n - 1].ok)
    }

    ghost predicate TriedBeside(name: string, succeeded: bool, a: Tree)
      reads disk`steps
    {
      exists i :: 0 <= i < |disk.steps| && disk.steps[i].name == name && (succeeded ==> disk.steps[i].ok) && OnlySidecars(a, disk.steps[i].files)
    }

    /** Such a step was tried when everything of the snapshot was in place. */
    ghost predicate TriedOn(name: string, succeeded: bool, snapshot: Snapshot, before: Tree)
      reads disk`steps
    {
      exists i :: 0 <= i < |disk.steps| && disk.steps[i].name == name && (succeeded ==> disk.steps[i].ok) && AllRestored(snapshot, before, disk.steps[i].files)
    }

    /** Everything that reads from the restored files has been told to read them again. */
    ghost predicate ReadAgain(snapshot: Snapshot, before: Tree)
      reads disk`steps
    {
      && TriedOn("branding reloaded", true, snapshot, before) && TriedOn("public access reloaded", true, snapshot, before)
      && (Users in configured ==> TriedOn("sessions invalidated", false, snapshot, before) && TriedOn("author labels reloaded", false, snapshot, before))
    }

    /** The user store, then the sessions and the author labels; failing at the latter two is only logged. */
    method ReopenUsers(ghost names: set<Name>) returns (ok: bool)
      requires FilesExist()
      modifies this`suspended, this`serving, job`phase, disk
      ensures FilesExist() && disk.faults >= old(disk.faults) && (!ok ==> disk.faults > old(disk.faults))
      ensures EngineSteps(Dbs(configured), old(disk.files), old(disk.history), disk.files, disk.history)
      ensures suspended <= old(suspended) && (old(ClosedClean(names)) ==> ClosedClean(names))
      ensures forall t :: t in configured && old(Serves(t)) ==> Serves(t)
      ensures ok && Users in configured ==> Users !in suspended && Serves(Users)
      ensures old(disk.steps) <= disk.steps && (ok && Users in configured ==> LastTried("sessions invalidated", "author labels reloaded", false))
      ensures Users !in configured ==> ok && disk.steps == old(disk.steps) && disk.files == old(disk.files)
      ensures job.phase == if Users !in configured then old(job.phase) else if ok then InvalidatingSessions else ReopeningAuth
    {
      ok := true;
      NoEngineStep(Dbs(configured), disk.files, disk.history);
      if Users in configured {
        job.SetPhase(ReopeningAuth);
        ok := ReplaceIfConfigured(Users, names);
        if !ok { return; }
        job.SetPhase(InvalidatingSessions);
        var _ := disk.Attempt("sessions invalidated");
        var _ := disk.Attempt("author labels reloaded");
      }
    }

    /** The branding and the public-access flag, both read from the swapped files. */
    method ReloadCaches() returns (failure: Option<Cause>)
      modifies job`phase, disk`faults, disk`steps
      ensures disk.faults >= old(disk.faults) && old(disk.steps) <= disk.steps && job.phase == ReloadingBranding
      ensures failure.Some? ==> disk.faults > old(disk.faults) && failure.value in {BrandingFailed, PublicAccessFailed}
      ensures failure == None ==> LastTried("branding reloaded", "public access reloaded", true)
    {
      job.SetPhase(ReloadingBranding);
      var branding := disk.Attempt("branding reloaded");
      if !branding { return Some(BrandingFailed); }
      var publicAccess := disk.Attempt("public access reloaded");
      if !publicAccess { return Some(PublicAccessFailed); }
      failure := None;
    }

    /** A job has ended: the instance works, or it asks for intervention. */
    ghost predicate Settled()
      reads this, disk, job
    {
      !job.running && disk.Valid() && (job.needsIntervention || Ready())
    }

    /** The swap and all that follows it. `commitAt` is the number of the state in which the restore was committed. */
    method SwapAndCommit(run: nat, snapshot: Snapshot, ghost before: Tree, ghost first: nat) returns (ghost commitAt: nat)
      requires gateEngaged && suspended == configured && !job.needsIntervention && FilesExist()
      requires SameItems(run, before, disk.files) && NothingLostBetween(run, before, disk.history, first, |disk.history|)
      requires StagedIs(run, snapshot, disk.files) && Cleaned(run, disk.files, |DB_NAMES|)
      requires forall n: Name :: Aside(run, n) !in disk.files
      modifies this`gateEngaged, this`suspended, this`serving, job`running, job`done, job`err, job`needsIntervention, job`phase, disk
      ensures disk.Valid() && old(disk.history) <= disk.history
      ensures Settled() && job.done && (job.needsIntervention <==> gateEngaged)
      ensures job.err == None ==> !job.needsIntervention && AllRestored(snapshot, before, disk.files)
      ensures job.err.Some? ==> job.err.value !in BEFORE_SWAP
      ensures job.err.Some? && !job.needsIntervention ==> Original(before, disk.files)
      ensures NothingLostBetween(run, before, disk.history, first, commitAt) && RestoredSince(snapshot, before, disk.history, commitAt)
      ensures job.err.Some? ==> commitAt == |disk.history| && NothingLost(run, before, disk.files)
      ensures OtherRuns(run, old(disk.files), disk.files) && LogsOutside(Dbs(configured), old(disk.files), disk.files)
      ensures job.err == None ==> LogsKept(old(disk.files), disk.files) && StagedLogsMatch(snapshot, disk.files)
      ensures job.err.Some? && !job.needsIntervention ==> LogsKept(old(disk.files), disk.files) || disk.faults > old(disk.faults) + 1
      ensures disk.faults >= old(disk.faults)
      ensures job.err.Some? ==> disk.faults > old(disk.faults) && (job.needsIntervention ==> disk.faults > old(disk.faults) + 1)
      ensures job.err == None ==> ReadAgain(snapshot, before) && job.phase == ReloadingBranding
      ensures job.err == None && disk.faults == old(disk.faults) ==> forall n: Name :: Aside(run, n) !in disk.files
      ensures job.err.Some? ==> job.err.value in {SwapFailed, ReopenFailed, BrandingFailed, PublicAccessFailed}
      ensures job.err == Some(SwapFailed) ==> job.phase == old(job.phase)
      ensures job.err.Some? && job.err.value in {BrandingFailed, PublicAccessFailed} ==> job.phase == ReloadingBranding
      ensures job.err == Some(ReopenFailed) ==> job.phase in if Users in configured then {ReopeningAuth, InvalidatingSessions} else {old(job.phase)}
    {
      hide NothingLostBetween, RestoredSince, NothingLost, AllRestored, Original, SameItems, StagedIs, Cleaned, LogsMatch, Dbs, ReadAgain, TriedBeside;
      hide LogsOutside, OtherRuns, CleanWhenClosed, StagedDbs, AllConserved, AllKept, NotReached, Passed, Outside, UnstagedStay, AllNew, SameButAside;
      var sw := new Swapper(disk, run, SWAP_NAMES);
      ghost var f0, h0 := disk.files, disk.history;
      CleanedIsClean(run, f0);
      var swapped := SwapFiles(sw);
      ghost var f1, h1 := disk.files, disk.history;
      SwapLosesNothing(run, before, f0, h0, h1, first);
      SwapKeepsLogs(run, f0, f1);
      SuspendedIsClean(StagedDbs(run, f0));
      var failure := Some(SwapFailed);
      NoEngineStep(Dbs(configured), f1, h1);
      if swapped {
        SwappedIsRestored(run, snapshot, before, f0, f1);
        NewFilesExist(run, f0, f1, configured);
        failure := ReopenAfterSwap(StagedDbs(run, f0));
      }
      ghost var f2, h2 := disk.files, disk.history;
      LogsAreSidecars(Dbs(configured), f1, f2);
      if failure.Some? {
        commitAt := RollBack(sw, failure.value, before, first, f1, h1);
        NothingSince(snapshot, before, disk.history);
        SwapFrames(run, Dbs(configured), f0, f1, f2, disk.files);
      } else {
        commitAt := |h1|;
        AllReadAgain(snapshot, before, f1);
        Commit(sw, snapshot, before, f1, h1);
        NothingLostGrows(run, before, h1, disk.history, first, |h1|);
        CommitFrames(run, Dbs(configured), f2, disk.files);
        SwapFrames(run, Dbs(configured), f0, f1, f2, disk.files);
        StagedMatch(run, snapshot, f0, disk.files);
      }
    }

    /** What was read beside the restored files was read on them. */
    lemma BesideIsOn(name: string, succeeded: bool, snapshot: Snapshot, before: Tree, a: Tree)
      requires TriedBeside(name, succeeded, a) && AllRestored(snapshot, before, a)
      ensures TriedOn(name, succeeded, snapshot, before)
    {
      hide OnlySidecars, AllRestored;
      var i :| 0 <= i < |disk.steps| && disk.steps[i].name == name && (succeeded ==> disk.steps[i].ok) && OnlySidecars(a, disk.steps[i].files);
      SidecarsKeepRestored(snapshot, before, a, disk.steps[i].files);
    }

    lemma SidecarsKeepRestored(snapshot: Snapshot, before: Tree, a: Tree, b: Tree)
      requires AllRestored(snapshot, before, a) && OnlySidecars(a, b)
      ensures AllRestored(snapshot, before, b)
    {
      SameButAsideRestored(snapshot, before, a, b);
    }

    lemma AllReadAgain(snapshot: Snapshot, before: Tree, a: Tree)
      requires AllRestored(snapshot, before, a)
      requires TriedBeside("branding reloaded", true, a) && TriedBeside("public access reloaded", true, a)
      requires Users in configured ==> TriedBeside("sessions invalidated", false, a) && TriedBeside("author labels reloaded", false, a)
      ensures ReadAgain(snapshot, before)
    {
      hide TriedOn, TriedBeside, AllRestored;
      BesideIsOn("branding reloaded", true, snapshot, before, a);
      BesideIsOn("public access reloaded", true, snapshot, before, a);
      if Users in configured {
        BesideIsOn("sessions invalidated", false, snapshot, before, a);
        BesideIsOn("author labels reloaded", false, snapshot, before, a);
      }
    }

    lemma SuspendedIsClean(names: set<Name>)
      requires suspended == configured && CleanWhenClosed(disk.files, names, {})
      ensures ClosedClean(names)
    {
      assert configured - suspended == {};
      assert Dbs({}) == {};
    }

    /** The failing end of a swap. Since state number |h1| only logs have changed in the swapped tree `f1`. */
    method RollBack(sw: Swapper, cause: Cause, ghost before: Tree, ghost first: nat, ghost f1: Tree, ghost h1: seq<Tree>) returns (ghost commitAt: nat)
      requires sw.disk == disk && disk.Valid() && sw.names == SWAP_NAMES && Named(sw.items, SWAP_NAMES)
      requires AllKept(sw.run, sw.was, f1, sw.items) && UnstagedStay(sw.run, sw.was, f1, SWAP_NAMES)
      requires OnlySidecars(f1, disk.files) && h1 <= disk.history && forall k :: |h1| <= k < |disk.history| ==> OnlySidecars(f1, disk.history[k])
      requires SameItems(sw.run, before, sw.was) && NothingLostBetween(sw.run, before, h1, first, |h1|)
      requires forall s :: s in configured ==> Live(DbOf(s)) in sw.was
      requires ClosedClean(StagedDbs(sw.run, sw.was))
      requires gateEngaged && suspended <= configured && !job.needsIntervention
      modifies this`gateEngaged, this`suspended, this`serving, job`running, job`done, job`err, job`needsIntervention, sw, disk
      ensures disk.Valid() && old(disk.history) <= disk.history && commitAt == |disk.history|
      ensures Settled() && job.Ended(Some(cause), job.needsIntervention) && (job.needsIntervention <==> gateEngaged)
      ensures !job.needsIntervention ==> Original(before, disk.files)
      ensures !job.needsIntervention ==> LogsKept(old(disk.files), disk.files) || disk.faults > old(disk.faults)
      ensures NothingLostBetween(sw.run, before, disk.history, first, commitAt) && NothingLost(sw.run, before, disk.files)
      ensures OtherRuns(sw.run, old(disk.files), disk.files) && LogsOutside(Dbs(configured), old(disk.files), disk.files)
      ensures disk.faults >= old(disk.faults) && (job.needsIntervention ==> disk.faults > old(disk.faults))
    {
      LogsKeepSwap(sw.run, sw.was, f1, disk.files, disk.history, |h1|, sw.items);
      SwapLosesNothing(sw.run, before, sw.was, h1, disk.history, first);
      UnstagedThroughLogs(sw.run, sw.was, f1, disk.files);
      ghost var h2 := disk.history;
      RollbackOrIntervene(sw, cause);
      SwapLosesNothing(sw.run, before, sw.was, h2, disk.history, first);
      KeptLosesNothing(sw.run, before, sw.was, disk.files, sw.items);
      if !job.needsIntervention {
        RolledBackIsOriginal(sw.run, before, sw.was, disk.files);
      }
      commitAt := |disk.history|;
    }

    /** Only swapped items have left a copy. */
    lemma AsideIsGone(run: nat, was: Tree, items: seq<Item>, f1: Tree, f2: Tree, now: Tree)
      requires Named(items, SWAP_NAMES) && OnlySidecars(f1, f2) && forall i :: 0 <= i < |items| ==> Passed(run, was, f1, items[i])
      requires forall n: Name :: Aside(run, n) in now ==> Aside(run, n) in f2
      ensures (forall i :: 0 <= i < |items| && items[i].swapped ==> Aside(run, items[i].name) !in now) ==> forall n: Name :: Aside(run, n) !in now
    {
      if forall i :: 0 <= i < |items| && items[i].swapped ==> Aside(run, items[i].name) !in now {
        forall n: Name
          ensures Aside(run, n) !in now
        {
          EveryNameIsListed(n);
          var i :| 0 <= i < |SWAP_NAMES| && SWAP_NAMES[i] == n;
          assert items[i].name == n && Passed(run, was, f1, items[i]);
          assert SameAt(f1, f2, Aside(run, n));
        }
      }
    }

    /** The successful end: the pre-restore copies go, and the gate opens. */
    method Commit(sw: Swapper, snapshot: Snapshot, ghost before: Tree, ghost f1: Tree, ghost h1: seq<Tree>)
      requires sw.disk == disk && disk.Valid() && Named(sw.items, sw.names) && AllRestored(snapshot, before, f1)
      requires OnlySidecars(f1, disk.files) && h1 <= disk.history && forall k :: |h1| <= k < |disk.history| ==> OnlySidecars(f1, disk.history[k])
      requires gateEngaged && suspended == {} && !job.needsIntervention && forall s :: s in configured ==> Serves(s)
      requires sw.names == SWAP_NAMES && forall i :: 0 <= i < |sw.items| ==> Passed(sw.run, sw.was, f1, sw.items[i])
      modifies this`gateEngaged, job`running, job`done, job`err, job`needsIntervention, disk
      ensures disk.Valid() && old(disk.history) <= disk.history && disk.faults >= old(disk.faults)
      ensures Settled() && job.Ended(None, false) && !gateEngaged
      ensures AllRestored(snapshot, before, disk.files) && RestoredSince(snapshot, before, disk.history, |h1|)
      ensures SameButAside(sw.run, old(disk.files), disk.files)
      ensures disk.steps == old(disk.steps) && (disk.faults == old(disk.faults) ==> forall n: Name :: Aside(sw.run, n) !in disk.files)
    {
      ghost var f2, h2 := disk.files, disk.history;
      CommitFiles(sw);
      AsideIsGone(sw.run, sw.was, sw.items, f1, f2, disk.files);
      CommitIsRestored(sw.run, snapshot, before, f1, h1, f2, h2, disk.history);
      SameButAsideRestored(snapshot, before, f2, disk.files);
      forall s | s in configured
        ensures Serves(s)
      {
        assert SameAt(f2, disk.files, Live(DbOf(s)));
      }
      gateEngaged := false;
      job.Finish(None);
    }

    /**
     Main result, for every way the phases can fail: a job that ends without asking for intervention leaves the instance
     working, the gate open and every store serving what is on disk, with every item restored (success) or exactly as it
     was (failure). At no moment before the commit is an original lost, and at every moment from the commit on all items
     are the restored ones. A valid archive is refused only if something failed, and a single failure never makes the job
     ask for intervention. A job that asks for it keeps the gate closed, unless it failed before any item was touched.

     No log of an old database is beside its replacement after success; after a failure one can be beside an original
     only if more than the failing phase has failed. Logs of databases that neither a store nor the snapshot holds stay.
     */
    method RunFromZipPath(archive: Archive) returns (ghost commitAt: nat)
      requires job.running && !job.needsIntervention && Ready() && Unused(disk.files, runs)
      modifies this`gateEngaged, this`suspended, this`serving, this`runs, job, disk
      ensures AtRest() && job.done && (gateEngaged ==> job.needsIntervention)
      ensures job.needsIntervention ==> job.err.Some? && (gateEngaged <==> job.err.value !in BEFORE_SWAP)
      ensures job.err == None ==> !job.needsIntervention && AllRestored(archive.entries, old(disk.files), disk.files)
      ensures job.err.Some? && !job.needsIntervention ==> Original(old(disk.files), disk.files)
      ensures disk.Valid() && old(disk.history) <= disk.history
      ensures NothingLostBetween(old(runs), old(disk.files), disk.history, |old(disk.history)|, commitAt)
      ensures RestoredSince(archive.entries, old(disk.files), disk.history, commitAt)
      ensures job.err.Some? ==> commitAt == |disk.history|
      ensures job.err.Some? ==> disk.faults > old(disk.faults) || !archive.intact || UsersDb !in archive.entries
      ensures job.needsIntervention ==> disk.faults > old(disk.faults) + 1
      ensures job.err == None ==> LogsKept(old(disk.files), disk.files) && StagedLogsMatch(archive.entries, disk.files)
      ensures job.err.Some? && !job.needsIntervention ==> LogsKept(old(disk.files), disk.files) || disk.faults > old(disk.faults) + 1
      ensures LogsOutside(Dbs(configured) + archive.entries.Keys, old(disk.files), disk.files)
      ensures job.err == None ==> ReadAgain(archive.entries, old(disk.files)) && job.phase == ReloadingBranding
      ensures disk.faults == old(disk.faults) ==> Unused(disk.files, old(runs))
      ensures job.versionWarning <==> old(job.versionWarning) || (job.err != Some(ValidationFailed) && !archive.sameVersion)
      ensures job.err.Some? ==> job.err.value in {ValidationFailed, PauseFailed, WalCleanupFailed, SwapFailed, ReopenFailed, BrandingFailed, PublicAccessFailed}
      ensures job.err == Some(ValidationFailed) ==> job.phase == Validating
      ensures job.err.Some? && job.err.value in {PauseFailed, WalCleanupFailed, SwapFailed} ==> job.phase == Swapping
      ensures job.err.Some? && job.err.value in {BrandingFailed, PublicAccessFailed} ==> job.phase == ReloadingBranding
      ensures job.err == Some(ReopenFailed) ==> job.phase in if Users in configured then {ReopeningAuth, InvalidatingSessions} else {Swapping}
    {
      ghost var before, first := disk.files, |disk.history|;
      var run := runs;
      runs := runs + 1;
      AtTheStart(run, before, disk.history);
      job.SetPhase(Validating);
      var extracted := Extract(run, archive.entries, archive.intact);
      commitAt := |disk.history|;
      StagingLosesNothing(run, before, before, old(disk.history), disk.history, first);
      SidecarsKeepItems(run, before, before, disk.files);
      StagingKeepsFiles(run, before, disk.files, configured);
      StagingKeepsOriginal(run, before, before, disk.files);
      StagingFrames(run, Dbs(configured) + archive.entries.Keys, before, disk.files);
      NextIsUnused(run, before, disk.files);
      if !extracted {
        job.Finish(Some(ValidationFailed));
        return;
      }
      if !archive.sameVersion {
        job.SetVersionWarning();
      }
      commitAt := RunStaged(run, archive.entries, before, first);
    }

    lemma NothingIsLeft(run: nat, done: Tree, last: Tree)
      requires SameButStaged(run, done, last) && Unused(last, run + 1)
      ensures (forall n: Name :: Aside(run, n) !in done) && (forall n: Name :: Staged(run, n) !in last) ==> Unused(last, run)
    {
      assert forall n: Name :: SameAt(done, last, Aside(run, n));
    }

    /** The phases behind the validation, and the end of the job. */
    method RunStaged(run: nat, snapshot: Snapshot, ghost before: Tree, ghost first: nat) returns (ghost commitAt: nat)
      requires job.running && !job.needsIntervention && Ready() && runs == run + 1 && Unused(before, run)
      requires SameButStaged(run, before, disk.files) && StagedIs(run, snapshot, disk.files) && SameItems(run, before, disk.files)
      requires NothingLostBetween(run, before, disk.history, first, |disk.history|)
      modifies this`gateEngaged, this`suspended, this`serving, job`running, job`done, job`err, job`needsIntervention, job`phase, disk
      ensures AtRest() && job.done && (gateEngaged ==> job.needsIntervention)
      ensures job.needsIntervention ==> job.err.Some? && (gateEngaged <==> job.err.value !in BEFORE_SWAP)
      ensures job.err == None ==> !job.needsIntervention && AllRestored(snapshot, before, disk.files)
      ensures job.err.Some? && !job.needsIntervention ==> Original(before, disk.files)
      ensures disk.Valid() && old(disk.history) <= disk.history
      ensures NothingLostBetween(run, before, disk.history, first, commitAt)
      ensures RestoredSince(snapshot, before, disk.history, commitAt)
      ensures job.err.Some? ==> commitAt == |disk.history| && disk.faults > old(disk.faults)
      ensures disk.faults >= old(disk.faults) && (job.needsIntervention ==> disk.faults > old(disk.faults) + 1)
      ensures job.err == None ==> LogsKept(before, disk.files) && StagedLogsMatch(snapshot, disk.files)
      ensures job.err.Some? && !job.needsIntervention ==> LogsKept(before, disk.files) || disk.faults > old(disk.faults) + 1
      ensures LogsOutside(Dbs(configured) + snapshot.Keys, before, disk.files)
      ensures job.err == None ==> ReadAgain(snapshot, before) && job.phase == ReloadingBranding
      ensures job.err == None && disk.faults == old(disk.faults) ==> Unused(disk.files, run)
      ensures job.err.Some? && (exists n: Name :: Staged(run, n) in disk.files) ==> disk.faults > old(disk.faults) + 1
      ensures job.err.Some? ==> job.err.value in {PauseFailed, WalCleanupFailed, SwapFailed, ReopenFailed, BrandingFailed, PublicAccessFailed}
      ensures job.err.Some? && job.err.value in {PauseFailed, WalCleanupFailed, SwapFailed} ==> job.phase == Swapping
      ensures job.err.Some? && job.err.value in {BrandingFailed, PublicAccessFailed} ==> job.phase == ReloadingBranding
      ensures job.err == Some(ReopenFailed) ==> job.phase in if Users in configured then {ReopeningAuth, InvalidatingSessions} else {Swapping}
    {
      hide NothingLostBetween, RestoredSince, LogsOutside, AllRestored, Original, SameItems, StagedIs, Unused, LogsMatch;
      hide SameButStaged, OnlySidecars, OtherRuns, Cleaned, NothingLost, StagedDbs, Dbs, LogsKept, StagedLogsMatch, TriedOn;
      ghost var staged := disk.files;
      var prepared := PrepareSwap(run, before, first);
      ghost var cleaned := disk.files;
      commitAt := |disk.history|;
      AtTheStart(run, before, disk.history);
      SidecarsKeepStaged(run, snapshot, before, staged, cleaned);
      if prepared {
        commitAt := SwapAndCommit(run, snapshot, before, first);
      } else {
        UntouchedItems(run, before, cleaned);
      }
      ghost var done, earlier := disk.files, disk.history;
      DropStaging(run);
      FramesAtTheEnd(run, snapshot, configured, before, staged, cleaned, done, disk.files);
      LogsAtTheEnd(run, snapshot, before, staged, cleaned, done, disk.files);
      StagingKeepsFiles(run, done, disk.files, configured);
      NothingIsLeft(run, done, disk.files);
      if job.err == None {
        NothingLostGrows(run, before, earlier, disk.history, first, commitAt);
        StagingKeepsRestored(run, snapshot, before, done, earlier, disk.history, commitAt);
        SameButAsideRestored(snapshot, before, done, disk.files);
      } else {
        StagingLosesNothing(run, before, done, earlier, disk.history, first);
        StagingKeepsOriginal(run, before, done, disk.files);
        commitAt := |disk.history|;
        NothingSince(snapshot, before, disk.history);
      }
    }

    /**
     TriggerRestore, its check and its start taken as one step, and the job it runs: an instance that asks for
     intervention starts no further restore, and a job in progress is not disturbed. Whatever earlier restores have left
     behind, the next one can be triggered.
     */
    method TriggerRestore(archive: Option<Archive>) returns (result: TriggerResult)
      requires job.running || AtRest()
      modifies this`gateEngaged, this`suspended, this`serving, this`runs, job, disk
      ensures result == NeedsIntervention <==> old(job.needsIntervention)
      ensures result == AlreadyRunning <==> !old(job.needsIntervention) && old(job.running)
      ensures result != Ran ==> unchanged(this) && unchanged(job) && unchanged(disk)
      ensures result == Ran ==> AtRest() && job.done && (gateEngaged ==> job.needsIntervention)
      ensures result == Ran && job.needsIntervention ==> job.err.Some? && (gateEngaged <==> job.err.value !in BEFORE_SWAP)
      ensures result == Ran && job.err == None ==> archive.Some? && !job.needsIntervention
      ensures result == Ran && !job.needsIntervention ==>
                Triggered(old(disk.files), if job.err == None then Some(archive.value.entries) else None, disk.files)
      ensures result == Ran && job.err.Some? && archive.Some? ==>
                disk.faults > old(disk.faults) || !archive.value.intact || UsersDb !in archive.value.entries
      ensures result == Ran && archive == None ==> job.err == Some(SnapshotMissing)
      ensures result == Ran ==> (job.versionWarning <==> archive.Some? && job.err != Some(ValidationFailed) && !archive.value.sameVersion)
      ensures result == Ran && job.err == None ==> ReadAgain(archive.value.entries, old(disk.files))
    {
      if job.needsIntervention {
        return NeedsIntervention;
      }
      var started := job.Start();
      if !started {
        return AlreadyRunning;
      }
      if archive == None {
        job.SetPhase(Validating);
        job.Finish(Some(SnapshotMissing));
      } else {
        var _ := RunFromZipPath(archive.value);
      }
      result := Ran;
    }
  }
}
