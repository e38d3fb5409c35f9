/**
 The resumable import: the executor (backend/internal/importer/executor.go), the persisted plan it reports to
 (plan_store.go), and the service that runs and resumes it (importer_service.go).

 The process may stop at any point; the next one starts from the state file. `history` records every content the file had, for the proofs alone.
 */
module ImportExecution {
  import opened Wrappers

  /** "" is Go's empty string: no hash recorded. */
  type Hash = string

  datatype PlanAction = CreatePage | UpdatePage | SkipPage

  datatype PlanItem = PlanItem(source: string, target: string, action: PlanAction)

  datatype Plan = Plan(id: string, items: seq<PlanItem>, treeHash: Hash)

  datatype Outcome = Created | Updated | Skipped

  datatype Entry = Entry(source: string, target: string, outcome: Outcome, failed: bool)

  datatype ImportResult = ImportResult(imported: nat, updated: nat, skipped: nat, items: seq<Entry>, treeHash: Hash, treeHashBefore: Hash)

  datatype Status = Planned | Running | Completed | Failed | Canceled

  datatype StoredPlan = StoredPlan(plan: Plan, status: Status, cancelRequested: bool, result: Option<ImportResult>,
                                   error: bool, processed: nat, total: nat, current: Option<string>)

  datatype ExecutionError = NoError | ResumeStateMissing | PlanIsStale | ImportCanceled

  // ----- What a recorded result says -----

  /** The entry is about this item, and says of it what happened. */
  predicate Describes(e: Entry, item: PlanItem) {
    && e.source == item.source && e.target == item.target
    && match item.action
       case CreatePage => (e.outcome == Created && !e.failed) || (e.outcome == Skipped && e.failed)
       case SkipPage => e.outcome == Skipped && !e.failed
       case UpdatePage => e.outcome == Skipped && e.failed
  }

  function Count(entries: seq<Entry>, outcome: Outcome): nat {
    if entries == [] then 0 else Count(entries[..|entries| - 1], outcome) + if entries[|entries| - 1].outcome == outcome then 1 else 0
  }

  /** The result has one entry for each of the first n items, in order, and its counters count them. */
  predicate Matches(r: ImportResult, items: seq<PlanItem>, n: nat) {
    && n <= |items| && |r.items| == n
    && (forall k :: 0 <= k < n ==> Describes(r.items[k], items[k]))
    && r.imported == Count(r.items, Created) && r.updated == Count(r.items, Updated) && r.skipped == Count(r.items, Skipped)
  }

  /** No result at all counts as a result without entries. */
  predicate MatchesOption(r: Option<ImportResult>, items: seq<PlanItem>, n: nat) {
    match r
    case None => n == 0
    case Some(result) => Matches(result, items, n)
  }

  predicate Sound(sp: StoredPlan) {
    match sp.status
    case Running =>
      && MatchesOption(sp.result, sp.plan.items, sp.processed) && sp.total == |sp.plan.items|
      && (sp.current.Some? ==> sp.processed < |sp.plan.items| && sp.current.value == sp.plan.items[sp.processed].source)
    case Completed =>
      && sp.result.Some? && Matches(sp.result.value, sp.plan.items, |sp.plan.items|)
      && sp.processed == sp.total == |sp.plan.items| && sp.current == None
    case _ => true
  }

  predicate SoundFile(file: Option<StoredPlan>) {
    file.Some? ==> Sound(file.value)
  }

  /** The counters of a matching result add up to the number of its entries. */
  lemma {:induction false} CountsAddUp(entries: seq<Entry>)
    ensures Count(entries, Created) + Count(entries, Updated) + Count(entries, Skipped) == |entries|
  {
    if entries != [] {
      CountsAddUp(entries[..|entries| - 1]);
    }
  }

  /** A completed import accounts for every item of its plan exactly once, in plan order. */
  lemma CompletedAccountsForAll(sp: StoredPlan)
    requires Sound(sp) && sp.status == Completed
    ensures var r := sp.result.value;
            && r.imported + r.updated + r.skipped == |sp.plan.items|
            && |r.items| == |sp.plan.items|
            && forall k :: 0 <= k < |sp.plan.items| ==>
                 && r.items[k].source == sp.plan.items[k].source && r.items[k].target == sp.plan.items[k].target
                 && (sp.plan.items[k].action == CreatePage ==> r.items[k].outcome == if r.items[k].failed then Skipped else Created)
                 && (sp.plan.items[k].action == SkipPage ==> r.items[k].outcome == Skipped && !r.items[k].failed)
                 && (sp.plan.items[k].action == UpdatePage ==> r.items[k].outcome == Skipped && r.items[k].failed)
  {
    CountsAddUp(sp.result.value.items);
  }

  /** Adding the entry of the next item keeps a result matching. */
  function WithEntry(r: ImportResult, e: Entry): ImportResult {
    r.(items := r.items + [e],
       imported := r.imported + if e.outcome == Created then 1 else 0,
       skipped := r.skipped + if e.outcome == Skipped then 1 else 0)
  }

  lemma EntryKeepsMatch(r: ImportResult, e: Entry, items: seq<PlanItem>, n: nat)
    requires n < |items| && Matches(r, items, n) && Describes(e, items[n])
    ensures Matches(WithEntry(r, e), items, n + 1)
  {
    assert (r.items + [e])[..n] == r.items;
  }

  lemma HashKeepsMatch(r: ImportResult, hash: Hash, items: seq<PlanItem>, n: nat)
    requires Matches(r, items, n)
    ensures Matches(r.(treeHash := hash), items, n)
  {
  }

  // ----- The plan store -----

  class PlanStore {
    var plan: Option<StoredPlan>
    /** stateErr: once persisting has failed, every further operation fails. */
    var broken: bool
    /** The state file. */
    var file: Option<StoredPlan>
    var history: seq<Option<StoredPlan>>

    ghost predicate Valid()
      reads this
    {
      && history != [] && history[|history| - 1] == file && SoundFile(plan) && (!broken ==> file == plan)
      && forall k :: 0 <= k < |history| ==> SoundFile(history[k])
    }

    /** This process runs this plan. */
    predicate Runs(p: Plan)
      reads this
    {
      plan.Some? && plan.value.plan == p && plan.value.status == Running
    }

    /** NewPlanStore on the file an earlier process left; loading may fail. */
    constructor (saved: Option<StoredPlan>)
      requires SoundFile(saved)
      ensures Valid() && file == saved && history == [saved] && (!broken ==> plan == saved)
    {
      var loaded := *;
      file, history := saved, [saved];
      plan := if loaded then saved else None;
      broken := !loaded;
    }

    /** Writes a temporary file and renames it: the state file has the new content or the old one. */
    method Persist() returns (ok: bool)
      requires history != [] && history[|history| - 1] == file && SoundFile(plan)
      requires forall k :: 0 <= k < |history| ==> SoundFile(history[k])
      modifies this`broken, this`file, this`history
      ensures Valid() && old(history) <= history
      ensures ok ==> file == plan && broken == old(broken) && history == old(history) + [plan]
      ensures !ok ==> broken && file == old(file) && history == old(history)
    {
      ok := *;
      if ok {
        file := plan;
        history := history + [plan];
      } else {
        broken := true;
      }
    }

    /** `started` with a snapshot of the plan, or the plan as it is when it runs already or is done. */
    method TryStartExecution() returns (snapshot: Option<StoredPlan>, started: bool)
      requires Valid()
      modifies this
      ensures Valid() && old(history) <= history
      ensures started ==> !old(broken) && old(plan).Some? && old(plan).value.status !in {Running, Completed}
      ensures started ==> snapshot == plan && file == plan && Runs(old(plan).value.plan) && plan.value.processed == 0 && plan.value.result == None
      ensures !started && !old(broken) && old(plan).Some? && old(plan).value.status in {Running, Completed} ==>
                snapshot == old(plan) && unchanged(this)
      ensures !started && snapshot == None ==> broken || plan == None
      ensures !started && snapshot.Some? ==> snapshot == old(plan) && snapshot.value.status in {Running, Completed}
      ensures old(broken) || old(plan) == None ==> !started && unchanged(this)
      ensures !old(broken) && old(plan).Some? && old(plan).value.status !in {Running, Completed} ==> started || broken
      ensures started ==> !plan.value.cancelRequested && !plan.value.error
    {
      if broken || plan == None {
        return None, false;
      }
      var sp := plan.value;
      if sp.status == Running || sp.status == Completed {
        return plan, false;
      }
      plan := Some(StoredPlan(sp.plan, Running, false, None, false, 0, |sp.plan.items|, None));
      started := Persist();
      snapshot := if started then plan else None;
    }

    method UpdateExecutionProgress(id: string, processed: nat, total: nat, current: Option<string>, result: ImportResult)
      requires Valid()
      requires plan.Some? && plan.value.plan.id == id ==> Sound(Progressed(plan.value, processed, total, current, result))
      modifies this
      ensures Valid() && old(history) <= history
      ensures plan == if !old(broken) && old(plan).Some? && old(plan).value.plan.id == id
                      then Some(Progressed(old(plan).value, processed, total, current, result)) else old(plan)
      ensures old(broken) ==> broken
      ensures !broken && plan.Some? && plan.value.plan.id == id ==> history == old(history) + [plan]
    {
      if broken || plan == None || plan.value.plan.id != id {
        return;
      }
      plan := Some(Progressed(plan.value, processed, total, current, result));
      var _ := Persist();
    }

    /** Completed, canceled or failed, according to the error. */
    method FinishExecution(id: string, result: Option<ImportResult>, err: ExecutionError) returns (ok: bool)
      requires Valid()
      requires plan.Some? && plan.value.plan.id == id ==> Sound(Finished(plan.value, result, err))
      modifies this
      ensures Valid() && old(history) <= history
      ensures plan == if !old(broken) && old(plan).Some? && old(plan).value.plan.id == id
                      then Some(Finished(old(plan).value, result, err)) else old(plan)
      ensures (ok <==> !broken) && (old(broken) ==> broken)
    {
      if broken {
        return false;
      }
      if plan == None || plan.value.plan.id != id {
        return true;
      }
      plan := Some(Finished(plan.value, result, err));
      ok := Persist();
    }

    /** Only a running import that was not canceled yet can be canceled. */
    method RequestCancel() returns (requested: bool)
      requires Valid()
      modifies this
      ensures Valid() && old(history) <= history
      ensures requested ==> old(plan).Some? && old(plan).value.status == Running && !old(plan).value.cancelRequested
      ensures requested ==> plan == Some(old(plan).value.(cancelRequested := true)) && file == plan
      ensures old(broken) ==> broken
      ensures plan == old(plan) || (old(plan).Some? && old(plan).value.status == Running && plan == Some(old(plan).value.(cancelRequested := true)))
      ensures !old(broken) && old(plan).Some? && old(plan).value.status == Running && !old(plan).value.cancelRequested ==> requested || broken
    {
      if broken || plan == None || plan.value.status != Running || plan.value.cancelRequested {
        return false;
      }
      plan := Some(plan.value.(cancelRequested := true));
      requested := Persist();
    }

    method IsCancelRequested(id: string) returns (requested: bool)
      ensures requested <==> plan.Some? && plan.value.plan.id == id && plan.value.cancelRequested
    {
      requested := plan.Some? && plan.value.plan.id == id && plan.value.cancelRequested;
    }
  }

  function Progressed(sp: StoredPlan, processed: nat, total: nat, current: Option<string>, result: ImportResult): StoredPlan {
    sp.(processed := processed, total := total, current := current, result := Some(result))
  }

  function Finished(sp: StoredPlan, result: Option<ImportResult>, err: ExecutionError): StoredPlan {
    var ended := sp.(result := result, cancelRequested := false, current := None);
    match err
    case NoError => ended.(status := Completed, error := false, processed := sp.total)
    case ImportCanceled => ended.(status := Canceled, error := false)
    case _ => ended.(status := Failed, error := true)
  }

  // ----- The executor -----

  /** The wiki, seen through the hash of its page tree. Every write may change it. */
  class Wiki {
    var hash: Hash

    constructor ()
    {
      hash := *;
    }
  }

  /** Between two steps other requests may cancel the import or edit the wiki. */
  method Others(store: PlanStore, wiki: Wiki)
    requires store.Valid()
    modifies store, wiki
    ensures store.Valid() && old(store.history) <= store.history
    ensures forall p :: old(store.Runs(p)) ==> store.Runs(p)
    ensures old(store.broken) ==> store.broken
    ensures store.plan == old(store.plan)
            || (old(store.plan).Some? && store.plan == Some(old(store.plan).value.(cancelRequested := true)))
  {
    wiki.hash := *;
    var cancel := *;
    if cancel {
      var _ := store.RequestCancel();
    }
  }

  /** The body of the switch. `finished` tells falling out of the switch from skipping to the next item on an error. */
  method ImportItem(wiki: Wiki, item: PlanItem) returns (entry: Entry, finished: bool)
    modifies wiki
    ensures Describes(entry, item)
    ensures finished <==> Finishes(item, entry)
  {
    match item.action
    case CreatePage =>
      // EnsurePath, loading, transforming and updating each may fail, with or without an effect on the tree.
      wiki.hash := *;
      finished := *;
      entry := if finished then Entry(item.source, item.target, Created, false) else Entry(item.source, item.target, Skipped, true);
    case SkipPage =>
      entry, finished := Entry(item.source, item.target, Skipped, false), true;
    case UpdatePage =>
      entry, finished := Entry(item.source, item.target, Skipped, true), true;
  }

  /** How far the import is, as the plan has it. */
  predicate Reported(sp: StoredPlan, processed: nat, current: Option<string>, result: ImportResult) {
    sp.processed == processed && sp.total == |sp.plan.items| && sp.current == current && sp.result == Some(result)
  }

  /** The progress callback, on a result that matches the first `processed` items. */
  method Report(store: PlanStore, plan: Plan, processed: nat, current: Option<string>, result: ImportResult)
    requires store.Valid() && store.Runs(plan) && Matches(result, plan.items, processed)
    requires current.Some? ==> processed < |plan.items| && current.value == plan.items[processed].source
    modifies store
    ensures store.Valid() && old(store.history) <= store.history && store.Runs(plan)
    ensures old(store.broken) ==> store.broken
    ensures store.plan.value.cancelRequested == old(store.plan.value.cancelRequested)
    ensures !store.broken ==> Reported(store.plan.value, processed, current, result)
    ensures !store.broken ==> store.history == old(store.history) + [store.plan]
  {
    store.UpdateExecutionProgress(plan.id, processed, |plan.items|, current, result);
  }

  /** The hash before the first run, kept by the later ones. */
  function HashBefore(sp: StoredPlan, hash: Hash): Hash {
    if sp.result.Some? && sp.result.value.treeHashBefore != "" then sp.result.value.treeHashBefore else hash
  }

  /** The next thing in the state file was what the run continues from. */
  predicate IsAnnounced(history: seq<Option<StoredPlan>>, n: nat, sp: StoredPlan) {
    && n < |history| && history[n].Some? && history[n].value.result.Some?
    && history[n].value.processed == sp.processed && history[n].value.current == None
    && history[n].value.result.value.items == EntriesOf(sp)
  }

  function EntriesOf(sp: StoredPlan): seq<Entry> {
    if sp.result.Some? then sp.result.value.items else []
  }

  /**
   Execute: a first run needs the tree the plan was made for, a later one the tree its last entry left, and otherwise
   nothing is touched. The entries of an earlier run stay, and every further item adds one, up to the first item before
   which a cancel request is there, which ends the import.
   */
  method Execute(store: PlanStore, wiki: Wiki, sp: StoredPlan) returns (result: Option<ImportResult>, err: ExecutionError)
    requires store.Valid() && store.Runs(sp.plan) && sp.status == Running && Sound(sp)
    modifies store, wiki
    ensures store.Valid() && old(store.history) <= store.history && store.Runs(sp.plan)
    ensures err == ResumeStateMissing <==> sp.processed > 0 && (sp.result == None || sp.result.value.treeHash == "")
    ensures err == PlanIsStale <==> if sp.processed == 0 then sp.plan.treeHash != old(wiki.hash)
                                    else sp.result.Some? && sp.result.value.treeHash !in {"", old(wiki.hash)}
    ensures err in {ResumeStateMissing, PlanIsStale} ==> result == None && unchanged(store) && unchanged(wiki)
    ensures err in {NoError, ImportCanceled} ==> result.Some? && EntriesOf(sp) <= result.value.items
    ensures err in {NoError, ImportCanceled} ==> result.value.treeHashBefore == HashBefore(sp, old(wiki.hash))
    ensures err in {NoError, ImportCanceled} && !store.broken ==> IsAnnounced(store.history, |old(store.history)|, sp)
    ensures err == NoError ==> Matches(result.value, sp.plan.items, |sp.plan.items|) && result.value.treeHash == wiki.hash
    ensures err == NoError && !store.broken ==> Reported(store.plan.value, |sp.plan.items|, None, result.value)
    ensures err == NoError && old(store.plan.value.cancelRequested) ==> sp.processed == |sp.plan.items|
    ensures err == ImportCanceled ==> store.plan.value.cancelRequested
    ensures err == ImportCanceled ==> Matches(result.value, sp.plan.items, |result.value.items|)
    ensures err == ImportCanceled ==> sp.processed <= |result.value.items| < |sp.plan.items|
  {
    var before := wiki.hash;
    err := CheckTree(sp, before);
    if err != NoError {
      return None, err;
    }
    hide Matches;
    var r := FirstResult(sp, before);
    Report(store, sp.plan, sp.processed, None, r);
    for index := sp.processed to |sp.plan.items|
      invariant store.Valid() && old(store.history) <= store.history && store.Runs(sp.plan)
      invariant Matches(r, sp.plan.items, index) && EntriesOf(sp) <= r.items
      invariant r.treeHashBefore == HashBefore(sp, before)
      invariant !store.broken ==> IsAnnounced(store.history, |old(store.history)|, sp)
      invariant old(store.plan.value.cancelRequested) ==> index == sp.processed && store.plan.value.cancelRequested
    {
      var canceled;
      r, canceled := ProcessItem(store, wiki, sp.plan, index, r);
      if canceled {
        return Some(r), ImportCanceled;
      }
    }
    r := r.(treeHash := wiki.hash);
    Report(store, sp.plan, |sp.plan.items|, None, r);
    result := Some(r);
  }

  /** What the run continues from. */
  method FirstResult(sp: StoredPlan, before: Hash) returns (r: ImportResult)
    requires MatchesOption(sp.result, sp.plan.items, sp.processed)
    ensures Matches(r, sp.plan.items, sp.processed) && r.items == EntriesOf(sp) && r.treeHashBefore == HashBefore(sp, before)
    ensures r.treeHash == if sp.result.Some? then sp.result.value.treeHash else ""
  {
    r := if sp.result.Some? then sp.result.value else ImportResult(0, 0, 0, [], "", before);
    if r.treeHashBefore == "" {
      r := r.(treeHashBefore := before);
    }
  }

  /** Whether the tree is the one the run must start from. */
  method CheckTree(sp: StoredPlan, before: Hash) returns (err: ExecutionError)
    ensures err in {NoError, ResumeStateMissing, PlanIsStale}
    ensures err == ResumeStateMissing <==> sp.processed > 0 && (sp.result == None || sp.result.value.treeHash == "")
    ensures err == PlanIsStale <==> if sp.processed == 0 then sp.plan.treeHash != before
                                    else sp.result.Some? && sp.result.value.treeHash !in {"", before}
  {
    var expected := sp.plan.treeHash;
    if sp.processed > 0 {
      if sp.result == None || sp.result.value.treeHash == "" {
        return ResumeStateMissing;
      }
      expected := sp.result.value.treeHash;
    }
    err := if expected != before then PlanIsStale else NoError;
  }

  /**
   One round of the loop. A cancel request that is there before the item ends the import and leaves the plan as it is.
   Otherwise the item gets its entry, and, unless creating its page failed, its outcome is reported with the tree it left.
   */
  method ProcessItem(store: PlanStore, wiki: Wiki, plan: Plan, index: nat, r0: ImportResult) returns (r: ImportResult, canceled: bool)
    requires store.Valid() && store.Runs(plan) && index < |plan.items| && Matches(r0, plan.items, index)
    modifies store, wiki
    ensures store.Valid() && old(store.history) <= store.history && store.Runs(plan)
    ensures old(store.plan.value.cancelRequested) ==> canceled
    ensures old(store.broken) ==> store.broken
    ensures canceled ==> r == r0 && store.plan == Some(old(store.plan.value).(cancelRequested := true))
    ensures !canceled ==> Matches(r, plan.items, index + 1) && r0.items <= r.items && r.treeHashBefore == r0.treeHashBefore
    ensures !canceled && !store.broken ==> Began(store, |old(store.history)|, plan.items[index].source)
    ensures !canceled && Finishes(plan.items[index], r.items[index]) ==>
              r.treeHash == wiki.hash && (!store.broken ==> Reported(store.plan.value, index + 1, None, r))
    ensures !canceled && !Finishes(plan.items[index], r.items[index]) ==> r.treeHash == r0.treeHash
  {
    hide Matches, Describes, Sound;
    r := r0;
    Others(store, wiki);
    canceled := store.IsCancelRequested(plan.id);
    if canceled {
      return;
    }
    Report(store, plan, index, Some(plan.items[index].source), r);
    ghost var begun, began := |store.history| - 1, store.history;
    assert !store.broken ==> IsBegun(began[begun], plan.items[index].source);
    var entry, finished := ImportItem(wiki, plan.items[index]);
    Others(store, wiki);
    EntryKeepsMatch(r, entry, plan.items, index);
    r := WithEntry(r, entry);
    if finished {
      HashKeepsMatch(r, wiki.hash, plan.items, index + 1);
      r := r.(treeHash := wiki.hash);
      Report(store, plan, index + 1, None, r);
    }
    assert began <= store.history;
    assert !store.broken ==> IsBegun(store.history[begun], plan.items[index].source);
  }

  /** The outcome of this item is reported at once; that of a page that could not be created, with the next item. */
  predicate Finishes(item: PlanItem, e: Entry) {
    item.action != CreatePage || !e.failed
  }

  predicate IsBegun(state: Option<StoredPlan>, source: string) {
    state.Some? && state.value.current == Some(source)
  }

  /** Since the file had n contents, it said that this item is being imported. */
  ghost predicate Began(store: PlanStore, n: nat, source: string)
    reads store
  {
    exists k :: n <= k < |store.history| && IsBegun(store.history[k], source)
  }

  // ----- The service -----

  /** The outcome is on record: completed with everything, canceled with what there was, or failed with nothing. */
  predicate IsRecorded(file: Option<StoredPlan>, plan: Plan, result: Option<ImportResult>, err: ExecutionError) {
    && file.Some? && file.value.plan == plan && file.value.result == result && file.value.current == None && !file.value.cancelRequested
    && match err
       case NoError => file.value.status == Completed && !file.value.error && file.value.processed == |plan.items|
       case ImportCanceled => file.value.status == Canceled && !file.value.error
       case _ => file.value.status == Failed && file.value.error
  }

  /** executeStoredPlan and FinishExecution, as every caller combines them. */
  method RunToEnd(store: PlanStore, wiki: Wiki, sp: StoredPlan) returns (result: Option<ImportResult>, err: ExecutionError, saved: bool)
    requires store.Valid() && store.plan == Some(sp) && sp.status == Running
    modifies store, wiki
    ensures store.Valid() && old(store.history) <= store.history
    ensures saved <==> !store.broken
    ensures saved ==> store.file == store.plan && IsRecorded(store.file, sp.plan, result, err)
    ensures err == NoError ==> result.Some? && Matches(result.value, sp.plan.items, |sp.plan.items|)
    ensures err in {ResumeStateMissing, PlanIsStale} ==> result == None
    ensures err == ResumeStateMissing <==> sp.processed > 0 && (sp.result == None || sp.result.value.treeHash == "")
    ensures err == PlanIsStale <==> if sp.processed == 0 then sp.plan.treeHash != old(wiki.hash)
                                    else sp.result.Some? && sp.result.value.treeHash !in {"", old(wiki.hash)}
    ensures err == NoError && sp.cancelRequested ==> sp.processed == |sp.plan.items|
  {
    result, err := Execute(store, wiki, sp);
    saved := store.FinishExecution(sp.plan.id, result, err);
  }

  /**
   ExecuteCurrentPlan: a plan that neither runs nor is completed is run from the start, and if the state file can be
   written it ends as failed exactly if the tree is not the one it was made for. A result is returned only for an import
   that is recorded as completed.
   */
  method ExecuteCurrentPlan(store: PlanStore, wiki: Wiki) returns (result: Option<ImportResult>)
    requires store.Valid()
    modifies store, wiki
    ensures store.Valid() && old(store.history) <= store.history
    ensures result.Some? ==> store.plan.Some? && store.plan.value.status == Completed && store.plan.value.result == result
    ensures result.None? ==> store.broken || store.plan == None || store.plan.value.status != Completed
    ensures !store.broken && old(store.plan).Some? && old(store.plan).value.status !in {Running, Completed} ==>
              && store.plan.Some? && store.plan.value.status in {Completed, Failed, Canceled}
              && (store.plan.value.status == Failed <==> old(store.plan).value.plan.treeHash != old(wiki.hash))
    ensures old(store.plan).Some? && old(store.plan).value.status in {Running, Completed} ==> unchanged(store) && unchanged(wiki)
  {
    var snapshot, started := store.TryStartExecution();
    if !started {
      return if snapshot.Some? && snapshot.value.status == Completed then snapshot.value.result else None;
    }
    var r, err, saved := RunToEnd(store, wiki, snapshot.value);
    result := if saved && err == NoError then r else None;
  }

  /** resumeInterruptedExecution, at the start of the service. */
  method ResumeInterruptedExecution(store: PlanStore, wiki: Wiki)
    requires store.Valid()
    modifies store, wiki
    ensures store.Valid() && old(store.history) <= store.history
    ensures !store.broken && old(store.plan).Some? && old(store.plan).value.status == Running ==>
              store.plan.Some? && store.plan.value.status in {Completed, Failed, Canceled}
    ensures !store.broken && old(store.plan).Some? && old(store.plan).value.status == Running ==>
              var sp := old(store.plan).value;
              store.plan.value.status == Failed <==>
              if sp.processed == 0 then sp.plan.treeHash != old(wiki.hash)
              else sp.result == None || sp.result.value.treeHash == "" || sp.result.value.treeHash != old(wiki.hash)
    ensures old(store.plan) == None || old(store.plan).value.status != Running ==> unchanged(store) && unchanged(wiki)
  {
    if store.broken || store.plan == None || store.plan.value.status != Running {
      return;
    }
    var _, _, _ := RunToEnd(store, wiki, store.plan.value);
  }

  /**
   Main result: over any number of processes, each started on the state file that the last one left wherever it stopped,
   every running state in the file has exactly its processed items as entries, and every completed one all of them.
   */
  method Lives(first: StoredPlan, wiki: Wiki) returns (file: Option<StoredPlan>)
    requires first.status == Planned
    modifies wiki
    ensures SoundFile(file)
  {
    file := Some(first);
    var lives: nat :| true;
    for life := 0 to lives
      invariant SoundFile(file)
    {
      var store := new PlanStore(file);
      ResumeInterruptedExecution(store, wiki);
      Others(store, wiki);
      var _ := ExecuteCurrentPlan(store, wiki);
      // The process may have stopped after any of the writes of its life.
      var k: nat :| k < |store.history|;
      file := store.history[k];
    }
  }
}
