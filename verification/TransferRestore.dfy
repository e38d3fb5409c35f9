/**
 The journalled restore of a PostgreSQL backup (backend/internal/transfer/restore.go). Files and database cannot be
 changed together, so a journal file marks the time in between. The database is one more place of the tree, which lets
 the history show files and database at every moment.
 */
module TransferRestore {
  import opened Wrappers
  import opened Disk

  type Name = string

  /** A component at its live path, in the retained previous-files directory, or staged; the journal; the database. */
  datatype Place = Current(name: Name) | Previous(name: Name) | Incoming(name: Name) | Journal | Database

  type Tree = map<Place, Content>

  datatype Backup = Backup(files: map<Name, Content>, dump: Content)

  datatype Failure =
    | TransferPending
    | StagingFailed
    | Incompatible
    | TargetNotEmpty
    | JournalFailed
    | InstallFailed
    | DatabaseFailed
    | ChecksFailed
    | JournalNotRemoved

  predicate Distinct(names: seq<Name>) {
    forall i, j :: 0 <= i < j < |names| ==> names[i] != names[j]
  }

  // ----- One component -----

  predicate Holds(now: Tree, p: Place, content: Option<Content>) {
    (p in now <==> content.Some?) && (content.Some? ==> now[p] == content.value)
  }

  function Find<K, V>(m: map<K, V>, k: K): Option<V> {
    if k in m then Some(m[k]) else None
  }

  predicate NotInstalled(before: Tree, b: Backup, now: Tree, n: Name) {
    && SameAt(before, now, Current(n)) && Previous(n) !in now
    && Holds(now, Incoming(n), Find(b.files, n))
  }

  predicate Installed(before: Tree, b: Backup, now: Tree, n: Name) {
    && Holds(now, Current(n), Find(b.files, n))
    && Holds(now, Previous(n), Find(before, Current(n)))
  }

  /** What was there before is at its live path or among the previous files. */
  predicate PriorKept(before: Tree, now: Tree, n: Name) {
    Current(n) in before ==>
      || (Current(n) in now && now[Current(n)] == before[Current(n)])
      || (Previous(n) in now && now[Previous(n)] == before[Current(n)])
  }

  // ----- All components and the database -----

  predicate AllKept(before: Tree, now: Tree, names: seq<Name>) {
    forall i :: 0 <= i < |names| ==> PriorKept(before, now, names[i])
  }

  predicate WhollyOld(before: Tree, now: Tree, names: seq<Name>) {
    SameAt(before, now, Database) && forall i :: 0 <= i < |names| ==> SameAt(before, now, Current(names[i]))
  }

  predicate WhollyNew(b: Backup, now: Tree, names: seq<Name>) {
    Holds(now, Database, Some(b.dump)) && forall i :: 0 <= i < |names| ==> Holds(now, Current(names[i]), Find(b.files, names[i]))
  }

  /** The promise of the journal, at one moment. */
  predicate Safe(before: Tree, b: Backup, now: Tree, names: seq<Name>) {
    if Journal in now then AllKept(before, now, names) && (SameAt(before, now, Database) || Holds(now, Database, Some(b.dump)))
    else WhollyOld(before, now, names) || WhollyNew(b, now, names)
  }

  ghost predicate SafeSince(before: Tree, b: Backup, history: seq<Tree>, first: nat, names: seq<Name>) {
    forall k :: first <= k < |history| ==> Safe(before, b, history[k], names)
  }

  // ----- Frames -----

  ghost predicate Elsewhere(a: Tree, b: Tree, n: Name) {
    forall p: Place :: p != Current(n) && p != Previous(n) && p != Incoming(n) ==> SameAt(a, b, p)
  }

  /** The two trees differ at most in the staging directory. */
  ghost predicate SameButStage(a: Tree, b: Tree) {
    forall p: Place :: !p.Previous? && !p.Incoming? ==> SameAt(a, b, p)
  }

  lemma {:induction false} FrameComponent(before: Tree, b: Backup, now: Tree, next: Tree, n: Name, other: Name)
    requires Elsewhere(now, next, n) && other != n
    ensures NotInstalled(before, b, now, other) ==> NotInstalled(before, b, next, other)
    ensures Installed(before, b, now, other) ==> Installed(before, b, next, other)
    ensures PriorKept(before, now, other) ==> PriorKept(before, next, other)
  {
    assert SameAt(now, next, Current(other)) && SameAt(now, next, Previous(other)) && SameAt(now, next, Incoming(other));
  }

  lemma {:induction false} FrameStage(before: Tree, b: Backup, now: Tree, next: Tree, names: seq<Name>)
    requires SameButStage(now, next)
    ensures Journal in now <==> Journal in next
    ensures WhollyOld(before, now, names) ==> WhollyOld(before, next, names) && Safe(before, b, next, names)
    ensures WhollyNew(b, now, names) && Journal !in now ==> WhollyNew(b, next, names) && Safe(before, b, next, names)
  {
    assert SameAt(now, next, Database) && SameAt(now, next, Journal);
    forall i | 0 <= i < |names|
      ensures SameAt(now, next, Current(names[i]))
    {
    }
  }

  // ----- The loop state -----

  /** Components 0 to i - 1 are in place, the others not yet; the journal stands and the database is untouched. */
  predicate Progress(before: Tree, b: Backup, now: Tree, names: seq<Name>, i: nat)
    requires i <= |names|
  {
    && Journal in now && SameAt(before, now, Database)
    && (forall j :: 0 <= j < i ==> Installed(before, b, now, names[j]))
    && (forall j :: i <= j < |names| ==> NotInstalled(before, b, now, names[j]))
  }

  lemma ProgressIsSafe(before: Tree, b: Backup, now: Tree, names: seq<Name>, i: nat)
    requires i <= |names| && Progress(before, b, now, names, i)
    ensures Safe(before, b, now, names)
  {
    forall j | 0 <= j < |names|
      ensures PriorKept(before, now, names[j])
    {
      if j < i { assert Installed(before, b, now, names[j]); } else { assert NotInstalled(before, b, now, names[j]); }
    }
  }

  lemma {:induction false} StepIsSafe(before: Tree, b: Backup, now: Tree, next: Tree, names: seq<Name>, i: nat)
    requires i < |names| && Distinct(names) && Progress(before, b, now, names, i)
    requires Elsewhere(now, next, names[i]) && PriorKept(before, next, names[i])
    ensures Safe(before, b, next, names)
    ensures Installed(before, b, next, names[i]) ==> Progress(before, b, next, names, i + 1)
  {
    assert SameAt(now, next, Journal) && SameAt(now, next, Database);
    ProgressIsSafe(before, b, now, names, i);
    forall j | 0 <= j < |names| && j != i
      ensures PriorKept(before, next, names[j])
      ensures Installed(before, b, now, names[j]) ==> Installed(before, b, next, names[j])
      ensures NotInstalled(before, b, now, names[j]) ==> NotInstalled(before, b, next, names[j])
    {
      FrameComponent(before, b, now, next, names[i], names[j]);
    }
  }

  // ----- Steps -----

  /** Such steps, all successful and no others, were taken from step number `from` on, with these files in place. */
  predicate TookHere(steps: seq<Step<Place>>, from: nat, names: seq<string>, files: Tree) {
    Took(steps, from, names) && forall i :: from <= i < |steps| ==> steps[i].files == files
  }

  lemma NoSteps(steps: seq<Step<Place>>)
    ensures Took(steps, |steps|, []) && forall name: string :: [] + [name] == [name]
    ensures forall step: Step<Place> :: step.ok ==> Took(steps + [step], |steps|, [step.name])
  {
  }

  const BEFORE_JOURNAL := ["backup compatible", "target locked and empty"]
  const DATABASE_STEPS := ["database restored", "transaction committed", "schema checked", "derived data rebuilt", "runtime reloaded"]

  /** The checks come before the journal; the journal stands, with everything new in place, when what follows the database is done. */
  ghost predicate AllSteps(steps: seq<Step<Place>>, from: nat, b: Backup, names: seq<Name>) {
    && Took(steps, from, BEFORE_JOURNAL + ["journal synced"] + DATABASE_STEPS)
    && (forall i :: from <= i < from + 2 ==> Journal !in steps[i].files)
    && (forall i :: from + 2 <= i < from + 8 ==> Journal in steps[i].files)
    && forall i :: from + 3 <= i < from + 8 ==> WhollyNew(b, steps[i].files, names)
  }

  // ----- The operations -----

  /** O_EXCL create, write, sync: an error may come before or after the file exists. */
  method WriteJournal(disk: FileTree<Place>) returns (ok: bool)
    requires disk.Valid() && Journal !in disk.files
    modifies disk
    ensures disk.Valid() && old(disk.history) <= disk.history
    ensures forall p: Place :: p != Journal ==> SameAt(old(disk.files), disk.files, p)
    ensures forall k :: |old(disk.history)| <= k < |disk.history| ==> forall p: Place :: p != Journal ==> SameAt(old(disk.files), disk.history[k], p)
    ensures ok ==> Journal in disk.files && TookHere(disk.steps, |old(disk.steps)|, ["journal synced"], disk.files)
    ensures old(disk.steps) <= disk.steps && disk.faults >= old(disk.faults) && (ok <==> disk.faults == old(disk.faults))
    ensures Only(disk.steps, |old(disk.steps)|, ["journal synced"]) && (ok <==> Did(disk.steps, |old(disk.steps)|, "journal synced"))
  {
    var created := disk.Create(Journal, "outcome-not-confirmed");
    ok := created;
    if created {
      NoSteps(disk.steps);
      ghost var taken := disk.steps;
      ok := disk.Attempt("journal synced");
      DidLast(taken, Step("journal synced", ok, disk.files));
    }
  }

  /** StageBackup, into a fresh directory; a failure leaves at most rests of that directory. */
  method StageBackup(disk: FileTree<Place>, names: seq<Name>, b: Backup) returns (ok: bool)
    requires disk.Valid() && Distinct(names) && forall n :: Previous(n) !in disk.files && Incoming(n) !in disk.files
    modifies disk
    ensures disk.Valid() && old(disk.history) <= disk.history && SameButStage(old(disk.files), disk.files)
    ensures forall k :: |old(disk.history)| <= k < |disk.history| ==> SameButStage(old(disk.files), disk.history[k])
    ensures ok ==> forall i :: 0 <= i < |names| ==> NotInstalled(old(disk.files), b, disk.files, names[i])
    ensures disk.steps == old(disk.steps) && disk.faults >= old(disk.faults) && (ok <==> disk.faults == old(disk.faults))
    ensures !ok && StageRemains(disk.files, names) ==> disk.faults > old(disk.faults) + 1
  {
    ghost var before := disk.files;
    ok := true;
    var i := 0;
    while i < |names| && ok
      invariant disk.steps == old(disk.steps) && disk.faults >= old(disk.faults) && (ok <==> disk.faults == old(disk.faults))
      invariant 0 <= i <= |names| && disk.Valid() && old(disk.history) <= disk.history && SameButStage(before, disk.files)
      invariant forall k :: |old(disk.history)| <= k < |disk.history| ==> SameButStage(before, disk.history[k])
      invariant ok ==> forall j :: 0 <= j < i ==> NotInstalled(before, b, disk.files, names[j])
      invariant ok ==> forall p: Place :: p.Previous? || (p.Incoming? && p.name !in names[..i]) ==> p !in disk.files
    {
      if names[i] in b.files {
        ok := disk.Create(Incoming(names[i]), b.files[names[i]]);
      }
      i := i + 1;
    }
    if !ok {
      RemoveStage(disk, names);
    }
  }

  /** Something is left of the staging directory. */
  predicate StageRemains(now: Tree, names: seq<Name>) {
    exists i :: 0 <= i < |names| && (Incoming(names[i]) in now || Previous(names[i]) in now)
  }

  /** os.RemoveAll(stage), as far as it gets: staged and previous files, nothing else. */
  method RemoveStage(disk: FileTree<Place>, names: seq<Name>)
    requires disk.Valid() && Distinct(names)
    modifies disk
    ensures disk.Valid() && old(disk.history) <= disk.history && SameButStage(old(disk.files), disk.files)
    ensures forall k :: |old(disk.history)| <= k < |disk.history| ==> SameButStage(old(disk.files), disk.history[k])
    ensures disk.steps == old(disk.steps) && disk.faults >= old(disk.faults)
    ensures disk.faults > old(disk.faults) <==> StageRemains(disk.files, names)
  {
    hide StageRemains, Distinct;
    ghost var before := disk.files;
    NothingRemains(disk.files, names);
    for i := 0 to |names|
      invariant disk.steps == old(disk.steps) && disk.faults >= old(disk.faults)
      invariant disk.faults > old(disk.faults) <==> StageRemains(disk.files, names[..i])
      invariant disk.Valid() && old(disk.history) <= disk.history && SameButStage(before, disk.files)
      invariant forall k :: |old(disk.history)| <= k < |disk.history| ==> SameButStage(before, disk.history[k])
    {
      ghost var a := disk.files;
      var _ := disk.RemoveAll(Incoming(names[i]));
      StageOnly(before, a, disk.files);
      ghost var c := disk.files;
      var _ := disk.RemoveAll(Previous(names[i]));
      StageOnly(before, c, disk.files);
      forall p: Place | p != Incoming(names[i]) && p != Previous(names[i])
        ensures SameAt(a, disk.files, p)
      {
        assert SameAt(a, c, p) && SameAt(c, disk.files, p);
      }
      OneMoreRemoved(names, i, a, disk.files);
      assert SameAt(c, disk.files, Incoming(names[i]));
    }
    assert names[..|names|] == names;
  }

  lemma NothingRemains(now: Tree, names: seq<Name>)
    ensures !StageRemains(now, names[..0])
  {
  }

  /** What was left of earlier components is left still. */
  lemma OneMoreRemoved(names: seq<Name>, i: nat, a: Tree, b: Tree)
    requires i < |names| && Distinct(names)
    requires forall p: Place :: p != Incoming(names[i]) && p != Previous(names[i]) ==> SameAt(a, b, p)
    ensures StageRemains(b, names[..i + 1]) <==> StageRemains(a, names[..i]) || Incoming(names[i]) in b || Previous(names[i]) in b
  {
    if StageRemains(a, names[..i]) {
      var j :| 0 <= j < i && (Incoming(names[..i][j]) in a || Previous(names[..i][j]) in a);
      assert SameAt(a, b, Incoming(names[j])) && SameAt(a, b, Previous(names[j])) && names[..i + 1][j] == names[j];
    }
    if StageRemains(b, names[..i + 1]) {
      var j :| 0 <= j < i + 1 && (Incoming(names[..i + 1][j]) in b || Previous(names[..i + 1][j]) in b);
      assert j < i ==> SameAt(a, b, Incoming(names[j])) && SameAt(a, b, Previous(names[j])) && names[..i][j] == names[j];
    }
    if Incoming(names[i]) in b || Previous(names[i]) in b {
      assert names[..i + 1][i] == names[i];
    }
  }

  lemma StageOnly(before: Tree, a: Tree, b: Tree)
    requires SameButStage(before, a) && SameButStage(a, b)
    ensures SameButStage(before, b)
  {
    forall p: Place | !p.Previous? && !p.Incoming?
      ensures SameAt(before, b, p)
    {
      assert SameAt(before, a, p) && SameAt(a, b, p);
    }
  }

  /** One round of the rename loop. */
  method InstallComponent(disk: FileTree<Place>, names: seq<Name>, i: nat, b: Backup, ghost before: Tree) returns (ok: bool)
    requires disk.Valid() && i < |names| && Distinct(names) && Progress(before, b, disk.files, names, i)
    modifies disk
    ensures disk.Valid() && old(disk.history) <= disk.history && SafeSince(before, b, disk.history, |old(disk.history)|, names)
    ensures Safe(before, b, disk.files, names) && Journal in disk.files
    ensures ok ==> Progress(before, b, disk.files, names, i + 1)
    ensures disk.steps == old(disk.steps) && disk.faults >= old(disk.faults) && (ok <==> disk.faults == old(disk.faults))
  {
    var n := names[i];
    ghost var start := disk.files;
    assert NotInstalled(before, b, start, n);
    ProgressIsSafe(before, b, start, names, i);
    var current := disk.Exists(Current(n));
    if current {
      ok := disk.Rename(Current(n), Previous(n));
      if !ok { return; }
      StepIsSafe(before, b, start, disk.files, names, i);
    }
    var incoming := disk.Exists(Incoming(n));
    if incoming {
      ok := disk.Rename(Incoming(n), Current(n));
      if !ok { return; }
    }
    StepIsSafe(before, b, start, disk.files, names, i);
    ok := true;
  }

  /** pg_restore in a single transaction: all or nothing, but an error may hide a commit. */
  method PgRestore(disk: FileTree<Place>, dump: Content) returns (ok: bool)
    requires disk.Valid()
    modifies disk
    ensures disk.Valid() && disk.history == old(disk.history) + [disk.files]
    ensures disk.files == old(disk.files) || disk.files == old(disk.files)[Database := dump]
    ensures ok ==> disk.files == old(disk.files)[Database := dump] && TookHere(disk.steps, |old(disk.steps)|, ["database restored"], disk.files)
    ensures old(disk.steps) <= disk.steps && disk.faults >= old(disk.faults) && (ok <==> disk.faults == old(disk.faults))
    ensures Only(disk.steps, |old(disk.steps)|, ["database restored"])
  {
    var applied := disk.Create(Database, dump);
    ok := applied;
    if applied {
      NoSteps(disk.steps);
      ok := disk.Attempt("database restored");
    }
  }

  // ----- How far a restore came -----

  /** The failure, by the steps behind the journal that have succeeded. */
  predicate CameBehind(steps: seq<Step<Place>>, from: nat, failure: Option<Failure>) {
    && (Did(steps, from, "transaction committed") <==> failure == None || failure.value in {ChecksFailed, JournalNotRemoved})
    && (Did(steps, from, "runtime reloaded") <==> failure == None || failure.value == JournalNotRemoved)
  }

  predicate CameTo(steps: seq<Step<Place>>, from: nat, failure: Option<Failure>) {
    && (Did(steps, from, "journal synced") <==>
        failure == None || failure.value in {InstallFailed, DatabaseFailed, ChecksFailed, JournalNotRemoved})
    && CameBehind(steps, from, failure)
  }

  /** Steps with other names do not count. */
  predicate Only(steps: seq<Step<Place>>, from: nat, names: seq<string>) {
    forall i :: from <= i < |steps| ==> steps[i].name in names
  }

  lemma OthersDid(steps: seq<Step<Place>>, from: nat, names: seq<string>, name: string)
    requires Only(steps, from, names) && name !in names
    ensures !Did(steps, from, name)
  {
  }

  lemma JournalOnly(before: Tree, b: Backup, now: Tree, next: Tree, names: seq<Name>)
    requires WhollyOld(before, now, names) && forall p: Place :: p != Journal ==> SameAt(now, next, p)
    ensures WhollyOld(before, next, names) && Safe(before, b, next, names)
    ensures (forall i :: 0 <= i < |names| ==> NotInstalled(before, b, now, names[i])) && Journal in next ==> Progress(before, b, next, names, 0)
  {
    assert SameAt(now, next, Database);
    forall i | 0 <= i < |names|
      ensures SameAt(before, next, Current(names[i]))
      ensures NotInstalled(before, b, now, names[i]) ==> NotInstalled(before, b, next, names[i])
    {
      var n := names[i];
      assert SameAt(now, next, Current(n)) && SameAt(now, next, Previous(n)) && SameAt(now, next, Incoming(n)) && SameAt(before, now, Current(n));
    }
  }

  /** With every component installed, the database may be written and then the journal removed. */
  lemma DatabaseIsSafe(before: Tree, b: Backup, now: Tree, next: Tree, names: seq<Name>)
    requires Progress(before, b, now, names, |names|)
    requires next == now[Database := b.dump]
    ensures Safe(before, b, next, names) && Journal in next && WhollyNew(b, next, names)
  {
    ProgressIsSafe(before, b, now, names, |names|);
    forall i | 0 <= i < |names|
      ensures PriorKept(before, next, names[i]) && Holds(next, Current(names[i]), Find(b.files, names[i]))
    {
      assert Installed(before, b, now, names[i]) && PriorKept(before, now, names[i]);
    }
  }

  method InstallAll(disk: FileTree<Place>, names: seq<Name>, b: Backup, ghost before: Tree) returns (ok: bool)
    requires disk.Valid() && Distinct(names) && Progress(before, b, disk.files, names, 0)
    modifies disk
    ensures disk.Valid() && old(disk.history) <= disk.history && SafeSince(before, b, disk.history, |old(disk.history)|, names)
    ensures Safe(before, b, disk.files, names) && Journal in disk.files
    ensures ok ==> Progress(before, b, disk.files, names, |names|)
    ensures disk.steps == old(disk.steps) && disk.faults >= old(disk.faults) && (ok <==> disk.faults == old(disk.faults))
  {
    ProgressIsSafe(before, b, disk.files, names, 0);
    for i := 0 to |names|
      invariant disk.steps == old(disk.steps) && disk.faults == old(disk.faults)
      invariant disk.Valid() && old(disk.history) <= disk.history && SafeSince(before, b, disk.history, |old(disk.history)|, names)
      invariant Safe(before, b, disk.files, names) && Progress(before, b, disk.files, names, i)
    {
      ok := InstallComponent(disk, names, i, b, before);
      if !ok { return; }
    }
    ok := true;
  }

  ghost predicate JournalledSteps(steps: seq<Step<Place>>, from: nat, b: Backup, names: seq<Name>) {
    && Took(steps, from, ["journal synced"] + DATABASE_STEPS)
    && (forall i :: from <= i < from + 6 ==> Journal in steps[i].files)
    && forall i :: from + 1 <= i < from + 6 ==> WhollyNew(b, steps[i].files, names)
  }

  /** From the journal to its removal. With `retain` the staging directory and the previous files stay. */
  method RestoreStaged(disk: FileTree<Place>, names: seq<Name>, b: Backup, ghost before: Tree)
    returns (failure: Option<Failure>, retain: bool)
    requires disk.Valid() && Distinct(names) && Journal !in disk.files && WhollyOld(before, disk.files, names)
    requires forall i :: 0 <= i < |names| ==> NotInstalled(before, b, disk.files, names[i])
    modifies disk
    ensures disk.Valid() && old(disk.history) <= disk.history && SafeSince(before, b, disk.history, |old(disk.history)|, names)
    ensures failure == None ==> !retain && Journal !in disk.files && WhollyNew(b, disk.files, names)
    ensures failure.Some? ==> if retain then Journal in disk.files else failure == Some(JournalFailed) && WhollyOld(before, disk.files, names)
    ensures failure.Some? && retain ==> failure.value in {InstallFailed, DatabaseFailed, ChecksFailed, JournalNotRemoved}
    ensures old(disk.steps) <= disk.steps && disk.faults >= old(disk.faults) && (failure == None <==> disk.faults == old(disk.faults))
    ensures failure == None ==> JournalledSteps(disk.steps, |old(disk.steps)|, b, names)
    ensures CameTo(disk.steps, |old(disk.steps)|, failure)
  {
    hide Did;
    ghost var start, first, from := disk.files, |disk.history|, |disk.steps|;
    var ok := WriteJournal(disk);
    JournalCame(disk.steps, from);
    JournalOnly(before, b, start, disk.files, names);
    forall k | first <= k < |disk.history|
      ensures Safe(before, b, disk.history[k], names)
    {
      JournalOnly(before, b, start, disk.history[k], names);
    }
    if !ok {
      return Some(JournalFailed), false;
    }
    ok := InstallAll(disk, names, b, before);
    if !ok {
      return Some(InstallFailed), true;
    }
    ghost var journalled, ready := disk.steps, disk.files;
    failure, retain := RestoreDatabase(disk, names, b, before);
    CameFurther(journalled, disk.steps, from, failure);
    if failure == None {
      DatabaseIsSafe(before, b, ready, ready[Database := b.dump], names);
      JournalThenDatabase(old(disk.steps), journalled, disk.steps, b, ready[Database := b.dump], names);
    }
  }

  lemma JournalCame(steps: seq<Step<Place>>, from: nat)
    requires Only(steps, from, ["journal synced"])
    ensures !Did(steps, from, "transaction committed") && !Did(steps, from, "runtime reloaded")
  {
    OthersDid(steps, from, ["journal synced"], "transaction committed");
    OthersDid(steps, from, ["journal synced"], "runtime reloaded");
  }

  lemma CameFurther(journalled: seq<Step<Place>>, steps: seq<Step<Place>>, from: nat, failure: Option<Failure>)
    requires from <= |journalled| && journalled <= steps && Only(journalled, from, ["journal synced"])
    requires Did(journalled, from, "journal synced") && CameBehind(steps, |journalled|, failure)
    requires failure.Some? ==> failure.value in {DatabaseFailed, ChecksFailed, JournalNotRemoved}
    ensures CameTo(steps, from, failure)
  {
    JournalCame(journalled, from);
    DidLater(journalled, steps, from, "journal synced");
    DidLater(journalled, steps, from, "transaction committed");
    DidLater(journalled, steps, from, "runtime reloaded");
  }

  lemma CameNowhere(steps: seq<Step<Place>>, from: nat, failure: Option<Failure>)
    requires Only(steps, from, BEFORE_JOURNAL)
    requires failure.Some? && failure.value !in {InstallFailed, DatabaseFailed, ChecksFailed, JournalNotRemoved}
    ensures CameTo(steps, from, failure)
  {
    OthersDid(steps, from, BEFORE_JOURNAL, "journal synced");
    OthersDid(steps, from, BEFORE_JOURNAL, "transaction committed");
    OthersDid(steps, from, BEFORE_JOURNAL, "runtime reloaded");
  }

  /** What was tried before the journal does not count. */
  lemma CameBefore(checked: seq<Step<Place>>, steps: seq<Step<Place>>, from: nat, failure: Option<Failure>)
    requires from <= |checked| && checked <= steps && Only(checked, from, BEFORE_JOURNAL) && CameTo(steps, |checked|, failure)
    ensures CameTo(steps, from, failure)
  {
    OthersDid(checked, from, BEFORE_JOURNAL, "journal synced");
    OthersDid(checked, from, BEFORE_JOURNAL, "transaction committed");
    OthersDid(checked, from, BEFORE_JOURNAL, "runtime reloaded");
    DidLater(checked, steps, from, "journal synced");
    DidLater(checked, steps, from, "transaction committed");
    DidLater(checked, steps, from, "runtime reloaded");
  }

  lemma JournalThenDatabase(start: seq<Step<Place>>, journalled: seq<Step<Place>>, steps: seq<Step<Place>>, b: Backup, restored: Tree, names: seq<Name>)
    requires start <= journalled <= steps && Took(journalled, |start|, ["journal synced"])
    requires forall i :: |start| <= i < |journalled| ==> Journal in journalled[i].files
    requires TookHere(steps, |journalled|, DATABASE_STEPS, restored) && Journal in restored && WhollyNew(b, restored, names)
    ensures JournalledSteps(steps, |start|, b, names)
  {
    TookBoth(journalled, |start|, ["journal synced"], steps, DATABASE_STEPS);
    forall i | |start| <= i < |start| + 6
      ensures Journal in steps[i].files && (i > |start| ==> WhollyNew(b, steps[i].files, names))
    {
      assert i < |journalled| ==> steps[i] == journalled[i];
    }
  }

  lemma ChecksThenJournal(start: seq<Step<Place>>, checked: seq<Step<Place>>, steps: seq<Step<Place>>, b: Backup, names: seq<Name>)
    requires start <= checked <= steps && Took(checked, |start|, BEFORE_JOURNAL)
    requires forall i :: |start| <= i < |checked| ==> Journal !in checked[i].files
    requires JournalledSteps(steps, |checked|, b, names)
    ensures AllSteps(steps, |start|, b, names)
  {
    TookBoth(checked, |start|, BEFORE_JOURNAL, steps, ["journal synced"] + DATABASE_STEPS);
    assert BEFORE_JOURNAL + (["journal synced"] + DATABASE_STEPS) == BEFORE_JOURNAL + ["journal synced"] + DATABASE_STEPS;
    assert forall i :: |start| <= i < |start| + 2 ==> steps[i] == checked[i];
  }

  /** A step behind the database; a failure leaves everything where it is. */
  method StepBehind(disk: FileTree<Place>, name: string, ok: bool, ghost from: nat, ghost done: seq<string>) returns (still: bool)
    requires disk.Valid() && from <= |disk.steps| && (ok ==> TookHere(disk.steps, from, done, disk.files))
    modifies disk`faults, disk`steps
    ensures old(disk.steps) <= disk.steps && disk.faults >= old(disk.faults) && (still <==> ok && disk.faults == old(disk.faults))
    ensures still ==> TookHere(disk.steps, from, done + [name], disk.files)
    ensures Only(disk.steps, |old(disk.steps)|, [name]) && (still <==> Did(disk.steps, |old(disk.steps)|, name))
  {
    still := ok;
    if ok {
      ghost var taken := disk.steps;
      still := disk.Attempt(name);
      DidLast(taken, Step(name, still, disk.files));
      if still {
        TookOneMore(taken, from, done, Step(name, true, disk.files));
      }
    }
  }

  lemma Committed(from: nat, restored: seq<Step<Place>>, steps: seq<Step<Place>>)
    requires from <= |restored| && restored <= steps
    requires Only(restored, from, ["database restored"]) && Only(steps, |restored|, ["transaction committed"])
    ensures Did(steps, from, "transaction committed") <==> Did(steps, |restored|, "transaction committed")
    ensures !Did(steps, from, "runtime reloaded") && Only(steps, from, DATABASE_STEPS)
  {
    DidLater(restored, steps, from, "transaction committed");
    OthersDid(restored, from, ["database restored"], "transaction committed");
    forall i | from <= i < |steps|
      ensures steps[i].name in ["database restored", "transaction committed"]
    {
      assert i < |restored| ==> steps[i] == restored[i];
    }
    OthersDid(steps, from, ["database restored", "transaction committed"], "runtime reloaded");
  }

  const CHECKS := ["schema checked", "derived data rebuilt", "runtime reloaded"]

  lemma Checked(from: nat, committed: seq<Step<Place>>, steps: seq<Step<Place>>)
    requires from <= |committed| && committed <= steps
    requires Did(committed, from, "transaction committed") && !Did(committed, from, "runtime reloaded")
    requires Only(committed, from, DATABASE_STEPS) && Only(steps, |committed|, CHECKS)
    ensures Did(steps, from, "transaction committed") && Only(steps, from, DATABASE_STEPS)
    ensures Did(steps, from, "runtime reloaded") <==> Did(steps, |committed|, "runtime reloaded")
  {
    DidLater(committed, steps, from, "transaction committed");
    DidLater(committed, steps, from, "runtime reloaded");
    forall i | from <= i < |steps|
      ensures steps[i].name in DATABASE_STEPS
    {
      assert i < |committed| ==> steps[i] == committed[i];
    }
  }

  /** The checks behind the commit, the last of which is the reload of the running server. */
  method RunChecks(disk: FileTree<Place>, ghost from: nat) returns (ok: bool)
    requires disk.Valid() && from <= |disk.steps|
    requires TookHere(disk.steps, from, ["database restored"] + ["transaction committed"], disk.files)
    modifies disk`faults, disk`steps
    ensures old(disk.steps) <= disk.steps && disk.faults >= old(disk.faults) && (ok <==> disk.faults == old(disk.faults))
    ensures ok ==> TookHere(disk.steps, from, DATABASE_STEPS, disk.files)
    ensures Only(disk.steps, |old(disk.steps)|, CHECKS) && (ok <==> Did(disk.steps, |old(disk.steps)|, "runtime reloaded"))
  {
    hide Did, TookHere;
    ghost var done, s1 := ["database restored"] + ["transaction committed"], disk.steps;
    ok := StepBehind(disk, "schema checked", true, from, done);
    done := done + ["schema checked"];
    ghost var s2 := disk.steps;
    ok := StepBehind(disk, "derived data rebuilt", ok, from, done);
    done := done + ["derived data rebuilt"];
    ghost var s3 := disk.steps;
    ok := StepBehind(disk, "runtime reloaded", ok, from, done);
    done := done + ["runtime reloaded"];
    assert done == DATABASE_STEPS;
    OnlyChecks(s1, s2, s3, disk.steps);
  }

  lemma OnlyChecks(s1: seq<Step<Place>>, s2: seq<Step<Place>>, s3: seq<Step<Place>>, steps: seq<Step<Place>>)
    requires s1 <= s2 <= s3 <= steps
    requires Only(s2, |s1|, ["schema checked"]) && Only(s3, |s2|, ["derived data rebuilt"]) && Only(steps, |s3|, ["runtime reloaded"])
    ensures Only(steps, |s1|, CHECKS)
    ensures Did(steps, |s1|, "runtime reloaded") <==> Did(steps, |s3|, "runtime reloaded")
  {
    forall i | |s1| <= i < |steps|
      ensures steps[i].name in CHECKS && (i < |s3| ==> s3[i].name in ["schema checked", "derived data rebuilt"])
    {
      assert i < |s3| ==> steps[i] == s3[i];
      assert i < |s2| ==> steps[i] == s2[i];
    }
    OthersDid(s3, |s1|, ["schema checked", "derived data rebuilt"], "runtime reloaded");
    DidLater(s3, steps, |s1|, "runtime reloaded");
  }

  /** The database, the checks that follow, and the end of the journal. */
  method RestoreDatabase(disk: FileTree<Place>, names: seq<Name>, b: Backup, ghost before: Tree)
    returns (failure: Option<Failure>, retain: bool)
    requires disk.Valid() && Progress(before, b, disk.files, names, |names|)
    modifies disk
    ensures disk.Valid() && old(disk.history) <= disk.history && SafeSince(before, b, disk.history, |old(disk.history)|, names)
    ensures failure == None ==> !retain && Journal !in disk.files && WhollyNew(b, disk.files, names)
    ensures failure.Some? ==> retain && Journal in disk.files && failure.value in {DatabaseFailed, ChecksFailed, JournalNotRemoved}
    ensures old(disk.steps) <= disk.steps && disk.faults >= old(disk.faults) && (failure == None <==> disk.faults == old(disk.faults))
    ensures failure == None ==> TookHere(disk.steps, |old(disk.steps)|, DATABASE_STEPS, old(disk.files)[Database := b.dump])
    ensures CameBehind(disk.steps, |old(disk.steps)|, failure) && Only(disk.steps, |old(disk.steps)|, DATABASE_STEPS)
  {
    hide Did;
    ghost var installed, from := disk.files, |disk.steps|;
    ProgressIsSafe(before, b, installed, names, |names|);
    DatabaseIsSafe(before, b, installed, installed[Database := b.dump], names);
    retain := true;
    var ok := PgRestore(disk, b.dump);
    // The transaction that holds the advisory lock may fail to commit.
    ghost var done, s0 := ["database restored"], disk.steps;
    ok := StepBehind(disk, "transaction committed", ok, from, done);
    done := done + ["transaction committed"];
    ghost var s1 := disk.steps;
    Committed(from, s0, s1);
    if !ok {
      return Some(DatabaseFailed), retain;
    }
    ok := RunChecks(disk, from);
    Checked(from, s1, disk.steps);
    if !ok {
      return Some(ChecksFailed), retain;
    }
    ok := disk.Remove(Journal);
    if !ok {
      return Some(JournalNotRemoved), retain;
    }
    retain := false;
    failure := None;
  }

  /**
     Main result: at every moment of the restore, whatever fails and wherever the process stops, a tree without a journal
     is wholly old or wholly new, files and database, and a tree with the journal still has every prior component, at its
     live path or among the previous files. The restore is refused only if something failed, a journal stands, or the
     target holds files that the caller did not agree to replace. It succeeds only if every step has, in order; then nothing
     but the removal of the staging directory can have failed.
   */
  method RestoreBackup(disk: FileTree<Place>, names: seq<Name>, b: Backup, replace: bool) returns (failure: Option<Failure>)
    requires disk.Valid() && Distinct(names) && forall n :: Previous(n) !in disk.files && Incoming(n) !in disk.files
    modifies disk
    ensures disk.Valid() && old(disk.history) <= disk.history
    ensures SafeSince(old(disk.files), b, disk.history, |old(disk.history)|, names)
    ensures failure == None ==> Journal !in disk.files && WhollyNew(b, disk.files, names)
    ensures failure.Some? && Journal !in disk.files ==> WhollyOld(old(disk.files), disk.files, names)
    ensures Journal in old(disk.files) ==> failure == Some(TransferPending) && unchanged(disk)
    ensures !replace && (exists i :: 0 <= i < |names| && Current(names[i]) in old(disk.files)) ==>
              failure.Some? && WhollyOld(old(disk.files), disk.files, names)
    ensures failure.Some? && failure.value in {InstallFailed, DatabaseFailed, ChecksFailed, JournalNotRemoved} ==> Journal in disk.files
    ensures failure.Some? ==>
              || disk.faults > old(disk.faults) || Journal in old(disk.files)
              || (!replace && exists i :: 0 <= i < |names| && Current(names[i]) in old(disk.files))
    ensures failure == None ==> AllSteps(disk.steps, |old(disk.steps)|, b, names)
    ensures failure == None ==> (disk.faults > old(disk.faults) <==> StageRemains(disk.files, names))
    ensures failure.Some? && failure.value in {StagingFailed, Incompatible, JournalFailed} && StageRemains(disk.files, names) ==> disk.faults > old(disk.faults) + 1
    ensures failure == Some(TargetNotEmpty) && StageRemains(disk.files, names) ==> disk.faults > old(disk.faults)
    ensures CameTo(disk.steps, |old(disk.steps)|, failure)
  {
    ghost var before, first := disk.files, |disk.history|;
    var pending := disk.Exists(Journal);
    if pending {
      CameNowhere(disk.steps, |disk.steps|, Some(TransferPending));
      return Some(TransferPending);
    }
    var staged := StageBackup(disk, names, b);
    StageIsSafe(before, b, before, disk.history, first, names);
    FrameStage(before, b, before, disk.files, names);
    if !staged {
      CameNowhere(disk.steps, |disk.steps|, Some(StagingFailed));
      return Some(StagingFailed);
    }
    var retain;
    failure, retain := CheckAndRestore(disk, names, b, replace, before);
    if !retain {
      ghost var now, h := disk.files, |disk.history|;
      RemoveStage(disk, names);
      FrameStage(before, b, now, disk.files, names);
      StageIsSafe(before, b, now, disk.history, h, names);
    }
  }

  lemma StageIsSafe(before: Tree, b: Backup, now: Tree, history: seq<Tree>, first: nat, names: seq<Name>)
    requires WhollyOld(before, now, names) || (WhollyNew(b, now, names) && Journal !in now)
    requires forall k :: first <= k < |history| ==> SameButStage(now, history[k])
    ensures SafeSince(before, b, history, first, names)
  {
    forall k | first <= k < |history|
      ensures Safe(before, b, history[k], names)
    {
      FrameStage(before, b, now, history[k], names);
    }
  }

  /** Whether the target may be written: it is compatible, and holds nothing unless that may be replaced. */
  method CheckTarget(disk: FileTree<Place>, names: seq<Name>, replace: bool) returns (failure: Option<Failure>)
    requires disk.Valid() && Journal !in disk.files
    modifies disk`faults, disk`steps
    ensures disk.faults >= old(disk.faults) && old(disk.steps) <= disk.steps
    ensures failure.Some? ==> failure.value in {Incompatible, TargetNotEmpty}
    ensures failure == Some(Incompatible) ==> disk.faults > old(disk.faults)
    ensures !replace && (exists i :: 0 <= i < |names| && Current(names[i]) in disk.files) ==> failure.Some?
    ensures failure.Some? ==> disk.faults > old(disk.faults) || (!replace && exists i :: 0 <= i < |names| && Current(names[i]) in disk.files)
    ensures failure == None ==> disk.faults == old(disk.faults) && TookHere(disk.steps, |old(disk.steps)|, BEFORE_JOURNAL, disk.files)
    ensures Only(disk.steps, |old(disk.steps)|, BEFORE_JOURNAL)
  {
    NoSteps(disk.steps);
    var compatible := disk.Attempt("backup compatible");
    ghost var first := disk.steps;
    if !compatible {
      return Some(Incompatible);
    }
    if !replace {
      for i := 0 to |names|
        invariant disk.steps == first && disk.faults == old(disk.faults)
        invariant forall j :: 0 <= j < i ==> Current(names[j]) !in disk.files
      {
        var present := disk.Exists(Current(names[i]));
        if present {
          return Some(TargetNotEmpty);
        }
      }
    }
    // The advisory lock, and the check for an empty database.
    var admitted := disk.Attempt("target locked and empty");
    if !admitted {
      return Some(TargetNotEmpty);
    }
    TookOneMore(first, |old(disk.steps)|, ["backup compatible"], Step("target locked and empty", true, disk.files));
    assert ["backup compatible"] + ["target locked and empty"] == BEFORE_JOURNAL;
    failure := None;
  }

  lemma OldTarget(before: Tree, now: Tree, names: seq<Name>)
    requires WhollyOld(before, now, names)
    ensures forall i :: 0 <= i < |names| ==> (Current(names[i]) in before <==> Current(names[i]) in now)
  {
    forall i | 0 <= i < |names|
      ensures Current(names[i]) in before <==> Current(names[i]) in now
    {
      assert SameAt(before, now, Current(names[i]));
    }
  }

  /** The compatibility checks, the check for an empty target, and the restore proper. */
  method CheckAndRestore(disk: FileTree<Place>, names: seq<Name>, b: Backup, replace: bool, ghost before: Tree)
    returns (failure: Option<Failure>, retain: bool)
    requires disk.Valid() && Distinct(names) && Journal !in disk.files && WhollyOld(before, disk.files, names)
    requires forall i :: 0 <= i < |names| ==> NotInstalled(before, b, disk.files, names[i])
    modifies disk
    ensures disk.Valid() && old(disk.history) <= disk.history && SafeSince(before, b, disk.history, |old(disk.history)|, names)
    ensures failure == None ==> !retain && Journal !in disk.files && WhollyNew(b, disk.files, names)
    ensures failure.Some? && retain ==> Journal in disk.files && failure.value in {InstallFailed, DatabaseFailed, ChecksFailed, JournalNotRemoved}
    ensures failure.Some? && !retain ==> failure.value in {Incompatible, TargetNotEmpty, JournalFailed} && WhollyOld(before, disk.files, names)
    ensures !replace && (exists i :: 0 <= i < |names| && Current(names[i]) in before) ==> failure.Some? && !retain
    ensures disk.faults >= old(disk.faults) && (failure == None ==> disk.faults == old(disk.faults))
    ensures failure.Some? ==> disk.faults > old(disk.faults) || (!replace && exists i :: 0 <= i < |names| && Current(names[i]) in before)
    ensures failure.Some? && failure != Some(TargetNotEmpty) ==> disk.faults > old(disk.faults)
    ensures failure == None ==> AllSteps(disk.steps, |old(disk.steps)|, b, names)
    ensures CameTo(disk.steps, |old(disk.steps)|, failure)
  {
    hide CameTo;
    ghost var from := |disk.steps|;
    failure := CheckTarget(disk, names, replace);
    OldTarget(before, disk.files, names);
    if failure.Some? {
      CameNowhere(disk.steps, from, failure);
      return failure, false;
    }
    ghost var checked := disk.steps;
    failure, retain := RestoreStaged(disk, names, b, before);
    CameBefore(checked, disk.steps, from, failure);
    if failure == None {
      ChecksThenJournal(old(disk.steps), checked, disk.steps, b, names);
    }
  }
}
