/**
 The import of a legacy workspace into an empty target (backend/internal/transfer/import.go): one database transaction,
 a journal, copied files, a receipt. The database is one place of the tree, so the history shows files and data together.
 */
module LegacyImport {
  import opened Wrappers
  import opened Disk

  datatype Place = File(path: string) | Receipt | Journal | Database

  type Tree = map<Place, Content>

  /** `persistent` is the verdict of persistentFile on the path. */
  datatype SourceFile = SourceFile(path: string, content: Content, persistent: bool)

  /** What the source holds, and the database content that its pages, revisions and accounts make. */
  datatype Source = Source(files: seq<SourceFile>, data: Content)

  datatype Report = Report(failed: bool, committed: bool, commitUnknown: bool)

  predicate DistinctPaths(files: seq<SourceFile>) {
    forall i, j :: 0 <= i < j < |files| ==> files[i].path != files[j].path
  }

  // ----- The three outcomes -----

  predicate NoFiles(now: Tree) {
    Receipt !in now && forall p :: p in now ==> !p.File?
  }

  predicate RolledBack(before: Tree, now: Tree) {
    Journal !in now && NoFiles(now) && SameAt(before, now, Database)
  }

  predicate Pending(now: Tree) {
    Journal in now
  }

  predicate CopiedAt(now: Tree, f: SourceFile) {
    f.persistent ==> File(f.path) in now && now[File(f.path)] == f.content
  }

  predicate Copied(now: Tree, files: seq<SourceFile>) {
    forall i :: 0 <= i < |files| ==> CopiedAt(now, files[i])
  }

  predicate IsPersistent(files: seq<SourceFile>, path: string) {
    exists i :: 0 <= i < |files| && files[i].persistent && files[i].path == path
  }

  /** No other files are in the target. */
  predicate OnlyPersistent(now: Tree, files: seq<SourceFile>) {
    forall p :: p in now && p.File? ==> IsPersistent(files, p.path)
  }

  predicate Imported(source: Source, now: Tree) {
    && Journal !in now && Receipt in now && Database in now && now[Database] == source.data
    && Copied(now, source.files) && OnlyPersistent(now, source.files)
  }

  predicate Safe(before: Tree, source: Source, now: Tree) {
    RolledBack(before, now) || Pending(now) || Imported(source, now)
  }

  ghost predicate SafeSince(before: Tree, source: Source, history: seq<Tree>, first: nat) {
    forall k :: first <= k < |history| ==> Safe(before, source, history[k])
  }

  /** Since state number `first` the journal has been there. */
  ghost predicate PendingSince(history: seq<Tree>, first: nat) {
    forall k :: first <= k < |history| ==> Pending(history[k])
  }

  // ----- Steps -----

  const PREFLIGHT := ["legacy preflight passed", "schema checked", "contents compatible", "source unchanged"]
  const TRANSACTION := ["database locked and empty", "rows written", "constraints checked"]
  const COMMIT := ["transaction committed", "receipt synced", "derived data rebuilt"]

  /** The steps that tell how far an import came. */
  const MILESTONES := {"journal synced", "source still unchanged", "transaction committed"}

  /** None of them is among the steps from number `from` on. */
  predicate NoMilestone(steps: seq<Step<Place>>, from: nat) {
    forall i :: from <= i < |steps| ==> steps[i].name !in MILESTONES
  }

  lemma NoSteps(steps: seq<Step<Place>>)
    ensures Took(steps, |steps|, [])
    ensures forall step: Step<Place> :: step.ok ==> Took(steps + [step], |steps|, [step.name])
  {
  }

  /** One more step, if all was well so far. */
  method Go(disk: FileTree<Place>, name: string, ok: bool, ghost from: nat, ghost done: seq<string>) returns (still: bool)
    requires from <= |disk.steps| && (ok ==> Took(disk.steps, from, done))
    modifies disk`faults, disk`steps
    ensures old(disk.steps) <= disk.steps && disk.faults >= old(disk.faults) && (still <==> ok && disk.faults == old(disk.faults))
    ensures still ==> Took(disk.steps, from, done + [name]) && |disk.steps| == |old(disk.steps)| + 1 && disk.steps[|old(disk.steps)|].files == disk.files
    ensures forall i :: |old(disk.steps)| <= i < |disk.steps| ==> disk.steps[i].name == name
    ensures ok ==> (still <==> Did(disk.steps, |old(disk.steps)|, name))
    ensures !ok ==> disk.steps == old(disk.steps)
  {
    still := ok;
    if ok {
      ghost var taken := disk.steps;
      still := disk.Attempt(name);
      if still {
        TookOneMore(taken, from, done, Step(name, true, disk.files));
      }
    }
  }

  // ----- Copying and cleaning up -----

  /** The files in the target are among the installed ones. */
  predicate OnlyInstalled(now: Tree, installed: seq<string>) {
    forall p :: p in now && p.File? ==> p.path in installed
  }

  /** copyRegular: a failure may leave nothing or an incomplete file. */
  method CopyRegular(disk: FileTree<Place>, f: SourceFile) returns (ok: bool)
    requires disk.Valid()
    modifies disk
    ensures disk.Valid() && old(disk.history) <= disk.history
    ensures forall p :: p != File(f.path) ==> SameAt(old(disk.files), disk.files, p)
    ensures Pending(old(disk.files)) ==> PendingSince(disk.history, |old(disk.history)|)
    ensures ok ==> File(f.path) in disk.files && disk.files[File(f.path)] == f.content
    ensures disk.steps == old(disk.steps) && disk.faults >= old(disk.faults) && (ok <==> disk.faults == old(disk.faults))
  {
    ok := disk.Succeeds();
    var partial: Content := *;
    var created := disk.Create(File(f.path), if ok then f.content else partial);
    ok := ok && created;
  }

  /** The copy loop. `installed` lists every path a copy was begun for. */
  method CopyFiles(disk: FileTree<Place>, files: seq<SourceFile>) returns (ok: bool, installed: seq<string>)
    requires disk.Valid() && DistinctPaths(files) && Journal in disk.files && NoFiles(disk.files)
    modifies disk
    ensures disk.Valid() && old(disk.history) <= disk.history && PendingSince(disk.history, |old(disk.history)|)
    ensures Journal in disk.files && Receipt !in disk.files && SameAt(old(disk.files), disk.files, Database)
    ensures OnlyInstalled(disk.files, installed) && OnlyPersistent(disk.files, files)
    ensures ok ==> Copied(disk.files, files)
    ensures disk.steps == old(disk.steps) && disk.faults >= old(disk.faults) && (ok <==> disk.faults == old(disk.faults))
  {
    installed := [];
    for i := 0 to |files|
      invariant disk.steps == old(disk.steps) && disk.faults == old(disk.faults) && OnlyPersistent(disk.files, files)
      invariant disk.Valid() && old(disk.history) <= disk.history && PendingSince(disk.history, |old(disk.history)|)
      invariant Journal in disk.files && Receipt !in disk.files && SameAt(old(disk.files), disk.files, Database)
      invariant OnlyInstalled(disk.files, installed)
      invariant Copied(disk.files, files[..i])
    {
      if files[i].persistent {
        ghost var start := disk.files;
        installed := installed + [files[i].path];
        ok := CopyRegular(disk, files[i]);
        assert SameAt(start, disk.files, Journal) && SameAt(start, disk.files, Receipt) && SameAt(start, disk.files, Database);
        forall p | p in disk.files && p.File?
          ensures p.path in installed && IsPersistent(files, p.path)
        {
          assert SameAt(start, disk.files, p) || p == File(files[i].path);
        }
        if !ok { return; }
        CopyKeeps(start, disk.files, files, i);
      }
      assert files[..i + 1] == files[..i] + [files[i]];
    }
    assert files[..|files|] == files;
    ok := true;
  }

  lemma CopyKeeps(start: Tree, now: Tree, files: seq<SourceFile>, i: nat)
    requires i < |files| && DistinctPaths(files) && Copied(start, files[..i])
    requires forall p :: p != File(files[i].path) ==> SameAt(start, now, p)
    ensures Copied(now, files[..i])
  {
    forall j | 0 <= j < i
      ensures CopiedAt(now, files[..i][j])
    {
      assert CopiedAt(start, files[..i][j]) && files[..i][j].path != files[i].path;
      assert SameAt(start, now, File(files[j].path));
    }
  }

  /** Cleaning up after a rollback: every installed file, the directories, and last the journal. */
  method CleanUp(disk: FileTree<Place>, installed: seq<string>, ghost before: Tree, ghost source: Source) returns (ok: bool)
    requires disk.Valid() && Journal in disk.files && Receipt !in disk.files && SameAt(before, disk.files, Database)
    requires OnlyInstalled(disk.files, installed)
    modifies disk
    ensures disk.Valid() && old(disk.history) <= disk.history && SafeSince(before, source, disk.history, |old(disk.history)|)
    ensures SameAt(before, disk.files, Database)
    ensures if ok then RolledBack(before, disk.files) else Pending(disk.files)
    ensures old(disk.steps) <= disk.steps && disk.faults >= old(disk.faults) && (ok <==> disk.faults == old(disk.faults))
    ensures ok ==> Took(disk.steps, |old(disk.steps)|, ["directories removed"])
    ensures NoMilestone(disk.steps, |old(disk.steps)|)
  {
    NoSteps(disk.steps);
    for i := 0 to |installed|
      invariant disk.steps == old(disk.steps) && disk.faults == old(disk.faults)
      invariant disk.Valid() && old(disk.history) <= disk.history && PendingSince(disk.history, |old(disk.history)|)
      invariant Journal in disk.files && Receipt !in disk.files && SameAt(before, disk.files, Database)
      invariant OnlyInstalled(disk.files, installed[i..])
    {
      ok := disk.Remove(File(installed[i]));
      if !ok { return; }
      assert installed[i..] == [installed[i]] + installed[i + 1..];
    }
    // The directories are empty now; removing them may still fail.
    ok := disk.Attempt("directories removed");
    if !ok { return; }
    ok := disk.Remove(Journal);
  }

  /** writeExclusive: an error may come before or after the file exists. */
  method WriteExclusive(disk: FileTree<Place>, p: Place, text: Content, name: string) returns (ok: bool)
    requires disk.Valid() && p in {Journal, Receipt}
    modifies disk
    ensures disk.Valid() && disk.history == old(disk.history) + [disk.files]
    ensures disk.files == old(disk.files) || disk.files == old(disk.files)[p := text]
    ensures ok ==> disk.files == old(disk.files)[p := text]
    ensures old(disk.steps) <= disk.steps && disk.faults >= old(disk.faults) && (ok <==> disk.faults == old(disk.faults))
    ensures ok ==> Took(disk.steps, |old(disk.steps)|, [name])
    ensures !ok ==> forall i :: |old(disk.steps)| <= i < |disk.steps| ==> !disk.steps[i].ok
    ensures forall i :: |old(disk.steps)| <= i < |disk.steps| ==> disk.steps[i].name == name
  {
    NoSteps(disk.steps);
    var created := disk.Create(p, text);
    ok := created;
    if created {
      ok := disk.Attempt(name);
    }
  }

  // ----- The import -----

  /**
   Main result: at every moment the target is either untouched with the data rolled back and no journal, or the journal
   is there, or data, files and receipt are all in place and the journal is gone. A dry run only ever shows the first.
   The import fails only if something did, or if the target was not empty, and succeeds only if every step has, in order;
   only persistent files are copied. A failed copy leaves the journal only if cleaning up has failed too.
   */
  method ImportLegacy(disk: FileTree<Place>, source: Source, dryRun: bool) returns (report: Report)
    requires disk.Valid() && DistinctPaths(source.files)
    modifies disk
    ensures disk.Valid() && old(disk.history) <= disk.history
    ensures SafeSince(old(disk.files), source, disk.history, |old(disk.history)|)
    ensures !report.failed && !dryRun ==> Imported(source, disk.files) && report.committed
    ensures report.failed ==> disk.files == old(disk.files) || RolledBack(old(disk.files), disk.files) || Pending(disk.files)
    ensures report.committed ==> Database in disk.files && disk.files[Database] == source.data && !report.commitUnknown
    ensures report.failed && !report.committed && !report.commitUnknown ==> SameAt(old(disk.files), disk.files, Database)
    ensures report.commitUnknown ==> report.failed && Pending(disk.files) && Copied(disk.files, source.files)
    ensures dryRun || Journal in old(disk.files) || Receipt in old(disk.files) || !NoFiles(old(disk.files)) ==>
              disk.files == old(disk.files) && disk.history == old(disk.history)
    ensures report.failed <==> disk.faults > old(disk.faults) || exists p :: p in old(disk.files) && p != Database
    ensures !report.failed ==> Took(disk.steps, |old(disk.steps)|, PREFLIGHT + TRANSACTION + if dryRun then [] else ["journal synced", "source still unchanged"] + COMMIT)
    ensures Did(disk.steps, |old(disk.steps)|, "journal synced") && Pending(disk.files) && !report.committed && !report.commitUnknown ==> disk.faults > old(disk.faults) + 1
    ensures report.committed <==> Did(disk.steps, |old(disk.steps)|, "transaction committed")
    ensures report.commitUnknown <==> !report.committed && Did(disk.steps, |old(disk.steps)|, "source still unchanged")
  {
    ghost var from := |disk.steps|;
    var ok := Admit(disk);
    if !ok {
      return Report(true, false, false);
    }
    ok := FillTransaction(disk, from);
    if !ok {
      return Report(true, false, false);
    }
    if dryRun {
      assert PREFLIGHT + TRANSACTION + [] == PREFLIGHT + TRANSACTION;
      return Report(false, false, false);
    }
    ghost var filled := disk.steps;
    report := CopyAndCommit(disk, source);
    DidLater(filled, disk.steps, from, "journal synced");
    DidLater(filled, disk.steps, from, "source still unchanged");
    DidLater(filled, disk.steps, from, "transaction committed");
    if !report.failed {
      TookBoth(filled, from, PREFLIGHT + TRANSACTION, disk.steps, ["journal synced", "source still unchanged"] + COMMIT);
    }
  }

  /** Inspection of the source and the schema, and the checks on the target. */
  method Admit(disk: FileTree<Place>) returns (ok: bool)
    requires disk.Valid()
    modifies disk`faults, disk`steps
    ensures old(disk.steps) <= disk.steps && disk.faults >= old(disk.faults)
    ensures ok <==> disk.faults == old(disk.faults) && forall p :: p in disk.files ==> p == Database
    ensures ok ==> Took(disk.steps, |old(disk.steps)|, PREFLIGHT)
    ensures NoMilestone(disk.steps, |old(disk.steps)|)
  {
    ghost var from := |disk.steps|;
    NoSteps(disk.steps);
    ok := Go(disk, "legacy preflight passed", true, from, []);
    ok := Go(disk, "schema checked", ok, from, [] + ["legacy preflight passed"]);
    var empty := forall p | p in disk.files :: p == Database;
    if !ok || !empty {
      return false;
    }
    ok := Go(disk, "contents compatible", ok, from, [] + ["legacy preflight passed"] + ["schema checked"]);
    ok := Go(disk, "source unchanged", ok, from, [] + ["legacy preflight passed"] + ["schema checked"] + ["contents compatible"]);
    assert [] + ["legacy preflight passed"] + ["schema checked"] + ["contents compatible"] + ["source unchanged"] == PREFLIGHT;
  }

  /** Inside the transaction: locks, rows, constraints. */
  method FillTransaction(disk: FileTree<Place>, ghost from: nat) returns (ok: bool)
    requires from <= |disk.steps| && Took(disk.steps, from, PREFLIGHT)
    modifies disk`faults, disk`steps
    ensures old(disk.steps) <= disk.steps && disk.faults >= old(disk.faults) && (ok <==> disk.faults == old(disk.faults))
    ensures ok ==> Took(disk.steps, from, PREFLIGHT + TRANSACTION)
    ensures NoMilestone(disk.steps, |old(disk.steps)|)
  {
    ok := Go(disk, "database locked and empty", true, from, PREFLIGHT);
    ok := Go(disk, "rows written", ok, from, PREFLIGHT + ["database locked and empty"]);
    ok := Go(disk, "constraints checked", ok, from, PREFLIGHT + ["database locked and empty"] + ["rows written"]);
    assert PREFLIGHT + ["database locked and empty"] + ["rows written"] + ["constraints checked"] == PREFLIGHT + TRANSACTION;
  }

  method CopyAndCommit(disk: FileTree<Place>, source: Source) returns (report: Report)
    requires disk.Valid() && DistinctPaths(source.files) && Journal !in disk.files && NoFiles(disk.files)
    modifies disk
    ensures disk.Valid() && old(disk.history) <= disk.history
    ensures SafeSince(old(disk.files), source, disk.history, |old(disk.history)|)
    ensures !report.failed ==> Imported(source, disk.files) && report.committed
    ensures report.failed ==> RolledBack(old(disk.files), disk.files) || Pending(disk.files)
    ensures report.committed ==> Database in disk.files && disk.files[Database] == source.data && !report.commitUnknown
    ensures report.failed && !report.committed && !report.commitUnknown ==> SameAt(old(disk.files), disk.files, Database)
    ensures report.commitUnknown ==> report.failed && Pending(disk.files) && Copied(disk.files, source.files)
    ensures old(disk.steps) <= disk.steps && disk.faults >= old(disk.faults) && (report.failed <==> disk.faults > old(disk.faults))
    ensures !report.failed ==> Took(disk.steps, |old(disk.steps)|, ["journal synced", "source still unchanged"] + COMMIT)
    ensures Did(disk.steps, |old(disk.steps)|, "journal synced") && Pending(disk.files) && !report.committed && !report.commitUnknown ==> disk.faults > old(disk.faults) + 1
    ensures report.committed <==> Did(disk.steps, |old(disk.steps)|, "transaction committed")
    ensures report.commitUnknown <==> !report.committed && Did(disk.steps, |old(disk.steps)|, "source still unchanged")
  {
    ghost var before, from := disk.files, |disk.steps|;
    var journalCreated := WriteExclusive(disk, Journal, "commit-not-confirmed", "journal synced");
    if !journalCreated {
      return Report(true, false, false);
    }
    var ok, installed := CopyFiles(disk, source.files);
    // The inventory of the source is taken once more.
    ghost var journalled := disk.steps;
    ok := Go(disk, "source still unchanged", ok, from, ["journal synced"]);
    ghost var ready := disk.steps;
    DidLater(journalled, ready, from, "source still unchanged");
    if !ok {
      var _ := CleanUp(disk, installed, before, source);
      DidLater(ready, disk.steps, from, "source still unchanged");
      return Report(true, false, false);
    }
    report := Commit(disk, source, before);
    DidLater(ready, disk.steps, from, "source still unchanged");
    DidLater(ready, disk.steps, from, "transaction committed");
    if !report.failed {
      TookBoth(ready, from, ["journal synced"] + ["source still unchanged"], disk.steps, COMMIT);
      assert ["journal synced"] + ["source still unchanged"] + COMMIT == ["journal synced", "source still unchanged"] + COMMIT;
    }
  }

  /** The commit of the transaction, whose outcome may stay unknown, and the steps that end the import. */
  method Commit(disk: FileTree<Place>, source: Source, ghost before: Tree) returns (report: Report)
    requires disk.Valid() && Journal in disk.files && Copied(disk.files, source.files) && OnlyPersistent(disk.files, source.files)
    modifies disk
    ensures disk.Valid() && old(disk.history) <= disk.history
    ensures SafeSince(before, source, disk.history, |old(disk.history)|)
    ensures !report.failed ==> Imported(source, disk.files) && report.committed
    ensures report.failed ==> Pending(disk.files) && (report.committed || report.commitUnknown)
    ensures report.committed ==> Database in disk.files && disk.files[Database] == source.data && !report.commitUnknown
    ensures report.commitUnknown ==> report.failed && Copied(disk.files, source.files)
    ensures old(disk.steps) <= disk.steps && disk.faults >= old(disk.faults) && (report.failed <==> disk.faults > old(disk.faults))
    ensures !report.failed ==> Took(disk.steps, |old(disk.steps)|, COMMIT)
    ensures report.committed <==> Did(disk.steps, |old(disk.steps)|, "transaction committed")
    ensures report.commitUnknown <==> !report.committed
  {
    hide Did;
    ghost var copied, from := disk.files, |disk.steps|;
    NoSteps(disk.steps);
    NothingDone(disk.steps, "transaction committed");
    var ok := disk.Create(Database, source.data);
    ok := Go(disk, "transaction committed", ok, from, []);
    OthersKeepCopied(copied, disk.files, source.files);
    if !ok {
      return Report(true, false, true);
    }
    report := Report(true, true, false);
    ghost var taken := disk.steps;
    ok := WriteExclusive(disk, Receipt, "receipt", "receipt synced");
    DidLater(taken, disk.steps, from, "transaction committed");
    if !ok {
      return;
    }
    TookBoth(taken, from, [] + ["transaction committed"], disk.steps, ["receipt synced"]);
    ok := Go(disk, "derived data rebuilt", true, from, [] + ["transaction committed"] + ["receipt synced"]);
    DidLater(taken, disk.steps, from, "transaction committed");
    assert [] + ["transaction committed"] + ["receipt synced"] + ["derived data rebuilt"] == COMMIT;
    if !ok {
      return;
    }
    ok := disk.Remove(Journal);
    OthersKeepCopied(copied, disk.files, source.files);
    if ok {
      report := Report(false, true, false);
    }
  }

  lemma OthersKeepCopied(a: Tree, b: Tree, files: seq<SourceFile>)
    requires Copied(a, files) && OnlyPersistent(a, files) && forall p: Place :: p.File? ==> SameAt(a, b, p)
    ensures Copied(b, files) && OnlyPersistent(b, files)
  {
    forall i | 0 <= i < |files|
      ensures CopiedAt(b, files[i])
    {
      assert CopiedAt(a, files[i]) && SameAt(a, b, File(files[i].path));
    }
    forall p | p in b && p.File?
      ensures IsPersistent(files, p.path)
    {
      assert SameAt(a, b, p);
    }
  }
}
