/**
 What a restore may do to the data directory (backend/internal/restore): trees of places compared with the tree before it,
 and the log files that the database engine keeps beside its databases.
 */
module RestoredTree {
  import opened Wrappers
  import opened Disk
  import opened Swap

  /** The services that hold a database file open; each is optional. */
  datatype Store = Users | ApiKeys | Favorites | UserSettings

  function DbOf(s: Store): Name {
    match s
    case Users => UsersDb
    case ApiKeys => ApiKeysDb
    case Favorites => FavoritesDb
    case UserSettings => UserSettingsDb
  }

  const DB_NAMES: seq<Name> := [UsersDb, ApiKeysDb, FavoritesDb, UserSettingsDb]

  type Snapshot = map<Name, Content>

  /** Item n after a successful restore: replaced if the snapshot holds it, else as before. */
  predicate Restored(snapshot: Snapshot, before: Tree, now: Tree, n: Name) {
    if n in snapshot then Live(n) in now && now[Live(n)] == snapshot[n] else SameAt(before, now, Live(n))
  }

  ghost predicate AllRestored(snapshot: Snapshot, before: Tree, now: Tree) {
    forall n: Name :: Restored(snapshot, before, now, n)
  }

  /** Every item is what it was before, absent ones included. */
  ghost predicate Original(before: Tree, now: Tree) {
    forall n: Name :: SameAt(before, now, Live(n))
  }

  /** No original is lost: each is at its live path or at its pre-restore path. */
  ghost predicate NothingLost(run: nat, before: Tree, now: Tree) {
    forall n: Name :: Conserved(run, before, now, n)
  }

  /** The two trees differ at most in the staging directory and the sidecar files. */
  ghost predicate SameItems(run: nat, a: Tree, b: Tree) {
    forall n: Name :: SameAt(a, b, Live(n)) && SameAt(a, b, Aside(run, n))
  }

  ghost predicate StagedIs(run: nat, snapshot: Snapshot, now: Tree) {
    forall n: Name :: StagedAs(run, snapshot, now, n)
  }

  lemma EveryNameIsListed(n: Name)
    ensures exists i :: 0 <= i < |SWAP_NAMES| && SWAP_NAMES[i] == n
    ensures Distinct(SWAP_NAMES)
  {
    var i := match n
      case Root => 0
      case Assets => 1
      case Branding => 2
      case Avatars => 3
      case BrandingJson => 4
      case SchemaJson => 5
      case UsersDb => 6
      case ApiKeysDb => 7
      case FavoritesDb => 8
      case UserSettingsDb => 9;
    assert SWAP_NAMES[i] == n;
  }

  lemma SwappedIsRestored(run: nat, snapshot: Snapshot, before: Tree, was: Tree, now: Tree)
    requires SameItems(run, before, was) && StagedIs(run, snapshot, was) && AllNew(run, was, now, SWAP_NAMES)
    ensures AllRestored(snapshot, before, now)
  {
    forall n: Name
      ensures Restored(snapshot, before, now, n)
    {
      EveryNameIsListed(n);
      var i :| 0 <= i < |SWAP_NAMES| && SWAP_NAMES[i] == n;
      assert New(run, was, now, SWAP_NAMES[i]) && SameAt(before, was, Live(n)) && StagedAs(run, snapshot, was, n);
    }
  }

  lemma RolledBackIsOriginal(run: nat, before: Tree, was: Tree, now: Tree)
    requires SameItems(run, before, was) && AllOld(was, now, SWAP_NAMES)
    ensures Original(before, now)
  {
    forall n: Name
      ensures SameAt(before, now, Live(n))
    {
      EveryNameIsListed(n);
      var i :| 0 <= i < |SWAP_NAMES| && SWAP_NAMES[i] == n;
      assert SameAt(was, now, Live(SWAP_NAMES[i])) && SameAt(before, was, Live(n));
    }
  }

  lemma ConservedIsNotLost(run: nat, before: Tree, was: Tree, now: Tree)
    requires SameItems(run, before, was) && AllConserved(run, was, now, SWAP_NAMES)
    ensures NothingLost(run, before, now)
  {
    forall n: Name
      ensures Conserved(run, before, now, n)
    {
      EveryNameIsListed(n);
      var i :| 0 <= i < |SWAP_NAMES| && SWAP_NAMES[i] == n;
      assert Conserved(run, was, now, SWAP_NAMES[i]) && SameAt(before, was, Live(n));
    }
  }

  ghost predicate NothingLostBetween(run: nat, before: Tree, history: seq<Tree>, lo: nat, hi: nat) {
    hi <= |history| && forall k :: lo <= k < hi ==> NothingLost(run, before, history[k])
  }

  ghost predicate RestoredSince(snapshot: Snapshot, before: Tree, history: seq<Tree>, first: nat) {
    forall k :: first <= k < |history| ==> AllRestored(snapshot, before, history[k])
  }

  lemma SidecarsKeepItems(run: nat, before: Tree, a: Tree, b: Tree)
    requires SameItems(run, before, a) && (OnlySidecars(a, b) || SameButStaged(run, a, b))
    ensures SameItems(run, before, b)
  {
    forall n: Name
      ensures SameAt(before, b, Live(n)) && SameAt(before, b, Aside(run, n))
    {
      assert SameAt(a, b, Live(n)) && SameAt(a, b, Aside(run, n));
      assert SameAt(before, a, Live(n)) && SameAt(before, a, Aside(run, n));
    }
  }

  lemma SameItemsLoseNothing(run: nat, before: Tree, now: Tree)
    requires SameItems(run, before, now)
    ensures NothingLost(run, before, now)
  {
    forall n: Name
      ensures Conserved(run, before, now, n)
    {
      assert SameAt(before, now, Live(n));
    }
  }

  lemma SidecarsLoseNothing(run: nat, before: Tree, a: Tree, earlier: seq<Tree>, history: seq<Tree>, first: nat)
    requires SameItems(run, before, a) && earlier <= history && NothingLostBetween(run, before, earlier, first, |earlier|)
    requires forall k :: |earlier| <= k < |history| ==> OnlySidecars(a, history[k])
    ensures NothingLostBetween(run, before, history, first, |history|)
  {
    forall k | first <= k < |history|
      ensures NothingLost(run, before, history[k])
    {
      if k < |earlier| {
        assert earlier[k] == history[k];
      } else {
        SidecarsKeepItems(run, before, a, history[k]);
        SameItemsLoseNothing(run, before, history[k]);
      }
    }
  }

  lemma StagingLosesNothing(run: nat, before: Tree, a: Tree, earlier: seq<Tree>, history: seq<Tree>, first: nat)
    requires NothingLost(run, before, a) && earlier <= history && NothingLostBetween(run, before, earlier, first, |earlier|)
    requires forall k :: |earlier| <= k < |history| ==> SameButStaged(run, a, history[k])
    ensures NothingLostBetween(run, before, history, first, |history|)
  {
    forall k | first <= k < |history|
      ensures NothingLost(run, before, history[k])
    {
      if k < |earlier| {
        assert earlier[k] == history[k];
      } else {
        StagingKeepsLost(run, before, a, history[k]);
      }
    }
  }

  lemma StagingKeepsLost(run: nat, before: Tree, a: Tree, b: Tree)
    requires NothingLost(run, before, a) && SameButStaged(run, a, b)
    ensures NothingLost(run, before, b)
  {
    forall n: Name
      ensures Conserved(run, before, b, n)
    {
      assert Conserved(run, before, a, n) && SameAt(a, b, Live(n)) && SameAt(a, b, Aside(run, n));
    }
  }

  lemma StagingKeepsOriginal(run: nat, before: Tree, a: Tree, b: Tree)
    requires SameButStaged(run, a, b)
    ensures Original(before, a) ==> Original(before, b)
  {
    forall n: Name
      ensures SameAt(before, a, Live(n)) ==> SameAt(before, b, Live(n))
    {
      assert SameAt(a, b, Live(n));
    }
  }

  lemma StagingKeepsRestored(run: nat, snapshot: Snapshot, before: Tree, a: Tree, earlier: seq<Tree>, history: seq<Tree>, commitAt: nat)
    requires AllRestored(snapshot, before, a) && earlier <= history && RestoredSince(snapshot, before, earlier, commitAt)
    requires forall k :: |earlier| <= k < |history| ==> SameButStaged(run, a, history[k])
    ensures RestoredSince(snapshot, before, history, commitAt)
  {
    forall k | commitAt <= k < |history|
      ensures AllRestored(snapshot, before, history[k])
    {
      if k < |earlier| {
        assert earlier[k] == history[k];
      } else {
        SameButAsideRestored(snapshot, before, a, history[k]);
      }
    }
  }

  lemma SidecarsKeepStaged(run: nat, snapshot: Snapshot, before: Tree, a: Tree, b: Tree)
    requires StagedIs(run, snapshot, a) && OnlySidecars(a, b) && SameItems(run, before, a)
    requires forall n: Name :: Aside(run, n) !in before
    ensures StagedIs(run, snapshot, b) && forall n: Name :: Aside(run, n) !in b
  {
    forall n: Name
      ensures StagedAs(run, snapshot, b, n) && Aside(run, n) !in b
    {
      assert StagedAs(run, snapshot, a, n) && SameAt(a, b, Staged(run, n)) && SameAt(a, b, Aside(run, n)) && SameAt(before, a, Aside(run, n));
    }
  }

  lemma StagingKeepsFiles(run: nat, a: Tree, b: Tree, configured: set<Store>)
    requires SameButStaged(run, a, b)
    ensures forall s :: s in configured ==> SameAt(a, b, Live(DbOf(s)))
  {
  }

  lemma SidecarsKeepFiles(a: Tree, b: Tree, configured: set<Store>)
    requires OnlySidecars(a, b) && forall s :: s in configured ==> Live(DbOf(s)) in a
    ensures forall s :: s in configured ==> Live(DbOf(s)) in b
  {
    forall s | s in configured
      ensures Live(DbOf(s)) in b
    {
      assert SameAt(a, b, Live(DbOf(s)));
    }
  }

  lemma SwapLosesNothing(run: nat, before: Tree, was: Tree, earlier: seq<Tree>, history: seq<Tree>, first: nat)
    requires SameItems(run, before, was) && earlier <= history && NothingLostBetween(run, before, earlier, first, |earlier|)
    requires ConservedSince(run, was, history, |earlier|, SWAP_NAMES)
    ensures NothingLostBetween(run, before, history, first, |history|)
  {
    forall k | first <= k < |history|
      ensures NothingLost(run, before, history[k])
    {
      if k < |earlier| {
        assert earlier[k] == history[k];
      } else {
        ConservedIsNotLost(run, before, was, history[k]);
      }
    }
  }

  lemma KeptLosesNothing(run: nat, before: Tree, was: Tree, now: Tree, items: seq<Item>)
    requires SameItems(run, before, was) && Named(items, SWAP_NAMES) && AllKept(run, was, now, items)
    ensures NothingLost(run, before, now)
  {
    forall i | 0 <= i < |SWAP_NAMES|
      ensures Conserved(run, was, now, SWAP_NAMES[i])
    {
      assert Kept(run, was, now, items[i]);
    }
    ConservedIsNotLost(run, before, was, now);
  }

  lemma NewFilesExist(run: nat, was: Tree, now: Tree, configured: set<Store>)
    requires AllNew(run, was, now, SWAP_NAMES) && forall s :: s in configured ==> Live(DbOf(s)) in was
    ensures forall s :: s in configured ==> Live(DbOf(s)) in now
  {
    forall s | s in configured
      ensures Live(DbOf(s)) in now
    {
      EveryNameIsListed(DbOf(s));
      var i :| 0 <= i < |SWAP_NAMES| && SWAP_NAMES[i] == DbOf(s);
      assert New(run, was, now, SWAP_NAMES[i]);
    }
  }

  lemma SameButAsideRestored(snapshot: Snapshot, before: Tree, a: Tree, b: Tree)
    requires AllRestored(snapshot, before, a) && forall n: Name :: SameAt(a, b, Live(n))
    ensures AllRestored(snapshot, before, b)
  {
    forall n: Name
      ensures Restored(snapshot, before, b, n)
    {
      assert Restored(snapshot, before, a, n) && SameAt(a, b, Live(n));
    }
  }

  ghost predicate SameButSidecarsOf(a: Tree, b: Tree, n: Name) {
    forall p: Place :: !(p.Sidecar? && p.name == n) ==> SameAt(a, b, p)
  }

  lemma CleanedStep(run: nat, was: Tree, now: Tree, next: Tree, i: nat)
    requires i < |DB_NAMES| && Staged(run, DB_NAMES[i]) in was && SameButSidecarsOf(now, next, DB_NAMES[i])
    requires OnlyStagedCleaned(run, was, now) && Cleaned(run, now, i) && OnlySidecars(was, now)
    ensures OnlyStagedCleaned(run, was, next) && OnlySidecars(was, next)
    ensures NoSidecars(next, DB_NAMES[i]) ==> Cleaned(run, next, i + 1)
    ensures forall n: Name :: Staged(run, n) in now <==> Staged(run, n) in next
  {
    assert DB_NAMES[i] in StagedDbs(run, was);
    forall n: Name, wal: bool | n !in StagedDbs(run, was)
      ensures SameAt(was, next, Sidecar(n, wal))
    {
      assert SameAt(was, now, Sidecar(n, wal)) && SameAt(now, next, Sidecar(n, wal));
    }
    forall p: Place | !p.Sidecar?
      ensures SameAt(was, next, p) && SameAt(now, next, p)
    {
      assert SameAt(was, now, p);
    }
    forall n: Name
      ensures Staged(run, n) in now <==> Staged(run, n) in next
    {
      assert SameAt(now, next, Staged(run, n));
    }
    forall j | 0 <= j < i && Staged(run, DB_NAMES[j]) in next
      ensures NoSidecars(next, DB_NAMES[j])
    {
      assert SameAt(now, next, Staged(run, DB_NAMES[j])) && DB_NAMES[j] != DB_NAMES[i];
      assert SameAt(now, next, Sidecar(DB_NAMES[j], true)) && SameAt(now, next, Sidecar(DB_NAMES[j], false));
    }
  }

  predicate NoSidecars(now: Tree, n: Name) {
    Sidecar(n, true) !in now && Sidecar(n, false) !in now
  }

  /** The first k databases have no sidecar files if they are staged. */
  predicate Cleaned(run: nat, now: Tree, k: nat)
    requires k <= |DB_NAMES|
  {
    forall i :: 0 <= i < k ==> Staged(run, DB_NAMES[i]) in now ==> NoSidecars(now, DB_NAMES[i])
  }

  ghost predicate OnlyStagedCleaned(run: nat, was: Tree, now: Tree) {
    forall n: Name, wal: bool :: n !in StagedDbs(run, was) ==> SameAt(was, now, Sidecar(n, wal))
  }

  /** At most log files differ. */
  ghost predicate OnlySidecars(a: Tree, b: Tree) {
    forall p: Place :: !p.Sidecar? ==> SameAt(a, b, p)
  }

  ghost predicate SameButStaged(run: nat, a: Tree, b: Tree) {
    forall p: Place :: !(p.Staged? && p.run == run) ==> SameAt(a, b, p)
  }

  predicate StagedAs(run: nat, snapshot: Snapshot, now: Tree, n: Name) {
    (Staged(run, n) in now <==> n in snapshot) && (n in snapshot ==> now[Staged(run, n)] == snapshot[n])
  }

  lemma StagedAll(run: nat, snapshot: Snapshot, now: Tree)
    requires forall j :: 0 <= j < |SWAP_NAMES| ==> StagedAs(run, snapshot, now, SWAP_NAMES[j])
    ensures StagedIs(run, snapshot, now)
  {
    forall n: Name
      ensures StagedAs(run, snapshot, now, n)
    {
      EveryNameIsListed(n);
      var i :| 0 <= i < |SWAP_NAMES| && SWAP_NAMES[i] == n;
      assert StagedAs(run, snapshot, now, SWAP_NAMES[i]);
    }
  }

  lemma OldFilesExist(was: Tree, now: Tree, configured: set<Store>)
    requires AllOld(was, now, SWAP_NAMES) && forall s :: s in configured ==> Live(DbOf(s)) in was
    ensures forall s :: s in configured ==> Live(DbOf(s)) in now
  {
    forall s | s in configured
      ensures Live(DbOf(s)) in now
    {
      EveryNameIsListed(DbOf(s));
      var i :| 0 <= i < |SWAP_NAMES| && SWAP_NAMES[i] == DbOf(s);
      assert SameAt(was, now, Live(SWAP_NAMES[i]));
    }
  }

  // ----- The engine's log files -----

  function Dbs(stores: set<Store>): set<Name> {
    set s | s in stores :: DbOf(s)
  }

  /** At most the logs of these databases differ. */
  ghost predicate OnlyLogsOf(dbs: set<Name>, a: Tree, b: Tree) {
    forall p: Place :: !(p.Sidecar? && p.name in dbs) ==> SameAt(a, b, p)
  }

  /** A log holds the name of its database, so to say: the content it was opened with. A log beside another one is stale. */
  predicate LogsMatch(now: Tree, n: Name) {
    forall wal: bool :: Sidecar(n, wal) in now ==> Live(n) in now && now[Sidecar(n, wal)] == now[Live(n)]
  }

  /** No log has become stale. */
  predicate LogsKept(a: Tree, b: Tree) {
    forall i :: 0 <= i < |DB_NAMES| && LogsMatch(a, DB_NAMES[i]) ==> LogsMatch(b, DB_NAMES[i])
  }

  /** From a to b only the engine has worked on its logs, of these databases, and none has become stale. */
  ghost predicate EngineSteps(dbs: set<Name>, a: Tree, earlier: seq<Tree>, b: Tree, history: seq<Tree>) {
    && earlier <= history && OnlyLogsOf(dbs, a, b) && LogsKept(a, b)
    && forall k :: |earlier| <= k < |history| ==> OnlySidecars(a, history[k])
  }

  lemma NoEngineStep(dbs: set<Name>, a: Tree, history: seq<Tree>)
    ensures EngineSteps(dbs, a, history, a, history)
  {
  }

  lemma EngineStepsTwice(dbs: set<Name>, a: Tree, first: seq<Tree>, b: Tree, second: seq<Tree>, c: Tree, third: seq<Tree>)
    requires EngineSteps(dbs, a, first, b, second) && EngineSteps(dbs, b, second, c, third)
    ensures EngineSteps(dbs, a, first, c, third)
  {
    forall p: Place | !(p.Sidecar? && p.name in dbs)
      ensures SameAt(a, c, p)
    {
      assert SameAt(a, b, p) && SameAt(b, c, p);
    }
    forall k | |first| <= k < |third|
      ensures OnlySidecars(a, third[k])
    {
      if k < |second| {
        assert second[k] == third[k];
      } else {
        SidecarsTwice(a, b, third[k]);
      }
    }
  }

  lemma SidecarsTwice(a: Tree, b: Tree, c: Tree)
    requires OnlySidecars(a, b) && OnlySidecars(b, c)
    ensures OnlySidecars(a, c)
  {
    forall p: Place | !p.Sidecar?
      ensures SameAt(a, c, p)
    {
      assert SameAt(a, b, p) && SameAt(b, c, p);
    }
  }

  lemma LogsAreSidecars(dbs: set<Name>, a: Tree, b: Tree)
    requires OnlyLogsOf(dbs, a, b)
    ensures OnlySidecars(a, b)
  {
  }

  /** One log of n is removed, or appears with the content of its database. */
  lemma OneLogStep(n: Name, wal: bool, a: Tree, b: Tree)
    requires b == a - {Sidecar(n, wal)} || b == a || (Live(n) in a && b == a[Sidecar(n, wal) := a[Live(n)]])
    ensures OnlyLogsOf({n}, a, b) && LogsKept(a, b)
  {
    forall i | 0 <= i < |DB_NAMES| && LogsMatch(a, DB_NAMES[i])
      ensures LogsMatch(b, DB_NAMES[i])
    {
    }
  }

  lemma TwoLogSteps(dbs: set<Name>, n: Name, a: Tree, b: Tree, c: Tree, earlier: seq<Tree>, history: seq<Tree>)
    requires n in dbs && OnlyLogsOf({n}, a, b) && LogsKept(a, b) && OnlyLogsOf({n}, b, c) && LogsKept(b, c)
    requires history == earlier + [b] + [c]
    ensures EngineSteps(dbs, a, earlier, c, history)
    ensures forall m: Name, wal: bool :: m != n ==> SameAt(a, c, Sidecar(m, wal))
  {
    forall p: Place | !(p.Sidecar? && p.name == n)
      ensures SameAt(a, c, p) && SameAt(a, b, p)
    {
      assert SameAt(a, b, p) && SameAt(b, c, p);
    }
    forall k | |earlier| <= k < |history|
      ensures OnlySidecars(a, history[k])
    {
      assert history[k] == if k == |earlier| then b else c;
    }
  }

  // ----- One restore after the other -----

  /** No staging directory or pre-restore copy with this number or a later one exists. */
  ghost predicate Unused(now: Tree, run: nat) {
    forall p: Place :: (p.Staged? || p.Aside?) && p.run >= run ==> p !in now
  }

  /** What other restores have left behind is still as it was. */
  ghost predicate OtherRuns(run: nat, a: Tree, b: Tree) {
    forall p: Place :: (p.Staged? || p.Aside?) && p.run != run ==> SameAt(a, b, p)
  }

  lemma NextIsUnused(run: nat, a: Tree, b: Tree)
    requires Unused(a, run) && OtherRuns(run, a, b)
    ensures Unused(b, run + 1)
  {
    forall p: Place | (p.Staged? || p.Aside?) && p.run >= run + 1
      ensures p !in b
    {
      assert SameAt(a, b, p) && p !in a;
    }
  }

  // ----- Logs and the swap -----

  function StagedDbs(run: nat, was: Tree): set<Name> {
    set i | 0 <= i < |DB_NAMES| && Staged(run, DB_NAMES[i]) in was :: DB_NAMES[i]
  }

  ghost predicate LogsOutside(dbs: set<Name>, a: Tree, b: Tree) {
    forall n: Name, wal: bool :: n !in dbs ==> SameAt(a, b, Sidecar(n, wal))
  }

  /** Of these databases only the open ones have logs. */
  predicate CleanWhenClosed(now: Tree, names: set<Name>, open: set<Name>) {
    forall n :: n in names && n !in open ==> NoSidecars(now, n)
  }

  lemma OpenedIsExempt(a: Tree, b: Tree, names: set<Name>, configured: set<Store>, before: set<Store>, after: set<Store>, s: Store)
    requires s in configured && CleanWhenClosed(a, names, Dbs(configured - before))
    requires (after == before && b == a) || after == before - {s}
    requires forall n: Name, wal: bool :: n != DbOf(s) ==> SameAt(a, b, Sidecar(n, wal))
    ensures CleanWhenClosed(b, names, Dbs(configured - after))
  {
    forall n | n in names && n !in Dbs(configured - after)
      ensures NoSidecars(b, n)
    {
      if after != before || s !in before {
        assert s in configured - after ==> DbOf(s) in Dbs(configured - after);
      }
      assert n !in Dbs(configured - before) by {
        forall t | t in configured - before
          ensures DbOf(t) != n
        {
          assert t in configured - after;
        }
      }
      assert NoSidecars(a, n) && (n != DbOf(s) ==> SameAt(a, b, Sidecar(n, true)) && SameAt(a, b, Sidecar(n, false)));
    }
  }

  lemma ClosedIsClean(a: Tree, b: Tree, names: set<Name>, configured: set<Store>, before: set<Store>, s: Store)
    requires s in configured && CleanWhenClosed(a, names, Dbs(configured - before))
    requires forall p :: p in b ==> p in a
    requires if s in before then b == a else NoSidecars(b, DbOf(s))
    ensures CleanWhenClosed(b, names, Dbs(configured - (before + {s})))
  {
    forall n | n in names && n !in Dbs(configured - (before + {s}))
      ensures NoSidecars(b, n)
    {
      if n != DbOf(s) {
        forall t | t in configured - before
          ensures DbOf(t) != n
        {
          assert t == s || t in configured - (before + {s});
        }
        assert n !in Dbs(configured - before);
      } else if s in before {
        assert configured - (before + {s}) == configured - before;
      }
    }
  }

  /** The engine's work on its logs does not touch what a swapper keeps. */
  lemma LogsKeepSwap(run: nat, was: Tree, a: Tree, b: Tree, history: seq<Tree>, first: nat, items: seq<Item>)
    requires Named(items, SWAP_NAMES) && AllKept(run, was, a, items) && OnlySidecars(a, b)
    requires forall k :: first <= k < |history| ==> OnlySidecars(a, history[k])
    ensures AllKept(run, was, b, items) && ConservedSince(run, was, history, first, SWAP_NAMES)
  {
    KeptThroughLogs(run, was, a, b, items);
    forall k | first <= k < |history|
      ensures AllConserved(run, was, history[k], SWAP_NAMES)
    {
      KeptThroughLogs(run, was, a, history[k], items);
    }
  }

  lemma KeptThroughLogs(run: nat, was: Tree, a: Tree, b: Tree, items: seq<Item>)
    requires Named(items, SWAP_NAMES) && AllKept(run, was, a, items) && OnlySidecars(a, b)
    ensures AllKept(run, was, b, items) && AllConserved(run, was, b, SWAP_NAMES)
  {
    forall i | 0 <= i < |SWAP_NAMES|
      ensures Kept(run, was, b, items[i]) && Conserved(run, was, b, SWAP_NAMES[i])
    {
      var n := SWAP_NAMES[i];
      assert Kept(run, was, a, items[i]) && items[i].name == n;
      assert SameAt(a, b, Live(n)) && SameAt(a, b, Aside(run, n));
    }
  }

  lemma ConservedTwice(run: nat, was: Tree, earlier: seq<Tree>, history: seq<Tree>, first: nat)
    requires ConservedSince(run, was, earlier, first, SWAP_NAMES) && earlier <= history
    requires ConservedSince(run, was, history, |earlier|, SWAP_NAMES)
    ensures ConservedSince(run, was, history, first, SWAP_NAMES)
  {
    forall k | first <= k < |history|
      ensures AllConserved(run, was, history[k], SWAP_NAMES)
    {
      if k < |earlier| {
        assert earlier[k] == history[k];
      }
    }
  }

  lemma UnstagedThroughLogs(run: nat, was: Tree, a: Tree, b: Tree)
    requires UnstagedStay(run, was, a, SWAP_NAMES) && OnlySidecars(a, b)
    ensures UnstagedStay(run, was, b, SWAP_NAMES)
  {
    forall i | 0 <= i < |SWAP_NAMES| && Staged(run, SWAP_NAMES[i]) !in was
      ensures SameAt(was, b, Live(SWAP_NAMES[i]))
    {
      assert SameAt(was, a, Live(SWAP_NAMES[i])) && SameAt(a, b, Live(SWAP_NAMES[i]));
    }
  }

  /** With every replaced database closed, putting the originals back makes no log stale. */
  lemma RollbackKeepsLogs(run: nat, was: Tree, a: Tree, b: Tree)
    requires UnstagedStay(run, was, a, SWAP_NAMES) && CleanWhenClosed(a, StagedDbs(run, was), {})
    requires AllOld(was, b, SWAP_NAMES) && Outside(run, a, b)
    ensures LogsKept(a, b)
  {
    forall i | 0 <= i < |DB_NAMES| && LogsMatch(a, DB_NAMES[i])
      ensures LogsMatch(b, DB_NAMES[i])
    {
      var n := DB_NAMES[i];
      assert SameAt(a, b, Sidecar(n, true)) && SameAt(a, b, Sidecar(n, false));
      if Staged(run, n) in was {
        assert n in StagedDbs(run, was);
        assert NoSidecars(a, n);
      } else {
        EveryNameIsListed(n);
        var j :| 0 <= j < |SWAP_NAMES| && SWAP_NAMES[j] == n;
        assert SameAt(was, a, Live(SWAP_NAMES[j])) && SameAt(was, b, Live(SWAP_NAMES[j]));
      }
    }
  }

  lemma RollbackFrames(run: nat, dbs: set<Name>, a: Tree, b: Tree, c: Tree, d: Tree)
    requires OnlyLogsOf(dbs, a, b) && Outside(run, b, c) && OnlyLogsOf(dbs, c, d)
    ensures OtherRuns(run, a, d) && LogsOutside(dbs, a, d)
  {
    forall p: Place | ((p.Staged? || p.Aside?) && p.run != run) || (p.Sidecar? && p.name !in dbs)
      ensures SameAt(a, d, p)
    {
      assert SameAt(a, b, p) && SameAt(b, c, p) && SameAt(c, d, p);
    }
  }

  lemma SameHere(dbs: set<Name>, a: Tree)
    ensures OnlyLogsOf(dbs, a, a)
  {
  }

  /** Swapping staged databases that have no logs makes no log stale. */
  lemma SwapKeepsLogs(run: nat, was: Tree, now: Tree)
    requires UnstagedStay(run, was, now, SWAP_NAMES) && CleanWhenClosed(was, StagedDbs(run, was), {}) && Outside(run, was, now)
    ensures LogsKept(was, now) && CleanWhenClosed(now, StagedDbs(run, was), {})
    ensures forall i :: 0 <= i < |DB_NAMES| && Staged(run, DB_NAMES[i]) in was ==> LogsMatch(now, DB_NAMES[i])
  {
    forall n | n in StagedDbs(run, was)
      ensures NoSidecars(now, n)
    {
      assert NoSidecars(was, n) && SameAt(was, now, Sidecar(n, true)) && SameAt(was, now, Sidecar(n, false));
    }
    forall i | 0 <= i < |DB_NAMES| && (Staged(run, DB_NAMES[i]) in was || LogsMatch(was, DB_NAMES[i]))
      ensures LogsMatch(now, DB_NAMES[i])
    {
      var n := DB_NAMES[i];
      if Staged(run, n) in was {
        assert n in StagedDbs(run, was);
        assert NoSidecars(now, n);
      } else {
        EveryNameIsListed(n);
        var j :| 0 <= j < |SWAP_NAMES| && SWAP_NAMES[j] == n;
        assert SameAt(was, now, Live(SWAP_NAMES[j]));
        assert SameAt(was, now, Sidecar(n, true)) && SameAt(was, now, Sidecar(n, false));
      }
    }
  }

  /** Places are only emptied. */
  ghost predicate Shrinks(a: Tree, b: Tree) {
    forall p :: p in b ==> p in a && b[p] == a[p]
  }

  lemma RemovalKeepsLogs(a: Tree, b: Tree)
    requires OnlySidecars(a, b) && Shrinks(a, b)
    ensures LogsKept(a, b)
  {
    forall i | 0 <= i < |DB_NAMES| && LogsMatch(a, DB_NAMES[i])
      ensures LogsMatch(b, DB_NAMES[i])
    {
      assert SameAt(a, b, Live(DB_NAMES[i]));
    }
  }

  lemma CleanupFrames(run: nat, dbs: set<Name>, a: Tree, b: Tree, c: Tree, d: Tree)
    requires OnlyLogsOf(dbs, a, b) && OnlyStagedCleaned(run, b, c) && OnlyLogsOf(dbs, c, d)
    ensures LogsOutside(dbs + StagedDbs(run, a), a, d)
  {
    forall i | 0 <= i < |DB_NAMES|
      ensures Staged(run, DB_NAMES[i]) in a <==> Staged(run, DB_NAMES[i]) in b
    {
      assert SameAt(a, b, Staged(run, DB_NAMES[i]));
    }
    forall n: Name, wal: bool | n !in dbs + StagedDbs(run, a)
      ensures SameAt(a, d, Sidecar(n, wal))
    {
      assert n !in StagedDbs(run, b);
      assert SameAt(a, b, Sidecar(n, wal)) && SameAt(b, c, Sidecar(n, wal)) && SameAt(c, d, Sidecar(n, wal));
    }
  }

  lemma CleanedIsClean(run: nat, now: Tree)
    requires Cleaned(run, now, |DB_NAMES|)
    ensures CleanWhenClosed(now, StagedDbs(run, now), {})
  {
  }

  lemma SwapFrames(run: nat, dbs: set<Name>, a: Tree, b: Tree, c: Tree, d: Tree)
    requires Outside(run, a, b) && OnlyLogsOf(dbs, b, c) && OtherRuns(run, c, d) && LogsOutside(dbs, c, d)
    ensures OtherRuns(run, a, d) && LogsOutside(dbs, a, d)
  {
    forall p: Place | ((p.Staged? || p.Aside?) && p.run != run) || (p.Sidecar? && p.name !in dbs)
      ensures SameAt(a, d, p)
    {
      assert SameAt(a, b, p) && SameAt(b, c, p);
      if p.Sidecar? {
        assert SameAt(c, d, Sidecar(p.name, p.wal));
      } else {
        assert SameAt(c, d, p);
      }
    }
  }

  lemma CommitFrames(run: nat, dbs: set<Name>, a: Tree, b: Tree)
    requires SameButAside(run, a, b)
    ensures OtherRuns(run, a, b) && LogsOutside(dbs, a, b) && LogsKept(a, b)
  {
    forall i | 0 <= i < |DB_NAMES| && LogsMatch(a, DB_NAMES[i])
      ensures LogsMatch(b, DB_NAMES[i])
    {
      SameLogs(a, b, DB_NAMES[i]);
    }
  }

  lemma StagingFrames(run: nat, dbs: set<Name>, a: Tree, b: Tree)
    requires SameButStaged(run, a, b)
    ensures OtherRuns(run, a, b) && LogsOutside(dbs, a, b) && LogsKept(a, b)
  {
    forall i | 0 <= i < |DB_NAMES| && LogsMatch(a, DB_NAMES[i])
      ensures LogsMatch(b, DB_NAMES[i])
    {
      SameLogs(a, b, DB_NAMES[i]);
    }
  }

  lemma SameLogs(a: Tree, b: Tree, n: Name)
    requires LogsMatch(a, n) && SameAt(a, b, Live(n)) && SameAt(a, b, Sidecar(n, true)) && SameAt(a, b, Sidecar(n, false))
    ensures LogsMatch(b, n)
  {
    forall wal: bool | Sidecar(n, wal) in b
      ensures Live(n) in b && b[Sidecar(n, wal)] == b[Live(n)]
    {
      assert SameAt(a, b, Sidecar(n, wal));
    }
  }

  /** The commit and the reopening before it leave the restored items alone. */
  lemma CommitIsRestored(run: nat, snapshot: Snapshot, before: Tree, a: Tree, first: seq<Tree>, b: Tree, second: seq<Tree>, history: seq<Tree>)
    requires AllRestored(snapshot, before, a) && first <= second <= history && OnlySidecars(a, b)
    requires forall k :: |first| <= k < |second| ==> OnlySidecars(a, second[k])
    requires forall k :: |second| <= k < |history| ==> SameButAside(run, b, history[k])
    ensures RestoredSince(snapshot, before, history, |first|) && AllRestored(snapshot, before, b)
  {
    SameButAsideRestored(snapshot, before, a, b);
    forall k | |first| <= k < |history|
      ensures AllRestored(snapshot, before, history[k])
    {
      if k < |second| {
        assert second[k] == history[k];
        SameButAsideRestored(snapshot, before, a, history[k]);
      } else {
        SameButAsideRestored(snapshot, before, b, history[k]);
      }
    }
  }

  /** Nothing has happened yet. */
  lemma AtTheStart(run: nat, before: Tree, history: seq<Tree>)
    requires Unused(before, run)
    ensures forall n: Name :: Staged(run, n) !in before && Aside(run, n) !in before
    ensures SameItems(run, before, before) && NothingLost(run, before, before) && Original(before, before) && LogsKept(before, before)
    ensures NothingLostBetween(run, before, history, |history|, |history|)
  {
  }

  /** No log is stale beside a database that the snapshot has replaced. */
  predicate StagedLogsMatch(snapshot: Snapshot, now: Tree) {
    forall i :: 0 <= i < |DB_NAMES| && DB_NAMES[i] in snapshot ==> LogsMatch(now, DB_NAMES[i])
  }

  lemma StagedMatch(run: nat, snapshot: Snapshot, was: Tree, now: Tree)
    requires StagedIs(run, snapshot, was)
    requires forall i :: 0 <= i < |DB_NAMES| && Staged(run, DB_NAMES[i]) in was ==> LogsMatch(now, DB_NAMES[i])
    ensures StagedLogsMatch(snapshot, now)
  {
    forall i | 0 <= i < |DB_NAMES| && DB_NAMES[i] in snapshot
      ensures LogsMatch(now, DB_NAMES[i])
    {
      assert StagedAs(run, snapshot, was, DB_NAMES[i]);
    }
  }

  lemma LogsAtTheEnd(run: nat, snapshot: Snapshot, before: Tree, staged: Tree, cleaned: Tree, done: Tree, last: Tree)
    requires SameButStaged(run, before, staged) && LogsKept(staged, cleaned) && SameButStaged(run, done, last)
    ensures LogsKept(cleaned, done) ==> LogsKept(before, last)
    ensures StagedLogsMatch(snapshot, done) ==> StagedLogsMatch(snapshot, last)
    ensures done == cleaned ==> LogsKept(before, last)
  {
    StagingFrames(run, {}, before, staged);
    StagingFrames(run, {}, done, last);
  }

  lemma UntouchedItems(run: nat, before: Tree, now: Tree)
    requires SameItems(run, before, now)
    ensures Original(before, now) && NothingLost(run, before, now)
  {
    SameItemsLoseNothing(run, before, now);
    forall n: Name
      ensures SameAt(before, now, Live(n))
    {
      assert SameAt(before, now, Live(n)) && SameAt(before, now, Aside(run, n));
    }
  }

  lemma NothingLostGrows(run: nat, before: Tree, earlier: seq<Tree>, history: seq<Tree>, lo: nat, hi: nat)
    requires NothingLostBetween(run, before, earlier, lo, hi) && earlier <= history
    ensures NothingLostBetween(run, before, history, lo, hi)
  {
    assert forall k :: lo <= k < hi ==> history[k] == earlier[k];
  }

  lemma NothingSince(snapshot: Snapshot, before: Tree, history: seq<Tree>)
    ensures RestoredSince(snapshot, before, history, |history|)
  {
  }

  /** From the start of a restore to its end: other restores' remains, unrelated logs, stale logs. */
  lemma FramesAtTheEnd(run: nat, snapshot: Snapshot, configured: set<Store>, before: Tree, staged: Tree, cleaned: Tree, done: Tree, last: Tree)
    requires Unused(before, run) && SameButStaged(run, before, staged) && StagedIs(run, snapshot, staged) && OnlySidecars(staged, cleaned)
    requires LogsOutside(Dbs(configured) + StagedDbs(run, staged), staged, cleaned) && SameButStaged(run, done, last)
    requires done == cleaned || (OtherRuns(run, cleaned, done) && LogsOutside(Dbs(configured), cleaned, done))
    ensures Unused(last, run + 1) && LogsOutside(Dbs(configured) + snapshot.Keys, before, last)
    ensures LogsKept(before, staged) && LogsKept(done, last)
  {
    StagingFrames(run, {}, before, staged);
    StagingFrames(run, {}, done, last);
    forall n | n in StagedDbs(run, staged)
      ensures n in snapshot
    {
      assert StagedAs(run, snapshot, staged, n);
    }
    forall p: Place | ((p.Staged? || p.Aside?) && p.run != run) || (p.Sidecar? && p.name !in Dbs(configured) + snapshot.Keys)
      ensures SameAt(before, last, p)
    {
      assert SameAt(before, staged, p) && SameAt(done, last, p);
      if p.Sidecar? {
        assert SameAt(staged, cleaned, Sidecar(p.name, p.wal));
        assert done != cleaned ==> SameAt(cleaned, done, Sidecar(p.name, p.wal));
      } else {
        assert SameAt(staged, cleaned, p);
        assert done != cleaned ==> SameAt(cleaned, done, p);
      }
    }
    NextIsUnused(run, before, last);
  }

  // ----- Any number of restores -----

  /** What one restore that asks for no intervention does to the items: all of the snapshot's are replaced, or none. */
  ghost predicate Triggered(a: Tree, restored: Option<Snapshot>, b: Tree) {
    match restored
    case Some(snapshot) => AllRestored(snapshot, a, b)
    case None => Original(a, b)
  }

  /** What happens to the items over the life of an instance: triggered restores, and edits of one item between them. */
  datatype Event = Restore(restored: Option<Snapshot>) | Edit(name: Name, content: Option<Content>)

  function ItemAt(t: Tree, n: Name): Option<Content> {
    if Live(n) in t then Some(t[Live(n)]) else None
  }

  ghost predicate Happened(a: Tree, e: Event, b: Tree) {
    match e
    case Restore(restored) => Triggered(a, restored, b)
    case Edit(name, content) => forall n: Name :: ItemAt(b, n) == if n == name then content else ItemAt(a, n)
  }

  /** The content of item n after these events, given what it was; None if there is none. */
  function Latest(events: seq<Event>, first: Option<Content>, n: Name): Option<Content> {
    if events == [] then first
    else
      match events[|events| - 1]
      case Restore(restored) =>
        if restored.Some? && n in restored.value then Some(restored.value[n]) else Latest(events[..|events| - 1], first, n)
      case Edit(name, content) => if n == name then content else Latest(events[..|events| - 1], first, n)
  }

  /**
   After any number of restores, failed ones among them, and of edits between them, each item is what the last edit of it or
   the last successful snapshot that holds it has made of it, whichever came later, and what it was at first without either.
   */
  lemma {:induction false} RestoresAddUp(trees: seq<Tree>, events: seq<Event>, n: Name)
    requires |trees| == |events| + 1
    requires forall k :: 0 <= k < |events| ==> Happened(trees[k], events[k], trees[k + 1])
    ensures ItemAt(trees[|events|], n) == Latest(events, ItemAt(trees[0], n), n)
    decreases |events|
  {
    if events != [] {
      var k := |events| - 1;
      RestoresAddUp(trees[..k + 1], events[..k], n);
      assert Happened(trees[k], events[k], trees[k + 1]);
      match events[k]
      case Restore(Some(snapshot)) => assert Restored(snapshot, trees[k], trees[k + 1], n);
      case Restore(None) => assert SameAt(trees[k], trees[k + 1], Live(n));
      case Edit(_, _) =>
    }
  }
}
