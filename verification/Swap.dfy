/** The rename-aside, rename-in swap of a live restore and its rollback (backend/internal/restore/swap.go). */
module Swap {
  import opened Disk

  /** What a snapshot may hold, one top-level item of the data directory each. */
  datatype Name = Root | Assets | Branding | Avatars | BrandingJson | SchemaJson | UsersDb | ApiKeysDb | FavoritesDb | UserSettingsDb

  const SWAP_NAMES: seq<Name> := [Root, Assets, Branding, Avatars, BrandingJson, SchemaJson, UsersDb, ApiKeysDb, FavoritesDb, UserSettingsDb]

  /**
   A restorable item at its live path, in the staging directory of a restore, at its pre-restore path, or a log file beside
   it. Both directories carry names that no other restore uses; the number stands for them.
   */
  datatype Place = Live(name: Name) | Staged(run: nat, name: Name) | Aside(run: nat, name: Name) | Sidecar(name: Name, wal: bool)

  type Tree = map<Place, Content>

  datatype Item = Item(name: Name, movedAside: bool, swapped: bool)

  // ----- One item, seen from the tree `was` at the start of the swap -----

  predicate Untouched(run: nat, was: Tree, now: Tree, n: Name) {
    SameAt(was, now, Live(n)) && SameAt(was, now, Staged(run, n)) && Aside(run, n) !in now
  }

  /** The original, if there was one, is at the pre-restore path. */
  predicate SafeAside(run: nat, was: Tree, now: Tree, n: Name) {
    (Live(n) in was <==> Aside(run, n) in now) && (Live(n) in was ==> now[Aside(run, n)] == was[Live(n)])
  }

  predicate SwappedIn(run: nat, was: Tree, now: Tree, n: Name) {
    SafeAside(run, was, now, n) && Staged(run, n) in was && Live(n) in now && now[Live(n)] == was[Staged(run, n)]
  }

  /** What the flags of an item promise, at any time between the start of the swap and its commit. */
  predicate Kept(run: nat, was: Tree, now: Tree, item: Item) {
    if item.movedAside then SafeAside(run, was, now, item.name)
    else SameAt(was, now, Live(item.name)) && Aside(run, item.name) !in now
  }

  /** The original is somewhere: at the live path or at the pre-restore path. */
  predicate Conserved(run: nat, was: Tree, now: Tree, n: Name) {
    Live(n) in was ==> (Live(n) in now && now[Live(n)] == was[Live(n)]) || (Aside(run, n) in now && now[Aside(run, n)] == was[Live(n)])
  }

  ghost predicate Elsewhere(a: Tree, b: Tree, n: Name) {
    forall p: Place :: p.name != n ==> SameAt(a, b, p)
  }

  /** What a swap never touches: sidecar files, and what other restores have left behind. */
  ghost predicate Outside(run: nat, a: Tree, b: Tree) {
    forall p: Place :: p.Sidecar? || ((p.Staged? || p.Aside?) && p.run != run) ==> SameAt(a, b, p)
  }

  ghost predicate SameButAside(run: nat, a: Tree, b: Tree) {
    forall p: Place :: !(p.Aside? && p.run == run) ==> SameAt(a, b, p)
  }

  predicate Distinct(names: seq<Name>) {
    forall i, j :: 0 <= i < j < |names| ==> names[i] != names[j]
  }

  // ----- All items -----

  predicate Named(items: seq<Item>, names: seq<Name>) {
    |items| == |names| && forall i :: 0 <= i < |names| ==> items[i].name == names[i]
  }

  predicate AllKept(run: nat, was: Tree, now: Tree, items: seq<Item>) {
    forall i :: 0 <= i < |items| ==> Kept(run, was, now, items[i])
  }

  predicate AllConserved(run: nat, was: Tree, now: Tree, names: seq<Name>) {
    forall i :: 0 <= i < |names| ==> Conserved(run, was, now, names[i])
  }

  /** What the restored tree must look like: an item the snapshot holds is replaced, any other is as before. */
  predicate New(run: nat, was: Tree, now: Tree, n: Name) {
    if Staged(run, n) in was then Live(n) in now && now[Live(n)] == was[Staged(run, n)] else SameAt(was, now, Live(n))
  }

  predicate AllNew(run: nat, was: Tree, now: Tree, names: seq<Name>) {
    forall i :: 0 <= i < |names| ==> New(run, was, now, names[i])
  }

  /** What the snapshot does not hold is as it was. */
  predicate UnstagedStay(run: nat, was: Tree, now: Tree, names: seq<Name>) {
    forall i :: 0 <= i < |names| && Staged(run, names[i]) !in was ==> SameAt(was, now, Live(names[i]))
  }

  predicate AllOld(was: Tree, now: Tree, names: seq<Name>) {
    forall i :: 0 <= i < |names| ==> SameAt(was, now, Live(names[i]))
  }

  /** Every state from number `first` on has the originals. */
  ghost predicate ConservedSince(run: nat, was: Tree, history: seq<Tree>, first: nat, names: seq<Name>) {
    forall k :: first <= k < |history| ==> AllConserved(run, was, history[k], names)
  }

  // ----- Frames: a step on one item leaves the others as they are -----

  lemma {:induction false} FrameItem(run: nat, was: Tree, now: Tree, next: Tree, n: Name, other: Name)
    requires Elsewhere(now, next, n) && other != n
    ensures Untouched(run, was, now, other) ==> Untouched(run, was, next, other)
    ensures SafeAside(run, was, now, other) ==> SafeAside(run, was, next, other)
    ensures SwappedIn(run, was, now, other) ==> SwappedIn(run, was, next, other)
    ensures SameAt(was, now, Live(other)) ==> SameAt(was, next, Live(other))
    ensures Aside(run, other) !in now ==> Aside(run, other) !in next
  {
    assert SameAt(now, next, Live(other)) && SameAt(now, next, Staged(run, other)) && SameAt(now, next, Aside(run, other));
  }

  lemma FrameConserved(run: nat, was: Tree, now: Tree, next: Tree, items: seq<Item>, names: seq<Name>, i: nat)
    requires Named(items, names) && Distinct(names) && i < |names| && AllKept(run, was, now, items)
    requires Elsewhere(now, next, names[i]) && Conserved(run, was, next, names[i])
    ensures AllConserved(run, was, next, names)
  {
    forall j | 0 <= j < |names|
      ensures Conserved(run, was, next, names[j])
    {
      if j != i {
        assert Kept(run, was, now, items[j]);
        FrameItem(run, was, now, next, names[i], names[j]);
      }
    }
  }

  lemma FrameKept(run: nat, was: Tree, now: Tree, next: Tree, items: seq<Item>, after: seq<Item>, names: seq<Name>, i: nat)
    requires Named(items, names) && Distinct(names) && i < |names| && AllKept(run, was, now, items)
    requires Elsewhere(now, next, names[i]) && |after| == |items| && after == items[i := after[i]] && Kept(run, was, next, after[i])
    ensures AllKept(run, was, next, after)
  {
    forall j | 0 <= j < |names|
      ensures Kept(run, was, next, after[j])
    {
      if j != i {
        assert Kept(run, was, now, items[j]);
        FrameItem(run, was, now, next, names[i], names[j]);
      }
    }
  }

  // ----- The swap -----

  /** What SwapAll has made of an item it has passed. */
  predicate Passed(run: nat, was: Tree, now: Tree, item: Item) {
    if Staged(run, item.name) in was then item.swapped && item.movedAside && SwappedIn(run, was, now, item.name)
    else !item.swapped && !item.movedAside && Untouched(run, was, now, item.name)
  }

  predicate NotReached(run: nat, was: Tree, now: Tree, item: Item) {
    !item.movedAside && !item.swapped && Untouched(run, was, now, item.name)
  }

  lemma NothingMoved(run: nat, a: Tree, n: Name)
    ensures Elsewhere(a, a, n) && Outside(run, a, a)
  {
  }

  lemma StepsTogether(run: nat, a: Tree, b: Tree, c: Tree, n: Name)
    requires Elsewhere(a, b, n) && Outside(run, a, b) && Elsewhere(b, c, n) && Outside(run, b, c)
    ensures Elsewhere(a, c, n) && Outside(run, a, c)
  {
    forall p: Place | p.name != n || p.Sidecar? || ((p.Staged? || p.Aside?) && p.run != run)
      ensures SameAt(a, c, p)
    {
      assert SameAt(a, b, p) && SameAt(b, c, p);
    }
  }

  /** The live item, if there is one, goes to its pre-restore path. */
  lemma ItemAside(run: nat, was: Tree, a: Tree, b: Tree, items: seq<Item>, names: seq<Name>, i: nat)
    requires Named(items, names) && Distinct(names) && i < |names| && AllKept(run, was, a, items) && NotReached(run, was, a, items[i])
    requires if Live(names[i]) in a then b == (a - {Live(names[i])})[Aside(run, names[i]) := a[Live(names[i])]] else b == a
    ensures Elsewhere(a, b, names[i]) && Outside(run, a, b) && AllConserved(run, was, b, names)
    ensures AllKept(run, was, b, items[i := items[i].(movedAside := true)])
    ensures SafeAside(run, was, b, names[i]) && SameAt(was, b, Staged(run, names[i]))
  {
    FrameConserved(run, was, a, b, items, names, i);
    FrameKept(run, was, a, b, items, items[i := items[i].(movedAside := true)], names, i);
  }

  /** The staged item takes its place. */
  lemma ItemIn(run: nat, was: Tree, a: Tree, b: Tree, items: seq<Item>, names: seq<Name>, i: nat)
    requires Named(items, names) && Distinct(names) && i < |names| && AllKept(run, was, a, items) && items[i].movedAside
    requires SafeAside(run, was, a, names[i]) && SameAt(was, a, Staged(run, names[i])) && Staged(run, names[i]) in a
    requires b == (a - {Staged(run, names[i])})[Live(names[i]) := a[Staged(run, names[i])]]
    ensures Elsewhere(a, b, names[i]) && Outside(run, a, b) && AllConserved(run, was, b, names)
    ensures AllKept(run, was, b, items[i := items[i].(swapped := true)]) && SwappedIn(run, was, b, names[i])
  {
    FrameConserved(run, was, a, b, items, names, i);
    FrameKept(run, was, a, b, items, items[i := items[i].(swapped := true)], names, i);
  }

  class Swapper {
    const disk: FileTree<Place>
    /** Which restore this is: its staging directory and pre-restore names are its own. */
    const run: nat
    var items: seq<Item>
    ghost const names: seq<Name>
    /** The tree when the swapper was made. */
    ghost const was: Tree

    ghost predicate Valid()
      reads this, disk
    {
      disk.Valid() && Distinct(names) && Named(items, names) && AllKept(run, was, disk.files, items)
    }

    /** Since state number `first`, the original of every item has been at its live or its pre-restore path. */
    ghost predicate SafeSince(first: nat)
      reads this, disk
    {
      ConservedSince(run, was, disk.history, first, names)
    }

    /** newSwapper: no item is touched yet. The pre-restore names carry a fresh time stamp. */
    constructor (tree: FileTree<Place>, number: nat, all: seq<Name>)
      requires tree.Valid() && Distinct(all)
      requires forall n: Name :: Aside(number, n) !in tree.files
      ensures Valid() && disk == tree && run == number && was == tree.files && names == all
      ensures forall i :: 0 <= i < |items| ==> NotReached(run, was, tree.files, items[i])
    {
      disk, run := tree, number;
      was := tree.files;
      names := all;
      items := seq(|all|, i requires 0 <= i < |all| => Item(all[i], false, false));
    }

    /** One round of the loop in SwapAll. */
    method SwapItem(i: nat) returns (ok: bool)
      requires Valid() && i < |items| && NotReached(run, was, disk.files, items[i])
      modifies this, disk
      ensures Valid() && items == old(items)[i := items[i]]
      ensures Elsewhere(old(disk.files), disk.files, names[i]) && Outside(run, old(disk.files), disk.files)
      ensures ok ==> Passed(run, was, disk.files, items[i])
      ensures Staged(run, names[i]) !in was ==> ok
      ensures disk.faults >= old(disk.faults) && (!ok ==> disk.faults > old(disk.faults))
      ensures old(disk.history) <= disk.history && SafeSince(|old(disk.history)|)
    {
      hide AllConserved, AllKept, Distinct, Outside, Elsewhere, SafeAside, SwappedIn;
      var n := items[i].name;
      ghost var start := disk.files;
      var staged := disk.Exists(Staged(run, n));
      NothingMoved(run, start, n);
      if !staged {
        return true;
      }
      var live := disk.Exists(Live(n));
      if live {
        ok := disk.Rename(Live(n), Aside(run, n));
        if !ok { return; }
      }
      ghost var mid := disk.files;
      ItemAside(run, was, start, mid, items, names, i);
      items := items[i := items[i].(movedAside := true)];
      ok := disk.Rename(Staged(run, n), Live(n));
      if !ok { return; }
      ItemIn(run, was, mid, disk.files, items, names, i);
      StepsTogether(run, start, mid, disk.files, n);
      items := items[i := items[i].(swapped := true)];
    }

    /** One round of the loop in RollbackAll. */
    method RollbackItem(i: nat) returns (ok: bool)
      requires Valid() && i < |items|
      modifies this, disk
      ensures Valid() && items == old(items)[i := items[i]]
      ensures Elsewhere(old(disk.files), disk.files, names[i]) && Outside(run, old(disk.files), disk.files)
      ensures ok ==> SameAt(was, disk.files, Live(names[i]))
      ensures disk.faults >= old(disk.faults) && (!ok ==> disk.faults > old(disk.faults))
      ensures old(disk.history) <= disk.history && SafeSince(|old(disk.history)|)
    {
      var n := items[i].name;
      ghost var before, start := items, disk.files;
      assert Kept(run, was, start, items[i]);
      if !items[i].movedAside {
        return true;
      }
      ok := disk.RemoveAll(Live(n));
      assert SameAt(start, disk.files, Aside(run, n));
      ghost var removed := disk.files;
      assert Outside(run, start, removed);
      FrameConserved(run, was, start, disk.files, before, names, i);
      FrameKept(run, was, start, disk.files, before, before, names, i);
      if !ok { return; }
      var aside := disk.Exists(Aside(run, n));
      if aside {
        ok := disk.Rename(Aside(run, n), Live(n));
        if !ok { return; }
        assert Outside(run, removed, disk.files);
        OutsideStays(run, start, removed, disk.files);
        FrameConserved(run, was, start, disk.files, before, names, i);
      }
      items := items[i := Item(n, false, false)];
      FrameKept(run, was, start, disk.files, before, items, names, i);
    }

    /**
     SwapAll stops at the first failure and rolls nothing back. Success puts every staged item in place; in any case no
     original is lost at any moment. It fails only if an operation of the disk did.
     */
    method SwapAll() returns (ok: bool)
      requires Valid() && forall i :: 0 <= i < |items| ==> NotReached(run, was, disk.files, items[i])
      modifies this, disk
      ensures Valid() && old(disk.history) <= disk.history && SafeSince(|old(disk.history)|)
      ensures ok ==> AllNew(run, was, disk.files, names)
      ensures UnstagedStay(run, was, disk.files, names)
      ensures Outside(run, old(disk.files), disk.files)
      ensures disk.faults >= old(disk.faults) && (!ok ==> disk.faults > old(disk.faults))
      ensures ok ==> forall i :: 0 <= i < |items| ==> Passed(run, was, disk.files, items[i])
    {
      for i := 0 to |items|
        invariant Valid() && old(disk.history) <= disk.history && SafeSince(|old(disk.history)|)
        invariant disk.faults >= old(disk.faults) && Outside(run, old(disk.files), disk.files)
        invariant forall j :: 0 <= j < i ==> Passed(run, was, disk.files, items[j])
        invariant forall j :: i <= j < |items| ==> NotReached(run, was, disk.files, items[j])
      {
        ghost var before, start := items, disk.files;
        ok := SwapItem(i);
        OutsideStays(run, old(disk.files), start, disk.files);
        if !ok {
          RestIsUntouched(run, was, start, disk.files, before, names, i);
          return;
        }
        OthersStay(run, was, start, disk.files, before, items, names, i);
      }
      PassedIsNew(run, was, disk.files, items, names);
      NewKeepsUnstaged(run, was, disk.files, names);
      ok := true;
    }

    /**
     RollbackAll tries every item. If it reports no error, each live path is exactly as it was before the swap, items
     that were absent included; if it does, the originals are still there for another attempt.
     */
    method RollbackAll() returns (ok: bool)
      requires Valid()
      modifies this, disk
      ensures Valid() && old(disk.history) <= disk.history && SafeSince(|old(disk.history)|)
      ensures ok ==> AllOld(was, disk.files, names)
      ensures Outside(run, old(disk.files), disk.files)
      ensures disk.faults >= old(disk.faults) && (!ok ==> disk.faults > old(disk.faults))
    {
      ok := true;
      for i := 0 to |items|
        invariant Valid() && old(disk.history) <= disk.history && SafeSince(|old(disk.history)|)
        invariant disk.faults >= old(disk.faults) && (!ok ==> disk.faults > old(disk.faults))
        invariant Outside(run, old(disk.files), disk.files)
        invariant ok ==> forall j :: 0 <= j < i ==> SameAt(was, disk.files, Live(names[j]))
      {
        ghost var start := disk.files;
        var done := RollbackItem(i);
        ok := ok && done;
        EarlierStay(run, was, start, disk.files, names, i);
        OutsideStays(run, old(disk.files), start, disk.files);
      }
    }

    /** CommitAll deletes the pre-restore copies of what was swapped, as far as it can, and touches nothing else. */
    method CommitAll()
      requires disk.Valid() && Named(items, names)
      modifies disk
      ensures disk.Valid() && old(disk.history) <= disk.history && disk.faults >= old(disk.faults)
      ensures SameButAside(run, old(disk.files), disk.files)
      ensures forall k :: |old(disk.history)| <= k < |disk.history| ==> SameButAside(run, old(disk.files), disk.history[k])
      ensures disk.steps == old(disk.steps) && forall n: Name :: Aside(run, n) in disk.files ==> Aside(run, n) in old(disk.files)
      ensures disk.faults == old(disk.faults) ==> forall i :: 0 <= i < |items| && items[i].swapped ==> Aside(run, items[i].name) !in disk.files
    {
      for i := 0 to |items|
        invariant disk.steps == old(disk.steps) && forall n: Name :: Aside(run, n) in disk.files ==> Aside(run, n) in old(disk.files)
        invariant disk.faults == old(disk.faults) ==> forall j :: 0 <= j < i && items[j].swapped ==> Aside(run, items[j].name) !in disk.files
        invariant disk.Valid() && old(disk.history) <= disk.history && disk.faults >= old(disk.faults)
        invariant SameButAside(run, old(disk.files), disk.files)
        invariant forall k :: |old(disk.history)| <= k < |disk.history| ==> SameButAside(run, old(disk.files), disk.history[k])
      {
        if items[i].swapped {
          ghost var start := disk.files;
          var removed := disk.RemoveAll(Aside(run, items[i].name));
          forall p: Place | !(p.Aside? && p.run == run)
            ensures SameAt(old(disk.files), disk.files, p)
          {
            assert SameAt(start, disk.files, p);
          }
          AsideGoes(run, start, disk.files, items[i].name);
        }
      }
    }
  }

  lemma AsideGoes(run: nat, a: Tree, b: Tree, name: Name)
    requires forall p :: p != Aside(run, name) ==> SameAt(a, b, p)
    requires Aside(run, name) in b ==> Aside(run, name) in a
    ensures forall n: Name :: Aside(run, n) in b ==> Aside(run, n) in a
  {
    forall n: Name | Aside(run, n) in b
      ensures Aside(run, n) in a
    {
      assert n != name ==> SameAt(a, b, Aside(run, n));
    }
  }

  lemma OutsideStays(run: nat, a: Tree, b: Tree, c: Tree)
    requires Outside(run, a, b) && Outside(run, b, c)
    ensures Outside(run, a, c)
  {
    forall p: Place | p.Sidecar? || ((p.Staged? || p.Aside?) && p.run != run)
      ensures SameAt(a, c, p)
    {
      assert SameAt(a, b, p) && SameAt(b, c, p);
    }
  }

  lemma OthersStay(run: nat, was: Tree, now: Tree, next: Tree, items: seq<Item>, after: seq<Item>, names: seq<Name>, i: nat)
    requires Named(items, names) && Distinct(names) && i < |names| && Elsewhere(now, next, names[i])
    requires |after| == |items| && after == items[i := after[i]]
    ensures forall j :: 0 <= j < |items| && j != i && Passed(run, was, now, items[j]) ==> Passed(run, was, next, after[j])
    ensures forall j :: 0 <= j < |items| && j != i && NotReached(run, was, now, items[j]) ==> NotReached(run, was, next, after[j])
  {
    forall j | 0 <= j < |items| && j != i
      ensures Passed(run, was, now, items[j]) ==> Passed(run, was, next, after[j])
      ensures NotReached(run, was, now, items[j]) ==> NotReached(run, was, next, after[j])
    {
      FrameItem(run, was, now, next, names[i], names[j]);
    }
  }

  lemma EarlierStay(run: nat, was: Tree, now: Tree, next: Tree, names: seq<Name>, i: nat)
    requires Distinct(names) && i < |names| && Elsewhere(now, next, names[i])
    ensures forall j :: 0 <= j < |names| && j != i && SameAt(was, now, Live(names[j])) ==> SameAt(was, next, Live(names[j]))
  {
    forall j | 0 <= j < |names| && j != i
      ensures SameAt(was, now, Live(names[j])) ==> SameAt(was, next, Live(names[j]))
    {
      FrameItem(run, was, now, next, names[i], names[j]);
    }
  }

  lemma PassedIsNew(run: nat, was: Tree, now: Tree, items: seq<Item>, names: seq<Name>)
    requires Named(items, names) && forall i :: 0 <= i < |items| ==> Passed(run, was, now, items[i])
    ensures AllNew(run, was, now, names)
  {
    forall i | 0 <= i < |names|
      ensures New(run, was, now, names[i])
    {
      assert Passed(run, was, now, items[i]);
    }
  }

  /** Item i could not be swapped: it is staged, and the others are passed or not reached. */
  lemma RestIsUntouched(run: nat, was: Tree, now: Tree, next: Tree, items: seq<Item>, names: seq<Name>, i: nat)
    requires Named(items, names) && Distinct(names) && i < |names| && Elsewhere(now, next, names[i]) && Staged(run, names[i]) in was
    requires forall j :: 0 <= j < i ==> Passed(run, was, now, items[j])
    requires forall j :: i <= j < |items| ==> NotReached(run, was, now, items[j])
    ensures UnstagedStay(run, was, next, names)
  {
    forall j | 0 <= j < |names| && Staged(run, names[j]) !in was
      ensures SameAt(was, next, Live(names[j]))
    {
      if j < i {
        assert Passed(run, was, now, items[j]);
      } else {
        assert NotReached(run, was, now, items[j]);
      }
      FrameItem(run, was, now, next, names[i], names[j]);
    }
  }

  lemma NewKeepsUnstaged(run: nat, was: Tree, now: Tree, names: seq<Name>)
    requires AllNew(run, was, now, names)
    ensures UnstagedStay(run, was, now, names)
  {
    forall i | 0 <= i < |names| && Staged(run, names[i]) !in was
      ensures SameAt(was, now, Live(names[i]))
    {
      assert New(run, was, now, names[i]);
    }
  }
}
