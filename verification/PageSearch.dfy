/** The bounded result list of the page picker: frontend/src/lib/pageSearch.ts. */
module PageSearch {

  datatype Scored<T> = Scored(item: T, score: int)

  /** Higher scores first, then titles; `titleCompare` stands for localeCompare on the two titles. */
  function CompareScoredItems<T>(titleCompare: (T, T) -> int, a: Scored<T>, b: Scored<T>): int {
    if b.score != a.score then b.score - a.score else titleCompare(a.item, b.item)
  }

  /** "Not after": the only question the insertion loop asks. */
  predicate Le<T>(titleCompare: (T, T) -> int, a: Scored<T>, b: Scored<T>) {
    CompareScoredItems(titleCompare, a, b) <= 0
  }

  ghost predicate TotalPreorder<T(!new)>(titleCompare: (T, T) -> int) {
    && (forall x, y :: titleCompare(x, y) <= 0 || titleCompare(y, x) <= 0)
    && (forall x, y, z :: titleCompare(x, y) <= 0 && titleCompare(y, z) <= 0 ==> titleCompare(x, z) <= 0)
  }

  ghost predicate Sorted<T>(titleCompare: (T, T) -> int, xs: seq<Scored<T>>) {
    forall i, j :: 0 <= i < j < |xs| ==> Le(titleCompare, xs[i], xs[j])
  }

  /** The elements of `xs` that tie with `x`, in the order in which `xs` lists them. */
  function Ties<T>(titleCompare: (T, T) -> int, x: Scored<T>, xs: seq<Scored<T>>): seq<Scored<T>> {
    if xs == [] then []
    else
      (if Le(titleCompare, x, xs[0]) && Le(titleCompare, xs[0], x) then [xs[0]] else []) +
      Ties(titleCompare, x, xs[1..])
  }

  /** `ys` is `xs` in order, with every group of ties kept whole and in its original order. */
  ghost predicate IsStableSort<T(!new)>(titleCompare: (T, T) -> int, ys: seq<Scored<T>>, xs: seq<Scored<T>>) {
    && Sorted(titleCompare, ys)
    && forall x :: Ties(titleCompare, x, ys) == Ties(titleCompare, x, xs)
  }

  // ----- The list updated in place -----

  function Rank<T>(titleCompare: (T, T) -> int, xs: seq<Scored<T>>, e: Scored<T>): (r: nat)
    ensures r <= |xs|
    ensures forall i :: 0 <= i < r ==> Le(titleCompare, xs[i], e)
    ensures r < |xs| ==> !Le(titleCompare, xs[r], e)
  {
    if xs == [] || !Le(titleCompare, xs[0], e) then 0 else 1 + Rank(titleCompare, xs[1..], e)
  }

  function Insert<T>(titleCompare: (T, T) -> int, xs: seq<Scored<T>>, e: Scored<T>): seq<Scored<T>> {
    var r := Rank(titleCompare, xs, e);
    xs[..r] + [e] + xs[r..]
  }

  function Top<T>(limit: nat, xs: seq<T>): seq<T> {
    if |xs| <= limit then xs else xs[..limit]
  }

  class ResultList<T(==,!new)> {
    var entries: seq<Scored<T>>

    constructor ()
      ensures entries == []
    {
      entries := [];
    }

    method PushTopResult(titleCompare: (T, T) -> int, entry: Scored<T>, limit: nat)
      requires 0 < limit && |entries| <= limit
      requires TotalPreorder(titleCompare) && Sorted(titleCompare, entries)
      modifies this
      ensures entries == Top(limit, Insert(titleCompare, old(entries), entry))
    {
      if |entries| == limit && CompareScoredItems(titleCompare, entries[limit - 1], entry) <= 0 {
        LeTransitive(titleCompare);
        ghost var r := Rank(titleCompare, entries, entry);
        if r < limit - 1 {
          assert false;
        }
        return;
      }
      var index := 0;
      while index < |entries| && CompareScoredItems(titleCompare, entries[index], entry) <= 0
        invariant 0 <= index <= |entries|
        invariant forall i :: 0 <= i < index ==> Le(titleCompare, entries[i], entry)
      {
        index := index + 1;
      }
      assert index == Rank(titleCompare, entries, entry);
      entries := entries[..index] + [entry] + entries[index..];
      if |entries| > limit {
        entries := entries[..|entries| - 1];
      }
    }
  }

  function Items<T>(xs: seq<Scored<T>>): (r: seq<T>)
    ensures |r| == |xs| && forall i :: 0 <= i < |r| ==> r[i] == xs[i].item
  {
    if xs == [] then [] else [xs[0].item] + Items(xs[1..])
  }

  /** The items that match, in list order, with their scores; a negative score is no match. */
  function Matching<T>(score: T -> int, items: seq<T>): seq<Scored<T>> {
    if items == [] then []
    else
      var last := items[|items| - 1];
      Matching(score, items[..|items| - 1]) + if score(last) < 0 then [] else [Scored(last, score(last))]
  }

  /** The matching item x may stand before y: it scores more, or as much and its title does not come later. */
  predicate Ahead<T>(score: T -> int, titleCompare: (T, T) -> int, x: T, y: T) {
    score(x) > score(y) || (score(x) == score(y) && titleCompare(x, y) <= 0)
  }

  /**
   The search loop: `score` is scoreItem for the normalized query. What is found are matching items, best first, none more
   often than it is listed, and a matching item is left out only when the list is full and its last item may stand before it.
   */
  method SearchFlatPageSearchItems<T(==,!new)>(items: seq<T>, emptyQuery: bool, limit: int, score: T -> int, titleCompare: (T, T) -> int)
    returns (found: seq<T>)
    requires TotalPreorder(titleCompare)
    ensures limit <= 0 ==> found == []
    ensures limit > 0 && emptyQuery ==> found == Top(limit, items)
    ensures limit > 0 && !emptyQuery ==> found == Items(Top(limit, StableSort(titleCompare, Matching(score, items))))
    ensures limit > 0 && !emptyQuery ==>
              && (forall i, j :: 0 <= i < j < |found| ==> Ahead(score, titleCompare, found[i], found[j]))
              && (forall x :: x in found ==> score(x) >= 0 && multiset(found)[x] <= multiset(items)[x])
              && |found| <= limit
              && forall x :: score(x) >= 0 && multiset(found)[x] < multiset(items)[x] ==>
                   |found| == limit && Ahead(score, titleCompare, found[limit - 1], x)
  {
    if limit <= 0 {
      return [];
    }
    if emptyQuery {
      return if |items| <= limit then items else items[..limit];
    }
    hide Items, Ahead, StableSort, Matching, Insert, Sorted, TotalPreorder;
    var results := new ResultList<T>();
    NothingFound(titleCompare, score, items, limit);
    for i := 0 to |items|
      invariant fresh(results)
      invariant results.entries == Top(limit, StableSort(titleCompare, Matching(score, items[..i])))
    {
      var s := score(items[i]);
      SearchStep(titleCompare, score, items, i, limit, results.entries,
                 Top(limit, StableSort(titleCompare, Matching(score, items[..i + 1]))));
      if s >= 0 {
        results.PushTopResult(titleCompare, Scored(items[i], s), limit);
      }
    }
    assert items[..|items|] == items;
    found := Items(results.entries);
    BestAreFound(titleCompare, score, items, limit);
  }

  // ----- Sorting by insertion is the stable sort -----

  ghost function StableSort<T>(titleCompare: (T, T) -> int, xs: seq<Scored<T>>): seq<Scored<T>> {
    if xs == [] then []
    else Insert(titleCompare, StableSort(titleCompare, xs[..|xs| - 1]), xs[|xs| - 1])
  }

  // ----- The best matching items are found -----

  lemma {:induction false} ItemsOfConcat<T>(xs: seq<Scored<T>>, ys: seq<Scored<T>>)
    ensures Items(xs + ys) == Items(xs) + Items(ys)
  {
    if xs == [] {
      assert xs + ys == ys;
    } else {
      assert (xs + ys)[1..] == xs[1..] + ys;
      ItemsOfConcat(xs[1..], ys);
    }
  }

  /** Wherever it is put in. */
  lemma PutInSomewhere<T>(xs: seq<T>, r: nat, e: T)
    requires r <= |xs|
    ensures multiset(xs[..r] + [e] + xs[r..]) == multiset(xs + [e])
  {
    assert xs == xs[..r] + xs[r..];
  }

  lemma ItemsPutIn<T>(xs: seq<Scored<T>>, r: nat, e: Scored<T>)
    requires r <= |xs|
    ensures Items(xs[..r] + [e] + xs[r..]) == Items(xs)[..r] + [e.item] + Items(xs)[r..]
    ensures Items(xs + [e]) == Items(xs) + [e.item]
  {
    hide Items;
    assert xs == xs[..r] + xs[r..];
    assert Items([e]) == [e.item];
    ItemsOfConcat(xs[..r], xs[r..]);
    ItemsOfConcat(xs[..r], [e]);
    ItemsOfConcat(xs[..r] + [e], xs[r..]);
    ItemsOfConcat(xs, [e]);
    SplitTogether(Items(xs[..r]), Items(xs[r..]));
  }

  lemma SplitTogether<T>(a: seq<T>, b: seq<T>)
    ensures (a + b)[..|a|] == a && (a + b)[|a|..] == b
  {
  }

  lemma {:induction false} StableSortIsPermutation<T>(titleCompare: (T, T) -> int, xs: seq<Scored<T>>)
    ensures multiset(Items(StableSort(titleCompare, xs))) == multiset(Items(xs))
    ensures multiset(StableSort(titleCompare, xs)) == multiset(xs)
  {
    if xs != [] {
      hide Items, Rank;
      var init, last := xs[..|xs| - 1], xs[|xs| - 1];
      var sorted := StableSort(titleCompare, init);
      var r := Rank(titleCompare, sorted, last);
      StableSortIsPermutation(titleCompare, init);
      assert xs == init + [last];
      PutInSomewhere(sorted, r, last);
      PutInSomewhere(Items(sorted), r, last.item);
      ItemsPutIn(sorted, r, last);
      ItemsPutIn(init, |init|, last);
    }
  }

  lemma {:induction false} MatchingAreScored<T>(score: T -> int, items: seq<T>)
    ensures forall e :: e in Matching(score, items) ==> e.score == score(e.item) >= 0
    ensures forall x :: multiset(Items(Matching(score, items)))[x] == if score(x) >= 0 then multiset(items)[x] else 0
  {
    hide Items;
    if items == [] {
      assert Items(Matching(score, items)) == [];
    } else {
      var init, last := items[..|items| - 1], items[|items| - 1];
      MatchingAreScored(score, init);
      assert items == init + [last];
      if score(last) < 0 {
        assert Matching(score, items) == Matching(score, init) + [] == Matching(score, init);
      } else {
        ItemsPutIn(Matching(score, init), 0, Scored(last, score(last)));
      }
    }
  }

  /** What is cut off a list, each behind the last that is kept. */
  lemma TopAndRest<T>(limit: nat, xs: seq<T>, x: T)
    requires limit > 0
    ensures multiset(Top(limit, xs))[x] <= multiset(xs)[x]
    ensures multiset(Top(limit, xs))[x] < multiset(xs)[x] ==> exists k :: limit <= k < |xs| && xs[k] == x
  {
    if |xs| > limit {
      assert xs == xs[..limit] + xs[limit..];
      assert multiset(xs)[x] == multiset(xs[..limit])[x] + multiset(xs[limit..])[x];
      if multiset(xs[limit..])[x] > 0 {
        var k :| 0 <= k < |xs[limit..]| && xs[limit..][k] == x;
        assert xs[limit + k] == x;
      }
    }
  }

  lemma ItemsOfTop<T>(limit: nat, xs: seq<Scored<T>>)
    ensures Items(Top(limit, xs)) == Top(limit, Items(xs))
  {
  }

  lemma {:induction false} BestAreFound<T(!new)>(titleCompare: (T, T) -> int, score: T -> int, items: seq<T>, limit: nat)
    requires TotalPreorder(titleCompare) && limit > 0
    ensures var found := Items(Top(limit, StableSort(titleCompare, Matching(score, items))));
            && (forall i, j :: 0 <= i < j < |found| ==> Ahead(score, titleCompare, found[i], found[j]))
            && (forall x :: x in found ==> score(x) >= 0 && multiset(found)[x] <= multiset(items)[x])
            && |found| <= limit
            && forall x :: score(x) >= 0 && multiset(found)[x] < multiset(items)[x] ==>
                 |found| == limit && Ahead(score, titleCompare, found[limit - 1], x)
  {
    hide StableSort, Matching, Items, Sorted, Ties, TotalPreorder, Ahead;
    var matching := Matching(score, items);
    var sorted := StableSort(titleCompare, matching);
    StableSortIsSorted(titleCompare, matching);
    StableSortIsPermutation(titleCompare, matching);
    MatchingAreScored(score, items);
    ItemsOfTop(limit, sorted);
    SortedIsAhead(titleCompare, score, sorted, matching);
    AllAheadOfRest(titleCompare, score, items, limit, Items(sorted));
  }

  lemma StableSortIsSorted<T(!new)>(titleCompare: (T, T) -> int, xs: seq<Scored<T>>)
    requires TotalPreorder(titleCompare)
    ensures Sorted(titleCompare, StableSort(titleCompare, xs))
  {
    StableSortIsStable(titleCompare, xs);
  }

  lemma AllAheadOfRest<T(!new)>(titleCompare: (T, T) -> int, score: T -> int, items: seq<T>, limit: nat, all: seq<T>)
    requires limit > 0 && forall i, j :: 0 <= i < j < |all| ==> Ahead(score, titleCompare, all[i], all[j])
    requires forall x :: multiset(all)[x] == if score(x) >= 0 then multiset(items)[x] else 0
    ensures var found := Top(limit, all);
            && (forall i, j :: 0 <= i < j < |found| ==> Ahead(score, titleCompare, found[i], found[j]))
            && (forall x :: x in found ==> score(x) >= 0 && multiset(found)[x] <= multiset(items)[x])
            && |found| <= limit
            && forall x :: score(x) >= 0 && multiset(found)[x] < multiset(items)[x] ==>
                 |found| == limit && Ahead(score, titleCompare, found[limit - 1], x)
  {
    hide Ahead;
    var found := Top(limit, all);
    forall x | x in found
      ensures score(x) >= 0 && multiset(found)[x] <= multiset(items)[x]
    {
      TopAndRest(limit, all, x);
      assert multiset(found)[x] > 0;
    }
    forall x | score(x) >= 0 && multiset(found)[x] < multiset(items)[x]
      ensures |found| == limit && Ahead(score, titleCompare, found[limit - 1], x)
    {
      TopAndRest(limit, all, x);
      var k :| limit <= k < |all| && all[k] == x;
      assert Ahead(score, titleCompare, all[limit - 1], all[k]);
    }
  }

  lemma SortedIsAhead<T(!new)>(titleCompare: (T, T) -> int, score: T -> int, sorted: seq<Scored<T>>, matching: seq<Scored<T>>)
    requires Sorted(titleCompare, sorted) && multiset(sorted) == multiset(matching)
    requires forall e :: e in matching ==> e.score == score(e.item) >= 0
    ensures forall i, j :: 0 <= i < j < |sorted| ==> Ahead(score, titleCompare, Items(sorted)[i], Items(sorted)[j])
  {
    forall i, j | 0 <= i < j < |sorted|
      ensures Ahead(score, titleCompare, Items(sorted)[i], Items(sorted)[j])
    {
      assert sorted[i] in multiset(sorted) && sorted[j] in multiset(sorted);
      assert Le(titleCompare, sorted[i], sorted[j]);
    }
  }

  lemma NothingFound<T>(titleCompare: (T, T) -> int, score: T -> int, items: seq<T>, limit: nat)
    ensures Top(limit, StableSort(titleCompare, Matching(score, items[..0]))) == []
  {
    assert items[..0] == [];
  }

  lemma MatchingSnoc<T>(score: T -> int, items: seq<T>, i: nat)
    requires i < |items|
    ensures Matching(score, items[..i + 1]) ==
            if score(items[i]) < 0 then Matching(score, items[..i])
            else Matching(score, items[..i]) + [Scored(items[i], score(items[i]))]
  {
    assert items[..i + 1][..i] == items[..i];
  }

  lemma StableSortSnoc<T>(titleCompare: (T, T) -> int, xs: seq<Scored<T>>, e: Scored<T>)
    ensures StableSort(titleCompare, xs + [e]) == Insert(titleCompare, StableSort(titleCompare, xs), e)
  {
    assert (xs + [e])[..|xs|] == xs;
  }

  /** One round of the search loop: `before` and `after` are the bounded results around it. */
  lemma {:induction false} SearchStep<T(!new)>(titleCompare: (T, T) -> int, score: T -> int, items: seq<T>, i: nat, limit: nat,
                            before: seq<Scored<T>>, after: seq<Scored<T>>)
    requires TotalPreorder(titleCompare) && i < |items|
    requires before == Top(limit, StableSort(titleCompare, Matching(score, items[..i])))
    requires after == Top(limit, StableSort(titleCompare, Matching(score, items[..i + 1])))
    ensures Sorted(titleCompare, before) && |before| <= limit
    ensures after == if score(items[i]) < 0 then before
                     else Top(limit, Insert(titleCompare, before, Scored(items[i], score(items[i]))))
  {
    MatchingSnoc(score, items, i);
    InsertionStep(titleCompare, Matching(score, items[..i]), Scored(items[i], score(items[i])), limit);
  }

  lemma {:induction false} InsertionStep<T(!new)>(titleCompare: (T, T) -> int, xs: seq<Scored<T>>, e: Scored<T>, limit: nat)
    requires TotalPreorder(titleCompare)
    ensures var before := Top(limit, StableSort(titleCompare, xs));
            && Sorted(titleCompare, before)
            && Top(limit, StableSort(titleCompare, xs + [e])) == Top(limit, Insert(titleCompare, before, e))
  {
    StableSortIsStable(titleCompare, xs);
    StableSortSnoc(titleCompare, xs, e);
    TopOfInsert(titleCompare, StableSort(titleCompare, xs), e, limit);
  }

  lemma LeTransitive<T(!new)>(titleCompare: (T, T) -> int)
    requires TotalPreorder(titleCompare)
    ensures forall a: Scored<T>, b: Scored<T>, c: Scored<T> ::
              Le(titleCompare, a, b) && Le(titleCompare, b, c) ==> Le(titleCompare, a, c)
    ensures forall a: Scored<T>, b: Scored<T> :: Le(titleCompare, a, b) || Le(titleCompare, b, a)
  {
  }

  lemma {:induction false} TiesOfConcat<T>(titleCompare: (T, T) -> int, x: Scored<T>, xs: seq<Scored<T>>, ys: seq<Scored<T>>)
    ensures Ties(titleCompare, x, xs + ys) == Ties(titleCompare, x, xs) + Ties(titleCompare, x, ys)
  {
    if xs == [] {
      assert xs + ys == ys;
    } else {
      assert (xs + ys)[1..] == xs[1..] + ys;
      TiesOfConcat(titleCompare, x, xs[1..], ys);
    }
  }

  lemma {:induction false} NoTies<T>(titleCompare: (T, T) -> int, x: Scored<T>, xs: seq<Scored<T>>)
    requires forall y :: y in xs ==> !Le(titleCompare, y, x)
    ensures Ties(titleCompare, x, xs) == []
  {
    if xs != [] {
      assert xs[0] in xs;
      NoTies(titleCompare, x, xs[1..]);
    }
  }

  lemma InsertKeepsSorted<T(!new)>(titleCompare: (T, T) -> int, xs: seq<Scored<T>>, e: Scored<T>)
    requires TotalPreorder(titleCompare) && Sorted(titleCompare, xs)
    ensures Sorted(titleCompare, Insert(titleCompare, xs, e))
  {
    LeTransitive(titleCompare);
    var r := Rank(titleCompare, xs, e);
    assert forall j :: r < j < |xs| ==> Le(titleCompare, xs[r], xs[j]);
  }

  lemma InsertKeepsTies<T(!new)>(titleCompare: (T, T) -> int, xs: seq<Scored<T>>, e: Scored<T>, x: Scored<T>)
    requires TotalPreorder(titleCompare) && Sorted(titleCompare, xs)
    ensures Ties(titleCompare, x, Insert(titleCompare, xs, e)) == Ties(titleCompare, x, xs + [e])
  {
    var r := Rank(titleCompare, xs, e);
    var low, high := xs[..r], xs[r..];
    assert xs == low + high;
    TiesOfConcat(titleCompare, x, low, high);
    TiesOfConcat(titleCompare, x, xs, [e]);
    TiesOfConcat(titleCompare, x, low + [e], high);
    TiesOfConcat(titleCompare, x, low, [e]);
    NothingAboveTies(titleCompare, xs, e, x);
  }

  /** Behind the insertion point nothing ties with the new entry. */
  lemma NothingAboveTies<T(!new)>(titleCompare: (T, T) -> int, xs: seq<Scored<T>>, e: Scored<T>, x: Scored<T>)
    requires TotalPreorder(titleCompare) && Sorted(titleCompare, xs)
    ensures Ties(titleCompare, x, [e]) == [] || Ties(titleCompare, x, xs[Rank(titleCompare, xs, e)..]) == []
  {
    var r := Rank(titleCompare, xs, e);
    if Le(titleCompare, x, e) && Le(titleCompare, e, x) {
      LeTransitive(titleCompare);
      assert forall j :: r < j < |xs| ==> Le(titleCompare, xs[r], xs[j]);
      NoTies(titleCompare, x, xs[r..]);
    } else {
      assert [e][1..] == [];
    }
  }

  lemma {:induction false} StableSortIsStable<T(!new)>(titleCompare: (T, T) -> int, xs: seq<Scored<T>>)
    requires TotalPreorder(titleCompare)
    ensures IsStableSort(titleCompare, StableSort(titleCompare, xs), xs)
  {
    if xs != [] {
      var init, last := xs[..|xs| - 1], xs[|xs| - 1];
      var sorted := StableSort(titleCompare, init);
      StableSortIsStable(titleCompare, init);
      InsertKeepsSorted(titleCompare, sorted, last);
      assert xs == init + [last];
      forall x
        ensures Ties(titleCompare, x, StableSort(titleCompare, xs)) == Ties(titleCompare, x, xs)
      {
        InsertKeepsTies(titleCompare, sorted, last, x);
        TiesOfConcat(titleCompare, x, sorted, [last]);
        TiesOfConcat(titleCompare, x, init, [last]);
      }
    }
  }

  lemma {:induction false} TiesAreMembers<T>(titleCompare: (T, T) -> int, x: Scored<T>, xs: seq<Scored<T>>, y: Scored<T>)
    requires y in Ties(titleCompare, x, xs)
    ensures y in xs && Le(titleCompare, x, y) && Le(titleCompare, y, x)
  {
    if y !in Ties(titleCompare, x, xs[1..]) {
      assert y == xs[0];
    } else {
      TiesAreMembers(titleCompare, x, xs[1..], y);
    }
  }

  /** The head of one sorted list is not after the head of another with the same ties. */
  lemma HeadsCompare<T(!new)>(titleCompare: (T, T) -> int, ys: seq<Scored<T>>, zs: seq<Scored<T>>)
    requires TotalPreorder(titleCompare) && Sorted(titleCompare, zs) && ys != []
    requires Ties(titleCompare, ys[0], ys) == Ties(titleCompare, ys[0], zs)
    ensures zs != [] && Le(titleCompare, zs[0], ys[0])
  {
    LeTransitive(titleCompare);
    TiesAreMembers(titleCompare, ys[0], zs, ys[0]);
    var k :| 0 <= k < |zs| && zs[k] == ys[0];
  }

  lemma TiesOfTail<T>(titleCompare: (T, T) -> int, x: Scored<T>, xs: seq<Scored<T>>)
    requires xs != []
    ensures Ties(titleCompare, x, xs[1..]) ==
            if Le(titleCompare, x, xs[0]) && Le(titleCompare, xs[0], x) then Ties(titleCompare, x, xs)[1..] else Ties(titleCompare, x, xs)
  {
  }

  lemma {:induction false} SameTiesSameList<T(!new)>(titleCompare: (T, T) -> int, ys: seq<Scored<T>>, zs: seq<Scored<T>>)
    requires TotalPreorder(titleCompare) && Sorted(titleCompare, ys) && Sorted(titleCompare, zs)
    requires forall x :: Ties(titleCompare, x, ys) == Ties(titleCompare, x, zs)
    ensures ys == zs
  {
    if ys == [] {
      if zs != [] {
        HeadsCompare(titleCompare, zs, ys);
      }
    } else {
      HeadsCompare(titleCompare, ys, zs);
      HeadsCompare(titleCompare, zs, ys);
      LeTransitive(titleCompare);
      assert Ties(titleCompare, ys[0], ys)[0] == ys[0];
      assert Ties(titleCompare, ys[0], zs)[0] == zs[0];
      assert ys[0] == zs[0];
      forall x
        ensures Ties(titleCompare, x, ys[1..]) == Ties(titleCompare, x, zs[1..])
      {
        assert Ties(titleCompare, x, ys) == Ties(titleCompare, x, zs);
        TiesOfTail(titleCompare, x, ys);
        TiesOfTail(titleCompare, x, zs);
      }
      SameTiesSameList(titleCompare, ys[1..], zs[1..]);
    }
  }

  /** A list has only one stable sort, so the specification of the search leaves no freedom. */
  lemma StableSortUnique<T(!new)>(titleCompare: (T, T) -> int, ys: seq<Scored<T>>, zs: seq<Scored<T>>, xs: seq<Scored<T>>)
    requires TotalPreorder(titleCompare)
    requires IsStableSort(titleCompare, ys, xs) && IsStableSort(titleCompare, zs, xs)
    ensures ys == zs
  {
    forall x ensures Ties(titleCompare, x, ys) == Ties(titleCompare, x, zs) {}
    SameTiesSameList(titleCompare, ys, zs);
  }

  lemma StableSortCharacterised<T(!new)>(titleCompare: (T, T) -> int, xs: seq<Scored<T>>)
    requires TotalPreorder(titleCompare)
    ensures forall ys :: IsStableSort(titleCompare, ys, xs) <==> ys == StableSort(titleCompare, xs)
  {
    StableSortIsStable(titleCompare, xs);
    forall ys | IsStableSort(titleCompare, ys, xs)
      ensures ys == StableSort(titleCompare, xs)
    {
      StableSortUnique(titleCompare, ys, StableSort(titleCompare, xs), xs);
    }
  }

  lemma RankOfCut<T(!new)>(titleCompare: (T, T) -> int, sorted: seq<Scored<T>>, e: Scored<T>, limit: nat)
    requires TotalPreorder(titleCompare) && Sorted(titleCompare, sorted) && limit <= |sorted|
    ensures Rank(titleCompare, sorted[..limit], e) == if Rank(titleCompare, sorted, e) <= limit then Rank(titleCompare, sorted, e) else limit
  {
    var cut := sorted[..limit];
    var r, q := Rank(titleCompare, sorted, e), Rank(titleCompare, cut, e);
    assert q < |cut| ==> !Le(titleCompare, sorted[q], e);
    assert r < |sorted| && r < limit ==> !Le(titleCompare, cut[r], e);
  }

  lemma CutFirst<T>(limit: nat, xs: seq<T>, r: nat, e: T)
    requires limit <= |xs| && r <= |xs|
    ensures var (cut, q) := (xs[..limit], if r <= limit then r else limit);
            Top(limit, cut[..q] + [e] + cut[q..]) == Top(limit, xs[..r] + [e] + xs[r..])
  {
    var cut, inserted := xs[..limit], xs[..r] + [e] + xs[r..];
    if r <= limit {
      assert cut[..r] == xs[..r];
      assert cut[..r] + [e] + cut[r..] == inserted[..limit + 1];
    } else {
      assert cut[..limit] + [e] + cut[limit..] == cut + [e];
      assert (cut + [e])[..limit] == cut == inserted[..limit];
    }
  }

  /** Cutting to the limit before inserting loses nothing: dropped entries can never come back. */
  lemma TopOfInsert<T(!new)>(titleCompare: (T, T) -> int, sorted: seq<Scored<T>>, e: Scored<T>, limit: nat)
    requires TotalPreorder(titleCompare) && Sorted(titleCompare, sorted)
    ensures Top(limit, Insert(titleCompare, Top(limit, sorted), e)) == Top(limit, Insert(titleCompare, sorted, e))
  {
    hide Rank, Sorted, TotalPreorder, Le;
    if |sorted| > limit {
      RankOfCut(titleCompare, sorted, e, limit);
      CutFirst(limit, sorted, Rank(titleCompare, sorted, e), e);
    }
  }
}
