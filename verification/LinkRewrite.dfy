/**
 What happens to one Markdown link destination when pages move:
 the value-level half of backend/internal/links/link_refactor.go.
 */
module LinkRewrite {
  import opened Wrappers
  import opened Text
  import opened WikiPath

  datatype RewriteRule = RewriteRule(oldPath: string, newPath: string, oldTitle: string, newTitle: string)

  /** The three results of the rewriters: the destination, whether it is new, whether a warning came with it. */
  datatype Rewritten = Rewritten(destination: string, changed: bool, warned: bool)

  function SplitLinkDestination(destination: string): (parts: (string, string))
    ensures parts.0 + parts.1 == destination && Free(parts.0, {'?', '#'})
    ensures parts.1 == "" || parts.1[0] in {'?', '#'}
  {
    var i := IndexAny(destination, {'?', '#'});
    (destination[..i], destination[i..])
  }

  predicate IsExternalLinkDestination(destination: string) {
    var lower := ToLower(destination);
    HasPrefix(lower, "http://") || HasPrefix(lower, "https://") || HasPrefix(lower, "mailto:") || HasPrefix(lower, "#")
  }

  /** What isAssetLinkDestination looks for, once the destination is unwrapped. */
  predicate InAssetFolder(dest: string) {
    HasPrefix(dest, "/assets/") || HasPrefix(dest, "assets/")
  }

  predicate IsAssetLinkDestination(destination: string) {
    InAssetFolder(TrimSuffix(TrimPrefix(TrimSpace(destination), "<"), ">"))
  }

  function ApplyRewriteRules(resolvedPath: string, rules: seq<RewriteRule>): Option<string> {
    if rules == [] then None
    else if resolvedPath == rules[0].oldPath then Some(rules[0].newPath)
    else if HasPrefix(resolvedPath, rules[0].oldPath + "/") then
      Some(rules[0].newPath + TrimPrefix(resolvedPath, rules[0].oldPath))
    else ApplyRewriteRules(resolvedPath, rules[1..])
  }

  /** Where a page is once the rules have been carried out. */
  function Moved(path: string, rules: seq<RewriteRule>): string {
    match ApplyRewriteRules(path, rules)
    case Some(newPath) => newPath
    case None => path
  }

  // ----- Relative paths -----

  function CommonPrefix(a: seq<string>, b: seq<string>): (n: nat)
    ensures n <= |a| && n <= |b| && a[..n] == b[..n]
    ensures n < |a| && n < |b| ==> a[n] != b[n]
  {
    if a != [] && b != [] && a[0] == b[0] then
      var n := CommonPrefix(a[1..], b[1..]);
      assert a[..n + 1] == [a[0]] + a[1..][..n] && b[..n + 1] == [b[0]] + b[1..][..n];
      n + 1
    else 0
  }

  function RelativeSegments(base: seq<string>, target: seq<string>): seq<string> {
    var common := CommonPrefix(base, target);
    Ups(|base| - common) + target[common..]
  }

  function RelativePath(current: string, target: string): string {
    if target == "" then ""
    else Join(RelativeSegments(Names(CutQuery(current)), Names(CutQuery(target))))
  }

  function TrimSlashes(s: string): string {
    TrimRightSlashes(if s != "" && s[0] == '/' then TrimSlashesLeft(s) else s)
  }

  function TrimSlashesLeft(s: string): string {
    if s != "" && s[0] == '/' then TrimSlashesLeft(s[1..]) else s
  }

  lemma {:induction false} JoinHasNoEdgeSlash(segs: seq<string>)
    requires segs != [] && forall seg :: seg in segs ==> seg != "" && '/' !in seg
    ensures var s := Join(segs); s != "" && s[0] != '/' && s[|s| - 1] != '/'
  {
    assert segs[0] != "" && '/' !in segs[0];
    assert segs[0][0] in segs[0] && segs[0][|segs[0]| - 1] in segs[0];
    if |segs| > 1 {
      assert forall seg :: seg in segs[1..] ==> seg in segs;
      JoinHasNoEdgeSlash(segs[1..]);
    }
  }

  lemma {:induction false} NormalizeTwice(p: string)
    ensures Normalize(Normalize(p)) == Normalize(p)
    ensures Names(CutQuery(Normalize(p))) == Names(CutQuery(p))
  {
    if p != "" {
      var names := Names(CutQuery(p));
      CutIsFree(p);
      SegmentsAreFree(CutQuery(p), {'?', '#'});
      JoinIsFree(names);
      FreeIsUncut(Print(names));
      NamesOfPrint(names);
    }
  }

  lemma TrimOfPrinted(names: seq<string>)
    requires forall seg :: seg in names ==> seg != "" && '/' !in seg
    ensures TrimSlashes(Print(names)) == Join(names)
    ensures names != [] ==> Join(names) != "" && Split(Join(names)) == names
  {
    if names != [] {
      var s := Join(names);
      JoinHasNoEdgeSlash(names);
      SplitJoin(names);
      assert Print(names)[1..] == s;
      assert TrimSlashesLeft(s) == s && TrimRightSlashes(s) == s;
    } else {
      assert Print(names)[1..] == "";
      assert TrimSlashesLeft("") == "" && TrimRightSlashes("") == "";
    }
  }

  method SplitWikiPathSegments(value: string) returns (segs: seq<string>)
    ensures segs == Names(CutQuery(value))
  {
    var normalized := NormalizeWikiPath(value);
    TrimOfPrinted(Names(CutQuery(value)));
    normalized := TrimSlashes(normalized);
    if normalized == "" {
      return [];
    }
    segs := Split(normalized);
  }

  method RelativeWikiLinkPath(currentPath: string, targetPath: string) returns (rel: string)
    ensures rel == RelativePath(currentPath, targetPath)
  {
    var base := NormalizeWikiPath(currentPath);
    var target := NormalizeWikiPath(targetPath);
    NormalizeTwice(currentPath);
    NormalizeTwice(targetPath);
    if target == "" {
      return "";
    }
    var baseParts := SplitWikiPathSegments(base);
    var targetParts := SplitWikiPathSegments(target);
    var common := CommonLength(baseParts, targetParts);
    var relParts := Climbs(|baseParts| - common);
    relParts := relParts + targetParts[common..];
    rel := Join(relParts);
  }

  method CommonLength(baseParts: seq<string>, targetParts: seq<string>) returns (common: nat)
    ensures common == CommonPrefix(baseParts, targetParts)
  {
    common := 0;
    while common < |baseParts| && common < |targetParts| && baseParts[common] == targetParts[common]
      invariant common <= |baseParts| && common <= |targetParts|
      invariant baseParts[..common] == targetParts[..common]
    {
      common := common + 1;
    }
    CommonPrefixIs(baseParts, targetParts, common);
  }

  method Climbs(count: nat) returns (parts: seq<string>)
    ensures parts == Ups(count)
  {
    parts := [];
    for i := 0 to count
      invariant parts == Ups(i)
    {
      UpsSnoc(i);
      parts := parts + [".."];
    }
  }

  lemma UpsSnoc(k: nat)
    ensures Ups(k) + [".."] == Ups(k + 1)
  {
  }

  lemma PrefixAgrees(a: seq<string>, b: seq<string>, n: nat)
    requires n <= |a| && n <= |b| && a[..n] == b[..n]
    ensures forall i :: 0 <= i < n ==> a[i] == b[i]
  {
    forall i | 0 <= i < n
      ensures a[i] == b[i]
    {
      assert a[..n][i] == b[..n][i];
    }
  }

  lemma CommonPrefixIs(a: seq<string>, b: seq<string>, n: nat)
    requires n <= |a| && n <= |b| && a[..n] == b[..n]
    requires n < |a| && n < |b| ==> a[n] != b[n]
    ensures n == CommonPrefix(a, b)
  {
    PrefixAgrees(a, b, CommonPrefix(a, b));
    PrefixAgrees(a, b, n);
  }

  lemma CommonPrefixIsLongest(a: seq<string>, b: seq<string>, n: nat)
    requires n <= |a| && n <= |b| && a[..n] == b[..n]
    ensures n <= CommonPrefix(a, b)
  {
    PrefixAgrees(a, b, n);
  }

  // ----- Resolution and relative paths undo each other -----

  lemma {:induction false} ResolveUnfoldsRelative(current: string, ref: string)
    requires Free(ref, {'?', '#'}) && !IsAbsolute(ref)
    ensures ResolveURLPath(current, ref) == Normalize(RemoveDotSegments(Folder(current) + ref))
  {
    FreeIsUncut(ref);
    assert ref != "" ==> ref[..1] == [ref[0]];
  }

  lemma {:induction false} ResolveUnfoldsAbsolute(current: string, ref: string)
    requires Free(ref, {'?', '#'}) && IsAbsolute(ref) && !StartsDouble(ref)
    ensures ResolveURLPath(current, ref) == Normalize(RemoveDotSegments(ref))
  {
    FreeIsUncut(ref);
  }

  /** A rooted reference does not depend on the page. "//" alone is an empty authority: it names the page itself. */
  predicate IsRooted(ref: string) {
    IsAbsolute(ref) && ref != "//"
  }

  lemma RootedIgnoresPage(a: string, b: string, ref: string)
    requires Free(ref, {'?', '#'}) && IsRooted(ref)
    ensures ResolveURLPath(a, ref) == ResolveURLPath(b, ref)
  {
    FreeIsUncut(ref);
    if HasAuthority(ref) {
      assert |ref| > 2 && ref[..3] == "//" + [ref[2]];
      assert IndexAny(ref[2..], {'/'}) > 0;
    }
  }

  /** The string that is walked when a relative reference is resolved. */
  lemma FolderSegments(current: string, ref: string)
    requires IsPagePath(current)
    ensures IsAbsolute(Folder(current) + ref)
    ensures Split(TrimRoot(Folder(current) + ref)) == Names(current) + Split(ref)
  {
    var base := Names(current);
    FreeIsUncut(current);
    if base == [] {
      assert Folder(current) == "/";
      assert ("/" + ref)[1..] == ref;
      assert base + Split(ref) == Split(ref);
    } else {
      FolderOfNames(current);
      BelowFolder(base, ref);
    }
  }

  lemma FolderOfNames(current: string)
    requires IsPagePath(current) && Names(current) != []
    ensures Folder(current) == "/" + Join(Names(current)) + "/"
  {
    FreeIsUncut(current);
    NamesAreSegments(Names(current));
    JoinHasNoEdgeSlash(Names(current));
  }

  lemma BelowFolder(base: seq<string>, ref: string)
    requires AreNames(base) && base != []
    ensures var full := "/" + Join(base) + "/" + ref;
            IsAbsolute(full) && Split(TrimRoot(full)) == base + Split(ref)
  {
    var full := "/" + Join(base) + "/" + ref;
    NamesAreSegments(base);
    assert full[1..] == Join(base) + "/" + ref;
    SplitConcat(Join(base), ref);
    SplitJoin(base);
  }

  lemma NamesAreSegments(names: seq<string>)
    requires AreNames(names)
    ensures forall seg :: seg in names ==> seg != "" && '/' !in seg && Free(seg, {'?', '#'})
  {
    forall seg | seg in names
      ensures seg != "" && '/' !in seg && Free(seg, {'?', '#'})
    {
      assert IsName(seg);
    }
  }

  /** A reference without a leading slash is walked from the current page's own names. */
  lemma {:induction false} ResolveRelative(current: string, ref: string)
    requires IsPagePath(current) && Free(ref, {'?', '#'}) && !IsAbsolute(ref)
    ensures ResolveURLPath(current, ref) == Print(NonEmpty(Walk(Names(current), Split(ref))))
    ensures AreNames(NonEmpty(Walk(Names(current), Split(ref))))
  {
    var base := Names(current);
    var full := Folder(current) + ref;
    ResolveUnfoldsRelative(current, ref);
    FolderSegments(current, ref);
    FolderIsFree(current);
    RemovedDotsIsPagePath(full);
    WalkNames([], base);
    assert [] + base == base;
    WalkConcat([], base, Split(ref));
  }

  lemma RelativeIsASegmentList(segs: seq<string>)
    requires segs != [] && forall seg :: seg in segs ==> seg == ".." || IsName(seg)
    ensures Free(Join(segs), {'?', '#'}) && !IsAbsolute(Join(segs)) && Join(segs) != "" && Split(Join(segs)) == segs
  {
    forall seg | seg in segs
      ensures Free(seg, {'?', '#'}) && '/' !in seg && seg != ""
    {
      assert seg == ".." || IsName(seg);
    }
    JoinIsFree(segs);
    JoinHasNoEdgeSlash(segs);
    SplitJoin(segs);
  }

  /** "Ups then names" lands where one expects. */
  lemma {:induction false} ResolveUpsThenNames(current: string, k: nat, names: seq<string>)
    requires IsPagePath(current) && AreNames(names) && k + |names| > 0
    ensures ResolveURLPath(current, Join(Ups(k) + names)) == Print(Front(Names(current), k) + names)
    ensures AreNames(Front(Names(current), k) + names)
  {
    var segs := Ups(k) + names;
    var base := Names(current);
    forall seg | seg in segs
      ensures seg == ".." || IsName(seg)
    {
      assert seg in Ups(k) || seg in names;
    }
    RelativeIsASegmentList(segs);
    ResolveRelative(current, Join(segs));
    WalkConcat(base, Ups(k), names);
    WalkUps(base, k);
    WalkNames(Front(base, k), names);
    var reached := Front(base, k) + names;
    forall seg | seg in reached
      ensures IsName(seg) && seg != ""
    {
      assert seg in base || seg in names;
    }
    NonEmptyOfNames(reached);
  }

  lemma RelativeSegmentsReach(base: seq<string>, target: seq<string>)
    ensures var common := CommonPrefix(base, target);
            Front(base, |base| - common) + target[common..] == target
  {
    var common := CommonPrefix(base, target);
    assert base[..common] == target[..common];
  }

  /** A printed relative path resolves, from the page it was computed for, to exactly the target. */
  lemma {:induction false} RelativePathResolves(current: string, target: string)
    requires IsPagePath(current) && IsPagePath(target) && RelativePath(current, target) != ""
    ensures ResolveURLPath(current, RelativePath(current, target)) == Print(Names(target))
  {
    var base, goal := Names(current), Names(target);
    FreeIsUncut(current);
    FreeIsUncut(target);
    var common := CommonPrefix(base, goal);
    RelativeSegmentsReach(base, goal);
    assert AreNames(goal[common..]);
    ResolveUpsThenNames(current, |base| - common, goal[common..]);
  }

  /** The relative path is empty only for the current page itself (or for the root page written as ""). */
  lemma RelativePathEmpty(current: string, target: string)
    requires IsPagePath(current) && IsPagePath(target)
    ensures RelativePath(current, target) == "" <==> target == "" || Names(current) == Names(target)
  {
    var base, goal := Names(current), Names(target);
    FreeIsUncut(current);
    FreeIsUncut(target);
    var common := CommonPrefix(base, goal);
    var rel := RelativeSegments(base, goal);
    if target != "" {
      if rel != [] {
        forall seg | seg in rel
          ensures seg == ".." || IsName(seg)
        {
          assert seg in Ups(|base| - common) || seg in goal;
        }
        RelativeIsASegmentList(rel);
        if base == goal {
          CommonPrefixIs(base, goal, |base|);
        }
      } else {
        assert base[..common] == base && goal[..common] == goal;
      }
    }
  }

  /** No shorter way: any climb followed by names that reaches the target has at least as many segments. */
  lemma {:induction false} RelativePathShortest(current: string, target: string, k: nat, names: seq<string>)
    requires IsPagePath(current) && IsPagePath(target)
    requires AreNames(names) && k + |names| > 0
    requires ResolveURLPath(current, Join(Ups(k) + names)) == Print(Names(target))
    ensures |RelativeSegments(Names(current), Names(target))| <= k + |names|
  {
    var base, goal := Names(current), Names(target);
    ResolveUpsThenNames(current, k, names);
    PrintInjective(Front(base, k) + names, goal);
    ShortestSegments(base, k, names, goal);
  }

  lemma PrintInjective(a: seq<string>, b: seq<string>)
    requires AreNames(a) && AreNames(b) && Print(a) == Print(b)
    ensures a == b
  {
    PrintIsPagePath(a);
    PrintIsPagePath(b);
  }

  lemma ShortestSegments(base: seq<string>, k: nat, names: seq<string>, goal: seq<string>)
    requires goal == Front(base, k) + names
    ensures |RelativeSegments(base, goal)| <= k + |names|
  {
    var kept := |Front(base, k)|;
    assert goal[..kept] == base[..kept];
    CommonPrefixIsLongest(base, goal, kept);
  }

  // ----- The rewriters -----

  function RewriteLinkDestination(currentPath: string, destination: string, rules: seq<RewriteRule>): Rewritten {
    var (baseDest, suffix) := SplitLinkDestination(destination);
    if baseDest == "" || IsExternalLinkDestination(baseDest) || IsAssetLinkDestination(baseDest) then
      Rewritten(destination, false, false)
    else
      var resolvedPath := ResolveURLPath(currentPath, baseDest);
      if resolvedPath == "" then Rewritten(destination, false, true)
      else
        match ApplyRewriteRules(resolvedPath, rules)
        case None => Rewritten(destination, false, false)
        case Some(newResolvedPath) =>
          if newResolvedPath == resolvedPath then Rewritten(destination, false, false)
          else
            var rewrittenBase :=
              if IsAbsolute(baseDest) then newResolvedPath
              else
                match ApplyRewriteRules(Normalize(currentPath), rules)
                case Some(next) => RelativePath(next, newResolvedPath)
                case None => RelativePath(currentPath, newResolvedPath);
            if rewrittenBase == "" then Rewritten(destination, false, true)
            else Rewritten(rewrittenBase + suffix, true, false)
  }

  function RewriteRelativeLinkForPathChange(oldCurrent: string, newCurrent: string, destination: string, rules: seq<RewriteRule>): Rewritten {
    var (baseDest, suffix) := SplitLinkDestination(destination);
    if baseDest == "" || IsAbsolute(baseDest) || IsExternalLinkDestination(baseDest) || IsAssetLinkDestination(baseDest) then
      Rewritten(destination, false, false)
    else
      var resolvedPath := ResolveURLPath(oldCurrent, baseDest);
      if resolvedPath == "" then Rewritten(destination, false, true)
      else
        var rewrittenBase := RelativePath(newCurrent, Moved(resolvedPath, rules));
        if rewrittenBase == "" then Rewritten(destination, false, true)
        else if rewrittenBase == baseDest then Rewritten(destination, false, false)
        else Rewritten(rewrittenBase + suffix, true, false)
  }

  /** Rules move pages to pages; the root page is never the new place. Old paths are unrestricted. */
  predicate RulesMovePages(rules: seq<RewriteRule>) {
    forall r :: r in rules ==> IsPagePath(r.newPath) && Names(r.newPath) != []
  }

  /** A destination the rewriters treat as a link between pages. */
  predicate IsPageLink(baseDest: string) {
    baseDest != "" && !IsExternalLinkDestination(baseDest) && !IsAssetLinkDestination(baseDest)
  }

  /** The canonical path of the page a link written on `oldCurrent` is about, once the rules are carried out. */
  function Meant(oldCurrent: string, baseDest: string, rules: seq<RewriteRule>): string {
    Print(Names(Moved(ResolveURLPath(oldCurrent, baseDest), rules)))
  }

  lemma {:induction false} MovedIsPagePath(path: string, rules: seq<RewriteRule>)
    requires RulesMovePages(rules) && IsPagePath(path)
    ensures IsPagePath(Moved(path, rules))
    ensures ApplyRewriteRules(path, rules).Some? ==> Names(Moved(path, rules)) != []
  {
    if rules != [] && path != rules[0].oldPath {
      var r := rules[0];
      assert IsPagePath(r.newPath);
      if HasPrefix(path, r.oldPath + "/") {
        var rest := path[|r.oldPath| + 1..];
        assert path == r.oldPath + "/" + rest;
        NamesConcat(r.oldPath, rest);
        assert path[..|r.oldPath|] == r.oldPath;
        assert r.newPath + TrimPrefix(path, r.oldPath) == r.newPath + "/" + rest;
        NamesConcat(r.newPath, rest);
      } else {
        MovedIsPagePath(path, rules[1..]);
      }
    }
  }

  lemma SplitAtSuffix(base: string, suffix: string)
    requires Free(base, {'?', '#'}) && (suffix == "" || suffix[0] in {'?', '#'})
    ensures SplitLinkDestination(base + suffix) == (base, suffix)
  {
    var d := base + suffix;
    var i := IndexAny(d, {'?', '#'});
    assert forall k :: 0 <= k < |base| ==> d[k] in base;
    assert |base| < |d| ==> d[|base|] in {'?', '#'};
    assert i == |base|;
    assert d[..i] == base && d[i..] == suffix;
  }

  /** What both rewriters write into a relative link, and when they cannot. */
  lemma {:induction false} RelativeRewrite(newCurrent: string, target: string)
    requires IsPagePath(newCurrent) && IsPagePath(target) && target != ""
    ensures RelativePath(newCurrent, target) == "" <==> Print(Names(target)) == Print(Names(newCurrent))
    ensures var rel := RelativePath(newCurrent, target);
            rel != "" ==> ResolveURLPath(newCurrent, rel) == Print(Names(target)) && Free(rel, {'?', '#'}) && !IsAbsolute(rel)
  {
    RelativePathEmpty(newCurrent, target);
    PrintIsPagePath(Names(target));
    PrintIsPagePath(Names(newCurrent));
    var rel := RelativePath(newCurrent, target);
    if rel != "" {
      RelativePathResolves(newCurrent, target);
      FreeIsUncut(newCurrent);
      FreeIsUncut(target);
      var base, goal := Names(newCurrent), Names(target);
      var common := CommonPrefix(base, goal);
      forall seg | seg in RelativeSegments(base, goal)
        ensures seg == ".." || IsName(seg)
      {
        assert seg in Ups(|base| - common) || seg in goal;
      }
      RelativeIsASegmentList(RelativeSegments(base, goal));
    }
  }

  /**
   Main result for a moved page: every relative page link on it, read from the page's new path, names the page that
   the old link named, after the move; query and fragment are untouched. Only a link to the page itself is
   left alone, with a warning.
   */
  lemma {:induction false} PathChangeKeepsMeaning(oldCurrent: string, newCurrent: string, destination: string, rules: seq<RewriteRule>)
    requires RulesMovePages(rules) && IsPagePath(newCurrent)
    ensures
      var (baseDest, suffix) := SplitLinkDestination(destination);
      var r := RewriteRelativeLinkForPathChange(oldCurrent, newCurrent, destination, rules);
      var meant := Meant(oldCurrent, baseDest, rules);
      && (r.changed <==> r.destination != destination)
      && SplitLinkDestination(r.destination).1 == suffix
      && if IsPageLink(baseDest) && !IsAbsolute(baseDest) then
           && (r.warned <==> meant == Print(Names(newCurrent)))
           && (!r.warned ==> ResolveURLPath(newCurrent, SplitLinkDestination(r.destination).0) == meant)
         else !r.warned && r.destination == destination
  {
    var (baseDest, suffix) := SplitLinkDestination(destination);
    if IsPageLink(baseDest) && !IsAbsolute(baseDest) {
      var resolved := ResolveURLPath(oldCurrent, baseDest);
      RelativeNeverEmpty(oldCurrent, baseDest);
      ResolvedIsPagePath(oldCurrent, baseDest);
      var target := Moved(resolved, rules);
      MovedIsPagePath(resolved, rules);
      RelativeRewrite(newCurrent, target);
      var rel := RelativePath(newCurrent, target);
      if rel != "" {
        SplitAtSuffix(rel, suffix);
      }
    }
  }

  lemma RelativeNeverEmpty(current: string, ref: string)
    requires Free(ref, {'?', '#'}) && !IsAbsolute(ref)
    ensures ResolveURLPath(current, ref) != ""
  {
    ResolveUnfoldsRelative(current, ref);
  }

  // ----- A page whose targets, or which itself, move under the rules -----

  /** How far above its page a reference climbs, and the names it then goes down. */
  datatype Climb = Climb(ups: nat, down: seq<string>)

  function ClimbOf(so: Climb, segs: seq<string>): Climb
    decreases |segs|
  {
    if segs == [] then so
    else
      ClimbOf(
        if segs[0] == "." then so
        else if segs[0] != ".." then so.(down := so.down + [segs[0]])
        else if so.down == [] then so.(ups := so.ups + 1)
        else so.(down := Front(so.down, 1)),
        segs[1..])
  }

  lemma {:induction false} WalkIsClimb(base: seq<string>, so: Climb, segs: seq<string>)
    ensures var c := ClimbOf(so, segs);
            Walk(Front(base, so.ups) + so.down, segs) == Front(base, c.ups) + c.down
    decreases |segs|
  {
    if segs != [] {
      var stack := Front(base, so.ups) + so.down;
      if segs[0] == "." {
        WalkIsClimb(base, so, segs[1..]);
      } else if segs[0] != ".." {
        assert stack + [segs[0]] == Front(base, so.ups) + (so.down + [segs[0]]);
        WalkIsClimb(base, so.(down := so.down + [segs[0]]), segs[1..]);
      } else if so.down == [] {
        assert stack == Front(base, so.ups);
        assert Front(stack, 1) == Front(base, so.ups + 1) + [];
        WalkIsClimb(base, so.(ups := so.ups + 1), segs[1..]);
      } else {
        assert Front(stack, 1) == Front(base, so.ups) + Front(so.down, 1);
        WalkIsClimb(base, so.(down := Front(so.down, 1)), segs[1..]);
      }
    }
  }

  lemma {:induction false} ResolveIsClimb(page: string, ref: string)
    requires IsPagePath(page) && Free(ref, {'?', '#'}) && !IsAbsolute(ref)
    ensures var c := ClimbOf(Climb(0, []), Split(ref));
            var reached := Front(Names(page), c.ups) + NonEmpty(c.down);
            ResolveURLPath(page, ref) == Print(reached) && AreNames(reached)
  {
    ResolveRelative(page, ref);
    NamesOfWalk(Names(page), Split(ref));
  }

  lemma NamesOfWalk(base: seq<string>, segs: seq<string>)
    requires AreNames(base)
    ensures var c := ClimbOf(Climb(0, []), segs);
            NonEmpty(Walk(base, segs)) == Front(base, c.ups) + NonEmpty(c.down)
  {
    var c := ClimbOf(Climb(0, []), segs);
    WalkIsClimb(base, Climb(0, []), segs);
    assert Front(base, 0) + [] == base;
    NonEmptyConcat(Front(base, c.ups), c.down);
    assert AreNames(Front(base, c.ups));
    NonEmptyOfNames(Front(base, c.ups));
  }

  /** The same relative reference means the same page on two pages exactly when it climbs to the same folder from both. */
  lemma {:induction false} SameReferenceTwoPages(a: string, b: string, ref: string)
    requires IsPagePath(a) && IsPagePath(b) && Free(ref, {'?', '#'}) && !IsAbsolute(ref)
    ensures var ups := ClimbOf(Climb(0, []), Split(ref)).ups;
            ResolveURLPath(a, ref) == ResolveURLPath(b, ref) <==> Front(Names(a), ups) == Front(Names(b), ups)
  {
    var c := ClimbOf(Climb(0, []), Split(ref));
    ResolveIsClimb(a, ref);
    ResolveIsClimb(b, ref);
    var folderA, folderB := Front(Names(a), c.ups), Front(Names(b), c.ups);
    if ResolveURLPath(a, ref) == ResolveURLPath(b, ref) {
      PrintInjective(folderA + NonEmpty(c.down), folderB + NonEmpty(c.down));
      SameTail(folderA, folderB, NonEmpty(c.down));
    }
  }

  lemma SameTail(a: seq<string>, b: seq<string>, tail: seq<string>)
    requires a + tail == b + tail
    ensures a == b
  {
    assert |a| == |b|;
    assert (a + tail)[..|a|] == a && (b + tail)[..|b|] == b;
  }

  /** Where the current page is after the rules, as rewriteLinkDestination sees it. */
  function MovedPage(currentPath: string, rules: seq<RewriteRule>): string {
    match ApplyRewriteRules(Normalize(currentPath), rules)
    case Some(next) => next
    case None => currentPath
  }

  /** The rules give the link's target a new path. */
  predicate TargetMoves(currentPath: string, baseDest: string, rules: seq<RewriteRule>) {
    var resolved := ResolveURLPath(currentPath, baseDest);
    ApplyRewriteRules(resolved, rules).Some? && Moved(resolved, rules) != resolved
  }

  lemma {:induction false} MovedPageIsPagePath(currentPath: string, rules: seq<RewriteRule>)
    requires RulesMovePages(rules) && IsPagePath(currentPath)
    ensures IsPagePath(MovedPage(currentPath, rules))
  {
    FreeIsUncut(currentPath);
    PrintIsPagePath(Names(currentPath));
    MovedIsPagePath(Normalize(currentPath), rules);
  }

  lemma ResolveAbsolute(current: string, path: string)
    requires IsPagePath(path) && IsAbsolute(path) && !StartsDouble(path)
    ensures ResolveURLPath(current, path) == Print(Names(path))
  {
    var q := path[1..];
    assert path == "/" + q;
    ResolveUnfoldsAbsolute(current, path);
    RemovedDotsIsPagePath(path);
    NamesOfSlash(q);
    NoDotsInSegments(q);
    WalkNamesAndGaps([], Split(q));
    assert [] + Split(q) == Split(q);
  }

  lemma NoDotsInSegments(s: string)
    requires AreNames(Names(s))
    ensures "." !in Split(s) && ".." !in Split(s)
  {
    assert forall seg :: seg in Split(s) && seg != "" ==> seg in Names(s) && IsName(seg);
  }

  /** Walking a list without dots only appends to the stack. */
  lemma {:induction false} WalkNamesAndGaps(stack: seq<string>, segs: seq<string>)
    requires "." !in segs && ".." !in segs
    ensures Walk(stack, segs) == stack + segs
    decreases |segs|
  {
    if segs != [] {
      WalkNamesAndGaps(stack + [segs[0]], segs[1..]);
      assert stack + [segs[0]] + segs[1..] == stack + segs;
    }
  }

  /**
   Main result for the rules applied in place: a page link keeps its meaning, read from wherever the page is afterwards,
   exactly when it is rooted, or its target moves, or it climbs to the same folder from the old and the
   new place of its page. The last holds in particular when the page itself does not move.
   */
  lemma {:induction false} RulesKeepMeaning(currentPath: string, destination: string, rules: seq<RewriteRule>)
    requires RulesMovePages(rules) && IsPagePath(currentPath)
    requires forall r :: r in rules ==> !StartsDouble(r.newPath) && IsAbsolute(r.newPath)
    requires IsPageLink(SplitLinkDestination(destination).0)
    requires ResolveURLPath(currentPath, SplitLinkDestination(destination).0) != ""
    ensures
      var (baseDest, suffix) := SplitLinkDestination(destination);
      var r := RewriteLinkDestination(currentPath, destination, rules);
      var page := MovedPage(currentPath, rules);
      var meant := Meant(currentPath, baseDest, rules);
      var ups := ClimbOf(Climb(0, []), Split(baseDest)).ups;
      && SplitLinkDestination(r.destination).1 == suffix
      && (r.warned <==> !IsAbsolute(baseDest) && TargetMoves(currentPath, baseDest, rules) && meant == Print(Names(page)))
      && (r.changed <==> TargetMoves(currentPath, baseDest, rules) && !r.warned) && (!r.changed ==> r.destination == destination)
      && (!r.warned ==>
            (ResolveURLPath(page, SplitLinkDestination(r.destination).0) == meant <==>
             || IsRooted(baseDest)
             || TargetMoves(currentPath, baseDest, rules)
             || Front(Names(currentPath), ups) == Front(Names(page), ups)))
  {
    var (baseDest, suffix) := SplitLinkDestination(destination);
    var resolved := ResolveURLPath(currentPath, baseDest);
    var page := MovedPage(currentPath, rules);
    ResolvedIsPagePath(currentPath, baseDest);
    MovedIsPagePath(resolved, rules);
    MovedPageIsPagePath(currentPath, rules);
    if TargetMoves(currentPath, baseDest, rules) {
      var target := Moved(resolved, rules);
      if IsAbsolute(baseDest) {
        MovedIsAbsolute(resolved, rules);
        ResolveAbsolute(page, target);
        SplitAtSuffix(target, suffix);
      } else {
        RelativeRewrite(page, target);
        if RelativePath(page, target) != "" {
          SplitAtSuffix(RelativePath(page, target), suffix);
        }
      }
    } else {
      UntouchedLink(currentPath, page, baseDest);
    }
  }

  lemma {:induction false} MovedIsAbsolute(path: string, rules: seq<RewriteRule>)
    requires forall r :: r in rules ==> !StartsDouble(r.newPath) && IsAbsolute(r.newPath) && Names(r.newPath) != []
    requires ApplyRewriteRules(path, rules).Some?
    ensures IsAbsolute(Moved(path, rules)) && !StartsDouble(Moved(path, rules))
  {
    var r := rules[0];
    assert !StartsDouble(r.newPath) && IsAbsolute(r.newPath) && Names(r.newPath) != [];
    if path != r.oldPath && !HasPrefix(path, r.oldPath + "/") {
      MovedIsAbsolute(path, rules[1..]);
    } else {
      assert Names("/") == [] by { NamesOfSlash(""); }
      assert r.newPath != "/";
      assert r.newPath[..2] == [r.newPath[0], r.newPath[1]];
    }
  }

  lemma {:induction false} UntouchedLink(currentPath: string, page: string, baseDest: string)
    requires IsPagePath(currentPath) && IsPagePath(page) && Free(baseDest, {'?', '#'})
    ensures var ups := ClimbOf(Climb(0, []), Split(baseDest)).ups;
            ResolveURLPath(page, baseDest) == ResolveURLPath(currentPath, baseDest) <==>
            IsRooted(baseDest) || Front(Names(currentPath), ups) == Front(Names(page), ups)
  {
    if IsRooted(baseDest) {
      RootedIgnoresPage(currentPath, page, baseDest);
    } else if baseDest == "//" {
      EmptyAuthorityIsSelf(currentPath);
      EmptyAuthorityIsSelf(page);
      if Print(Names(currentPath)) == Print(Names(page)) {
        PrintInjective(Names(currentPath), Names(page));
      }
    } else {
      SameReferenceTwoPages(currentPath, page, baseDest);
    }
  }

  lemma {:induction false} EmptyAuthorityIsSelf(page: string)
    requires IsPagePath(page)
    ensures ResolveURLPath(page, "//") == Print(Names(page))
    ensures Front(Names(page), ClimbOf(Climb(0, []), Split("//")).ups) == Names(page)
  {
    EmptyAuthority(page, "//");
    EmptyReferenceIsSelf(page);
    SlashesAreGaps("//");
    GapsDoNotClimb(Climb(0, []), Split("//"));
  }

  lemma EmptyAuthority(page: string, ref: string)
    requires ref == "//"
    ensures ResolveURLPath(page, ref) == ResolveURLPath(page, "")
  {
    assert Free(ref, {'?', '#'});
    FreeIsUncut(ref);
    assert HasAuthority(ref) && ref[2..] == "";
    FreeIsUncut("");
  }

  lemma {:induction false} EmptyReferenceIsSelf(page: string)
    requires IsPagePath(page)
    ensures ResolveURLPath(page, "") == Print(Names(page))
  {
    var base := Names(page);
    ResolveRelative(page, "");
    WalkConcat([], base, [""]);
    WalkNames([], base);
    assert [] + base == base;
    assert Walk(base, [""]) == base + [""];
    NonEmptyConcat(base, [""]);
    NonEmptyOfNames(base);
    assert base + [] == base;
  }

  lemma {:induction false} SlashesAreGaps(s: string)
    requires forall i :: 0 <= i < |s| ==> s[i] == '/'
    ensures forall i :: 0 <= i < |Split(s)| ==> Split(s)[i] == ""
  {
    if s != "" {
      SlashesAreGaps(s[1..]);
    }
  }

  lemma {:induction false} GapsDoNotClimb(so: Climb, segs: seq<string>)
    requires forall i :: 0 <= i < |segs| ==> segs[i] == ""
    ensures ClimbOf(so, segs).ups == so.ups
    decreases |segs|
  {
    if segs != [] {
      GapsDoNotClimb(so.(down := so.down + [segs[0]]), segs[1..]);
    }
  }

  /**
   The failing family is real: a page /a/b moved to /c/b keeps its link "../n" to an unmoved sister page unchanged,
   so the link silently changes from /a/n to /c/n.
   */
  lemma {:induction false} MovedPageCanLoseItsSister(a: string, b: string, c: string, n: string)
    requires IsName(a) && IsName(b) && IsName(c) && IsName(n) && a != c && b != n
    ensures var rules := [RewriteRule(Print([a, b]), Print([c, b]), "", "")];
            var link := Join(["..", n]);
            && RewriteLinkDestination(Print([a, b]), link, rules) == Rewritten(link, false, false)
            && Meant(Print([a, b]), link, rules) == Print([a, n])
            && MovedPage(Print([a, b]), rules) == Print([c, b])
            && ResolveURLPath(Print([c, b]), link) == Print([c, n]) != Print([a, n])
  {
    var before, after := Print([a, b]), Print([c, b]);
    var rules := [RewriteRule(before, after, "", "")];
    var link := Join(["..", n]);
    LinkToSister(a, b, n);
    LinkToSister(c, b, n);
    assert [a, n][0] != [c, n][0];
    PrintIsPagePath([a, n]);
    PrintIsPagePath([c, n]);
    SisterIsNotMoved(a, b, n, rules);
    ClimbingLinkIsPageLink(n);
    PrintIsPagePath([a, b]);
    assert link + "" == link;
  }

  lemma {:induction false} LinkToSister(a: string, b: string, n: string)
    requires IsName(a) && IsName(b) && IsName(n)
    ensures ResolveURLPath(Print([a, b]), Join(["..", n])) == Print([a, n])
  {
    PrintIsPagePath([a, b]);
    assert Ups(1) + [n] == ["..", n];
    ResolveUpsThenNames(Print([a, b]), 1, [n]);
    assert Front([a, b], 1) + [n] == [a, n];
  }

  lemma PrefixMeansNamesPrefix(path: string, folder: string)
    ensures HasPrefix(path, folder + "/") ==>
              |Names(folder)| <= |Names(path)| && Names(path)[..|Names(folder)|] == Names(folder)
  {
    if HasPrefix(path, folder + "/") {
      var rest := path[|folder| + 1..];
      assert path == folder + "/" + rest;
      NamesConcat(folder, rest);
    }
  }

  lemma SisterIsNotMoved(a: string, b: string, n: string, rules: seq<RewriteRule>)
    requires IsName(a) && IsName(b) && IsName(n) && b != n
    requires |rules| == 1 && rules[0].oldPath == Print([a, b])
    ensures ApplyRewriteRules(Print([a, n]), rules) == None
  {
    var before, sister := Print([a, b]), Print([a, n]);
    PrintIsPagePath([a, b]);
    PrintIsPagePath([a, n]);
    assert [a, b][1] != [a, n][1];
    PrefixMeansNamesPrefix(sister, before);
    assert [a, n][..2] == [a, n];
    assert rules[1..] == [];
  }

  lemma {:induction false} ClimbingLinkIsPageLink(n: string)
    requires IsName(n)
    ensures var link := Join(["..", n]); SplitLinkDestination(link) == (link, "") && IsPageLink(link) && !IsAbsolute(link)
  {
    var link := Join(["..", n]);
    RelativeIsASegmentList(["..", n]);
    SplitAtSuffix(link, "");
    assert link + "" == link;
    assert ["..", n][1..] == [n] && Join([n]) == n;
    assert link == ".." + "/" + n;
    StartsWithDotIsPageLink(link);
  }

  lemma StartsWithDotIsPageLink(link: string)
    requires |link| > 1 && link[0] == '.' && link[1] == '.'
    ensures IsPageLink(link)
  {
    StartsWithDotIsNotExternal(link);
    StartsWithDotIsNoAsset(link);
  }

  lemma StartsWithDotIsNoAsset(link: string)
    requires link != "" && link[0] == '.'
    ensures !IsAssetLinkDestination(link)
  {
    var t := TrimSpace(link);
    assert TrimLeftSpace(link) == link;
    TrimRightIsPrefix(link);
    assert t != "" ==> t[0] == '.';
    assert TrimPrefix(t, "<") == t;
    DotIsNoAsset(TrimSuffix(t, ">"));
  }

  lemma DotIsNoAsset(dest: string)
    requires dest != "" ==> dest[0] == '.'
    ensures !InAssetFolder(dest)
  {
    assert |dest| >= 8 ==> dest[..8][0] == '.';
    assert |dest| >= 7 ==> dest[..7][0] == '.';
  }

  lemma StartsWithDotIsNotExternal(link: string)
    requires link != "" && link[0] == '.'
    ensures !IsExternalLinkDestination(link)
  {
    var lower := ToLower(link);
    assert lower[0] == '.';
    forall p: string | p != "" && p[0] != '.'
      ensures !HasPrefix(lower, p)
    {
      assert |p| <= |lower| ==> lower[..|p|][0] == '.';
    }
  }
}
