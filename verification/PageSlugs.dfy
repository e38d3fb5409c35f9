/**
 The names pages may have (backend/internal/core/tree/slug_service.go), and what they are good for: a rewritten link is a
 page link again, so the two passes over a moved page (backend/internal/wiki/pages/refactor.go) do not disturb each other.
 */
module PageSlugs {
  import opened Wrappers
  import opened Text
  import opened WikiPath
  import opened LinkRewrite

  const RESERVED_SLUGS := {"e", "edit", "api", "assets", "branding", "index", "users", "user", "login", "history", "settings"}

  predicate IsAlphanumeric(c: char) {
    'a' <= c <= 'z' || 'A' <= c <= 'Z' || '0' <= c <= '9'
  }

  /** SlugService.IsValidSlug: alphanumeric runs joined by single hyphens, none of the reserved words in any case. */
  predicate IsValidSlug(slug: string) {
    && slug != ""
    && ToLower(slug) !in RESERVED_SLUGS
    && (forall c :: c in slug ==> IsAlphanumeric(c) || c == '-')
    && slug[0] != '-' && slug[|slug| - 1] != '-'
    && forall i :: 0 < i < |slug| ==> slug[i - 1] != '-' || slug[i] != '-'
  }

  predicate AreSlugs(names: seq<string>) {
    forall i :: 0 <= i < |names| ==> IsValidSlug(names[i])
  }

  lemma SlugIsName(slug: string)
    requires IsValidSlug(slug)
    ensures IsName(slug) && slug != "assets" && forall c :: c in slug ==> IsPathChar(c) && c != '/'
  {
    assert ToLower("assets") == "assets";
    assert '.' in "." && '.' in "..";
  }

  // ----- Text that reads as a page link -----

  /** What paths of slugs and climbs are made of: nothing that could make a wrapped, an external or an empty link. */
  predicate IsPathChar(c: char) {
    IsAlphanumeric(c) || c in {'-', '.', '/'}
  }

  predicate IsPlain(s: string) {
    s != "" && forall i :: 0 <= i < |s| ==> IsPathChar(s[i])
  }

  lemma PlainIsPageLink(s: string)
    requires IsPlain(s) && !InAssetFolder(s)
    ensures IsPageLink(s)
  {
    assert TrimSpace(s) == s;
    assert TrimPrefix(s, "<") == s && TrimSuffix(s, ">") == s;
    PlainIsNotExternal(s);
  }

  lemma PlainIsNotExternal(s: string)
    requires IsPlain(s)
    ensures !IsExternalLinkDestination(s)
  {
    var lower := ToLower(s);
    assert forall i :: 0 <= i < |s| ==> lower[i] != ':' && lower[i] != '#';
    NoPrefixWith(lower, "http://", 4);
    NoPrefixWith(lower, "https://", 5);
    NoPrefixWith(lower, "mailto:", 6);
    NoPrefixWith(lower, "#", 0);
  }

  lemma NoPrefixWith(s: string, p: string, i: nat)
    requires i < |p| && (i < |s| ==> s[i] != p[i])
    ensures !HasPrefix(s, p)
  {
    assert |p| <= |s| ==> s[..|p|][i] == s[i];
  }

  lemma {:induction false} JoinIsPlain(segs: seq<string>)
    requires segs != [] && forall i :: 0 <= i < |segs| ==> segs[i] == ".." || IsValidSlug(segs[i])
    ensures IsPlain(Join(segs))
  {
    if segs[0] != ".." {
      SlugIsName(segs[0]);
    }
    assert forall i :: 0 <= i < |segs[0]| ==> segs[0][i] in segs[0];
    if |segs| > 1 {
      JoinIsPlain(segs[1..]);
      PlainTogether(segs[0], Join(segs[1..]));
    }
  }

  lemma PlainTogether(a: string, b: string)
    requires IsPlain(a) && IsPlain(b)
    ensures IsPlain(a + "/" + b)
  {
    assert a + "/" + b == a + ['/'] + b;
  }

  /** A path starts with "name/" only if its first segment is that name. */
  lemma {:induction false} FirstSegment(segs: seq<string>, name: string)
    requires segs != [] && '/' !in segs[0] && '/' !in name
    ensures HasPrefix(Join(segs), name + "/") ==> segs[0] == name
  {
    var s := Join(segs);
    var first := segs[0];
    assert forall i :: 0 <= i < |first| ==> s[i] == first[i] && first[i] in first;
    assert |segs| >= 2 ==> s[|first|] == '/';
    if HasPrefix(s, name + "/") {
      assert forall i :: 0 <= i < |name| ==> s[i] == (name + "/")[i] == name[i] && name[i] in name;
      assert s[|name|] == (name + "/")[|name|] == '/';
      assert |first| == |name|;
      assert first == s[..|first|] == name;
    }
  }

  /** The segments of a relative link: climbs, then slugs. */
  lemma {:induction false} SegmentsArePageLink(segs: seq<string>)
    requires segs != [] && forall i :: 0 <= i < |segs| ==> segs[i] == ".." || IsValidSlug(segs[i])
    ensures IsPageLink(Join(segs)) && !IsAbsolute(Join(segs))
  {
    JoinIsPlain(segs);
    if segs[0] != ".." {
      SlugIsName(segs[0]);
    }
    assert '/' !in segs[0];
    FirstSegment(segs, "assets");
    assert "assets" + "/" == "assets/";
    assert segs[0][0] in segs[0] && Join(segs)[0] == segs[0][0];
    NoPrefixWith(Join(segs), "/assets/", 0);
    PlainIsPageLink(Join(segs));
  }

  lemma RelativeSegmentsAre(base: seq<string>, goal: seq<string>)
    requires AreSlugs(goal)
    ensures forall i :: 0 <= i < |RelativeSegments(base, goal)| ==>
              RelativeSegments(base, goal)[i] == ".." || IsValidSlug(RelativeSegments(base, goal)[i])
  {
  }

  lemma {:induction false} RelativePathIsPageLink(current: string, target: string)
    requires IsPagePath(current) && IsPagePath(target) && AreSlugs(Names(target)) && RelativePath(current, target) != ""
    ensures IsPageLink(RelativePath(current, target)) && !IsAbsolute(RelativePath(current, target))
  {
    FreeIsUncut(current);
    FreeIsUncut(target);
    RelativeSegmentsAre(Names(current), Names(target));
    SegmentsArePageLink(RelativeSegments(Names(current), Names(target)));
  }

  // ----- Rooted paths -----

  lemma {:induction false} CharIsInSegment(s: string, i: nat) returns (k: nat)
    requires i < |s| && s[i] != '/'
    ensures k < |Split(s)| && s[i] in Split(s)[k]
  {
    if i == 0 {
      k := 0;
    } else {
      k := CharIsInSegment(s[1..], i - 1);
      k := if s[0] == '/' then k + 1 else k;
    }
  }

  lemma {:induction false} PathIsPlain(path: string)
    requires path != "" && AreSlugs(Names(path))
    ensures IsPlain(path)
  {
    forall i | 0 <= i < |path|
      ensures IsPathChar(path[i])
    {
      if path[i] != '/' {
        var k := CharIsInSegment(path, i);
        var seg := Split(path)[k];
        assert seg in Names(path);
        SlugIsName(seg);
      }
    }
  }

  lemma {:induction false} RootedPathIsPageLink(path: string)
    requires IsAbsolute(path) && AreSlugs(Names(path))
    ensures IsPageLink(path)
  {
    PathIsPlain(path);
    NoPrefixWith(path, "assets/", 0);
    if HasPrefix(path, "/assets/") {
      var rest := path[8..];
      assert path == "/assets" + "/" + rest;
      NamesConcat("/assets", rest);
      NamesOfAssets();
      SlugIsName(Names(path)[0]);
    }
    PlainIsPageLink(path);
  }

  lemma NamesOfAssets()
    ensures Names("/assets") == ["assets"]
  {
    assert "/" + "assets" == "/assets";
    NamesOfSlash("assets");
    SplitWhole("assets");
    assert NonEmpty(["assets"]) == ["assets"] + NonEmpty([]);
  }

  // ----- The rewriters write page links -----

  /** In place: a changed link to a page with valid slugs, rooted or relative, is a page link again. */
  lemma {:induction false} RewrittenIsPageLink(currentPath: string, destination: string, rules: seq<RewriteRule>)
    requires RulesMovePages(rules) && IsPagePath(currentPath) && forall r :: r in rules ==> IsAbsolute(r.newPath)
    requires AreSlugs(Names(Moved(ResolveURLPath(currentPath, SplitLinkDestination(destination).0), rules)))
    ensures var r := RewriteLinkDestination(currentPath, destination, rules);
            r.changed ==> IsPageLink(SplitLinkDestination(r.destination).0)
  {
    hide IsPageLink, IsValidSlug, ResolveURLPath, Names;
    var (baseDest, suffix) := SplitLinkDestination(destination);
    var resolved := ResolveURLPath(currentPath, baseDest);
    if RewriteLinkDestination(currentPath, destination, rules).changed {
      var target := Moved(resolved, rules);
      ResolvedIsPagePath(currentPath, baseDest);
      MovedIsPagePath(resolved, rules);
      if IsAbsolute(baseDest) {
        MovedIsRooted(resolved, rules);
        RootedPathIsPageLink(target);
        SplitAtSuffix(target, suffix);
      } else {
        var page := MovedPage(currentPath, rules);
        MovedPageIsPagePath(currentPath, rules);
        RelativePathIsPageLink(page, target);
        RelativeRewrite(page, target);
        SplitAtSuffix(RelativePath(page, target), suffix);
      }
    }
  }

  lemma {:induction false} MovedIsRooted(path: string, rules: seq<RewriteRule>)
    requires forall r :: r in rules ==> IsAbsolute(r.newPath)
    requires ApplyRewriteRules(path, rules).Some?
    ensures IsAbsolute(Moved(path, rules))
  {
    assert rules[0] in rules;
    if path != rules[0].oldPath && !HasPrefix(path, rules[0].oldPath + "/") {
      MovedIsRooted(path, rules[1..]);
    }
  }

  /** On a moved page: the same for its relative links. */
  lemma {:induction false} PathChangeIsPageLink(oldCurrent: string, newCurrent: string, destination: string, rules: seq<RewriteRule>)
    requires RulesMovePages(rules) && IsPagePath(newCurrent)
    requires AreSlugs(Names(Moved(ResolveURLPath(oldCurrent, SplitLinkDestination(destination).0), rules)))
    ensures var r := RewriteRelativeLinkForPathChange(oldCurrent, newCurrent, destination, rules);
            var link := SplitLinkDestination(r.destination).0;
            r.changed ==> IsPageLink(link) && !IsAbsolute(link)
  {
    hide IsPageLink, IsValidSlug, ResolveURLPath, Names;
    var (baseDest, suffix) := SplitLinkDestination(destination);
    var resolved := ResolveURLPath(oldCurrent, baseDest);
    if RewriteRelativeLinkForPathChange(oldCurrent, newCurrent, destination, rules).changed {
      var target := Moved(resolved, rules);
      ResolvedIsPagePath(oldCurrent, baseDest);
      MovedIsPagePath(resolved, rules);
      RelativePathIsPageLink(newCurrent, target);
      RelativeRewrite(newCurrent, target);
      SplitAtSuffix(RelativePath(newCurrent, target), suffix);
    }
  }

  // ----- The two passes over the pages of a moved subtree -----

  predicate Below(names: seq<string>, top: seq<string>) {
    |top| <= |names| && names[..|top|] == top
  }

  /** A subtree moved to a place that is neither inside nor around it. */
  predicate IsMove(olds: seq<string>, news: seq<string>) {
    AreNames(olds) && AreNames(news) && olds != [] && news != [] && !Below(news, olds) && !Below(olds, news)
  }

  function MoveRule(olds: seq<string>, news: seq<string>): seq<RewriteRule> {
    [RewriteRule(Print(olds), Print(news), "", "")]
  }

  /**
   One link through rewritePathChangedSubtree: relative links first, then the rules read from the new place; the second
   pass is left out when the text is found not to mention the old path.
   */
  function TwoPasses(oldPage: string, newPage: string, destination: string, rules: seq<RewriteRule>, mentioned: bool): string {
    var first := RewriteRelativeLinkForPathChange(oldPage, newPage, destination, rules).destination;
    if mentioned then RewriteLinkDestination(newPage, first, rules).destination else first
  }

  lemma {:induction false} JoinConcat(a: seq<string>, b: seq<string>)
    requires a != [] && b != []
    ensures Join(a + b) == Join(a) + "/" + Join(b)
  {
    assert (a + b)[1..] == a[1..] + b;
    if |a| > 1 {
      JoinConcat(a[1..], b);
      assert a[0] + "/" + (Join(a[1..]) + "/" + Join(b)) == a[0] + "/" + Join(a[1..]) + "/" + Join(b);
    } else {
      assert a[1..] + b == b;
    }
  }

  lemma PrintConcat(a: seq<string>, b: seq<string>)
    requires a != [] && b != []
    ensures Print(a + b) == Print(a) + "/" + Join(b)
  {
    JoinConcat(a, b);
    assert "/" + (Join(a) + "/" + Join(b)) == "/" + Join(a) + "/" + Join(b);
  }

  lemma RuleBelow(oldPath: string, newPath: string, tail: string)
    ensures ApplyRewriteRules(oldPath + "/" + tail, [RewriteRule(oldPath, newPath, "", "")]) == Some(newPath + "/" + tail)
  {
    var path := oldPath + "/" + tail;
    assert path == (oldPath + "/") + tail;
    assert path[..|oldPath|] == oldPath && path[|oldPath|..] == "/" + tail;
    assert newPath + ("/" + tail) == newPath + "/" + tail;
  }

  lemma PathBelow(olds: seq<string>, rest: seq<string>, news: seq<string>)
    requires olds != [] && news != []
    ensures ApplyRewriteRules(Print(olds + rest), MoveRule(olds, news)) == Some(Print(news + rest))
  {
    hide Print;
    if rest == [] {
      assert olds + rest == olds && news + rest == news;
    } else {
      PrintConcat(olds, rest);
      PrintConcat(news, rest);
      RuleBelow(Print(olds), Print(news), Join(rest));
    }
  }

  lemma PathElsewhere(names: seq<string>, olds: seq<string>, news: seq<string>)
    requires AreNames(names) && AreNames(olds) && !Below(names, olds)
    ensures ApplyRewriteRules(Print(names), MoveRule(olds, news)) == None
  {
    var rules := MoveRule(olds, news);
    PrintIsPagePath(names);
    PrintIsPagePath(olds);
    PrefixMeansNamesPrefix(Print(names), Print(olds));
    assert names[..|names|] == names;
    assert rules[1..] == [];
  }

  /** Nothing is left below the old place once the rule has been carried out. */
  lemma MovedIsElsewhere(names: seq<string>, olds: seq<string>, news: seq<string>)
    requires AreNames(names) && IsMove(olds, news)
    ensures var moved := Names(Moved(Print(names), MoveRule(olds, news)));
            && AreNames(moved) && !Below(moved, olds) && Moved(Print(names), MoveRule(olds, news)) == Print(moved)
            && (Below(names, olds) <==> ApplyRewriteRules(Print(names), MoveRule(olds, news)).Some?)
            && (Below(names, olds) <==> moved != names)
  {
    if Below(names, olds) {
      var rest := names[|olds|..];
      assert names == olds + rest;
      PathBelow(olds, rest, news);
      assert forall seg :: seg in rest ==> seg in names;
      PrintIsPagePath(news + rest);
      StaysElsewhere(olds, news, rest);
    } else {
      PathElsewhere(names, olds, news);
      PrintIsPagePath(names);
    }
  }

  lemma StaysElsewhere(olds: seq<string>, news: seq<string>, rest: seq<string>)
    requires !Below(news, olds) && !Below(olds, news)
    ensures !Below(news + rest, olds)
  {
    var all := news + rest;
    assert |olds| <= |news| ==> all[..|olds|] == news[..|olds|];
    assert |news| < |olds| <= |all| ==> all[..|olds|][..|news|] == news;
  }

  /**
   Main result for a moved subtree: after both passes, every page link of one of its pages, read from the page's new
   place, names what it named before, after the move. The second pass leaves what the first has made of a relative link
   alone; only a relative link to its own page is not corrected, with a warning. A rooted link goes wrong exactly when the
   second pass is left out although the link's target has moved.
   */
  lemma {:induction false} SubtreeLinkKeepsMeaning(olds: seq<string>, news: seq<string>, sub: seq<string>, destination: string, mentioned: bool)
    requires IsMove(olds, news) && AreNames(sub)
    requires IsPageLink(SplitLinkDestination(destination).0)
    requires ResolveURLPath(Print(olds + sub), SplitLinkDestination(destination).0) != ""
    ensures
      var rules := MoveRule(olds, news);
      var (oldPage, newPage) := (Print(olds + sub), Print(news + sub));
      var (baseDest, suffix) := SplitLinkDestination(destination);
      var first := RewriteRelativeLinkForPathChange(oldPage, newPage, destination, rules);
      var last := TwoPasses(oldPage, newPage, destination, rules, mentioned);
      var meant := Meant(oldPage, baseDest, rules);
      && SplitLinkDestination(last).1 == suffix
      && (!IsAbsolute(baseDest) ==>
            && (first.warned <==> meant == newPage)
            && (!first.warned ==> last == first.destination && ResolveURLPath(newPage, SplitLinkDestination(last).0) == meant))
      && (IsAbsolute(baseDest) ==>
            (ResolveURLPath(newPage, SplitLinkDestination(last).0) == meant <==>
             mentioned || baseDest == "//" || !TargetMoves(oldPage, baseDest, rules)))
  {
    hide RewriteRelativeLinkForPathChange, RewriteLinkDestination, IsPageLink;
    SubtreePages(olds, news, sub);
    if IsAbsolute(SplitLinkDestination(destination).0) {
      RootedLink(olds, news, sub, destination, mentioned);
    } else {
      RelativeLink(olds, news, sub, destination);
    }
  }

  lemma SubtreePages(olds: seq<string>, news: seq<string>, sub: seq<string>)
    requires IsMove(olds, news) && AreNames(sub)
    ensures AreNames(olds + sub) && AreNames(news + sub) && RulesMovePages(MoveRule(olds, news))
    ensures IsPagePath(Print(olds + sub)) && Names(Print(olds + sub)) == olds + sub
    ensures IsPagePath(Print(news + sub)) && Names(Print(news + sub)) == news + sub && Normalize(Print(news + sub)) == Print(news + sub)
    ensures Moved(Print(olds + sub), MoveRule(olds, news)) == Print(news + sub)
    ensures ApplyRewriteRules(Print(news + sub), MoveRule(olds, news)) == None
  {
    PrintIsPagePath(olds + sub);
    PrintIsPagePath(news + sub);
    PrintIsPagePath(news);
    PathBelow(olds, sub, news);
    StaysElsewhere(olds, news, sub);
    PathElsewhere(news + sub, olds, news);
  }

  lemma {:induction false} RelativeLink(olds: seq<string>, news: seq<string>, sub: seq<string>, destination: string)
    requires IsMove(olds, news) && AreNames(sub)
    requires IsPageLink(SplitLinkDestination(destination).0) && !IsAbsolute(SplitLinkDestination(destination).0)
    ensures
      var rules := MoveRule(olds, news);
      var (oldPage, newPage) := (Print(olds + sub), Print(news + sub));
      var (baseDest, suffix) := SplitLinkDestination(destination);
      var first := RewriteRelativeLinkForPathChange(oldPage, newPage, destination, rules);
      var meant := Meant(oldPage, baseDest, rules);
      && SplitLinkDestination(first.destination).1 == suffix
      && SplitLinkDestination(RewriteLinkDestination(newPage, first.destination, rules).destination).1 == suffix
      && (first.warned <==> meant == newPage)
      && (!first.warned ==>
            && RewriteLinkDestination(newPage, first.destination, rules).destination == first.destination
            && ResolveURLPath(newPage, SplitLinkDestination(first.destination).0) == meant)
  {
    var rules := MoveRule(olds, news);
    var (oldPage, newPage) := (Print(olds + sub), Print(news + sub));
    var baseDest := SplitLinkDestination(destination).0;
    SubtreePages(olds, news, sub);
    PathChangeKeepsMeaning(oldPage, newPage, destination, rules);
    ResolvedIsPagePath(oldPage, baseDest);
    RelativeNeverEmpty(oldPage, baseDest);
    MovedIsElsewhere(Names(ResolveURLPath(oldPage, baseDest)), olds, news);
    var meant := Meant(oldPage, baseDest, rules);
    PathElsewhere(Names(meant), olds, news);
    var first := RewriteRelativeLinkForPathChange(oldPage, newPage, destination, rules);
    if !first.warned {
      LeftAlone(newPage, first.destination, rules);
    }
    SuffixStays(newPage, first.destination, rules);
  }

  /** The rules never touch query and fragment. */
  lemma SuffixStays(page: string, destination: string, rules: seq<RewriteRule>)
    requires IsPagePath(page) && RulesMovePages(rules)
    ensures SplitLinkDestination(RewriteLinkDestination(page, destination, rules).destination).1 == SplitLinkDestination(destination).1
  {
    var (baseDest, suffix) := SplitLinkDestination(destination);
    if RewriteLinkDestination(page, destination, rules).changed {
      var resolved := ResolveURLPath(page, baseDest);
      var target := Moved(resolved, rules);
      ResolvedIsPagePath(page, baseDest);
      MovedIsPagePath(resolved, rules);
      MovedPageIsPagePath(page, rules);
      if IsAbsolute(baseDest) {
        SplitAtSuffix(target, suffix);
      } else {
        RelativeRewrite(MovedPage(page, rules), target);
        SplitAtSuffix(RelativePath(MovedPage(page, rules), target), suffix);
      }
    }
  }

  /** No rule for the page a link names: the link is left alone. */
  lemma LeftAlone(page: string, destination: string, rules: seq<RewriteRule>)
    requires ApplyRewriteRules(ResolveURLPath(page, SplitLinkDestination(destination).0), rules) == None
    ensures RewriteLinkDestination(page, destination, rules).destination == destination
  {
  }

  lemma PrintIsRooted(names: seq<string>)
    requires AreNames(names) && names != []
    ensures IsAbsolute(Print(names)) && !StartsDouble(Print(names))
  {
    assert IsName(names[0]);
    assert names[0][0] in names[0] && Print(names)[1] == names[0][0];
  }

  /** The page a rooted link names does not depend on the page it is on, unless it is the empty authority. */
  lemma {:induction false} RootedLink(olds: seq<string>, news: seq<string>, sub: seq<string>, destination: string, mentioned: bool)
    requires IsMove(olds, news) && AreNames(sub)
    requires IsPageLink(SplitLinkDestination(destination).0) && IsAbsolute(SplitLinkDestination(destination).0)
    requires ResolveURLPath(Print(olds + sub), SplitLinkDestination(destination).0) != ""
    ensures
      var rules := MoveRule(olds, news);
      var (oldPage, newPage) := (Print(olds + sub), Print(news + sub));
      var (baseDest, suffix) := SplitLinkDestination(destination);
      var last := TwoPasses(oldPage, newPage, destination, rules, mentioned);
      && SplitLinkDestination(last).1 == suffix
      && (ResolveURLPath(newPage, SplitLinkDestination(last).0) == Meant(oldPage, baseDest, rules) <==>
          mentioned || baseDest == "//" || !TargetMoves(oldPage, baseDest, rules))
  {
    var rules := MoveRule(olds, news);
    var (oldPage, newPage) := (Print(olds + sub), Print(news + sub));
    var baseDest := SplitLinkDestination(destination).0;
    SubtreePages(olds, news, sub);
    ResolvedIsPagePath(oldPage, baseDest);
    var names := Names(ResolveURLPath(oldPage, baseDest));
    MovedIsElsewhere(names, olds, news);
    assert RewriteRelativeLinkForPathChange(oldPage, newPage, destination, rules).destination == destination;
    if baseDest == "//" {
      EmptyAuthorityIsSelf(oldPage);
      EmptyAuthorityIsSelf(newPage);
      LeftAlone(newPage, destination, rules);
    } else {
      RootedIgnoresPage(oldPage, newPage, baseDest);
      PrintIsRooted(news);
      RulesKeepMeaning(newPage, destination, rules);
      if Names(Meant(oldPage, baseDest, rules)) != names {
        assert Meant(oldPage, baseDest, rules) != ResolveURLPath(oldPage, baseDest);
      }
    }
  }

  lemma PrintExtends(olds: seq<string>, rest: seq<string>)
    requires olds != []
    ensures HasPrefix(Print(olds + rest), Print(olds))
  {
    if rest != [] {
      PrintConcat(olds, rest);
    } else {
      assert olds + rest == olds;
    }
  }

  /** The second pass is never left out for a link written as the canonical path of its target: it contains the old path. */
  lemma CanonicalLinkMentionsOldPath(names: seq<string>, olds: seq<string>, news: seq<string>, page: string)
    requires AreNames(names) && names != [] && IsMove(olds, news)
    ensures TargetMoves(page, Print(names), MoveRule(olds, news)) ==> HasPrefix(Print(names), Print(olds))
  {
    hide Print, Names, ResolveURLPath, HasPrefix;
    PrintIsRooted(names);
    PrintIsPagePath(names);
    ResolveAbsolute(page, Print(names));
    MovedIsElsewhere(names, olds, news);
    if Below(names, olds) {
      PrintExtends(olds, names[|olds|..]);
      assert names == olds + names[|olds|..];
    }
  }

  /** "/a//b": the same page as "/a/b", written with a gap. */
  function GappedLink(a: string, b: string): string {
    Print([a]) + "/" + Print([b])
  }

  /**
   Another spelling does not save the link: "/a//b" names the page /a/b and is a page link, but does not mention that path.
   When nothing else in the text does, the second pass is left out, and the link keeps naming the old place.
   */
  lemma {:induction false} GappedLinkIsMissed(a: string, b: string, news: seq<string>, sub: seq<string>)
    requires IsValidSlug(a) && IsValidSlug(b) && IsMove([a, b], news) && AreNames(sub)
    ensures
      var rules := MoveRule([a, b], news);
      var (oldPage, newPage) := (Print([a, b] + sub), Print(news + sub));
      var link := GappedLink(a, b);
      && !HasSubstring(link, Print([a, b])) && SplitLinkDestination(link) == (link, "") && IsPageLink(link)
      && ResolveURLPath(newPage, TwoPasses(oldPage, newPage, link, rules, false)) == Print([a, b])
      && Meant(oldPage, link, rules) == Print(news) != Print([a, b])
  {
    hide ResolveURLPath, IsPageLink, HasSubstring, Names, Print, RewriteLinkDestination;
    var link := GappedLink(a, b);
    var rules := MoveRule([a, b], news);
    SlugIsName(a);
    SlugIsName(b);
    GappedNames(a, b);
    GapIsNoMention(a, b);
    RootedPathIsPageLink(link);
    SplitAtSuffix(link, "");
    assert link + "" == link;
    ResolveAbsolute(Print([a, b] + sub), link);
    ResolveAbsolute(Print(news + sub), link);
    MovedIsElsewhere([a, b], [a, b], news);
    PathBelow([a, b], [], news);
    assert [a, b] + [] == [a, b] && news + [] == news;
    PrintIsPagePath(news);
    PrintIsPagePath([a, b]);
  }

  lemma {:induction false} GappedNames(a: string, b: string)
    requires IsName(a) && IsName(b)
    ensures Names(GappedLink(a, b)) == [a, b] && IsPagePath(GappedLink(a, b)) && IsAbsolute(GappedLink(a, b)) && !StartsDouble(GappedLink(a, b))
  {
    assert GappedLink(a, b)[1] == a[0] && a[0] in a;
    PrintIsPagePath([a]);
    PrintIsPagePath([b]);
    NamesConcat(Print([a]), Print([b]));
    assert [a] + [b] == [a, b];
  }

  lemma PrefixChars(s: string, i: nat, p: string)
    requires i <= |s| && HasPrefix(s[i..], p)
    ensures i + |p| <= |s| && forall k :: 0 <= k < |p| ==> p[k] == s[i + k]
  {
    assert forall k :: 0 <= k < |p| ==> s[i..][..|p|][k] == s[i + k];
  }

  lemma GapIsNoMention(a: string, b: string)
    requires IsName(a) && IsName(b)
    ensures !HasSubstring(GappedLink(a, b), Print([a, b]))
  {
    var link, path := GappedLink(a, b), Print([a, b]);
    assert [a, b][1..] == [b];
    assert path == "/" + (a + "/" + b) && link == "/" + a + "/" + ("/" + b);
    assert a[0] in a && b[0] in b;
    assert link[1] == a[0] && link[|a| + 2] == '/' && path[|a| + 2] == b[0] && path[0] == '/';
    if HasSubstring(link, path) {
      var i := SubstringAt(link, path);
      PrefixChars(link, i, path);
    }
  }
}
