/**
 The pages of a moved subtree, from text to text: rewritePathChangedSubtree in backend/internal/wiki/pages/refactor.go with
 both of its passes, each scanning the text it is given.
 */
module SubtreeRescan {
  import opened Wrappers
  import opened Text
  import opened WikiPath
  import opened LinkRewrite
  import opened LinkSplice
  import opened PageSlugs
  import opened LinkRescan
  import opened OutsideLinks

  // ----- The second pass writes quiet destinations -----

  lemma {:induction false} InPlaceIsQuiet(currentPath: string, destination: string, rules: seq<RewriteRule>)
    requires RulesMovePages(rules) && IsPagePath(currentPath) && Quiet(destination)
    requires AreSlugs(Names(Moved(ResolveURLPath(currentPath, SplitLinkDestination(destination).0), rules)))
    ensures var r := RewriteLinkDestination(currentPath, destination, rules); r.changed ==> Quiet(r.destination)
  {
    hide IsPageLink, IsValidSlug, ResolveURLPath, Quiet, IsPlain, IsPagePath;
    var (baseDest, suffix) := SplitLinkDestination(destination);
    var resolved := ResolveURLPath(currentPath, baseDest);
    if RewriteLinkDestination(currentPath, destination, rules).changed {
      var target := Moved(resolved, rules);
      ResolvedIsPagePath(currentPath, baseDest);
      MovedIsPagePath(resolved, rules);
      if IsAbsolute(baseDest) {
        assert target != "";
        PathIsPlain(target);
        QuietTogether(baseDest, suffix, target);
      } else {
        var page := MovedPage(currentPath, rules);
        MovedPageIsPagePath(currentPath, rules);
        RelativeRewrite(page, target);
        RelativeIsPlain(page, target);
        QuietTogether(baseDest, suffix, RelativePath(page, target));
      }
    }
  }

  lemma RelativeIsPlain(page: string, target: string)
    requires IsPagePath(page) && IsPagePath(target) && AreSlugs(Names(target)) && RelativePath(page, target) != ""
    ensures IsPlain(RelativePath(page, target))
  {
    FreeIsUncut(page);
    FreeIsUncut(target);
    RelativeSegmentsAre(Names(page), Names(target));
    JoinIsPlain(RelativeSegments(Names(page), Names(target)));
  }

  /** The links that the second pass changes have quiet destinations and lead to pages with valid slugs. */
  predicate SlugTargetsInPlace(links: seq<Occurrence>, taken: seq<nat>, page: string, rules: seq<RewriteRule>)
    requires forall i :: 0 <= i < |taken| ==> taken[i] < |links|
  {
    forall i :: 0 <= i < |taken| ==>
      var d := links[taken[i]].rawDestination;
      RewriteLinkDestination(page, d, rules).changed ==>
        Quiet(d) && AreSlugs(Names(Moved(ResolveURLPath(page, SplitLinkDestination(d).0), rules)))
  }

  lemma InPlaceIsQuietChange(links: seq<Occurrence>, taken: seq<nat>, page: string, rules: seq<RewriteRule>)
    requires Increasing(taken, |links|) && SlugTargetsInPlace(links, taken, page, rules)
    requires RulesMovePages(rules) && IsPagePath(page)
    ensures QuietChanges(links, taken, InPlaceRewriter(page, rules))
  {
    hide Quiet, AreSlugs, RewriteLinkDestination, Moved, ResolveURLPath;
    forall i | 0 <= i < |taken| && RewriteLinkDestination(page, links[taken[i]].rawDestination, rules).changed
      ensures Quiet(RewriteLinkDestination(page, links[taken[i]].rawDestination, rules).destination)
    {
      InPlaceIsQuiet(page, links[taken[i]].rawDestination, rules);
    }
  }

  // ----- The two passes on a text -----

  /** A text and where its code is. */
  datatype Document = Document(text: string, code: seq<TextRange>)

  ghost function LinksOf(d: Document): seq<Occurrence> {
    LinksFrom(d.text, 0, d.code)
  }

  /** The document behind a pass: the matched links are rewritten, and the code is displaced with the text. */
  ghost function Passed(d: Document, taken: seq<nat>, rewrite: string -> Rewritten): Document
    requires Increasing(taken, |LinksOf(d)|)
  {
    var plan := Planned(LinksOf(d), taken, rewrite);
    Document(Spliced(d.text, plan), AllMovedRanges(d.code, plan))
  }

  /** The first pass, which would leave a page alone that stays where it is. */
  ghost function FirstPass(d: Document, taken: seq<nat>, olds: seq<string>, news: seq<string>, sub: seq<string>): Document
    requires Increasing(taken, |LinksOf(d)|)
  {
    var (oldPage, newPage, rules) := (Print(olds + sub), Print(news + sub), MoveRule(olds, news));
    Document(PathChangeText(d.text, LinksOf(d), taken, oldPage, newPage, rules),
             AllMovedRanges(d.code, Planned(LinksOf(d), taken, MovedPageRewriter(oldPage, newPage, rules))))
  }

  /** The two passes over one page: the second is left out when the text behind the first does not mention the old path. */
  ghost function BothPasses(d: Document, taken: seq<nat>, again: seq<nat>, olds: seq<string>, news: seq<string>, sub: seq<string>): Document
    requires Increasing(taken, |LinksOf(d)|)
    requires Increasing(again, |LinksOf(FirstPass(d, taken, olds, news, sub))|)
  {
    var first := FirstPass(d, taken, olds, news, sub);
    if HasSubstring(first.text, Print(olds)) then Passed(first, again, InPlaceRewriter(Print(news + sub), MoveRule(olds, news))) else first
  }

  /** The links that the passes match, in order; those that they change get quiet destinations. */
  ghost predicate ArePassed(d: Document, taken: seq<nat>, again: seq<nat>, olds: seq<string>, news: seq<string>, sub: seq<string>) {
    var (oldPage, newPage, rules) := (Print(olds + sub), Print(news + sub), MoveRule(olds, news));
    && Increasing(taken, |LinksOf(d)|) && SlugTargets(LinksOf(d), taken, oldPage, newPage, rules)
    && var first := LinksOf(FirstPass(d, taken, olds, news, sub));
       Increasing(again, |first|) && SlugTargetsInPlace(first, again, newPage, rules)
  }

  /** Behind a pass each link reads as it did, or, if it was matched, as what the rewriter made of it. */
  lemma {:induction false} PassedReads(d: Document, taken: seq<nat>, rewrite: string -> Rewritten)
    requires Increasing(taken, |LinksOf(d)|) && QuietChanges(LinksOf(d), taken, rewrite)
    requires forall dest :: !rewrite(dest).changed ==> rewrite(dest).destination == dest
    ensures var links, now := LinksOf(d), LinksOf(Passed(d, taken, rewrite));
            && |now| == |links|
            && forall j :: 0 <= j < |links| ==>
                 now[j].rawDestination == if j in taken then rewrite(links[j].rawDestination).destination else links[j].rawDestination
  {
    hide LinksFrom, Spliced, Planned, AllMovedRanges, QuietChanges;
    RewrittenDocumentRescans(d.text, d.code, taken, rewrite);
  }

  lemma FirstPassIsPassed(d: Document, taken: seq<nat>, olds: seq<string>, news: seq<string>, sub: seq<string>)
    requires IsMove(olds, news) && AreNames(sub) && Increasing(taken, |LinksOf(d)|)
    ensures FirstPass(d, taken, olds, news, sub) == Passed(d, taken, MovedPageRewriter(Print(olds + sub), Print(news + sub), MoveRule(olds, news)))
  {
    hide LinksFrom, Spliced, Planned, AllMovedRanges, Print, IsPagePath;
    SubtreePages(olds, news, sub);
    assert (olds + sub)[..|olds|] == olds && (news + sub)[..|news|] == news;
  }

  lemma UnchangedIsSame(oldPage: string, newPage: string, rules: seq<RewriteRule>)
    ensures forall d :: !MovedPageRewriter(oldPage, newPage, rules)(d).changed ==> MovedPageRewriter(oldPage, newPage, rules)(d).destination == d
    ensures forall d :: !InPlaceRewriter(newPage, rules)(d).changed ==> InPlaceRewriter(newPage, rules)(d).destination == d
  {
    hide ResolveURLPath;
  }

  // ----- What mentions the old path -----

  lemma {:induction false} SubstringFrom(s: string, i: nat, part: string)
    requires i <= |s| && HasPrefix(s[i..], part)
    ensures HasSubstring(s, part)
  {
    if i > 0 {
      assert s[1..][i - 1..] == s[i..];
      SubstringFrom(s[1..], i - 1, part);
    }
  }

  /** The text holds the destinations of its links. */
  lemma {:induction false} LinkIsMentioned(d: Document, j: nat, part: string)
    requires j < |LinksOf(d)| && HasPrefix(LinksOf(d)[j].rawDestination, part)
    ensures HasSubstring(d.text, part)
  {
    hide LinksFrom, Scanned, HasSubstring;
    var links := LinksOf(d);
    LinksAreScanned(d.text, d.code);
    ScannedEach(d.text, links, d.code, j);
    var o := links[j];
    assert d.text[o.start..][..o.end - o.start] == o.rawDestination;
    assert d.text[o.start..][..|part|] == o.rawDestination[..|part|];
    SubstringFrom(d.text, o.start, part);
  }

  /**
   Main result for a moved subtree, from text to text: scanned again behind both passes, a page has the links it had, and each
   page link that both have matched, read from the page's new place, names what it named before, after the move. Only a
   relative link to its own page is not corrected, with a warning, and a rooted link to a moved page goes wrong exactly when
   the text behind the first pass does not mention the old path, which it does if the link begins with that path.
   */
  lemma {:induction false} SubtreeDocumentKeepsMeaning(d: Document, taken: seq<nat>, again: seq<nat>, olds: seq<string>, news: seq<string>,
                                                       sub: seq<string>, j: nat)
    requires IsMove(olds, news) && AreNames(sub) && j < |LinksOf(d)|
    requires ArePassed(d, taken, again, olds, news, sub)
    ensures
      var (oldPage, newPage, rules) := (Print(olds + sub), Print(news + sub), MoveRule(olds, news));
      var now := LinksOf(BothPasses(d, taken, again, olds, news, sub));
      var destination := LinksOf(d)[j].rawDestination;
      var (baseDest, suffix) := SplitLinkDestination(destination);
      var meant := Meant(oldPage, baseDest, rules);
      var mentioned := HasSubstring(FirstPass(d, taken, olds, news, sub).text, Print(olds));
      && |now| == |LinksOf(d)|
      && (j !in taken && j !in again ==> now[j].rawDestination == destination)
      && (j in taken && j in again && IsPageLink(baseDest) && ResolveURLPath(oldPage, baseDest) != "" ==>
            && SplitLinkDestination(now[j].rawDestination).1 == suffix
            && (!IsAbsolute(baseDest) ==>
                  var warned := RewriteRelativeLinkForPathChange(oldPage, newPage, destination, rules).warned;
                  && (warned <==> meant == newPage)
                  && (!warned ==> ResolveURLPath(newPage, SplitLinkDestination(now[j].rawDestination).0) == meant))
            && (IsAbsolute(baseDest) ==>
                  (ResolveURLPath(newPage, SplitLinkDestination(now[j].rawDestination).0) == meant <==>
                   mentioned || baseDest == "//" || !TargetMoves(oldPage, baseDest, rules)))
            && (HasPrefix(baseDest, Print(olds)) ==> mentioned))
  {
    hide LinksFrom, Spliced, Planned, AllMovedRanges, IsPageLink, ResolveURLPath, Meant, TargetMoves, HasSubstring, Passed, LinksOf;
    hide SlugTargets, SlugTargetsInPlace, QuietChanges, RewriteRelativeLinkForPathChange, RewriteLinkDestination, Print, RulesMovePages, IsPagePath;
    var (oldPage, newPage, rules) := (Print(olds + sub), Print(news + sub), MoveRule(olds, news));
    var destination := LinksOf(d)[j].rawDestination;
    var first := FirstPass(d, taken, olds, news, sub);
    PassesRead(d, taken, again, olds, news, sub);
    var baseDest := SplitLinkDestination(destination).0;
    if j in taken && j in again && IsPageLink(baseDest) && ResolveURLPath(oldPage, baseDest) != "" {
      SubtreeLinkKeepsMeaning(olds, news, sub, destination, HasSubstring(first.text, Print(olds)));
      if HasPrefix(baseDest, Print(olds)) {
        RootedIsLeft(olds, oldPage, newPage, destination, rules);
        LinkIsMentioned(first, j, Print(olds));
      }
    }
  }

  /** A link that begins with the old path is rooted, and the first pass leaves it alone. */
  lemma RootedIsLeft(olds: seq<string>, oldPage: string, newPage: string, destination: string, rules: seq<RewriteRule>)
    requires AreNames(olds) && olds != [] && HasPrefix(SplitLinkDestination(destination).0, Print(olds))
    ensures HasPrefix(destination, Print(olds))
    ensures RewriteRelativeLinkForPathChange(oldPage, newPage, destination, rules).destination == destination
  {
    hide ResolveURLPath;
    PrintIsRooted(olds);
    var base := SplitLinkDestination(destination).0;
    assert base == destination[..|base|];
    assert destination[..|Print(olds)|] == base[..|Print(olds)|];
    assert base[0] == base[..|Print(olds)|][0];
  }

  /** Each link through both passes. */
  lemma {:induction false} PassesRead(d: Document, taken: seq<nat>, again: seq<nat>, olds: seq<string>, news: seq<string>, sub: seq<string>)
    requires IsMove(olds, news) && AreNames(sub)
    requires ArePassed(d, taken, again, olds, news, sub)
    ensures var (oldPage, newPage, rules) := (Print(olds + sub), Print(news + sub), MoveRule(olds, news));
            var first := FirstPass(d, taken, olds, news, sub);
            var (links, middle, now) := (LinksOf(d), LinksOf(first), LinksOf(BothPasses(d, taken, again, olds, news, sub)));
            var mentioned := HasSubstring(first.text, Print(olds));
            && |now| == |middle| == |links|
            && forall j :: 0 <= j < |links| ==>
                 var destination := links[j].rawDestination;
                 var between := if j in taken then RewriteRelativeLinkForPathChange(oldPage, newPage, destination, rules).destination else destination;
                 && middle[j].rawDestination == between
                 && now[j].rawDestination == if mentioned && j in again then RewriteLinkDestination(newPage, between, rules).destination else between
  {
    hide LinksFrom, Spliced, Planned, AllMovedRanges, HasSubstring, Passed, LinksOf, ResolveURLPath, IsMove;
    hide SlugTargets, SlugTargetsInPlace, QuietChanges, RewriteRelativeLinkForPathChange, RewriteLinkDestination, Print, RulesMovePages, IsPagePath;
    var (oldPage, newPage, rules) := (Print(olds + sub), Print(news + sub), MoveRule(olds, news));
    var first := FirstPass(d, taken, olds, news, sub);
    SubtreePages(olds, news, sub);
    UnchangedIsSame(oldPage, newPage, rules);
    SlugTargetsAreQuiet(LinksOf(d), taken, oldPage, newPage, rules);
    FirstPassIsPassed(d, taken, olds, news, sub);
    PassedReads(d, taken, MovedPageRewriter(oldPage, newPage, rules));
    InPlaceIsQuietChange(LinksOf(first), again, newPage, rules);
    PassedReads(first, again, InPlaceRewriter(newPage, rules));
  }

  /** An address of the web or of mail, matched or not, reads as it did behind both passes. */
  lemma {:induction false} WebAddressReadsUnchanged(d: Document, taken: seq<nat>, again: seq<nat>, olds: seq<string>, news: seq<string>,
                                                    sub: seq<string>, j: nat, lead: string, rest: string)
    requires IsMove(olds, news) && AreNames(sub) && ArePassed(d, taken, again, olds, news, sub) && j < |LinksOf(d)|
    requires LinksOf(d)[j].rawDestination == lead + rest && ToLower(lead) in {"http://", "https://", "mailto:"}
    ensures var now := LinksOf(BothPasses(d, taken, again, olds, news, sub));
            |now| == |LinksOf(d)| && now[j].rawDestination == lead + rest
  {
    hide LinksOf, BothPasses, FirstPass, Print, SlugTargets, SlugTargetsInPlace, RewriteLinkDestination, RewriteRelativeLinkForPathChange, HasSubstring;
    PassesRead(d, taken, again, olds, news, sub);
    WebAddressIsLeftAlone(lead, rest, Print(olds + sub), Print(news + sub), MoveRule(olds, news));
    WebAddressIsLeftAlone(lead, rest, Print(news + sub), Print(news + sub), MoveRule(olds, news));
  }

  /** So does a file of the asset folder. */
  lemma {:induction false} AssetReadsUnchanged(d: Document, taken: seq<nat>, again: seq<nat>, olds: seq<string>, news: seq<string>,
                                               sub: seq<string>, j: nat, blanks: string, open: string, folder: string, rest: string)
    requires IsMove(olds, news) && AreNames(sub) && ArePassed(d, taken, again, olds, news, sub) && j < |LinksOf(d)|
    requires AllBlank(blanks) && open in {"", "<"} && folder in {"/assets/", "assets/"}
    requires LinksOf(d)[j].rawDestination == blanks + open + folder + rest
    ensures var now := LinksOf(BothPasses(d, taken, again, olds, news, sub));
            |now| == |LinksOf(d)| && now[j].rawDestination == blanks + open + folder + rest
  {
    hide LinksOf, BothPasses, FirstPass, Print, SlugTargets, SlugTargetsInPlace, RewriteLinkDestination, RewriteRelativeLinkForPathChange, HasSubstring;
    PassesRead(d, taken, again, olds, news, sub);
    AssetIsLeftAlone(blanks, open, folder, rest, Print(olds + sub), Print(news + sub), MoveRule(olds, news));
    AssetIsLeftAlone(blanks, open, folder, rest, Print(news + sub), Print(news + sub), MoveRule(olds, news));
  }
}
