/**
 Scanning a rewritten document again (backend/internal/links/link_refactor.go): as long as no bracket, parenthesis, blank
 or backslash comes or goes with a destination, the scan finds the same links with their new destinations.
 */
module LinkRescan {
  import opened Wrappers
  import opened Text
  import opened WikiPath
  import opened LinkRewrite
  import opened LinkSplice
  import opened PageSlugs

  /** A character the scanner takes no notice of. */
  predicate IsQuiet(c: char) {
    c !in {'[', ']', '(', ')', '<', '>', '\\', '!', ' ', '\n', '\t'}
  }

  predicate Quiet(s: string) {
    s != "" && forall i :: 0 <= i < |s| ==> IsQuiet(s[i])
  }

  // ----- One quiet stretch replaced by another -----

  /** t is s with the stretch from a to b replaced by one that is d longer; both are quiet. */
  predicate Replaced(s: string, t: string, a: nat, b: nat, d: int) {
    && a < b <= |s| && a < b + d && |t| == |s| + d
    && (forall i :: 0 <= i < a ==> t[i] == s[i])
    && (forall i :: b <= i < |s| ==> t[i + d] == s[i])
    && (forall i :: a <= i < b ==> IsQuiet(s[i]))
    && (forall i :: a <= i < b + d ==> IsQuiet(t[i]))
  }

  /** Where position i of s is in t. */
  function To(b: nat, d: int, i: nat): int {
    if i >= b then i + d else i
  }

  predicate Outside(a: nat, b: nat, i: nat) {
    i <= a || b <= i
  }

  predicate IsBracket(c: char) {
    c in {'[', ']', '(', ')'}
  }

  lemma {:induction false} ClosingSkips(s: string, i: nat, j: nat, depth: int, open: char, close: char)
    requires i <= j <= |s| && IsBracket(open) && IsBracket(close) && open != close && forall k :: i <= k < j ==> IsQuiet(s[k])
    ensures Closing(s, i, depth, open, close) == Closing(s, j, depth, open, close)
    decreases j - i
  {
    if i < j {
      ClosingSkips(s, i + 1, j, depth, open, close);
    }
  }

  /** A result at a position outside the stretch, or none. */
  predicate Follows(a: nat, b: nat, d: int, r: Option<nat>, moved: Option<nat>) {
    match r
    case None => moved == None
    case Some(i) => (i < a || b <= i) && moved.Some? && moved.value == To(b, d, i)
  }

  /** What the definition says of one position. */
  lemma CharMoves(s: string, t: string, a: nat, b: nat, d: int, i: nat)
    requires Replaced(s, t, a, b, d) && Outside(a, b, i)
    ensures 0 <= To(b, d, i) && (i >= |s| <==> To(b, d, i) >= |t|) && a < b <= |s| && a < b + d <= |t|
    ensures i < |s| && i != a ==> t[To(b, d, i)] == s[i]
    ensures i == a ==> IsQuiet(s[i]) && IsQuiet(t[i])
    ensures i < |s| && i != a ==> Outside(a, b, i + 1) && To(b, d, i + 1) == To(b, d, i) + 1
    ensures i < |s| && i + 1 != a && i != a ==> Outside(a, b, i + 2) && To(b, d, i + 2) == To(b, d, i) + 2
  {
  }

  /** Where the scan goes into the stretch, it comes out at its end. */
  predicate Enters(s: string, a: nat, i: nat)
    requires i < |s|
  {
    i == a || (i + 1 == a && s[i] == '\\')
  }

  lemma ClosingCrosses(s: string, t: string, a: nat, b: nat, d: int, i: nat, depth: int, open: char, close: char)
    requires Replaced(s, t, a, b, d) && i < |s| && Enters(s, a, i) && IsBracket(open) && IsBracket(close) && open != close
    ensures Closing(s, i, depth, open, close) == Closing(s, b, depth, open, close)
    ensures i < |t| && Closing(t, i, depth, open, close) == Closing(t, b + d, depth, open, close)
  {
    var from := if i == a then a else a + 1;
    ClosingSkips(s, from, b, depth, open, close);
    ClosingSkips(t, from, b + d, depth, open, close);
  }

  lemma {:induction false} ClosingMoves(s: string, t: string, a: nat, b: nat, d: int, i: nat, depth: int, open: char, close: char)
    requires Replaced(s, t, a, b, d) && Outside(a, b, i) && IsBracket(open) && IsBracket(close) && open != close
    ensures 0 <= To(b, d, i) && Follows(a, b, d, Closing(s, i, depth, open, close), Closing(t, To(b, d, i), depth, open, close))
    decreases |s| - i
  {
    hide Replaced;
    CharMoves(s, t, a, b, d, i);
    if i < |s| {
      if Enters(s, a, i) {
        ClosingCrosses(s, t, a, b, d, i, depth, open, close);
        ClosingMoves(s, t, a, b, d, b, depth, open, close);
      } else if s[i] == open {
        ClosingMoves(s, t, a, b, d, i + 1, depth + 1, open, close);
      } else if s[i] == close {
        if depth - 1 != 0 {
          ClosingMoves(s, t, a, b, d, i + 1, depth - 1, open, close);
        }
      } else if s[i] == '\\' {
        ClosingMoves(s, t, a, b, d, i + 2, depth, open, close);
      } else {
        ClosingMoves(s, t, a, b, d, i + 1, depth, open, close);
      }
    }
  }

  lemma {:induction false} AngleSkips(s: string, i: nat, j: nat)
    requires i <= j <= |s| && forall k :: i <= k < j ==> IsQuiet(s[k])
    ensures AngleEnd(s, i) == AngleEnd(s, j)
    decreases j - i
  {
    if i < j {
      AngleSkips(s, i + 1, j);
    }
  }

  lemma AngleCrosses(s: string, t: string, a: nat, b: nat, d: int, i: nat)
    requires Replaced(s, t, a, b, d) && i < |s| && Enters(s, a, i)
    ensures AngleEnd(s, i) == AngleEnd(s, b) && i < |t| && AngleEnd(t, i) == AngleEnd(t, b + d)
  {
    var from := if i == a then a else a + 1;
    AngleSkips(s, from, b);
    AngleSkips(t, from, b + d);
  }

  lemma {:induction false} AngleMoves(s: string, t: string, a: nat, b: nat, d: int, i: nat)
    requires Replaced(s, t, a, b, d) && Outside(a, b, i)
    ensures 0 <= To(b, d, i) && Follows(a, b, d, AngleEnd(s, i), AngleEnd(t, To(b, d, i)))
    decreases |s| - i
  {
    hide Replaced;
    CharMoves(s, t, a, b, d, i);
    if i < |s| {
      if Enters(s, a, i) {
        AngleCrosses(s, t, a, b, d, i);
        AngleMoves(s, t, a, b, d, b);
      } else if s[i] != '>' {
        AngleMoves(s, t, a, b, d, if s[i] == '\\' then i + 2 else i + 1);
      }
    }
  }

  lemma {:induction false} BareSkips(s: string, i: nat, j: nat, depth: nat)
    requires i <= j <= |s| && forall k :: i <= k < j ==> IsQuiet(s[k])
    ensures BareEnd(s, i, depth) == BareEnd(s, j, depth)
    decreases j - i
  {
    if i < j {
      BareSkips(s, i + 1, j, depth);
    }
  }

  lemma BareCrosses(s: string, t: string, a: nat, b: nat, d: int, i: nat, depth: nat)
    requires Replaced(s, t, a, b, d) && i < |s| && Enters(s, a, i)
    ensures BareEnd(s, i, depth) == BareEnd(s, b, depth) && i < |t| && BareEnd(t, i, depth) == BareEnd(t, b + d, depth)
  {
    var from := if i == a then a else a + 1;
    BareSkips(s, from, b, depth);
    BareSkips(t, from, b + d, depth);
  }

  lemma {:induction false} BareMoves(s: string, t: string, a: nat, b: nat, d: int, i: nat, depth: nat)
    requires Replaced(s, t, a, b, d) && Outside(a, b, i)
    ensures 0 <= To(b, d, i) && Follows(a, b, d, BareEnd(s, i, depth), BareEnd(t, To(b, d, i), depth))
    decreases |s| - i
  {
    hide Replaced;
    CharMoves(s, t, a, b, d, i);
    if i < |s| {
      if Enters(s, a, i) {
        BareCrosses(s, t, a, b, d, i, depth);
        BareMoves(s, t, a, b, d, b, depth);
      } else if s[i] == '\\' {
        BareMoves(s, t, a, b, d, i + 2, depth);
      } else if s[i] == '(' {
        BareMoves(s, t, a, b, d, i + 1, depth + 1);
      } else if s[i] == ')' {
        if depth != 0 {
          BareMoves(s, t, a, b, d, i + 1, depth - 1);
        }
      } else if !IsGap(s[i]) {
        BareMoves(s, t, a, b, d, i + 1, depth);
      }
    }
  }

  lemma {:induction false} GapsMove(s: string, t: string, a: nat, b: nat, d: int, i: nat)
    requires Replaced(s, t, a, b, d) && Outside(a, b, i)
    ensures 0 <= To(b, d, i) && Outside(a, b, SkipGaps(s, i)) && SkipGaps(t, To(b, d, i)) == To(b, d, SkipGaps(s, i))
    decreases |s| - i
  {
    hide Replaced;
    CharMoves(s, t, a, b, d, i);
    if i != a && i < |s| && IsGap(s[i]) {
      GapsMove(s, t, a, b, d, i + 1);
    }
  }

  // ----- Links -----

  /** The same place in t. */
  function MovedOccurrence(t: string, b: nat, d: int, o: Occurrence): Occurrence
    requires 0 <= To(b, d, o.start) <= To(b, d, o.end) <= |t|
  {
    Occurrence(t[To(b, d, o.start)..To(b, d, o.end)], To(b, d, o.start), To(b, d, o.end))
  }

  predicate MovesTo(t: string, a: nat, b: nat, d: int, o: Option<Occurrence>, moved: Option<Occurrence>) {
    match o
    case None => moved == None
    case Some(o) =>
      && Outside(a, b, o.start) && (o.end < a || b <= o.end)
      && 0 <= To(b, d, o.start) <= To(b, d, o.end) <= |t| && moved == Some(MovedOccurrence(t, b, d, o))
  }

  /** Where the destination at i begins, and where it ends. */
  function From(s: string, i: nat): nat
    requires i < |s|
  {
    if s[i] == '<' then i + 1 else i
  }

  function EndFrom(s: string, i: nat): Option<nat>
    requires i < |s|
  {
    if s[i] == '<' then AngleEnd(s, i + 1) else BareEnd(s, i, 0)
  }

  lemma DestinationByEnds(s: string, start: nat)
    ensures DestinationAt(s, start) ==
            var i := SkipGaps(s, start);
            if i >= |s| || Closing(s, start, 1, '(', ')').None? then None
            else if EndFrom(s, i).None? || EndFrom(s, i).value <= From(s, i) then None
            else Some(Occurrence(s[From(s, i)..EndFrom(s, i).value], From(s, i), EndFrom(s, i).value))
  {
  }

  lemma {:induction false} EndsMove(s: string, t: string, a: nat, b: nat, d: int, i: nat)
    requires Replaced(s, t, a, b, d) && Outside(a, b, i) && i < |s|
    ensures 0 <= To(b, d, i) < |t| && Outside(a, b, From(s, i)) && From(t, To(b, d, i)) == To(b, d, From(s, i))
    ensures Follows(a, b, d, EndFrom(s, i), EndFrom(t, To(b, d, i)))
  {
    hide Replaced, AngleEnd, BareEnd, Follows;
    CharMoves(s, t, a, b, d, i);
    if i != a && s[i] == '<' {
      AngleMoves(s, t, a, b, d, i + 1);
    } else {
      BareMoves(s, t, a, b, d, i, 0);
    }
  }

  lemma {:induction false} DestinationMoves(s: string, t: string, a: nat, b: nat, d: int, start: nat)
    requires Replaced(s, t, a, b, d) && Outside(a, b, start)
    ensures 0 <= To(b, d, start) && MovesTo(t, a, b, d, DestinationAt(s, start), DestinationAt(t, To(b, d, start)))
  {
    hide Replaced, Closing, SkipGaps, DestinationAt, From, EndFrom;
    GapsMove(s, t, a, b, d, start);
    ClosingMoves(s, t, a, b, d, start, 1, '(', ')');
    DestinationByEnds(s, start);
    DestinationByEnds(t, To(b, d, start));
    var i := SkipGaps(s, start);
    CharMoves(s, t, a, b, d, i);
    if i < |s| {
      EndsMove(s, t, a, b, d, i);
      if EndFrom(s, i).Some? {
        EndsKeepOrder(s, t, a, b, d, From(s, i), EndFrom(s, i).value);
      }
    }
  }

  lemma EndsKeepOrder(s: string, t: string, a: nat, b: nat, d: int, from: nat, end: nat)
    requires Replaced(s, t, a, b, d) && Outside(a, b, from) && (end < a || b <= end)
    ensures 0 <= To(b, d, from) && 0 <= To(b, d, end) && (end <= from <==> To(b, d, end) <= To(b, d, from))
    ensures end < |s| ==> To(b, d, end) < |t|
  {
  }

  /** Outside the stretch the ranges cover the same text. */
  ghost predicate SameCode(a: nat, b: nat, d: int, excluded: seq<TextRange>, moved: seq<TextRange>) {
    forall i: nat :: i < a || b <= i ==> (Covered(i, excluded) <==> Covered(To(b, d, i), moved))
  }

  lemma OpeningMoves(s: string, t: string, a: nat, b: nat, d: int, i: nat, excluded: seq<TextRange>, moved: seq<TextRange>)
    requires Replaced(s, t, a, b, d) && Outside(a, b, i) && SameCode(a, b, d, excluded, moved)
    ensures OpensLink(s, i, excluded) <==> OpensLink(t, To(b, d, i), moved)
    ensures OpensLink(s, i, excluded) ==> i != a
  {
  }

  /** The part of LinkAt behind the label. */
  function BehindLabel(s: string, close: nat): Option<Occurrence> {
    var j := SkipGaps(s, close + 1);
    if j >= |s| || s[j] != '(' then None else DestinationAt(s, j + 1)
  }

  lemma {:induction false} BehindLabelMoves(s: string, t: string, a: nat, b: nat, d: int, close: nat)
    requires Replaced(s, t, a, b, d) && (close < a || b <= close) && close < |s|
    ensures 0 <= To(b, d, close) && MovesTo(t, a, b, d, BehindLabel(s, close), BehindLabel(t, To(b, d, close)))
  {
    hide Replaced, SkipGaps, DestinationAt, MovesTo;
    CharMoves(s, t, a, b, d, close);
    GapsMove(s, t, a, b, d, close + 1);
    var j := SkipGaps(s, close + 1);
    CharMoves(s, t, a, b, d, j);
    if j < |s| && s[j] == '(' {
      DestinationMoves(s, t, a, b, d, j + 1);
    } else {
      NoneMoves(t, a, b, d);
    }
  }

  lemma NoneMoves(t: string, a: nat, b: nat, d: int)
    ensures MovesTo(t, a, b, d, None, None)
  {
  }

  lemma {:induction false} LinkMoves(s: string, t: string, a: nat, b: nat, d: int, i: nat, excluded: seq<TextRange>, moved: seq<TextRange>)
    requires Replaced(s, t, a, b, d) && Outside(a, b, i) && SameCode(a, b, d, excluded, moved)
    ensures 0 <= To(b, d, i) && MovesTo(t, a, b, d, LinkAt(s, i, excluded), LinkAt(t, To(b, d, i), moved))
  {
    hide Replaced, Closing, SkipGaps, DestinationAt, OpensLink, SameCode, MovesTo;
    CharMoves(s, t, a, b, d, i);
    OpeningMoves(s, t, a, b, d, i, excluded, moved);
    ClosingMoves(s, t, a, b, d, i, 0, '[', ']');
    NoneMoves(t, a, b, d);
    var end := Closing(s, i, 0, '[', ']');
    if end.Some? {
      BehindLabelMoves(s, t, a, b, d, end.value);
    }
  }

  // ----- All links of the document -----

  /** The links of s where they are in t. */
  predicate AllMove(t: string, a: nat, b: nat, d: int, links: seq<Occurrence>, moved: seq<Occurrence>) {
    |moved| == |links| && forall k :: 0 <= k < |links| ==> MovesTo(t, a, b, d, Some(links[k]), Some(moved[k]))
  }

  lemma AllMoveCons(t: string, a: nat, b: nat, d: int, o: Occurrence, p: Occurrence, links: seq<Occurrence>, moved: seq<Occurrence>)
    requires MovesTo(t, a, b, d, Some(o), Some(p)) && AllMove(t, a, b, d, links, moved)
    ensures AllMove(t, a, b, d, [o] + links, [p] + moved)
  {
    hide MovesTo;
    forall k | 0 <= k < |[o] + links|
      ensures MovesTo(t, a, b, d, Some(([o] + links)[k]), Some(([p] + moved)[k]))
    {
      if k > 0 {
        assert ([o] + links)[k] == links[k - 1] && ([p] + moved)[k] == moved[k - 1];
      }
    }
  }

  lemma {:induction false} LinksSkip(s: string, i: nat, j: nat, excluded: seq<TextRange>)
    requires i <= j <= |s| && forall k :: i <= k < j ==> IsQuiet(s[k])
    ensures LinksFrom(s, i, excluded) == LinksFrom(s, j, excluded)
    decreases j - i
  {
    if i < j {
      assert LinkAt(s, i, excluded) == None;
      LinksSkip(s, i + 1, j, excluded);
    }
  }

  lemma LinksCross(s: string, t: string, a: nat, b: nat, d: int, excluded: seq<TextRange>, moved: seq<TextRange>)
    requires Replaced(s, t, a, b, d)
    ensures LinksFrom(s, a, excluded) == LinksFrom(s, b, excluded) && LinksFrom(t, a, moved) == LinksFrom(t, b + d, moved)
  {
    hide LinksFrom;
    LinksSkip(s, a, b, excluded);
    LinksSkip(t, a, b + d, moved);
  }

  lemma LinksStep(s: string, i: nat, excluded: seq<TextRange>)
    ensures LinksFrom(s, i, excluded) ==
            if i >= |s| then []
            else
              match LinkAt(s, i, excluded)
              case None => LinksFrom(s, i + 1, excluded)
              case Some(o) => [o] + LinksFrom(s, o.end + 1, excluded)
  {
  }

  lemma LinkEnds(s: string, i: nat, excluded: seq<TextRange>)
    requires LinkAt(s, i, excluded).Some?
    ensures i < LinkAt(s, i, excluded).value.end < |s|
  {
  }

  lemma {:induction false} LinksMove(s: string, t: string, a: nat, b: nat, d: int, i: nat, excluded: seq<TextRange>, moved: seq<TextRange>)
    requires Replaced(s, t, a, b, d) && Outside(a, b, i) && SameCode(a, b, d, excluded, moved)
    ensures 0 <= To(b, d, i) && AllMove(t, a, b, d, LinksFrom(s, i, excluded), LinksFrom(t, To(b, d, i), moved))
    decreases |s| - i
  {
    hide Replaced, LinkAt, SameCode, LinksFrom, AllMove, MovesTo;
    CharMoves(s, t, a, b, d, i);
    LinksStep(s, i, excluded);
    LinksStep(t, To(b, d, i), moved);
    if i == a {
      LinksCross(s, t, a, b, d, excluded, moved);
      LinksMove(s, t, a, b, d, b, excluded, moved);
    } else if i < |s| {
      LinkMoves(s, t, a, b, d, i, excluded, moved);
      var here := LinkAt(s, i, excluded);
      if here.None? {
        NoneStays(t, a, b, d, LinkAt(t, To(b, d, i), moved));
        LinksMove(s, t, a, b, d, i + 1, excluded, moved);
      } else {
        LinkEnds(s, i, excluded);
        SomeMoves(s, t, a, b, d, here.value, LinkAt(t, To(b, d, i), moved));
        CharMoves(s, t, a, b, d, here.value.end);
        LinksMove(s, t, a, b, d, here.value.end + 1, excluded, moved);
        AllMoveCons(t, a, b, d, here.value, LinkAt(t, To(b, d, i), moved).value, LinksFrom(s, here.value.end + 1, excluded),
                    LinksFrom(t, To(b, d, here.value.end + 1), moved));
      }
    } else {
      NoneMove(t, a, b, d);
    }
  }

  lemma SomeMoves(s: string, t: string, a: nat, b: nat, d: int, o: Occurrence, moved: Option<Occurrence>)
    requires a < b && a < b + d && MovesTo(t, a, b, d, Some(o), moved)
    ensures moved.Some? && moved.value.end == To(b, d, o.end) && Outside(a, b, o.end) && Outside(a, b, o.end + 1)
    ensures To(b, d, o.end) + 1 == To(b, d, o.end + 1)
  {
  }

  lemma NoneStays(t: string, a: nat, b: nat, d: int, moved: Option<Occurrence>)
    requires MovesTo(t, a, b, d, None, moved)
    ensures moved == None
  {
  }

  lemma NoneMove(t: string, a: nat, b: nat, d: int)
    ensures AllMove(t, a, b, d, [], [])
  {
  }

  // ----- One rewritten link -----

  /** Where the code is after a replacement: a range that touches the replaced text keeps what it covers elsewhere. */
  function MovedRanges(excluded: seq<TextRange>, r: Replacement): seq<TextRange> {
    if excluded == [] then []
    else
      var last := excluded[|excluded| - 1];
      MovedRanges(excluded[..|excluded| - 1], r) + [TextRange(MovedEdge(last.start, r), MovedEdge(last.stop, r))]
  }

  function MovedEdge(n: nat, r: Replacement): nat {
    if n <= r.start then n else if n < r.end then r.start else n - r.end + r.start + |r.newValue|
  }

  lemma {:induction false} RangesMove(excluded: seq<TextRange>, r: Replacement)
    requires r.start < r.end && r.newValue != ""
    ensures SameCode(r.start, r.end, |r.newValue| - (r.end - r.start), excluded, MovedRanges(excluded, r))
  {
    var d := |r.newValue| - (r.end - r.start);
    if excluded != [] {
      var n := |excluded| - 1;
      var init, last := excluded[..n], excluded[n];
      RangesMove(init, r);
      assert excluded == init + [last];
      CoveredByLast(init, last);
      CoveredByLast(MovedRanges(init, r), TextRange(MovedEdge(last.start, r), MovedEdge(last.stop, r)));
      forall i: nat | i < r.start || r.end <= i
        ensures Covered(i, excluded) <==> Covered(To(r.end, d, i), MovedRanges(excluded, r))
      {
        assert Covered(i, init) <==> Covered(To(r.end, d, i), MovedRanges(init, r));
      }
    }
  }

  /** The text with one entry carried out. */
  function WithOne(s: string, r: Replacement): string
    requires r.start <= r.end <= |s|
  {
    s[..r.start] + r.newValue + s[r.end..]
  }

  lemma OneIsReplaced(s: string, r: Replacement)
    requires r.start < r.end <= |s| && Quiet(s[r.start..r.end]) && Quiet(r.newValue)
    ensures Replaced(s, WithOne(s, r), r.start, r.end, |r.newValue| - (r.end - r.start))
  {
    var t, a, b := WithOne(s, r), r.start, r.end;
    forall i | a <= i < b
      ensures IsQuiet(s[i])
    {
      assert s[a..b][i - a] == s[i];
    }
    forall i | a <= i < a + |r.newValue|
      ensures IsQuiet(t[i])
    {
      assert t[i] == r.newValue[i - a];
    }
  }

  /** The entry for the k-th link. */
  function EntryOf(links: seq<Occurrence>, k: nat, value: string): Replacement
    requires k < |links|
  {
    Replacement(links[k].start, links[k].end, value)
  }

  /** What the new scan must find: as many links, the k-th with its new destination, the others with theirs. */
  predicate OneIsNew(links: seq<Occurrence>, k: nat, value: string, now: seq<Occurrence>)
    requires k < |links|
  {
    && |now| == |links|
    && (forall j :: 0 <= j < |links| ==> now[j].rawDestination == if j == k then value else links[j].rawDestination)
    && (forall j :: 0 <= j < k ==> now[j] == links[j])
  }

  /** One replacement at the k-th link of a document. */
  lemma {:induction false} OneLinkRescans(s: string, excluded: seq<TextRange>, k: nat, value: string)
    requires var links := LinksFrom(s, 0, excluded); k < |links| && Quiet(links[k].rawDestination) && Scanned(s, links, excluded)
    requires Quiet(value)
    ensures var links := LinksFrom(s, 0, excluded);
            var r := EntryOf(links, k, value);
            r.start < r.end <= |s| && OneIsNew(links, k, value, LinksFrom(WithOne(s, r), 0, MovedRanges(excluded, r)))
  {
    hide LinksFrom, Scanned, Quiet, Replaced, SameCode, MovedRanges, MovesTo;
    var links := LinksFrom(s, 0, excluded);
    var r := EntryOf(links, k, value);
    ScannedEach(s, links, excluded, k);
    OneIsReplaced(s, r);
    RangesMove(excluded, r);
    var t, d := WithOne(s, r), |value| - (r.end - r.start);
    var now := LinksFrom(t, 0, MovedRanges(excluded, r));
    LinksMove(s, t, r.start, r.end, d, 0, excluded, MovedRanges(excluded, r));
    forall j | 0 <= j < |links|
      ensures now[j].rawDestination == (if j == k then value else links[j].rawDestination) && (j < k ==> now[j] == links[j])
    {
      LinkStands(s, excluded, links, k, value, j, now[j]);
    }
  }

  lemma LinkStands(s: string, excluded: seq<TextRange>, links: seq<Occurrence>, k: nat, value: string, j: nat, now: Occurrence)
    requires Scanned(s, links, excluded) && k < |links| && j < |links| && value != ""
    requires var r := EntryOf(links, k, value);
             r.start < r.end <= |s| && MovesTo(WithOne(s, r), r.start, r.end, |value| - (r.end - r.start), Some(links[j]), Some(now))
    ensures now.rawDestination == (if j == k then value else links[j].rawDestination) && (j < k ==> now == links[j])
  {
    hide Scanned;
    ScannedEach(s, links, excluded, j);
    if j < k {
      ScannedApart(s, links, excluded, j, k);
    } else if k < j {
      ScannedApart(s, links, excluded, k, j);
    }
    OtherText(s, EntryOf(links, k, value), links[j], j == k);
  }

  /** What stands at the place of a link: the new value, or what stood there. */
  lemma OtherText(s: string, r: Replacement, o: Occurrence, same: bool)
    requires r.start < r.end <= |s| && o.start < o.end <= |s| && r.newValue != ""
    requires if same then o.start == r.start && o.end == r.end else o.end < r.start || r.end < o.start
    ensures var d := |r.newValue| - (r.end - r.start);
            var t := WithOne(s, r);
            && 0 <= To(r.end, d, o.start) <= To(r.end, d, o.end) <= |t|
            && t[To(r.end, d, o.start)..To(r.end, d, o.end)] == if same then r.newValue else s[o.start..o.end]
  {
  }

  // ----- All rewritten links -----

  /** What is behind the entries is not touched by them. */
  lemma {:induction false} SpliceBefore(head: string, tail: string, plan: seq<Replacement>)
    requires Disjoint(plan) && InBounds(plan, |head|)
    ensures Spliced(head + tail, plan) == Spliced(head, plan) + tail
    decreases |plan|
  {
    if plan != [] {
      var n := |plan| - 1;
      assert plan[n] in plan;
      assert (head + tail)[..plan[n].start] == head[..plan[n].start];
      assert (head + tail)[plan[n].end..] == head[plan[n].end..] + tail;
    }
  }

  /** The last entry may be carried out first. */
  lemma LastFirst(s: string, init: seq<Replacement>, r: Replacement)
    requires Disjoint(init + [r]) && InBounds(init + [r], |s|)
    ensures r.start <= r.end <= |s| && Disjoint(init) && InBounds(init, r.start)
    ensures Spliced(s, init + [r]) == Spliced(WithOne(s, r), init)
  {
    var plan := init + [r];
    assert plan[..|init|] == init && plan[|init|] == r;
    PrefixInBounds(s, plan);
    assert r in plan;
    SpliceBefore(s[..r.start], r.newValue + s[r.end..], init);
    assert s[..r.start] + (r.newValue + s[r.end..]) == WithOne(s, r);
    assert Spliced(s[..r.start], init) + (r.newValue + s[r.end..]) == Spliced(s[..r.start], init) + r.newValue + s[r.end..];
  }

  /** The code behind all entries of a plan, the last one first. */
  function AllMovedRanges(excluded: seq<TextRange>, plan: seq<Replacement>): seq<TextRange>
    decreases |plan|
  {
    if plan == [] then excluded
    else AllMovedRanges(MovedRanges(excluded, plan[|plan| - 1]), plan[..|plan| - 1])
  }

  predicate Increasing(taken: seq<nat>, bound: nat) {
    (forall i :: 0 <= i < |taken| ==> taken[i] < bound) && forall i, j :: 0 <= i < j < |taken| ==> taken[i] < taken[j]
  }

  /** Every changed link loses and gets a quiet destination. */
  predicate QuietChanges(links: seq<Occurrence>, taken: seq<nat>, rewrite: string -> Rewritten)
    requires forall i :: 0 <= i < |taken| ==> taken[i] < |links|
  {
    forall i :: 0 <= i < |taken| ==>
      var r := rewrite(links[taken[i]].rawDestination);
      r.changed ==> Quiet(links[taken[i]].rawDestination) && Quiet(r.destination)
  }

  /** The destination of link j afterwards. */
  function NewDestination(links: seq<Occurrence>, taken: seq<nat>, rewrite: string -> Rewritten, j: nat): string
    requires j < |links|
  {
    var d := links[j].rawDestination;
    if j in taken && rewrite(d).changed then rewrite(d).destination else d
  }

  predicate ReadsAs(links: seq<Occurrence>, taken: seq<nat>, rewrite: string -> Rewritten, now: seq<Occurrence>) {
    |now| == |links| && forall j :: 0 <= j < |links| ==> now[j].rawDestination == NewDestination(links, taken, rewrite, j)
  }

  /**
   Main result for the text level: when the changed links lose and get quiet destinations, scanning the rewritten document,
   its code displaced with it, finds exactly the links of the document, each matched one with what the rewriter made of it.
   */
  lemma {:induction false} RewrittenDocumentRescans(s: string, excluded: seq<TextRange>, taken: seq<nat>, rewrite: string -> Rewritten)
    requires var links := LinksFrom(s, 0, excluded); Increasing(taken, |links|) && QuietChanges(links, taken, rewrite)
    ensures var links := LinksFrom(s, 0, excluded);
            var plan := Planned(links, taken, rewrite);
            ReadsAs(links, taken, rewrite, LinksFrom(Spliced(s, plan), 0, AllMovedRanges(excluded, plan)))
    decreases |taken|
  {
    hide LinksFrom, MovedRanges, Quiet;
    var links := LinksFrom(s, 0, excluded);
    if taken != [] {
      var n := |taken| - 1;
      var r := rewrite(links[taken[n]].rawDestination);
      assert taken == taken[..n] + [taken[n]];
      PlannedSnoc(links, taken[..n], rewrite, taken[n]);
      if r.changed {
        LastLinkRescans(s, excluded, taken, rewrite);
      } else {
        RewrittenDocumentRescans(s, excluded, taken[..n], rewrite);
        UnchangedReads(links, taken, rewrite, LinksFrom(Spliced(s, Planned(links, taken, rewrite)), 0, AllMovedRanges(excluded, Planned(links, taken, rewrite))));
      }
    }
  }

  lemma UnchangedReads(links: seq<Occurrence>, taken: seq<nat>, rewrite: string -> Rewritten, now: seq<Occurrence>)
    requires taken != [] && taken[|taken| - 1] < |links| && !rewrite(links[taken[|taken| - 1]].rawDestination).changed
    requires ReadsAs(links, taken[..|taken| - 1], rewrite, now)
    ensures ReadsAs(links, taken, rewrite, now)
  {
    var n := |taken| - 1;
    forall j | 0 <= j < |links|
      ensures now[j].rawDestination == NewDestination(links, taken, rewrite, j)
    {
      assert taken == taken[..n] + [taken[n]];
    }
  }

  /** The last changed link first, then the others, which that one has left where they were. */
  lemma {:induction false} LastLinkRescans(s: string, excluded: seq<TextRange>, taken: seq<nat>, rewrite: string -> Rewritten)
    requires var links := LinksFrom(s, 0, excluded); Increasing(taken, |links|) && QuietChanges(links, taken, rewrite)
    requires taken != [] && rewrite(LinksFrom(s, 0, excluded)[taken[|taken| - 1]].rawDestination).changed
    ensures var links := LinksFrom(s, 0, excluded);
            var plan := Planned(links, taken, rewrite);
            ReadsAs(links, taken, rewrite, LinksFrom(Spliced(s, plan), 0, AllMovedRanges(excluded, plan)))
    decreases |taken|, 0
  {
    hide LinksFrom, MovedRanges, Quiet, Scanned, ReadsAs, AllMovedRanges, Spliced, Planned;
    var links := LinksFrom(s, 0, excluded);
    var n := |taken| - 1;
    var k, value := taken[n], rewrite(links[taken[n]].rawDestination).destination;
    var r := EntryOf(links, k, value);
    var init := Planned(links, taken[..n], rewrite);
    assert taken == taken[..n] + [taken[n]];
    PlannedSnoc(links, taken[..n], rewrite, k);
    LinksAreScanned(s, excluded);
    PlannedIsDisjoint(s, links, excluded, taken, rewrite);
    LastFirst(s, init, r);
    OneLinkRescans(s, excluded, k, value);
    var t, moved := WithOne(s, r), MovedRanges(excluded, r);
    var middle := LinksFrom(t, 0, moved);
    EarlierAreSame(links, k, value, middle, taken[..n], rewrite);
    RewrittenDocumentRescans(t, moved, taken[..n], rewrite);
    LastRangesFirst(excluded, init, r);
    var now := LinksFrom(Spliced(t, init), 0, AllMovedRanges(moved, init));
    AllRead(links, k, value, middle, taken, rewrite, now);
  }

  lemma LastRangesFirst(excluded: seq<TextRange>, init: seq<Replacement>, r: Replacement)
    ensures AllMovedRanges(excluded, init + [r]) == AllMovedRanges(MovedRanges(excluded, r), init)
  {
    assert (init + [r])[..|init|] == init;
  }

  lemma {:induction false} SamePlan(links: seq<Occurrence>, middle: seq<Occurrence>, taken: seq<nat>, rewrite: string -> Rewritten)
    requires |middle| == |links| && forall i :: 0 <= i < |taken| ==> taken[i] < |links| && middle[taken[i]] == links[taken[i]]
    ensures Planned(middle, taken, rewrite) == Planned(links, taken, rewrite)
  {
    if taken != [] {
      SamePlan(links, middle, taken[..|taken| - 1], rewrite);
    }
  }

  lemma EarlierAreSame(links: seq<Occurrence>, k: nat, value: string, middle: seq<Occurrence>, taken: seq<nat>, rewrite: string -> Rewritten)
    requires k < |links| && OneIsNew(links, k, value, middle) && Increasing(taken, k) && QuietChanges(links, taken, rewrite)
    ensures Increasing(taken, |middle|) && QuietChanges(middle, taken, rewrite) && Planned(middle, taken, rewrite) == Planned(links, taken, rewrite)
  {
    hide Quiet;
    assert forall i :: 0 <= i < |taken| ==> middle[taken[i]] == links[taken[i]];
    SamePlan(links, middle, taken, rewrite);
  }

  lemma AllRead(links: seq<Occurrence>, k: nat, value: string, middle: seq<Occurrence>, taken: seq<nat>, rewrite: string -> Rewritten, now: seq<Occurrence>)
    requires taken != [] && Increasing(taken, |links|) && taken[|taken| - 1] == k
    requires rewrite(links[k].rawDestination).changed && rewrite(links[k].rawDestination).destination == value
    requires OneIsNew(links, k, value, middle) && ReadsAs(middle, taken[..|taken| - 1], rewrite, now)
    ensures ReadsAs(links, taken, rewrite, now)
  {
    var n := |taken| - 1;
    assert taken == taken[..n] + [taken[n]];
    forall j | 0 <= j < |links|
      ensures now[j].rawDestination == NewDestination(links, taken, rewrite, j)
    {
      assert now[j].rawDestination == NewDestination(middle, taken[..n], rewrite, j);
      assert j in taken[..n] ==> j < k;
      assert j in taken <==> j in taken[..n] || j == k;
    }
  }

  /** What the scan finds is scanned. */
  lemma {:induction false} LinksAreScanned(s: string, excluded: seq<TextRange>)
    ensures Scanned(s, LinksFrom(s, 0, excluded), excluded)
  {
    hide LinksFrom;
    LinksGrow(s, 0, excluded, []);
    assert [] + LinksFrom(s, 0, excluded) == LinksFrom(s, 0, excluded);
  }

  lemma {:induction false} LinksGrow(s: string, i: nat, excluded: seq<TextRange>, before: seq<Occurrence>)
    requires Scanned(s, before, excluded) && PreviousEnd(before, |before|) < i
    ensures Scanned(s, before + LinksFrom(s, i, excluded), excluded)
    decreases |s| - i
  {
    hide LinkAt, OpensLink, LinksFrom, Scanned;
    LinksStep(s, i, excluded);
    if i >= |s| {
      assert before + [] == before;
    } else {
      var here := LinkAt(s, i, excluded);
      if here.None? {
        LinksGrow(s, i + 1, excluded, before);
      } else {
        LinkEnds(s, i, excluded);
        ScannedGrows(s, before, excluded, here.value, i);
        assert PreviousEnd(before + [here.value], |before| + 1) == here.value.end;
        LinksGrow(s, here.value.end + 1, excluded, before + [here.value]);
        AddsNext(before, here.value, LinksFrom(s, here.value.end + 1, excluded));
      }
    }
  }

  // ----- A moved document -----

  /** A relative path that leads to slugs is quiet, and so is what it becomes with a quiet suffix. */
  lemma {:induction false} RewrittenIsQuiet(oldCurrent: string, newCurrent: string, destination: string, rules: seq<RewriteRule>)
    requires RulesMovePages(rules) && IsPagePath(newCurrent) && Quiet(destination)
    requires AreSlugs(Names(Moved(ResolveURLPath(oldCurrent, SplitLinkDestination(destination).0), rules)))
    ensures var r := RewriteRelativeLinkForPathChange(oldCurrent, newCurrent, destination, rules); r.changed ==> Quiet(r.destination)
  {
    hide IsPageLink, IsValidSlug, ResolveURLPath;
    var (baseDest, suffix) := SplitLinkDestination(destination);
    var resolved := ResolveURLPath(oldCurrent, baseDest);
    if RewriteRelativeLinkForPathChange(oldCurrent, newCurrent, destination, rules).changed {
      var target := Moved(resolved, rules);
      ResolvedIsPagePath(oldCurrent, baseDest);
      MovedIsPagePath(resolved, rules);
      FreeIsUncut(newCurrent);
      FreeIsUncut(target);
      RelativeSegmentsAre(Names(newCurrent), Names(target));
      JoinIsPlain(RelativeSegments(Names(newCurrent), Names(target)));
      QuietTogether(baseDest, suffix, RelativePath(newCurrent, target));
    }
  }

  lemma QuietTogether(baseDest: string, suffix: string, rel: string)
    requires Quiet(baseDest + suffix) && IsPlain(rel)
    ensures Quiet(rel + suffix)
  {
    forall i | 0 <= i < |rel + suffix|
      ensures IsQuiet((rel + suffix)[i])
    {
      if i >= |rel| {
        assert (baseDest + suffix)[|baseDest| + (i - |rel|)] == (rel + suffix)[i];
      }
    }
  }

  /** The changed links of a moved page have quiet destinations and lead to pages with valid slugs. */
  predicate SlugTargets(links: seq<Occurrence>, taken: seq<nat>, oldCurrent: string, newCurrent: string, rules: seq<RewriteRule>)
    requires forall i :: 0 <= i < |taken| ==> taken[i] < |links|
  {
    forall i :: 0 <= i < |taken| ==>
      var d := links[taken[i]].rawDestination;
      RewriteRelativeLinkForPathChange(oldCurrent, newCurrent, d, rules).changed ==>
        Quiet(d) && AreSlugs(Names(Moved(ResolveURLPath(oldCurrent, SplitLinkDestination(d).0), rules)))
  }

  /**
   Main result for a moved page, from text to text: scanned again, the text that is written back has the same links, and each
   matched relative page link, read from the page's new path, names the page it named before, after the move; only a link
   to the page itself, warned about, may not.
   */
  lemma {:induction false} MovedDocumentRescans(content: string, code: seq<TextRange>, taken: seq<nat>,
                                                oldCurrent: string, newCurrent: string, rules: seq<RewriteRule>, j: nat)
    requires var links := LinksFrom(content, 0, code); Increasing(taken, |links|) && SlugTargets(links, taken, oldCurrent, newCurrent, rules) && j < |links|
    requires RulesMovePages(rules) && IsPagePath(newCurrent) && oldCurrent != newCurrent
    ensures var links := LinksFrom(content, 0, code);
            var plan := Planned(links, taken, MovedPageRewriter(oldCurrent, newCurrent, rules));
            var now := LinksFrom(PathChangeText(content, links, taken, oldCurrent, newCurrent, rules), 0, AllMovedRanges(code, plan));
            var d := links[j].rawDestination;
            var (baseDest, suffix) := SplitLinkDestination(d);
            && |now| == |links|
            && (j !in taken ==> now[j].rawDestination == d)
            && (j in taken ==>
                  && SplitLinkDestination(now[j].rawDestination).1 == suffix
                  && (IsPageLink(baseDest) && !IsAbsolute(baseDest) && !RewriteRelativeLinkForPathChange(oldCurrent, newCurrent, d, rules).warned ==>
                        ResolveURLPath(newCurrent, SplitLinkDestination(now[j].rawDestination).0) == Meant(oldCurrent, baseDest, rules)))
  {
    hide LinksFrom, Planned, AllMovedRanges, Spliced, IsPageLink, ResolveURLPath, Meant, Quiet, AreSlugs, RewriteRelativeLinkForPathChange, Moved;
    var links := LinksFrom(content, 0, code);
    var rewrite := MovedPageRewriter(oldCurrent, newCurrent, rules);
    SlugTargetsAreQuiet(links, taken, oldCurrent, newCurrent, rules);
    RewrittenDocumentRescans(content, code, taken, rewrite);
    PathChangeKeepsMeaning(oldCurrent, newCurrent, links[j].rawDestination, rules);
  }

  lemma SlugTargetsAreQuiet(links: seq<Occurrence>, taken: seq<nat>, oldCurrent: string, newCurrent: string, rules: seq<RewriteRule>)
    requires Increasing(taken, |links|) && SlugTargets(links, taken, oldCurrent, newCurrent, rules)
    requires RulesMovePages(rules) && IsPagePath(newCurrent)
    ensures QuietChanges(links, taken, MovedPageRewriter(oldCurrent, newCurrent, rules))
  {
    hide Quiet, AreSlugs, RewriteRelativeLinkForPathChange, Moved, ResolveURLPath;
    forall i | 0 <= i < |taken| && RewriteRelativeLinkForPathChange(oldCurrent, newCurrent, links[taken[i]].rawDestination, rules).changed
      ensures Quiet(RewriteRelativeLinkForPathChange(oldCurrent, newCurrent, links[taken[i]].rawDestination, rules).destination)
    {
      RewrittenIsQuiet(oldCurrent, newCurrent, links[taken[i]].rawDestination, rules);
    }
  }
}
