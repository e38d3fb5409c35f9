/**
 The two passes of TransformContent (backend/internal/importer/content_transformer.go): the second one scans the output
 of the first for code again. Proved here: as long as the first pass leaves its segments plain, the second sees the
 same code, so two passes over the page are one pass with both rewriters.
 */
module CodeRescan {
  import opened Wrappers
  import opened CodeSpans

  // ----- The scanner looks only so far: the same text gives the same answers -----

  predicate Agree(t: string, a: nat, s: string, b: nat, w: nat)
    decreases w
  {
    a + w <= |t| && b + w <= |s| && (w > 0 ==> t[a] == s[b] && Agree(t, a + 1, s, b + 1, w - 1))
  }

  predicate Stops(s: string, i: nat, c: char) {
    i >= |s| || s[i] != c
  }

  predicate BothEnd(t: string, a: nat, s: string, b: nat, w: nat) {
    a + w == |t| && b + w == |s|
  }

  lemma AgreeBounds(t: string, a: nat, s: string, b: nat, w: nat)
    requires Agree(t, a, s, b, w)
    ensures a + w <= |t| && b + w <= |s|
  {
  }

  lemma {:induction false} AgreeFrom(t: string, a: nat, s: string, b: nat, w: nat, k: nat)
    requires Agree(t, a, s, b, w) && k <= w
    ensures Agree(t, a + k, s, b + k, w - k)
    ensures k < w ==> t[a + k] == s[b + k]
    decreases k
  {
    if k > 0 {
      AgreeFrom(t, a + 1, s, b + 1, w - 1, k - 1);
    }
  }

  lemma {:induction false} LocalRun(t: string, a: nat, s: string, b: nat, w: nat, c: char)
    requires Agree(t, a, s, b, w)
    requires Run(s, b, c) < w || (Stops(t, a + w, c) && Stops(s, b + w, c))
    ensures Run(t, a, c) == Run(s, b, c)
    decreases w
  {
    if w > 0 {
      if s[b] == c {
        LocalRun(t, a + 1, s, b + 1, w - 1, c);
      }
    }
  }

  lemma {:induction false} LocalLineEnd(t: string, a: nat, s: string, b: nat, w: nat)
    requires Agree(t, a, s, b, w)
    requires LineEnd(s, b) < b + w || BothEnd(t, a, s, b, w)
    ensures LineEnd(t, a) - a == LineEnd(s, b) - b
    decreases w
  {
    if w > 0 {
      if s[b] != '\n' {
        LocalLineEnd(t, a + 1, s, b + 1, w - 1);
      }
    }
  }

  lemma {:induction false} LocalNextBacktick(t: string, a: nat, s: string, b: nat, w: nat)
    requires Agree(t, a, s, b, w)
    requires NextBacktick(s, b) < b + w || BothEnd(t, a, s, b, w)
    ensures NextBacktick(t, a) - a == NextBacktick(s, b) - b
    decreases w
  {
    if w > 0 {
      if s[b] != '`' {
        LocalNextBacktick(t, a + 1, s, b + 1, w - 1);
      }
    }
  }

  predicate IsMark(c: char) {
    c == '`' || c == '~'
  }

  /** How far FenceAt looks: the end of the run behind the indentation. */
  function Reach(s: string, i: nat): (r: nat)
    requires i <= |s|
    ensures i <= r <= |s|
  {
    var at := i + Run(s, i, ' ');
    if at < |s| && IsMark(s[at]) then at + Run(s, at, s[at]) else at
  }

  lemma SameFirst(t: string, a: nat, s: string, b: nat, w: nat)
    requires w > 0 && Agree(t, a, s, b, w)
    ensures a + w <= |t| && b + w <= |s| && t[a] == s[b]
  {
  }

  lemma LocalFenceAt(t: string, a: nat, s: string, b: nat, w: nat)
    requires w > 0 && Agree(t, a, s, b, w) && IsLineStart(t, a) == IsLineStart(s, b)
    requires Reach(s, b) < b + w || BothEnd(t, a, s, b, w)
    ensures FenceAt(t, a) == FenceAt(s, b) && StartsCode(t, a) == StartsCode(s, b)
  {
    hide Agree;
    LocalRun(t, a, s, b, w, ' ');
    var k := Run(s, b, ' ');
    SameFirst(t, a, s, b, w);
    if k < w {
      AgreeFrom(t, a, s, b, w, k);
      if IsMark(s[b + k]) {
        LocalRun(t, a + k, s, b + k, w - k, s[b + k]);
      }
    }
  }

  lemma LocalCloses(t: string, a: nat, s: string, b: nat, w: nat, f: Fence)
    requires Agree(t, a, s, b, w) && f.mark != '\n'
    requires LineEnd(s, b) < b + w || BothEnd(t, a, s, b, w)
    ensures Closes(t, a, f) == Closes(s, b, f)
  {
    hide Agree, Run, LineEnd;
    LocalLineEnd(t, a, s, b, w);
    RunOnLine(s, b, ' ');
    LocalRun(t, a, s, b, w, ' ');
    var k := Run(s, b, ' ');
    AgreeFrom(t, a, s, b, w, k);
    RunOnLine(s, b + k, f.mark);
    LocalRun(t, a + k, s, b + k, w - k, f.mark);
  }

  lemma {:induction false} LocalFenceEnd(t: string, a: nat, s: string, b: nat, w: nat, f: Fence, opening: bool)
    requires b <= |s| && w == FenceEnd(s, b, f, opening) - b && Agree(t, a, s, b, w) && f.mark != '\n'
    requires BothEnd(t, a, s, b, w) || b + w < |s|
    ensures FenceEnd(t, a, f, opening) == a + w
    decreases |s| - b
  {
    hide Agree, LineEnd, Closes;
    var lineEnd := LineEnd(s, b);
    AgreeBounds(t, a, s, b, w);
    FenceEndBeyond(s, b, f, opening);
    LocalLineEnd(t, a, s, b, w);
    LocalCloses(t, a, s, b, w, f);
    if lineEnd < |s| && !(!opening && Closes(s, b, f)) {
      var k := lineEnd + 1 - b;
      AgreeFrom(t, a, s, b, w, k);
      LocalFenceEnd(t, a + k, s, b + k, w - k, f, false);
    }
  }

  /** The end of a fenced block is behind the newline of its first line, if that line has one. */
  lemma FenceEndBeyond(s: string, i: nat, f: Fence, opening: bool)
    requires i <= |s|
    ensures FenceEnd(s, i, f, opening) == |s| || LineEnd(s, i) < FenceEnd(s, i, f, opening)
    ensures LineEnd(s, i) < |s| ==> LineEnd(s, i) < FenceEnd(s, i, f, opening)
  {
  }

  /** Behind a fenced block that ends before the content does there is a new line. */
  lemma {:induction false} FenceEndsLine(s: string, i: nat, f: Fence, opening: bool)
    requires i <= |s| && FenceEnd(s, i, f, opening) < |s|
    ensures i < FenceEnd(s, i, f, opening) && s[FenceEnd(s, i, f, opening) - 1] == '\n'
    decreases |s| - i
  {
    LineEndIsNewline(s, i);
    if !(!opening && Closes(s, i, f)) {
      FenceEndsLine(s, LineEnd(s, i) + 1, f, false);
    }
  }

  lemma {:induction false} LineEndIsNewline(s: string, i: nat)
    requires i <= |s|
    ensures LineEnd(s, i) < |s| ==> s[LineEnd(s, i)] == '\n'
    decreases |s| - i
  {
    if i < |s| && s[i] != '\n' {
      LineEndIsNewline(s, i + 1);
    }
  }

  /** A closed inline code span is not followed by a backtick. */
  lemma {:induction false} InlineEndStops(s: string, i: nat, n: nat)
    requires i <= |s| && InlineEnd(s, i, n) < |s|
    ensures i <= InlineEnd(s, i, n) && s[InlineEnd(s, i, n)] != '`'
    decreases |s| - i
  {
    var next := NextBacktick(s, i);
    if Run(s, next, '`') == n {
      RunStops(s, next, '`');
    } else {
      InlineEndStops(s, next + 1, n);
    }
  }

  lemma {:induction false} RunStops(s: string, i: nat, c: char)
    requires i <= |s|
    ensures Stops(s, i + Run(s, i, c), c)
    ensures forall k :: i <= k < i + Run(s, i, c) ==> s[k] == c
    decreases |s| - i
  {
    if i < |s| && s[i] == c {
      RunStops(s, i + 1, c);
    }
  }

  lemma {:induction false} LocalInlineEnd(t: string, a: nat, s: string, b: nat, w: nat, n: nat)
    requires b <= |s| && w == InlineEnd(s, b, n) - b && Agree(t, a, s, b, w)
    requires Stops(t, a + w, '`') && Stops(s, b + w, '`') && (b + w == |s| ==> a + w == |t|)
    ensures InlineEnd(t, a, n) == a + w
    decreases |s| - b
  {
    hide Run, NextBacktick;
    var k := NextBacktick(s, b) - b;
    InlineEndBeyond(s, b, n);
    LocalNextBacktick(t, a, s, b, w);
    if b + k < |s| {
      AgreeFrom(t, a, s, b, w, k);
      LocalRun(t, a + k, s, b + k, w - k, '`');
      if Run(s, b + k, '`') != n {
        AgreeFrom(t, a, s, b, w, k + 1);
        LocalInlineEnd(t, a + k + 1, s, b + k + 1, w - k - 1, n);
      }
    }
  }

  lemma InlineEndBeyond(s: string, i: nat, n: nat)
    requires i <= |s|
    ensures NextBacktick(s, i) < |s| ==> NextBacktick(s, i) <= InlineEnd(s, i, n)
  {
  }

  // ----- A code segment is found again wherever it stands -----

  lemma {:induction false} RunStopsBy(s: string, i: nat, q: nat, c: char)
    requires i <= q < |s| && s[q] != c
    ensures i + Run(s, i, c) <= q
    decreases q - i
  {
    if s[i] == c {
      RunStopsBy(s, i + 1, q, c);
    }
  }

  /** FenceAt does not look beyond a newline. */
  lemma ReachStopsAtNewline(s: string, i: nat, q: nat)
    requires i <= q < |s| && s[q] == '\n'
    ensures Reach(s, i) <= q
  {
    RunStopsBy(s, i, q, ' ');
    var at := i + Run(s, i, ' ');
    if IsMark(s[at]) {
      RunStopsBy(s, at, q, s[at]);
    }
  }

  /** Nor beyond the end of a run of backticks. */
  lemma ReachStopsBehindRun(s: string, i: nat, c0: nat, q: nat)
    requires i <= c0 <= q < |s| && s[c0] == '`' && s[q] != '`'
    ensures Reach(s, i) <= q
  {
    RunStopsBy(s, i, c0, ' ');
    var at := i + Run(s, i, ' ');
    if s[at] == '`' {
      RunStopsBy(s, at, q, '`');
    } else if s[at] == '~' {
      RunStopsBy(s, at, c0, '~');
    }
  }

  lemma InlineEndAdvances(s: string, i: nat, n: nat)
    requires i < |s| && n > 0
    ensures i < InlineEnd(s, i, n)
  {
  }

  /** Code that ends before the content does holds a character at which FenceAt stops looking. */
  function Barrier(s: string, p: nat): nat
    requires p < |s| && StartsCode(s, p)
  {
    if FenceAt(s, p).Some? then CodeEnd(s, p) - 1 else p + Run(s, p, '`')
  }

  lemma BarrierInCode(s: string, p: nat)
    requires p < |s| && StartsCode(s, p) && CodeEnd(s, p) < |s|
    ensures p <= Barrier(s, p) < CodeEnd(s, p)
    ensures if FenceAt(s, p).Some? then s[Barrier(s, p)] == '\n' else s[p] == '`' && s[Barrier(s, p)] != '`'
  {
    if FenceAt(s, p).Some? {
      FenceEndsLine(s, p, FenceAt(s, p).value, true);
    } else {
      RunStops(s, p, '`');
      InlineEndAdvances(s, p + Run(s, p, '`'), Run(s, p, '`'));
    }
  }

  lemma ReachInCode(s: string, p: nat)
    requires p < |s| && StartsCode(s, p) && CodeEnd(s, p) < |s|
    ensures Reach(s, p) < CodeEnd(s, p)
  {
    BarrierInCode(s, p);
    if FenceAt(s, p).Some? {
      ReachStopsAtNewline(s, p, Barrier(s, p));
    } else {
      ReachStopsBehindRun(s, p, p, Barrier(s, p));
    }
  }

  lemma LocalCodeEnd(t: string, a: nat, s: string, b: nat, w: nat)
    requires b < |s| && StartsCode(s, b) && w == CodeEnd(s, b) - b && Agree(t, a, s, b, w)
    requires IsLineStart(t, a) == IsLineStart(s, b)
    requires BothEnd(t, a, s, b, w) || (b + w < |s| && (FenceAt(s, b) == None ==> Stops(t, a + w, '`')))
    ensures StartsCode(t, a) && CodeEnd(t, a) == a + w
  {
    if b + w < |s| {
      ReachInCode(s, b);
    }
    LocalFenceAt(t, a, s, b, w);
    match FenceAt(s, b)
    case Some(f) => LocalFenceEnd(t, a, s, b, w, f, true);
    case None => LocalSpanEnd(t, a, s, b, w);
  }

  lemma LocalSpanEnd(t: string, a: nat, s: string, b: nat, w: nat)
    requires b < |s| && s[b] == '`' && w == InlineEnd(s, b + Run(s, b, '`'), Run(s, b, '`')) - b && Agree(t, a, s, b, w)
    requires BothEnd(t, a, s, b, w) || (b + w < |s| && Stops(t, a + w, '`'))
    ensures InlineEnd(t, a + Run(t, a, '`'), Run(t, a, '`')) == a + w
  {
    var n := Run(s, b, '`');
    if b + w < |s| {
      InlineEndStops(s, b + n, n);
    }
    LocalRun(t, a, s, b, w, '`');
    AgreeFrom(t, a, s, b, w, n);
    LocalInlineEnd(t, a + n, s, b + n, w - n, n);
  }

  // ----- Plain text that stays plain -----

  /**
   The new text y of the plain segment x, which `code` follows: empty or not as before, ending its line or not as before,
   and plain up to the code when the two are scanned together. `bol` tells whether the segment begins a line.
   */
  predicate StaysPlain(x: string, y: string, code: string, bol: bool) {
    var lead := if bol then "" else "`";
    && (x == "" <==> y == "")
    && (x != "" ==> (x[|x| - 1] == '\n' <==> y[|y| - 1] == '\n'))
    && PlainEnd(lead + y + code, |lead|) == |lead| + |y|
  }

  lemma {:induction false} AgreeSlices(t: string, a: nat, s: string, b: nat, w: nat)
    requires a + w <= |t| && b + w <= |s| && t[a..a + w] == s[b..b + w]
    ensures Agree(t, a, s, b, w)
    decreases w
  {
    if w > 0 {
      assert t[a] == t[a..a + w][0] && s[b] == s[b..b + w][0];
      assert t[a + 1..a + w] == t[a..a + w][1..] && s[b + 1..b + w] == s[b..b + w][1..];
      AgreeSlices(t, a + 1, s, b + 1, w - 1);
    }
  }

  /** The scanner walks over the new text in the output as it does when that is scanned with its code alone. */
  lemma {:induction false} LocalPlain(t: string, a: nat, z: string, l: nat, end: nat, w: nat)
    requires Agree(t, a, z, l, w) && l + w == |z| && l <= end <= |z| && PlainEnd(z, l) == end
    requires IsLineStart(t, a) == IsLineStart(z, l)
    requires BothEnd(t, a, z, l, w) || forall i :: l <= i < end ==> Reach(z, i) < |z|
    requires var stop := a + end - l; stop == |t| || StartsCode(t, stop)
    ensures PlainEnd(t, a) == a + end - l
    decreases end - l
  {
    if l < end {
      LocalFenceAt(t, a, z, l, w);
      LocalPlain(t, a + 1, z, l + 1, end, w - 1);
    }
  }

  // ----- The output has the same code -----

  /** The code at p, "" at the end of the content. */
  function CodeAt(s: string, p: nat): string
    requires p <= |s| && (p < |s| ==> StartsCode(s, p))
  {
    if p < |s| then s[p..CodeEnd(s, p)] else ""
  }

  /** Every plain segment from i on is rewritten to text that stays plain. */
  predicate Tame(s: string, i: nat, f: string -> string)
    requires i <= |s|
    decreases |s| - i
  {
    var p := PlainEnd(s, i);
    && StaysPlain(s[i..p], f(s[i..p]), CodeAt(s, p), IsLineStart(s, i))
    && (p < |s| ==> Tame(s, CodeEnd(s, p), f))
  }

  function Mapped(segments: seq<Segment>, f: string -> string): seq<Segment> {
    if segments == [] then []
    else [if segments[0].Plain? then Plain(f(segments[0].text)) else segments[0]] + Mapped(segments[1..], f)
  }

  /** What the pass makes of the content from i on. */
  function Output(s: string, i: nat, f: string -> string): string
    requires i <= |s|
    decreases |s| - i
  {
    var p := PlainEnd(s, i);
    f(s[i..p]) + CodeAt(s, p) + if p < |s| then Output(s, CodeEnd(s, p), f) else ""
  }

  lemma {:induction false} OutputIsMapped(s: string, i: nat, f: string -> string)
    requires i <= |s|
    ensures Output(s, i, f) == Texts(Mapped(Segments(s, i), f))
    decreases |s| - i
  {
    var p := PlainEnd(s, i);
    if p < |s| {
      var e := CodeEnd(s, p);
      OutputIsMapped(s, e, f);
      MappedTwo(s[i..p], s[p..e], Segments(s, e), f);
      TwoTexts(Plain(f(s[i..p])), Code(s[p..e]), Mapped(Segments(s, e), f));
    } else {
      assert s[i..p] == s[i..];
      assert Segments(s, i)[1..] == [];
      assert Mapped(Segments(s, i), f) == [Plain(f(s[i..]))];
      assert [Plain(f(s[i..]))][1..] == [];
      assert f(s[i..]) + "" + "" == f(s[i..]) + "";
    }
  }

  lemma MappedTwo(plain: string, code: string, rest: seq<Segment>, f: string -> string)
    ensures Mapped([Plain(plain), Code(code)] + rest, f) == [Plain(f(plain)), Code(code)] + Mapped(rest, f)
  {
    var all := [Plain(plain), Code(code)] + rest;
    assert all[1..] == [Code(code)] + rest && ([Code(code)] + rest)[1..] == rest;
  }

  /** From a on, t is what the pass makes of s from i on: new plain text, the code of s, and so on. */
  predicate IsOutput(t: string, a: nat, s: string, i: nat, f: string -> string)
    requires i <= |s|
    decreases |s| - i
  {
    var p := PlainEnd(s, i);
    var y := f(s[i..p]);
    && Agree(t, a, y, 0, |y|)
    && if p == |s| then a + |y| == |t|
       else Agree(t, a + |y|, s, p, CodeEnd(s, p) - p) && IsOutput(t, a + |y| + CodeEnd(s, p) - p, s, CodeEnd(s, p), f)
  }

  // ----- Comparing pieces of text -----

  lemma {:induction false} AgreeVia(t: string, a: nat, z: string, l: nat, u: string, b: nat, w: nat)
    requires Agree(t, a, u, b, w) && Agree(z, l, u, b, w)
    ensures Agree(t, a, z, l, w)
    decreases w
  {
    if w > 0 {
      AgreeVia(t, a + 1, z, l + 1, u, b + 1, w - 1);
    }
  }

  lemma {:induction false} AgreeAppend(t: string, a: nat, z: string, l: nat, w: nat, v: nat)
    requires Agree(t, a, z, l, w) && Agree(t, a + w, z, l + w, v)
    ensures Agree(t, a, z, l, w + v)
    decreases w
  {
    if w > 0 {
      AgreeAppend(t, a + 1, z, l + 1, w - 1, v);
    }
  }

  lemma {:induction false} AgreeIsSlice(t: string, a: nat, s: string, b: nat, w: nat)
    requires Agree(t, a, s, b, w)
    ensures t[a..a + w] == s[b..b + w]
    decreases w
  {
    if w > 0 {
      AgreeIsSlice(t, a + 1, s, b + 1, w - 1);
      assert t[a..a + w] == [t[a]] + t[a + 1..a + w] && s[b..b + w] == [s[b]] + s[b + 1..b + w];
    }
  }

  lemma {:induction false} MiddleAgrees(lead: string, y: string, code: string)
    ensures Agree(lead + y + code, |lead|, y, 0, |y|)
    ensures Agree(lead + y + code, |lead| + |y|, code, 0, |code|)
  {
    hide Agree;
    PartAgrees(lead, y, code);
    assert (lead + y) + code + "" == lead + y + code;
    PartAgrees(lead + y, code, "");
  }

  lemma PartAgrees(before: string, part: string, behind: string)
    ensures Agree(before + part + behind, |before|, part, 0, |part|)
  {
    hide Agree;
    var z := before + part + behind;
    assert z[|before|..|before| + |part|] == part;
    assert part[0..|part|] == part;
    AgreeSlices(z, |before|, part, 0, |part|);
  }

  lemma SliceAgrees(s: string, p: nat, e: nat)
    requires p <= e <= |s|
    ensures Agree(s, p, s[p..e], 0, e - p)
  {
    assert s[p..e][0..e - p] == s[p..e];
    AgreeSlices(s, p, s[p..e], 0, e - p);
  }

  // ----- One segment -----

  /** z, the text that StaysPlain scans, agrees with the output. */
  lemma ScannedAgrees(z: string, l: nat, y: string, code: string, s: string, p: nat, t: string, a: nat)
    requires Agree(z, l, y, 0, |y|) && Agree(z, l + |y|, code, 0, |code|) && Agree(s, p, code, 0, |code|)
    requires Agree(t, a, y, 0, |y|) && Agree(t, a + |y|, s, p, |code|)
    ensures Agree(t, a, z, l, |y| + |code|) && Agree(z, l + |y|, s, p, |code|)
  {
    AgreeVia(t, a, z, l, y, 0, |y|);
    AgreeVia(z, l + |y|, s, p, code, 0, |code|);
    AgreeBack(z, l + |y|, s, p, |code|);
    AgreeVia(t, a + |y|, z, l + |y|, s, p, |code|);
    AgreeAppend(t, a, z, l, |y|, |code|);
  }

  lemma {:induction false} AgreeBack(t: string, a: nat, s: string, b: nat, w: nat)
    requires Agree(t, a, s, b, w)
    ensures Agree(s, b, t, a, w)
    decreases w
  {
    if w > 0 {
      AgreeBack(t, a + 1, s, b + 1, w - 1);
    }
  }

  /** Before the code with which z ends, FenceAt does not look beyond that code. */
  lemma LooksNotBeyond(s: string, p: nat, z: string, c0: nat, k: nat)
    requires p < |s| && StartsCode(s, p) && CodeEnd(s, p) < |s|
    requires k <= c0 && Agree(z, c0, s, p, CodeEnd(s, p) - p)
    ensures Reach(z, k) < |z|
  {
    BarrierInCode(s, p);
    var d := Barrier(s, p) - p;
    AgreeFrom(z, c0, s, p, CodeEnd(s, p) - p, d);
    if FenceAt(s, p).Some? {
      ReachStopsAtNewline(z, k, c0 + d);
    } else {
      ReachStopsBehindRun(z, k, c0, c0 + d);
    }
  }

  lemma PlainIsFound(s: string, p: nat, lead: string, y: string, t: string, a: nat)
    requires p < |s| && StartsCode(s, p) && a <= |t|
    requires Agree(t, a, y, 0, |y|) && Agree(t, a + |y|, s, p, CodeEnd(s, p) - p)
    requires PlainEnd(lead + y + s[p..CodeEnd(s, p)], |lead|) == |lead| + |y|
    requires IsLineStart(t, a) == IsLineStart(lead + y + s[p..CodeEnd(s, p)], |lead|)
    requires CodeEnd(s, p) == |s| ==> a + |y| + |s| - p == |t|
    requires StartsCode(t, a + |y|)
    ensures PlainEnd(t, a) == a + |y|
  {
    var e := CodeEnd(s, p);
    var z, l := lead + y + s[p..e], |lead|;
    MiddleAgrees(lead, y, s[p..e]);
    SliceAgrees(s, p, e);
    ScannedAgrees(z, l, y, s[p..e], s, p, t, a);
    if e < |s| {
      forall k | l <= k < l + |y|
        ensures Reach(z, k) < |z|
      {
        LooksNotBeyond(s, p, z, l + |y|, k);
      }
    }
    LocalPlain(t, a, z, l, l + |y|, |y| + e - p);
  }

  /** The code that follows begins a line in the output exactly if it did before. */
  lemma LineStartBehind(s: string, i: nat, p: nat, t: string, a: nat, y: string)
    requires i <= p <= |s| && Agree(t, a, y, 0, |y|) && IsLineStart(t, a) == IsLineStart(s, i)
    requires s[i..p] == "" <==> y == ""
    requires s[i..p] != "" ==> (s[i..p][p - i - 1] == '\n' <==> y[|y| - 1] == '\n')
    ensures IsLineStart(t, a + |y|) == IsLineStart(s, p)
  {
    if y != "" {
      AgreeFrom(t, a, y, 0, |y|, |y| - 1);
    }
  }

  /** The text z that StaysPlain scans begins a line, or not, as the segment does. */
  lemma LeadBeginsLine(bol: bool, rest: string)
    ensures var lead := if bol then "" else "`"; IsLineStart(lead + rest, |lead|) == bol
  {
  }

  lemma {:induction false} SegmentIsFound(s: string, i: nat, p: nat, y: string, t: string, a: nat)
    requires i <= p < |s| && a <= |t| && PlainEnd(s, i) == p && IsLineStart(t, a) == IsLineStart(s, i)
    requires StaysPlain(s[i..p], y, CodeAt(s, p), IsLineStart(s, i))
    requires Agree(t, a, y, 0, |y|) && Agree(t, a + |y|, s, p, CodeEnd(s, p) - p)
    requires Apart(s, p, t, a + |y|)
    ensures PlainEnd(t, a) == a + |y| < |t| && CodeEnd(t, a + |y|) == a + |y| + CodeEnd(s, p) - p
    ensures IsLineStart(t, CodeEnd(t, a + |y|)) == IsLineStart(s, CodeEnd(s, p))
  {
    hide PlainEnd, CodeEnd, StartsCode, Agree, FenceAt;
    var w := CodeEnd(s, p) - p;
    LineStartBehind(s, i, p, t, a, y);
    LocalCodeEnd(t, a + |y|, s, p, w);
    AgreeFrom(t, a + |y|, s, p, w, w - 1);
    LeadIsFound(s, i, p, y, t, a);
  }

  lemma LeadIsFound(s: string, i: nat, p: nat, y: string, t: string, a: nat)
    requires i <= p < |s| && a <= |t| && StartsCode(s, p) && IsLineStart(t, a) == IsLineStart(s, i)
    requires var lead := if IsLineStart(s, i) then "" else "`";
             PlainEnd(lead + y + s[p..CodeEnd(s, p)], |lead|) == |lead| + |y|
    requires Agree(t, a, y, 0, |y|) && Agree(t, a + |y|, s, p, CodeEnd(s, p) - p) && StartsCode(t, a + |y|)
    requires CodeEnd(s, p) == |s| ==> a + |y| + |s| - p == |t|
    ensures PlainEnd(t, a) == a + |y|
  {
    hide PlainEnd, CodeEnd, StartsCode, Agree, FenceAt;
    var lead := if IsLineStart(s, i) then "" else "`";
    var code := s[p..CodeEnd(s, p)];
    assert lead + y + code == lead + (y + code);
    LeadBeginsLine(IsLineStart(s, i), y + code);
    PlainIsFound(s, p, lead, y, t, a);
  }

  /** What comes behind the code in the output, which is at b, does not run into it. */
  predicate Apart(s: string, p: nat, t: string, b: nat)
    requires p < |s| && StartsCode(s, p)
  {
    var e := CodeEnd(s, p);
    if e == |s| then b + e - p == |t| else FenceAt(s, p) == None ==> Stops(t, b + e - p, '`')
  }

  lemma {:induction false} OutputIsApart(s: string, p: nat, f: string -> string, t: string, b: nat)
    requires p < |s| && StartsCode(s, p) && b + CodeEnd(s, p) - p <= |t|
    requires Tame(s, CodeEnd(s, p), f) && IsOutput(t, b + CodeEnd(s, p) - p, s, CodeEnd(s, p), f)
    ensures Apart(s, p, t, b)
  {
    hide PlainEnd, Agree, FenceAt, Tame, IsOutput;
    var e := CodeEnd(s, p);
    if e == |s| {
      EndOfOutput(s, f, t, b + e - p);
    } else if FenceAt(s, p) == None {
      InlineEndStops(s, p + Run(s, p, '`'), Run(s, p, '`'));
      FirstOfOutput(s, e, f, t, b + e - p);
    }
  }

  lemma EndOfOutput(s: string, f: string -> string, t: string, c: nat)
    requires Tame(s, |s|, f) && IsOutput(t, c, s, |s|, f)
    ensures c == |t|
  {
    assert s[|s|..|s|] == "";
  }

  /** The output begins with a backtick only if the content does. */
  lemma FirstOfOutput(s: string, e: nat, f: string -> string, t: string, c: nat)
    requires e < |s| && s[e] != '`' && Tame(s, e, f) && c <= |t| && IsOutput(t, c, s, e, f)
    ensures Stops(t, c, '`')
  {
    var q := PlainEnd(s, e);
    var y := f(s[e..q]);
    if q > e {
      assert s[e..q][0] == s[e];
      FirstStaysPlain(if IsLineStart(s, e) then "" else "`", y, CodeAt(s, q));
    } else {
      assert s[e..q] == "";
    }
  }

  lemma FirstStaysPlain(lead: string, y: string, code: string)
    requires y != "" && PlainEnd(lead + y + code, |lead|) == |lead| + |y|
    ensures y[0] != '`'
  {
    MiddleAgrees(lead, y, code);
  }

  // ----- All segments -----

  /**
   Main result: scanned again, the output of a tame pass has the segments of the content with the plain ones rewritten; in
   particular its code is the code of the content, span by span.
   */
  lemma {:induction false} RescanFindsTheSameCode(s: string, i: nat, f: string -> string, t: string, a: nat)
    requires i <= |s| && a <= |t| && Tame(s, i, f) && IsOutput(t, a, s, i, f) && IsLineStart(t, a) == IsLineStart(s, i)
    ensures Segments(t, a) == Mapped(Segments(s, i), f)
    decreases |s| - i
  {
    hide *;
    var p := PlainEnd(s, i);
    var y := f(s[i..p]);
    if p < |s| {
      FirstIsFound(s, i, f, t, a);
      RescanFindsTheSameCode(s, CodeEnd(s, p), f, t, a + |y| + CodeEnd(s, p) - p);
      RescanStep(s, i, f, t, a);
    } else {
      LastIsFound(s, i, f, t, a);
    }
  }

  lemma {:induction false} LastIsFound(s: string, i: nat, f: string -> string, t: string, a: nat)
    requires i <= |s| && a <= |t| && PlainEnd(s, i) == |s|
    requires Tame(s, i, f) && IsOutput(t, a, s, i, f) && IsLineStart(t, a) == IsLineStart(s, i)
    ensures Segments(t, a) == Mapped(Segments(s, i), f)
  {
    LastPlainIsFound(s, i, f(s[i..|s|]), t, a);
    LastSegment(s, i, f);
  }

  lemma {:induction false} FirstIsFound(s: string, i: nat, f: string -> string, t: string, a: nat)
    requires i <= |s| && a <= |t| && PlainEnd(s, i) < |s|
    requires Tame(s, i, f) && IsOutput(t, a, s, i, f) && IsLineStart(t, a) == IsLineStart(s, i)
    ensures var p, y := PlainEnd(s, i), f(s[i..PlainEnd(s, i)]);
            && PlainEnd(t, a) == a + |y| < |t| && CodeEnd(t, a + |y|) == a + |y| + CodeEnd(s, p) - p
            && Agree(t, a, y, 0, |y|) && Agree(t, a + |y|, s, p, CodeEnd(s, p) - p)
            && IsLineStart(t, CodeEnd(t, a + |y|)) == IsLineStart(s, CodeEnd(s, p))
            && Tame(s, CodeEnd(s, p), f) && IsOutput(t, a + |y| + CodeEnd(s, p) - p, s, CodeEnd(s, p), f)
  {
    hide PlainEnd, CodeEnd, StartsCode, StaysPlain, Apart, Agree;
    var y := f(s[i..PlainEnd(s, i)]);
    AgreeBounds(t, a + |y|, s, PlainEnd(s, i), CodeEnd(s, PlainEnd(s, i)) - PlainEnd(s, i));
    OutputIsApart(s, PlainEnd(s, i), f, t, a + |y|);
    SegmentIsFound(s, i, PlainEnd(s, i), y, t, a);
  }

  lemma {:induction false} RescanStep(s: string, i: nat, f: string -> string, t: string, a: nat)
    requires i <= |s| && PlainEnd(s, i) < |s| && a <= |t| && PlainEnd(t, a) < |t|
    requires var p, y := PlainEnd(s, i), f(s[i..PlainEnd(s, i)]);
             && PlainEnd(t, a) == a + |y| && CodeEnd(t, a + |y|) == a + |y| + CodeEnd(s, p) - p
             && Agree(t, a, y, 0, |y|) && Agree(t, a + |y|, s, p, CodeEnd(s, p) - p)
    requires Segments(t, CodeEnd(t, PlainEnd(t, a))) == Mapped(Segments(s, CodeEnd(s, PlainEnd(s, i))), f)
    ensures Segments(t, a) == Mapped(Segments(s, i), f)
  {
    hide *;
    var p := PlainEnd(s, i);
    var y, e := f(s[i..p]), CodeEnd(s, p);
    AgreeIsSlice(t, a, y, 0, |y|);
    AgreeIsSlice(t, a + |y|, s, p, e - p);
    assert y[0..|y|] == y;
    FirstSegments(s, i, s[i..p], s[p..e]);
    FirstSegments(t, a, y, s[p..e]);
    MappedTwo(s[i..p], s[p..e], Segments(s, e), f);
  }

  lemma FirstSegments(s: string, i: nat, plain: string, code: string)
    requires i <= |s| && PlainEnd(s, i) < |s|
    requires s[i..PlainEnd(s, i)] == plain && s[PlainEnd(s, i)..CodeEnd(s, PlainEnd(s, i))] == code
    ensures Segments(s, i) == [Plain(plain), Code(code)] + Segments(s, CodeEnd(s, PlainEnd(s, i)))
  {
  }

  lemma LastSegment(s: string, i: nat, f: string -> string)
    requires i <= |s| && PlainEnd(s, i) == |s|
    ensures Mapped(Segments(s, i), f) == [Plain(f(s[i..|s|]))]
  {
    assert s[i..|s|] == s[i..];
    assert Segments(s, i)[1..] == [];
    assert Mapped([], f) == [];
  }

  lemma {:induction false} LastPlainIsFound(s: string, i: nat, y: string, t: string, a: nat)
    requires i <= |s| && a + |y| == |t| && PlainEnd(s, i) == |s| && IsLineStart(t, a) == IsLineStart(s, i)
    requires StaysPlain(s[i..|s|], y, "", IsLineStart(s, i)) && Agree(t, a, y, 0, |y|)
    ensures PlainEnd(t, a) == |t| && t[a..] == y
  {
    var bol := IsLineStart(s, i);
    var lead := if bol then "" else "`";
    var z, l, w := lead + y + "", |lead|, |y|;
    MiddleAgrees(lead, y, "");
    AgreeVia(t, a, z, l, y, 0, w);
    assert z == lead + y;
    LeadBeginsLine(bol, y);
    LocalPlain(t, a, z, l, l + w, w);
    AgreeIsSlice(t, a, y, 0, w);
    assert t[a..a + w] == t[a..] && y[0..w] == y;
  }

  lemma {:induction false} OutputIsOutput(s: string, i: nat, f: string -> string, t: string, a: nat)
    requires i <= |s| && a <= |t| && t[a..] == Output(s, i, f)
    ensures IsOutput(t, a, s, i, f)
    decreases |s| - i
  {
    hide PlainEnd, CodeEnd, StartsCode, Agree, Output, IsOutput;
    var p := PlainEnd(s, i);
    var y, code := f(s[i..p]), CodeAt(s, p);
    OutputParts(s, i, f);
    var rest := if p < |s| then Output(s, CodeEnd(s, p), f) else "";
    SplitThree(t, a, y, code, rest);
    if p < |s| {
      AgreeSlices(t, a + |y|, s, p, |code|);
      OutputIsOutput(s, CodeEnd(s, p), f, t, a + |y| + |code|);
    }
    IsOutputOfParts(s, i, f, t, a);
  }

  lemma OutputParts(s: string, i: nat, f: string -> string)
    requires i <= |s|
    ensures var p := PlainEnd(s, i);
            Output(s, i, f) == f(s[i..p]) + CodeAt(s, p) + if p < |s| then Output(s, CodeEnd(s, p), f) else ""
  {
  }

  lemma IsOutputOfParts(s: string, i: nat, f: string -> string, t: string, a: nat)
    requires i <= |s|
    requires var p := PlainEnd(s, i);
             var y := f(s[i..p]);
             && Agree(t, a, y, 0, |y|)
             && if p == |s| then a + |y| == |t|
                else Agree(t, a + |y|, s, p, CodeEnd(s, p) - p) && IsOutput(t, a + |y| + CodeEnd(s, p) - p, s, CodeEnd(s, p), f)
    ensures IsOutput(t, a, s, i, f)
  {
  }

  lemma SplitThree(t: string, a: nat, y: string, code: string, rest: string)
    requires a <= |t| && t[a..] == y + code + rest
    ensures a + |y| + |code| <= |t| && |t| == a + |y| + |code| + |rest|
    ensures Agree(t, a, y, 0, |y|)
    ensures t[a + |y|..a + |y| + |code|] == code && t[a + |y| + |code|..] == rest
  {
    hide Agree;
    var tail := t[a..];
    assert tail[..|y|] == y && tail[|y|..|y| + |code|] == code && tail[|y| + |code|..] == rest;
    assert t[a..a + |y|] == tail[..|y|] && y[0..|y|] == y;
    assert t[a + |y|..a + |y| + |code|] == tail[|y|..|y| + |code|];
    assert t[a + |y| + |code|..] == tail[|y| + |code|..];
    AgreeSlices(t, a, y, 0, |y|);
  }

  // ----- Two passes -----

  function Both(f: string -> string, second: string -> Result<string>): string -> Result<string> {
    text => second(f(text))
  }

  lemma {:induction false} RewrittenAfterMapped(segments: seq<Segment>, f: string -> string, second: string -> Result<string>)
    ensures Rewritten(Mapped(segments, f), second) == Rewritten(segments, Both(f, second))
  {
    if segments != [] {
      RewrittenAfterMapped(segments[1..], f, second);
      assert Mapped(segments, f)[1..] == Mapped(segments[1..], f);
    }
  }

  /** The first pass succeeds on every plain segment, with these new texts. */
  predicate Succeeds(segments: seq<Segment>, first: string -> Result<string>, f: string -> string) {
    forall k :: 0 <= k < |segments| && segments[k].Plain? ==> first(segments[k].text) == Ok(f(segments[k].text))
  }

  lemma {:induction false} FirstPassIsOutput(segments: seq<Segment>, first: string -> Result<string>, f: string -> string)
    requires Succeeds(segments, first, f)
    ensures Rewritten(segments, first) == Ok(Texts(Mapped(segments, f)))
  {
    if segments != [] {
      FirstPassIsOutput(segments[1..], first, f);
      assert Mapped(segments, f)[1..] == Mapped(segments[1..], f);
    }
  }

  /**
   Main result for TransformContent: two passes, the second scanning the output of the first, do what one pass with both
   rewriters does; every code span of the page comes out byte for byte.
   */
  lemma {:induction false} TwoPassesAreOne(content: string, first: string -> Result<string>, f: string -> string, second: string -> Result<string>)
    requires Succeeds(Segments(content, 0), first, f) && Tame(content, 0, f)
    ensures var out := Output(content, 0, f);
            && Rewritten(Segments(content, 0), first) == Ok(out)
            && Rewritten(Segments(out, 0), second) == Rewritten(Segments(content, 0), Both(f, second))
  {
    var out := Output(content, 0, f);
    FirstPassIsOutput(Segments(content, 0), first, f);
    OutputIsMapped(content, 0, f);
    assert out[0..] == out;
    OutputIsOutput(content, 0, f, out, 0);
    RescanFindsTheSameCode(content, 0, f, out, 0);
    RewrittenAfterMapped(Segments(content, 0), f, second);
  }
}
