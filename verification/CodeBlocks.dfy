/**
 Where code begins and ends on a page, told by the text alone (backend/internal/importer/content_transformer.go): which
 lines open a fenced block and which close it, what ends a span of backticks, and what is plain.
 */
module CodeBlocks {
  import opened Wrappers
  import opened Text
  import opened CodeSpans
  import opened CodeRescan

  // ----- Fence lines, by their text -----

  function Repeat(c: char, n: nat): (r: string)
    ensures |r| == n && forall i :: 0 <= i < n ==> r[i] == c
  {
    seq(n, _ => c)
  }

  /** The text begins with at most three spaces and n of the mark. */
  ghost predicate Shows(text: string, mark: char, n: nat) {
    exists k: nat :: k <= 3 && Repeat(' ', k) + Repeat(mark, n) <= text
  }

  ghost predicate OpensBlock(text: string) {
    Shows(text, '`', 3) || Shows(text, '~', 3)
  }

  predicate BeginsLine(s: string, i: nat) {
    0 < i <= |s| ==> s[i - 1] == '\n'
  }

  lemma {:induction false} RunAt(s: string, i: nat, c: char, n: nat, tail: string)
    requires i <= |s| && s[i..] == Repeat(c, n) + tail && (tail == "" || tail[0] != c)
    ensures i + n <= |s| && Run(s, i, c) == n && s[i + n..] == tail
    decreases n
  {
    if n > 0 {
      assert s[i] == s[i..][0] == c;
      assert s[i + 1..] == s[i..][1..];
      assert (Repeat(c, n) + tail)[1..] == Repeat(c, n - 1) + tail;
      RunAt(s, i + 1, c, n - 1, tail);
    } else {
      assert s[i..] == tail;
      assert i < |s| ==> s[i] == tail[0];
    }
  }

  /** A run is the longest stretch of its character. */
  lemma {:induction false} RunIsLongest(s: string, i: nat, c: char, n: nat)
    requires i <= |s|
    ensures Repeat(c, n) <= s[i..] <==> n <= Run(s, i, c)
    decreases n
  {
    if n > 0 && i < |s| {
      RunIsLongest(s, i + 1, c, n - 1);
      assert s[i..] == [s[i]] + s[i + 1..];
      assert Repeat(c, n) == [c] + Repeat(c, n - 1);
    }
  }

  lemma SplitPrefix(a: string, b: string, s: string)
    ensures a + b <= s <==> a <= s && b <= s[|a|..]
  {
    if a + b <= s {
      assert s[..|a| + |b|] == a + b;
      assert s[..|a|] == a && s[|a|..][..|b|] == b;
    }
    if a <= s && b <= s[|a|..] {
      assert s[..|a|] == a && s[|a|..][..|b|] == b;
      assert s[..|a| + |b|] == a + b;
    }
  }

  /** k spaces and then n marks. */
  lemma ShowsAt(s: string, i: nat, k: nat, mark: char, n: nat)
    requires i <= |s|
    ensures Repeat(' ', k) + Repeat(mark, n) <= s[i..] <==> k <= Run(s, i, ' ') && n <= Run(s, i + k, mark)
  {
    hide Run;
    RunIsLongest(s, i, ' ', k);
    SplitPrefix(Repeat(' ', k), Repeat(mark, n), s[i..]);
    if k <= Run(s, i, ' ') {
      assert s[i..][k..] == s[i + k..];
      RunIsLongest(s, i + k, mark, n);
    }
  }

  lemma ShowsByRun(s: string, i: nat, mark: char, n: nat)
    requires i <= |s| && mark != ' ' && n > 0
    ensures Shows(s[i..], mark, n) <==> var at := i + Run(s, i, ' '); at - i <= 3 && Run(s, at, mark) >= n
  {
    hide Run, Repeat;
    var spaces := Run(s, i, ' ');
    ShowsAt(s, i, spaces, mark, n);
    if Shows(s[i..], mark, n) {
      var k: nat :| k <= 3 && Repeat(' ', k) + Repeat(mark, n) <= s[i..];
      ShowsAt(s, i, k, mark, n);
      MarkIsNoSpace(s, i, mark, k);
    }
  }

  lemma {:induction false} MarkIsNoSpace(s: string, i: nat, mark: char, k: nat)
    requires i <= |s| && mark != ' ' && k <= Run(s, i, ' ') && Run(s, i + k, mark) > 0
    ensures k == Run(s, i, ' ')
    decreases k
  {
    if k > 0 {
      MarkIsNoSpace(s, i + 1, mark, k - 1);
    }
  }

  lemma FenceByText(s: string, i: nat)
    requires i < |s|
    ensures FenceAt(s, i).Some? <==> BeginsLine(s, i) && OpensBlock(s[i..])
  {
    ShowsByRun(s, i, '`', 3);
    ShowsByRun(s, i, '~', 3);
    var at := i + Run(s, i, ' ');
    assert at < |s| && s[at] != '`' ==> Run(s, at, '`') == 0;
    assert at < |s| && s[at] != '~' ==> Run(s, at, '~') == 0;
  }

  lemma ClosesByText(s: string, i: nat, f: Fence)
    requires i <= |s| && f.mark !in {' ', '\n'} && f.len > 0
    ensures Closes(s, i, f) <==> Shows(s[i..], f.mark, f.len)
  {
    ShowsByRun(s, i, f.mark, f.len);
    RunOnLine(s, i, ' ');
    RunOnLine(s, i + Run(s, i, ' '), f.mark);
  }

  lemma PrefixOnLine(p: string, line: string, tail: string)
    requires p <= line + tail && (tail == "" || tail[0] == '\n') && forall j :: 0 <= j < |p| ==> p[j] != '\n'
    ensures p <= line
  {
    assert tail != "" ==> (line + tail)[|line|] == '\n';
    assert |p| <= |line|;
  }

  /** Only the line counts. */
  lemma ShowsOnLine(line: string, tail: string, mark: char, n: nat)
    requires mark != '\n' && (tail == "" || tail[0] == '\n')
    ensures Shows(line + tail, mark, n) <==> Shows(line, mark, n)
  {
    if Shows(line + tail, mark, n) {
      var k: nat :| k <= 3 && Repeat(' ', k) + Repeat(mark, n) <= line + tail;
      PrefixOnLine(Repeat(' ', k) + Repeat(mark, n), line, tail);
    }
    if Shows(line, mark, n) {
      var k: nat :| k <= 3 && Repeat(' ', k) + Repeat(mark, n) <= line;
      assert Repeat(' ', k) + Repeat(mark, n) <= line + tail;
    }
  }

  // ----- Fenced blocks -----

  lemma Peel(s: string, i: nat, a: string, b: string)
    requires i <= |s| && s[i..] == a + b
    ensures i + |a| <= |s| && s[i + |a|..] == b && s[i..i + |a|] == a
  {
    assert s[i + |a|..] == s[i..][|a|..];
    assert s[i..i + |a|] == s[i..][..|a|];
  }

  /** Each line with its newline. */
  function Lines(lines: seq<string>): string {
    if lines == [] then "" else lines[0] + "\n" + Lines(lines[1..])
  }

  /** A line that the block of n marks goes on behind. */
  ghost predicate StaysInside(line: string, mark: char, n: nat) {
    '\n' !in line && !Shows(line, mark, n)
  }

  lemma {:induction false} LineEndAt(s: string, i: nat, line: string, tail: string)
    requires i <= |s| && s[i..] == line + tail && '\n' !in line && (tail == "" || tail[0] == '\n')
    ensures i + |line| <= |s| && LineEnd(s, i) == i + |line| && s[i + |line|..] == tail
    decreases |line|
  {
    if line != "" {
      assert s[i] == s[i..][0] == line[0];
      assert line[0] in line;
      assert s[i + 1..] == s[i..][1..] == line[1..] + tail;
      LineEndAt(s, i + 1, line[1..], tail);
    } else {
      assert s[i..] == tail;
      assert i < |s| ==> s[i] == tail[0];
    }
  }

  lemma LineGoesOn(s: string, i: nat, f: Fence, line: string, behind: string)
    requires i <= |s| && f.mark !in {' ', '\n'} && f.len > 0
    requires s[i..] == line + "\n" + behind && StaysInside(line, f.mark, f.len)
    ensures var next := i + |line| + 1;
            next <= |s| && s[next..] == behind && FenceEnd(s, i, f, false) == FenceEnd(s, next, f, false)
  {
    hide Shows, Closes, LineEnd;
    Assoc(line, "\n", behind);
    LineEndAt(s, i, line, "\n" + behind);
    ClosesByText(s, i, f);
    ShowsOnLine(line, "\n" + behind, f.mark, f.len);
    Peel(s, i + |line|, "\n", behind);
  }

  lemma LinesMore(lines: seq<string>, behind: string)
    requires lines != []
    ensures Lines(lines) + behind == lines[0] + "\n" + (Lines(lines[1..]) + behind)
    ensures |Lines(lines)| == |lines[0]| + 1 + |Lines(lines[1..])|
  {
    Assoc(lines[0] + "\n", Lines(lines[1..]), behind);
  }

  lemma {:induction false} BlockGoesOn(s: string, i: nat, f: Fence, body: seq<string>, behind: string)
    requires i <= |s| && f.mark !in {' ', '\n'} && f.len > 0
    requires s[i..] == Lines(body) + behind && forall line :: line in body ==> StaysInside(line, f.mark, f.len)
    ensures var next := i + |Lines(body)|;
            next <= |s| && s[next..] == behind && FenceEnd(s, i, f, false) == FenceEnd(s, next, f, false)
    decreases |body|
  {
    hide StaysInside, FenceEnd;
    if body == [] {
      Peel(s, i, "", behind);
    } else {
      LinesMore(body, behind);
      assert body[0] in body;
      hide Lines;
      LineGoesOn(s, i, f, body[0], Lines(body[1..]) + behind);
      BlockGoesOn(s, i + |body[0]| + 1, f, body[1..], behind);
    }
  }

  lemma ClosingLineEnds(s: string, i: nat, f: Fence, closing: string, tail: string)
    requires i <= |s| && f.mark !in {' ', '\n'} && f.len > 0
    requires s[i..] == closing + tail && '\n' !in closing && (tail == "" || tail[0] == '\n') && Shows(closing, f.mark, f.len)
    ensures FenceEnd(s, i, f, false) == i + |closing| + (if tail == "" then 0 else 1)
  {
    LineEndAt(s, i, closing, tail);
    ClosesByText(s, i, f);
    ShowsOnLine(closing, tail, f.mark, f.len);
  }

  lemma LastLineRuns(s: string, i: nat, f: Fence, last: string)
    requires i <= |s| && f.mark !in {' ', '\n'} && f.len > 0 && s[i..] == last && StaysInside(last, f.mark, f.len)
    ensures FenceEnd(s, i, f, false) == |s|
  {
    assert s[i..] == last + "";
    LineEndAt(s, i, last, "");
    ClosesByText(s, i, f);
  }

  /** The opening line of a block: at most three spaces, at least three equal marks, and what follows them. */
  predicate IsOpening(k: nat, mark: char, n: nat, info: string) {
    k <= 3 && mark in {'`', '~'} && n >= 3 && '\n' !in info && (info == "" || info[0] != mark)
  }

  function Opening(k: nat, mark: char, n: nat, info: string): string {
    Repeat(' ', k) + Repeat(mark, n) + info
  }

  lemma OpeningText(k: nat, mark: char, n: nat, info: string, tail: string)
    requires IsOpening(k, mark, n, info)
    ensures Opening(k, mark, n, info) + tail == Repeat(' ', k) + (Repeat(mark, n) + (info + tail))
    ensures (Repeat(mark, n) + (info + tail))[0] == mark
  {
    Assoc(Repeat(' ', k) + Repeat(mark, n), info, tail);
    Assoc(Repeat(' ', k), Repeat(mark, n), info + tail);
  }

  lemma OpeningIsLine(k: nat, mark: char, n: nat, info: string)
    requires IsOpening(k, mark, n, info)
    ensures '\n' !in Opening(k, mark, n, info)
  {
  }

  lemma OpeningFence(s: string, p: nat, k: nat, mark: char, n: nat, info: string, tail: string)
    requires p <= |s| && BeginsLine(s, p) && IsOpening(k, mark, n, info)
    requires s[p..] == Opening(k, mark, n, info) + tail && (tail == "" || tail[0] == '\n')
    ensures p < |s| && FenceAt(s, p) == Some(Fence(n, mark))
    ensures var end := p + |Opening(k, mark, n, info)|; end <= |s| && LineEnd(s, p) == end && s[end..] == tail
  {
    hide Run, LineEnd;
    OpeningText(k, mark, n, info, tail);
    RunAt(s, p, ' ', k, Repeat(mark, n) + (info + tail));
    assert s[p + k] == s[p + k..][0] == mark;
    RunAt(s, p + k, mark, n, info + tail);
    OpeningIsLine(k, mark, n, info);
    LineEndAt(s, p, Opening(k, mark, n, info), tail);
  }

  // ----- Plain text -----

  /** From i up to p there is no backtick, and no line that opens a block begins. */
  ghost predicate PlainThere(s: string, i: nat, p: nat) {
    i <= p <= |s| && forall j :: i <= j < p ==> s[j] != '`' && !(BeginsLine(s, j) && OpensBlock(s[j..]))
  }

  ghost predicate CodeThere(s: string, p: nat) {
    p < |s| && (s[p] == '`' || (BeginsLine(s, p) && OpensBlock(s[p..])))
  }

  lemma CodeByText(s: string, p: nat)
    requires p < |s|
    ensures StartsCode(s, p) <==> CodeThere(s, p)
  {
    FenceByText(s, p);
  }

  lemma {:induction false} PlainUpTo(s: string, i: nat, p: nat)
    requires PlainThere(s, i, p) && (p == |s| || CodeThere(s, p))
    ensures PlainEnd(s, i) == p
    decreases p - i
  {
    hide StartsCode, OpensBlock, BeginsLine;
    if i < |s| {
      CodeByText(s, i);
    }
    if i < p {
      PlainUpTo(s, i + 1, p);
    }
  }

  lemma {:induction false} CodeSegment(s: string, i: nat, p: nat, code: string, rest: string)
    requires PlainThere(s, i, p) && CodeThere(s, p) && s[p..] == code + rest
    requires StartsCode(s, p) && CodeEnd(s, p) == p + |code|
    ensures p + |code| <= |s| && Segments(s, i) == [Plain(s[i..p]), Code(code)] + Segments(s, p + |code|)
  {
    hide StartsCode, OpensBlock, BeginsLine, CodeEnd;
    PlainUpTo(s, i, p);
    assert s[p..p + |code|] == s[p..][..|code|] == code;
  }

  // ----- What the segments are -----

  lemma BlockText(open: string, lines: string, closing: string, newline: string, rest: string)
    ensures open + "\n" + lines + closing + newline + rest == open + "\n" + (lines + (closing + (newline + rest)))
  {
    Assoc(open + "\n" + lines + closing, newline, rest);
    Assoc(open + "\n" + lines, closing, newline + rest);
    Assoc(open + "\n", lines, closing + (newline + rest));
  }

  lemma Unlined(s: string)
    ensures s == s + ""
  {
  }

  lemma MarkIsMark(k: nat, mark: char, n: nat, info: string)
    requires IsOpening(k, mark, n, info)
    ensures mark !in {' ', '\n'} && n > 0
  {
  }

  /** Behind its opening line a block goes on. */
  lemma BlockBegins(s: string, p: nat, k: nat, mark: char, n: nat, info: string, behind: string)
    requires p <= |s| && BeginsLine(s, p) && IsOpening(k, mark, n, info)
    requires s[p..] == Opening(k, mark, n, info) + "\n" + behind
    ensures CodeThere(s, p) && StartsCode(s, p)
    ensures var first := p + |Opening(k, mark, n, info)| + 1;
            first <= |s| && s[first..] == behind && CodeEnd(s, p) == FenceEnd(s, first, Fence(n, mark), false)
  {
    hide Opening, IsOpening, OpensBlock;
    var open := Opening(k, mark, n, info);
    Assoc(open, "\n", behind);
    OpeningFence(s, p, k, mark, n, info, "\n" + behind);
    CodeByText(s, p);
    Peel(s, p + |open|, "\n", behind);
  }

  lemma OpeningRuns(s: string, p: nat, f: Fence)
    requires p < |s| && FenceAt(s, p) == Some(f) && LineEnd(s, p) == |s|
    ensures CodeThere(s, p) && StartsCode(s, p) && CodeEnd(s, p) == |s|
  {
    CodeByText(s, p);
  }

  /** Text without backticks and without lines that open a block is one plain segment. */
  lemma {:induction false} PlainTextIsPlain(s: string, i: nat)
    requires PlainThere(s, i, |s|)
    ensures Segments(s, i) == [Plain(s[i..])]
  {
    PlainUpTo(s, i, |s|);
  }

  /**
   A fenced block is its opening line, the lines none of which shows at most three spaces and as many marks, and the line
   that does, with its newline if it has one.
   */
  lemma {:induction false} BlockIsCode(s: string, i: nat, p: nat, k: nat, mark: char, n: nat, info: string,
                                       body: seq<string>, closing: string, newline: string, rest: string)
    requires p <= |s| && PlainThere(s, i, p) && BeginsLine(s, p) && IsOpening(k, mark, n, info)
    requires forall line :: line in body ==> StaysInside(line, mark, n)
    requires '\n' !in closing && Shows(closing, mark, n) && (newline == "\n" || (newline == "" && rest == ""))
    requires s[p..] == Opening(k, mark, n, info) + "\n" + Lines(body) + closing + newline + rest
    ensures var block := Opening(k, mark, n, info) + "\n" + Lines(body) + closing + newline;
            p + |block| <= |s| && Segments(s, i) == [Plain(s[i..p]), Code(block)] + Segments(s, p + |block|)
  {
    hide Opening, Lines, IsOpening, FenceEnd, PlainThere, OpensBlock, Shows, StaysInside, Segments;
    var f := Fence(n, mark);
    var open := Opening(k, mark, n, info);
    var behind := Lines(body) + (closing + (newline + rest));
    BlockText(open, Lines(body), closing, newline, rest);
    BlockBegins(s, p, k, mark, n, info, behind);
    var first := p + |open| + 1;
    MarkIsMark(k, mark, n, info);
    BlockGoesOn(s, first, f, body, closing + (newline + rest));
    ClosingLineEnds(s, first + |Lines(body)|, f, closing, newline + rest);
    var block := open + "\n" + Lines(body) + closing + newline;
    CodeSegment(s, i, p, block, rest);
  }

  lemma NothingBehind(s: string)
    ensures Segments(s, |s|) == [Plain("")]
  {
    assert s[|s|..] == "";
  }

  lemma {:induction false} LastCode(s: string, i: nat, p: nat)
    requires p <= |s| && PlainThere(s, i, p) && CodeThere(s, p) && StartsCode(s, p) && CodeEnd(s, p) == |s|
    ensures Segments(s, i) == [Plain(s[i..p]), Code(s[p..]), Plain("")]
  {
    hide PlainThere, CodeThere, StartsCode, CodeEnd, Segments;
    Unlined(s[p..]);
    CodeSegment(s, i, p, s[p..], "");
    NothingBehind(s);
  }

  /** A block without such a line goes on to the end of the content. */
  lemma {:induction false} OpenBlockIsCode(s: string, i: nat, p: nat, k: nat, mark: char, n: nat, info: string,
                                           body: seq<string>, last: string)
    requires p <= |s| && PlainThere(s, i, p) && BeginsLine(s, p) && IsOpening(k, mark, n, info)
    requires (forall line :: line in body ==> StaysInside(line, mark, n)) && StaysInside(last, mark, n)
    requires s[p..] == Opening(k, mark, n, info) + "\n" + Lines(body) + last || s[p..] == Opening(k, mark, n, info)
    ensures Segments(s, i) == [Plain(s[i..p]), Code(s[p..]), Plain("")]
  {
    hide Opening, Lines, IsOpening, FenceEnd, PlainThere, OpensBlock, Shows, StaysInside, Segments;
    var f := Fence(n, mark);
    var open := Opening(k, mark, n, info);
    if s[p..] == open {
      Unlined(open);
      OpeningFence(s, p, k, mark, n, info, "");
      OpeningRuns(s, p, f);
    } else {
      Assoc(open + "\n", Lines(body), last);
      BlockBegins(s, p, k, mark, n, info, Lines(body) + last);
      MarkIsMark(k, mark, n, info);
      BlockGoesOn(s, p + |open| + 1, f, body, last);
      LastLineRuns(s, p + |open| + 1 + |Lines(body)|, f, last);
    }
    LastCode(s, i, p);
  }

  // ----- Spans of backticks -----

  /** No n backticks stand next to each other. */
  predicate Lacks(text: string, n: nat) {
    forall j :: 0 <= j <= |text| ==> !(Repeat('`', n) <= text[j..])
  }

  lemma SkipOne(s: string, q: nat, n: nat)
    requires q < |s| && n > 0 && Run(s, q, '`') != n
    ensures InlineEnd(s, q, n) == InlineEnd(s, q + 1, n)
  {
  }

  lemma TicksInside(inner: string, behind: string, n: nat)
    requires inner != "" && (behind == "" || inner[|inner| - 1] != '`')
    ensures Repeat('`', n) <= inner + behind ==> Repeat('`', n) <= inner
  {
    var t := Repeat('`', n);
    assert forall j :: 0 <= j < |inner| ==> (inner + behind)[j] == inner[j];
    if t <= inner + behind {
      assert behind == "" ==> inner + behind == inner;
      assert |inner| <= n ==> t[|inner| - 1] == inner[|inner| - 1];
    }
  }

  lemma LacksHere(inner: string, behind: string, n: nat)
    requires n > 0 && inner != "" && Lacks(inner, n) && (behind == "" || inner[|inner| - 1] != '`')
    ensures !(Repeat('`', n) <= inner + behind)
  {
    assert inner[0..] == inner;
    TicksInside(inner, behind, n);
  }

  lemma LacksMore(inner: string, n: nat)
    requires inner != "" && Lacks(inner, n)
    ensures Lacks(inner[1..], n)
  {
    forall j | 0 <= j <= |inner| - 1
      ensures !(Repeat('`', n) <= inner[1..][j..])
    {
      assert inner[1..][j..] == inner[j + 1..];
    }
  }

  lemma {:induction false} SpanGoesOn(s: string, q: nat, n: nat, inner: string, behind: string)
    requires q <= |s| && n > 0 && s[q..] == inner + behind && Lacks(inner, n)
    requires inner == "" || behind == "" || inner[|inner| - 1] != '`'
    ensures var next := q + |inner|; next <= |s| && s[next..] == behind && InlineEnd(s, q, n) == InlineEnd(s, next, n)
    decreases |inner|
  {
    hide Lacks, InlineEnd, Run;
    if inner == "" {
      Peel(s, q, "", behind);
    } else {
      LacksHere(inner, behind, n);
      RunIsLongest(s, q, '`', n);
      SkipOne(s, q, n);
      LacksMore(inner, n);
      Assoc(inner[..1], inner[1..], behind);
      assert inner == inner[..1] + inner[1..];
      Peel(s, q, inner[..1], inner[1..] + behind);
      SpanGoesOn(s, q + 1, n, inner[1..], behind);
    }
  }

  /** A run of at least n backticks ends the span of n, behind the whole run. */
  lemma {:induction false} TicksClose(s: string, q: nat, n: nat, m: nat, tail: string)
    requires q <= |s| && 0 < n <= m && s[q..] == Repeat('`', m) + tail && (tail == "" || tail[0] != '`')
    ensures InlineEnd(s, q, n) == q + m
    decreases m
  {
    RunAt(s, q, '`', m, tail);
    if m > n {
      SkipOne(s, q, n);
      assert Repeat('`', m) == ['`'] + Repeat('`', m - 1);
      Assoc(['`'], Repeat('`', m - 1), tail);
      Peel(s, q, ['`'], Repeat('`', m - 1) + tail);
      TicksClose(s, q + 1, n, m - 1, tail);
    }
  }

  /** n backticks that open no block start a span. */
  lemma TicksOpen(s: string, p: nat, n: nat, behind: string)
    requires p <= |s| && n > 0 && (!BeginsLine(s, p) || n < 3)
    requires s[p..] == Repeat('`', n) + behind && (behind == "" || behind[0] != '`')
    ensures CodeThere(s, p) && StartsCode(s, p)
    ensures p + n <= |s| && s[p + n..] == behind && CodeEnd(s, p) == InlineEnd(s, p + n, n)
  {
    RunAt(s, p, '`', n, behind);
    assert s[p] == s[p..][0] == '`';
    ShowsByRun(s, p, '`', 3);
    ShowsByRun(s, p, '~', 3);
    FenceByText(s, p);
  }

  /**
   A span of n backticks ends behind the next run of n backticks or more: a longer run is searched again from its second
   backtick on.
   */
  lemma {:induction false} SpanIsCode(s: string, i: nat, p: nat, n: nat, inner: string, m: nat, rest: string)
    requires PlainThere(s, i, p) && p <= |s| && 0 < n <= m && (!BeginsLine(s, p) || n < 3)
    requires inner != "" && inner[0] != '`' && inner[|inner| - 1] != '`' && Lacks(inner, n) && (rest == "" || rest[0] != '`')
    requires s[p..] == Repeat('`', n) + inner + Repeat('`', m) + rest
    ensures var span := Repeat('`', n) + inner + Repeat('`', m);
            p + |span| <= |s| && Segments(s, i) == [Plain(s[i..p]), Code(span)] + Segments(s, p + |span|)
  {
    hide PlainThere, Lacks, BeginsLine, Segments, InlineEnd, CodeThere;
    var behind := Repeat('`', m) + rest;
    Assoc(Repeat('`', n) + inner, Repeat('`', m), rest);
    Assoc(Repeat('`', n), inner, behind);
    TicksOpen(s, p, n, inner + behind);
    SpanGoesOn(s, p + n, n, inner, behind);
    TicksClose(s, p + n + |inner|, n, m, rest);
    CodeSegment(s, i, p, Repeat('`', n) + inner + Repeat('`', m), rest);
  }

  /** Without such a run it goes on to the end of the content. */
  lemma {:induction false} OpenSpanIsCode(s: string, i: nat, p: nat, n: nat, inner: string)
    requires PlainThere(s, i, p) && p <= |s| && n > 0 && (!BeginsLine(s, p) || n < 3)
    requires (inner == "" || inner[0] != '`') && Lacks(inner, n) && s[p..] == Repeat('`', n) + inner
    ensures Segments(s, i) == [Plain(s[i..p]), Code(s[p..]), Plain("")]
  {
    hide PlainThere, Lacks, BeginsLine, Segments, CodeThere, StartsCode, CodeEnd;
    TicksOpen(s, p, n, inner);
    Unlined(inner);
    SpanGoesOn(s, p + n, n, inner, "");
    LastCode(s, i, p);
  }

  /** Here stand n backticks, not more and not fewer. */
  predicate IsRun(s: string, k: nat, n: nat) {
    && k + n <= |s| && s[k..k + n] == Repeat('`', n)
    && (k > 0 ==> s[k - 1] != '`') && (k + n < |s| ==> s[k + n] != '`')
  }

  /** The end behind the first run of exactly n backticks from `from` on, or the end of the content without one. */
  ghost predicate IsExactEnd(s: string, from: nat, n: nat, end: nat) {
    || (end == |s| && forall j: nat :: from <= j ==> !IsRun(s, j, n))
    || (exists k: nat :: from <= k && IsRun(s, k, n) && end == k + n && forall j: nat :: from <= j < k ==> !IsRun(s, j, n))
  }

  predicate At(s: string, i: nat, text: string) {
    i <= |s| && s[i..] == text
  }

  lemma RunIsText(s: string, from: nat, n: nat, inner: string, behind: string, j: nat)
    requires At(s, from, inner + behind) && n > 0 && inner != "" && inner[|inner| - 1] != '`'
    requires from <= j < from + |inner| && j + n <= |s| && s[j..j + n] == Repeat('`', n)
    ensures Repeat('`', n) <= inner[j - from..]
  {
    var i, last := j - from, |inner| - 1;
    assert forall k :: 0 <= k < |inner| ==> s[from + k] == s[from..][k] == inner[k];
    assert forall k :: j <= k < j + n ==> s[k] == s[j..j + n][k - j] == '`';
    assert i + n <= |inner|;
    assert inner[i..][..n] == s[j..j + n];
  }

  lemma NoRunInside(s: string, from: nat, n: nat, inner: string, behind: string, j: nat)
    requires At(s, from, inner + behind) && n > 0 && inner != "" && inner[|inner| - 1] != '`' && Lacks(inner, n)
    requires from <= j < from + |inner|
    ensures !IsRun(s, j, n)
  {
    if j + n <= |s| && s[j..j + n] == Repeat('`', n) {
      RunIsText(s, from, n, inner, behind, j);
    }
  }

  /** A run of m backticks between other characters is no run of n, and no run of n begins in it. */
  lemma RunsInRun(s: string, q: nat, n: nat, m: nat, rest: string)
    requires At(s, q, Repeat('`', m) + rest) && 0 < n <= m && q > 0 && s[q - 1] != '`' && (rest == "" || rest[0] != '`')
    ensures IsRun(s, q, n) <==> n == m
    ensures forall j: nat :: q < j < q + m ==> !IsRun(s, j, n)
  {
    var ticks := Repeat('`', m);
    assert forall i :: q <= i < q + m ==> s[i] == s[q..][i - q] == ticks[i - q];
    assert s[q + m..] == s[q..][m..] == rest;
    assert rest != "" ==> s[q + m] == rest[0];
    assert s[q..q + n] == Repeat('`', n);
  }

  /**
   Exactly when a span ends where the rule that asks for a run of the same length has it: if the next run of n backticks or
   more has n, or is the end of the content.
   */
  lemma {:induction false} SpanEndsExactly(s: string, p: nat, n: nat, inner: string, m: nat, rest: string, end: nat)
    requires p <= |s| && 0 < n <= m && (!BeginsLine(s, p) || n < 3)
    requires inner != "" && inner[0] != '`' && inner[|inner| - 1] != '`' && Lacks(inner, n) && (rest == "" || rest[0] != '`')
    requires s[p..] == Repeat('`', n) + inner + Repeat('`', m) + rest && IsExactEnd(s, p + n, n, end)
    ensures p < |s| && StartsCode(s, p) && (CodeEnd(s, p) == end <==> m == n || rest == "")
  {
    hide Lacks, BeginsLine, InlineEnd, CodeThere, StartsCode, CodeEnd, IsRun;
    var behind := Repeat('`', m) + rest;
    Assoc(Repeat('`', n) + inner, Repeat('`', m), rest);
    Assoc(Repeat('`', n), inner, behind);
    TicksOpen(s, p, n, inner + behind);
    SpanGoesOn(s, p + n, n, inner, behind);
    var q := p + n + |inner|;
    TicksClose(s, q, n, m, rest);
    forall j: nat | p + n <= j < q
      ensures !IsRun(s, j, n)
    {
      NoRunInside(s, p + n, n, inner, behind, j);
    }
    assert s[q - 1] == s[p + n..][|inner| - 1];
    RunsInRun(s, q, n, m, rest);
    assert |s| == q + m + |rest|;
    RunsAreInside(s, n);
  }

  lemma RunsAreInside(s: string, n: nat)
    ensures forall j: nat :: IsRun(s, j, n) ==> j + n <= |s|
  {
  }

  /** So the next run need not be as long as the first: a single backtick closed by two. */
  lemma LongRunCloses()
    ensures Segments("`a``b", 0) == [Plain(""), Code("`a``"), Plain("b")]
  {
    hide *;
    OneTick();
    LongRunText();
    SpanIsCode("`a``b", 0, 0, 1, "a", 2, "b");
    PlainTextIsPlain("`a``b", 4);
    TwoThenOne(Plain(""), Code("`a``"), Plain("b"));
  }

  lemma TwoThenOne(a: Segment, b: Segment, c: Segment)
    ensures [a, b] + [c] == [a, b, c]
  {
  }

  lemma LongRunText()
    ensures var s := "`a``b"; s[0..] == "`" + "a" + "``" + "b" && "`" + "a" + "``" == "`a``" && s[0..0] == "" && s[4..] == "b"
    ensures PlainThere("`a``b", 0, 0) && PlainThere("`a``b", 4, 5)
  {
    hide OpensBlock;
  }

  lemma OneTick()
    ensures Repeat('`', 1) == "`" && Repeat('`', 2) == "``" && Lacks("a", 1)
  {
    forall j | 0 <= j <= 1
      ensures !(Repeat('`', 1) <= "a"[j..])
    {
      assert j == 0 ==> "a"[j..][0] == 'a';
    }
  }

  // ----- A text behind a newline is cut as if it stood alone -----

  lemma {:induction false} SamePlain(t: string, a: nat, s: string, b: nat, w: nat)
    requires Agree(t, a, s, b, w) && BothEnd(t, a, s, b, w) && IsLineStart(t, a) == IsLineStart(s, b)
    ensures PlainEnd(t, a) - a == PlainEnd(s, b) - b
    ensures IsLineStart(t, PlainEnd(t, a)) == IsLineStart(s, PlainEnd(s, b))
    decreases w
  {
    if w > 0 {
      hide FenceAt;
      LocalFenceAt(t, a, s, b, w);
      if !StartsCode(s, b) {
        SamePlain(t, a + 1, s, b + 1, w - 1);
      }
    }
  }

  lemma SameSlice(t: string, a: nat, s: string, b: nat, w: nat, k: nat)
    requires Agree(t, a, s, b, w) && k <= w
    ensures a + w <= |t| && b + w <= |s| && t[a..a + k] == s[b..b + k] && Agree(t, a, s, b, k)
  {
    AgreeBounds(t, a, s, b, w);
    AgreeIsSlice(t, a, s, b, w);
    assert t[a..a + k] == t[a..a + w][..k] && s[b..b + k] == s[b..b + w][..k];
    AgreeSlices(t, a, s, b, k);
  }

  lemma SameCode(t: string, a: nat, s: string, b: nat, w: nat)
    requires w > 0 && Agree(t, a, s, b, w) && BothEnd(t, a, s, b, w) && IsLineStart(t, a) == IsLineStart(s, b)
    requires StartsCode(s, b)
    ensures StartsCode(t, a) && CodeEnd(t, a) - a == CodeEnd(s, b) - b
    ensures IsLineStart(t, CodeEnd(t, a)) == IsLineStart(s, CodeEnd(s, b))
  {
    hide Agree;
    var k := CodeEnd(s, b) - b;
    SameSlice(t, a, s, b, w, k);
    AgreeFrom(t, a, s, b, w, k);
    AgreeFrom(t, a, s, b, w, k - 1);
    if k < w && FenceAt(s, b) == None {
      InlineEndStops(s, b + Run(s, b, '`'), Run(s, b, '`'));
    }
    LocalCodeEnd(t, a, s, b, k);
  }

  lemma {:induction false} SameSegments(t: string, a: nat, s: string, b: nat, w: nat)
    requires Agree(t, a, s, b, w) && BothEnd(t, a, s, b, w) && IsLineStart(t, a) == IsLineStart(s, b)
    ensures Segments(t, a) == Segments(s, b)
    decreases w
  {
    hide StartsCode, CodeEnd, Agree, PlainEnd, IsLineStart, Segments;
    var p := PlainEnd(s, b) - b;
    SamePlain(t, a, s, b, w);
    SameSlice(t, a, s, b, w, p);
    if p < w {
      AgreeFrom(t, a, s, b, w, p);
      SameCode(t, a + p, s, b + p, w - p);
      var e := CodeEnd(s, b + p) - b;
      SameSlice(t, a + p, s, b + p, w - p, e - p);
      AgreeFrom(t, a, s, b, w, e);
      SameSegments(t, a + e, s, b + e, w - e);
      FirstTwo(t, a, t[a..a + p], t[a + p..a + e]);
      FirstTwo(s, b, s[b..b + p], s[b + p..b + e]);
    } else {
      LastOne(t, a);
      LastOne(s, b);
    }
  }

  lemma FirstTwo(s: string, i: nat, plain: string, code: string)
    requires i <= |s| && PlainEnd(s, i) < |s|
    requires var p := PlainEnd(s, i); plain == s[i..p] && code == s[p..CodeEnd(s, p)]
    ensures Segments(s, i) == [Plain(plain), Code(code)] + Segments(s, i + |plain| + |code|)
  {
  }

  lemma LastOne(s: string, i: nat)
    requires i <= |s| && PlainEnd(s, i) == |s|
    ensures Segments(s, i) == [Plain(s[i..|s|])]
  {
    assert s[i..|s|] == s[i..];
  }

  lemma BehindNewline(before: string, rest: string)
    requires before == "" || before[|before| - 1] == '\n'
    ensures (before + rest)[|before|..] == rest && Segments(before + rest, |before|) == Segments(rest, 0)
  {
    var t := before + rest;
    assert t[|before|..|before| + |rest|] == rest == rest[0..|rest|];
    AgreeSlices(t, |before|, rest, 0, |rest|);
    assert before != "" ==> t[|before| - 1] == before[|before| - 1];
    SameSegments(t, |before|, rest, 0, |rest|);
  }

  // ----- A page with a fenced block -----

  lemma ShowsMore(x: string, tail: string, mark: char, n: nat)
    requires x != "" && x[|x| - 1] == '\n' && mark != '\n' && Shows(x + tail, mark, n)
    ensures Shows(x, mark, n)
  {
    var k: nat :| k <= 3 && Repeat(' ', k) + Repeat(mark, n) <= x + tail;
    assert x == x[..|x| - 1] + "\n";
    Assoc(x[..|x| - 1], "\n", tail);
    PrefixOnLine(Repeat(' ', k) + Repeat(mark, n), x[..|x| - 1], "\n" + tail);
  }

  /** Whole lines without code stay so in front of any text. */
  lemma PlainExtends(plain: string, tail: string)
    requires PlainThere(plain, 0, |plain|) && BeginsLine(plain, |plain|)
    ensures PlainThere(plain + tail, 0, |plain|) && BeginsLine(plain + tail, |plain|)
  {
    var s := plain + tail;
    forall j | 0 <= j < |plain|
      ensures s[j] != '`' && !(BeginsLine(s, j) && OpensBlock(s[j..]))
    {
      assert s[j] == plain[j] && (j > 0 ==> s[j - 1] == plain[j - 1]);
      assert BeginsLine(s, j) == BeginsLine(plain, j);
      var x := plain[j..];
      assert s[j..] == x + tail;
      if Shows(x + tail, '`', 3) {
        ShowsMore(x, tail, '`', 3);
      }
      if Shows(x + tail, '~', 3) {
        ShowsMore(x, tail, '~', 3);
      }
    }
    assert plain != "" ==> s[|plain| - 1] == plain[|plain| - 1];
  }

  /**
   Plain text, a fenced block and the rest of the page: the plain text is rewritten, the block is kept as it is, and the
   rest is treated as a page of its own.
   */
  lemma {:induction false} PageWithBlock(plain: string, k: nat, mark: char, n: nat, info: string, body: seq<string>,
                                         closing: string, rest: string, rewrite: string -> Result<string>)
    requires PlainThere(plain, 0, |plain|) && BeginsLine(plain, |plain|) && IsOpening(k, mark, n, info)
    requires (forall line :: line in body ==> StaysInside(line, mark, n)) && '\n' !in closing && Shows(closing, mark, n)
    ensures var block := Opening(k, mark, n, info) + "\n" + Lines(body) + closing + "\n";
            var first, behind := rewrite(plain), Rewritten(Segments(rest, 0), rewrite);
            Rewritten(Segments(plain + (block + rest), 0), rewrite) ==
            if first.Err? then first else if behind.Err? then behind else Ok(first.value + block + behind.value)
  {
    hide PlainThere, IsOpening, Opening, Lines, StaysInside, Shows, Segments, Rewritten;
    var block := Opening(k, mark, n, info) + "\n" + Lines(body) + closing + "\n";
    var s := plain + (block + rest);
    PlainExtends(plain, block + rest);
    assert s[|plain|..] == block + rest && s[0..|plain|] == plain;
    BlockIsCode(s, 0, |plain|, k, mark, n, info, body, closing, "\n", rest);
    Assoc(plain, block, rest);
    assert (plain + block)[|plain + block| - 1] == '\n';
    BehindNewline(plain + block, rest);
    RewrittenTwo(plain, block, Segments(rest, 0), rewrite);
  }
}
