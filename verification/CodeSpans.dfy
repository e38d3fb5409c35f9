/** Rewriting Markdown outside code only (backend/internal/importer/content_transformer.go). */
module CodeSpans {
  import opened Wrappers

  datatype Fence = Fence(len: nat, mark: char)

  datatype Segment = Plain(text: string) | Code(text: string)

  // ----- What counts as code, by positions in the content -----

  /** How often c is repeated from position i on. */
  function Run(s: string, i: nat, c: char): (n: nat)
    requires i <= |s|
    ensures i + n <= |s|
    decreases |s| - i
  {
    if i < |s| && s[i] == c then 1 + Run(s, i + 1, c) else 0
  }

  /** The newline that ends the line at i, or the end of the content. */
  function LineEnd(s: string, i: nat): (end: nat)
    requires i <= |s|
    ensures i <= end <= |s|
    decreases |s| - i
  {
    if i < |s| && s[i] != '\n' then LineEnd(s, i + 1) else i
  }

  predicate IsLineStart(s: string, i: nat)
    requires i <= |s|
  {
    i == 0 || s[i - 1] == '\n'
  }

  /** The fence that opens at i: at most three spaces, then a run of three or more backticks or tildes. */
  function FenceAt(s: string, i: nat): Option<Fence>
    requires i < |s|
  {
    var at := i + Run(s, i, ' ');
    if IsLineStart(s, i) && at - i <= 3 && at < |s| && s[at] in {'`', '~'} && Run(s, at, s[at]) >= 3
    then Some(Fence(Run(s, at, s[at]), s[at]))
    else None
  }

  /** The line at i closes the fence. */
  predicate Closes(s: string, i: nat, f: Fence)
    requires i <= |s|
  {
    var at := i + Run(s, i, ' ');
    at - i <= 3 && LineEnd(s, i) >= at + f.len && Run(s, at, f.mark) >= f.len
  }

  /** Where a fenced block ends; its first line, the opening one, cannot close it. */
  function FenceEnd(s: string, i: nat, f: Fence, opening: bool): (end: nat)
    requires i <= |s|
    ensures i <= end <= |s| && (opening && i < |s| ==> i < end)
    decreases |s| - i
  {
    var lineEnd := LineEnd(s, i);
    if !opening && Closes(s, i, f) then (if lineEnd < |s| then lineEnd + 1 else lineEnd)
    else if lineEnd >= |s| then |s|
    else FenceEnd(s, lineEnd + 1, f, false)
  }

  function NextBacktick(s: string, i: nat): (next: nat)
    requires i <= |s|
    ensures i <= next <= |s| && (next < |s| ==> s[next] == '`')
    decreases |s| - i
  {
    if i < |s| && s[i] != '`' then NextBacktick(s, i + 1) else i
  }

  /** From behind the opening run of n backticks to behind the closing run, or to the end of the content. */
  function InlineEnd(s: string, i: nat, n: nat): (end: nat)
    requires i <= |s|
    ensures i <= end <= |s|
    decreases |s| - i
  {
    var next := NextBacktick(s, i);
    if next >= |s| then |s|
    else if Run(s, next, '`') == n then next + n
    else InlineEnd(s, next + 1, n)
  }

  predicate StartsCode(s: string, i: nat)
    requires i < |s|
  {
    FenceAt(s, i).Some? || s[i] == '`'
  }

  function CodeEnd(s: string, i: nat): (end: nat)
    requires i < |s| && StartsCode(s, i)
    ensures i < end <= |s|
  {
    match FenceAt(s, i)
    case Some(f) => FenceEnd(s, i, f, true)
    case None => InlineEnd(s, i + Run(s, i, '`'), Run(s, i, '`'))
  }

  /** Where the plain text from i on ends. */
  function PlainEnd(s: string, i: nat): (end: nat)
    requires i <= |s|
    ensures i <= end <= |s| && (end < |s| ==> StartsCode(s, end))
    decreases |s| - i
  {
    if i < |s| && !StartsCode(s, i) then PlainEnd(s, i + 1) else i
  }

  /** Plain text and code in turn from position i on; the last segment is plain. */
  function Segments(s: string, i: nat): seq<Segment>
    requires i <= |s|
    decreases |s| - i
  {
    var p := PlainEnd(s, i);
    if p == |s| then [Plain(s[i..])]
    else [Plain(s[i..p]), Code(s[p..CodeEnd(s, p)])] + Segments(s, CodeEnd(s, p))
  }

  function Texts(segments: seq<Segment>): string {
    if segments == [] then "" else segments[0].text + Texts(segments[1..])
  }

  /** Plain segments rewritten, code as it is; the first error ends the work. */
  function Rewritten(segments: seq<Segment>, rewrite: string -> Result<string>): Result<string> {
    if segments == [] then Ok("")
    else PlainThen(if segments[0].Plain? then rewrite(segments[0].text) else Ok(segments[0].text), Rewritten(segments[1..], rewrite))
  }

  function PlainThen(first: Result<string>, rest: Result<string>): Result<string> {
    match first
    case Err(e) => Err(e)
    case Ok(text) => Prepend(text, rest)
  }

  function Prepend(text: string, r: Result<string>): Result<string> {
    match r
    case Err(e) => Err(e)
    case Ok(rest) => Ok(text + rest)
  }

  // ----- The segments are the content, in turn plain and code -----

  lemma {:induction false} SegmentsAreTheContent(s: string, i: nat)
    requires i <= |s|
    ensures Texts(Segments(s, i)) == s[i..]
    decreases |s| - i
  {
    var p := PlainEnd(s, i);
    if p < |s| {
      var e := CodeEnd(s, p);
      SegmentsAreTheContent(s, e);
      TwoTexts(Plain(s[i..p]), Code(s[p..e]), Segments(s, e));
      ThreeParts(s, i, p, e);
    } else {
      assert Texts([Plain(s[i..])]) == s[i..];
    }
  }

  lemma ThreeParts(s: string, i: nat, p: nat, e: nat)
    requires i <= p <= e <= |s|
    ensures s[i..] == s[i..p] + s[p..e] + s[e..]
  {
  }

  lemma TwoTexts(a: Segment, b: Segment, rest: seq<Segment>)
    ensures Texts([a, b] + rest) == a.text + b.text + Texts(rest)
  {
    assert ([a, b] + rest)[1..] == [b] + rest;
    assert ([b] + rest)[1..] == rest;
  }

  /** Segments number 0, 2, 4, ... and the last are plain, with no backtick in them; the others are code, and not empty. */
  predicate Alternates(segments: seq<Segment>) {
    |segments| % 2 == 1
    && forall i :: 0 <= i < |segments| ==>
         if i % 2 == 0 then segments[i].Plain? && '`' !in segments[i].text else segments[i].Code? && segments[i].text != ""
  }

  lemma {:induction false} SegmentsAlternate(s: string, i: nat)
    requires i <= |s|
    ensures Alternates(Segments(s, i))
    decreases |s| - i
  {
    var p := PlainEnd(s, i);
    PlainHasNoBacktick(s, i);
    if p < |s| {
      var e := CodeEnd(s, p);
      SegmentsAlternate(s, e);
      AlternatesMore(Plain(s[i..p]), Code(s[p..e]), Segments(s, e));
    } else {
      assert s[i..|s|] == s[i..];
    }
  }

  lemma AlternatesMore(a: Segment, b: Segment, rest: seq<Segment>)
    requires a.Plain? && '`' !in a.text && b.Code? && b.text != "" && Alternates(rest)
    ensures Alternates([a, b] + rest)
  {
    var all := [a, b] + rest;
    forall i | 0 <= i < |all|
      ensures if i % 2 == 0 then all[i].Plain? && '`' !in all[i].text else all[i].Code? && all[i].text != ""
    {
      if i >= 2 { assert all[i] == rest[i - 2]; }
    }
  }

  lemma {:induction false} PlainHasNoBacktick(s: string, i: nat)
    requires i <= |s|
    ensures '`' !in s[i..PlainEnd(s, i)]
    decreases |s| - i
  {
    if i < |s| && !StartsCode(s, i) {
      PlainHasNoBacktick(s, i + 1);
      assert s[i..PlainEnd(s, i)] == [s[i]] + s[i + 1..PlainEnd(s, i)];
    }
  }

  // ----- The scanner of the source -----

  method CountRepeatedByte(content: string, start: nat, target: char) returns (count: nat)
    requires start <= |content|
    ensures count == Run(content, start, target)
  {
    count := 0;
    while start + count < |content| && content[start + count] == target
      invariant start + count <= |content|
      invariant Run(content, start, target) == count + Run(content, start + count, target)
    {
      count := count + 1;
    }
  }

  method FindLineEnd(content: string, start: nat) returns (lineEnd: nat)
    requires start <= |content|
    ensures lineEnd == LineEnd(content, start)
  {
    lineEnd := start;
    while lineEnd < |content| && content[lineEnd] != '\n'
      invariant start <= lineEnd <= |content|
      invariant LineEnd(content, start) == LineEnd(content, lineEnd)
    {
      lineEnd := lineEnd + 1;
    }
  }

  /** A run of a character other than newline stays on its line. */
  lemma {:induction false} RunOnLine(s: string, i: nat, c: char)
    requires i <= |s| && c != '\n'
    ensures i + Run(s, i, c) <= LineEnd(s, i) == LineEnd(s, i + Run(s, i, c))
    decreases |s| - i
  {
    if i < |s| && s[i] == c {
      RunOnLine(s, i + 1, c);
    }
  }

  method DetectFenceStart(content: string, index: nat) returns (fence: Option<Fence>)
    requires index < |content|
    ensures fence == FenceAt(content, index)
  {
    if !IsLineStart(content, index) {
      return None;
    }
    var lineEnd := FindLineEnd(content, index);
    var indent := CountRepeatedByte(content, index, ' ');
    var trimmed := index + indent;
    RunOnLine(content, index, ' ');
    if trimmed < |content| && content[trimmed] != '\n' {
      RunOnLine(content, trimmed, content[trimmed]);
    }
    if indent > 3 || lineEnd - trimmed < 3 {
      return None;
    }
    if content[trimmed] == '`' || content[trimmed] == '~' {
      var runLen := CountRepeatedByte(content, trimmed, content[trimmed]);
      if runLen >= 3 {
        return Some(Fence(runLen, content[trimmed]));
      }
    }
    fence := None;
  }

  method FindFenceEnd(content: string, start: nat, fence: Fence) returns (end: nat)
    requires start <= |content|
    ensures end == FenceEnd(content, start, fence, true)
  {
    var i := start;
    while true
      invariant start <= i <= |content|
      invariant FenceEnd(content, start, fence, true) == FenceEnd(content, i, fence, i == start)
      decreases |content| - i
    {
      var lineEnd := FindLineEnd(content, i);
      if i > start {
        var indent := CountRepeatedByte(content, i, ' ');
        RunOnLine(content, i, ' ');
        if indent <= 3 && lineEnd - (i + indent) >= fence.len {
          var runLen := CountRepeatedByte(content, i + indent, fence.mark);
          if runLen >= fence.len {
            return if lineEnd < |content| then lineEnd + 1 else lineEnd;
          }
        }
      }
      if lineEnd >= |content| {
        return |content|;
      }
      i := lineEnd + 1;
    }
  }

  method FindInlineCodeEnd(content: string, start: nat, delimiterLen: nat) returns (end: nat)
    requires start + delimiterLen <= |content|
    ensures end == InlineEnd(content, start + delimiterLen, delimiterLen)
  {
    var searchFrom := start + delimiterLen;
    while searchFrom < |content|
      invariant start + delimiterLen <= searchFrom <= |content|
      invariant InlineEnd(content, start + delimiterLen, delimiterLen) == InlineEnd(content, searchFrom, delimiterLen)
    {
      var next := NextBacktick(content, searchFrom);
      if next >= |content| {
        return |content|;
      }
      var run := CountRepeatedByte(content, next, '`');
      if run == delimiterLen {
        return next + delimiterLen;
      }
      searchFrom := next + 1;
    }
    end := |content|;
  }

  method FindCodeEnd(content: string, i: nat, fence: Option<Fence>) returns (codeEnd: nat)
    requires i < |content| && StartsCode(content, i) && fence == FenceAt(content, i)
    ensures codeEnd == CodeEnd(content, i)
  {
    if fence.Some? {
      codeEnd := FindFenceEnd(content, i, fence.value);
    } else {
      var runLen := CountRepeatedByte(content, i, '`');
      codeEnd := FindInlineCodeEnd(content, i, runLen);
    }
  }

  /**
   rewriteOutsideCodeSpans: the result is the content with every plain segment rewritten and every code segment kept as it
   is, or the first error of the rewriter.
   */
  method RewriteOutsideCodeSpans(content: string, rewrite: string -> Result<string>) returns (r: Result<string>)
    ensures r == Rewritten(Segments(content, 0), rewrite)
  {
    ghost var goal := Rewritten(Segments(content, 0), rewrite);
    var out := "";
    var plainStart, i := 0, 0;
    PrependNothing(goal);
    while i < |content|
      invariant 0 <= plainStart <= i <= |content| && PlainEnd(content, plainStart) == PlainEnd(content, i)
      invariant goal == Prepend(out, Rewritten(Segments(content, plainStart), rewrite))
    {
      var fence := DetectFenceStart(content, i);
      if fence.Some? || content[i] == '`' {
        var rewritten := rewrite(content[plainStart..i]);
        CodeFound(content, plainStart, i, rewrite);
        if rewritten.Err? {
          return rewritten;
        }
        var codeEnd := FindCodeEnd(content, i, fence);
        PrependTwice(out, rewritten.value + content[i..codeEnd], Rewritten(Segments(content, codeEnd), rewrite));
        out := out + (rewritten.value + content[i..codeEnd]);
        i, plainStart := codeEnd, codeEnd;
      } else {
        i := i + 1;
      }
    }
    LastPlain(content, plainStart, rewrite);
    var rewritten := rewrite(content[plainStart..]);
    if rewritten.Err? {
      return rewritten;
    }
    r := Ok(out + rewritten.value);
  }

  lemma PrependNothing(r: Result<string>)
    ensures Prepend("", r) == r
  {
    if r.Ok? { assert "" + r.value == r.value; }
  }

  lemma PrependTwice(a: string, b: string, r: Result<string>)
    ensures Prepend(a, Prepend(b, r)) == Prepend(a + b, r)
  {
    if r.Ok? { assert a + (b + r.value) == a + b + r.value; }
  }

  function PlainThenCode(plain: Result<string>, code: string, rest: Result<string>): Result<string> {
    match plain
    case Err(e) => Err(e)
    case Ok(text) => Prepend(text + code, rest)
  }

  /** Code begins at i: what there is to produce from plainStart on. */
  lemma {:induction false} CodeFound(content: string, plainStart: nat, i: nat, rewrite: string -> Result<string>)
    requires plainStart <= i < |content| && PlainEnd(content, plainStart) == PlainEnd(content, i) && StartsCode(content, i)
    ensures var e := CodeEnd(content, i);
            Rewritten(Segments(content, plainStart), rewrite) ==
            PlainThenCode(rewrite(content[plainStart..i]), content[i..e], Rewritten(Segments(content, e), rewrite))
  {
    var e := CodeEnd(content, i);
    RewrittenTwo(content[plainStart..i], content[i..e], Segments(content, e), rewrite);
  }

  lemma RewrittenTwo(plain: string, code: string, rest: seq<Segment>, rewrite: string -> Result<string>)
    ensures Rewritten([Plain(plain), Code(code)] + rest, rewrite) == PlainThenCode(rewrite(plain), code, Rewritten(rest, rewrite))
  {
    var all := [Plain(plain), Code(code)] + rest;
    assert all[1..] == [Code(code)] + rest && ([Code(code)] + rest)[1..] == rest;
    if rewrite(plain).Ok? {
      PrependTwice(rewrite(plain).value, code, Rewritten(rest, rewrite));
    }
  }

  lemma LastPlain(content: string, plainStart: nat, rewrite: string -> Result<string>)
    requires plainStart <= |content| && PlainEnd(content, plainStart) == |content|
    ensures Rewritten(Segments(content, plainStart), rewrite) == rewrite(content[plainStart..])
  {
    OnePlain(content[plainStart..], rewrite);
  }

  lemma OnePlain(text: string, rewrite: string -> Result<string>)
    ensures Rewritten([Plain(text)], rewrite) == rewrite(text)
  {
    assert [Plain(text)][1..] == [];
    assert Rewritten([], rewrite) == Ok("");
    if rewrite(text).Ok? { assert rewrite(text).value + "" == rewrite(text).value; }
  }
}
