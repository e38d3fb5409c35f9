/**
 Finding link destinations in a document and writing new ones into it:
 the text-level half of backend/internal/links/link_refactor.go.
 The Markdown parser supplies the candidate destinations and the code ranges; both are arbitrary inputs here.
 */
module LinkSplice {
  import opened Wrappers
  import opened Text
  import opened LinkRewrite
  import opened WikiPath

  datatype Replacement = Replacement(start: nat, end: nat, newValue: string)

  datatype Occurrence = Occurrence(rawDestination: string, start: nat, end: nat)

  datatype TextRange = TextRange(start: nat, stop: nat)

  // ----- Replacements -----

  predicate InBounds(replacements: seq<Replacement>, length: nat) {
    forall r :: r in replacements ==> r.start <= r.end <= length
  }

  ghost predicate SortedByStart(replacements: seq<Replacement>) {
    forall i, j :: 0 <= i < j < |replacements| ==> replacements[i].start <= replacements[j].start
  }

  /** In order and pairwise without overlap. */
  ghost predicate Disjoint(replacements: seq<Replacement>) {
    forall i, j :: 0 <= i < j < |replacements| ==> replacements[i].end <= replacements[j].start
  }

  /** The entries that a left-to-right pass keeps: those that start after everything kept before. */
  function Kept(replacements: seq<Replacement>): (kept: seq<Replacement>)
    ensures |kept| <= |replacements|
  {
    if replacements == [] then []
    else
      var before := Kept(replacements[..|replacements| - 1]);
      var last := replacements[|replacements| - 1];
      if before != [] && last.start < before[|before| - 1].end then before else before + [last]
  }

  /** The text with every replacement carried out, the last one first. */
  function Spliced(content: string, replacements: seq<Replacement>): string
    decreases |replacements|
  {
    if replacements == [] then content
    else
      var last := replacements[|replacements| - 1];
      if last.start <= last.end <= |content| then
        Spliced(content[..last.start], replacements[..|replacements| - 1]) + last.newValue + content[last.end..]
      else content
  }

  /** The compaction loop of RewriteWikiLinksPrecompiled, in place. */
  method RemoveOverlaps(replacements: array<Replacement>) returns (count: nat)
    modifies replacements
    ensures count <= replacements.Length
    ensures replacements[..count] == Kept(old(replacements[..]))
  {
    ghost var all := replacements[..];
    count := 0;
    for k := 0 to replacements.Length
      invariant count <= k
      invariant replacements[..count] == Kept(all[..k])
      invariant replacements[k..] == all[k..]
    {
      var r := replacements[k];
      KeptStep(all, k, replacements[..count], r);
      assert replacements[k..][1..] == all[k..][1..];
      if count > 0 && r.start < replacements[count - 1].end {
        continue;
      }
      replacements[count] := r;
      count := count + 1;
    }
    assert all[..replacements.Length] == all;
  }

  lemma KeptStep(all: seq<Replacement>, k: nat, kept: seq<Replacement>, r: Replacement)
    requires k < |all| && kept == Kept(all[..k]) && r == all[k]
    ensures Kept(all[..k + 1]) == if kept != [] && r.start < kept[|kept| - 1].end then kept else kept + [r]
  {
    assert all[..k + 1][..k] == all[..k];
  }

  method ApplyReplacements(content: string, replacements: seq<Replacement>) returns (out: string)
    requires InBounds(replacements, |content|)
    ensures out == Spliced(content, Kept(replacements))
  {
    if |replacements| == 0 {
      return content;
    }
    var builder := "";
    var last: nat := 0;
    for k := 0 to |replacements|
      invariant AppliedSoFar(content, replacements, k, builder, last)
    {
      var r := replacements[k];
      ApplyStep(content, replacements, k, builder, last);
      if r.start < last {
        continue;
      }
      builder := builder + content[last..r.start];
      builder := builder + r.newValue;
      last := r.end;
    }
    ApplyRest(content, replacements, builder, last);
    out := builder + content[last..];
  }

  /** The state of the loop after the first k entries. */
  ghost predicate AppliedSoFar(content: string, replacements: seq<Replacement>, k: nat, builder: string, last: nat)
    requires k <= |replacements|
  {
    var kept := Kept(replacements[..k]);
    && last == (if kept == [] then 0 else kept[|kept| - 1].end)
    && (kept != [] ==> kept[|kept| - 1].start <= last)
    && last <= |content|
    && builder == Spliced(content[..last], kept)
  }

  lemma {:induction false} ApplyStep(content: string, replacements: seq<Replacement>, k: nat, builder: string, last: nat)
    requires k < |replacements| && InBounds(replacements, |content|)
    requires AppliedSoFar(content, replacements, k, builder, last)
    ensures var r := replacements[k];
            && r.start <= r.end <= |content|
            && if r.start < last then AppliedSoFar(content, replacements, k + 1, builder, last)
               else AppliedSoFar(content, replacements, k + 1, builder + content[last..r.start] + r.newValue, r.end)
  {
    var r := replacements[k];
    var kept := Kept(replacements[..k]);
    assert r in replacements;
    assert replacements[..k + 1][..k] == replacements[..k];
    if r.start >= last {
      SplicedGrows(content, kept, last, r.start);
      SplicedAppends(content, kept, r);
    }
  }

  lemma {:induction false} ApplyRest(content: string, replacements: seq<Replacement>, builder: string, last: nat)
    requires AppliedSoFar(content, replacements, |replacements|, builder, last)
    ensures builder + content[last..] == Spliced(content, Kept(replacements))
  {
    assert replacements[..|replacements|] == replacements;
    assert content[..|content|] == content;
    SplicedGrows(content, Kept(replacements), last, |content|);
  }

  /** Text after the last replacement is copied. */
  lemma SplicedGrows(content: string, replacements: seq<Replacement>, from: nat, to: nat)
    requires from <= to <= |content|
    requires from == if replacements == [] then 0 else replacements[|replacements| - 1].end
    requires replacements != [] ==> replacements[|replacements| - 1].start <= from
    ensures Spliced(content[..to], replacements) == Spliced(content[..from], replacements) + content[from..to]
  {
    if replacements != [] {
      var last := replacements[|replacements| - 1];
      assert content[..to][..last.start] == content[..last.start] == content[..from][..last.start];
      assert content[..to][last.end..] == content[from..to];
      assert content[..from][last.end..] == "";
    }
  }

  lemma {:induction false} SplicedAppends(content: string, replacements: seq<Replacement>, r: Replacement)
    requires r.start <= r.end <= |content|
    ensures Spliced(content[..r.end], replacements + [r]) == Spliced(content[..r.start], replacements) + r.newValue
  {
    assert (replacements + [r])[..|replacements|] == replacements;
    assert content[..r.end][..r.start] == content[..r.start];
    assert content[..r.end][r.end..] == "";
  }

  // ----- What is kept -----

  /** `part` can be obtained from `whole` by leaving entries out. */
  predicate IsSubsequence<T(==)>(part: seq<T>, whole: seq<T>) {
    if part == [] then true
    else if whole == [] then false
    else if part[|part| - 1] == whole[|whole| - 1] && IsSubsequence(part[..|part| - 1], whole[..|whole| - 1]) then true
    else IsSubsequence(part, whole[..|whole| - 1])
  }

  lemma {:induction false} KeptIsSubsequence(replacements: seq<Replacement>)
    ensures IsSubsequence(Kept(replacements), replacements)
    ensures forall r :: r in Kept(replacements) ==> r in replacements
  {
    if replacements != [] {
      KeptIsSubsequence(replacements[..|replacements| - 1]);
    }
  }

  lemma {:induction false} KeptIsDisjoint(replacements: seq<Replacement>, length: nat)
    requires InBounds(replacements, length)
    ensures Disjoint(Kept(replacements)) && InBounds(Kept(replacements), length)
  {
    if replacements != [] {
      var init, last := replacements[..|replacements| - 1], replacements[|replacements| - 1];
      assert last in replacements;
      KeptIsDisjoint(init, length);
      var before := Kept(init);
      assert forall i :: 0 <= i < |before| - 1 ==> before[i].end <= before[|before| - 1].start;
      assert forall r :: r in before ==> r.start <= r.end;
    }
  }

  /** Nothing is dropped without cause: a dropped entry starts inside a kept one. */
  lemma {:induction false} DroppedOverlapsKept(replacements: seq<Replacement>, r: Replacement)
    requires SortedByStart(replacements) && r in replacements && r !in Kept(replacements)
    ensures exists q :: q in Kept(replacements) && q.start <= r.start < q.end
  {
    var n := |replacements| - 1;
    var init, last := replacements[..n], replacements[n];
    if r in init && r !in Kept(init) {
      DroppedOverlapsKept(init, r);
    } else {
      var before := Kept(init);
      assert r == last;
      KeptIsSubsequence(init);
      var q := before[|before| - 1];
      assert q in init;
    }
  }

  /** Already disjoint entries are all kept, so all are applied. */
  lemma {:induction false} DisjointAllKept(replacements: seq<Replacement>)
    requires Disjoint(replacements)
    ensures Kept(replacements) == replacements
  {
    if replacements != [] {
      DisjointAllKept(replacements[..|replacements| - 1]);
    }
  }

  // ----- What splicing does to every character -----

  /** How far text is displaced by replacements that all come before it. */
  function Shift(replacements: seq<Replacement>): int {
    if replacements == [] then 0
    else
      var last := replacements[|replacements| - 1];
      Shift(replacements[..|replacements| - 1]) + |last.newValue| - (last.end - last.start)
  }

  /** The end of the k-th replacement before the gap with number k, or the start of the text. */
  function GapStart(replacements: seq<Replacement>, k: nat): nat
    requires k <= |replacements|
  {
    if k == 0 then 0 else replacements[k - 1].end
  }

  function GapEnd(content: string, replacements: seq<Replacement>, k: nat): nat
    requires k <= |replacements|
  {
    if k == |replacements| then |content| else replacements[k].start
  }

  /** `out` holds `piece` at position `at`. */
  predicate Holds(out: string, at: int, piece: string) {
    0 <= at && at + |piece| <= |out| && out[at..at + |piece|] == piece
  }

  /** The text up to the k-th replacement, spliced, is where the rest of the result starts. */
  lemma {:induction false} SplicedLength(content: string, replacements: seq<Replacement>)
    requires Disjoint(replacements) && InBounds(replacements, |content|)
    ensures |Spliced(content, replacements)| == |content| + Shift(replacements)
    decreases |replacements|
  {
    if replacements != [] {
      var n := |replacements| - 1;
      var init, last := replacements[..n], replacements[n];
      assert last in replacements;
      PrefixInBounds(content, replacements);
      SplicedLength(content[..last.start], init);
    }
  }

  lemma PrefixInBounds(content: string, replacements: seq<Replacement>)
    requires Disjoint(replacements) && InBounds(replacements, |content|) && replacements != []
    ensures var n := |replacements| - 1;
            Disjoint(replacements[..n]) && replacements[n].start <= |content| && InBounds(replacements[..n], replacements[n].start)
  {
    var n := |replacements| - 1;
    assert replacements[n] in replacements;
    forall r | r in replacements[..n]
      ensures r.start <= r.end <= replacements[n].start
    {
      var i :| 0 <= i < n && replacements[i] == r;
    }
  }

  /** Splicing copies every character between entries, displaced by the entries before it. */
  lemma {:induction false} SpliceCopiesGap(content: string, replacements: seq<Replacement>, k: nat, p: nat)
    requires Disjoint(replacements) && InBounds(replacements, |content|) && k <= |replacements|
    requires GapStart(replacements, k) <= p < GapEnd(content, replacements, k)
    ensures CopiedChar(content, Spliced(content, replacements), p, Shift(replacements[..k]))
    decreases |replacements|
  {
    if k == |replacements| {
      assert replacements[..k] == replacements;
      SpliceCopiesTail(content, replacements, p);
    } else {
      var n := |replacements| - 1;
      var init, start := replacements[..n], replacements[n].start;
      PrefixInBounds(content, replacements);
      GapOfPrefix(content, replacements, k);
      SpliceCopiesGap(content[..start], init, k, p);
      assert init[..k] == replacements[..k];
      LastPieces(content, replacements);
      CopiedInPrefix(content, start, Spliced(content[..start], init), Spliced(content, replacements), p, Shift(replacements[..k]));
    }
  }

  /** Character p of the text stands `shift` further in the result. */
  predicate CopiedChar(content: string, out: string, p: nat, shift: int) {
    p < |content| && 0 <= p + shift < |out| && out[p + shift] == content[p]
  }

  lemma CopiedInPrefix(content: string, start: nat, head: string, out: string, p: nat, shift: int)
    requires start <= |content| && CopiedChar(content[..start], head, p, shift)
    requires |head| <= |out| && out[..|head|] == head
    ensures CopiedChar(content, out, p, shift)
  {
    assert out[..|head|][p + shift] == out[p + shift];
  }

  lemma {:induction false} SpliceCopiesTail(content: string, replacements: seq<Replacement>, p: nat)
    requires Disjoint(replacements) && InBounds(replacements, |content|)
    requires GapStart(replacements, |replacements|) <= p < |content|
    ensures CopiedChar(content, Spliced(content, replacements), p, Shift(replacements))
  {
    if replacements != [] {
      LastPieces(content, replacements);
      TailChar(content, Spliced(content, replacements), replacements[|replacements| - 1].end, Shift(replacements), p);
    }
  }

  lemma TailChar(content: string, out: string, end: nat, shift: int, p: nat)
    requires end <= p < |content| && Holds(out, end + shift, content[end..])
    ensures CopiedChar(content, out, p, shift)
  {
    HoldsChar(out, end + shift, content[end..], p - end);
  }

  lemma GapOfPrefix(content: string, replacements: seq<Replacement>, k: nat)
    requires k < |replacements| && Disjoint(replacements) && InBounds(replacements, |content|)
    ensures var n := |replacements| - 1;
            && replacements[n].start <= |content|
            && GapStart(replacements[..n], k) == GapStart(replacements, k)
            && GapEnd(content[..replacements[n].start], replacements[..n], k) == GapEnd(content, replacements, k)
            && GapEnd(content, replacements, k) <= replacements[n].start
  {
    var n := |replacements| - 1;
    assert replacements[n] in replacements && replacements[k] in replacements;
  }

  lemma HoldsChar(out: string, at: int, piece: string, i: int)
    requires Holds(out, at, piece) && 0 <= i < |piece|
    ensures out[at + i] == piece[i]
  {
    assert out[at..at + |piece|][i] == out[at + i];
  }

  /** Splicing puts every new value where its entry was, displaced by the entries before it. */
  lemma {:induction false} SplicePlacesValue(content: string, replacements: seq<Replacement>, k: nat)
    requires Disjoint(replacements) && InBounds(replacements, |content|) && k < |replacements|
    ensures Holds(Spliced(content, replacements), replacements[k].start + Shift(replacements[..k]), replacements[k].newValue)
    decreases |replacements|
  {
    var n := |replacements| - 1;
    LastPieces(content, replacements);
    if k < n {
      PrefixInBounds(content, replacements);
      SplicePlacesValue(content[..replacements[n].start], replacements[..n], k);
      ValueInPrefix(content, replacements, k);
    }
  }

  lemma ValueInPrefix(content: string, replacements: seq<Replacement>, k: nat)
    requires k < |replacements| - 1 && replacements[|replacements| - 1].start <= |content|
    requires var n := |replacements| - 1;
             var head, out := Spliced(content[..replacements[n].start], replacements[..n]), Spliced(content, replacements);
             && |head| <= |out| && out[..|head|] == head
             && Holds(head, replacements[k].start + Shift(replacements[..n][..k]), replacements[k].newValue)
    ensures Holds(Spliced(content, replacements), replacements[k].start + Shift(replacements[..k]), replacements[k].newValue)
  {
    var n := |replacements| - 1;
    assert replacements[..n][..k] == replacements[..k];
    HoldsInPrefix(Spliced(content[..replacements[n].start], replacements[..n]), Spliced(content, replacements),
                  replacements[k].start + Shift(replacements[..k]), replacements[k].newValue);
  }

  /** The last replacement and what surrounds it. */
  lemma LastPieces(content: string, replacements: seq<Replacement>)
    requires Disjoint(replacements) && InBounds(replacements, |content|) && replacements != []
    ensures var n := |replacements| - 1;
            var last := replacements[n];
            var out := Spliced(content, replacements);
            var head := Spliced(content[..last.start], replacements[..n]);
            && |head| <= |out| && out[..|head|] == head
            && Holds(out, last.start + Shift(replacements[..n]), last.newValue)
            && Holds(out, last.end + Shift(replacements), content[last.end..])
  {
    var n := |replacements| - 1;
    var last := replacements[n];
    PrefixInBounds(content, replacements);
    assert last in replacements;
    SplicedLength(content[..last.start], replacements[..n]);
    ThreePieces(Spliced(content[..last.start], replacements[..n]), last.newValue, content[last.end..]);
  }

  lemma ThreePieces(a: string, b: string, c: string)
    ensures Holds(a + b + c, |a|, b) && Holds(a + b + c, |a| + |b|, c) && (a + b + c)[..|a|] == a
  {
  }

  lemma HoldsInPrefix(head: string, out: string, at: int, piece: string)
    requires Holds(head, at, piece) && |head| <= |out| && out[..|head|] == head
    ensures Holds(out, at, piece)
  {
    assert out[at..at + |piece|] == out[..|head|][at..at + |piece|];
  }

  // ----- Code ranges -----

  predicate Covered(offset: int, ranges: seq<TextRange>) {
    exists r :: r in ranges && r.start <= offset < r.stop
  }

  ghost predicate StartsAscend(ranges: seq<TextRange>) {
    forall i, j :: 0 <= i < j < |ranges| ==> ranges[i].start <= ranges[j].start
  }

  /** `sorted` is the input in the order of sort.Slice. */
  method MergeRanges(sorted: seq<TextRange>) returns (merged: seq<TextRange>)
    requires StartsAscend(sorted)
    ensures forall offset :: Covered(offset, merged) <==> Covered(offset, sorted)
    ensures forall i, j :: 0 <= i < j < |merged| ==> merged[i].stop < merged[j].start
    ensures StartsAscend(merged)
  {
    if |sorted| < 2 {
      return sorted;
    }
    merged := [];
    var current := sorted[0];
    for i := 1 to |sorted|
      invariant forall offset :: Covered(offset, merged + [current]) <==> Covered(offset, sorted[..i])
      invariant forall a, b :: 0 <= a < b < |merged| ==> merged[a].stop < merged[b].start
      invariant forall a :: 0 <= a < |merged| ==> merged[a].stop < current.start && merged[a].start <= current.start
      invariant StartsAscend(merged) && current.start <= sorted[i - 1].start
    {
      var next := sorted[i];
      assert sorted[..i + 1] == sorted[..i] + [next];
      CoveredByLast(sorted[..i], next);
      CoveredByLast(merged, current);
      if next.start <= current.stop {
        var wider := if next.stop > current.stop then TextRange(current.start, next.stop) else current;
        CoveredByLast(merged, wider);
        current := wider;
        continue;
      }
      CoveredByLast(merged + [current], next);
      merged := merged + [current];
      current := next;
    }
    assert sorted[..|sorted|] == sorted;
    merged := merged + [current];
  }

  lemma CoveredByLast(ranges: seq<TextRange>, last: TextRange)
    ensures forall offset :: Covered(offset, ranges + [last]) <==> Covered(offset, ranges) || last.start <= offset < last.stop
  {
    forall offset
      ensures Covered(offset, ranges + [last]) <==> Covered(offset, ranges) || last.start <= offset < last.stop
    {
      assert last in ranges + [last];
      assert forall r :: r in ranges + [last] <==> r in ranges || r == last;
    }
  }

  method IsExcludedOffset(offset: nat, ranges: seq<TextRange>) returns (excluded: bool)
    requires StartsAscend(ranges)
    ensures excluded <==> Covered(offset, ranges)
  {
    for k := 0 to |ranges|
      invariant forall i :: 0 <= i < k ==> !(ranges[i].start <= offset < ranges[i].stop)
    {
      var current := ranges[k];
      if offset >= current.start && offset < current.stop {
        assert current in ranges;
        return true;
      }
      if offset < current.start {
        return false;
      }
    }
    return false;
  }

  // ----- Scanning for destinations -----

  predicate IsGap(c: char) {
    c == ' ' || c == '\n' || c == '\t'
  }

  /** The closing bracket that brings `depth` back to zero, scanning from `i`; a backslash hides the next character. */
  function Closing(content: string, i: nat, depth: int, open: char, close: char): (r: Option<nat>)
    requires open != close
    ensures r.Some? ==> i <= r.value < |content| && content[r.value] == close
    decreases |content| - i
  {
    if i >= |content| then None
    else if content[i] == open then Closing(content, i + 1, depth + 1, open, close)
    else if content[i] == close then
      if depth - 1 == 0 then Some(i) else Closing(content, i + 1, depth - 1, open, close)
    else if content[i] == '\\' then Closing(content, i + 2, depth, open, close)
    else Closing(content, i + 1, depth, open, close)
  }

  /** findClosingBracket is this loop at depth 0 for '[', findClosingParen at depth 1 for '('. */
  method FindClosing(content: string, start: nat, initialDepth: int, open: char, close: char) returns (r: Option<nat>)
    requires open != close
    ensures r == Closing(content, start, initialDepth, open, close)
  {
    var depth := initialDepth;
    var i := start;
    while i < |content|
      invariant Closing(content, start, initialDepth, open, close) == Closing(content, i, depth, open, close)
    {
      if content[i] == open {
        depth := depth + 1;
      } else if content[i] == close {
        depth := depth - 1;
        if depth == 0 {
          return Some(i);
        }
      } else if content[i] == '\\' {
        i := i + 1;
      }
      i := i + 1;
    }
    return None;
  }

  /** What a scanned occurrence is: a non-empty stretch of the text, after the position it was looked for. */
  predicate OccursIn(o: Occurrence, content: string, from: nat) {
    from <= o.start < o.end <= |content| && o.rawDestination == content[o.start..o.end]
  }

  function SkipGaps(content: string, i: nat): (r: nat)
    ensures i <= r && (i <= |content| ==> r <= |content|)
    decreases |content| - i
  {
    if i < |content| && IsGap(content[i]) then SkipGaps(content, i + 1) else i
  }

  /** The end of a destination in angle brackets. */
  function AngleEnd(content: string, i: nat): (r: Option<nat>)
    ensures r.Some? ==> i <= r.value < |content| && content[r.value] == '>'
    decreases |content| - i
  {
    if i >= |content| then None
    else if content[i] == '>' then Some(i)
    else AngleEnd(content, if content[i] == '\\' then i + 2 else i + 1)
  }

  /** The end of a bare destination: a blank, or a closing parenthesis that was not opened inside it. */
  function BareEnd(content: string, i: nat, depth: nat): (r: Option<nat>)
    ensures r.Some? ==> i <= r.value < |content| && (content[r.value] == ')' || IsGap(content[r.value]))
    decreases |content| - i
  {
    if i >= |content| then None
    else if content[i] == '\\' then BareEnd(content, i + 2, depth)
    else if content[i] == '(' then BareEnd(content, i + 1, depth + 1)
    else if content[i] == ')' then (if depth == 0 then Some(i) else BareEnd(content, i + 1, depth - 1))
    else if IsGap(content[i]) then Some(i)
    else BareEnd(content, i + 1, depth)
  }

  /** The destination behind an opening parenthesis, if there is one and the parenthesis is closed. */
  function DestinationAt(content: string, start: nat): (r: Option<Occurrence>)
    ensures r.Some? ==> OccursIn(r.value, content, start) && r.value.end < |content|
  {
    var i := SkipGaps(content, start);
    if i >= |content| then None
    else
      var from := if content[i] == '<' then i + 1 else i;
      var end := if content[i] == '<' then AngleEnd(content, from) else BareEnd(content, from, 0);
      if end.None? || end.value <= from || Closing(content, start, 1, '(', ')').None? then None
      else Some(Occurrence(content[from..end.value], from, end.value))
  }

  method ParseInlineLinkOccurrence(content: string, start: nat) returns (r: Option<Occurrence>)
    ensures r == DestinationAt(content, start)
  {
    var i := FindGapEnd(content, start);
    if i >= |content| {
      return None;
    }
    var destStart := i;
    var destEnd;
    if content[i] == '<' {
      destStart := i + 1;
      destEnd := FindAngleEnd(content, destStart);
    } else {
      destEnd := FindBareEnd(content, destStart);
    }
    if destEnd.None? || destEnd.value <= destStart {
      return None;
    }
    var closingParen := FindClosing(content, start, 1, '(', ')');
    if closingParen.None? {
      return None;
    }
    return Some(Occurrence(content[destStart..destEnd.value], destStart, destEnd.value));
  }

  method FindGapEnd(content: string, start: nat) returns (i: nat)
    ensures i == SkipGaps(content, start)
  {
    i := start;
    while i < |content| && IsGap(content[i])
      invariant SkipGaps(content, start) == SkipGaps(content, i)
    {
      i := i + 1;
    }
  }

  method FindAngleEnd(content: string, start: nat) returns (end: Option<nat>)
    ensures end == AngleEnd(content, start)
  {
    var i := start;
    while i < |content|
      invariant AngleEnd(content, start) == AngleEnd(content, i)
    {
      if content[i] == '>' {
        return Some(i);
      }
      if content[i] == '\\' {
        i := i + 1;
      }
      i := i + 1;
    }
    return None;
  }

  method FindBareEnd(content: string, start: nat) returns (end: Option<nat>)
    ensures end == BareEnd(content, start, 0)
  {
    var i, depth: nat := start, 0;
    while i < |content|
      invariant BareEnd(content, start, 0) == BareEnd(content, i, depth)
    {
      if content[i] == '\\' {
        i := i + 2;
        continue;
      }
      if content[i] == '(' {
        depth := depth + 1;
      } else if content[i] == ')' {
        if depth == 0 {
          return Some(i);
        }
        depth := depth - 1;
      } else if IsGap(content[i]) {
        return Some(i);
      }
      i := i + 1;
    }
    return None;
  }

  /** The bracket that opens a link: not an image, and not inside code. */
  predicate OpensLink(content: string, at: int, excluded: seq<TextRange>) {
    0 <= at < |content| && content[at] == '[' && (at == 0 || content[at - 1] != '!') && !Covered(at, excluded)
  }

  ghost predicate OpenedBetween(content: string, excluded: seq<TextRange>, lo: int, hi: int) {
    exists at :: lo < at < hi && OpensLink(content, at, excluded)
  }

  function PreviousEnd(occurrences: seq<Occurrence>, k: nat): int
    requires k <= |occurrences|
  {
    if k == 0 then -1 else occurrences[k - 1].end
  }

  /** In text order, apart from each other, each opened by a bracket of its own outside code. */
  ghost predicate Scanned(content: string, occurrences: seq<Occurrence>, excluded: seq<TextRange>)
    decreases |occurrences|
  {
    occurrences == [] ||
    var n := |occurrences| - 1;
    && Scanned(content, occurrences[..n], excluded)
    && OccursIn(occurrences[n], content, 0)
    && PreviousEnd(occurrences, n) < occurrences[n].start
    && OpenedBetween(content, excluded, PreviousEnd(occurrences, n), occurrences[n].start)
  }

  /** One occurrence of the list, seen on its own. */
  lemma {:induction false} ScannedEach(content: string, occurrences: seq<Occurrence>, excluded: seq<TextRange>, k: nat)
    requires Scanned(content, occurrences, excluded) && k < |occurrences|
    ensures OccursIn(occurrences[k], content, 0)
    ensures OpenedBetween(content, excluded, PreviousEnd(occurrences, k), occurrences[k].start)
    decreases |occurrences|
  {
    if k < |occurrences| - 1 {
      ScannedEach(content, occurrences[..|occurrences| - 1], excluded, k);
    }
  }

  lemma {:induction false} ScannedApart(content: string, occurrences: seq<Occurrence>, excluded: seq<TextRange>, i: nat, j: nat)
    requires Scanned(content, occurrences, excluded) && i < j < |occurrences|
    ensures occurrences[i].end < occurrences[j].start
    decreases |occurrences|
  {
    var n := |occurrences| - 1;
    if j < n {
      ScannedApart(content, occurrences[..n], excluded, i, j);
    } else if i < n - 1 {
      ScannedApart(content, occurrences[..n], excluded, i, n - 1);
      ScannedEach(content, occurrences, excluded, n - 1);
    }
  }

  /** The link, if any, whose label opens at `i`. */
  ghost function LinkAt(content: string, i: nat, excluded: seq<TextRange>): (r: Option<Occurrence>)
    ensures r.Some? ==> OpensLink(content, i, excluded) && i < r.value.start && OccursIn(r.value, content, 0) && r.value.end < |content|
  {
    if !OpensLink(content, i, excluded) then None
    else
      match Closing(content, i, 0, '[', ']')
      case None => None
      case Some(labelEnd) =>
        var j := SkipGaps(content, labelEnd + 1);
        if j >= |content| || content[j] != '(' then None else DestinationAt(content, j + 1)
  }

  /** The links from position i on; what lies inside a link is not looked at again. */
  ghost function LinksFrom(content: string, i: nat, excluded: seq<TextRange>): seq<Occurrence>
    decreases |content| - i
  {
    if i >= |content| then []
    else
      match LinkAt(content, i, excluded)
      case None => LinksFrom(content, i + 1, excluded)
      case Some(o) => [o] + LinksFrom(content, o.end + 1, excluded)
  }

  /** One round of the scan. */
  method OccurrenceAt(content: string, i: nat, excluded: seq<TextRange>) returns (r: Option<Occurrence>)
    requires StartsAscend(excluded) && i < |content|
    ensures r == LinkAt(content, i, excluded)
  {
    var skip := IsExcludedOffset(i, excluded);
    if skip {
      return None;
    }
    if content[i] != '[' {
      return None;
    }
    if i > 0 && content[i - 1] == '!' {
      return None;
    }
    var labelEnd := FindClosing(content, i, 0, '[', ']');
    if labelEnd.None? {
      return None;
    }
    var j := FindGapEnd(content, labelEnd.value + 1);
    if j >= |content| || content[j] != '(' {
      return None;
    }
    r := ParseInlineLinkOccurrence(content, j + 1);
  }

  method ScanInlineLinkOccurrences(content: string, excluded: seq<TextRange>) returns (occurrences: seq<Occurrence>)
    requires StartsAscend(excluded)
    ensures occurrences == LinksFrom(content, 0, excluded)
    ensures Scanned(content, occurrences, excluded)
  {
    hide LinkAt, OpensLink;
    ghost var all := LinksFrom(content, 0, excluded);
    occurrences := [];
    var i := 0;
    while i < |content|
      invariant Scanned(content, occurrences, excluded)
      invariant PreviousEnd(occurrences, |occurrences|) < i
      invariant all == occurrences + LinksFrom(content, i, excluded)
    {
      var found := OccurrenceAt(content, i, excluded);
      if found.Some? {
        ScannedGrows(content, occurrences, excluded, found.value, i);
        AddsNext(occurrences, found.value, LinksFrom(content, found.value.end + 1, excluded));
        occurrences := occurrences + [found.value];
        i := found.value.end;
      }
      i := i + 1;
    }
  }

  lemma AddsNext(before: seq<Occurrence>, o: Occurrence, rest: seq<Occurrence>)
    ensures before + ([o] + rest) == before + [o] + rest
  {
  }

  /** The scan misses nothing: every link outside code is found, unless it opens before the end of one that is. */
  lemma {:induction false} ScanIsComplete(content: string, start: nat, at: nat, excluded: seq<TextRange>)
    requires start <= at && LinkAt(content, at, excluded).Some?
    ensures var links := LinksFrom(content, start, excluded);
            LinkAt(content, at, excluded).value in links || exists k :: 0 <= k < |links| && at <= links[k].end
    decreases |content| - start
  {
    hide LinkAt;
    var here := LinkAt(content, start, excluded);
    var links := LinksFrom(content, start, excluded);
    if here.None? {
      ScanIsComplete(content, start + 1, at, excluded);
    } else if at <= here.value.end {
      assert links[0] == here.value;
    } else {
      var rest := LinksFrom(content, here.value.end + 1, excluded);
      ScanIsComplete(content, here.value.end + 1, at, excluded);
      if LinkAt(content, at, excluded).value !in rest {
        var k :| 0 <= k < |rest| && at <= rest[k].end;
        assert links[k + 1] == rest[k];
      }
    }
  }

  lemma ScannedGrows(content: string, occurrences: seq<Occurrence>, excluded: seq<TextRange>, o: Occurrence, at: nat)
    requires Scanned(content, occurrences, excluded)
    requires PreviousEnd(occurrences, |occurrences|) < at
    requires OpensLink(content, at, excluded) && at < o.start && OccursIn(o, content, 0)
    ensures Scanned(content, occurrences + [o], excluded)
  {
    assert (occurrences + [o])[..|occurrences|] == occurrences;
    assert PreviousEnd(occurrences + [o], |occurrences|) == PreviousEnd(occurrences, |occurrences|);
  }

  // ----- Matching parsed links to scanned occurrences -----

  function NormalizeCandidateDestination(destination: string): string {
    if destination == "" then "" else TrimSuffix(TrimPrefix(TrimSpace(destination), "<"), ">")
  }

  function Normalized(destinations: seq<string>): (r: seq<string>)
    ensures |r| == |destinations| && forall i :: 0 <= i < |r| ==> r[i] == NormalizeCandidateDestination(destinations[i])
  {
    if destinations == [] then []
    else Normalized(destinations[..|destinations| - 1]) + [NormalizeCandidateDestination(destinations[|destinations| - 1])]
  }

  function Destinations(occurrences: seq<Occurrence>): (r: seq<string>)
    ensures |r| == |occurrences| && forall i :: 0 <= i < |r| ==> r[i] == occurrences[i].rawDestination
  {
    if occurrences == [] then [] else [occurrences[0].rawDestination] + Destinations(occurrences[1..])
  }

  /** The first position from `from` at which `key` stands, or the end. */
  function NextMatch(key: string, keys: seq<string>, from: nat): (r: nat)
    requires from <= |keys|
    ensures from <= r <= |keys|
    ensures forall i :: from <= i < r ==> keys[i] != key
    ensures r < |keys| ==> keys[r] == key
    decreases |keys| - from
  {
    if from == |keys| || keys[from] == key then from else NextMatch(key, keys, from + 1)
  }

  /** The occurrences taken so far, and the one to look at next. */
  datatype Progress = Progress(taken: seq<nat>, index: nat)

  /** Each candidate in turn takes the next occurrence with its destination; one without leaves nothing for the rest. */
  function GreedyMatch(wanted: seq<string>, keys: seq<string>): (p: Progress)
    ensures |p.taken| <= |wanted| && p.index <= |keys|
    ensures |p.taken| < |wanted| ==> p.index == |keys|
    ensures forall i :: 0 <= i < |p.taken| ==> p.taken[i] < |keys|
  {
    if wanted == [] then Progress([], 0)
    else
      var p := GreedyMatch(wanted[..|wanted| - 1], keys);
      var at := NextMatch(wanted[|wanted| - 1], keys, p.index);
      if at == |keys| then Progress(p.taken, at) else Progress(p.taken + [at], at + 1)
  }

  /** Each mapped candidate gets an occurrence of its own with its destination, behind those of the candidates before it. */
  lemma {:induction false} GreedyMatchIsOrdered(wanted: seq<string>, keys: seq<string>)
    ensures var p := GreedyMatch(wanted, keys);
            && (forall i :: 0 <= i < |p.taken| ==> keys[p.taken[i]] == wanted[i] && p.taken[i] < p.index)
            && (forall i, j :: 0 <= i < j < |p.taken| ==> p.taken[i] < p.taken[j])
  {
    if wanted != [] {
      GreedyMatchIsOrdered(wanted[..|wanted| - 1], keys);
    }
  }

  /** `part` occurs in `whole`, in order, at the given places. */
  ghost predicate Embeds(part: seq<string>, whole: seq<string>, places: seq<nat>) {
    && |places| == |part|
    && (forall i :: 0 <= i < |places| ==> places[i] < |whole| && whole[places[i]] == part[i])
    && (forall i, j :: 0 <= i < j < |places| ==> places[i] < places[j])
  }

  /** Greedy matching is complete: whenever some order-preserving assignment exists, every candidate gets an occurrence. */
  lemma {:induction false} GreedyMatchComplete(wanted: seq<string>, keys: seq<string>, places: seq<nat>)
    requires Embeds(wanted, keys, places)
    ensures |GreedyMatch(wanted, keys).taken| == |wanted|
    ensures places != [] ==> GreedyMatch(wanted, keys).index <= places[|places| - 1] + 1
  {
    if wanted != [] {
      var n := |wanted| - 1;
      GreedyMatchComplete(wanted[..n], keys, places[..n]);
      assert GreedyMatch(wanted[..n], keys).index <= places[n];
      assert NextMatch(wanted[n], keys, GreedyMatch(wanted[..n], keys).index) <= places[n];
    }
  }

  /** All parsed links are mapped exactly when their destinations form a subsequence of the scanned ones. */
  lemma AllMappedIffEmbedded(wanted: seq<string>, keys: seq<string>)
    ensures |GreedyMatch(wanted, keys).taken| == |wanted| <==> exists places :: Embeds(wanted, keys, places)
  {
    GreedyMatchIsOrdered(wanted, keys);
    if |GreedyMatch(wanted, keys).taken| == |wanted| {
      assert Embeds(wanted, keys, GreedyMatch(wanted, keys).taken);
    }
    if places :| Embeds(wanted, keys, places) {
      GreedyMatchComplete(wanted, keys, places);
    }
  }

  /** The replacements the matched occurrences ask for, in order. */
  function Planned(occurrences: seq<Occurrence>, taken: seq<nat>, rewrite: string -> Rewritten): seq<Replacement>
    requires forall i :: 0 <= i < |taken| ==> taken[i] < |occurrences|
  {
    if taken == [] then []
    else
      var o := occurrences[taken[|taken| - 1]];
      var r := rewrite(o.rawDestination);
      Planned(occurrences, taken[..|taken| - 1], rewrite) +
      if r.changed then [Replacement(o.start, o.end, r.destination)] else []
  }

  /** The inner loop of the plan builders: skip occurrences until one has the candidate's destination. */
  method NextOccurrence(candidate: string, occurrences: seq<Occurrence>, from: nat) returns (at: nat)
    requires from <= |occurrences|
    ensures from <= at <= |occurrences|
    ensures at == NextMatch(NormalizeCandidateDestination(candidate), Normalized(Destinations(occurrences)), from)
  {
    ghost var keys := Normalized(Destinations(occurrences));
    at := from;
    while at < |occurrences|
      invariant from <= at <= |occurrences|
      invariant NextMatch(NormalizeCandidateDestination(candidate), keys, from) == NextMatch(NormalizeCandidateDestination(candidate), keys, at)
    {
      if NormalizeCandidateDestination(occurrences[at].rawDestination) == NormalizeCandidateDestination(candidate) {
        return;
      }
      at := at + 1;
    }
  }

  /** The plan for the candidates: which occurrences are taken, decided on normalized destinations. */
  function Matching(candidates: seq<string>, occurrences: seq<Occurrence>): Progress {
    GreedyMatch(Normalized(candidates), Normalized(Destinations(occurrences)))
  }

  /**
   buildRewritePlan and buildPathChangeRewritePlan differ only in the rewriter they call.
   `unmapped` lists the candidates that get the "unsupported link syntax" warning.
   */
  method BuildRewritePlan(candidates: seq<string>, occurrences: seq<Occurrence>, rewrite: string -> Rewritten)
    returns (replacements: seq<Replacement>, unmapped: seq<string>)
    ensures replacements == Planned(occurrences, Matching(candidates, occurrences).taken, rewrite)
    ensures unmapped == candidates[|Matching(candidates, occurrences).taken|..]
  {
    replacements, unmapped := [], [];
    var occurrenceIndex: nat := 0;
    for c := 0 to |candidates|
      invariant occurrenceIndex == Matching(candidates[..c], occurrences).index
      invariant replacements == Planned(occurrences, Matching(candidates[..c], occurrences).taken, rewrite)
      invariant unmapped == candidates[|Matching(candidates[..c], occurrences).taken|..c]
    {
      ghost var p := Matching(candidates[..c], occurrences);
      var at := NextOccurrence(candidates[c], occurrences, occurrenceIndex);
      MatchingSnoc(candidates, occurrences, c);
      SliceSnoc(candidates, |p.taken|, c);
      if at < |occurrences| {
        var occurrence := occurrences[at];
        occurrenceIndex := at + 1;
        PlannedSnoc(occurrences, p.taken, rewrite, at);
        var r := rewrite(occurrence.rawDestination);
        if r.changed {
          replacements := replacements + [Replacement(occurrence.start, occurrence.end, r.destination)];
        }
      } else {
        occurrenceIndex := at;
        unmapped := unmapped + [candidates[c]];
      }
    }
    assert candidates[..|candidates|] == candidates;
  }

  lemma SliceSnoc<T>(s: seq<T>, lo: nat, c: nat)
    requires lo <= c < |s|
    ensures s[lo..c + 1] == s[lo..c] + [s[c]]
    ensures lo == c ==> s[lo..c] == [] == s[lo + 1..c + 1]
  {
  }

  lemma NormalizedSnoc(destinations: seq<string>, c: nat)
    requires c < |destinations|
    ensures Normalized(destinations[..c + 1]) == Normalized(destinations[..c]) + [NormalizeCandidateDestination(destinations[c])]
  {
    assert destinations[..c + 1][..c] == destinations[..c];
  }

  /** One more candidate. An earlier miss has used up all occurrences, so the next candidate misses too. */
  lemma {:induction false} MatchingSnoc(candidates: seq<string>, occurrences: seq<Occurrence>, c: nat)
    requires c < |candidates|
    ensures var p := Matching(candidates[..c], occurrences);
            var at := NextMatch(NormalizeCandidateDestination(candidates[c]), Normalized(Destinations(occurrences)), p.index);
            && (at < |occurrences| ==> |p.taken| == c)
            && Matching(candidates[..c + 1], occurrences) == if at == |occurrences| then Progress(p.taken, at) else Progress(p.taken + [at], at + 1)
  {
    NormalizedSnoc(candidates, c);
    var wanted := Normalized(candidates[..c + 1]);
    assert wanted[..c] == Normalized(candidates[..c]);
  }

  lemma PlannedSnoc(occurrences: seq<Occurrence>, taken: seq<nat>, rewrite: string -> Rewritten, at: nat)
    requires at < |occurrences| && forall i :: 0 <= i < |taken| ==> taken[i] < |occurrences|
    ensures var o := occurrences[at];
            var r := rewrite(o.rawDestination);
            Planned(occurrences, taken + [at], rewrite) ==
            if r.changed then Planned(occurrences, taken, rewrite) + [Replacement(o.start, o.end, r.destination)]
            else Planned(occurrences, taken, rewrite)
  {
    assert (taken + [at])[..|taken|] == taken;
  }

  // ----- The whole document -----

  lemma {:induction false} PlannedIsDisjoint(content: string, occurrences: seq<Occurrence>, excluded: seq<TextRange>, taken: seq<nat>, rewrite: string -> Rewritten)
    requires Scanned(content, occurrences, excluded)
    requires forall i :: 0 <= i < |taken| ==> taken[i] < |occurrences|
    requires forall i, j :: 0 <= i < j < |taken| ==> taken[i] < taken[j]
    ensures var plan := Planned(occurrences, taken, rewrite);
            && Disjoint(plan) && InBounds(plan, |content|)
            && forall r :: r in plan ==> taken != [] && r.end <= occurrences[taken[|taken| - 1]].end
  {
    if taken != [] {
      var n := |taken| - 1;
      var o := occurrences[taken[n]];
      ScannedEach(content, occurrences, excluded, taken[n]);
      PlannedIsDisjoint(content, occurrences, excluded, taken[..n], rewrite);
      var before := Planned(occurrences, taken[..n], rewrite);
      if n > 0 {
        ScannedApart(content, occurrences, excluded, taken[n - 1], taken[n]);
      }
    }
  }

  /**
   What Rewrite and RewriteRelativeLinksForPathChange have in common on one document: the result is the document with exactly the planned
   replacements carried out, all of them.
   */
  method RewriteDocument(content: string, candidates: seq<string>, codeRanges: seq<TextRange>, rewrite: string -> Rewritten)
    returns (out: string, ghost occurrences: seq<Occurrence>, ghost plan: seq<Replacement>, unmapped: seq<string>)
    requires StartsAscend(codeRanges)
    ensures occurrences == LinksFrom(content, 0, codeRanges) && Scanned(content, occurrences, codeRanges)
    ensures plan == Planned(occurrences, Matching(candidates, occurrences).taken, rewrite)
    ensures Disjoint(plan) && InBounds(plan, |content|) && out == Spliced(content, plan)
    ensures unmapped == candidates[|Matching(candidates, occurrences).taken|..]
  {
    var merged := MergeRanges(codeRanges);
    var found := ScanInlineLinkOccurrences(content, merged);
    ScannedSameCode(content, found, merged, codeRanges);
    LinksSameCode(content, 0, merged, codeRanges);
    var replacements;
    replacements, unmapped := BuildRewritePlan(candidates, found, rewrite);
    occurrences, plan := found, replacements;
    ghost var taken := Matching(candidates, found).taken;
    GreedyMatchIsOrdered(Normalized(candidates), Normalized(Destinations(found)));
    PlannedIsDisjoint(content, found, codeRanges, taken, rewrite);
    DisjointAllKept(replacements);
    out := ApplyReplacements(content, replacements);
  }

  /** The scan depends only on what the ranges cover. */
  lemma {:induction false} LinksSameCode(content: string, i: nat, a: seq<TextRange>, b: seq<TextRange>)
    requires forall offset :: Covered(offset, a) <==> Covered(offset, b)
    ensures LinksFrom(content, i, a) == LinksFrom(content, i, b)
    decreases |content| - i
  {
    if i < |content| {
      assert LinkAt(content, i, a) == LinkAt(content, i, b);
      hide LinkAt;
      var here := LinkAt(content, i, a);
      LinksSameCode(content, if here.Some? then here.value.end + 1 else i + 1, a, b);
    }
  }

  lemma {:induction false} ScannedSameCode(content: string, occurrences: seq<Occurrence>, a: seq<TextRange>, b: seq<TextRange>)
    requires Scanned(content, occurrences, a)
    requires forall offset :: Covered(offset, a) <==> Covered(offset, b)
    ensures Scanned(content, occurrences, b)
    decreases |occurrences|
  {
    if occurrences != [] {
      var n := |occurrences| - 1;
      ScannedSameCode(content, occurrences[..n], a, b);
      var lo, hi := PreviousEnd(occurrences, n), occurrences[n].start;
      var at :| lo < at < hi && OpensLink(content, at, a);
      assert OpensLink(content, at, b);
    }
  }

  /** The number of planned replacements that come before occurrence number k of the matched ones. */
  function PlannedBefore(occurrences: seq<Occurrence>, taken: seq<nat>, rewrite: string -> Rewritten, k: nat): seq<Replacement>
    requires k <= |taken| && forall i :: 0 <= i < |taken| ==> taken[i] < |occurrences|
  {
    Planned(occurrences, taken[..k], rewrite)
  }

  /**
   Every matched link of the document, changed or not, reads in the result as what the rewriter made of it.
   */
  lemma {:induction false} MatchedLinksReadAsRewritten(content: string, occurrences: seq<Occurrence>, excluded: seq<TextRange>,
                                                         taken: seq<nat>, rewrite: string -> Rewritten, k: nat)
    requires Scanned(content, occurrences, excluded)
    requires forall i :: 0 <= i < |taken| ==> taken[i] < |occurrences|
    requires forall i, j :: 0 <= i < j < |taken| ==> taken[i] < taken[j]
    requires k < |taken|
    requires forall d :: !rewrite(d).changed ==> rewrite(d).destination == d
    ensures var o := occurrences[taken[k]];
            Holds(Spliced(content, Planned(occurrences, taken, rewrite)),
                  o.start + Shift(PlannedBefore(occurrences, taken, rewrite, k)), rewrite(o.rawDestination).destination)
  {
    hide Scanned, Disjoint, Spliced, Holds, SplitsAt, Planned, OccursIn;
    ScannedEach(content, occurrences, excluded, taken[k]);
    PlannedIsDisjoint(content, occurrences, excluded, taken, rewrite);
    PlannedSplits(content, occurrences, excluded, taken, rewrite, k);
    SplitReadsAsRewritten(content, Planned(occurrences, taken, rewrite), PlannedBefore(occurrences, taken, rewrite, k),
                          occurrences[taken[k]], rewrite(occurrences[taken[k]].rawDestination));
  }

  lemma {:induction false} SplitReadsAsRewritten(content: string, plan: seq<Replacement>, before: seq<Replacement>, o: Occurrence, r: Rewritten)
    requires Disjoint(plan) && InBounds(plan, |content|) && SplitsAt(content, plan, before, o, r) && OccursIn(o, content, 0)
    requires !r.changed ==> r.destination == o.rawDestination
    ensures Holds(Spliced(content, plan), o.start + Shift(before), r.destination)
  {
    if r.changed {
      SplicePlacesValue(content, plan, |before|);
    } else {
      UntouchedTextStays(content, plan, |before|, o.start, o.end);
    }
  }

  /** Text that lies between two entries reads the same in the result. */
  lemma {:induction false} UntouchedTextStays(content: string, replacements: seq<Replacement>, k: nat, lo: nat, hi: nat)
    requires Disjoint(replacements) && InBounds(replacements, |content|) && k <= |replacements|
    requires GapStart(replacements, k) <= lo < hi <= GapEnd(content, replacements, k)
    ensures hi <= |content| && Holds(Spliced(content, replacements), lo + Shift(replacements[..k]), content[lo..hi])
    decreases hi
  {
    hide Spliced, Disjoint;
    SpliceCopiesGap(content, replacements, k, hi - 1);
    if lo < hi - 1 {
      UntouchedTextStays(content, replacements, k, lo, hi - 1);
    }
    HoldsSnoc(Spliced(content, replacements), lo + Shift(replacements[..k]), content, lo, hi);
  }

  lemma HoldsSnoc(out: string, at: int, content: string, lo: nat, hi: nat)
    requires lo < hi <= |content| && 0 <= at && at + hi - lo <= |out|
    requires lo < hi - 1 ==> Holds(out, at, content[lo..hi - 1])
    requires out[at + hi - 1 - lo] == content[hi - 1]
    ensures Holds(out, at, content[lo..hi])
  {
    assert content[lo..hi] == content[lo..hi - 1] + [content[hi - 1]];
    assert out[at..at + hi - lo] == out[at..at + hi - 1 - lo] + [out[at + hi - 1 - lo]];
  }

  /** The plan is what precedes link k, then link k's own entry if it has one, then entries behind it. */
  lemma {:induction false} PlannedSplits(content: string, occurrences: seq<Occurrence>, excluded: seq<TextRange>, taken: seq<nat>, rewrite: string -> Rewritten, k: nat)
    requires Scanned(content, occurrences, excluded)
    requires forall i :: 0 <= i < |taken| ==> taken[i] < |occurrences|
    requires forall i, j :: 0 <= i < j < |taken| ==> taken[i] < taken[j]
    requires k < |taken|
    ensures SplitsAt(content, Planned(occurrences, taken, rewrite), Planned(occurrences, taken[..k], rewrite),
                     occurrences[taken[k]], rewrite(occurrences[taken[k]].rawDestination))
  {
    var n := |taken| - 1;
    if k < n {
      assert taken[..n][..k] == taken[..k];
      PlannedSplits(content, occurrences, excluded, taken[..n], rewrite, k);
      ScannedApart(content, occurrences, excluded, taken[k], taken[n]);
      var last := occurrences[taken[n]];
      SplitsGrow(content, Planned(occurrences, taken[..n], rewrite), Planned(occurrences, taken[..k], rewrite),
                 occurrences[taken[k]], rewrite(occurrences[taken[k]].rawDestination),
                 Replacement(last.start, last.end, rewrite(last.rawDestination).destination));
    } else {
      assert taken[..n] == taken[..k];
      assert taken == taken[..n] + [taken[n]];
      PlannedSplitsAtEnd(content, occurrences, excluded, taken[..n], rewrite, taken[n]);
    }
  }

  lemma {:induction false} PlannedSplitsAtEnd(content: string, occurrences: seq<Occurrence>, excluded: seq<TextRange>, taken: seq<nat>, rewrite: string -> Rewritten, at: nat)
    requires Scanned(content, occurrences, excluded) && at < |occurrences|
    requires forall i :: 0 <= i < |taken| ==> taken[i] < at
    requires forall i, j :: 0 <= i < j < |taken| ==> taken[i] < taken[j]
    ensures SplitsAt(content, Planned(occurrences, taken + [at], rewrite), Planned(occurrences, taken, rewrite),
                     occurrences[at], rewrite(occurrences[at].rawDestination))
  {
    PlannedSnoc(occurrences, taken, rewrite, at);
    ScannedEach(content, occurrences, excluded, at);
    PlannedEndsBefore(content, occurrences, excluded, taken, rewrite, at);
    SplitsAtEnd(content, Planned(occurrences, taken, rewrite), occurrences[at], rewrite(occurrences[at].rawDestination));
  }

  lemma {:induction false} PlannedEndsBefore(content: string, occurrences: seq<Occurrence>, excluded: seq<TextRange>, taken: seq<nat>, rewrite: string -> Rewritten, at: nat)
    requires Scanned(content, occurrences, excluded) && at < |occurrences|
    requires forall i :: 0 <= i < |taken| ==> taken[i] < at
    requires forall i, j :: 0 <= i < j < |taken| ==> taken[i] < taken[j]
    ensures var before := Planned(occurrences, taken, rewrite);
            GapStart(before, |before|) <= occurrences[at].start
  {
    PlannedIsDisjoint(content, occurrences, excluded, taken, rewrite);
    var before := Planned(occurrences, taken, rewrite);
    if before != [] {
      assert before[|before| - 1] in before;
      ScannedApart(content, occurrences, excluded, taken[|taken| - 1], at);
    }
  }

  ghost predicate SplitsAt(content: string, plan: seq<Replacement>, before: seq<Replacement>, o: Occurrence, r: Rewritten) {
    && |before| <= |plan| && plan[..|before|] == before
    && GapStart(plan, |before|) <= o.start
    && if r.changed then |before| < |plan| && plan[|before|] == Replacement(o.start, o.end, r.destination)
       else o.end <= GapEnd(content, plan, |before|)
  }

  lemma SplitsAtEnd(content: string, before: seq<Replacement>, o: Occurrence, r: Rewritten)
    requires GapStart(before, |before|) <= o.start && o.end <= |content|
    ensures SplitsAt(content, if r.changed then before + [Replacement(o.start, o.end, r.destination)] else before, before, o, r)
  {
    var plan := if r.changed then before + [Replacement(o.start, o.end, r.destination)] else before;
    assert plan[..|before|] == before;
  }

  lemma SplitsGrow(content: string, plan: seq<Replacement>, before: seq<Replacement>, o: Occurrence, r: Rewritten, next: Replacement)
    requires SplitsAt(content, plan, before, o, r) && o.end <= next.start
    ensures SplitsAt(content, plan + [next], before, o, r)
  {
    assert (plan + [next])[..|before|] == plan[..|before|];
  }

  /** What RewriteRelativeLinksForPathChange does to one link of the moved page. */
  function MovedPageRewriter(oldCurrent: string, newCurrent: string, rules: seq<RewriteRule>): string -> Rewritten {
    d => RewriteRelativeLinkForPathChange(oldCurrent, newCurrent, d, rules)
  }

  /** What Rewrite does to one link of a page. */
  function InPlaceRewriter(currentPath: string, rules: seq<RewriteRule>): string -> Rewritten {
    d => RewriteLinkDestination(currentPath, d, rules)
  }

  /** Nothing at all is done to a page that stays where it is. */
  method RewriteRelativeLinksForPathChange(content: string, candidates: seq<string>, codeRanges: seq<TextRange>,
                                           oldCurrent: string, newCurrent: string, rules: seq<RewriteRule>)
    returns (out: string, unmapped: seq<string>)
    requires StartsAscend(codeRanges)
    ensures var occurrences := LinksFrom(content, 0, codeRanges);
            var taken := Matching(candidates, occurrences).taken;
            if oldCurrent == newCurrent then out == content && unmapped == []
            else
              && out == PathChangeText(content, occurrences, taken, oldCurrent, newCurrent, rules)
              && unmapped == if content == "" then [] else candidates[|taken|..]
  {
    hide Spliced, Planned, LinksFrom, Matching;
    ghost var occurrences := LinksFrom(content, 0, codeRanges);
    NothingPlanned(content, candidates, codeRanges, MovedPageRewriter(oldCurrent, newCurrent, rules));
    if content == "" || oldCurrent == newCurrent {
      return content, [];
    }
    if |candidates| == 0 {
      return content, [];
    }
    ghost var found, plan;
    out, found, plan, unmapped := RewriteDocument(content, candidates, codeRanges, MovedPageRewriter(oldCurrent, newCurrent, rules));
  }

  /** Nothing is done, and nothing warned about, without rules. */
  method Rewrite(content: string, candidates: seq<string>, codeRanges: seq<TextRange>, currentPath: string, rules: seq<RewriteRule>)
    returns (out: string, unmapped: seq<string>)
    requires StartsAscend(codeRanges)
    ensures var occurrences := LinksFrom(content, 0, codeRanges);
            var taken := Matching(candidates, occurrences).taken;
            && out == Spliced(content, Planned(occurrences, taken, InPlaceRewriter(currentPath, rules)))
            && unmapped == if rules == [] || content == "" then [] else candidates[|taken|..]
  {
    hide Spliced, Planned, LinksFrom, Matching, ResolveURLPath;
    NothingPlanned(content, candidates, codeRanges, InPlaceRewriter(currentPath, rules));
    if |rules| == 0 || content == "" {
      return content, [];
    }
    if |candidates| == 0 {
      return content, [];
    }
    ghost var found, plan;
    out, found, plan, unmapped := RewriteDocument(content, candidates, codeRanges, InPlaceRewriter(currentPath, rules));
  }

  /** The matched occurrences are occurrences, and without text, candidates or changes the document stays as it is. */
  lemma NothingPlanned(content: string, candidates: seq<string>, codeRanges: seq<TextRange>, rewrite: string -> Rewritten)
    ensures var occurrences := LinksFrom(content, 0, codeRanges);
            var taken := Matching(candidates, occurrences).taken;
            && (forall i :: 0 <= i < |taken| ==> taken[i] < |occurrences|)
            && (forall i, j :: 0 <= i < j < |taken| ==> taken[i] < taken[j])
            && |taken| <= |candidates|
            && (content == "" || candidates == [] || (forall d :: !rewrite(d).changed) ==>
                  Spliced(content, Planned(occurrences, taken, rewrite)) == content)
  {
    var occurrences := LinksFrom(content, 0, codeRanges);
    var taken := Matching(candidates, occurrences).taken;
    GreedyMatchIsOrdered(Normalized(candidates), Normalized(Destinations(occurrences)));
    if forall d :: !rewrite(d).changed {
      NoChangeNoPlan(occurrences, taken, rewrite);
    }
  }

  lemma {:induction false} NoChangeNoPlan(occurrences: seq<Occurrence>, taken: seq<nat>, rewrite: string -> Rewritten)
    requires forall i :: 0 <= i < |taken| ==> taken[i] < |occurrences|
    requires forall d :: !rewrite(d).changed
    ensures Planned(occurrences, taken, rewrite) == []
  {
    if taken != [] {
      NoChangeNoPlan(occurrences, taken[..|taken| - 1], rewrite);
    }
  }

  /** The text RewriteRelativeLinksForPathChange writes back, given the links that were matched. */
  function PathChangeText(content: string, occurrences: seq<Occurrence>, taken: seq<nat>,
                          oldCurrent: string, newCurrent: string, rules: seq<RewriteRule>): string
    requires forall i :: 0 <= i < |taken| ==> taken[i] < |occurrences|
  {
    if oldCurrent == newCurrent then content
    else Spliced(content, Planned(occurrences, taken, MovedPageRewriter(oldCurrent, newCurrent, rules)))
  }

  /**
   Main result for a moved document: in the text that is written back, every relative page link that was matched reads,
   from the page's new path, as the page it named before, after the move, and its query and fragment are what they were;
   only links to the page itself may differ, and those are warned about. A page that stays where it is keeps its text.
   */
  lemma {:induction false} MovedDocumentKeepsMeaning(content: string, occurrences: seq<Occurrence>, code: seq<TextRange>, taken: seq<nat>,
                                  oldCurrent: string, newCurrent: string, rules: seq<RewriteRule>, k: nat)
    requires Scanned(content, occurrences, code)
    requires forall i :: 0 <= i < |taken| ==> taken[i] < |occurrences|
    requires forall i, j :: 0 <= i < j < |taken| ==> taken[i] < taken[j]
    requires RulesMovePages(rules) && IsPagePath(newCurrent) && k < |taken|
    ensures oldCurrent == newCurrent ==> PathChangeText(content, occurrences, taken, oldCurrent, newCurrent, rules) == content
    ensures oldCurrent != newCurrent ==>
            var rewrite := MovedPageRewriter(oldCurrent, newCurrent, rules);
            var o := occurrences[taken[k]];
            var (baseDest, suffix) := SplitLinkDestination(o.rawDestination);
            var written := rewrite(o.rawDestination).destination;
            && Holds(PathChangeText(content, occurrences, taken, oldCurrent, newCurrent, rules),
                     o.start + Shift(PlannedBefore(occurrences, taken, rewrite, k)), written)
            && SplitLinkDestination(written).1 == suffix
            && (IsPageLink(baseDest) && !IsAbsolute(baseDest) && !rewrite(o.rawDestination).warned ==>
                  ResolveURLPath(newCurrent, SplitLinkDestination(written).0) == Meant(oldCurrent, baseDest, rules))
  {
    hide Scanned, Spliced, Planned, PlannedBefore, Holds, RewriteRelativeLinkForPathChange, ResolveURLPath, Meant, IsPageLink, IsAbsolute;
    hide RulesMovePages, IsPagePath, SplitLinkDestination;
    var rewrite := MovedPageRewriter(oldCurrent, newCurrent, rules);
    forall d | !rewrite(d).changed
      ensures rewrite(d).destination == d
    {
      PathChangeKeepsMeaning(oldCurrent, newCurrent, d, rules);
    }
    MatchedLinksReadAsRewritten(content, occurrences, code, taken, rewrite, k);
    PathChangeKeepsMeaning(oldCurrent, newCurrent, occurrences[taken[k]].rawDestination, rules);
  }
}
