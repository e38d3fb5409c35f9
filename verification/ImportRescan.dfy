/**
 TransformContent (backend/internal/importer/content_transformer.go) with its own first pass: links whose new addresses
 bring no newline and no backtick leave plain text plain, so the second scan of the page finds the same code.
 */
module ImportRescan {
  import opened Wrappers
  import opened Text
  import opened CodeSpans
  import opened CodeRescan
  import opened ImportLinks

  // ----- Fences, by the text itself -----

  predicate Triple(t: string) {
    |t| >= 3 && IsMark(t[0]) && t[1] == t[0] && t[2] == t[0]
  }

  /** The text begins with at most k spaces and three equal marks. */
  predicate Opens(t: string, k: nat) {
    Triple(t) || (k > 0 && t != "" && t[0] == ' ' && Opens(t[1..], k - 1))
  }

  lemma {:induction false} OpensByRun(s: string, i: nat, k: nat)
    requires i <= |s|
    ensures Opens(s[i..], k) <==>
            var at := i + Run(s, i, ' '); at - i <= k && at < |s| && IsMark(s[at]) && Run(s, at, s[at]) >= 3
    decreases k
  {
    if i < |s| {
      TripleByRun(s, i);
      if s[i] == ' ' && k > 0 {
        assert s[i..][1..] == s[i + 1..];
        OpensByRun(s, i + 1, k - 1);
      }
    }
  }

  lemma TripleByRun(s: string, i: nat)
    requires i < |s|
    ensures Triple(s[i..]) <==> IsMark(s[i]) && Run(s, i, s[i]) >= 3
  {
    var c := s[i];
    assert Run(s, i, c) == 1 + Run(s, i + 1, c);
    if i + 1 < |s| && s[i + 1] == c {
      assert Run(s, i + 1, c) == 1 + Run(s, i + 2, c);
    }
  }

  lemma FenceAtOpens(s: string, i: nat)
    requires i < |s|
    ensures FenceAt(s, i).Some? <==> IsLineStart(s, i) && Opens(s[i..], 3)
  {
    OpensByRun(s, i, 3);
  }

  /** No code starts in the first n characters of the text; `bol` tells whether it begins a line. */
  predicate PlainStart(t: string, bol: bool, n: nat)
    requires n <= |t|
    decreases n
  {
    n > 0 ==> t[0] != '`' && !(bol && Opens(t, 3)) && PlainStart(t[1..], t[0] == '\n', n - 1)
  }

  lemma {:induction false} PlainStartOfContent(s: string, i: nat)
    requires i <= |s|
    ensures PlainStart(s[i..], IsLineStart(s, i), PlainEnd(s, i) - i)
    decreases |s| - i
  {
    if i < |s| && !StartsCode(s, i) {
      FenceAtOpens(s, i);
      PlainStartOfContent(s, i + 1);
      assert s[i..][1..] == s[i + 1..];
    }
  }

  lemma {:induction false} PlainEndBehindStart(s: string, i: nat, n: nat)
    requires i + n <= |s| && PlainStart(s[i..], IsLineStart(s, i), n)
    requires i + n == |s| || StartsCode(s, i + n)
    ensures PlainEnd(s, i) == i + n
    decreases n
  {
    if n > 0 {
      FenceAtOpens(s, i);
      assert s[i..][1..] == s[i + 1..];
      PlainEndBehindStart(s, i + 1, n - 1);
    }
  }

  // ----- Text that begins alike, as far as fences are concerned -----

  predicate IsFenceText(c: char) {
    c == ' ' || IsMark(c)
  }

  /** The spaces and marks with which `new` begins, `was` begins with too. */
  predicate StartsLike(next: string, was: string) {
    next == "" || !IsFenceText(next[0]) || (was != "" && was[0] == next[0] && StartsLike(next[1..], was[1..]))
  }

  lemma {:induction false} OpensLike(next: string, was: string, k: nat)
    requires StartsLike(next, was) && Opens(next, k)
    ensures Opens(was, k)
  {
    if Triple(next) {
      assert StartsLike(next[1..], was[1..]);
      assert StartsLike(next[1..][1..], was[1..][1..]);
    } else {
      OpensLike(next[1..], was[1..], k - 1);
    }
  }

  lemma {:induction false} PrefixStartsLike(s: string, n: nat)
    requires n <= |s|
    ensures StartsLike(s[..n], s)
  {
    if n > 0 {
      PrefixStartsLike(s[1..], n - 1);
      assert s[..n][1..] == s[1..][..n - 1];
    }
  }

  /** Copied text, except that a backslash may have become a slash. */
  predicate Copied(copy: string, text: string) {
    |copy| == |text| && forall k :: 0 <= k < |copy| ==> copy[k] == text[k] || (copy[k] == '/' && text[k] == '\\')
  }

  lemma CopiedRest(copy: string, text: string, next: string, was: string)
    requires Copied(copy, text) && copy != ""
    ensures Copied(copy[1..], text[1..]) && (copy + next)[1..] == copy[1..] + next && (text + was)[1..] == text[1..] + was
  {
  }

  lemma {:induction false} CopiedStartsLike(copy: string, text: string, next: string, was: string)
    requires Copied(copy, text) && StartsLike(next, was)
    ensures StartsLike(copy + next, text + was)
  {
    if copy == "" {
      assert copy + next == next && text + was == was;
    } else {
      CopiedRest(copy, text, next, was);
      CopiedStartsLike(copy[1..], text[1..], next, was);
    }
  }

  /** Text copied from plain text is plain where it stands now, if what follows begins like what followed. */
  lemma {:induction false} CopiedStaysPlain(copy: string, text: string, next: string, was: string, bol: bool, wasBol: bool)
    requires Copied(copy, text) && StartsLike(next, was) && (bol ==> wasBol) && PlainStart(text + was, wasBol, |text|)
    ensures PlainStart(copy + next, bol, |copy|)
  {
    if copy != "" {
      CopiedStartsLike(copy, text, next, was);
      if bol && Opens(copy + next, 3) {
        OpensLike(copy + next, text + was, 3);
      }
      CopiedRest(copy, text, next, was);
      CopiedStaysPlain(copy[1..], text[1..], next, was, copy[0] == '\n', text[0] == '\n');
    }
  }

  /** Whether text behind `head` begins a line. */
  predicate BolBehind(head: string, bol: bool) {
    if head == "" then bol else head[|head| - 1] == '\n'
  }

  lemma {:induction false} PlainStartAppend(head: string, tail: string, bol: bool, n: nat)
    requires n <= |tail|
    ensures PlainStart(head + tail, bol, |head| + n) <==> PlainStart(head + tail, bol, |head|) && PlainStart(tail, BolBehind(head, bol), n)
  {
    if head == "" {
      assert head + tail == tail;
    } else {
      assert (head + tail)[1..] == head[1..] + tail;
      PlainStartAppend(head[1..], tail, head[0] == '\n', n);
    }
  }

  /** Text without newline and backtick in the middle of a line. */
  lemma {:induction false} LineStaysPlain(text: string, next: string)
    requires Free(text, {'\n', '`'})
    ensures PlainStart(text + next, false, |text|)
  {
    if text != "" {
      assert text[0] in text && forall c :: c in text[1..] ==> c in text;
      assert (text + next)[1..] == text[1..] + next;
      LineStaysPlain(text[1..], next);
    }
  }

  // ----- One link -----

  /**
   A new address: text without newline and backtick, then perhaps the end of the old address (its query and fragment),
   backslashes read as slashes.
   */
  predicate IsAddress(href: string, resolved: string, kept: nat) {
    && kept < |resolved| && kept <= |href|
    && Free(resolved[..|resolved| - kept], {'\n', '`'})
    && Copied(resolved[|resolved| - kept..], href[|href| - kept..])
  }

  /** An address on the page, and the new one it is given. */
  datatype Address = Address(href: string, resolved: string)

  ghost predicate Harmless(a: Address) {
    exists kept :: IsAddress(a.href, a.resolved, kept)
  }

  /** The address that a link with this destination is given, if any. */
  function NewAddresses(destination: string, resolve: string -> Result<string>): set<Address> {
    var trimmed := TrimSpace(destination);
    if trimmed == "" then {}
    else
      var href := SplitMarkdownDestination(trimmed).href;
      match resolve(href)
      case Err(_) => {}
      case Ok(resolved) => if resolved == "" then {} else {Address(href, resolved)}
  }

  function PieceAddresses(pieces: seq<Piece>, resolve: string -> Result<string>): set<Address> {
    if pieces == [] then {}
    else (if pieces[0].Link? then NewAddresses(pieces[0].destination, resolve) else {}) + PieceAddresses(pieces[1..], resolve)
  }

  /** All addresses that the links of a page outside code are given. */
  function PageAddresses(segments: seq<Segment>, resolve: string -> Result<string>): set<Address> {
    if segments == [] then {}
    else (if segments[0].Plain? then PieceAddresses(Pieces(segments[0].text, 0), resolve) else {}) + PageAddresses(segments[1..], resolve)
  }

  ghost predicate AllHarmless(addresses: set<Address>) {
    forall a :: a in addresses ==> Harmless(a)
  }

  /** How the destination of a plain link is cut up. */
  lemma TrimmedParts(destination: string) returns (left: string, right: string)
    ensures destination == left + (TrimSpace(destination) + right)
  {
    TrimLeftIsSuffix(destination);
    left := destination[..|destination| - |TrimLeftSpace(destination)|];
    TrimRightIsPrefix(TrimLeftSpace(destination));
    right := TrimLeftSpace(destination)[|TrimSpace(destination)|..];
  }

  lemma {:induction false} TrimLeftIsSuffix(s: string)
    ensures |TrimLeftSpace(s)| <= |s| && TrimLeftSpace(s) == s[|s| - |TrimLeftSpace(s)|..]
  {
    if s != "" && IsSpace(s[0]) {
      TrimLeftIsSuffix(s[1..]);
    }
  }

  /** A rewritten destination and its parenthesis, behind the opening one. */
  lemma {:induction false} DestinationStaysPlain(destination: string, resolve: string -> Result<string>, next: string, was: string)
    requires AllHarmless(NewAddresses(destination, resolve)) && RewriteDestination(destination, resolve).Ok?
    requires PlainStart(destination + ([')'] + was), false, |destination| + 1)
    ensures var written := RewriteDestination(destination, resolve).value;
            PlainStart(written + ([')'] + next), false, |written| + 1)
  {
    hide PlainStart, StartsLike, Copied, RewriteDestination, AllHarmless, NewAddresses, TrimSpace;
    var written := RewriteDestination(destination, resolve).value;
    PlainStartAppend(destination, [')'] + was, false, 1);
    ClosingIsPlain(next);
    CopiedItself(destination);
    if written == destination {
      CopiedStaysPlain(destination, destination, [')'] + next, [')'] + was, false, false);
    } else {
      ResolvedStaysPlain(destination, resolve, next, [')'] + was);
    }
    PlainStartAppend(written, [')'] + next, false, 1);
    ClosingAnywhere(next, BolBehind(written, false));
  }

  lemma {:induction false} ResolvedStaysPlain(destination: string, resolve: string -> Result<string>, next: string, was: string)
    requires AllHarmless(NewAddresses(destination, resolve)) && RewriteDestination(destination, resolve).Ok?
    requires RewriteDestination(destination, resolve).value != destination
    requires PlainStart(destination + was, false, |destination|)
    ensures var written := RewriteDestination(destination, resolve).value;
            PlainStart(written + ([')'] + next), false, |written|)
  {
    hide PlainStart, StartsLike, Copied, TrimSpace, SplitMarkdownDestination, IsAddress;
    var p := SplitMarkdownDestination(TrimSpace(destination));
    var resolved := resolve(p.href).value;
    assert Address(p.href, resolved) in NewAddresses(destination, resolve);
    var kept :| IsAddress(p.href, resolved, kept);
    var left, right := TrimmedParts(destination);
    ClosingIsPlain(next);
    WrapperIsPlain(TrimSpace(destination));
    AddressStaysPlain(left, p, right, resolved, kept, next, was);
  }

  lemma WrapperIsPlain(trimmed: string)
    ensures Free(SplitMarkdownDestination(trimmed).prefix, {'\n', '`'})
  {
  }

  lemma CopiedItself(text: string)
    ensures Copied(text, text)
  {
  }

  lemma ClosingIsPlain(next: string)
    ensures forall was :: StartsLike([')'] + next, was)
  {
  }

  lemma ClosingAnywhere(next: string, bol: bool)
    ensures PlainStart([')'] + next, bol, 1)
  {
    assert !Triple([')'] + next);
  }

  lemma {:induction false} AddressStaysPlain(left: string, p: Parts, right: string, resolved: string, kept: nat, next: string, was: string)
    requires Free(p.prefix, {'\n', '`'}) && IsAddress(p.href, resolved, kept) && StartsLike([')'] + next, right + was)
    requires var d := left + ((p.prefix + p.href + p.suffix) + right); PlainStart(d + was, false, |d|)
    ensures var written := p.prefix + resolved + p.suffix; PlainStart(written + ([')'] + next), false, |written|)
  {
    hide PlainStart, StartsLike, Copied;
    var cut, from := |resolved| - kept, |p.href| - kept;
    var line := p.prefix + resolved[..cut];
    var copy, text := resolved[cut..] + p.suffix, p.href[from..] + p.suffix;
    var before := left + p.prefix + p.href[..from];
    var behind := right + was;
    assert p.href == p.href[..from] + p.href[from..] && resolved == resolved[..cut] + resolved[cut..];
    assert (left + ((p.prefix + p.href + p.suffix) + right)) + was == before + (text + behind);
    assert p.prefix + resolved + p.suffix == line + copy;
    assert (line + copy) + ([')'] + next) == line + (copy + ([')'] + next));
    PlainShorter(before + (text + behind), false, |before| + |text|, |before| + |text| + |right|);
    PlainStartAppend(before, text + behind, false, |text|);
    CopiedTogether(resolved[cut..], p.href[from..], p.suffix);
    CopiedStaysPlain(copy, text, [')'] + next, behind, false, BolBehind(before, false));
    LineStaysPlain(line, copy + ([')'] + next));
    assert line[|line| - 1] in line;
    PlainStartAppend(line, copy + ([')'] + next), false, |copy|);
  }

  lemma CopiedTogether(copy: string, text: string, suffix: string)
    requires Copied(copy, text)
    ensures Copied(copy + suffix, text + suffix)
  {
  }

  lemma {:induction false} PlainShorter(t: string, bol: bool, n: nat, more: nat)
    requires n <= more <= |t| && PlainStart(t, bol, more)
    ensures PlainStart(t, bol, n)
    decreases n
  {
    if n > 0 {
      PlainShorter(t[1..], t[0] == '\n', n - 1, more - 1);
    }
  }

  // ----- All pieces of a plain segment -----

  /** Copied text is not empty; a link is copied up to an opening parenthesis, and its destination ends with a closing one. */
  predicate IsShaped(p: Piece) {
    match p
    case Text(text) => text != ""
    case Link(before, _, after) => before != "" && before[|before| - 1] == '(' && after == [')']
  }

  lemma HeadIsShaped(s: string, i: nat)
    requires i < |s|
    ensures IsShaped(HeadPiece(s, i).piece)
  {
    hide IndexFrom, DestinationEnd;
  }

  lemma {:induction false} PiecesAreShaped(s: string, i: nat)
    requires i <= |s|
    ensures forall k :: 0 <= k < |Pieces(s, i)| ==> IsShaped(Pieces(s, i)[k])
    decreases |s| - i
  {
    if i < |s| {
      HeadIsShaped(s, i);
      PiecesAreShaped(s, HeadPiece(s, i).next);
    }
  }

  /** One piece: what it becomes is plain, and begins and ends as it did. */
  lemma {:induction false} PieceStaysPlain(p: Piece, resolve: string -> Result<string>, next: string, was: string, bol: bool)
    requires IsShaped(p) && RewrittenPiece(p, resolve).Ok? && StartsLike(next, was)
    requires p.Link? ==> AllHarmless(NewAddresses(p.destination, resolve))
    requires PlainStart(Full(p) + was, bol, |Full(p)|)
    ensures var written := RewrittenPiece(p, resolve).value;
            && written != "" && Full(p) != "" && BolBehind(written, bol) == BolBehind(Full(p), bol)
            && PlainStart(written + next, bol, |written|) && StartsLike(written + next, Full(p) + was)
  {
    hide PlainStart, StartsLike, RewriteDestination, NewAddresses, AllHarmless, BolBehind;
    match p
    case Text(text) =>
      CopiedItself(text);
      CopiedStaysPlain(text, text, next, was, bol, bol);
      CopiedStartsLike(text, text, next, was);
    case Link(before, destination, after) =>
      var rewritten := RewriteDestination(destination, resolve).value;
      ThreePartsOfLink(before, destination, after, was, bol);
      ThreePartsOfLink(before, rewritten, after, next, bol);
      LinkStaysPlain(before, destination, rewritten, resolve, next, was, bol);
  }

  lemma ThreePartsOfLink(before: string, destination: string, after: string, behind: string, bol: bool)
    requires after == [')']
    ensures before + destination + after == before + (destination + [')'])
    ensures before + destination + after + behind == before + (destination + [')']) + behind
    ensures |before + destination + after| == |before| + |destination| + 1
    ensures before + destination + after != "" && BolBehind(before + destination + after, bol) == false
  {
  }

  lemma {:induction false} LinkStaysPlain(before: string, destination: string, rewritten: string, resolve: string -> Result<string>,
                                          next: string, was: string, bol: bool)
    requires before != "" && before[|before| - 1] == '('
    requires AllHarmless(NewAddresses(destination, resolve)) && RewriteDestination(destination, resolve) == Ok(rewritten)
    requires PlainStart(before + (destination + [')']) + was, bol, |before| + |destination| + 1)
    ensures PlainStart(before + (rewritten + [')']) + next, bol, |before| + |rewritten| + 1)
    ensures StartsLike(before + (rewritten + [')']) + next, before + (destination + [')']) + was)
  {
    hide PlainStart, RewriteDestination, NewAddresses, AllHarmless;
    var behind, now := destination + ([')'] + was), rewritten + ([')'] + next);
    assert before + (destination + [')']) + was == before + behind;
    assert before + (rewritten + [')']) + next == before + now;
    PlainStartAppend(before, behind, bol, |destination| + 1);
    DestinationStaysPlain(destination, resolve, next, was);
    ParenStops(before, now, behind);
    CopiedItself(before);
    ParenStaysPlain(before, now, behind, bol);
    PlainStartAppend(before, now, bol, |rewritten| + 1);
  }

  /** What stands behind a parenthesis makes no difference to fences before it. */
  lemma {:induction false} ParenStops(before: string, next: string, was: string)
    requires before != "" && before[|before| - 1] == '('
    ensures StartsLike(before + next, before + was)
  {
    var init := before[..|before| - 1];
    CopiedItself(init);
    assert StartsLike(['('] + next, ['('] + was);
    CopiedStartsLike(init, init, ['('] + next, ['('] + was);
    assert before + next == init + (['('] + next) && before + was == init + (['('] + was);
  }

  lemma {:induction false} ParenStaysPlain(before: string, next: string, was: string, bol: bool)
    requires before != "" && before[|before| - 1] == '(' && PlainStart(before + was, bol, |before|)
    ensures PlainStart(before + next, bol, |before|)
  {
    var init := before[..|before| - 1];
    CopiedItself(init);
    assert StartsLike(['('] + next, ['('] + was);
    assert before + next == init + (['('] + next) && before + was == init + (['('] + was);
    PlainStartAppend(init, ['('] + was, bol, 1);
    CopiedStaysPlain(init, init, ['('] + next, ['('] + was, bol, bol);
    assert !Triple(['('] + next);
    PlainStartAppend(init, ['('] + next, bol, 1);
  }

  /** All pieces: the new text of a plain segment is plain before code that begins as what followed the segment. */
  lemma {:induction false} PiecesStayPlain(pieces: seq<Piece>, resolve: string -> Result<string>, next: string, was: string, bol: bool)
    requires (forall k :: 0 <= k < |pieces| ==> IsShaped(pieces[k])) && AllHarmless(PieceAddresses(pieces, resolve))
    requires RewrittenPieces(pieces, resolve).Ok? && StartsLike(next, was)
    requires PlainStart(PieceTexts(pieces) + was, bol, |PieceTexts(pieces)|)
    ensures var written := RewrittenPieces(pieces, resolve).value;
            && (written == "" <==> PieceTexts(pieces) == "") && BolBehind(written, bol) == BolBehind(PieceTexts(pieces), bol)
            && PlainStart(written + next, bol, |written|) && StartsLike(written + next, PieceTexts(pieces) + was)
  {
    hide PlainStart, StartsLike, IsShaped, AllHarmless, NewAddresses, RewrittenPiece, Full;
    if pieces == [] {
      assert "" + next == next && "" + was == was;
      NothingIsPlain(next, bol);
    } else {
      var head, rest := pieces[0], pieces[1..];
      var first, others := RewrittenPiece(head, resolve).value, RewrittenPieces(rest, resolve).value;
      PlainStartAppend(Full(head), PieceTexts(rest) + was, bol, |PieceTexts(rest)|);
      assert Full(head) + PieceTexts(rest) + was == Full(head) + (PieceTexts(rest) + was);
      HeadSucceeds(pieces, resolve);
      HeadIsHarmless(pieces, resolve);
      PiecesStayPlain(rest, resolve, next, was, BolBehind(Full(head), bol));
      PieceStaysPlain(head, resolve, others + next, PieceTexts(rest) + was, bol);
      assert first + others + next == first + (others + next);
      PlainStartAppend(first, others + next, bol, |others|);
      BolBehindBoth(first, others, bol);
      BolBehindBoth(Full(head), PieceTexts(rest), bol);
    }
  }

  lemma HeadSucceeds(pieces: seq<Piece>, resolve: string -> Result<string>)
    requires pieces != [] && RewrittenPieces(pieces, resolve).Ok?
    ensures RewrittenPiece(pieces[0], resolve).Ok? && RewrittenPieces(pieces[1..], resolve).Ok?
    ensures RewrittenPieces(pieces, resolve).value == RewrittenPiece(pieces[0], resolve).value + RewrittenPieces(pieces[1..], resolve).value
  {
  }

  lemma HeadIsHarmless(pieces: seq<Piece>, resolve: string -> Result<string>)
    requires pieces != [] && AllHarmless(PieceAddresses(pieces, resolve))
    ensures pieces[0].Link? ==> AllHarmless(NewAddresses(pieces[0].destination, resolve))
    ensures AllHarmless(PieceAddresses(pieces[1..], resolve))
  {
    hide NewAddresses, Harmless;
  }

  lemma NothingIsPlain(t: string, bol: bool)
    ensures PlainStart(t, bol, 0)
  {
  }

  lemma BolBehindBoth(a: string, b: string, bol: bool)
    requires a != ""
    ensures BolBehind(a + b, bol) == BolBehind(b, BolBehind(a, bol))
  {
  }

  // ----- The first pass is tame -----

  /** The text the link pass makes of a segment. */
  function PassText(resolve: string -> Result<string>): string -> string {
    segment => match LinkPass(resolve)(segment) case Ok(text) => text case Err(_) => segment
  }

  lemma {:induction false} SegmentStaysPlain(s: string, i: nat, resolve: string -> Result<string>)
    requires i <= |s| && LinkPass(resolve)(s[i..PlainEnd(s, i)]).Ok?
    requires AllHarmless(PieceAddresses(Pieces(s[i..PlainEnd(s, i)], 0), resolve))
    ensures var p := PlainEnd(s, i);
            StaysPlain(s[i..p], PassText(resolve)(s[i..p]), CodeAt(s, p), IsLineStart(s, i))
  {
    hide PlainEnd, CodeEnd, StartsCode, PlainStart, Agree, CodeAt, StaysPlain, RewrittenPieces, Pieces, PieceAddresses, AllHarmless;
    var p := PlainEnd(s, i);
    PassIsPlain(s, i, s[i..p], PassText(resolve)(s[i..p]), resolve);
    PlainTextStays(s, i, p, PassText(resolve)(s[i..p]));
  }

  /** What the pass makes of the segment x at i is plain before its code. */
  lemma {:induction false} PassIsPlain(s: string, i: nat, x: string, y: string, resolve: string -> Result<string>)
    requires i <= |s| && x == s[i..PlainEnd(s, i)] && RewrittenPieces(Pieces(x, 0), resolve) == Ok(y)
    requires AllHarmless(PieceAddresses(Pieces(x, 0), resolve))
    ensures var bol := IsLineStart(s, i);
            && (y == "" <==> x == "") && BolBehind(y, bol) == BolBehind(x, bol)
            && PlainStart(y + CodeAt(s, PlainEnd(s, i)), bol, |y|)
  {
    hide PlainEnd, CodeEnd, StartsCode, PlainStart, StartsLike, RewrittenPieces, Pieces, CodeAt, PieceAddresses, AllHarmless;
    var p := PlainEnd(s, i);
    PlainStartOfContent(s, i);
    PiecesAreShaped(x, 0);
    PiecesAreTheContent(x, 0);
    assert x[0..] == x && s[i..] == x + s[p..];
    CodeStartsLike(s, p);
    PiecesStayPlain(Pieces(x, 0), resolve, CodeAt(s, p), s[p..], IsLineStart(s, i));
  }

  lemma PlainTextStays(s: string, i: nat, p: nat, y: string)
    requires i <= p <= |s| && (p < |s| ==> StartsCode(s, p))
    requires (y == "" <==> s[i..p] == "") && BolBehind(y, IsLineStart(s, i)) == BolBehind(s[i..p], IsLineStart(s, i))
    requires PlainStart(y + CodeAt(s, p), IsLineStart(s, i), |y|)
    ensures StaysPlain(s[i..p], y, CodeAt(s, p), IsLineStart(s, i))
  {
    hide PlainEnd, CodeEnd, StartsCode, PlainStart, Agree, FenceAt;
    var bol, code := IsLineStart(s, i), CodeAt(s, p);
    if p < |s| {
      CodeIsFound(s, i, p, if bol then "" else "`", y);
      assert code != "";
    }
    LeadIsScanned(if bol then "" else "`", y, code, bol);
  }

  lemma LeadIsScanned(lead: string, y: string, code: string, bol: bool)
    requires PlainStart(y + code, bol, |y|) && lead == (if bol then "" else "`")
    requires code != "" ==> StartsCode(lead + y + code, |lead| + |y|)
    ensures PlainEnd(lead + y + code, |lead|) == |lead| + |y|
  {
    hide PlainEnd, StartsCode, PlainStart;
    var z := lead + y + code;
    assert z == lead + (y + code) && z[|lead|..] == y + code;
    LeadBeginsLine(bol, y + code);
    PlainEndBehindStart(z, |lead|, |y|);
  }

  lemma CodeStartsLike(s: string, p: nat)
    requires p <= |s| && (p < |s| ==> StartsCode(s, p))
    ensures StartsLike(CodeAt(s, p), s[p..])
  {
    hide CodeEnd, StartsCode;
    if p < |s| {
      PrefixStartsLike(s[p..], CodeEnd(s, p) - p);
      assert s[p..][..CodeEnd(s, p) - p] == s[p..CodeEnd(s, p)];
    }
  }

  lemma CodeIsFound(s: string, i: nat, p: nat, lead: string, y: string)
    requires i <= p < |s| && StartsCode(s, p) && lead == (if IsLineStart(s, i) then "" else "`")
    requires (y == "" <==> s[i..p] == "") && BolBehind(y, IsLineStart(s, i)) == BolBehind(s[i..p], IsLineStart(s, i))
    ensures var z := lead + y + s[p..CodeEnd(s, p)]; StartsCode(z, |lead| + |y|)
  {
    hide Agree, CodeEnd, StartsCode, FenceAt;
    var code := s[p..CodeEnd(s, p)];
    var z, at := lead + y + code, |lead| + |y|;
    MiddleAgrees(lead, y, code);
    SliceAgrees(s, p, CodeEnd(s, p));
    AgreeBack(s, p, code, 0, |code|);
    AgreeBack(code, 0, s, p, |code|);
    AgreeVia(z, at, s, p, code, 0, |code|);
    LocalCodeEnd(z, at, s, p, |code|);
  }

  lemma FirstSucceeds(s: string, i: nat, first: string -> Result<string>)
    requires i <= |s| && Rewritten(Segments(s, i), first).Ok?
    ensures first(s[i..PlainEnd(s, i)]).Ok?
    ensures PlainEnd(s, i) < |s| ==> Rewritten(Segments(s, CodeEnd(s, PlainEnd(s, i))), first).Ok?
  {
    hide PlainEnd, CodeEnd, StartsCode;
    var p := PlainEnd(s, i);
    if p < |s| {
      RewrittenTwo(s[i..p], s[p..CodeEnd(s, p)], Segments(s, CodeEnd(s, p)), first);
    } else {
      assert s[i..p] == s[i..];
      OnePlain(s[i..], first);
    }
  }

  /** The addresses of the first segment, and those behind its code. */
  lemma FirstAddresses(s: string, i: nat, resolve: string -> Result<string>)
    requires i <= |s|
    ensures var p := PlainEnd(s, i);
            PageAddresses(Segments(s, i), resolve) ==
            PieceAddresses(Pieces(s[i..p], 0), resolve) + if p < |s| then PageAddresses(Segments(s, CodeEnd(s, p)), resolve) else {}
  {
    hide PlainEnd, CodeEnd, StartsCode, PieceAddresses, Pieces;
    var p := PlainEnd(s, i);
    if p < |s| {
      var rest := Segments(s, CodeEnd(s, p));
      var all := [Plain(s[i..p]), Code(s[p..CodeEnd(s, p)])] + rest;
      assert all[1..] == [Code(s[p..CodeEnd(s, p)])] + rest && all[1..][1..] == rest;
    } else {
      assert s[i..p] == s[i..];
      assert [Plain(s[i..])][1..] == [];
    }
  }

  lemma FirstIsHarmless(s: string, i: nat, resolve: string -> Result<string>)
    requires i <= |s| && AllHarmless(PageAddresses(Segments(s, i), resolve))
    ensures var p := PlainEnd(s, i);
            && AllHarmless(PieceAddresses(Pieces(s[i..p], 0), resolve))
            && (p < |s| ==> AllHarmless(PageAddresses(Segments(s, CodeEnd(s, p)), resolve)))
  {
    hide PlainEnd, CodeEnd, StartsCode, PieceAddresses, PageAddresses, Pieces, Segments, Harmless;
    FirstAddresses(s, i, resolve);
  }

  lemma SegmentsSucceed(s: string, i: nat, first: string -> Result<string>, f: string -> string)
    requires i <= |s| && first(s[i..PlainEnd(s, i)]) == Ok(f(s[i..PlainEnd(s, i)]))
    requires PlainEnd(s, i) < |s| ==> Succeeds(Segments(s, CodeEnd(s, PlainEnd(s, i))), first, f)
    ensures Succeeds(Segments(s, i), first, f)
  {
    hide PlainEnd, CodeEnd, StartsCode;
    var p := PlainEnd(s, i);
    if p < |s| {
      var rest := Segments(s, CodeEnd(s, p));
      forall k | 0 <= k < |Segments(s, i)| && Segments(s, i)[k].Plain?
        ensures first(Segments(s, i)[k].text) == Ok(f(Segments(s, i)[k].text))
      {
        if k >= 2 {
          assert Segments(s, i)[k] == rest[k - 2];
        }
      }
    } else {
      assert s[i..p] == s[i..];
    }
  }

  lemma {:induction false} PassIsTame(s: string, i: nat, resolve: string -> Result<string>)
    requires i <= |s| && Rewritten(Segments(s, i), LinkPass(resolve)).Ok? && AllHarmless(PageAddresses(Segments(s, i), resolve))
    ensures Tame(s, i, PassText(resolve)) && Succeeds(Segments(s, i), LinkPass(resolve), PassText(resolve))
    decreases |s| - i
  {
    hide PlainEnd, CodeEnd, StartsCode, StaysPlain, LinkPass, Segments, Rewritten, PieceAddresses, PageAddresses, AllHarmless, Succeeds;
    FirstSucceeds(s, i, LinkPass(resolve));
    FirstIsHarmless(s, i, resolve);
    SegmentStaysPlain(s, i, resolve);
    if PlainEnd(s, i) < |s| {
      PassIsTame(s, CodeEnd(s, PlainEnd(s, i)), resolve);
    }
    SegmentsSucceed(s, i, LinkPass(resolve), PassText(resolve));
  }

  /** The two passes as they are written. */
  function Transformed(content: string, resolve: string -> Result<string>, second: string -> Result<string>): Result<string> {
    match Rewritten(Segments(content, 0), LinkPass(resolve))
    case Err(e) => Err(e)
    case Ok(text) => Rewritten(Segments(text, 0), second)
  }

  method TransformContent(content: string, resolve: string -> Result<string>, second: string -> Result<string>) returns (r: Result<string>)
    ensures r == Transformed(content, resolve, second)
  {
    var rewritten := RewriteOutsideCodeSpans(content, LinkPass(resolve));
    if rewritten.Err? {
      return rewritten;
    }
    r := RewriteOutsideCodeSpans(rewritten.value, second);
  }

  /**
   When the first pass succeeds and brings only harmless addresses, its output has the code of the page, span by span, and the
   two passes are one pass that gives every plain segment to both rewriters in turn.
   */
  lemma {:induction false} TransformIsOnePass(content: string, resolve: string -> Result<string>, second: string -> Result<string>)
    requires AllHarmless(PageAddresses(Segments(content, 0), resolve))
    ensures var first := Rewritten(Segments(content, 0), LinkPass(resolve));
            && (first.Ok? ==> Segments(first.value, 0) == Mapped(Segments(content, 0), PassText(resolve)))
            && Transformed(content, resolve, second) ==
               if first.Err? then first else Rewritten(Segments(content, 0), Both(PassText(resolve), second))
  {
    hide LinkPass, PassText, Segments, Rewritten, PageAddresses, AllHarmless, Succeeds, Tame, Mapped;
    if Rewritten(Segments(content, 0), LinkPass(resolve)).Ok? {
      PassIsTame(content, 0, resolve);
      TwoPassesAreOne(content, LinkPass(resolve), PassText(resolve), second);
      OutputIsRescanned(content, PassText(resolve));
    }
  }

  lemma OutputIsRescanned(content: string, f: string -> string)
    requires Tame(content, 0, f)
    ensures Segments(Output(content, 0, f), 0) == Mapped(Segments(content, 0), f)
  {
    hide Segments, Mapped, Tame, Output;
    var out := Output(content, 0, f);
    assert out[0..] == out;
    OutputIsOutput(content, 0, f, out, 0);
    RescanFindsTheSameCode(content, 0, f, out, 0);
  }

  // ----- A backtick in a new address moves the code -----

  /** Text without newline, then perhaps the end of the old address. */
  predicate OneLineBut(a: Address, kept: nat) {
    && kept < |a.resolved| && kept <= |a.href|
    && '\n' !in a.resolved[..|a.resolved| - kept]
    && Copied(a.resolved[|a.resolved| - kept..], a.href[|a.href| - kept..])
  }

  ghost predicate OneLine(a: Address) {
    exists kept :: OneLineBut(a, kept)
  }

  lemma WithoutTickIsHarmless(a: Address)
    requires OneLine(a) && '`' !in a.resolved
    ensures Harmless(a)
  {
    var kept :| OneLineBut(a, kept);
    assert IsAddress(a.href, a.resolved, kept);
  }

  lemma {:induction false} TickIsWritten(pieces: seq<Piece>, resolve: string -> Result<string>, a: Address)
    requires a in PieceAddresses(pieces, resolve) && '`' in a.resolved && RewrittenPieces(pieces, resolve).Ok?
    ensures '`' in RewrittenPieces(pieces, resolve).value
  {
    hide TrimSpace, SplitMarkdownDestination;
    HeadSucceeds(pieces, resolve);
    if a in PieceAddresses(pieces[1..], resolve) {
      TickIsWritten(pieces[1..], resolve, a);
    }
  }

  /** The plain segment whose new text holds the backtick. */
  lemma {:induction false} TickReachesSegment(segments: seq<Segment>, resolve: string -> Result<string>, a: Address) returns (k: nat)
    requires a in PageAddresses(segments, resolve) && '`' in a.resolved && Rewritten(segments, LinkPass(resolve)).Ok?
    ensures k < |segments| && segments[k].Plain? && '`' in PassText(resolve)(segments[k].text)
  {
    hide PieceAddresses, RewrittenPieces, Pieces;
    if segments[0].Plain? && a in PieceAddresses(Pieces(segments[0].text, 0), resolve) {
      TickIsWritten(Pieces(segments[0].text, 0), resolve, a);
      k := 0;
    } else {
      var rest := TickReachesSegment(segments[1..], resolve, a);
      k := rest + 1;
    }
  }

  lemma {:induction false} MappedAt(segments: seq<Segment>, f: string -> string, k: nat)
    requires k < |segments| && segments[k].Plain?
    ensures k < |Mapped(segments, f)| && Mapped(segments, f)[k] == Plain(f(segments[k].text))
  {
    if k > 0 {
      MappedAt(segments[1..], f, k - 1);
    }
  }

  /** No text has plain segments with a backtick. */
  lemma {:induction false} TickMovesCode(content: string, resolve: string -> Result<string>, a: Address, out: string)
    requires a in PageAddresses(Segments(content, 0), resolve) && '`' in a.resolved
    requires Rewritten(Segments(content, 0), LinkPass(resolve)).Ok?
    ensures Segments(out, 0) != Mapped(Segments(content, 0), PassText(resolve))
  {
    hide Segments, Mapped, PageAddresses, Rewritten, LinkPass, PassText;
    var k := TickReachesSegment(Segments(content, 0), resolve, a);
    MappedAt(Segments(content, 0), PassText(resolve), k);
    SegmentsAlternate(out, 0);
  }

  /** For new addresses without a newline: the code stays where it is if and only if none of them has a backtick. */
  lemma {:induction false} CodeStaysOrMoves(content: string, resolve: string -> Result<string>, second: string -> Result<string>)
    requires forall a :: a in PageAddresses(Segments(content, 0), resolve) ==> OneLine(a)
    ensures var segments := Segments(content, 0);
            var first := Rewritten(segments, LinkPass(resolve));
            var plain := forall a :: a in PageAddresses(segments, resolve) ==> '`' !in a.resolved;
            && (first.Ok? ==> (Segments(first.value, 0) == Mapped(segments, PassText(resolve)) <==> plain))
            && (plain ==> Transformed(content, resolve, second) ==
                          if first.Err? then first else Rewritten(segments, Both(PassText(resolve), second)))
  {
    hide Segments, Mapped, PageAddresses, Rewritten, LinkPass, PassText, Transformed, Both, OneLine, Harmless;
    var addresses := PageAddresses(Segments(content, 0), resolve);
    if a :| a in addresses && '`' in a.resolved {
      if Rewritten(Segments(content, 0), LinkPass(resolve)).Ok? {
        TickMovesCode(content, resolve, a, Rewritten(Segments(content, 0), LinkPass(resolve)).value);
      }
    } else {
      forall a | a in addresses
        ensures Harmless(a)
      {
        WithoutTickIsHarmless(a);
      }
      TransformIsOnePass(content, resolve, second);
    }
  }

  // ----- Addresses are taken from plain text -----

  lemma {:induction false} PieceAddressIsResolved(pieces: seq<Piece>, resolve: string -> Result<string>, a: Address)
    requires a in PieceAddresses(pieces, resolve)
    ensures resolve(a.href) == Ok(a.resolved) && a.resolved != "" && forall c :: c in a.href ==> c in PieceTexts(pieces)
  {
    hide TrimSpace, SplitMarkdownDestination;
    if a in PieceAddresses(pieces[1..], resolve) {
      PieceAddressIsResolved(pieces[1..], resolve, a);
    } else {
      var d := pieces[0].destination;
      var left, right := TrimmedParts(d);
      var p := SplitMarkdownDestination(TrimSpace(d));
      assert d == left + (p.prefix + p.href + p.suffix + right);
    }
  }

  lemma {:induction false} AddressIsResolved(segments: seq<Segment>, resolve: string -> Result<string>, a: Address)
    requires a in PageAddresses(segments, resolve) && forall k :: 0 <= k < |segments| && segments[k].Plain? ==> '`' !in segments[k].text
    ensures resolve(a.href) == Ok(a.resolved) && a.resolved != "" && '`' !in a.href
  {
    hide PieceAddresses, Pieces;
    if segments[0].Plain? && a in PieceAddresses(Pieces(segments[0].text, 0), resolve) {
      PieceAddressIsResolved(Pieces(segments[0].text, 0), resolve, a);
      PiecesAreTheContent(segments[0].text, 0);
      assert segments[0].text[0..] == segments[0].text;
    } else {
      AddressIsResolved(segments[1..], resolve, a);
    }
  }

  // ----- Where the new addresses come from -----

  /** What the resolver looks things up in: the pages of the plan, the files of the package, URL parsing and decoding. */
  datatype Lookup = Lookup(
    isExternal: string -> bool,
    decode: string -> string,
    page: string -> Option<string>,
    asset: string -> Result<string>)

  predicate IsDrivePath(value: string) {
    |value| >= 3 && ('a' <= value[0] <= 'z' || 'A' <= value[0] <= 'Z') && value[1] == ':' && value[2] in {'\\', '/'}
  }

  function Slashed(href: string): (r: string)
    ensures Copied(r, href)
  {
    seq(|href|, i requires 0 <= i < |href| => if href[i] == '\\' then '/' else href[i])
  }

  /** normalizeImportedHref. */
  function NormalizeHref(href: string): (r: string)
    ensures Copied(r, href)
  {
    if TrimSpace(href) == "" || IsDrivePath(TrimSpace(href)) then href else Slashed(href)
  }

  /** resolveDestination on a normalized address: a page of the plan, else an asset of the package; query and fragment stay. */
  function ResolveDestination(href: string, lookup: Lookup): Result<string> {
    var cut := IndexAny(href, {'?', '#'});
    var (rawTarget, suffix) := (href[..cut], href[cut..]);
    if rawTarget == "" || lookup.isExternal(rawTarget) || HasPrefix(rawTarget, "#") then Ok("")
    else
      match lookup.page(lookup.decode(rawTarget))
      case Some(targetPath) => Ok("/" + targetPath + suffix)
      case None =>
        match lookup.asset(lookup.decode(rawTarget))
        case Err(e) => Err(e)
        case Ok(assetPath) => Ok(if assetPath == "" then "" else assetPath + suffix)
  }

  function Resolver(lookup: Lookup): string -> Result<string> {
    href => ResolveDestination(NormalizeHref(href), lookup)
  }

  /** The path that an address leads to: a page of the plan or an uploaded asset; "" if it has none. */
  function NewPath(href: string, lookup: Lookup): string {
    var h := NormalizeHref(href);
    var target := lookup.decode(h[..IndexAny(h, {'?', '#'})]);
    match lookup.page(target)
    case Some(targetPath) => "/" + targetPath
    case None => match lookup.asset(target) case Err(_) => "" case Ok(assetPath) => assetPath
  }

  /** The new address is the path, and the query and fragment of the old one. */
  lemma {:induction false} ResolvedIsPath(href: string, lookup: Lookup)
    requires Resolver(lookup)(href).Ok? && Resolver(lookup)(href).value != ""
    ensures var h := NormalizeHref(href);
            NewPath(href, lookup) != "" && Resolver(lookup)(href).value == NewPath(href, lookup) + h[IndexAny(h, {'?', '#'})..]
  {
    hide NormalizeHref, IndexAny, HasPrefix;
  }

  lemma CutAtSuffix(target: string, suffix: string)
    requires Free(target, {'?', '#', '\\'}) && Free(suffix, {'\\'})
    requires suffix == "" || suffix[0] in {'?', '#'}
    ensures NormalizeHref(target + suffix) == target + suffix
    ensures IndexAny(target + suffix, {'?', '#'}) == |target|
    ensures !HasPrefix(target, "#")
  {
    hide IndexAny, TrimSpace, IsDrivePath;
    var href := target + suffix;
    assert Slashed(href) == href;
    assert forall k :: 0 <= k < |target| ==> href[k] == target[k];
    assert suffix != "" ==> href[|target|] == suffix[0];
  }

  /** Addresses in the source's terms: what leads nowhere, to a page of the plan, or else to a file of the package. */
  lemma ResolvedByText(target: string, suffix: string, lookup: Lookup)
    requires Free(target, {'?', '#', '\\'}) && Free(suffix, {'\\'})
    requires suffix == "" || suffix[0] in {'?', '#'}
    ensures var (resolved, name) := (Resolver(lookup)(target + suffix), lookup.decode(target));
            && (target == "" || lookup.isExternal(target) ==> resolved == Ok(""))
            && (target != "" && !lookup.isExternal(target) ==>
                match (lookup.page(name), lookup.asset(name))
                case (Some(path), _) => resolved == Ok("/" + path + suffix)
                case (None, Err(e)) => resolved == Err(e)
                case (None, Ok("")) => resolved == Ok("")
                case (None, Ok(path)) => resolved == Ok(path + suffix))
  {
    hide NormalizeHref, IndexAny, HasPrefix, Free;
    var href := target + suffix;
    CutAtSuffix(target, suffix);
    assert href[|target|..] == suffix && href[..|target|] == target;
  }

  /** Every backslash counts as a slash, except in a path that begins with the letter of a Windows drive. */
  lemma BackslashIsSlash(href: string)
    ensures var (t, r) := (TrimSpace(href), NormalizeHref(href));
            && |r| == |href|
            && ((|t| >= 3 && ('a' <= t[0] <= 'z' || 'A' <= t[0] <= 'Z') && t[1] == ':' && t[2] in {'\\', '/'}) ==> r == href)
            && (t != "" && (|t| < 3 || !('a' <= t[0] <= 'z' || 'A' <= t[0] <= 'Z') || t[1] != ':' || t[2] !in {'\\', '/'}) ==>
                forall i :: 0 <= i < |href| ==> r[i] == if href[i] == '\\' then '/' else href[i])
  {
  }

  lemma TailIsKept(href: string, h: string, cut: nat, path: string, resolved: string)
    requires Copied(h, href) && cut <= |h| && path != "" && resolved == path + h[cut..]
    ensures '\n' !in path ==> OneLine(Address(href, resolved))
    ensures '`' !in href ==> ('`' in resolved <==> '`' in path)
  {
    var kept := |h| - cut;
    assert resolved[..|resolved| - kept] == path && resolved[|resolved| - kept..] == h[cut..];
    assert OneLineBut(Address(href, resolved), kept) <==> '\n' !in path;
  }

  /**
   Main result for the import of a page with the resolver of the source, when no path that its links lead to has a newline:
   the second scan finds the code of the page, span by span, if and only if no such path has a backtick; page paths are made
   of slugs, but the name of an asset keeps its extension. Then the two passes are one.
   */
  lemma {:induction false} ImportLeavesCodeAlone(content: string, lookup: Lookup, second: string -> Result<string>)
    requires forall a :: a in PageAddresses(Segments(content, 0), Resolver(lookup)) ==> '\n' !in NewPath(a.href, lookup)
    ensures var resolve, segments := Resolver(lookup), Segments(content, 0);
            var first := Rewritten(segments, LinkPass(resolve));
            var plain := forall a :: a in PageAddresses(segments, resolve) ==> '`' !in NewPath(a.href, lookup);
            && (first.Ok? ==> (Segments(first.value, 0) == Mapped(segments, PassText(resolve)) <==> plain))
            && (plain ==> Transformed(content, resolve, second) ==
                          if first.Err? then first else Rewritten(segments, Both(PassText(resolve), second)))
  {
    hide Segments, PageAddresses, Rewritten, LinkPass, Mapped, PassText, Transformed, NewPath, Resolver, Both, OneLine;
    var resolve, addresses := Resolver(lookup), PageAddresses(Segments(content, 0), Resolver(lookup));
    forall a | a in addresses
      ensures OneLine(a) && ('`' in a.resolved <==> '`' in NewPath(a.href, lookup))
    {
      AddressIsPath(content, lookup, a);
    }
    CodeStaysOrMoves(content, resolve, second);
  }

  lemma {:induction false} AddressIsPath(content: string, lookup: Lookup, a: Address)
    requires a in PageAddresses(Segments(content, 0), Resolver(lookup)) && '\n' !in NewPath(a.href, lookup)
    ensures OneLine(a) && ('`' in a.resolved <==> '`' in NewPath(a.href, lookup))
  {
    hide Segments, PageAddresses, Resolver, NewPath, NormalizeHref, IndexAny, OneLine, Copied;
    var h := NormalizeHref(a.href);
    SegmentsAlternate(content, 0);
    AddressIsResolved(Segments(content, 0), Resolver(lookup), a);
    ResolvedIsPath(a.href, lookup);
    TailIsKept(a.href, h, IndexAny(h, {'?', '#'}), NewPath(a.href, lookup), a.resolved);
  }

  // ----- A backtick in an address -----

  lemma {:induction false} PlainUpTo(s: string, i: nat, p: nat)
    requires i <= p <= |s| && (p < |s| ==> s[p] == '`') && forall k :: i <= k < p ==> s[k] !in {'`', '~', ' ', '\n'}
    ensures PlainEnd(s, i) == p
    decreases p - i
  {
    if i < p {
      PlainUpTo(s, i + 1, p);
    }
  }

  lemma {:induction false} NoTickUpTo(s: string, i: nat, q: nat)
    requires i <= q <= |s| && (q < |s| ==> s[q] == '`') && forall k :: i <= k < q ==> s[k] != '`'
    ensures NextBacktick(s, i) == q
    decreases q - i
  {
    if i < q {
      NoTickUpTo(s, i + 1, q);
    }
  }

  /** Single backticks at p and q, or no second one. */
  lemma SpanFromTo(s: string, p: nat, q: nat)
    requires 0 < p && p + 1 <= q <= |s| && s[p] == '`' && s[p - 1] != '\n' && Stops(s, p + 1, '`')
    requires (q < |s| ==> s[q] == '`' && Stops(s, q + 1, '`')) && forall k :: p < k < q ==> s[k] != '`'
    ensures StartsCode(s, p) && CodeEnd(s, p) == if q < |s| then q + 1 else q
  {
    assert Run(s, p + 1, '`') == 0 && Run(s, p, '`') == 1;
    NoTickUpTo(s, p + 1, q);
    if q < |s| {
      assert Run(s, q + 1, '`') == 0 && Run(s, q, '`') == 1;
    }
  }

  lemma SegmentsStep(s: string, i: nat, p: nat, e: nat)
    requires i <= p < |s| && PlainEnd(s, i) == p && CodeEnd(s, p) == e
    ensures Segments(s, i) == [Plain(s[i..p]), Code(s[p..e])] + Segments(s, e)
  {
  }

  lemma SegmentsEnd(s: string, i: nat)
    requires i <= |s| && PlainEnd(s, i) == |s|
    ensures Segments(s, i) == [Plain(s[i..])]
  {
  }

  /**
   The condition is needed. A packaged file named "x.`" is uploaded under its own extension, so a link to it, written "x.%60",
   is given an address with a backtick: of "[x](x.%60)`c`" the second pass gets the c to rewrite.
   */
  lemma {:induction false} BacktickMovesCode(lookup: Lookup)
    requires !lookup.isExternal("x.%60") && lookup.decode("x.%60") == "x.`"
    requires lookup.page("x.`") == None && lookup.asset("x.`") == Ok("/assets/p/x.`")
    ensures Segments("[x](x.%60)`c`", 0) == [Plain("[x](x.%60)"), Code("`c`"), Plain("")]
    ensures Rewritten(Segments("[x](x.%60)`c`", 0), LinkPass(Resolver(lookup))) == Ok("[x](/assets/p/x.`)`c`")
    ensures Segments("[x](/assets/p/x.`)`c`", 0) == [Plain("[x](/assets/p/x."), Code("`)`"), Plain("c"), Code("`"), Plain("")]
  {
    hide *;
    var resolve := Resolver(lookup);
    CodeBefore();
    CodeBehind();
    TickIsResolved(lookup);
    OneLink(resolve);
    var rest := [Plain("")];
    RewrittenTwo("[x](x.%60)", "`c`", rest, LinkPass(resolve));
    NothingToDo(resolve);
    OnePlain("", LinkPass(resolve));
    assert [Plain("[x](x.%60)"), Code("`c`")] + rest == [Plain("[x](x.%60)"), Code("`c`"), Plain("")];
    TwoPieces();
  }

  lemma TwoPieces()
    ensures PlainThenCode(Ok("[x](/assets/p/x.`)"), "`c`", Ok("")) == Ok("[x](/assets/p/x.`)`c`")
  {
    assert "[x](/assets/p/x.`)" + "`c`" + "" == "[x](/assets/p/x.`)`c`";
  }

  lemma CodeBefore()
    ensures Segments("[x](x.%60)`c`", 0) == [Plain("[x](x.%60)"), Code("`c`"), Plain("")]
  {
    hide Segments, PlainEnd, CodeEnd, StartsCode;
    var s := "[x](x.%60)`c`";
    PlainUpTo(s, 0, 10);
    SpanFromTo(s, 10, 12);
    SegmentsStep(s, 0, 10, 13);
    PlainUpTo(s, 13, 13);
    SegmentsEnd(s, 13);
    assert s[0..10] == "[x](x.%60)" && s[10..13] == "`c`" && s[13..] == "";
  }

  lemma CodeBehind()
    ensures Segments("[x](/assets/p/x.`)`c`", 0) == [Plain("[x](/assets/p/x."), Code("`)`"), Plain("c"), Code("`"), Plain("")]
  {
    hide Segments, PlainEnd, CodeEnd, StartsCode;
    var s := "[x](/assets/p/x.`)`c`";
    PlainUpTo(s, 0, 16);
    SpanFromTo(s, 16, 18);
    SegmentsStep(s, 0, 16, 19);
    PlainUpTo(s, 19, 20);
    SpanFromTo(s, 20, 21);
    SegmentsStep(s, 19, 20, 21);
    PlainUpTo(s, 21, 21);
    SegmentsEnd(s, 21);
    assert s[0..16] == "[x](/assets/p/x." && s[16..19] == "`)`" && s[19..20] == "c" && s[20..21] == "`" && s[21..] == "";
  }

  lemma NothingToDo(resolve: string -> Result<string>)
    ensures LinkPass(resolve)("") == Ok("")
  {
  }

  lemma TickIsResolved(lookup: Lookup)
    requires !lookup.isExternal("x.%60") && lookup.decode("x.%60") == "x.`"
    requires lookup.page("x.`") == None && lookup.asset("x.`") == Ok("/assets/p/x.`")
    ensures Resolver(lookup)("x.%60") == Ok("/assets/p/x.`")
  {
    hide NormalizeHref, IndexAny;
    var href := "x.%60";
    NothingToSlash(href);
    assert IndexAny(href, {'?', '#'}) == |href|;
    assert href[..|href|] == href && href[|href|..] == "";
    assert href[..1] != "#" by { assert href[..1][0] == 'x'; }
    assert "/assets/p/x.`" + "" == "/assets/p/x.`";
  }

  lemma NothingToSlash(href: string)
    requires '\\' !in href
    ensures NormalizeHref(href) == href
  {
    hide TrimSpace;
    assert Slashed(href) == href;
  }

  lemma {:induction false} OneLink(resolve: string -> Result<string>)
    requires resolve("x.%60") == Ok("/assets/p/x.`")
    ensures LinkPass(resolve)("[x](x.%60)") == Ok("[x](/assets/p/x.`)")
  {
    hide HeadPiece, Pieces, RewriteDestination;
    var link := Link("[x](", "x.%60", ")");
    OnePieceOfLink();
    DestinationOfLink(resolve);
    assert [link][1..] == [] && RewrittenPieces([], resolve) == Ok("");
    assert "[x](" + "/assets/p/x.`" + ")" + "" == "[x](/assets/p/x.`)";
  }

  lemma {:induction false} OnePieceOfLink()
    ensures Pieces("[x](x.%60)", 0) == [Link("[x](", "x.%60", ")")]
  {
    var s := "[x](x.%60)";
    assert IndexFrom(s, 2, ']') == 2 && IndexFrom(s, 1, ']') == 2 && IndexFrom(s, 0, ']') == 2;
    NoParenthesisUpTo(s, 4, 9);
    assert s[0..4] == "[x](" && s[4..9] == "x.%60" && s[9..10] == ")";
    assert HeadPiece(s, 0) == Head(Link("[x](", "x.%60", ")"), 10);
    assert Pieces(s, 10) == [];
  }

  lemma {:induction false} NoParenthesisUpTo(s: string, i: nat, end: nat)
    requires i <= end < |s| && s[end] == ')' && forall k :: i <= k < end ==> s[k] !in {'(', ')'}
    ensures DestinationEnd(s, i, 0) == end
    decreases end - i
  {
    if i < end {
      NoParenthesisUpTo(s, i + 1, end);
    }
  }

  lemma DestinationOfLink(resolve: string -> Result<string>)
    requires resolve("x.%60") == Ok("/assets/p/x.`")
    ensures RewriteDestination("x.%60", resolve) == Ok("/assets/p/x.`")
  {
    hide SplitMarkdownDestination, TrimSpace;
    OneWord("x.%60");
    assert "" + "/assets/p/x.`" + "" == "/assets/p/x.`";
  }

  lemma OneWord(word: string)
    requires word != "" && word[0] != '<' && forall k :: 0 <= k < |word| ==> !IsSpace(word[k])
    ensures TrimSpace(word) == word && SplitMarkdownDestination(word) == Parts("", word, "")
  {
    NoBlankFrom(word, 0);
    assert word[..|word|] == word && word[|word|..] == "";
  }

  lemma {:induction false} NoBlankFrom(word: string, i: nat)
    requires i <= |word| && forall k :: i <= k < |word| ==> !IsSpace(word[k])
    ensures BlankFrom(word, i) == |word|
    decreases |word| - i
  {
    if i < |word| {
      NoBlankFrom(word, i + 1);
    }
  }
}
