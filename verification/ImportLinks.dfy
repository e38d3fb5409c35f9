/** The Markdown link pass of the importer (backend/internal/importer/content_transformer.go). */
module ImportLinks {
  import opened Wrappers
  import opened Text
  import opened CodeSpans

  /** A piece of the content: text that is copied, or a link: what comes before its destination, and its parenthesis. */
  datatype Piece = Text(text: string) | Link(before: string, destination: string, after: string)

  function Full(p: Piece): string {
    match p
    case Text(text) => text
    case Link(before, destination, after) => before + destination + after
  }

  datatype Head = Head(piece: Piece, next: nat)

  function IndexFrom(s: string, i: nat, c: char): (at: nat)
    requires i <= |s|
    ensures i <= at <= |s| && (at < |s| ==> s[at] == c)
    decreases |s| - i
  {
    if i < |s| && s[i] != c then IndexFrom(s, i + 1, c) else i
  }

  /** The closing parenthesis of a destination, nested pairs skipped; |s| if there is none. */
  function DestinationEnd(s: string, i: nat, depth: nat): (end: nat)
    requires i <= |s|
    ensures i <= end <= |s| && (end < |s| ==> s[end] == ')')
    decreases |s| - i
  {
    if i >= |s| then |s|
    else if s[i] == '(' then DestinationEnd(s, i + 1, depth + 1)
    else if s[i] == ')' then (if depth == 0 then i else DestinationEnd(s, i + 1, depth - 1))
    else DestinationEnd(s, i + 1, depth)
  }

  predicate OpensLabel(s: string, i: nat)
    requires i < |s|
  {
    s[i] == '[' || (s[i] == '!' && i + 1 < |s| && s[i + 1] == '[')
  }

  /** The piece at i, and where the next one begins. */
  function HeadPiece(s: string, i: nat): (h: Head)
    requires i < |s|
    ensures i < h.next <= |s|
  {
    var labelEnd := IndexFrom(s, i, ']');
    if !OpensLabel(s, i) then Head(Piece.Text(s[i..i + 1]), i + 1)
    else if labelEnd == |s| then Head(Piece.Text(s[i..]), |s|)
    else if labelEnd + 1 >= |s| || s[labelEnd + 1] != '(' then Head(Piece.Text(s[i..labelEnd + 1]), labelEnd + 1)
    else
      var destEnd := DestinationEnd(s, labelEnd + 2, 0);
      if destEnd == |s| then Head(Piece.Text(s[i..]), |s|)
      else Head(Link(s[i..labelEnd + 2], s[labelEnd + 2..destEnd], s[destEnd..destEnd + 1]), destEnd + 1)
  }

  /** What the pass makes of the content from i on. */
  function Pieces(s: string, i: nat): seq<Piece>
    requires i <= |s|
    decreases |s| - i
  {
    if i == |s| then [] else [HeadPiece(s, i).piece] + Pieces(s, HeadPiece(s, i).next)
  }

  function PieceTexts(pieces: seq<Piece>): string {
    if pieces == [] then "" else Full(pieces[0]) + PieceTexts(pieces[1..])
  }

  /** The wrapper, the address and the title of a destination. */
  datatype Parts = Parts(prefix: string, href: string, suffix: string)

  function SplitMarkdownDestination(destination: string): (p: Parts)
    ensures p.prefix + p.href + p.suffix == destination
  {
    if destination == "" then Parts("", "", "")
    else
      var end := IndexFrom(destination, 0, '>');
      if destination[0] == '<' && end < |destination| then
        assert destination == [destination[0]] + destination[1..end] + destination[end..];
        Parts("<", destination[1..end], destination[end..])
      else
        var space := BlankFrom(destination, 0);
        assert destination == "" + destination[..space] + destination[space..];
        Parts("", destination[..space], destination[space..])
  }

  function BlankFrom(s: string, i: nat): (at: nat)
    requires i <= |s|
    ensures i <= at <= |s|
    decreases |s| - i
  {
    if i < |s| && s[i] != ' ' && s[i] != '\t' then BlankFrom(s, i + 1) else i
  }

  /** `resolve` gives the new address of a link, "" if there is none: resolveDestination on the normalized address. */
  function RewriteDestination(destination: string, resolve: string -> Result<string>): Result<string> {
    var trimmed := TrimSpace(destination);
    if trimmed == "" then Ok(destination)
    else
      var p := SplitMarkdownDestination(trimmed);
      match resolve(p.href)
      case Err(e) => Err(e)
      case Ok(resolved) => Ok(if resolved == "" then destination else p.prefix + resolved + p.suffix)
  }

  function RewrittenPiece(p: Piece, resolve: string -> Result<string>): Result<string> {
    match p
    case Text(text) => Ok(text)
    case Link(before, destination, after) =>
      match RewriteDestination(destination, resolve)
      case Err(e) => Err(e)
      case Ok(rewritten) => Ok(before + rewritten + after)
  }

  function RewrittenPieces(pieces: seq<Piece>, resolve: string -> Result<string>): Result<string> {
    if pieces == [] then Ok("") else PlainThen(RewrittenPiece(pieces[0], resolve), RewrittenPieces(pieces[1..], resolve))
  }

  /** rewriteMarkdownLinks: only destinations are rewritten, every other byte is copied. */
  method RewriteMarkdownLinks(content: string, resolve: string -> Result<string>) returns (r: Result<string>)
    ensures r == RewrittenPieces(Pieces(content, 0), resolve)
  {
    ghost var goal := RewrittenPieces(Pieces(content, 0), resolve);
    var out := "";
    var i := 0;
    PrependNothing(goal);
    while i < |content|
      invariant 0 <= i <= |content|
      invariant goal == Prepend(out, RewrittenPieces(Pieces(content, i), resolve))
    {
      var h := NextPiece(content, i);
      var written := RewrittenPiece(h.piece, resolve);
      OnePiece(h.piece, Pieces(content, h.next), resolve, out);
      if written.Err? {
        return written;
      }
      out := out + written.value;
      i := h.next;
    }
    assert out + "" == out;
    r := Ok(out);
  }

  /** One round of the loop up to the rewriting: which bytes are copied, and which are a destination. */
  method NextPiece(content: string, i: nat) returns (h: Head)
    requires i < |content|
    ensures h == HeadPiece(content, i)
  {
    if !OpensLabel(content, i) {
      return Head(Piece.Text(content[i..i + 1]), i + 1);
    }
    var labelEnd := IndexFrom(content, i, ']');
    if labelEnd == |content| {
      return Head(Piece.Text(content[i..]), |content|);
    }
    if labelEnd + 1 >= |content| || content[labelEnd + 1] != '(' {
      return Head(Piece.Text(content[i..labelEnd + 1]), labelEnd + 1);
    }
    var destEnd := FindMarkdownLinkDestinationEnd(content, labelEnd + 2);
    if destEnd == |content| {
      return Head(Piece.Text(content[i..]), |content|);
    }
    h := Head(Link(content[i..labelEnd + 2], content[labelEnd + 2..destEnd], content[destEnd..destEnd + 1]), destEnd + 1);
  }

  lemma OnePiece(p: Piece, rest: seq<Piece>, resolve: string -> Result<string>, out: string)
    ensures Prepend(out, RewrittenPieces([p] + rest, resolve)) ==
            if RewrittenPiece(p, resolve).Err? then RewrittenPiece(p, resolve)
            else Prepend(out + RewrittenPiece(p, resolve).value, RewrittenPieces(rest, resolve))
  {
    assert ([p] + rest)[1..] == rest;
    if RewrittenPiece(p, resolve).Ok? {
      PrependTwice(out, RewrittenPiece(p, resolve).value, RewrittenPieces(rest, resolve));
    }
  }

  method FindMarkdownLinkDestinationEnd(content: string, start: nat) returns (end: nat)
    requires start <= |content|
    ensures end == DestinationEnd(content, start, 0)
  {
    var depth: nat := 0;
    for i := start to |content|
      invariant DestinationEnd(content, start, 0) == DestinationEnd(content, i, depth)
    {
      if content[i] == '(' {
        depth := depth + 1;
      } else if content[i] == ')' {
        if depth == 0 { return i; }
        depth := depth - 1;
      }
    }
    end := |content|;
  }

  // ----- Nothing is lost, and nothing changes without a resolved link -----

  lemma {:induction false} PiecesAreTheContent(s: string, i: nat)
    requires i <= |s|
    ensures PieceTexts(Pieces(s, i)) == s[i..]
    decreases |s| - i
  {
    if i < |s| {
      var h := HeadPiece(s, i);
      PiecesAreTheContent(s, h.next);
      HeadIsTheContent(s, i);
      FirstText(h.piece, Pieces(s, h.next));
      TwoParts(s, i, h.next);
    }
  }

  lemma FirstText(p: Piece, rest: seq<Piece>)
    ensures PieceTexts([p] + rest) == Full(p) + PieceTexts(rest)
  {
    assert ([p] + rest)[1..] == rest;
  }

  lemma TwoParts(s: string, i: nat, k: nat)
    requires i <= k <= |s|
    ensures s[i..] == s[i..k] + s[k..]
  {
  }

  lemma ThreeParts(s: string, i: nat, a: nat, b: nat)
    requires i <= a <= b < |s|
    ensures s[i..b + 1] == s[i..a] + s[a..b] + s[b..b + 1]
  {
  }

  /** Where the pieces begin and end; a is where the destination of a link begins. */
  lemma HeadIsSlice(s: string, i: nat) returns (a: nat)
    requires i < |s|
    ensures var h := HeadPiece(s, i);
            match h.piece
            case Text(text) => text == s[i..h.next]
            case Link(before, destination, after) =>
              i <= a < h.next && before == s[i..a] && destination == s[a..h.next - 1] && after == s[h.next - 1..h.next]
  {
    hide IndexFrom, DestinationEnd;
    a := if HeadPiece(s, i).piece.Link? then IndexFrom(s, i, ']') + 2 else 0;
  }

  lemma FullLink(p: Piece)
    requires p.Link?
    ensures Full(p) == p.before + p.destination + p.after
  {
  }

  lemma FullText(p: Piece)
    requires p.Text?
    ensures Full(p) == p.text
  {
  }

  lemma HeadIsTheContent(s: string, i: nat)
    requires i < |s|
    ensures Full(HeadPiece(s, i).piece) == s[i..HeadPiece(s, i).next]
  {
    hide *;
    var h := HeadPiece(s, i);
    var a := HeadIsSlice(s, i);
    if h.piece.Link? {
      ThreeParts(s, i, a, h.next - 1);
      FullLink(h.piece);
    } else {
      FullText(h.piece);
    }
  }

  /** The destination has no new address. */
  predicate Unresolved(destination: string, resolve: string -> Result<string>) {
    var trimmed := TrimSpace(destination);
    trimmed == "" || resolve(SplitMarkdownDestination(trimmed).href) == Ok("")
  }

  predicate AllUnresolved(pieces: seq<Piece>, resolve: string -> Result<string>) {
    forall i :: 0 <= i < |pieces| ==> pieces[i].Link? ==> Unresolved(pieces[i].destination, resolve)
  }

  lemma {:induction false} UnresolvedKeepsPieces(pieces: seq<Piece>, resolve: string -> Result<string>)
    requires AllUnresolved(pieces, resolve)
    ensures RewrittenPieces(pieces, resolve) == Ok(PieceTexts(pieces))
  {
    if pieces != [] {
      UnresolvedKeepsPieces(pieces[1..], resolve);
    }
  }

  /** A segment where no link resolves comes out of the link pass byte for byte. */
  lemma {:induction false} UnresolvedSegmentIsUnchanged(segment: string, resolve: string -> Result<string>)
    requires AllUnresolved(Pieces(segment, 0), resolve)
    ensures RewrittenPieces(Pieces(segment, 0), resolve) == Ok(segment)
  {
    UnresolvedKeepsPieces(Pieces(segment, 0), resolve);
    PiecesAreTheContent(segment, 0);
    assert segment[0..] == segment;
  }

  /** The link pass as the rewriter of plain segments. */
  function LinkPass(resolve: string -> Result<string>): string -> Result<string> {
    segment => RewrittenPieces(Pieces(segment, 0), resolve)
  }

  /** A page where no link outside code resolves comes out of the whole pass, code spans and all, byte for byte. */
  lemma {:induction false} UnresolvedPageIsUnchanged(content: string, resolve: string -> Result<string>)
    requires forall k :: 0 <= k < |Segments(content, 0)| && Segments(content, 0)[k].Plain? ==>
               AllUnresolved(Pieces(Segments(content, 0)[k].text, 0), resolve)
    ensures Rewritten(Segments(content, 0), LinkPass(resolve)) == Ok(content)
  {
    UnchangedSegments(Segments(content, 0), resolve);
    SegmentsAreTheContent(content, 0);
    assert content[0..] == content;
  }

  lemma {:induction false} UnchangedSegments(segments: seq<Segment>, resolve: string -> Result<string>)
    requires forall k :: 0 <= k < |segments| && segments[k].Plain? ==> AllUnresolved(Pieces(segments[k].text, 0), resolve)
    ensures Rewritten(segments, LinkPass(resolve)) == Ok(Texts(segments))
  {
    if segments != [] {
      UnchangedSegments(segments[1..], resolve);
      if segments[0].Plain? {
        UnresolvedSegmentIsUnchanged(segments[0].text, resolve);
      }
    }
  }
}
