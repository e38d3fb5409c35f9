/**
 What the importer's link pass does, told by the text alone (backend/internal/importer/content_transformer.go): which text
 is a link or an image, where its destination ends, what of the destination is the address, and what is written.
 */
module ImportLinkText {
  import opened Wrappers
  import opened Text
  import opened CodeSpans
  import opened ImportLinks

  // ----- Destinations -----

  /** Opening parentheses less closing ones. */
  function Depth(t: string): int {
    if t == "" then 0
    else Depth(t[..|t| - 1]) + if t[|t| - 1] == '(' then 1 else if t[|t| - 1] == ')' then -1 else 0
  }

  /** No parenthesis closes that was not opened. */
  predicate Stays(t: string) {
    forall k :: 0 <= k <= |t| ==> Depth(t[..k]) >= 0
  }

  predicate IsDestination(t: string) {
    Stays(t) && Depth(t) == 0
  }

  predicate At(s: string, i: nat, text: string) {
    i <= |s| && s[i..] == text
  }

  lemma CharAt(s: string, i: nat, text: string, k: nat)
    requires At(s, i, text) && k < |text|
    ensures i + k < |s| && s[i + k] == text[k]
  {
    assert s[i..][k] == s[i + k];
  }

  lemma Peel(s: string, i: nat, a: string, b: string)
    requires At(s, i, a + b)
    ensures i + |a| <= |s| && At(s, i + |a|, b) && s[i..i + |a|] == a
    ensures a != "" ==> s[i] == a[0]
  {
    assert s[i + |a|..] == s[i..][|a|..];
    assert s[i..i + |a|] == s[i..][..|a|];
    assert i < |s| ==> s[i] == s[i..][0];
  }

  lemma {:induction false} DestinationPasses(s: string, i: nat, t: string, tail: string, k: nat)
    requires At(s, i, t + tail) && Stays(t) && k <= |t|
    ensures i + k <= |s| && DestinationEnd(s, i, 0) == DestinationEnd(s, i + k, Depth(t[..k]))
    decreases k
  {
    Peel(s, i, t, tail);
    if k > 0 {
      DestinationPasses(s, i, t, tail, k - 1);
      CharAt(s, i, t + tail, k - 1);
      assert t[..k][..k - 1] == t[..k - 1] && t[..k][k - 1] == t[k - 1];
      assert Depth(t[..k]) >= 0;
    }
  }

  lemma DestinationCloses(s: string, i: nat, t: string, rest: string)
    requires At(s, i, t + (")" + rest)) && IsDestination(t)
    ensures i + |t| < |s| && DestinationEnd(s, i, 0) == i + |t| && s[i + |t|] == ')'
  {
    DestinationPasses(s, i, t, ")" + rest, |t|);
    assert t[..|t|] == t;
    Peel(s, i, t, ")" + rest);
    CharAt(s, i + |t|, ")" + rest, 0);
  }

  lemma DestinationRuns(s: string, i: nat, t: string)
    requires At(s, i, t) && Stays(t)
    ensures DestinationEnd(s, i, 0) == |s|
  {
    assert t + "" == t;
    DestinationPasses(s, i, t, "", |t|);
    assert i + |t| == |s|;
  }

  // ----- Pieces -----

  lemma {:induction false} LabelEnds(s: string, i: nat, name: string, tail: string)
    requires At(s, i, name + tail) && ']' !in name && (tail == "" || tail[0] == ']')
    ensures i + |name| <= |s| && IndexFrom(s, i, ']') == i + |name|
    decreases |name|
  {
    Peel(s, i, name, tail);
    if name != "" {
      assert name[0] in name && name == name[..1] + name[1..];
      Assoc(name[..1], name[1..], tail);
      Peel(s, i, name[..1], name[1..] + tail);
      LabelEnds(s, i + 1, name[1..], tail);
    } else if tail != "" {
      CharAt(s, i, tail, 0);
      assert name + tail == tail;
    }
  }

  /** An opening bracket, perhaps of an image. */
  predicate IsOpening(open: string) {
    open == "[" || open == "!["
  }

  lemma OpeningOpens(s: string, i: nat, open: string, tail: string)
    requires At(s, i, open + tail) && IsOpening(open)
    ensures i < |s| && OpensLabel(s, i) && ']' !in open
  {
    CharAt(s, i, open + tail, 0);
    if open == "![" {
      CharAt(s, i, open + tail, 1);
    }
  }

  /** Any other character is copied. */
  lemma CharIsCopied(s: string, i: nat)
    requires i < |s| && s[i] != '[' && !(s[i] == '!' && i + 1 < |s| && s[i + 1] == '[')
    ensures Pieces(s, i) == [Piece.Text([s[i]])] + Pieces(s, i + 1)
  {
    assert s[i..i + 1] == [s[i]];
  }

  lemma LinkText(open: string, name: string, dest: string, rest: string)
    ensures open + name + "](" + dest + ")" + rest == open + name + ("]" + ("(" + (dest + (")" + rest))))
    ensures |open + name + "]("| == |open| + |name| + 2
  {
    assert "](" == "]" + "(";
    Assoc(open + name + "](" + dest, ")", rest);
    Assoc(open + name + "](", dest, ")" + rest);
    Assoc(open + name, "](", dest + (")" + rest));
    Assoc("]", "(", dest + (")" + rest));
  }

  /** A link: a label without a closing bracket in it, and at once behind it the parenthesis, up to the one that closes it. */
  lemma {:induction false} LinkIsPiece(s: string, i: nat, open: string, name: string, dest: string, rest: string)
    requires IsOpening(open) && ']' !in name && IsDestination(dest)
    requires At(s, i, open + name + "](" + dest + ")" + rest)
    ensures var next := i + |open + name + "](" + dest + ")"|;
            next <= |s| && Pieces(s, i) == [Link(open + name + "](", dest, ")")] + Pieces(s, next)
  {
    hide *;
    var before, behind := open + name + "](", dest + (")" + rest);
    LinkText(open, name, dest, rest);
    LabelIsThere(s, i, open, name, behind);
    Assoc(open + name + "](" + dest, ")", rest);
    Assoc(before, dest, ")" + rest);
    Peel(s, i, before, behind);
    DestinationCloses(s, i + |before|, dest, rest);
    Peel(s, i + |before|, dest, ")" + rest);
    var l := i + |open + name|;
    HeadOfLink(s, i, l, l + 2 + |dest|, before, dest);
    FirstPiece(s, i);
  }

  /** The label, its closing bracket, and the opening parenthesis. */
  lemma LabelIsThere(s: string, i: nat, open: string, name: string, behind: string)
    requires IsOpening(open) && ']' !in name && At(s, i, open + name + ("]" + ("(" + behind)))
    ensures var end := i + |open + name|;
            end + 1 < |s| && OpensLabel(s, i) && IndexFrom(s, i, ']') == end && s[end + 1] == '('
  {
    hide At, IsOpening, OpensLabel, IndexFrom;
    Assoc(open, name, "]" + ("(" + behind));
    OpeningOpens(s, i, open, name + ("]" + ("(" + behind)));
    LabelEnds(s, i, open + name, "]" + ("(" + behind));
    Peel(s, i, open + name, "]" + ("(" + behind));
    Peel(s, i + |open + name|, "]", "(" + behind);
    Peel(s, i + |open + name| + 1, "(", behind);
  }

  lemma FirstPiece(s: string, i: nat)
    requires i < |s|
    ensures Pieces(s, i) == [HeadPiece(s, i).piece] + Pieces(s, HeadPiece(s, i).next)
  {
  }

  lemma HeadOfLink(s: string, i: nat, l: nat, e: nat, before: string, dest: string)
    requires i < |s| && OpensLabel(s, i) && IndexFrom(s, i, ']') == l && l + 1 < |s| && s[l + 1] == '('
    requires DestinationEnd(s, l + 2, 0) == e && l + 2 <= e < |s| && s[e] == ')' && s[i..l + 2] == before && s[l + 2..e] == dest
    ensures HeadPiece(s, i) == Head(Link(before, dest, ")"), e + 1)
  {
    hide DestinationEnd, IndexFrom, OpensLabel;
    assert s[e..e + 1] == [s[e]];
  }

  /** A label that no parenthesis follows at once is copied. */
  lemma {:induction false} LabelIsCopied(s: string, i: nat, open: string, name: string, rest: string)
    requires IsOpening(open) && ']' !in name && (rest == "" || rest[0] != '(') && At(s, i, open + name + "]" + rest)
    ensures var next := i + |open + name + "]"|;
            next <= |s| && Pieces(s, i) == [Piece.Text(open + name + "]")] + Pieces(s, next)
  {
    hide DestinationEnd, IndexFrom, Pieces;
    Assoc(open + name, "]", rest);
    Assoc(open, name, "]" + rest);
    OpeningOpens(s, i, open, name + ("]" + rest));
    LabelEnds(s, i, open + name, "]" + rest);
    Peel(s, i, open + name + "]", rest);
    if rest != "" {
      CharAt(s, i + |open + name + "]"|, rest, 0);
    }
    FirstPiece(s, i);
  }

  /** A label or a destination that does not end: the rest is copied. */
  lemma {:induction false} OpenLabelIsCopied(s: string, i: nat, open: string, name: string)
    requires IsOpening(open) && ']' !in name && At(s, i, open + name)
    ensures Pieces(s, i) == [Piece.Text(open + name)]
  {
    hide DestinationEnd, IndexFrom, Pieces;
    OpeningOpens(s, i, open, name);
    assert open + name + "" == open + name;
    LabelEnds(s, i, open + name, "");
    FirstPiece(s, i);
    NoPieces(s);
  }

  lemma NoPieces(s: string)
    ensures Pieces(s, |s|) == []
  {
  }

  lemma {:induction false} OpenDestinationIsCopied(s: string, i: nat, open: string, name: string, dest: string)
    requires IsOpening(open) && ']' !in name && Stays(dest) && At(s, i, open + name + "](" + dest)
    ensures Pieces(s, i) == [Piece.Text(s[i..])]
  {
    hide DestinationEnd, IndexFrom, Pieces, Stays, At, OpensLabel;
    OpenText(open, name, dest);
    Assoc(open, name, "]" + ("(" + dest));
    OpeningOpens(s, i, open, name + ("]" + ("(" + dest)));
    LabelEnds(s, i, open + name, "]" + ("(" + dest));
    Peel(s, i, open + name, "]" + ("(" + dest));
    Peel(s, i + |open + name|, "]", "(" + dest);
    Peel(s, i + |open + name| + 1, "(", dest);
    DestinationRuns(s, i + |open + name| + 2, dest);
    HeadOfOpen(s, i, i + |open + name|);
  }

  lemma OpenText(open: string, name: string, dest: string)
    ensures open + name + "](" + dest == open + name + ("]" + ("(" + dest))
  {
    assert "](" == "]" + "(";
    Assoc(open + name, "](", dest);
    Assoc("]", "(", dest);
  }

  lemma HeadOfOpen(s: string, i: nat, labelEnd: nat)
    requires i < |s| && OpensLabel(s, i) && IndexFrom(s, i, ']') == labelEnd && labelEnd + 1 < |s| && s[labelEnd + 1] == '('
    requires DestinationEnd(s, labelEnd + 2, 0) == |s|
    ensures Pieces(s, i) == [Piece.Text(s[i..])]
  {
    NoPieces(s);
  }

  // ----- Addresses -----

  predicate AreBlank(s: string) {
    forall i :: 0 <= i < |s| ==> IsSpace(s[i])
  }

  /** An address in angle brackets, or one up to a space or tab; what follows is the title. */
  predicate IsAddress(open: string, href: string, title: string) {
    if open == "<" then '>' !in href && title != "" && title[0] == '>'
    else
      && open == "" && ' ' !in href && '\t' !in href && (title == "" || title[0] == ' ' || title[0] == '\t')
      && (href + title == "" || (href + title)[0] != '<' || '>' !in href + title)
  }

  lemma {:induction false} BlankAt(s: string, i: nat, href: string, tail: string)
    requires At(s, i, href + tail) && ' ' !in href && '\t' !in href && (tail == "" || tail[0] == ' ' || tail[0] == '\t')
    ensures BlankFrom(s, i) == i + |href|
    decreases |href|
  {
    Peel(s, i, href, tail);
    if href != "" {
      assert href[0] in href && href == href[..1] + href[1..];
      Assoc(href[..1], href[1..], tail);
      Peel(s, i, href[..1], href[1..] + tail);
      BlankAt(s, i + 1, href[1..], tail);
    } else if tail != "" {
      assert href + tail == tail;
      CharAt(s, i, tail, 0);
    }
  }

  lemma {:induction false} IndexAt(s: string, i: nat, c: char, part: string, tail: string)
    requires At(s, i, part + tail) && c !in part && (tail == "" || tail[0] == c)
    ensures IndexFrom(s, i, c) == i + |part|
    decreases |part|
  {
    Peel(s, i, part, tail);
    if part != "" {
      assert part[0] in part && part == part[..1] + part[1..];
      Assoc(part[..1], part[1..], tail);
      Peel(s, i, part[..1], part[1..] + tail);
      IndexAt(s, i + 1, c, part[1..], tail);
    } else if tail != "" {
      assert part + tail == tail;
      CharAt(s, i, tail, 0);
    }
  }

  lemma {:induction false} AddressByText(open: string, href: string, title: string)
    requires IsAddress(open, href, title)
    ensures SplitMarkdownDestination(open + href + title) == Parts(open, href, title)
  {
    hide IndexFrom, BlankFrom;
    var d := open + href + title;
    assert d[0..] == d;
    if open == "<" {
      assert '>' !in open + href;
      IndexAt(d, 0, '>', open + href, title);
      assert d[0] == '<' && d[1..|href| + 1] == href && d[|href| + 1..] == title;
    } else {
      assert d == href + title;
      BlankAt(d, 0, href, title);
      assert d[..|href|] == href && d[|href|..] == title;
      if '>' !in d {
        assert d + "" == d;
        IndexAt(d, 0, '>', d, "");
      }
    }
  }

  /** A destination: without an address it stays; otherwise it is resolved, and stays if nothing is found. */
  lemma {:induction false} DestinationIsRewritten(lead: string, open: string, href: string, title: string, trail: string,
                                                  resolve: string -> Result<string>)
    requires AreBlank(lead) && AreBlank(trail) && IsAddress(open, href, title)
    requires var core := open + href + title; core != "" && !IsSpace(core[0]) && !IsSpace(core[|core| - 1])
    ensures var dest := lead + (open + href + title) + trail;
            RewriteDestination(dest, resolve) ==
            match resolve(href)
            case Err(e) => Err(e)
            case Ok(found) => Ok(if found == "" then dest else open + found + title)
  {
    TrimByText(lead, open + href + title, trail);
    AddressByText(open, href, title);
  }

  /** A destination without an address stays as it is. */
  lemma BlankDestinationStays(dest: string, resolve: string -> Result<string>)
    requires AreBlank(dest)
    ensures RewriteDestination(dest, resolve) == Ok(dest)
  {
    assert dest + "" == dest;
    TrimLeftByText(dest, "");
    assert TrimRightSpace("") == "";
  }

  /**
   Main result: a link or an image of the text. Its address alone is given to the resolver; what it finds stands in the place
   of the address, the blanks around the destination being dropped; label, angle brackets and title stay, and so does
   everything if nothing is found. The first error ends the pass.
   */
  lemma {:induction false} LinkIsRewritten(s: string, i: nat, image: string, name: string, lead: string, open: string, href: string,
                                           title: string, trail: string, rest: string, resolve: string -> Result<string>)
    requires IsOpening(image) && ']' !in name && AreBlank(lead) && AreBlank(trail) && IsAddress(open, href, title)
    requires var core := open + href + title; core != "" && !IsSpace(core[0]) && !IsSpace(core[|core| - 1])
    requires var dest := lead + (open + href + title) + trail;
             IsDestination(dest) && At(s, i, image + name + "](" + dest + ")" + rest)
    ensures var dest := lead + (open + href + title) + trail;
            var next := i + |image + name + "](" + dest + ")"|;
            && next <= |s|
            && var behind := RewrittenPieces(Pieces(s, next), resolve);
               RewrittenPieces(Pieces(s, i), resolve) ==
               if resolve(href).Err? then resolve(href) else if behind.Err? then behind
               else Ok(image + name + "](" + (if resolve(href).value == "" then dest else open + resolve(href).value + title) + ")" + behind.value)
  {
    hide Pieces, IsDestination, AreBlank, IsAddress, At, RewriteDestination, RewrittenPieces;
    var dest := lead + (open + href + title) + trail;
    LinkIsPiece(s, i, image, name, dest, rest);
    DestinationIsRewritten(lead, open, href, title, trail, resolve);
    var next := i + |image + name + "](" + dest + ")"|;
    FirstRewritten(Link(image + name + "](", dest, ")"), Pieces(s, next), resolve);
  }

  lemma FirstRewritten(p: Piece, rest: seq<Piece>, resolve: string -> Result<string>)
    ensures RewrittenPieces([p] + rest, resolve) == PlainThen(RewrittenPiece(p, resolve), RewrittenPieces(rest, resolve))
  {
    assert ([p] + rest)[1..] == rest;
  }
}
