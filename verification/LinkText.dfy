/**
 What the link scan finds, told by the text of a link alone (backend/internal/links/link_refactor.go): labels with nested
 brackets, bare destinations with nested parentheses, destinations in angle brackets, escapes, titles, and what is no link.
 */
module LinkText {
  import opened Wrappers
  import opened Text
  import opened LinkSplice

  // ----- Text with nested brackets -----

  /** A stretch of text: characters, characters behind a backslash, and bracketed stretches. */
  datatype Nest = End | Char(c: char, rest: Nest) | Escaped(c: char, rest: Nest) | Group(inner: Nest, rest: Nest)

  function Spell(n: Nest, open: char, close: char): string {
    match n
    case End => ""
    case Char(c, rest) => [c] + Spell(rest, open, close)
    case Escaped(c, rest) => ['\\', c] + Spell(rest, open, close)
    case Group(inner, rest) => [open] + Spell(inner, open, close) + [close] + Spell(rest, open, close)
  }

  /** No character that stands alone is one of the barred ones. */
  predicate Free(n: Nest, barred: set<char>) {
    match n
    case End => true
    case Char(c, rest) => c !in barred && Free(rest, barred)
    case Escaped(_, rest) => Free(rest, barred)
    case Group(inner, rest) => Free(inner, barred) && Free(rest, barred)
  }

  lemma FreeParts(n: Nest, barred: set<char>)
    requires Free(n, barred)
    ensures match n
            case End => true
            case Char(c, rest) => c !in barred && Free(rest, barred)
            case Escaped(_, rest) => Free(rest, barred)
            case Group(inner, rest) => Free(inner, barred) && Free(rest, barred)
  {
  }

  predicate IsGapChar(c: char) {
    c in {' ', '\n', '\t'}
  }

  predicate AreGaps(s: string) {
    forall i :: 0 <= i < |s| ==> IsGapChar(s[i])
  }

  /** From i on there is this text. */
  predicate At(s: string, i: nat, text: string) {
    i <= |s| && s[i..] == text
  }

  lemma AtBounds(s: string, i: nat, text: string)
    requires At(s, i, text)
    ensures i <= |s|
  {
  }

  lemma Peel(s: string, i: nat, a: string, b: string)
    requires At(s, i, a + b)
    ensures i + |a| <= |s| && At(s, i + |a|, b) && s[i..i + |a|] == a
    ensures a != "" ==> i < |s| && s[i] == a[0]
  {
    assert s[i + |a|..] == s[i..][|a|..];
    assert s[i..i + |a|] == s[i..][..|a|];
    assert i < |s| ==> s[i] == s[i..][0];
  }

  function Behind(c: char, text: string): string {
    [c] + text
  }

  lemma AfterBracket(s: string, i: nat, c: char, text: string)
    requires At(s, i, Behind(c, text))
    ensures i < |s| && s[i] == c && At(s, i + 1, text)
  {
    Peel(s, i, [c], text);
  }

  lemma SpellEnd(open: char, close: char, tail: string)
    ensures Spell(End, open, close) + tail == tail && |Spell(End, open, close)| == 0
  {
  }

  lemma SpellChar(c: char, rest: Nest, open: char, close: char, tail: string)
    ensures Spell(Char(c, rest), open, close) + tail == [c] + (Spell(rest, open, close) + tail)
    ensures |Spell(Char(c, rest), open, close)| == 1 + |Spell(rest, open, close)|
  {
    Assoc([c], Spell(rest, open, close), tail);
  }

  lemma SpellEscaped(c: char, rest: Nest, open: char, close: char, tail: string)
    ensures Spell(Escaped(c, rest), open, close) + tail == ['\\', c] + (Spell(rest, open, close) + tail)
    ensures |Spell(Escaped(c, rest), open, close)| == 2 + |Spell(rest, open, close)|
  {
    Assoc(['\\', c], Spell(rest, open, close), tail);
  }

  lemma SpellGroup(inner: Nest, rest: Nest, open: char, close: char, tail: string)
    ensures Spell(Group(inner, rest), open, close) + tail ==
            [open] + (Spell(inner, open, close) + Behind(close, Spell(rest, open, close) + tail))
    ensures |Spell(Group(inner, rest), open, close)| == 2 + |Spell(inner, open, close)| + |Spell(rest, open, close)|
  {
    var x, y := Spell(inner, open, close), Spell(rest, open, close);
    Assoc([open] + x + [close], y, tail);
    Assoc([open] + x, [close], y + tail);
    Assoc([open], x, [close] + (y + tail));
  }

  /** The parts of a stretch stand one behind the other. */
  lemma Parts(s: string, i: nat, n: Nest, open: char, close: char, tail: string)
    requires At(s, i, Spell(n, open, close) + tail)
    ensures i <= |s|
    ensures match n
            case End => At(s, i, tail)
            case Char(c, rest) => i < |s| && s[i] == c && At(s, i + 1, Spell(rest, open, close) + tail)
            case Escaped(c, rest) => i + 2 <= |s| && s[i] == '\\' && At(s, i + 2, Spell(rest, open, close) + tail)
            case Group(inner, rest) =>
              i < |s| && s[i] == open && At(s, i + 1, Spell(inner, open, close) + Behind(close, Spell(rest, open, close) + tail))
    ensures |Spell(n, open, close)| == match n
            case End => 0
            case Char(c, rest) => 1 + |Spell(rest, open, close)|
            case Escaped(c, rest) => 2 + |Spell(rest, open, close)|
            case Group(inner, rest) => 2 + |Spell(inner, open, close)| + |Spell(rest, open, close)|
  {
    hide *;
    AtBounds(s, i, Spell(n, open, close) + tail);
    match n
    case End =>
      SpellEnd(open, close, tail);
    case Char(c, rest) =>
      SpellChar(c, rest, open, close, tail);
      Peel(s, i, [c], Spell(rest, open, close) + tail);
    case Escaped(c, rest) =>
      SpellEscaped(c, rest, open, close, tail);
      Peel(s, i, ['\\', c], Spell(rest, open, close) + tail);
    case Group(inner, rest) =>
      SpellGroup(inner, rest, open, close, tail);
      Peel(s, i, [open], Spell(inner, open, close) + Behind(close, Spell(rest, open, close) + tail));
  }

  // ----- The scanners pass such text -----

  lemma ClosingSteps(s: string, i: nat, depth: int, open: char, close: char)
    requires i < |s| && open != close && '\\' !in {open, close}
    ensures Closing(s, i, depth, open, close) ==
            if s[i] == '\\' then Closing(s, i + 2, depth, open, close)
            else if s[i] == open then Closing(s, i + 1, depth + 1, open, close)
            else if s[i] != close then Closing(s, i + 1, depth, open, close)
            else if depth == 1 then Some(i) else Closing(s, i + 1, depth - 1, open, close)
  {
  }

  lemma {:induction false} ClosingPasses(s: string, i: nat, depth: int, n: Nest, open: char, close: char, tail: string)
    requires At(s, i, Spell(n, open, close) + tail) && depth > 0
    requires open != close && '\\' !in {open, close} && Free(n, {open, close, '\\'})
    ensures var next := i + |Spell(n, open, close)|;
            At(s, next, tail) && Closing(s, i, depth, open, close) == Closing(s, next, depth, open, close)
    decreases n
  {
    hide *;
    Parts(s, i, n, open, close, tail);
    FreeParts(n, {open, close, '\\'});
    if i < |s| {
      ClosingSteps(s, i, depth, open, close);
    }
    match n
    case End =>
    case Char(_, rest) => ClosingPasses(s, i + 1, depth, rest, open, close, tail);
    case Escaped(_, rest) => ClosingPasses(s, i + 2, depth, rest, open, close, tail);
    case Group(inner, rest) =>
      var behind := Spell(rest, open, close) + tail;
      ClosingPasses(s, i + 1, depth + 1, inner, open, close, Behind(close, behind));
      var at := i + 1 + |Spell(inner, open, close)|;
      AfterBracket(s, at, close, behind);
      ClosingSteps(s, at, depth + 1, open, close);
      ClosingPasses(s, at + 1, depth, rest, open, close, tail);
  }

  lemma BareSteps(s: string, i: nat, depth: nat)
    requires i < |s|
    ensures BareEnd(s, i, depth) ==
            if s[i] == '\\' then BareEnd(s, i + 2, depth)
            else if s[i] == '(' then BareEnd(s, i + 1, depth + 1)
            else if s[i] in {' ', '\n', '\t'} || (s[i] == ')' && depth == 0) then Some(i)
            else BareEnd(s, i + 1, if s[i] == ')' then depth - 1 else depth)
  {
  }

  lemma {:induction false} BarePasses(s: string, i: nat, depth: nat, n: Nest, tail: string)
    requires At(s, i, Spell(n, '(', ')') + tail) && Free(n, {'(', ')', '\\', ' ', '\n', '\t'})
    ensures var next := i + |Spell(n, '(', ')')|;
            At(s, next, tail) && BareEnd(s, i, depth) == BareEnd(s, next, depth)
    decreases n
  {
    hide *;
    Parts(s, i, n, '(', ')', tail);
    FreeParts(n, {'(', ')', '\\', ' ', '\n', '\t'});
    if i < |s| {
      BareSteps(s, i, depth);
    }
    match n
    case End =>
    case Char(_, rest) => BarePasses(s, i + 1, depth, rest, tail);
    case Escaped(_, rest) => BarePasses(s, i + 2, depth, rest, tail);
    case Group(inner, rest) =>
      var behind := Spell(rest, '(', ')') + tail;
      BarePasses(s, i + 1, depth + 1, inner, Behind(')', behind));
      var at := i + 1 + |Spell(inner, '(', ')')|;
      AfterBracket(s, at, ')', behind);
      BareSteps(s, at, depth + 1);
      BarePasses(s, at + 1, depth, rest, tail);
  }

  lemma AngleSteps(s: string, i: nat)
    requires i < |s|
    ensures AngleEnd(s, i) == if s[i] == '>' then Some(i) else AngleEnd(s, if s[i] == '\\' then i + 2 else i + 1)
  {
  }

  lemma {:induction false} AnglePasses(s: string, i: nat, n: Nest, tail: string)
    requires At(s, i, Spell(n, '(', ')') + tail) && Free(n, {'\\', '>'})
    ensures var next := i + |Spell(n, '(', ')')|; At(s, next, tail) && AngleEnd(s, i) == AngleEnd(s, next)
    decreases n
  {
    hide *;
    Parts(s, i, n, '(', ')', tail);
    FreeParts(n, {'\\', '>'});
    if i < |s| {
      AngleSteps(s, i);
    }
    match n
    case End =>
    case Char(_, rest) => AnglePasses(s, i + 1, rest, tail);
    case Escaped(_, rest) => AnglePasses(s, i + 2, rest, tail);
    case Group(inner, rest) =>
      var behind := Spell(rest, '(', ')') + tail;
      AnglePasses(s, i + 1, inner, Behind(')', behind));
      var at := i + 1 + |Spell(inner, '(', ')')|;
      AfterBracket(s, at, ')', behind);
      AngleSteps(s, at);
      AnglePasses(s, at + 1, rest, tail);
  }

  lemma {:induction false} GapsPass(s: string, i: nat, gaps: string, tail: string)
    requires At(s, i, gaps + tail) && AreGaps(gaps) && (tail == "" || !IsGapChar(tail[0]))
    ensures At(s, i + |gaps|, tail) && SkipGaps(s, i) == i + |gaps|
    decreases |gaps|
  {
    Peel(s, i, gaps, tail);
    if gaps != "" {
      Assoc(gaps[..1], gaps[1..], tail);
      assert gaps == gaps[..1] + gaps[1..];
      Peel(s, i, gaps[..1], gaps[1..] + tail);
      GapsPass(s, i + 1, gaps[1..], tail);
    } else {
      assert s[i..] == tail;
      assert i < |s| ==> s[i] == tail[0];
    }
  }

  // ----- Brackets that close, brackets that do not -----

  lemma Closes(s: string, i: nat, n: Nest, open: char, close: char, tail: string)
    requires At(s, i, Spell(n, open, close) + Behind(close, tail))
    requires open != close && '\\' !in {open, close} && Free(n, {open, close, '\\'})
    ensures var end := i + |Spell(n, open, close)|; Closing(s, i, 1, open, close) == Some(end) && At(s, end + 1, tail)
  {
    hide *;
    ClosingPasses(s, i, 1, n, open, close, Behind(close, tail));
    var end := i + |Spell(n, open, close)|;
    AfterBracket(s, end, close, tail);
    ClosingSteps(s, end, 1, open, close);
  }

  // ----- Where a link may open -----

  /** Not behind an exclamation mark, and not in an excluded range. */
  ghost predicate MayOpen(content: string, at: nat, excluded: seq<TextRange>) {
    && at < |content| && (at > 0 ==> content[at - 1] != '!')
    && forall k :: 0 <= k < |excluded| ==> !(excluded[k].start <= at < excluded[k].stop)
  }

  lemma OpensByText(content: string, at: nat, excluded: seq<TextRange>)
    requires at < |content|
    ensures OpensLink(content, at, excluded) <==> content[at] == '[' && MayOpen(content, at, excluded)
  {
  }

  /** A link opens here: behind its label and gaps an opening parenthesis decides. */
  lemma LabelIsPassed(content: string, at: nat, excluded: seq<TextRange>, name: Nest, gap: string, inside: string)
    requires MayOpen(content, at, excluded) && Free(name, {'[', ']', '\\'}) && AreGaps(gap)
    requires At(content, at, Behind('[', Spell(name, '[', ']') + Behind(']', gap + Behind('(', inside))))
    ensures var start := at + 3 + |Spell(name, '[', ']')| + |gap|;
            At(content, start, inside) && LinkAt(content, at, excluded) == DestinationAt(content, start)
  {
    hide Spell, Free, At, Behind, Closing, SkipGaps, MayOpen, DestinationAt, AreGaps;
    var text := gap + Behind('(', inside);
    AfterBracket(content, at, '[', Spell(name, '[', ']') + Behind(']', text));
    OpensByText(content, at, excluded);
    ClosingSteps(content, at, 0, '[', ']');
    Closes(content, at + 1, name, '[', ']', text);
    var end := at + 1 + |Spell(name, '[', ']')|;
    BehindStarts('(', inside);
    GapsPass(content, end + 1, gap, Behind('(', inside));
    AfterBracket(content, end + 1 + |gap|, '(', inside);
  }

  lemma BehindStarts(c: char, text: string)
    ensures Behind(c, text) != "" && Behind(c, text)[0] == c
  {
  }

  // ----- Stretches between brackets without a partner -----

  /** Stretches with a bracket behind each but the last. */
  datatype Chain = Last(n: Nest) | Then(n: Nest, bracket: char, rest: Chain)

  function ChainText(chain: Chain, open: char, close: char, tail: string): string {
    match chain
    case Last(n) => Spell(n, open, close) + tail
    case Then(n, bracket, rest) => Spell(n, open, close) + Behind(bracket, ChainText(rest, open, close, tail))
  }

  predicate FreeChain(chain: Chain, barred: set<char>) {
    Free(chain.n, barred) && (chain.Then? ==> FreeChain(chain.rest, barred))
  }

  /** First at most `depth` closing brackets, then opening ones; if `exact`, just as many closing ones and no other. */
  predicate Descends(chain: Chain, depth: nat, open: char, close: char, exact: bool) {
    match chain
    case Last(_) => exact ==> depth == 0
    case Then(_, bracket, rest) =>
      if bracket == close then depth > 0 && Descends(rest, depth - 1, open, close, exact)
      else bracket == open && !exact && Descends(rest, 0, open, close, exact)
  }

  /** What is behind the first stretch. */
  function BehindFirst(chain: Chain, open: char, close: char, tail: string): string {
    if chain.Last? then tail else Behind(chain.bracket, ChainText(chain.rest, open, close, tail))
  }

  /** A text in front of a chain joins its first stretch. */
  lemma Joins(s: string, i: nat, n: Nest, chain: Chain, open: char, close: char, tail: string)
    requires chain.n == n && At(s, i, Spell(n, open, close) + BehindFirst(chain, open, close, tail))
    ensures At(s, i, ChainText(chain, open, close, tail))
  {
  }

  lemma Splits(s: string, i: nat, chain: Chain, open: char, close: char, tail: string)
    requires At(s, i, ChainText(chain, open, close, tail))
    ensures At(s, i, Spell(chain.n, open, close) + BehindFirst(chain, open, close, tail))
  {
  }

  lemma JoinChar(s: string, i: nat, c: char, n: Nest, open: char, close: char, tail: string)
    requires i < |s| && s[i] == c && At(s, i + 1, Spell(n, open, close) + tail)
    ensures At(s, i, Spell(Char(c, n), open, close) + tail)
  {
    SpellChar(c, n, open, close, tail);
    assert s[i..] == [s[i]] + s[i + 1..];
  }

  lemma JoinEscaped(s: string, i: nat, n: Nest, open: char, close: char, tail: string)
    requires i + 2 <= |s| && s[i] == '\\' && At(s, i + 2, Spell(n, open, close) + tail)
    ensures At(s, i, Spell(Escaped(s[i + 1], n), open, close) + tail)
  {
    SpellEscaped(s[i + 1], n, open, close, tail);
    assert s[i..] == [s[i], s[i + 1]] + s[i + 2..];
  }

  lemma JoinGroup(s: string, i: nat, inner: Nest, rest: Nest, open: char, close: char, tail: string)
    requires i < |s| && s[i] == open && At(s, i + 1, Spell(inner, open, close) + Behind(close, Spell(rest, open, close) + tail))
    ensures At(s, i, Spell(Group(inner, rest), open, close) + tail)
  {
    SpellGroup(inner, rest, open, close, tail);
    assert s[i..] == [s[i]] + s[i + 1..];
  }

  lemma JoinBracket(s: string, i: nat, open: char, close: char, text: string)
    requires i < |s| && At(s, i + 1, text)
    ensures At(s, i, Spell(End, open, close) + Behind(s[i], text))
  {
    assert s[i..] == [s[i]] + s[i + 1..];
  }

  lemma JoinNothing(s: string, i: nat, open: char, close: char)
    requires i <= |s|
    ensures At(s, i, Spell(End, open, close) + s[i..])
  {
  }

  /** One character in front of a chain, of any kind but a bracket without a partner. */
  lemma InFront(s: string, i: nat, chain: Chain, open: char, close: char, tail: string, barred: set<char>) returns (longer: Chain)
    requires i < |s| && FreeChain(chain, barred)
    requires if s[i] == '\\' then i + 2 <= |s| && At(s, i + 2, ChainText(chain, open, close, tail))
             else s[i] !in barred && At(s, i + 1, ChainText(chain, open, close, tail))
    ensures At(s, i, ChainText(longer, open, close, tail)) && FreeChain(longer, barred)
    ensures forall depth, exact :: Descends(longer, depth, open, close, exact) == Descends(chain, depth, open, close, exact)
  {
    hide At, Spell, Behind, ChainText, BehindFirst;
    var tailed := BehindFirst(chain, open, close, tail);
    var n;
    if s[i] == '\\' {
      Splits(s, i + 2, chain, open, close, tail);
      JoinEscaped(s, i, chain.n, open, close, tailed);
      n := Escaped(s[i + 1], chain.n);
    } else {
      Splits(s, i + 1, chain, open, close, tail);
      JoinChar(s, i, s[i], chain.n, open, close, tailed);
      n := Char(s[i], chain.n);
    }
    longer := chain.(n := n);
    SameBehind(chain, n, open, close, tail);
    Joins(s, i, n, longer, open, close, tail);
  }

  lemma SameBehind(chain: Chain, n: Nest, open: char, close: char, tail: string)
    ensures BehindFirst(chain.(n := n), open, close, tail) == BehindFirst(chain, open, close, tail)
  {
  }

  /** An opening bracket in front of a chain: it has a partner if the chain closes one more. */
  lemma OpenInFront(s: string, i: nat, chain: Chain, open: char, close: char, tail: string, barred: set<char>, depth: nat, exact: bool)
    returns (longer: Chain)
    requires i < |s| && s[i] == open != close && FreeChain(chain, barred) && At(s, i + 1, ChainText(chain, open, close, tail))
    requires Descends(chain, depth + 1, open, close, exact)
    ensures At(s, i, ChainText(longer, open, close, tail)) && FreeChain(longer, barred) && Descends(longer, depth, open, close, exact)
  {
    hide At, Spell, Behind, ChainText, BehindFirst;
    if chain.Then? && chain.bracket == close {
      var next := chain.rest;
      Splits(s, i + 1, chain, open, close, tail);
      SplitGroup(chain, open, close, tail);
      JoinGroup(s, i, chain.n, next.n, open, close, BehindFirst(next, open, close, tail));
      longer := next.(n := Group(chain.n, next.n));
      SameBehind(next, longer.n, open, close, tail);
      Joins(s, i, longer.n, longer, open, close, tail);
    } else {
      longer := Then(End, open, chain);
      JoinBracket(s, i, open, close, ChainText(chain, open, close, tail));
      ThenText(chain, open, open, close, tail);
      FewerDescend(chain, depth, open, close, exact);
    }
  }

  lemma SplitGroup(chain: Chain, open: char, close: char, tail: string)
    requires chain.Then? && chain.bracket == close
    ensures BehindFirst(chain, open, close, tail) ==
            Behind(close, Spell(chain.rest.n, open, close) + BehindFirst(chain.rest, open, close, tail))
  {
  }

  lemma ThenText(chain: Chain, bracket: char, open: char, close: char, tail: string)
    ensures ChainText(Then(End, bracket, chain), open, close, tail) ==
            Spell(End, open, close) + Behind(bracket, ChainText(chain, open, close, tail))
  {
  }

  lemma FewerDescend(chain: Chain, depth: nat, open: char, close: char, exact: bool)
    requires open != close && Descends(chain, depth + 1, open, close, exact) && !(chain.Then? && chain.bracket == close)
    ensures Descends(Then(End, open, chain), depth, open, close, exact)
  {
  }

  // ----- What the scanners stop at, read back -----

  lemma {:induction false} ClosingReads(s: string, i: nat, depth: nat, open: char, close: char) returns (chain: Chain)
    requires open != close && '\\' !in {open, close} && Closing(s, i, depth + 1, open, close).Some?
    ensures var end := Closing(s, i, depth + 1, open, close).value;
            i <= end < |s| && s[end] == close && At(s, i, ChainText(chain, open, close, s[end..]))
    ensures FreeChain(chain, {open, close, '\\'}) && Descends(chain, depth, open, close, true)
    decreases |s| - i
  {
    hide Closing, At, Spell, Behind, ChainText;
    ClosingInside(s, i, depth + 1, open, close);
    var end := Closing(s, i, depth + 1, open, close).value;
    var tail := s[end..];
    ClosingSteps(s, i, depth + 1, open, close);
    if s[i] == open {
      chain := ClosingReads(s, i + 1, depth + 1, open, close);
      chain := OpenInFront(s, i, chain, open, close, tail, {open, close, '\\'}, depth, true);
    } else if s[i] == close && depth == 0 {
      chain := Last(End);
      JoinNothing(s, i, open, close);
      LastText(End, open, close, tail);
    } else if s[i] == close {
      var more := ClosingReads(s, i + 1, depth - 1, open, close);
      chain := Then(End, close, more);
      JoinBracket(s, i, open, close, ChainText(more, open, close, tail));
      ThenText(more, close, open, close, tail);
    } else if s[i] == '\\' {
      ClosingInside(s, i + 2, depth + 1, open, close);
      chain := ClosingReads(s, i + 2, depth, open, close);
      chain := InFront(s, i, chain, open, close, tail, {open, close, '\\'});
    } else {
      chain := ClosingReads(s, i + 1, depth, open, close);
      chain := InFront(s, i, chain, open, close, tail, {open, close, '\\'});
    }
  }

  lemma ClosingInside(s: string, i: nat, depth: int, open: char, close: char)
    requires open != close && Closing(s, i, depth, open, close).Some?
    ensures i < |s| && i <= Closing(s, i, depth, open, close).value < |s|
    ensures s[Closing(s, i, depth, open, close).value] == close
  {
  }

  lemma LastText(n: Nest, open: char, close: char, tail: string)
    ensures ChainText(Last(n), open, close, tail) == Spell(n, open, close) + tail
  {
  }

  lemma BareInside(s: string, i: nat, depth: nat)
    requires BareEnd(s, i, depth).Some?
    ensures i < |s| && i <= BareEnd(s, i, depth).value < |s|
    ensures s[BareEnd(s, i, depth).value] == ')' || IsGapChar(s[BareEnd(s, i, depth).value])
  {
  }

  lemma {:induction false} BareReads(s: string, i: nat, depth: nat) returns (chain: Chain)
    requires BareEnd(s, i, depth).Some?
    ensures var end := BareEnd(s, i, depth).value;
            i <= end < |s| && At(s, i, ChainText(chain, '(', ')', s[end..])) && Descends(chain, depth, '(', ')', s[end] == ')')
    ensures FreeChain(chain, {'(', ')', '\\', ' ', '\n', '\t'})
    decreases |s| - i
  {
    hide BareEnd, At, Spell, Behind, ChainText;
    BareInside(s, i, depth);
    var end := BareEnd(s, i, depth).value;
    var tail := s[end..];
    BareSteps(s, i, depth);
    if s[i] == '\\' {
      BareInside(s, i + 2, depth);
      chain := BareReads(s, i + 2, depth);
      chain := InFront(s, i, chain, '(', ')', tail, {'(', ')', '\\', ' ', '\n', '\t'});
    } else if s[i] == '(' {
      chain := BareReads(s, i + 1, depth + 1);
      chain := OpenInFront(s, i, chain, '(', ')', tail, {'(', ')', '\\', ' ', '\n', '\t'}, depth, s[end] == ')');
    } else if s[i] == ')' && depth > 0 {
      var more := BareReads(s, i + 1, depth - 1);
      chain := Then(End, ')', more);
      JoinBracket(s, i, '(', ')', ChainText(more, '(', ')', tail));
      ThenText(more, ')', '(', ')', tail);
    } else if IsGapChar(s[i]) || s[i] == ')' {
      chain := Last(End);
      JoinNothing(s, i, '(', ')');
      LastText(End, '(', ')', tail);
    } else {
      chain := BareReads(s, i + 1, depth);
      chain := InFront(s, i, chain, '(', ')', tail, {'(', ')', '\\', ' ', '\n', '\t'});
    }
  }

  lemma {:induction false} BareChainPasses(s: string, i: nat, depth: nat, chain: Chain, tail: string)
    requires At(s, i, ChainText(chain, '(', ')', tail)) && tail != "" && FreeChain(chain, {'(', ')', '\\', ' ', '\n', '\t'})
    requires (tail[0] == ')' || IsGapChar(tail[0])) && Descends(chain, depth, '(', ')', tail[0] == ')')
    ensures i <= |s| - |tail| && BareEnd(s, i, depth) == Some(|s| - |tail|) && At(s, |s| - |tail|, tail)
    decreases chain
  {
    hide BareEnd, Free, Spell, Behind;
    var next := i + |Spell(chain.n, '(', ')')|;
    BarePasses(s, i, depth, chain.n, BehindFirst(chain, '(', ')', tail));
    match chain
    case Last(_) =>
      assert s[next..] == tail && s[next] == tail[0];
      BareSteps(s, next, depth);
    case Then(_, bracket, rest) =>
      AfterBracket(s, next, bracket, ChainText(rest, '(', ')', tail));
      BareSteps(s, next, depth);
      BareChainPasses(s, next + 1, if bracket == ')' then depth - 1 else if tail[0] == ')' then 0 else depth + 1, rest, tail);
  }

  lemma AngleInside(s: string, i: nat)
    requires AngleEnd(s, i).Some?
    ensures i <= AngleEnd(s, i).value < |s| && s[AngleEnd(s, i).value] == '>'
  {
  }

  lemma {:induction false} AngleReads(s: string, i: nat) returns (n: Nest)
    requires AngleEnd(s, i).Some?
    ensures var end := AngleEnd(s, i).value; i <= end < |s| && At(s, i, Spell(n, '(', ')') + s[end..])
    ensures Free(n, {'\\', '>'})
    decreases |s| - i
  {
    hide AngleEnd, At, Spell;
    AngleInside(s, i);
    var tail := s[AngleEnd(s, i).value..];
    AngleSteps(s, i);
    if s[i] == '>' {
      n := End;
      JoinNothing(s, i, '(', ')');
    } else if s[i] == '\\' {
      AngleInside(s, i + 2);
      n := AngleReads(s, i + 2);
      JoinEscaped(s, i, n, '(', ')', tail);
      n := Escaped(s[i + 1], n);
    } else {
      n := AngleReads(s, i + 1);
      JoinChar(s, i, s[i], n, '(', ')', tail);
      n := Char(s[i], n);
    }
  }

  lemma {:induction false} GapsRead(s: string, i: nat)
    requires i <= |s|
    ensures var end := SkipGaps(s, i); i <= end <= |s| && AreGaps(s[i..end]) && (end < |s| ==> !IsGapChar(s[end]))
    decreases |s| - i
  {
    if i < |s| && IsGapChar(s[i]) {
      GapsRead(s, i + 1);
      assert s[i..SkipGaps(s, i)] == [s[i]] + s[i + 1..SkipGaps(s, i)];
    }
  }

  // ----- What a link is -----

  /** Behind its opening parenthesis the text goes on to the closing one. */
  ghost predicate IsClosed(s: string, start: nat) {
    exists inside: Nest, rest: string ::
      Free(inside, {'(', ')', '\\'}) && At(s, start, Spell(inside, '(', ')') + Behind(')', rest))
  }

  /**
   From `from` to `end` stands a bare destination: without gaps, up to a gap, or up to a closing parenthesis if every
   parenthesis in it is closed in it.
   */
  ghost predicate IsBareAt(s: string, from: nat, end: nat) {
    && from < end < |s| && s[from] != '<'
    && exists chain: Chain ::
         && FreeChain(chain, {'(', ')', '\\', ' ', '\n', '\t'}) && At(s, from, ChainText(chain, '(', ')', s[end..]))
         && Descends(chain, 0, '(', ')', s[end] == ')') && (s[end] == ')' || IsGapChar(s[end]))
  }

  /** From `from` to `end` stands a destination in angle brackets: up to the first closing one that no backslash hides. */
  ghost predicate IsAngleAt(s: string, from: nat, end: nat) {
    && 0 < from < end < |s| && s[from - 1] == '<' && s[end] == '>'
    && exists n: Nest :: Free(n, {'\\', '>'}) && At(s, from, Spell(n, '(', ')') + s[end..])
  }

  ghost predicate IsDestination(s: string, start: nat, o: Occurrence) {
    && o.start <= o.end <= |s| && o.rawDestination == s[o.start..o.end] && IsClosed(s, start)
    && ((start <= o.start && AreGaps(s[start..o.start]) && IsBareAt(s, o.start, o.end))
        || (start < o.start && AreGaps(s[start..o.start - 1]) && IsAngleAt(s, o.start, o.end)))
  }

  lemma ClosedByText(s: string, start: nat)
    requires start <= |s|
    ensures IsClosed(s, start) <==> Closing(s, start, 1, '(', ')').Some?
  {
    hide At, Spell, Behind, Closing, Free;
    if IsClosed(s, start) {
      var inside: Nest, rest: string :|
        Free(inside, {'(', ')', '\\'}) && At(s, start, Spell(inside, '(', ')') + Behind(')', rest));
      Closes(s, start, inside, '(', ')', rest);
    }
    if Closing(s, start, 1, '(', ')').Some? {
      var chain := ClosingReads(s, start, 0, '(', ')');
      var end := Closing(s, start, 1, '(', ')').value;
      LastText(chain.n, '(', ')', s[end..]);
      StartsWith(s, end, ')');
    }
  }

  lemma StartsWith(s: string, end: nat, c: char)
    requires end < |s| && s[end] == c
    ensures s[end..] == Behind(c, s[end + 1..])
  {
  }

  lemma BareByText(s: string, from: nat, end: nat)
    requires from < |s| && s[from] != '<'
    ensures IsBareAt(s, from, end) <==> BareEnd(s, from, 0) == Some(end) && from < end
  {
    hide At, Spell, Behind, BareEnd, FreeChain, ChainText, Descends;
    if IsBareAt(s, from, end) {
      var chain :| && FreeChain(chain, {'(', ')', '\\', ' ', '\n', '\t'}) && At(s, from, ChainText(chain, '(', ')', s[end..]))
                   && Descends(chain, 0, '(', ')', s[end] == ')') && (s[end] == ')' || IsGapChar(s[end]));
      BareChainPasses(s, from, 0, chain, s[end..]);
    }
    if BareEnd(s, from, 0) == Some(end) && from < end {
      BareInside(s, from, 0);
      var chain := BareReads(s, from, 0);
    }
  }

  lemma AngleByText(s: string, from: nat, end: nat)
    requires 0 < from <= |s| && s[from - 1] == '<'
    ensures IsAngleAt(s, from, end) <==> AngleEnd(s, from) == Some(end) && from < end
  {
    hide At, Spell, AngleEnd, Free;
    if IsAngleAt(s, from, end) {
      var n :| Free(n, {'\\', '>'}) && At(s, from, Spell(n, '(', ')') + s[end..]);
      AnglePasses(s, from, n, s[end..]);
      SameTail(s, from + |Spell(n, '(', ')')|, end);
      AngleSteps(s, end);
    }
    if AngleEnd(s, from) == Some(end) && from < end {
      AngleInside(s, from);
      var n := AngleReads(s, from);
    }
  }

  lemma SameTail(s: string, i: nat, end: nat)
    requires end < |s| && At(s, i, s[end..])
    ensures i == end
  {
  }

  lemma SkipsTo(s: string, start: nat, from: nat)
    requires start <= from < |s| && AreGaps(s[start..from]) && !IsGapChar(s[from])
    ensures SkipGaps(s, start) == from
  {
    assert s[start..] == s[start..from] + s[from..];
    GapsPass(s, start, s[start..from], s[from..]);
  }

  lemma BareStartsWithNoGap(s: string, from: nat, end: nat)
    requires from < |s| && s[from] != '<' && IsBareAt(s, from, end)
    ensures !IsGapChar(s[from])
  {
    BareByText(s, from, end);
    BareSteps(s, from, 0);
  }

  /** The destination that is found is the one that stands there. */
  lemma DestinationByText(s: string, start: nat, o: Occurrence)
    requires start <= |s|
    ensures DestinationAt(s, start) == Some(o) <==> IsDestination(s, start, o)
  {
    hide IsClosed, Closing, BareEnd, AngleEnd, IsBareAt, IsAngleAt, AreGaps, SkipGaps;
    ClosedByText(s, start);
    GapsRead(s, start);
    var i := SkipGaps(s, start);
    if i < |s| {
      if s[i] == '<' {
        AngleByText(s, i + 1, o.end);
      } else {
        BareByText(s, i, o.end);
      }
    }
    if IsDestination(s, start, o) {
      DestinationStarts(s, start, o);
    }
  }

  lemma DestinationStarts(s: string, start: nat, o: Occurrence)
    requires start <= |s| && IsDestination(s, start, o)
    ensures o.start <= |s| && (if IsBareAt(s, o.start, o.end) && start <= o.start && AreGaps(s[start..o.start])
                               then SkipGaps(s, start) == o.start && o.start < |s| && s[o.start] != '<'
                               else SkipGaps(s, start) == o.start - 1 && s[o.start - 1] == '<' && IsAngleAt(s, o.start, o.end))
  {
    if IsBareAt(s, o.start, o.end) && start <= o.start && AreGaps(s[start..o.start]) {
      BareStartsWithNoGap(s, o.start, o.end);
      SkipsTo(s, start, o.start);
    } else {
      SkipsTo(s, start, o.start - 1);
    }
  }

  /**
   A link: an opening bracket, not of an image and not in code, a label with closed brackets, its closing bracket, gaps,
   and an opening parenthesis behind which there is a destination.
   */
  ghost predicate IsLink(content: string, at: nat, excluded: seq<TextRange>, o: Occurrence) {
    && MayOpen(content, at, excluded)
    && exists name: Nest, gap: string, inside: string ::
         && Free(name, {'[', ']', '\\'}) && AreGaps(gap)
         && At(content, at, Behind('[', Spell(name, '[', ']') + Behind(']', gap + Behind('(', inside))))
         && IsDestination(content, at + 3 + |Spell(name, '[', ']')| + |gap|, o)
  }

  lemma LinkByText(content: string, at: nat, excluded: seq<TextRange>, o: Occurrence)
    requires at < |content|
    ensures LinkAt(content, at, excluded) == Some(o) <==> IsLink(content, at, excluded, o)
  {
    hide At, Spell, Behind, Closing, Free, AreGaps, MayOpen, IsDestination, DestinationAt, LinkAt;
    if IsLink(content, at, excluded, o) {
      var name: Nest, gap: string, inside: string :|
         && Free(name, {'[', ']', '\\'}) && AreGaps(gap)
         && At(content, at, Behind('[', Spell(name, '[', ']') + Behind(']', gap + Behind('(', inside))))
         && IsDestination(content, at + 3 + |Spell(name, '[', ']')| + |gap|, o);
      LabelIsPassed(content, at, excluded, name, gap, inside);
      AtBounds(content, at + 3 + |Spell(name, '[', ']')| + |gap|, inside);
      DestinationByText(content, at + 3 + |Spell(name, '[', ']')| + |gap|, o);
    }
    if LinkAt(content, at, excluded) == Some(o) {
      var name, gap, inside := LinkReads(content, at, excluded, o);
      LabelIsPassed(content, at, excluded, name, gap, inside);
      AtBounds(content, at + 3 + |Spell(name, '[', ']')| + |gap|, inside);
      DestinationByText(content, at + 3 + |Spell(name, '[', ']')| + |gap|, o);
    }
  }

  lemma LinkReads(content: string, at: nat, excluded: seq<TextRange>, o: Occurrence)
    returns (name: Nest, gap: string, inside: string)
    requires at < |content| && LinkAt(content, at, excluded) == Some(o)
    ensures Free(name, {'[', ']', '\\'}) && AreGaps(gap) && MayOpen(content, at, excluded)
    ensures At(content, at, Behind('[', Spell(name, '[', ']') + Behind(']', gap + Behind('(', inside))))
  {
    hide Spell, Free, Closing, AreGaps, MayOpen, DestinationAt, SkipGaps, Behind, ChainText, Covered;
    OpensByText(content, at, excluded);
    ClosingSteps(content, at, 0, '[', ']');
    var chain := ClosingReads(content, at + 1, 0, '[', ']');
    var end := Closing(content, at, 0, '[', ']').value;
    name := chain.n;
    LastText(name, '[', ']', content[end..]);
    StartsWith(content, end, ']');
    GapsRead(content, end + 1);
    var j := SkipGaps(content, end + 1);
    gap := content[end + 1..j];
    inside := content[j + 1..];
    StartsWith(content, j, '(');
    assert content[end + 1..] == gap + content[j..];
    StartsWith(content, at, '[');
  }

  // ----- The whole scan -----

  ghost predicate NoLinkBetween(content: string, i: nat, at: nat, excluded: seq<TextRange>) {
    forall j: nat, o: Occurrence :: i <= j < at ==> !IsLink(content, j, excluded, o)
  }

  /** The scan finds the first link, and goes on behind its destination. */
  lemma {:induction false} FirstLinkIsFound(content: string, i: nat, at: nat, excluded: seq<TextRange>, o: Occurrence)
    requires i <= at < |content| && NoLinkBetween(content, i, at, excluded) && IsLink(content, at, excluded, o)
    ensures LinksFrom(content, i, excluded) == [o] + LinksFrom(content, o.end + 1, excluded)
    decreases at - i
  {
    hide IsLink, LinkAt;
    if i == at {
      LinkByText(content, at, excluded, o);
    } else {
      NoLinkHere(content, i, at, excluded);
      FirstLinkIsFound(content, i + 1, at, excluded, o);
    }
  }

  lemma NoLinkHere(content: string, i: nat, at: nat, excluded: seq<TextRange>)
    requires i < at <= |content| && NoLinkBetween(content, i, at, excluded)
    ensures LinkAt(content, i, excluded) == None
  {
    if LinkAt(content, i, excluded).Some? {
      LinkByText(content, i, excluded, LinkAt(content, i, excluded).value);
    }
  }

  lemma {:induction false} NoLinkIsFound(content: string, i: nat, excluded: seq<TextRange>)
    requires NoLinkBetween(content, i, |content|, excluded)
    ensures LinksFrom(content, i, excluded) == []
    decreases |content| - i
  {
    hide IsLink, LinkAt;
    if i < |content| {
      NoLinkHere(content, i, |content|, excluded);
      NoLinkIsFound(content, i + 1, excluded);
    }
  }

  // ----- What is compared -----

  /** Destinations are compared without blanks around them and without one angle bracket at each end. */
  lemma NormalizedByText(lead: string, open: string, core: string, close: string, trail: string)
    requires (forall i :: 0 <= i < |lead| ==> IsSpace(lead[i])) && (forall i :: 0 <= i < |trail| ==> IsSpace(trail[i]))
    requires open in {"", "<"} && close in {"", ">"}
    requires open == "" ==> core != "" && core[0] != '<' && !IsSpace(core[0])
    requires close == "" ==> core != "" && core[|core| - 1] != '>' && !IsSpace(core[|core| - 1])
    ensures NormalizeCandidateDestination(lead + (open + core + close) + trail) == core
    ensures NormalizeCandidateDestination("") == ""
  {
    BracketsAreNoBlanks();
    var t := open + core + close;
    assert t[0] == (if open == "" then core[0] else '<');
    assert t[|t| - 1] == (if close == "" then core[|core| - 1] else '>');
    TrimByText(lead, t, trail);
    Unwraps(open, core, close);
  }

  lemma BracketsAreNoBlanks()
    ensures !IsSpace('<') && !IsSpace('>')
  {
  }

  lemma Unwraps(open: string, core: string, close: string)
    requires open in {"", "<"} && close in {"", ">"}
    requires open == "" ==> core != "" && core[0] != '<'
    requires close == "" ==> core != "" && core[|core| - 1] != '>'
    ensures TrimSuffix(TrimPrefix(open + core + close, "<"), ">") == core
  {
    var t, u := open + core + close, core + close;
    Assoc(open, core, close);
    assert t[..1] == [t[0]];
    assert TrimPrefix(t, "<") == u;
    assert u != "" ==> u[|u| - 1..] == [u[|u| - 1]];
    assert close != "" ==> u[..|u| - 1] == core;
    assert close == "" ==> u == core;
  }
}
