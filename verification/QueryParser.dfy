/**
 The parser and compiler of the search query language: queryParser in backend/internal/search/postgres_query.go.
 The SQL text is an expression tree here; a placeholder $n is the number n.
 */
module QueryParser {
  import opened Wrappers
  import opened Text
  import opened QueryTokens

  /** The weights of the four searched columns; zero takes a column out of the search. */
  datatype Columns = Columns(title: nat, headings: nat, content: nat, pageId: nat)

  const ALL_COLUMNS := Columns(20, 5, 1, 1)

  /** `value` records what a placeholder was emitted for; the SQL text has only its number. */
  datatype Expr =
    | Match(arg: nat, value: string, columns: Columns)       // the full-text condition with the query in $arg
    | StartsWith(arg: nat, value: string, columns: Columns)  // some column of non-zero weight starts with $arg
    | And(left: Expr, right: Expr)
    | Or(left: Expr, right: Expr)
    | AndNot(left: Expr, right: Expr)
    | False

  /** What a token is to the parser. Only Plain and Quoted tokens can be search terms. */
  datatype Kind = Plain | Quoted | AndOp | OrOp | NotOp | Sym(c: char) | Junk

  function KindOf(t: Token): Kind {
    if t.quoted then Quoted
    else if t.text == "AND" then AndOp
    else if t.text == "OR" then OrOp
    else if t.text == "NOT" then NotOp
    else if |t.text| == 1 && t.text[0] in SPECIAL then Sym(t.text[0])
    else if exists c :: c in t.text && c in SPECIAL then Junk
    else Plain
  }

  predicate Is(ts: seq<Token>, kind: Kind) {
    ts != [] && KindOf(ts[0]) == kind
  }

  function Skip(ts: seq<Token>, kind: Kind): (rest: seq<Token>)
    ensures |rest| <= |ts|
  {
    if Is(ts, kind) then ts[1..] else ts
  }

  /** p.is(text): the next token is this text, unquoted. */
  predicate IsText(ts: seq<Token>, text: string) {
    ts != [] && !ts[0].quoted && ts[0].text == text
  }

  lemma KindsByText(ts: seq<Token>)
    ensures IsText(ts, "AND") <==> Is(ts, AndOp)
    ensures IsText(ts, "OR") <==> Is(ts, OrOp)
    ensures IsText(ts, "NOT") <==> Is(ts, NotOp)
    ensures forall c :: c in SPECIAL ==> (IsText(ts, [c]) <==> Is(ts, Sym(c)))
  {
  }

  // ----- Phrases -----

  datatype PhraseRead = PhraseRead(prefix: bool, text: string, rest: seq<Token>)

  /** One phrase: a term, perhaps starred, perhaps with more terms joined by "+". */
  function Phrase(ts: seq<Token>): (r: Option<PhraseRead>)
    ensures r.Some? ==> |r.value.rest| < |ts|
    decreases |ts|, 1
  {
    if ts == [] || !(KindOf(ts[0]).Plain? || KindOf(ts[0]).Quoted?) then None
    else
      match PlusTail(ts[0].text, Skip(ts[1..], Sym('*')))
      case None => None
      case Some(p) => Some(PhraseRead(Is(ts[1..], Sym('*')), p.text, p.rest))
  }

  function PlusTail(text: string, ts: seq<Token>): (r: Option<Lexeme>)
    ensures r.Some? ==> |r.value.rest| <= |ts|
    decreases |ts|, 0
  {
    if !Is(ts, Sym('+')) then Some(Lexeme(text, ts))
    else
      match Phrase(ts[1..])
      case None => None
      case Some(next) => PlusTail(text + " " + next.text, next.rest)
  }

  datatype Lexeme = Lexeme(text: string, rest: seq<Token>)

  function Escape(s: string): string {
    if s == "" then ""
    else (if s[0] == '\\' || s[0] == '"' then ['\\', s[0]] else [s[0]]) + Escape(s[1..])
  }

  function GroongaQuote(s: string): string {
    ['"'] + Escape(s) + ['"']
  }

  predicate IsAsciiLetter(c: char) {
    'a' <= c <= 'z' || 'A' <= c <= 'Z'
  }

  /** Text that normal tokenization must split: non-ASCII, or letters and digits together. */
  predicate IsMixed(text: string) {
    || (exists c :: c in text && c as int > 127)
    || ((exists c :: c in text && IsAsciiLetter(c)) && (exists c :: c in text && '0' <= c <= '9'))
  }

  /** The Groonga query for a phrase: quoted, or a bare prefix search. */
  function PhraseQuery(prefix: bool, text: string): string {
    if prefix && !IsMixed(text) then text + "*" else GroongaQuote(text)
  }

  // ----- Column filters -----

  datatype Chosen = Chosen(title: bool, headings: bool, content: bool, pageId: bool)

  /** None for an unknown column; path, filepath and kind are known but never searched. */
  function Choose(chosen: Chosen, name: string): Option<Chosen> {
    if name == "title" then Some(chosen.(title := true))
    else if name == "headings" then Some(chosen.(headings := true))
    else if name == "content" then Some(chosen.(content := true))
    else if name == "pageid" then Some(chosen.(pageId := true))
    else if name == "path" || name == "filepath" || name == "kind" then Some(chosen)
    else None
  }

  const NONE_CHOSEN := Chosen(false, false, false, false)

  function Narrow(cols: Columns, chosen: Chosen, exclude: bool): Columns {
    Columns(
      if chosen.title == exclude then 0 else cols.title,
      if chosen.headings == exclude then 0 else cols.headings,
      if chosen.content == exclude then 0 else cols.content,
      if chosen.pageId == exclude then 0 else cols.pageId)
  }

  datatype NamesRead = NamesRead(chosen: Chosen, rest: seq<Token>)

  function Names(ts: seq<Token>, braces: bool, chosen: Chosen): (r: Option<NamesRead>)
    ensures r.Some? ==> |r.value.rest| < |ts|
    decreases |ts|
  {
    if ts == [] then None
    else
      match Choose(chosen, ToLower(ts[0].text))
      case None => None
      case Some(more) =>
        if !braces then Some(NamesRead(more, ts[1..]))
        else if Is(ts[1..], Sym('}')) then Some(NamesRead(more, ts[2..]))
        else Names(ts[1..], braces, more)
  }

  datatype FilterRead = NoFilter | BadFilter | Filtered(columns: Columns, rest: seq<Token>)

  /** The look-ahead for ":" does not ask whether the colon is quoted. */
  predicate ColonAhead(ts: seq<Token>) {
    |ts| > 1 && ts[1].text == ":"
  }

  function ColumnFilter(ts: seq<Token>, cols: Columns): (r: FilterRead)
    ensures r.Filtered? ==> |r.rest| < |ts|
  {
    var exclude := Is(ts, Sym('-'));
    var unsigned := Skip(ts, Sym('-'));
    var braces := Is(unsigned, Sym('{'));
    if !braces && !ColonAhead(unsigned) then NoFilter
    else
      match Names(Skip(unsigned, Sym('{')), braces, NONE_CHOSEN)
      case None => BadFilter
      case Some(names) =>
        if Is(names.rest, Sym(':')) then Filtered(Narrow(cols, names.chosen, exclude), names.rest[1..]) else BadFilter
  }

  // ----- NEAR groups -----

  const MAX_INT: int := 0x7fff_ffff_ffff_ffff

  predicate AllDigits(s: string) {
    forall i :: 0 <= i < |s| ==> '0' <= s[i] <= '9'
  }

  function DigitsValue(s: string): nat
    requires AllDigits(s)
  {
    if s == "" then 0 else DigitsValue(s[..|s| - 1]) * 10 + (s[|s| - 1] as int - '0' as int)
  }

  /** strconv.Atoi on a 64-bit platform. */
  function Atoi(s: string): Option<int> {
    var signed := s != "" && (s[0] == '+' || s[0] == '-');
    var digits := if signed then s[1..] else s;
    if digits == "" || !AllDigits(digits) then None
    else
      var v: int := DigitsValue(digits);
      if signed && s[0] == '-' then (if v <= MAX_INT + 1 then Some(-v) else None)
      else if v <= MAX_INT then Some(v) else None
  }

  function Decimal(n: nat): (s: string)
    ensures s != "" && AllDigits(s)
  {
    var last := [('0' as int + n % 10) as char];
    if n < 10 then last else Decimal(n / 10) + last
  }

  function JoinTexts(texts: seq<string>): string {
    if texts == [] then ""
    else if |texts| == 1 then texts[0]
    else JoinTexts(texts[..|texts| - 1]) + " " + texts[|texts| - 1]
  }

  function QuotedTexts(texts: seq<string>): (r: seq<string>)
    ensures |r| == |texts|
  {
    if texts == [] then [] else QuotedTexts(texts[..|texts| - 1]) + [GroongaQuote(texts[|texts| - 1])]
  }

  function NearQuery(distance: nat, texts: seq<string>): string {
    "*NP" + Decimal(distance) + GroongaQuote(JoinTexts(QuotedTexts(texts)))
  }

  predicate NearAhead(ts: seq<Token>) {
    |ts| > 1 && !ts[0].quoted && ts[0].text == "NEAR" && ts[1].text == "("
  }

  datatype TermsRead = TermsRead(texts: seq<string>, rest: seq<Token>)

  function NearTerms(ts: seq<Token>, texts: seq<string>): (r: Option<TermsRead>)
    ensures r.Some? ==> |r.value.rest| <= |ts|
    decreases |ts|
  {
    if ts == [] || Is(ts, Sym(',')) || Is(ts, Sym(')')) then Some(TermsRead(texts, ts))
    else
      match Phrase(ts)
      case None => None
      case Some(p) => NearTerms(p.rest, texts + [p.text])
  }

  datatype NearRead = NearRead(query: string, texts: seq<string>, rest: seq<Token>)

  /** The rest of a NEAR group, behind its opening parenthesis. */
  function NearGroup(ts: seq<Token>): (r: Option<NearRead>)
    ensures r.Some? ==> |r.value.rest| < |ts|
  {
    match NearTerms(ts, [])
    case None => None
    case Some(terms) =>
      if terms.texts == [] then None
      else
        match NearDistance(terms.rest)
        case None => None
        case Some(d) =>
          if Is(d.rest, Sym(')')) then Some(NearRead(NearQuery(d.distance, terms.texts), terms.texts, d.rest[1..])) else None
  }

  datatype DistanceRead = DistanceRead(distance: nat, rest: seq<Token>)

  function NearDistance(ts: seq<Token>): (r: Option<DistanceRead>)
    ensures r.Some? ==> |r.value.rest| <= |ts|
  {
    if !Is(ts, Sym(',')) then Some(DistanceRead(10, ts))
    else if |ts| == 1 then None
    else
      match Atoi(ts[1].text)
      case None => None
      case Some(n) => if n < 0 then None else Some(DistanceRead(n, ts[2..]))
  }

  // ----- The grammar -----

  /** The arguments bound so far, $1 first, and the texts to highlight. */
  datatype Bound = Bound(args: seq<string>, keywords: seq<string>)

  datatype Parsed = Parsed(expr: Expr, bound: Bound, rest: seq<Token>)

  predicate HasColumn(cols: Columns) {
    cols.title != 0 || cols.headings != 0 || cols.content != 0 || cols.pageId != 0
  }

  /** What one search term contributes: its keyword, its query and, when anchored, its text. */
  function BindTerm(bound: Bound, cols: Columns, anchored: bool, query: string, text: string): (Expr, Bound) {
    var args := bound.args + [query];
    var keywords := bound.keywords + [text];
    if !anchored then (Match(|args|, query, cols), Bound(args, keywords))
    else
      var more := args + [text];
      (if HasColumn(cols) then And(Match(|args|, query, cols), StartsWith(|more|, text, cols)) else False, Bound(more, keywords))
  }

  function BindNear(bound: Bound, cols: Columns, query: string, texts: seq<string>): (Expr, Bound) {
    (Match(|bound.args| + 1, query, cols), Bound(bound.args + [query], bound.keywords + texts))
  }

  function Atom(ts: seq<Token>, cols: Columns, bound: Bound): (r: Option<Parsed>)
    ensures r.Some? ==> |r.value.rest| < |ts|
    decreases |ts|, 1
  {
    match ColumnFilter(ts, cols)
    case BadFilter => None
    case Filtered(narrowed, rest) => Atom(rest, narrowed, bound)
    case NoFilter =>
      if Is(ts, Sym('(')) then
        match ParseOr(ts[1..], cols, bound)
        case None => None
        case Some(p) => if Is(p.rest, Sym(')')) then Some(Parsed(p.expr, p.bound, p.rest[1..])) else None
      else if NearAhead(ts) then
        match NearGroup(ts[2..])
        case None => None
        case Some(n) => var (expr, more) := BindNear(bound, cols, n.query, n.texts); Some(Parsed(expr, more, n.rest))
      else
        match Phrase(Skip(ts, Sym('^')))
        case None => None
        case Some(p) =>
          var (expr, more) := BindTerm(bound, cols, Is(ts, Sym('^')), PhraseQuery(p.prefix, p.text), p.text);
          Some(Parsed(expr, more, p.rest))
  }

  predicate EndsImplicit(ts: seq<Token>) {
    ts == [] || Is(ts, Sym(')')) || Is(ts, AndOp) || Is(ts, OrOp) || Is(ts, NotOp)
  }

  function ParseImplicit(ts: seq<Token>, cols: Columns, bound: Bound): (r: Option<Parsed>)
    ensures r.Some? ==> |r.value.rest| < |ts|
    decreases |ts|, 3
  {
    match Atom(ts, cols, bound)
    case None => None
    case Some(p) => ImplicitTail(p, cols)
  }

  function ImplicitTail(left: Parsed, cols: Columns): (r: Option<Parsed>)
    ensures r.Some? ==> |r.value.rest| <= |left.rest|
    decreases |left.rest|, 2
  {
    if EndsImplicit(left.rest) then Some(left)
    else
      match Atom(left.rest, cols, left.bound)
      case None => None
      case Some(p) => ImplicitTail(Parsed(And(left.expr, p.expr), p.bound, p.rest), cols)
  }

  function ParseNot(ts: seq<Token>, cols: Columns, bound: Bound): (r: Option<Parsed>)
    ensures r.Some? ==> |r.value.rest| < |ts|
    decreases |ts|, 4
  {
    match ParseImplicit(ts, cols, bound)
    case None => None
    case Some(p) => NotTail(p, cols)
  }

  function NotTail(left: Parsed, cols: Columns): (r: Option<Parsed>)
    ensures r.Some? ==> |r.value.rest| <= |left.rest|
    decreases |left.rest|, 0
  {
    if !Is(left.rest, NotOp) then Some(left)
    else
      match ParseImplicit(left.rest[1..], cols, left.bound)
      case None => None
      case Some(p) => NotTail(Parsed(AndNot(left.expr, p.expr), p.bound, p.rest), cols)
  }

  function ParseAnd(ts: seq<Token>, cols: Columns, bound: Bound): (r: Option<Parsed>)
    ensures r.Some? ==> |r.value.rest| < |ts|
    decreases |ts|, 5
  {
    match ParseNot(ts, cols, bound)
    case None => None
    case Some(p) => AndTail(p, cols)
  }

  function AndTail(left: Parsed, cols: Columns): (r: Option<Parsed>)
    ensures r.Some? ==> |r.value.rest| <= |left.rest|
    decreases |left.rest|, 0
  {
    if !Is(left.rest, AndOp) then Some(left)
    else
      match ParseNot(left.rest[1..], cols, left.bound)
      case None => None
      case Some(p) => AndTail(Parsed(And(left.expr, p.expr), p.bound, p.rest), cols)
  }

  function ParseOr(ts: seq<Token>, cols: Columns, bound: Bound): (r: Option<Parsed>)
    ensures r.Some? ==> |r.value.rest| < |ts|
    decreases |ts|, 6
  {
    match ParseAnd(ts, cols, bound)
    case None => None
    case Some(p) => OrTail(p, cols)
  }

  function OrTail(left: Parsed, cols: Columns): (r: Option<Parsed>)
    ensures r.Some? ==> |r.value.rest| <= |left.rest|
    decreases |left.rest|, 0
  {
    if !Is(left.rest, OrOp) then Some(left)
    else
      match ParseAnd(left.rest[1..], cols, left.bound)
      case None => None
      case Some(p) => OrTail(Parsed(Or(left.expr, p.expr), p.bound, p.rest), cols)
  }

  // ----- The parser object -----

  /** The methods below consume `tokens` from position `at` and append to `args` and `keywords`. */
  class Parser {
    const tokens: seq<Token>
    var at: nat
    var args: seq<string>
    var keywords: seq<string>

    constructor (tokens: seq<Token>)
      ensures this.tokens == tokens && at == 0 && args == [""] && keywords == []
    {
      this.tokens := tokens;
      at, args, keywords := 0, [""], [];
    }

    ghost predicate Valid()
      reads this
    {
      at <= |tokens|
    }

    function Rest(): seq<Token>
      reads this
      requires Valid()
    {
      tokens[at..]
    }

    function BoundSoFar(): Bound
      reads this
    {
      Bound(args, keywords)
    }

    /** The parser stands where the specification stands. */
    ghost predicate At(p: Parsed)
      reads this
    {
      Valid() && Rest() == p.rest && BoundSoFar() == p.bound
    }

    method Take(text: string) returns (taken: bool)
      requires Valid()
      modifies this`at
      ensures Valid() && taken == IsText(old(Rest()), text)
      ensures Rest() == if taken then old(Rest())[1..] else old(Rest())
    {
      taken := at < |tokens| && !tokens[at].quoted && tokens[at].text == text;
      if taken {
        at := at + 1;
      }
    }

    method Advance() returns (tok: Token)
      requires Valid() && Rest() != []
      modifies this`at
      ensures Valid() && at == old(at) + 1 && tok == old(Rest())[0] && Rest() == old(Rest())[1..]
    {
      tok := tokens[at];
      at := at + 1;
    }

    method TakeSym(c: char) returns (taken: bool)
      requires Valid() && c in SPECIAL
      modifies this`at
      ensures Valid() && taken == Is(old(Rest()), Sym(c)) && Rest() == Skip(old(Rest()), Sym(c))
    {
      KindsByText(Rest());
      taken := Take([c]);
    }

    method ParsePhrase() returns (r: Option<(bool, string)>)
      requires Valid()
      modifies this`at
      ensures Valid()
      ensures match Phrase(old(Rest()))
              case None => r.None?
              case Some(p) => r == Some((p.prefix, p.text)) && Rest() == p.rest
      decreases |tokens| - at, 1
    {
      if at >= |tokens| {
        return None;
      }
      var tok := tokens[at];
      assert Rest()[0] == tok;
      if !tok.quoted && exists c :: c in tok.text && c in SPECIAL {
        return None;
      }
      if !tok.quoted && (tok.text == "AND" || tok.text == "OR" || tok.text == "NOT") {
        return None;
      }
      tok := Advance();
      var prefix := TakeSym('*');
      var text := ParsePlus(tok.text);
      return if text.None? then None else Some((prefix, text.value));
    }

    /** The loop over "+". */
    method ParsePlus(first: string) returns (r: Option<string>)
      requires Valid()
      modifies this`at
      ensures Valid()
      ensures match PlusTail(first, old(Rest()))
              case None => r.None?
              case Some(p) => r == Some(p.text) && Rest() == p.rest
      decreases |tokens| - at, 0
    {
      ghost var spec := PlusTail(first, Rest());
      var text := first;
      while at < |tokens| && Is(tokens[at..], Sym('+'))
        invariant Valid() && old(at) <= at
        invariant spec == PlusTail(text, Rest())
        decreases |tokens| - at
      {
        var plus := Advance();
        var next := ParsePhrase();
        if next.None? {
          return None;
        }
        text := text + " " + next.value.1;
      }
      return Some(text);
    }

    method ParseColumnFilter(cols: Columns) returns (r: Option<(Columns, bool)>)
      requires Valid()
      modifies this`at
      ensures Valid()
      ensures match ColumnFilter(old(Rest()), cols)
              case BadFilter => r.None?
              case NoFilter => r == Some((cols, false)) && at == old(at)
              case Filtered(narrowed, rest) => r == Some((narrowed, true)) && Rest() == rest
    {
      var start := at;
      var exclude := TakeSym('-');
      ghost var unsigned := Rest();
      var braces := TakeSym('{');
      if !braces && !(at + 1 < |tokens| && tokens[at + 1].text == ":") {
        at := start;
        return Some((cols, false));
      }
      var chosen := ParseNames(braces);
      if chosen.None? {
        return None;
      }
      var colon := TakeSym(':');
      if !colon {
        return None;
      }
      return Some((Narrow(cols, chosen.value, exclude), true));
    }

    /** The loop over column names. */
    method ParseNames(braces: bool) returns (r: Option<Chosen>)
      requires Valid()
      modifies this`at
      ensures Valid()
      ensures match Names(old(Rest()), braces, NONE_CHOSEN)
              case None => r.None?
              case Some(names) => r == Some(names.chosen) && Rest() == names.rest
    {
      ghost var spec := Names(Rest(), braces, NONE_CHOSEN);
      var chosen := NONE_CHOSEN;
      while true
        invariant Valid() && spec == Names(Rest(), braces, chosen)
        decreases |tokens| - at
      {
        if at >= |tokens| {
          return None;
        }
        var tok := Advance();
        var choice := Choose(chosen, ToLower(tok.text));
        if choice.None? {
          return None;
        }
        chosen := choice.value;
        if !braces {
          return Some(chosen);
        }
        var closed := TakeSym('}');
        if closed {
          return Some(chosen);
        }
      }
    }

    method ParseNear(cols: Columns) returns (r: Option<Expr>)
      requires Valid() && NearAhead(Rest())
      modifies this
      ensures Valid()
      ensures match NearGroup(old(Rest())[2..])
              case None => r.None?
              case Some(n) =>
                var (expr, more) := BindNear(old(BoundSoFar()), cols, n.query, n.texts);
                r == Some(expr) && At(Parsed(expr, more, n.rest))
    {
      var near := Advance();
      var paren := Advance();
      var query := ParseNearGroup();
      if query.None? {
        return None;
      }
      args := args + [query.value];
      return Some(Match(|args|, query.value, cols));
    }

    method ParseNearGroup() returns (r: Option<string>)
      requires Valid()
      modifies this`at, this`keywords
      ensures Valid()
      ensures match NearGroup(old(Rest()))
              case None => r.None?
              case Some(n) => r == Some(n.query) && Rest() == n.rest && keywords == old(keywords) + n.texts
    {
      hide KindOf, NearTerms;
      var texts := ParseNearTerms();
      if texts.None? || |texts.value| == 0 {
        return None;
      }
      var distance := ParseNearDistance();
      if distance.None? {
        return None;
      }
      var closed := TakeSym(')');
      if !closed {
        return None;
      }
      return Some(NearQuery(distance.value, texts.value));
    }

    method ParseNearTerms() returns (r: Option<seq<string>>)
      requires Valid()
      modifies this`at, this`keywords
      ensures Valid()
      ensures match NearTerms(old(Rest()), [])
              case None => r.None?
              case Some(terms) => r == Some(terms.texts) && Rest() == terms.rest && keywords == old(keywords) + terms.texts
    {
      ghost var spec := NearTerms(Rest(), []);
      var texts: seq<string> := [];
      while at < |tokens| && !Is(tokens[at..], Sym(',')) && !Is(tokens[at..], Sym(')'))
        invariant Valid() && keywords == old(keywords) + texts
        invariant spec == NearTerms(Rest(), texts)
        decreases |tokens| - at
      {
        var p := ParsePhrase();
        if p.None? {
          return None;
        }
        texts := texts + [p.value.1];
        keywords := keywords + [p.value.1];
      }
      return Some(texts);
    }

    method ParseNearDistance() returns (r: Option<nat>)
      requires Valid()
      modifies this`at
      ensures Valid()
      ensures match NearDistance(old(Rest()))
              case None => r.None?
              case Some(d) => r == Some(d.distance) && Rest() == d.rest
    {
      var comma := TakeSym(',');
      if !comma {
        return Some(10);
      }
      if at >= |tokens| {
        return None;
      }
      var tok := Advance();
      var n := Atoi(tok.text);
      if n.None? || n.value < 0 {
        return None;
      }
      return Some(n.value);
    }

    method ParseAtom(cols: Columns) returns (r: Option<Expr>)
      requires Valid()
      modifies this
      ensures Valid()
      ensures match Atom(old(Rest()), cols, old(BoundSoFar()))
              case None => r.None?
              case Some(p) => r == Some(p.expr) && At(p)
      decreases |tokens| - at, 1
    {
      ghost var ts, bound := Rest(), BoundSoFar();
      var filter := ParseColumnFilter(cols);
      if filter.None? {
        return None;
      }
      if filter.value.1 {
        r := ParseAtom(filter.value.0);
        return;
      }
      var open := TakeSym('(');
      if open {
        var expr := ParseOrExpr(cols);
        if expr.None? {
          return None;
        }
        var closed := TakeSym(')');
        return if closed then expr else None;
      }
      if at + 1 < |tokens| && !tokens[at].quoted && tokens[at].text == "NEAR" && tokens[at + 1].text == "(" {
        r := ParseNear(cols);
        return;
      }
      r := ParseTerm(cols);
    }

    /** A search term, anchored or not. */
    method ParseTerm(cols: Columns) returns (r: Option<Expr>)
      requires Valid()
      modifies this
      ensures Valid()
      ensures match Phrase(Skip(old(Rest()), Sym('^')))
              case None => r.None?
              case Some(p) =>
                var (expr, more) := BindTerm(old(BoundSoFar()), cols, Is(old(Rest()), Sym('^')), PhraseQuery(p.prefix, p.text), p.text);
                r == Some(expr) && At(Parsed(expr, more, p.rest))
    {
      var anchored := TakeSym('^');
      var phrase := ParsePhrase();
      if phrase.None? {
        return None;
      }
      var (prefix, text) := phrase.value;
      keywords := keywords + [text];
      args := args + [PhraseQuery(prefix, text)];
      var condition := Match(|args|, PhraseQuery(prefix, text), cols);
      if anchored {
        args := args + [text];
        if !HasColumn(cols) {
          return Some(False);
        }
        condition := And(condition, StartsWith(|args|, text, cols));
      }
      return Some(condition);
    }

    method ParseImplicitExpr(cols: Columns) returns (r: Option<Expr>)
      requires Valid()
      modifies this
      ensures Valid()
      ensures match ParseImplicit(old(Rest()), cols, old(BoundSoFar()))
              case None => r.None?
              case Some(p) => r == Some(p.expr) && At(p)
      decreases |tokens| - at, 3
    {
      ghost var spec := ParseImplicit(Rest(), cols, BoundSoFar());
      ghost var start := at;
      var left := ParseAtom(cols);
      if left.None? {
        return None;
      }
      assert spec == ImplicitTail(Parsed(left.value, BoundSoFar(), Rest()), cols);
      while at < |tokens| && !EndsImplicit(tokens[at..])
        invariant Valid() && start < at && left.Some?
        invariant spec == ImplicitTail(Parsed(left.value, BoundSoFar(), Rest()), cols)
        decreases |tokens| - at
      {
        var right := ParseAtom(cols);
        if right.None? {
          return None;
        }
        left := Some(And(left.value, right.value));
      }
      return left;
    }

    method ParseNotExpr(cols: Columns) returns (r: Option<Expr>)
      requires Valid()
      modifies this
      ensures Valid()
      ensures match ParseNot(old(Rest()), cols, old(BoundSoFar()))
              case None => r.None?
              case Some(p) => r == Some(p.expr) && At(p)
      decreases |tokens| - at, 4
    {
      ghost var spec := ParseNot(Rest(), cols, BoundSoFar());
      ghost var start := at;
      var left := ParseImplicitExpr(cols);
      if left.None? {
        return None;
      }
      while at < |tokens| && Is(tokens[at..], NotOp)
        invariant Valid() && start < at && left.Some?
        invariant spec == NotTail(Parsed(left.value, BoundSoFar(), Rest()), cols)
        decreases |tokens| - at
      {
        var op := Advance();
        var right := ParseImplicitExpr(cols);
        if right.None? {
          return None;
        }
        left := Some(AndNot(left.value, right.value));
      }
      return left;
    }

    method ParseAndExpr(cols: Columns) returns (r: Option<Expr>)
      requires Valid()
      modifies this
      ensures Valid()
      ensures match ParseAnd(old(Rest()), cols, old(BoundSoFar()))
              case None => r.None?
              case Some(p) => r == Some(p.expr) && At(p)
      decreases |tokens| - at, 5
    {
      ghost var spec := ParseAnd(Rest(), cols, BoundSoFar());
      ghost var start := at;
      var left := ParseNotExpr(cols);
      if left.None? {
        return None;
      }
      while at < |tokens| && Is(tokens[at..], AndOp)
        invariant Valid() && start < at && left.Some?
        invariant spec == AndTail(Parsed(left.value, BoundSoFar(), Rest()), cols)
        decreases |tokens| - at
      {
        var op := Advance();
        var right := ParseNotExpr(cols);
        if right.None? {
          return None;
        }
        left := Some(And(left.value, right.value));
      }
      return left;
    }

    method ParseOrExpr(cols: Columns) returns (r: Option<Expr>)
      requires Valid()
      modifies this
      ensures Valid()
      ensures match ParseOr(old(Rest()), cols, old(BoundSoFar()))
              case None => r.None?
              case Some(p) => r == Some(p.expr) && At(p)
      decreases |tokens| - at, 6
    {
      ghost var spec := ParseOr(Rest(), cols, BoundSoFar());
      ghost var start := at;
      var left := ParseAndExpr(cols);
      if left.None? {
        return None;
      }
      while at < |tokens| && Is(tokens[at..], OrOp)
        invariant Valid() && start < at && left.Some?
        invariant spec == OrTail(Parsed(left.value, BoundSoFar(), Rest()), cols)
        decreases |tokens| - at
      {
        var op := Advance();
        var right := ParseAndExpr(cols);
        if right.None? {
          return None;
        }
        left := Some(Or(left.value, right.value));
      }
      return left;
    }
  }

  // ----- Compiling -----

  /** The condition and its final argument list; $1 gets the keywords last. */
  datatype Compiled = Compiled(expr: Expr, args: seq<string>)

  function FillFirst(bound: Bound): seq<string> {
    if bound.args == [] then [] else bound.args[0 := JoinTexts(QuotedTexts(bound.keywords))]
  }

  function CompileTokens(ts: seq<Token>): Option<Compiled> {
    match ParseOr(ts, ALL_COLUMNS, Bound([""], []))
    case None => None
    case Some(p) => if p.rest == [] then Some(Compiled(p.expr, FillFirst(p.bound))) else None
  }

  /** Plain queries become prefix searches or one phrase; anything with query syntax is left alone. */
  function BuildFuzzyQuery(query: string): string {
    var q := TrimSpace(query);
    if q == "" then q
    else if HasSyntax(q) then q
    else if exists c :: c in q && c in {'-', '_', '+', '#', '/', '.'} then ['"'] + q + ['"']
    else JoinTexts(StarWords(Fields(q)))
  }

  predicate HasSyntax(q: string) {
    || (exists c :: c in q && c in {'"', '*', '(', ')', ':'})
    || HasSubstring(ToUpper(q), " OR ")
    || HasSubstring(ToUpper(q), " AND ")
  }

  function ToUpper(s: string): (r: string)
    ensures |r| == |s|
  {
    seq(|s|, i requires 0 <= i < |s| => if 'a' <= s[i] <= 'z' then (s[i] as int - 32) as char else s[i])
  }

  function Fields(s: string): seq<string>
    decreases |s|
  {
    if s == "" then []
    else if IsSpace(s[0]) then Fields(s[1..])
    else [TakeField(s)] + Fields(s[|TakeField(s)|..])
  }

  function TakeField(s: string): (w: string)
    ensures |w| <= |s| && (s != "" && !IsSpace(s[0]) ==> w != "")
  {
    if s == "" || IsSpace(s[0]) then "" else [s[0]] + TakeField(s[1..])
  }

  function StarWords(words: seq<string>): seq<string> {
    if words == [] then [] else [if '*' in words[0] then words[0] else words[0] + "*"] + StarWords(words[1..])
  }

  /** The query as the compiler is specified: tokenizer, parser and argument binding one after the other. */
  function CompileText(query: string): Option<Compiled> {
    match Tokens(BuildFuzzyQuery(query))
    case None => None
    case Some(ts) => CompileTokens(ts)
  }

  method CompilePostgresQuery(query: string) returns (r: Option<Compiled>)
    ensures r == CompileText(query)
  {
    var lexed := TokenizeQuery(BuildFuzzyQuery(query));
    if lexed.Err? {
      return None;
    }
    var p := new Parser(lexed.value);
    assert p.Rest() == lexed.value;
    var expr := p.ParseOrExpr(ALL_COLUMNS);
    if expr.None? {
      return None;
    }
    if p.at != |lexed.value| {
      return None;
    }
    return Some(Compiled(expr.value, FillFirst(p.BoundSoFar())));
  }
}
