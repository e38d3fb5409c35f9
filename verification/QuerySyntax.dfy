/**
 How search queries are written (backend/internal/search/postgres_query.go): forms are query trees with everything a text
 can say about them.
 */
module QuerySyntax {
  import opened Wrappers
  import opened Text
  import opened QueryTokens
  import opened QueryParser
  import opened QueryBalance
  import opened QueryMeaning

  // ----- Forms -----

  /**
   A query as it is written: with its parentheses, needed or not, and the spelling of the opening parenthesis and the
   distance of a NEAR group. Operands have a level: 0 for OR, 1 for AND, 2 for NOT and 3 for juxtaposition.
   */
  datatype Form =
    | Words(parts: seq<Part>, anchored: bool)
    | Nearby(open: Token, terms: seq<seq<Part>>, distance: Option<Token>)
    | Restricted(exclude: bool, names: seq<Token>, braces: bool, body: Form)
    | Parens(body: Form)
    | Operands(level: nat, left: Form, right: Form)

  predicate IsDistance(t: Token) {
    IsWritable(t) && Atoi(t.text).Some? && Atoi(t.text).value >= 0
  }

  /**
   The form can stand where an operand of a level is expected: stronger operators need no parentheses, nor do operators of
   the same level on the left.
   */
  predicate Fits(g: Form, level: nat): (fits: bool)
    ensures fits ==> WellFormed(TreeOf(g))
  {
    match g
    case Words(parts, _) => IsPhrase(parts)
    case Nearby(open, terms, distance) =>
      && open.text == "(" && terms != [] && (forall t :: t in terms ==> IsPhrase(t))
      && (distance.Some? ==> IsDistance(distance.value))
    case Restricted(_, names, braces, body) =>
      names != [] && (!braces ==> |names| == 1) && (forall n :: n in names ==> IsColumnName(n)) && Fits(body, 4)
    case Parens(body) => Fits(body, 0)
    case Operands(k, l, r) => level <= k <= 3 && Fits(l, k) && Fits(r, k + 1)
  }

  function DistanceIn(distance: Option<Token>): Option<nat> {
    match distance
    case None => None
    case Some(t) => Some(if Atoi(t.text).Some? && Atoi(t.text).value >= 0 then Atoi(t.text).value else 0)
  }

  /** The tree that is written. */
  function TreeOf(g: Form): Query {
    match g
    case Words(parts, anchored) => Term(parts, anchored)
    case Nearby(_, terms, distance) => Near(terms, DistanceIn(distance))
    case Restricted(exclude, names, braces, body) => Filter(exclude, names, braces, TreeOf(body))
    case Parens(body) => TreeOf(body)
    case Operands(k, l, r) =>
      match k
      case 0 => Either(TreeOf(l), TreeOf(r))
      case 1 => Both(TreeOf(l), TreeOf(r))
      case 2 => Without(TreeOf(l), TreeOf(r))
      case _ => Beside(TreeOf(l), TreeOf(r))
  }

  function SymTok(c: char): Token {
    Token([c], false)
  }

  const AND_TOKEN := Token("AND", false)
  const OR_TOKEN := Token("OR", false)
  const NOT_TOKEN := Token("NOT", false)
  const NEAR_TOKEN := Token("NEAR", false)

  function PartTokens(p: Part): seq<Token> {
    [Token(p.text, p.quoted)] + if p.starred then [SymTok('*')] else []
  }

  function PhraseTokens(parts: seq<Part>): seq<Token> {
    if parts == [] then []
    else PartTokens(parts[0]) + if |parts| == 1 then [] else [SymTok('+')] + PhraseTokens(parts[1..])
  }

  function TermsTokens(terms: seq<seq<Part>>): seq<Token> {
    if terms == [] then [] else PhraseTokens(terms[0]) + TermsTokens(terms[1..])
  }

  function DistanceTokens(distance: Option<Token>): seq<Token> {
    match distance
    case None => []
    case Some(t) => [SymTok(','), t]
  }

  function FilterTokens(exclude: bool, names: seq<Token>, braces: bool): seq<Token> {
    (if exclude then [SymTok('-')] else []) + NameListTokens(names, braces) + [SymTok(':')]
  }

  function NameListTokens(names: seq<Token>, braces: bool): seq<Token> {
    if braces then [SymTok('{')] + names + [SymTok('}')] else names
  }

  function OperatorAt(level: nat): seq<Token> {
    match level
    case 0 => [OR_TOKEN]
    case 1 => [AND_TOKEN]
    case 2 => [NOT_TOKEN]
    case _ => []
  }

  function Spell(g: Form): seq<Token> {
    match g
    case Words(parts, anchored) => (if anchored then [SymTok('^')] else []) + PhraseTokens(parts)
    case Nearby(open, terms, distance) => [NEAR_TOKEN, open] + TermsTokens(terms) + DistanceTokens(distance) + [SymTok(')')]
    case Restricted(exclude, names, braces, body) => FilterTokens(exclude, names, braces) + Spell(body)
    case Parens(body) => [SymTok('(')] + Spell(body) + [SymTok(')')]
    case Operands(k, l, r) => Spell(l) + (OperatorAt(k) + Spell(r))
  }

  /** Every NEAR group is opened by a parenthesis without quotes. */
  predicate Proper(g: Form) {
    match g
    case Words(_, _) => true
    case Nearby(open, _, _) => !open.quoted
    case Restricted(_, _, _, body) => Proper(body)
    case Parens(body) => Proper(body)
    case Operands(_, l, r) => Proper(l) && Proper(r)
  }

  // ----- Every tree can be written -----

  function Level(q: Query): nat {
    match q
    case Either(_, _) => 0
    case Both(_, _) => 1
    case Without(_, _) => 2
    case Beside(_, _) => 3
    case _ => 4
  }

  /** The tree written with the parentheses that are needed where an operand of a level is expected. */
  function Canonical(q: Query, level: nat): Form {
    var g := match q
      case Term(parts, anchored) => Words(parts, anchored)
      case Near(terms, distance) =>
        Nearby(SymTok('('), terms, match distance case None => None case Some(n) => Some(Token(Decimal(n), false)))
      case Filter(exclude, names, braces, body) => Restricted(exclude, names, braces, Canonical(body, 4))
      case Beside(l, r) => Operands(3, Canonical(l, 3), Canonical(r, 4))
      case Without(l, r) => Operands(2, Canonical(l, 2), Canonical(r, 3))
      case Both(l, r) => Operands(1, Canonical(l, 1), Canonical(r, 2))
      case Either(l, r) => Operands(0, Canonical(l, 0), Canonical(r, 1));
    if Level(q) < level then Parens(g) else g
  }

  lemma {:induction false} EveryTreeIsWritten(q: Query, level: nat)
    requires WellFormed(q)
    ensures var g := Canonical(q, level); Fits(g, level) && Proper(g) && TreeOf(g) == q
  {
    match q
    case Term(_, _) =>
    case Near(_, distance) =>
      if distance.Some? {
        AtoiOfDecimal(distance.value);
        DecimalIsWritable(distance.value);
      }
    case Filter(_, _, _, body) => EveryTreeIsWritten(body, 4);
    case Beside(l, r) => EveryTreeIsWritten(l, 3); EveryTreeIsWritten(r, 4);
    case Without(l, r) => EveryTreeIsWritten(l, 2); EveryTreeIsWritten(r, 3);
    case Both(l, r) => EveryTreeIsWritten(l, 1); EveryTreeIsWritten(r, 2);
    case Either(l, r) => EveryTreeIsWritten(l, 0); EveryTreeIsWritten(r, 1);
  }

  lemma {:induction false} DecimalReadBack(n: nat)
    ensures DigitsValue(Decimal(n)) == n
  {
    if n < 10 {
      assert Decimal(n)[..0] == "";
    } else {
      DecimalReadBack(n / 10);
      var s := Decimal(n);
      assert s[..|s| - 1] == Decimal(n / 10);
    }
  }

  lemma AtoiOfDecimal(n: nat)
    requires n <= MAX_INT
    ensures Atoi(Decimal(n)) == Some(n)
  {
    DecimalReadBack(n);
    assert '0' <= Decimal(n)[0] <= '9';
  }

  lemma DecimalIsWritable(n: nat)
    ensures IsWritable(Token(Decimal(n), false))
  {
    var s := Decimal(n);
    forall c | c in s
      ensures IsWordChar(c) && !EndsWord(c)
    {
      var i :| 0 <= i < |s| && s[i] == c;
    }
  }

  // ----- The two look-aheads that ignore quoting -----

  /** The bare word NEAR and, at once behind it, a phrase that is just "(": taken for the beginning of a NEAR group. */
  predicate FalseNear(ts: seq<Token>) {
    NearAhead(ts) && ts[1].quoted
  }

  /**
   No phrase of the form is misread: its first token is never followed at once by a phrase that is just ":", which would make
   it a column filter, nor is it a bare NEAR followed by a phrase that is just "(". `rest` is what is written behind the form.
   */
  predicate Clean(g: Form, rest: seq<Token>) {
    match g
    case Words(_, _) => !ColonAhead(Spell(g) + rest) && !FalseNear(Spell(g) + rest)
    case Nearby(_, _, _) => true
    case Restricted(_, _, _, body) => Clean(body, rest)
    case Parens(body) => !ColonAhead(Spell(g) + rest) && Clean(body, [SymTok(')')] + rest)
    case Operands(k, l, r) => Clean(l, OperatorAt(k) + (Spell(r) + rest)) && Clean(r, rest)
  }

  /**
   No phrase of the form is written like the beginning of a NEAR group: the bare word NEAR alone, and an unquoted parenthesis
   behind it. In the query language that is a NEAR group, whatever the form says.
   */
  predicate Apart(g: Form, rest: seq<Token>) {
    match g
    case Words(_, _) => NearAhead(Spell(g) + rest) ==> FalseNear(Spell(g) + rest)
    case Nearby(_, _, _) => true
    case Restricted(_, _, _, body) => Apart(body, rest)
    case Parens(body) => Apart(body, [SymTok(')')] + rest)
    case Operands(k, l, r) => Apart(l, OperatorAt(k) + (Spell(r) + rest)) && Apart(r, rest)
  }

  /** Some phrase that is not anchored begins with the bare word NEAR. */
  predicate BareNear(g: Form) {
    match g
    case Words(parts, anchored) => !anchored && parts != [] && !parts[0].quoted && parts[0].text == "NEAR"
    case Nearby(_, _, _) => false
    case Restricted(_, _, _, body) => BareNear(body)
    case Parens(body) => BareNear(body)
    case Operands(_, l, r) => BareNear(l) || BareNear(r)
  }

  /** Only such a phrase can fail to stand apart. */
  lemma {:induction false} ApartWithoutNear(g: Form, level: nat, rest: seq<Token>)
    requires Fits(g, level) && !BareNear(g)
    ensures Apart(g, rest)
  {
    match g
    case Words(parts, anchored) => assert PhraseTokens(parts)[0] == Token(parts[0].text, parts[0].quoted);
    case Nearby(_, _, _) =>
    case Restricted(_, _, _, body) => ApartWithoutNear(body, 4, rest);
    case Parens(body) => ApartWithoutNear(body, 0, [SymTok(')')] + rest);
    case Operands(k, l, r) => ApartWithoutNear(l, k, OperatorAt(k) + (Spell(r) + rest)); ApartWithoutNear(r, k + 1, rest);
  }

  // ----- Kinds of tokens -----

  /** A token that can begin an atom. */
  predicate StartsAtom(t: Token) {
    KindOf(t) in {Plain, Quoted, Sym('('), Sym('^'), Sym('-'), Sym('{')}
  }

  /** What may be written behind an atom without being swallowed by it. */
  predicate Follows(rest: seq<Token>) {
    rest == [] || KindOf(rest[0]) !in {Sym('*'), Sym('+'), Sym(':')}
  }

  lemma PartKind(p: Part)
    requires IsPart(p)
    ensures KindOf(Token(p.text, p.quoted)) == if p.quoted then Quoted else Plain
  {
    if !p.quoted {
      assert forall c :: c in p.text ==> c !in SPECIAL;
      assert p.text[0] in p.text;
    }
  }

  lemma NameKind(t: Token)
    requires IsColumnName(t)
    ensures KindOf(t) == if t.quoted then Quoted else Plain
  {
    if !t.quoted {
      NameIsLong(t.text);
      assert IsWord(t.text);
      assert forall c :: c in t.text ==> c !in SPECIAL;
      OperatorsAreNoColumns(t.text);
    }
  }

  lemma NameIsLong(text: string)
    requires Choose(NONE_CHOSEN, ToLower(text)).Some?
    ensures |text| >= 4
  {
    var lower := ToLower(text);
    assert |lower| == |text|;
  }

  lemma OperatorsAreNoColumns(text: string)
    requires |text| >= 4
    ensures text != "AND" && text != "OR" && text != "NOT"
  {
  }

  lemma SymKind(c: char)
    requires c in SPECIAL
    ensures KindOf(SymTok(c)) == Sym(c)
  {
  }

  lemma OperatorKinds()
    ensures KindOf(AND_TOKEN) == AndOp && KindOf(OR_TOKEN) == OrOp && KindOf(NOT_TOKEN) == NotOp
    ensures KindOf(NEAR_TOKEN) == Plain
  {
    assert forall c :: c in "NEAR" ==> c !in SPECIAL;
  }

  lemma {:induction false} SpellStarts(g: Form, level: nat)
    requires Fits(g, level)
    ensures Spell(g) != [] && StartsAtom(Spell(g)[0])
  {
    match g
    case Words(parts, _) =>
      SymKind('^');
      PartKind(parts[0]);
    case Nearby(_, _, _) => OperatorKinds();
    case Restricted(_, names, _, _) =>
      SymKind('-');
      SymKind('{');
      NameKind(names[0]);
    case Parens(_) => SymKind('(');
    case Operands(k, l, _) => SpellStarts(l, k);
  }

  // ----- Phrases are read back -----

  lemma {:induction false} PhraseReadBack(parts: seq<Part>, rest: seq<Token>)
    requires IsPhrase(parts) && Follows(rest)
    ensures Phrase(PhraseTokens(parts) + rest) == Some(PhraseRead(parts[0].starred, PhraseText(parts), rest))
  {
    PartKind(parts[0]);
    SymKind('*');
    SymKind('+');
    var tail := if |parts| == 1 then rest else [SymTok('+')] + (PhraseTokens(parts[1..]) + rest);
    assert PhraseTokens(parts) + rest == PartTokens(parts[0]) + tail;
    if |parts| > 1 {
      PhraseReadBack(parts[1..], rest);
      assert tail[1..] == PhraseTokens(parts[1..]) + rest;
    }
    PhraseStep(parts[0], tail);
  }

  /** The first part of a phrase, whatever follows. */
  lemma PhraseStep(p: Part, tail: seq<Token>)
    requires IsPart(p) && !Is(tail, Sym('*'))
    ensures Phrase(PartTokens(p) + tail) ==
            match PlusTail(p.text, tail) case None => None case Some(x) => Some(PhraseRead(p.starred, x.text, x.rest))
  {
    PartKind(p);
    SymKind('*');
    var ts := PartTokens(p) + tail;
    if p.starred {
      assert ts[1..] == [SymTok('*')] + tail;
      assert ts[1..][1..] == tail;
    } else {
      assert ts[1..] == tail;
    }
  }

  lemma {:induction false} TermsReadBack(terms: seq<seq<Part>>, rest: seq<Token>, before: seq<string>)
    requires forall t :: t in terms ==> IsPhrase(t)
    requires Is(rest, Sym(',')) || Is(rest, Sym(')'))
    ensures NearTerms(TermsTokens(terms) + rest, before) == Some(TermsRead(before + TermsTexts(terms), rest))
    decreases |terms|
  {
    if terms == [] {
      assert TermsTokens(terms) + rest == rest;
      assert before + [] == before;
    } else {
      var tail := TermsTokens(terms[1..]) + rest;
      TermsSplit(terms, rest, before);
      TermsFollow(terms[1..], rest);
      NearTermReadBack(terms[0], tail, before);
      TermsReadBack(terms[1..], rest, before + [PhraseText(terms[0])]);
    }
  }

  lemma TermsSplit(terms: seq<seq<Part>>, rest: seq<Token>, before: seq<string>)
    requires terms != [] && forall t :: t in terms ==> IsPhrase(t)
    ensures IsPhrase(terms[0])
    ensures TermsTokens(terms) + rest == PhraseTokens(terms[0]) + (TermsTokens(terms[1..]) + rest)
    ensures before + [PhraseText(terms[0])] + TermsTexts(terms[1..]) == before + TermsTexts(terms)
  {
    assert terms[0] in terms;
  }

  lemma NearTermReadBack(parts: seq<Part>, tail: seq<Token>, before: seq<string>)
    requires IsPhrase(parts) && Follows(tail)
    ensures NearTerms(PhraseTokens(parts) + tail, before) == NearTerms(tail, before + [PhraseText(parts)])
  {
    PhraseReadBack(parts, tail);
    PhraseTokensStart(parts);
    TermStep(PhraseTokens(parts) + tail, parts[0].starred, PhraseText(parts), tail, before);
  }

  /** One phrase of a NEAR group, whatever follows. */
  lemma TermStep(ts: seq<Token>, starred: bool, text: string, tail: seq<Token>, before: seq<string>)
    requires ts != [] && KindOf(ts[0]) in {Plain, Quoted}
    requires Phrase(ts) == Some(PhraseRead(starred, text, tail))
    ensures NearTerms(ts, before) == NearTerms(tail, before + [text])
  {
  }

  lemma PhraseTokensStart(parts: seq<Part>)
    requires IsPhrase(parts)
    ensures PhraseTokens(parts) != [] && KindOf(PhraseTokens(parts)[0]) in {Plain, Quoted}
  {
    PartKind(parts[0]);
  }

  lemma TermsFollow(terms: seq<seq<Part>>, rest: seq<Token>)
    requires forall t :: t in terms ==> IsPhrase(t)
    requires Is(rest, Sym(',')) || Is(rest, Sym(')'))
    ensures Follows(TermsTokens(terms) + rest)
  {
    if terms != [] {
      assert IsPhrase(terms[0]);
      PhraseTokensStart(terms[0]);
    }
  }

  lemma {:induction false} NearReadBack(terms: seq<seq<Part>>, distance: Option<Token>, rest: seq<Token>)
    requires terms != [] && (forall t :: t in terms ==> IsPhrase(t)) && (distance.Some? ==> IsDistance(distance.value))
    ensures NearGroup(TermsTokens(terms) + (DistanceTokens(distance) + ([SymTok(')')] + rest))) ==
            Some(NearRead(NearQuery(Distance(DistanceIn(distance)), TermsTexts(terms)), TermsTexts(terms), rest))
  {
    var close := [SymTok(')')] + rest;
    DistanceReadBack(distance, rest);
    TermsReadBack(terms, DistanceTokens(distance) + close, []);
    assert [] + TermsTexts(terms) == TermsTexts(terms);
    NearOfParts(TermsTokens(terms) + (DistanceTokens(distance) + close), DistanceTokens(distance) + close, close, TermsTexts(terms),
                Distance(DistanceIn(distance)));
    assert close[1..] == rest;
  }

  lemma NearOfParts(ts: seq<Token>, tail: seq<Token>, close: seq<Token>, texts: seq<string>, distance: nat)
    requires NearTerms(ts, []) == Some(TermsRead(texts, tail)) && texts != []
    requires NearDistance(tail) == Some(DistanceRead(distance, close))
    requires close != [] && close[0] == SymTok(')')
    ensures NearGroup(ts) == Some(NearRead(NearQuery(distance, texts), texts, close[1..]))
  {
    SymKind(')');
  }

  lemma DistanceReadBack(distance: Option<Token>, rest: seq<Token>)
    requires distance.Some? ==> IsDistance(distance.value)
    ensures var tail := DistanceTokens(distance) + ([SymTok(')')] + rest);
            && (Is(tail, Sym(',')) || Is(tail, Sym(')')))
            && NearDistance(tail) == Some(DistanceRead(Distance(DistanceIn(distance)), [SymTok(')')] + rest))
  {
    SymKind(')');
    SymKind(',');
    var close := [SymTok(')')] + rest;
    match distance
    case None => assert DistanceTokens(distance) + close == close;
    case Some(t) =>
      var tail := DistanceTokens(distance) + close;
      assert tail[2..] == close;
  }

  // ----- Column filters are read back -----

  lemma {:induction false} NamesReadBack(names: seq<Token>, rest: seq<Token>, chosen: Chosen)
    requires names != [] && forall n :: n in names ==> IsColumnName(n)
    ensures Names(names + [SymTok('}')] + rest, true, chosen) == Some(NamesRead(ChosenBy(names, chosen), rest))
    decreases |names|
  {
    var ts := names + [SymTok('}')] + rest;
    assert IsColumnName(names[0]);
    NameKind(names[0]);
    SymKind('}');
    ChooseIgnoresChosen(chosen, ToLower(names[0].text));
    var more := Choose(chosen, ToLower(names[0].text)).value;
    assert ts[1..] == names[1..] + [SymTok('}')] + rest;
    if |names| == 1 {
      assert ts[1..] == [SymTok('}')] + rest;
      assert ts[2..] == rest;
    } else {
      assert IsColumnName(names[1]);
      NameKind(names[1]);
      assert ts[1..][0] == names[1];
      NamesReadBack(names[1..], rest, more);
    }
  }

  lemma ChooseIgnoresChosen(chosen: Chosen, name: string)
    ensures Choose(chosen, name).Some? <==> Choose(NONE_CHOSEN, name).Some?
  {
  }

  lemma {:induction false} FilterReadBack(exclude: bool, names: seq<Token>, braces: bool, rest: seq<Token>, cols: Columns)
    requires names != [] && (!braces ==> |names| == 1) && forall n :: n in names ==> IsColumnName(n)
    ensures ColumnFilter(FilterTokens(exclude, names, braces) + rest, cols) ==
            Filtered(Narrow(cols, ChosenBy(names, NONE_CHOSEN), exclude), rest)
  {
    var colon := [SymTok(':')] + rest;
    var unsigned := NameListTokens(names, braces) + colon;
    FilterSplits(if exclude then [SymTok('-')] else [], NameListTokens(names, braces), [SymTok(':')], rest);
    NameListReadBack(names, braces, rest);
    SignReadBack(exclude, names, braces, unsigned);
    FilterOfParts((if exclude then [SymTok('-')] else []) + unsigned, unsigned, colon, exclude, braces, ChosenBy(names, NONE_CHOSEN), cols);
    assert colon[1..] == rest;
  }

  lemma FilterSplits(sign: seq<Token>, list: seq<Token>, colon: seq<Token>, rest: seq<Token>)
    ensures sign + list + colon + rest == sign + (list + (colon + rest))
  {
  }

  lemma FilterOfParts(ts: seq<Token>, unsigned: seq<Token>, colon: seq<Token>, exclude: bool, braces: bool, chosen: Chosen, cols: Columns)
    requires Skip(ts, Sym('-')) == unsigned && Is(ts, Sym('-')) == exclude
    requires Is(unsigned, Sym('{')) == braces && (braces || ColonAhead(unsigned))
    requires Names(Skip(unsigned, Sym('{')), braces, NONE_CHOSEN) == Some(NamesRead(chosen, colon))
    requires colon != [] && colon[0] == SymTok(':')
    ensures ColumnFilter(ts, cols) == Filtered(Narrow(cols, chosen, exclude), colon[1..])
  {
    SymKind(':');
  }

  lemma SignReadBack(exclude: bool, names: seq<Token>, braces: bool, unsigned: seq<Token>)
    requires names != [] && IsColumnName(names[0])
    requires unsigned != [] && unsigned[0] == if braces then SymTok('{') else names[0]
    ensures var ts := (if exclude then [SymTok('-')] else []) + unsigned;
            Skip(ts, Sym('-')) == unsigned && Is(ts, Sym('-')) == exclude
  {
    NameKind(names[0]);
    SymKind('-');
    SymKind('{');
    if exclude {
      assert ([SymTok('-')] + unsigned)[1..] == unsigned;
    } else {
      assert [] + unsigned == unsigned;
    }
  }

  lemma NameListReadBack(names: seq<Token>, braces: bool, rest: seq<Token>)
    requires names != [] && (!braces ==> |names| == 1) && forall n :: n in names ==> IsColumnName(n)
    ensures var colon := [SymTok(':')] + rest;
            var unsigned := NameListTokens(names, braces) + colon;
            && Is(unsigned, Sym('{')) == braces && (braces || ColonAhead(unsigned))
            && Names(Skip(unsigned, Sym('{')), braces, NONE_CHOSEN) == Some(NamesRead(ChosenBy(names, NONE_CHOSEN), colon))
  {
    var colon := [SymTok(':')] + rest;
    if braces {
      NamesReadBack(names, colon, NONE_CHOSEN);
      BracesSplit(names, colon);
    } else {
      NameKind(names[0]);
      OneNameReadBack(names[0], colon);
      assert names == [names[0]];
    }
  }

  lemma BracesSplit(names: seq<Token>, tail: seq<Token>)
    ensures var unsigned := [SymTok('{')] + names + [SymTok('}')] + tail;
            Is(unsigned, Sym('{')) && Skip(unsigned, Sym('{')) == names + [SymTok('}')] + tail
  {
    hide KindOf;
    SymKind('{');
    var unsigned := [SymTok('{')] + names + [SymTok('}')] + tail;
    assert unsigned[0] == SymTok('{');
    assert unsigned[1..] == names + [SymTok('}')] + tail;
  }

  lemma OneNameReadBack(name: Token, tail: seq<Token>)
    requires IsColumnName(name) && tail != [] && tail[0] == SymTok(':')
    ensures ColonAhead([name] + tail)
    ensures Names([name] + tail, false, NONE_CHOSEN) == Some(NamesRead(ChosenBy([name], NONE_CHOSEN), tail))
  {
    assert ([name] + tail)[1..] == tail;
    assert ChosenBy([name], NONE_CHOSEN) == ChosenBy([name][1..], Choose(NONE_CHOSEN, ToLower(name.text)).value);
  }

  /** Without a sign or a brace in front, only a colon makes a filter; a quoted colon always makes a bad one. */
  lemma NoFilterWithoutColon(ts: seq<Token>, cols: Columns)
    requires ts != [] && KindOf(ts[0]) !in {Sym('-'), Sym('{')}
    requires |ts| > 1 ==> KindOf(ts[1]) != Sym(':')
    ensures ColumnFilter(ts, cols) == if ColonAhead(ts) then BadFilter else NoFilter
  {
    if ColonAhead(ts) && Names(ts, false, NONE_CHOSEN).Some? {
      assert Names(ts, false, NONE_CHOSEN).value.rest == ts[1..];
    }
  }

  // ----- Proper forms hold as many closing parentheses as opening ones -----

  lemma {:induction false} PhraseIsEven(parts: seq<Part>)
    requires forall p :: p in parts ==> IsPart(p)
    ensures Excess(PhraseTokens(parts)) == 0
  {
    if parts != [] {
      hide KindOf, Excess, IsPart;
      var more := if |parts| == 1 then [] else [SymTok('+')] + PhraseTokens(parts[1..]);
      assert IsPart(parts[0]);
      PartIsEven(parts[0]);
      ExcessOfBoth(PartTokens(parts[0]), more);
      NothingIsEven();
      if |parts| > 1 {
        SymIsEven('+');
        ExcessOfBoth([SymTok('+')], PhraseTokens(parts[1..]));
        PhraseIsEven(parts[1..]);
      }
    }
  }

  lemma NothingIsEven()
    ensures Excess([]) == 0
  {
  }

  lemma SymIsEven(c: char)
    requires c in SPECIAL - {'(', ')'}
    ensures Excess([SymTok(c)]) == 0
  {
    SymKind(c);
    ExcessOfOne(SymTok(c));
  }

  lemma PartIsEven(p: Part)
    requires IsPart(p)
    ensures Excess(PartTokens(p)) == 0
  {
    PartKind(p);
    SymIsEven('*');
    NothingIsEven();
    ExcessOfOne(Token(p.text, p.quoted));
    ExcessOfBoth([Token(p.text, p.quoted)], if p.starred then [SymTok('*')] else []);
  }

  lemma {:induction false} TermsAreEven(terms: seq<seq<Part>>)
    requires forall t :: t in terms ==> IsPhrase(t)
    ensures Excess(TermsTokens(terms)) == 0
  {
    if terms != [] {
      assert IsPhrase(terms[0]);
      PhraseIsEven(terms[0]);
      TermsAreEven(terms[1..]);
      ExcessOfBoth(PhraseTokens(terms[0]), TermsTokens(terms[1..]));
    }
  }

  lemma DistanceIsEven(distance: Option<Token>)
    requires distance.Some? ==> IsDistance(distance.value)
    ensures Excess(DistanceTokens(distance)) == 0
  {
    if distance.Some? {
      NumberIsNoParenthesis(distance.value);
      SymIsEven(',');
      ExcessOfOne(distance.value);
      ExcessOfBoth([SymTok(',')], [distance.value]);
      assert DistanceTokens(distance) == [SymTok(',')] + [distance.value];
    }
  }

  lemma {:induction false} NamesAreEven(names: seq<Token>)
    requires forall n :: n in names ==> IsColumnName(n)
    ensures Excess(names) == 0
  {
    if names != [] {
      assert IsColumnName(names[0]);
      NameIsNoParenthesis(names[0], NONE_CHOSEN);
      NamesAreEven(names[1..]);
    }
  }

  lemma FilterIsEven(exclude: bool, names: seq<Token>, braces: bool)
    requires forall n :: n in names ==> IsColumnName(n)
    ensures Excess(FilterTokens(exclude, names, braces)) == 0
  {
    hide Excess, IsColumnName;
    NothingIsEven();
    SymIsEven('-');
    SymIsEven('{');
    SymIsEven('}');
    SymIsEven(':');
    NamesAreEven(names);
    ExcessOfBoth([SymTok('{')], names);
    ExcessOfBoth([SymTok('{')] + names, [SymTok('}')]);
    ExcessOfBoth(if exclude then [SymTok('-')] else [], NameListTokens(names, braces));
    ExcessOfBoth((if exclude then [SymTok('-')] else []) + NameListTokens(names, braces), [SymTok(':')]);
  }

  /** A parenthesis on either side. */
  lemma EnclosedIsEven(ts: seq<Token>)
    requires Excess(ts) == 0
    ensures Excess([SymTok('(')] + ts + [SymTok(')')]) == 0
  {
    SymKind('(');
    SymKind(')');
    ExcessOfOne(SymTok('('));
    ExcessOfOne(SymTok(')'));
    ExcessOfBoth([SymTok('(')], ts);
    ExcessOfBoth([SymTok('(')] + ts, [SymTok(')')]);
  }

  lemma NearIsEven(terms: seq<seq<Part>>, distance: Option<Token>)
    requires (forall t :: t in terms ==> IsPhrase(t)) && (distance.Some? ==> IsDistance(distance.value))
    ensures Excess([NEAR_TOKEN, SymTok('(')] + TermsTokens(terms) + DistanceTokens(distance) + [SymTok(')')]) == 0
  {
    hide Excess, IsPhrase, KindOf, TermsTokens, DistanceTokens, IsDistance;
    var inner := TermsTokens(terms) + DistanceTokens(distance);
    TermsAreEven(terms);
    DistanceIsEven(distance);
    ExcessOfBoth(TermsTokens(terms), DistanceTokens(distance));
    EnclosedIsEven(inner);
    NearTokenIsEven();
    ExcessOfBoth([NEAR_TOKEN], [SymTok('(')] + inner + [SymTok(')')]);
    NearSplits(TermsTokens(terms), DistanceTokens(distance));
  }

  lemma NearTokenIsEven()
    ensures Excess([NEAR_TOKEN]) == 0
  {
    OperatorKinds();
    ExcessOfOne(NEAR_TOKEN);
  }

  lemma NearSplits(terms: seq<Token>, distance: seq<Token>)
    ensures [NEAR_TOKEN, SymTok('(')] + terms + distance + [SymTok(')')] == [NEAR_TOKEN] + ([SymTok('(')] + (terms + distance) + [SymTok(')')])
  {
  }

  lemma OperatorIsEven(level: nat)
    ensures Excess(OperatorAt(level)) == 0
  {
    OperatorKinds();
    NothingIsEven();
    if OperatorAt(level) != [] {
      ExcessOfOne(OperatorAt(level)[0]);
    }
  }

  lemma {:induction false} SpellIsEven(g: Form, level: nat)
    requires Fits(g, level) && Proper(g)
    ensures Excess(Spell(g)) == 0
  {
    hide Excess, KindOf, IsPhrase, IsColumnName, IsDistance;
    match g
    case Words(parts, anchored) => TermIsEven(parts, anchored);
    case Nearby(open, terms, distance) => NearIsEven(terms, distance);
    case Restricted(exclude, names, braces, body) =>
      SpellIsEven(body, 4);
      FilterIsEven(exclude, names, braces);
      ExcessOfBoth(FilterTokens(exclude, names, braces), Spell(body));
    case Parens(body) =>
      SpellIsEven(body, 0);
      EnclosedIsEven(Spell(body));
    case Operands(k, l, r) =>
      SpellIsEven(l, k);
      SpellIsEven(r, k + 1);
      OperatorIsEven(k);
      ExcessOfBoth(OperatorAt(k), Spell(r));
      ExcessOfBoth(Spell(l), OperatorAt(k) + Spell(r));
  }

  lemma TermIsEven(parts: seq<Part>, anchored: bool)
    requires IsPhrase(parts)
    ensures Excess((if anchored then [SymTok('^')] else []) + PhraseTokens(parts)) == 0
  {
    NothingIsEven();
    SymIsEven('^');
    PhraseIsEven(parts);
    ExcessOfBoth(if anchored then [SymTok('^')] else [], PhraseTokens(parts));
  }

  /** In front of anything a proper form makes no difference. */
  lemma {:induction false} FormAddsNone(g: Form, level: nat, rest: seq<Token>)
    requires Fits(g, level) && Proper(g)
    ensures Excess(Spell(g) + rest) == Excess(rest)
  {
    SpellIsEven(g, level);
    ExcessOfBoth(Spell(g), rest);
  }
}
