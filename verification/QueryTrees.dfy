/**
 Every query the compiler accepts is written in some form (backend/internal/search/postgres_query.go): what is proved of
 forms holds for all query text.
 */
module QueryTrees {
  import opened Wrappers
  import opened Text
  import opened QueryTokens
  import opened QueryParser
  import opened QueryBinding
  import opened QueryMeaning
  import opened QuerySyntax
  import opened QueryReadBack

  // ----- Phrases -----

  lemma {:induction false} PlusTailStops(text: string, ts: seq<Token>)
    requires PlusTail(text, ts).Some?
    ensures !Is(PlusTail(text, ts).value.rest, Sym('+'))
    decreases |ts|
  {
    if Is(ts, Sym('+')) {
      var next := Phrase(ts[1..]).value;
      PlusTailStops(text + " " + next.text, next.rest);
    }
  }

  lemma PhraseStops(ts: seq<Token>)
    requires Phrase(ts).Some?
    ensures !Is(Phrase(ts).value.rest, Sym('+'))
  {
    PlusTailStops(ts[0].text, Skip(ts[1..], Sym('*')));
  }

  lemma RestIsWritable(ts: seq<Token>, k: nat)
    requires AllWritable(ts) && k <= |ts|
    ensures AllWritable(ts[k..])
  {
  }

  lemma TermIsPart(t: Token, starred: bool)
    requires IsWritable(t) && (KindOf(t).Plain? || KindOf(t).Quoted?)
    ensures IsPart(Part(t.text, t.quoted, starred))
  {
    assert !t.quoted && |t.text| == 1 ==> t.text[0] in t.text;
  }

  lemma SymOfKind(t: Token, c: char)
    requires KindOf(t) == Sym(c)
    ensures t == SymTok(c)
  {
  }

  lemma {:induction false} PhraseHasParts(ts: seq<Token>) returns (parts: seq<Part>)
    requires AllWritable(ts) && Phrase(ts).Some?
    ensures IsPhrase(parts) && AllWritable(Phrase(ts).value.rest) && ts == PhraseTokens(parts) + Phrase(ts).value.rest
    ensures Phrase(ts).value.prefix == parts[0].starred && Phrase(ts).value.text == PhraseText(parts)
    decreases |ts|
  {
    hide KindOf, IsPart, IsWritable, PartTokens;
    var starred := Is(ts[1..], Sym('*'));
    var part, rest := Part(ts[0].text, ts[0].quoted, starred), Skip(ts[1..], Sym('*'));
    TermIsPart(ts[0], starred);
    RestIsWritable(ts, 1);
    PartIsTaken(ts, part);
    parts := [part];
    if Is(rest, Sym('+')) {
      RestIsWritable(rest, 1);
      var more := PhraseHasParts(rest[1..]);
      var next := Phrase(rest[1..]).value;
      PhraseStops(rest[1..]);
      assert PlusTail(ts[0].text + " " + next.text, next.rest) == Some(Lexeme(ts[0].text + " " + next.text, next.rest));
      assert PlusTail(ts[0].text, rest) == Some(Lexeme(ts[0].text + " " + next.text, next.rest));
      SymOfKind(rest[0], '+');
      parts := [part] + more;
      assert parts[1..] == more;
      PhraseSplits(ts, part, rest, PhraseTokens(more), next.rest);
    }
  }

  lemma PartIsTaken(ts: seq<Token>, part: Part)
    requires ts != [] && part == Part(ts[0].text, ts[0].quoted, Is(ts[1..], Sym('*')))
    ensures ts == PartTokens(part) + Skip(ts[1..], Sym('*'))
  {
    hide KindOf;
    if part.starred {
      SymOfKind(ts[1], '*');
      assert ts[1..][1..] == ts[2..];
    }
  }

  lemma PhraseSplits(ts: seq<Token>, part: Part, rest: seq<Token>, more: seq<Token>, behind: seq<Token>)
    requires ts == PartTokens(part) + rest && rest != [] && rest[0] == SymTok('+') && rest[1..] == more + behind
    ensures ts == PartTokens(part) + ([SymTok('+')] + more) + behind
  {
    hide PartTokens;
    assert rest == [SymTok('+')] + (more + behind);
  }

  // ----- NEAR groups -----

  lemma {:induction false} NearTermsHaveParts(ts: seq<Token>, before: seq<string>) returns (terms: seq<seq<Part>>)
    requires AllWritable(ts) && NearTerms(ts, before).Some?
    ensures (forall t :: t in terms ==> IsPhrase(t)) && AllWritable(NearTerms(ts, before).value.rest)
    ensures ts == TermsTokens(terms) + NearTerms(ts, before).value.rest
    ensures NearTerms(ts, before).value.texts == before + TermsTexts(terms)
    decreases |ts|
  {
    hide Phrase, KindOf, IsPhrase, AllWritable, PhraseTokens, PhraseText, TermsTokens, TermsTexts;
    var r := NearTerms(ts, before).value;
    if ts == [] || Is(ts, Sym(',')) || Is(ts, Sym(')')) {
      terms := [];
      NoTerms(ts, before);
    } else {
      var parts := PhraseHasParts(ts);
      var p := Phrase(ts).value;
      var more := NearTermsHaveParts(p.rest, before + [p.text]);
      terms := [parts] + more;
      OneMoreTerm(ts, parts, more, p.rest, r.rest, before);
    }
  }

  lemma NoTerms(ts: seq<Token>, before: seq<string>)
    ensures ts == TermsTokens([]) + ts && before == before + TermsTexts([])
  {
  }

  lemma OneMoreTerm(ts: seq<Token>, parts: seq<Part>, more: seq<seq<Part>>, behind: seq<Token>, rest: seq<Token>, before: seq<string>)
    requires ts == PhraseTokens(parts) + behind && behind == TermsTokens(more) + rest
    ensures ts == TermsTokens([parts] + more) + rest
    ensures before + [PhraseText(parts)] + TermsTexts(more) == before + TermsTexts([parts] + more)
  {
    hide PhraseTokens, PhraseText;
    assert ([parts] + more)[1..] == more;
  }

  lemma DistanceHasToken(ts: seq<Token>) returns (distance: Option<Token>)
    requires AllWritable(ts) && NearDistance(ts).Some?
    ensures distance.Some? ==> IsDistance(distance.value)
    ensures ts == DistanceTokens(distance) + NearDistance(ts).value.rest && AllWritable(NearDistance(ts).value.rest)
    ensures NearDistance(ts).value.distance == Distance(DistanceIn(distance))
  {
    distance := None;
    if Is(ts, Sym(',')) {
      SymOfKind(ts[0], ',');
      distance := Some(ts[1]);
    }
  }

  /** What the parser takes for a NEAR group is written as one. */
  lemma {:induction false} NearbyHasForm(ts: seq<Token>) returns (g: Form)
    requires AllWritable(ts) && NearAhead(ts) && NearGroup(ts[2..]).Some?
    ensures g.Nearby? && Fits(g, 4) && ts == Spell(g) + NearGroup(ts[2..]).value.rest && AllWritable(NearGroup(ts[2..]).value.rest)
    ensures var n := NearGroup(ts[2..]).value;
            n.query == NearQuery(Distance(DistanceIn(g.distance)), TermsTexts(g.terms)) && n.texts == TermsTexts(g.terms)
  {
    hide KindOf, NearTerms, NearDistance, NearQuery, IsPhrase, IsDistance, AllWritable, TermsTokens, DistanceTokens;
    RestIsWritable(ts, 2);
    var terms := NearTermsHaveParts(ts[2..], []);
    var read := NearTerms(ts[2..], []).value;
    assert [] + TermsTexts(terms) == TermsTexts(terms);
    var distance := DistanceHasToken(read.rest);
    var close := NearDistance(read.rest).value.rest;
    SymOfKind(close[0], ')');
    RestIsWritable(close, 1);
    g := Nearby(ts[1], terms, distance);
    NearbySplits(ts, TermsTokens(terms), DistanceTokens(distance), read.rest, close);
  }

  lemma NearbySplits(ts: seq<Token>, terms: seq<Token>, distance: seq<Token>, rest: seq<Token>, close: seq<Token>)
    requires NearAhead(ts) && ts[2..] == terms + rest && rest == distance + close && close != [] && close[0] == SymTok(')')
    ensures ts == [NEAR_TOKEN, ts[1]] + terms + distance + [SymTok(')')] + close[1..]
  {
    assert ts[0] == NEAR_TOKEN;
    assert ts == [ts[0], ts[1]] + ts[2..];
  }

  // ----- Column filters -----

  lemma {:induction false} NamesAreColumns(ts: seq<Token>, braces: bool, chosen: Chosen) returns (names: seq<Token>)
    requires AllWritable(ts) && Names(ts, braces, chosen).Some?
    ensures names != [] && (!braces ==> |names| == 1) && forall n :: n in names ==> IsColumnName(n)
    ensures Names(ts, braces, chosen).value.chosen == ChosenBy(names, chosen) && AllWritable(Names(ts, braces, chosen).value.rest)
    ensures ts == names + (if braces then [SymTok('}')] else []) + Names(ts, braces, chosen).value.rest
    decreases |ts|
  {
    hide Choose, KindOf, IsWritable;
    NameIsColumn(ts, chosen);
    var more := Choose(chosen, ToLower(ts[0].text)).value;
    names := [ts[0]];
    assert names[1..] == [];
    if braces && Is(ts[1..], Sym('}')) {
      SymOfKind(ts[1], '}');
      assert ts == [ts[0]] + [SymTok('}')] + ts[2..];
    } else if braces {
      RestIsWritable(ts, 1);
      var others := NamesAreColumns(ts[1..], braces, more);
      names := [ts[0]] + others;
      assert names[1..] == others;
      NamesSplit(ts, others, [SymTok('}')], Names(ts, braces, chosen).value.rest);
    }
  }

  lemma NameIsColumn(ts: seq<Token>, chosen: Chosen)
    requires ts != [] && AllWritable(ts) && Choose(chosen, ToLower(ts[0].text)).Some?
    ensures IsColumnName(ts[0])
  {
    ChooseIgnoresChosen(chosen, ToLower(ts[0].text));
  }

  lemma NamesSplit(ts: seq<Token>, others: seq<Token>, close: seq<Token>, rest: seq<Token>)
    requires ts != [] && ts[1..] == others + close + rest
    ensures ts == [ts[0]] + others + close + rest
  {
  }

  lemma {:induction false} FilterHasNames(ts: seq<Token>, cols: Columns) returns (exclude: bool, names: seq<Token>, braces: bool)
    requires AllWritable(ts) && ColumnFilter(ts, cols).Filtered?
    ensures names != [] && (!braces ==> |names| == 1) && forall n :: n in names ==> IsColumnName(n)
    ensures AllWritable(ColumnFilter(ts, cols).rest) && ts == FilterTokens(exclude, names, braces) + ColumnFilter(ts, cols).rest
    ensures ColumnFilter(ts, cols).columns == Narrow(cols, ChosenBy(names, NONE_CHOSEN), exclude)
  {
    hide Names, IsColumnName, KindOf;
    exclude := Is(ts, Sym('-'));
    var unsigned := Skip(ts, Sym('-'));
    braces := Is(unsigned, Sym('{'));
    var list := Skip(unsigned, Sym('{'));
    names := NamesAreColumns(list, braces, NONE_CHOSEN);
    var colon := Names(list, braces, NONE_CHOSEN).value.rest;
    SymOfKind(colon[0], ':');
    if exclude {
      SymOfKind(ts[0], '-');
    }
    if braces {
      SymOfKind(unsigned[0], '{');
    }
    FilterIsSplit(ts, unsigned, list, colon, exclude, names, braces);
  }

  lemma FilterIsSplit(ts: seq<Token>, unsigned: seq<Token>, list: seq<Token>, colon: seq<Token>, exclude: bool, names: seq<Token>, braces: bool)
    requires ts == (if exclude then [SymTok('-')] else []) + unsigned
    requires unsigned == (if braces then [SymTok('{')] else []) + list
    requires list == names + (if braces then [SymTok('}')] else []) + colon && colon != [] && colon[0] == SymTok(':')
    ensures ts == FilterTokens(exclude, names, braces) + colon[1..]
  {
    var sign, after := if exclude then [SymTok('-')] else [], colon[1..];
    assert colon == [SymTok(':')] + after;
    if braces {
      assert unsigned == [SymTok('{')] + names + [SymTok('}')] + colon;
    } else {
      assert unsigned == names + colon;
    }
    assert ts == sign + (NameListTokens(names, braces) + ([SymTok(':')] + after));
    FilterSplits(sign, NameListTokens(names, braces), [SymTok(':')], after);
  }

  // ----- Expressions -----

  /** The form is what the parser has read from the tokens, and nothing in it is misread. */
  predicate Tells(g: Form, level: nat, ts: seq<Token>, cols: Columns, bound: Bound, p: Parsed) {
    && Fits(g, level) && ts == Spell(g) + p.rest
    && Apart(g, p.rest) && Clean(g, p.rest) && Expected(g, cols, bound, p.rest) == p
  }

  lemma {:induction false} AtomHasForm(ts: seq<Token>, cols: Columns, bound: Bound) returns (g: Form)
    requires AllWritable(ts) && Atom(ts, cols, bound).Some?
    ensures Tells(g, 4, ts, cols, bound, Atom(ts, cols, bound).value) && AllWritable(Atom(ts, cols, bound).value.rest)
    decreases |ts|, 1
  {
    hide Tells, AllWritable, ColumnFilter, ParseOr, Phrase, NearGroup, NearAhead, KindOf;
    if ColumnFilter(ts, cols).Filtered? {
      g := RestrictedHasForm(ts, cols, bound);
    } else if Is(ts, Sym('(')) {
      g := ParensHaveForm(ts, cols, bound);
    } else if NearAhead(ts) {
      g := NearAtomHasForm(ts, cols, bound);
    } else {
      g := WordsHaveForm(ts, cols, bound);
    }
  }

  lemma {:induction false} RestrictedHasForm(ts: seq<Token>, cols: Columns, bound: Bound) returns (g: Form)
    requires AllWritable(ts) && ColumnFilter(ts, cols).Filtered? && Atom(ts, cols, bound).Some?
    ensures Tells(g, 4, ts, cols, bound, Atom(ts, cols, bound).value) && AllWritable(Atom(ts, cols, bound).value.rest)
    decreases |ts|, 0
  {
    hide AllWritable, KindOf, IsColumnName, FilterTokens, Follows, NearAhead, PhraseTokens, Phrase, NearGroup;
    var exclude, names, braces := FilterHasNames(ts, cols);
    var read := ColumnFilter(ts, cols);
    hide ColumnFilter;
    var body := LevelHasForm(4, read.rest, read.columns, bound);
    g := Restricted(exclude, names, braces, body);
    RestrictedSplits(g, Atom(ts, cols, bound).value.rest);
  }

  lemma {:induction false} NearAtomHasForm(ts: seq<Token>, cols: Columns, bound: Bound) returns (g: Form)
    requires AllWritable(ts) && ColumnFilter(ts, cols) == NoFilter && !Is(ts, Sym('(')) && NearAhead(ts) && Atom(ts, cols, bound).Some?
    ensures Tells(g, 4, ts, cols, bound, Atom(ts, cols, bound).value) && AllWritable(Atom(ts, cols, bound).value.rest)
  {
    hide AllWritable, ColumnFilter, NearGroup, KindOf, NearQuery;
    g := NearbyHasForm(ts);
  }

  lemma {:induction false} LevelHasForm(level: nat, ts: seq<Token>, cols: Columns, bound: Bound) returns (g: Form)
    requires level <= 4 && AllWritable(ts) && ParseAt(level, ts, cols, bound).Some?
    ensures var r := ParseAt(level, ts, cols, bound).value; Tells(g, level, ts, cols, bound, r) && AllWritable(r.rest)
    decreases |ts|, 10 - level
  {
    hide Tells, AllWritable, Onward;
    if level == 4 {
      g := AtomHasForm(ts, cols, bound);
    } else {
      LevelsNest(level, ts, cols, bound);
      var first := LevelHasForm(level + 1, ts, cols, bound);
      var p := ParseAt(level + 1, ts, cols, bound).value;
      TellsBelow(first, level, ts, cols, bound, p);
      g := LoopHasForm(level, ts, p, first, cols, bound);
    }
  }

  lemma TellsBelow(g: Form, level: nat, ts: seq<Token>, cols: Columns, bound: Bound, p: Parsed)
    requires Tells(g, level + 1, ts, cols, bound, p)
    ensures Tells(g, level, ts, cols, bound, p)
  {
  }

  lemma {:induction false} LoopHasForm(level: nat, ts: seq<Token>, left: Parsed, l: Form, cols: Columns, bound: Bound) returns (g: Form)
    requires level < 4 && Tells(l, level, ts, cols, bound, left) && AllWritable(left.rest) && Onward(level, left, cols).Some?
    ensures var r := Onward(level, left, cols).value; Tells(g, level, ts, cols, bound, r) && AllWritable(r.rest)
    decreases |left.rest|, 20
  {
    hide Tells, AllWritable, Onward, ParseAt;
    g := l;
    if GoesOn(level, left.rest) {
      var behind := OperatorIsTaken(level, left.rest);
      LoopTakes(level, left, behind, cols);
      var right := LevelHasForm(level + 1, behind, cols, left.bound);
      var second := ParseAt(level + 1, behind, cols, left.bound).value;
      var both := Parsed(Combined(level, left.expr, second.expr), second.bound, second.rest);
      OperandsTell(level, ts, left, l, behind, second, right, cols, bound);
      g := LoopHasForm(level, ts, both, Operands(level, l, right), cols, bound);
    } else {
      LoopEnds(level, left, cols);
    }
  }

  lemma LoopEnds(level: nat, left: Parsed, cols: Columns)
    requires !GoesOn(level, left.rest)
    ensures Onward(level, left, cols) == Some(left)
  {
  }

  lemma OperatorIsTaken(level: nat, rest: seq<Token>) returns (behind: seq<Token>)
    requires level < 4 && GoesOn(level, rest) && AllWritable(rest)
    ensures rest == OperatorAt(level) + behind && AllWritable(behind) && |behind| <= |rest|
  {
    behind := rest[|OperatorAt(level)|..];
  }

  lemma {:induction false} OperandsTell(level: nat, ts: seq<Token>, left: Parsed, l: Form, behind: seq<Token>, second: Parsed, r: Form,
                                        cols: Columns, bound: Bound)
    requires level < 4 && Tells(l, level, ts, cols, bound, left) && Tells(r, level + 1, behind, cols, left.bound, second)
    requires left.rest == OperatorAt(level) + behind
    ensures Tells(Operands(level, l, r), level, ts, cols, bound, Parsed(Combined(level, left.expr, second.expr), second.bound, second.rest))
  {
    var g := Operands(level, l, r);
    hide Spell, Clean, Apart, Emit, Combined, OperatorAt;
    assert OperandTail(g, second.rest) == left.rest;
    OperandsSplit(g, second.rest);
    CleanOperands(g, second.rest);
    ExpectedOfOperands(g, cols, bound, second.rest);
  }

  lemma {:induction false} ParensHaveForm(ts: seq<Token>, cols: Columns, bound: Bound) returns (g: Form)
    requires AllWritable(ts) && ColumnFilter(ts, cols) == NoFilter && Is(ts, Sym('(')) && Atom(ts, cols, bound).Some?
    ensures Tells(g, 4, ts, cols, bound, Atom(ts, cols, bound).value) && AllWritable(Atom(ts, cols, bound).value.rest)
    decreases |ts|, 0
  {
    hide KindOf, AllWritable, ColumnFilter, ParseOr, Tells;
    RestIsWritable(ts, 1);
    var body := LevelHasForm(0, ts[1..], cols, bound);
    var p := ParseOr(ts[1..], cols, bound).value;
    RestIsWritable(p.rest, 1);
    SymOfKind(ts[0], '(');
    SymOfKind(p.rest[0], ')');
    NoColonAtParenthesis(ts, cols);
    ParensTell(ts, body, p, cols, bound);
    g := Parens(body);
  }

  lemma NoColonAtParenthesis(ts: seq<Token>, cols: Columns)
    requires ColumnFilter(ts, cols) == NoFilter && Is(ts, Sym('('))
    ensures !ColonAhead(ts)
  {
  }

  lemma {:induction false} ParensTell(ts: seq<Token>, body: Form, p: Parsed, cols: Columns, bound: Bound)
    requires ts != [] && ts[0] == SymTok('(') && !ColonAhead(ts) && p.rest != [] && p.rest[0] == SymTok(')')
    requires Tells(body, 0, ts[1..], cols, bound, p)
    ensures Tells(Parens(body), 4, ts, cols, bound, Parsed(p.expr, p.bound, p.rest[1..]))
  {
    hide ColonAhead, Emit;
    var g, rest := Parens(body), p.rest[1..];
    assert p.rest == [SymTok(')')] + rest;
    assert ts == [SymTok('(')] + (Spell(body) + ([SymTok(')')] + rest));
    assert ts == Spell(g) + rest;
  }

  lemma {:induction false} WordsHaveForm(ts: seq<Token>, cols: Columns, bound: Bound) returns (g: Form)
    requires AllWritable(ts) && ColumnFilter(ts, cols) == NoFilter && !Is(ts, Sym('(')) && !NearAhead(ts) && Atom(ts, cols, bound).Some?
    ensures Tells(g, 4, ts, cols, bound, Atom(ts, cols, bound).value) && AllWritable(Atom(ts, cols, bound).value.rest)
  {
    hide Phrase, KindOf, PhraseTokens, IsPhrase, PhraseQuery, PhraseText, ColumnFilter, Tells, BindTerm, NearAhead;
    var phrase := Skip(ts, Sym('^'));
    var parts := PhraseHasParts(phrase);
    NoColonWithoutFilter(ts, cols);
    WordsTell(ts, phrase, parts, Phrase(phrase).value.rest, cols, bound);
    g := Words(parts, Is(ts, Sym('^')));
  }

  lemma {:induction false} WordsTell(ts: seq<Token>, phrase: seq<Token>, parts: seq<Part>, rest: seq<Token>, cols: Columns, bound: Bound)
    requires phrase == Skip(ts, Sym('^')) && phrase == PhraseTokens(parts) + rest && IsPhrase(parts)
    requires !ColonAhead(ts) && !NearAhead(ts)
    ensures var (e, more) := BindTerm(bound, cols, Is(ts, Sym('^')), PhraseQuery(parts[0].starred, PhraseText(parts)), PhraseText(parts));
            Tells(Words(parts, Is(ts, Sym('^'))), 4, ts, cols, bound, Parsed(e, more, rest))
  {
    hide KindOf, PhraseTokens, IsPhrase, PhraseQuery, PhraseText, BindTerm, ColonAhead, NearAhead;
    var sign := if Is(ts, Sym('^')) then [SymTok('^')] else [];
    if Is(ts, Sym('^')) {
      SymOfKind(ts[0], '^');
    }
    assert ts == sign + phrase;
    assert ts == sign + PhraseTokens(parts) + rest;
  }

  lemma NoColonWithoutFilter(ts: seq<Token>, cols: Columns)
    requires ColumnFilter(ts, cols) == NoFilter && Phrase(Skip(ts, Sym('^'))).Some?
    ensures !ColonAhead(ts)
  {
  }

  // ----- Accepted text -----

  /** The form is what the text says, and nothing in it is misread. */
  predicate SaysForm(query: string, g: Form) {
    Tokens(BuildFuzzyQuery(query)) == Some(Spell(g)) && Fits(g, 0) && Apart(g, []) && Clean(g, [])
  }

  /** Whatever text the compiler accepts is written in some form. */
  lemma {:induction false} AcceptedTextHasForm(query: string) returns (g: Form)
    requires CompileText(query).Some?
    ensures SaysForm(query, g)
  {
    hide Spell, Clean, Apart, Emit, AllWritable, Fits;
    var ts := Tokens(BuildFuzzyQuery(query)).value;
    TextTokensAreWritable(BuildFuzzyQuery(query));
    g := LevelHasForm(0, ts, ALL_COLUMNS, Bound([""], []));
    assert Spell(g) + [] == Spell(g);
  }

  lemma {:induction false} TextTokensAreWritable(s: string)
    requires Tokens(s).Some?
    ensures AllWritable(Tokens(s).value)
  {
    TokensAreWritable(s);
  }

  /**
   The text is compiled to the translation of the tree: true exactly when the tree is, under every interpretation, and all its
   arguments are used exactly when each of the tree's anchored terms keeps a searched column.
   */
  ghost predicate IsCompiledTo(query: string, q: Query) {
    var r := CompileText(query);
    && WellFormed(q) && r == Some(Translated(q))
    && (forall m: Interpretation :: Eval(r.value.expr, r.value.args, m) <==> Meaning(q, ALL_COLUMNS, m))
    && (Used(r.value.expr) == Range(1, |r.value.args|) <==> Searches(q, ALL_COLUMNS))
  }

  lemma {:induction false} FormOfTextIsCompiled(query: string, g: Form)
    requires SaysForm(query, g)
    ensures IsCompiledTo(query, TreeOf(g))
  {
    hide Spell, Clean, Apart, Emit, Fits, Eval, Meaning, Searches, CompileTokens;
    CompileReadsBack(g);
    ArgumentsAreUsed(g);
    var r := CompileTokens(Spell(g)).value;
    forall m: Interpretation
      ensures Eval(r.expr, r.args, m) <==> Meaning(TreeOf(g), ALL_COLUMNS, m)
    {
      CompilePreservesMeaning(g, m);
    }
  }

  /**
   Main result: the compiler accepts exactly the texts written in some form in which nothing is misread, and whatever the form
   in which a text is written, it is compiled to that form's tree.
   */
  lemma {:induction false} AcceptedTextHasTree(query: string)
    ensures CompileText(query).Some? <==> exists g :: SaysForm(query, g)
    ensures forall g :: SaysForm(query, g) ==> IsCompiledTo(query, TreeOf(g))
  {
    hide CompileText, SaysForm, IsCompiledTo;
    if CompileText(query).Some? {
      var g := AcceptedTextHasForm(query);
    }
    forall g | SaysForm(query, g)
      ensures IsCompiledTo(query, TreeOf(g)) && CompileText(query).Some?
    {
      FormOfTextIsCompiled(query, g);
      CompiledIsSome(query, TreeOf(g));
    }
  }

  lemma CompiledIsSome(query: string, q: Query)
    requires IsCompiledTo(query, q)
    ensures CompileText(query).Some?
  {
  }
}
