/**
 What the compiler of search queries writes, in literal terms (backend/internal/search/postgres_query.go): column weights,
 quoting, prefixes, NEAR groups, anchors and the argument list.
 */
module QueryOutput {
  import opened Wrappers
  import opened Text
  import opened QueryTokens
  import opened QueryParser
  import opened QueryBinding
  import opened QueryMeaning
  import opened QuerySyntax
  import opened QueryReadBack

  // ----- Column filters -----

  /** Some name of the filter is this column, in whatever case. */
  predicate Mentions(names: seq<Token>, column: string) {
    exists i :: 0 <= i < |names| && ToLower(names[i].text) == column
  }

  lemma ColumnNameByText(t: Token)
    ensures IsColumnName(t) <==>
            IsWritable(t) && ToLower(t.text) in {"title", "headings", "content", "pageid", "path", "filepath", "kind"}
  {
  }

  lemma MentionsMore(names: seq<Token>, column: string)
    requires names != []
    ensures Mentions(names, column) <==> ToLower(names[0].text) == column || Mentions(names[1..], column)
  {
    if Mentions(names, column) {
      var i :| 0 <= i < |names| && ToLower(names[i].text) == column;
      assert i > 0 ==> names[1..][i - 1] == names[i];
    }
    if Mentions(names[1..], column) {
      var i :| 0 <= i < |names[1..]| && ToLower(names[1..][i].text) == column;
      assert names[i + 1] == names[1..][i];
    }
  }

  lemma {:induction false} ChosenAreMentioned(names: seq<Token>, chosen: Chosen)
    requires forall n :: n in names ==> IsColumnName(n)
    ensures ChosenBy(names, chosen) ==
            Chosen(chosen.title || Mentions(names, "title"), chosen.headings || Mentions(names, "headings"),
                   chosen.content || Mentions(names, "content"), chosen.pageId || Mentions(names, "pageid"))
  {
    if names != [] {
      hide Mentions;
      assert IsColumnName(names[0]);
      var name := ToLower(names[0].text);
      MentionsMore(names, "title");
      MentionsMore(names, "headings");
      MentionsMore(names, "content");
      MentionsMore(names, "pageid");
      ChooseIgnoresChosen(chosen, name);
      ChooseOne(chosen, name);
      ChosenAreMentioned(names[1..], Choose(chosen, name).value);
    }
  }

  lemma ChooseOne(chosen: Chosen, name: string)
    requires Choose(chosen, name).Some?
    ensures Choose(chosen, name).value ==
            Chosen(chosen.title || name == "title", chosen.headings || name == "headings", chosen.content || name == "content", chosen.pageId || name == "pageid")
  {
  }

  /** The weight of a column behind a filter: its old one if the filter names it, or, with a minus, if it does not. */
  function Left(names: seq<Token>, exclude: bool, column: string, weight: nat): nat {
    if Mentions(names, column) != exclude then weight else 0
  }

  function LeftOf(names: seq<Token>, exclude: bool, cols: Columns): Columns {
    Columns(Left(names, exclude, "title", cols.title), Left(names, exclude, "headings", cols.headings),
            Left(names, exclude, "content", cols.content), Left(names, exclude, "pageid", cols.pageId))
  }

  /** Whatever a filter stands in front of is searched in exactly the columns it leaves. */
  lemma {:induction false} FilterLeavesColumns(names: seq<Token>, exclude: bool, braces: bool, body: Query, cols: Columns, bound: Bound)
    requires WellFormed(Filter(exclude, names, braces, body))
    ensures Emit(Filter(exclude, names, braces, body), cols, bound) == Emit(body, LeftOf(names, exclude, cols), bound)
    ensures forall m :: Meaning(Filter(exclude, names, braces, body), cols, m) <==> Meaning(body, LeftOf(names, exclude, cols), m)
  {
    hide Mentions;
    ChosenAreMentioned(names, NONE_CHOSEN);
  }

  // ----- Quoting -----

  function Quotes(text: string): string {
    ['"'] + text + ['"']
  }

  lemma {:induction false} NothingToEscape(s: string)
    requires '"' !in s && '\\' !in s
    ensures Escape(s) == s && GroongaQuote(s) == Quotes(s)
  {
    if s != "" {
      assert s[0] in s && forall c :: c in s[1..] ==> c in s;
      NothingToEscape(s[1..]);
    }
  }

  lemma WordHasNoQuotes(w: string)
    requires IsWord(w)
    ensures '"' !in w && '\\' !in w && ':' !in w && '^' !in w && '*' !in w
  {
  }

  /** How a quoted phrase is read by the database: a backslash stands for the character behind it. */
  function ReadQuoted(s: string): Option<Lexed>
    decreases |s|
  {
    if s == "" then None
    else if s[0] == '"' then Some(Lexed("", s[1..]))
    else
      var escaped := s[0] == '\\' && |s| > 1;
      match ReadQuoted(if escaped then s[2..] else s[1..])
      case None => None
      case Some(l) => Some(Lexed([if escaped then s[1] else s[0]] + l.text, l.rest))
  }

  function EscapedChar(c: char): string {
    if c == '\\' || c == '"' then ['\\', c] else [c]
  }

  lemma ReadOneMore(c: char, tail: string, text: string, rest: string)
    requires ReadQuoted(tail) == Some(Lexed(text, rest))
    ensures ReadQuoted(EscapedChar(c) + tail) == Some(Lexed([c] + text, rest))
  {
    assert (EscapedChar(c) + tail)[|EscapedChar(c)|..] == tail;
  }

  lemma {:induction false} EscapedIsRead(text: string, rest: string)
    ensures ReadQuoted(Escape(text) + ['"'] + rest) == Some(Lexed(text, rest))
  {
    hide ReadQuoted;
    if text == "" {
      QuoteEnds(rest);
    } else {
      EscapedIsRead(text[1..], rest);
      var tail := Escape(text[1..]) + ['"'] + rest;
      ReadOneMore(text[0], tail, text[1..], rest);
      assert Escape(text) + ['"'] + rest == EscapedChar(text[0]) + tail;
      assert text == [text[0]] + text[1..];
    }
  }

  lemma QuoteEnds(rest: string)
    ensures ReadQuoted("" + ['"'] + rest) == Some(Lexed("", rest))
  {
    assert "" + ['"'] + rest == ['"'] + rest && (['"'] + rest)[1..] == rest;
  }

  /** Quoted text ends where it should, whatever is in it and whatever follows. */
  lemma {:induction false} QuotedIsRead(text: string, rest: string)
    ensures GroongaQuote(text) + rest == ['"'] + (Escape(text) + ['"'] + rest)
    ensures ReadQuoted((GroongaQuote(text) + rest)[1..]) == Some(Lexed(text, rest))
  {
    EscapedIsRead(text, rest);
  }

  // ----- Whole queries -----

  function Word(w: string): Form {
    Words([Part(w, false, false)], false)
  }

  predicate IsTerm(w: string) {
    IsWord(w) && w !in {"AND", "OR", "NOT"}
  }

  lemma {:induction false} WordForm(w: string)
    requires IsTerm(w)
    ensures Fits(Word(w), 4) && Fits(Word(w), 0) && Spell(Word(w)) == [Token(w, false)] && Clean(Word(w), []) && Apart(Word(w), [])
    ensures forall cols, bound :: Emit(TreeOf(Word(w)), cols, bound) ==
                                  (Match(|bound.args| + 1, Quotes(w), cols), Bound(bound.args + [Quotes(w)], bound.keywords + [w]))
  {
    WordHasNoQuotes(w);
    NothingToEscape(w);
    assert PhraseTokens([Part(w, false, false)]) == [Token(w, false)];
    assert Spell(Word(w)) + [] == [Token(w, false)];
  }

  /** Text holds every character of its tokens. */
  lemma {:induction false} WrittenHolds(ts: seq<Token>, i: nat, c: char)
    requires i < |ts| && !ts[i].quoted && c in ts[i].text
    ensures c in Write(ts)
  {
    if i > 0 {
      WrittenHolds(ts[1..], i - 1, c);
    }
  }

  /**
   A filter in front of one word, as text: with or without a minus, one name or names in braces. The condition looks for the
   quoted word in exactly the columns whose literal name the filter gives, or does not give behind a minus, with the weights
   20, 5, 1 and 1.
   */
  lemma {:induction false} FilteredWordSearchesColumns(exclude: bool, names: seq<Token>, braces: bool, w: string)
    requires IsTerm(w) && names != [] && (!braces ==> |names| == 1) && forall n :: n in names ==> IsColumnName(n)
    ensures var text := Write(FilterTokens(exclude, names, braces) + [Token(w, false)]);
            CompileText(text) ==
            Some(Compiled(Match(2, Quotes(w), Columns(Left(names, exclude, "title", 20), Left(names, exclude, "headings", 5),
                                                      Left(names, exclude, "content", 1), Left(names, exclude, "pageid", 1))),
                          [Quotes(w), Quotes(w)]))
  {
    hide Left, Mentions, CompileTokens, CompileText, FilterTokens, IsColumnName, HasSyntax;
    var g := Restricted(exclude, names, braces, Word(w));
    WordForm(w);
    FilterHoldsColon(exclude, names, braces, w);
    ColonIsSyntax(Written(g));
    WrittenCompiles(g);
    CompileReadsBack(g);
    FilterLeavesColumns(names, exclude, braces, TreeOf(Word(w)), ALL_COLUMNS, Bound([""], []));
    OneWordBound(w);
  }

  lemma OneWordBound(w: string)
    requires IsTerm(w)
    ensures FillFirst(Bound([""] + [Quotes(w)], [] + [w])) == [Quotes(w), Quotes(w)]
  {
    hide Escape;
    WordHasNoQuotes(w);
    OneKeyword(w);
    assert [] + [w] == [w];
  }

  lemma ColonIsSyntax(text: string)
    requires ':' in text
    ensures HasSyntax(text)
  {
  }

  lemma {:induction false} FilterHoldsColon(exclude: bool, names: seq<Token>, braces: bool, w: string)
    ensures var ts := FilterTokens(exclude, names, braces) + [Token(w, false)]; ':' in Write(ts)
  {
    var ts := FilterTokens(exclude, names, braces) + [Token(w, false)];
    var k := |FilterTokens(exclude, names, braces)| - 1;
    assert ts[k] == SymTok(':');
    WrittenHolds(ts, k, ':');
  }

  /** The texts are what they look like. */
  lemma {:induction false} FilterTexts(name: string, w: string)
    ensures Write(FilterTokens(false, [Token(name, false)], false) + [Token(w, false)]) == name + " : " + w
    ensures Write(FilterTokens(true, [Token(name, false)], false) + [Token(w, false)]) == "- " + name + " : " + w
    ensures Write(FilterTokens(false, [Token(name, false)], true) + [Token(w, false)]) == "{ " + name + " } : " + w
  {
    var n, t := Token(name, false), Token(w, false);
    WrittenOne(t);
    WrittenTwo(SymTok(':'), [t]);
    WrittenTwo(n, [SymTok(':'), t]);
    WrittenTwo(SymTok('-'), [n, SymTok(':'), t]);
    WrittenTwo(SymTok('}'), [SymTok(':'), t]);
    WrittenTwo(n, [SymTok('}'), SymTok(':'), t]);
    WrittenTwo(SymTok('{'), [n, SymTok('}'), SymTok(':'), t]);
    assert FilterTokens(false, [n], false) + [t] == [n] + [SymTok(':'), t];
    assert FilterTokens(true, [n], false) + [t] == [SymTok('-')] + [n, SymTok(':'), t];
    assert FilterTokens(false, [n], true) + [t] == [SymTok('{')] + [n, SymTok('}'), SymTok(':'), t];
    assert [n] + [SymTok(':'), t] == [n, SymTok(':'), t];
    assert [n] + [SymTok('}'), SymTok(':'), t] == [n, SymTok('}'), SymTok(':'), t];
    assert name + " : " + w == name + ([' '] + ([':'] + ([' '] + w)));
    assert "- " + name + " : " + w == ['-'] + ([' '] + (name + ([' '] + ([':'] + ([' '] + w)))));
    assert "{ " + name + " } : " + w == ['{'] + ([' '] + (name + ([' '] + (['}'] + ([' '] + ([':'] + ([' '] + w)))))));
  }

  lemma WrittenOne(t: Token)
    ensures Write([t]) == WriteToken(t)
  {
  }

  lemma WrittenTwo(t: Token, rest: seq<Token>)
    requires rest != []
    ensures Write([t] + rest) == WriteToken(t) + ([' '] + Write(rest))
  {
    assert ([t] + rest)[1..] == rest;
  }

  // ----- The other constructs -----

  const START := Bound([""], [])

  function Keywords(a: string, b: string): string {
    Quotes(a) + " " + Quotes(b)
  }

  lemma TwoKeywords(a: string, b: string)
    requires IsTerm(a) && IsTerm(b)
    ensures QuotedTexts([a, b]) == [Quotes(a), Quotes(b)] && JoinTexts(QuotedTexts([a, b])) == Keywords(a, b)
  {
    WordHasNoQuotes(a);
    WordHasNoQuotes(b);
    NothingToEscape(a);
    NothingToEscape(b);
    assert [a, b][..1] == [a] && [a][..0] == [];
    assert QuotedTexts([a]) == [Quotes(a)];
    assert [Quotes(a), Quotes(b)][..1] == [Quotes(a)];
    assert JoinTexts([Quotes(a)]) == Quotes(a);
  }

  /** Two words and an operator between them; without one both must match. */
  lemma {:induction false} OperatorsCompile(a: string, b: string)
    requires IsTerm(a) && IsTerm(b) && a != "NEAR"
    ensures var (x, y) := (Match(2, Quotes(a), Columns(20, 5, 1, 1)), Match(3, Quotes(b), Columns(20, 5, 1, 1)));
            var (s, t) := (Token(a, false), Token(b, false));
            var args := [Keywords(a, b), Quotes(a), Quotes(b)];
            && CompileTokens([s, Token("OR", false), t]) == Some(Compiled(Or(x, y), args))
            && CompileTokens([s, Token("AND", false), t]) == Some(Compiled(And(x, y), args))
            && CompileTokens([s, Token("NOT", false), t]) == Some(Compiled(AndNot(x, y), args))
            && CompileTokens([s, t]) == Some(Compiled(And(x, y), args))
  {
    hide CompileTokens;
    forall level: nat | level <= 3
      ensures CompileTokens([Token(a, false)] + (OperatorAt(level) + [Token(b, false)])) ==
              Some(Compiled(Combined(level, Match(2, Quotes(a), ALL_COLUMNS), Match(3, Quotes(b), ALL_COLUMNS)), [Keywords(a, b), Quotes(a), Quotes(b)]))
    {
      OperatorCompiles(level, a, b);
    }
    var (s, t) := (Token(a, false), Token(b, false));
    assert [s] + (OperatorAt(0) + [t]) == [s, OR_TOKEN, t] && [s] + (OperatorAt(1) + [t]) == [s, AND_TOKEN, t];
    assert [s] + (OperatorAt(2) + [t]) == [s, NOT_TOKEN, t] && [s] + (OperatorAt(3) + [t]) == [s, t];
    assert Combined(0, Match(2, Quotes(a), ALL_COLUMNS), Match(3, Quotes(b), ALL_COLUMNS)).Or?;
  }

  lemma {:induction false} OperatorCompiles(level: nat, a: string, b: string)
    requires IsTerm(a) && IsTerm(b) && a != "NEAR" && level <= 3
    ensures CompileTokens([Token(a, false)] + (OperatorAt(level) + [Token(b, false)])) ==
            Some(Compiled(Combined(level, Match(2, Quotes(a), ALL_COLUMNS), Match(3, Quotes(b), ALL_COLUMNS)), [Keywords(a, b), Quotes(a), Quotes(b)]))
  {
    hide CompileTokens;
    var g := Operands(level, Word(a), Word(b));
    WordForm(a);
    WordForm(b);
    TwoWordsAreClean(level, a, b);
    CompileReadsBack(g);
    TwoKeywords(a, b);
    TwoWordsTranslated(level, a, b);
  }

  lemma {:induction false} TwoWordsAreClean(level: nat, a: string, b: string)
    requires IsTerm(a) && IsTerm(b) && a != "NEAR" && level <= 3
    ensures var g := Operands(level, Word(a), Word(b));
            Fits(g, 0) && Clean(g, []) && Apart(g, []) && Spell(g) == [Token(a, false)] + (OperatorAt(level) + [Token(b, false)])
  {
    WordForm(a);
    WordForm(b);
    WordHasNoQuotes(b);
    var behind := OperatorAt(level) + (Spell(Word(b)) + []);
    assert behind[0] == if level < 3 then OperatorAt(level)[0] else Token(b, false);
    assert behind[0].text != ":";
    assert (Spell(Word(a)) + behind)[0] == Token(a, false) && (Spell(Word(a)) + behind)[1] == behind[0];
  }

  lemma {:induction false} TwoWordsTranslated(level: nat, a: string, b: string)
    requires IsTerm(a) && IsTerm(b) && level <= 3
    ensures var g := Operands(level, Word(a), Word(b));
            Fits(g, 0) && Translated(TreeOf(g)) ==
            Compiled(Combined(level, Match(2, Quotes(a), ALL_COLUMNS), Match(3, Quotes(b), ALL_COLUMNS)), [Keywords(a, b), Quotes(a), Quotes(b)])
  {
    WordForm(a);
    WordForm(b);
    TwoKeywords(a, b);
    hide Quotes, Keywords, Escape, GroongaQuote, IsTerm, QuotedTexts, JoinTexts;
    var l, r := TreeOf(Word(a)), TreeOf(Word(b));
    var mid := Bound([""] + [Quotes(a)], [] + [a]);
    assert Emit(l, ALL_COLUMNS, START) == (Match(2, Quotes(a), ALL_COLUMNS), mid);
    assert Emit(r, ALL_COLUMNS, mid) == (Match(3, Quotes(b), ALL_COLUMNS), Bound(mid.args + [Quotes(b)], mid.keywords + [b]));
    assert mid.args + [Quotes(b)] == ["", Quotes(a), Quotes(b)] && mid.keywords + [b] == [a, b];
    ExpectedOfOperands(Operands(level, Word(a), Word(b)), ALL_COLUMNS, START, []);
    hide Emit, Combined;
  }

  predicate HasLetter(w: string) {
    exists i :: 0 <= i < |w| && ('a' <= w[i] <= 'z' || 'A' <= w[i] <= 'Z')
  }

  predicate HasDigit(w: string) {
    exists i :: 0 <= i < |w| && '0' <= w[i] <= '9'
  }

  predicate IsAscii(w: string) {
    forall i :: 0 <= i < |w| ==> w[i] as int < 128
  }

  lemma MixedByText(w: string)
    ensures IsMixed(w) <==> !IsAscii(w) || (HasLetter(w) && HasDigit(w))
  {
    assert forall i :: 0 <= i < |w| ==> w[i] in w;
  }

  lemma OneKeyword(text: string)
    requires '"' !in text && '\\' !in text
    ensures JoinTexts(QuotedTexts([text])) == Quotes(text)
  {
    NothingToEscape(text);
    assert [text][..0] == [] && QuotedTexts([]) == [];
    assert QuotedTexts([text]) == [Quotes(text)] && JoinTexts([Quotes(text)]) == Quotes(text);
  }

  /** One phrase, anchored or not. */
  lemma {:induction false} PhraseTranslated(parts: seq<Part>, anchored: bool, text: string, q: string, cols: Columns)
    requires IsPhrase(parts) && PhraseText(parts) == text && PhraseQuery(parts[0].starred, text) == q && '"' !in text && '\\' !in text
    ensures var (e, bound) := Emit(Term(parts, anchored), cols, START);
            && FillFirst(bound) == (if anchored then [Quotes(text), q, text] else [Quotes(text), q])
            && e == if !anchored then Match(2, q, cols) else if HasColumn(cols) then And(Match(2, q, cols), StartsWith(3, text, cols)) else False
  {
    hide PhraseQuery, PhraseText, IsPhrase, Escape;
    OneKeyword(text);
    assert [] + [text] == [text] && [""] + [q] == ["", q] && ["", q] + [text] == ["", q, text];
  }

  /** A starred word is searched as a bare prefix, unless letters and digits or other scripts in it make the index split it. */
  lemma {:induction false} StarredWordCompiles(w: string)
    requires IsTerm(w)
    ensures var q := if IsAscii(w) && !(HasLetter(w) && HasDigit(w)) then w + "*" else Quotes(w);
            CompileTokens([Token(w, false), Token("*", false)]) == Some(Compiled(Match(2, q, Columns(20, 5, 1, 1)), [Quotes(w), q]))
  {
    hide CompileTokens, IsMixed, Emit, Escape;
    var parts := [Part(w, false, true)];
    var g := Words(parts, false);
    MixedByText(w);
    WordHasNoQuotes(w);
    NothingToEscape(w);
    assert PhraseTokens(parts) == [Token(w, false), SymTok('*')] && PhraseText(parts) == w;
    assert Spell(g) == [Token(w, false), Token("*", false)] && Spell(g) + [] == Spell(g);
    CompileReadsBack(g);
    PhraseTranslated(parts, false, w, PhraseQuery(true, w), ALL_COLUMNS);
  }

  /** Words joined by a plus are one phrase. */
  lemma {:induction false} JoinedWordsCompile(a: string, b: string)
    requires IsTerm(a) && IsTerm(b)
    ensures var q := Quotes(a + " " + b);
            CompileTokens([Token(a, false), Token("+", false), Token(b, false)]) == Some(Compiled(Match(2, q, Columns(20, 5, 1, 1)), [q, q]))
  {
    hide CompileTokens, Emit, Escape, PhraseQuery;
    var text, parts := a + " " + b, [Part(a, false, false), Part(b, false, false)];
    var g := Words(parts, false);
    TwoPartsSpelled(a, b);
    WordHasNoQuotes(a);
    WordHasNoQuotes(b);
    NothingToEscape(text);
    CompileReadsBack(g);
    PhraseTranslated(parts, false, text, Quotes(text), ALL_COLUMNS);
    var r := CompileTokens(Spell(g));
    assert r == Some(Compiled(Match(2, Quotes(text), ALL_COLUMNS), [Quotes(text), Quotes(text)]));
  }

  lemma TwoPartsSpelled(a: string, b: string)
    requires IsTerm(a) && IsTerm(b)
    ensures var parts := [Part(a, false, false), Part(b, false, false)];
            && Spell(Words(parts, false)) == [Token(a, false), Token("+", false), Token(b, false)] && PhraseText(parts) == a + " " + b
            && IsPhrase(parts) && Clean(Words(parts, false), []) && Apart(Words(parts, false), [])
            && PhraseQuery(false, a + " " + b) == GroongaQuote(a + " " + b)
  {
    var p, r := Part(a, false, false), Part(b, false, false);
    assert [p, r][1..] == [r] && PhraseTokens([r]) == [Token(b, false)] && PhraseText([r]) == b;
    assert PhraseTokens([p, r]) == [Token(a, false), SymTok('+'), Token(b, false)];
    assert Spell(Words([p, r], false)) + [] == [Token(a, false), SymTok('+'), Token(b, false)];
  }

  /** An anchored word must also begin one of the searched columns; behind a filter that leaves none, nothing is found. */
  lemma {:induction false} AnchoredWordCompiles(exclude: bool, names: seq<Token>, braces: bool, w: string)
    requires IsTerm(w) && names != [] && (!braces ==> |names| == 1) && forall n :: n in names ==> IsColumnName(n)
    ensures var cols := Columns(Left(names, exclude, "title", 20), Left(names, exclude, "headings", 5),
                                Left(names, exclude, "content", 1), Left(names, exclude, "pageid", 1));
            var r := CompileTokens(FilterTokens(exclude, names, braces) + [Token("^", false), Token(w, false)]);
            && r.Some? && r.value.args == [Quotes(w), Quotes(w), w]
            && forall m: Interpretation :: Eval(r.value.expr, r.value.args, m) <==>
                 && m.matches(Quotes(w), cols)
                 && (|| (cols.title > 0 && m.startsWith(0, w)) || (cols.headings > 0 && m.startsWith(1, w))
                     || (cols.content > 0 && m.startsWith(2, w)) || (cols.pageId > 0 && m.startsWith(3, w)))
  {
    hide Left, Mentions, CompileTokens, FilterTokens, IsColumnName, Emit, Escape, PhraseQuery, Eval;
    var parts := [Part(w, false, false)];
    var body := Words(parts, true);
    var g := Restricted(exclude, names, braces, body);
    AnchoredWordForm(w);
    CompileReadsBack(g);
    FilterLeavesColumns(names, exclude, braces, TreeOf(body), ALL_COLUMNS, START);
    var cols := LeftOf(names, exclude, ALL_COLUMNS);
    PhraseTranslated(parts, true, w, Quotes(w), cols);
    var r := CompileTokens(Spell(g)).value;
    forall m: Interpretation
      ensures Eval(r.expr, [Quotes(w), Quotes(w), w], m) <==>
              m.matches(Quotes(w), cols)
              && (|| (cols.title > 0 && m.startsWith(0, w)) || (cols.headings > 0 && m.startsWith(1, w))
                  || (cols.content > 0 && m.startsWith(2, w)) || (cols.pageId > 0 && m.startsWith(3, w)))
    {
      AnchoredMeans(w, cols, m);
    }
  }

  lemma AnchoredWordForm(w: string)
    requires IsTerm(w)
    ensures var body := Words([Part(w, false, false)], true);
            && Fits(body, 4) && Spell(body) == [Token("^", false), Token(w, false)] && Clean(body, []) && Apart(body, [])
            && PhraseText([Part(w, false, false)]) == w && PhraseQuery(false, w) == Quotes(w) && '"' !in w && '\\' !in w
  {
    WordHasNoQuotes(w);
    NothingToEscape(w);
    var body := Words([Part(w, false, false)], true);
    assert PhraseTokens([Part(w, false, false)]) == [Token(w, false)];
    assert Spell(body) + [] == [SymTok('^'), Token(w, false)];
  }

  lemma AnchoredMeans(w: string, cols: Columns, m: Interpretation)
    ensures var e := if HasColumn(cols) then And(Match(2, Quotes(w), cols), StartsWith(3, w, cols)) else False;
            Eval(e, [Quotes(w), Quotes(w), w], m) <==>
            m.matches(Quotes(w), cols)
            && (|| (cols.title > 0 && m.startsWith(0, w)) || (cols.headings > 0 && m.startsWith(1, w))
                || (cols.content > 0 && m.startsWith(2, w)) || (cols.pageId > 0 && m.startsWith(3, w)))
  {
  }

  // ----- Numbers -----

  lemma TenInDigits()
    ensures Decimal(10) == "10" && DigitsValue("10") == 10
  {
    assert Decimal(1) == "1" && "10"[..1] == "1" && "1"[..0] == "";
  }

  lemma {:induction false} ZerosHaveNoValue(zeros: string)
    requires forall i :: 0 <= i < |zeros| ==> zeros[i] == '0'
    ensures DigitsValue(zeros) == 0
  {
    if zeros != "" {
      ZerosHaveNoValue(zeros[..|zeros| - 1]);
    }
  }

  lemma {:induction false} ZerosDoNotCount(zeros: string, digits: string)
    requires (forall i :: 0 <= i < |zeros| ==> zeros[i] == '0') && AllDigits(digits)
    ensures AllDigits(zeros + digits) && DigitsValue(zeros + digits) == DigitsValue(digits)
    decreases |digits|
  {
    if digits == "" {
      assert zeros + digits == zeros;
      ZerosHaveNoValue(zeros);
    } else {
      var init := digits[..|digits| - 1];
      ZerosDoNotCount(zeros, init);
      assert (zeros + digits)[..|zeros + digits| - 1] == zeros + init;
    }
  }

  lemma DigitsAreRead(digits: string)
    requires AllDigits(digits) && digits != ""
    ensures var n: int := DigitsValue(digits);
            Atoi(digits) == if n <= 9_223_372_036_854_775_807 then Some(n) else None
  {
    assert '0' <= digits[0] <= '9';
  }

  lemma SignedAreRead(sign: char, digits: string)
    requires sign in {'+', '-'} && AllDigits(digits) && digits != ""
    ensures var n: int := DigitsValue(digits);
            Atoi([sign] + digits) ==
            if sign == '-' then (if n <= 9_223_372_036_854_775_808 then Some(-n) else None)
            else if n <= 9_223_372_036_854_775_807 then Some(n) else None
  {
    assert ([sign] + digits)[1..] == digits;
  }

  /** A distance is read with or without a sign and leading zeros, within the range of 64-bit numbers. */
  lemma {:induction false} NumberIsRead(sign: string, zeros: string, n: nat)
    requires sign in {"", "+", "-"} && forall i :: 0 <= i < |zeros| ==> zeros[i] == '0'
    ensures var m: int := n;
            Atoi(sign + zeros + Decimal(n)) ==
            if sign == "-" then (if m <= 9_223_372_036_854_775_808 then Some(-m) else None)
            else if m <= 9_223_372_036_854_775_807 then Some(m) else None
  {
    hide Atoi, DigitsValue, Decimal;
    var digits := zeros + Decimal(n);
    ZerosDoNotCount(zeros, Decimal(n));
    DecimalReadBack(n);
    Assoc(sign, zeros, Decimal(n));
    if sign == "" {
      assert sign + digits == digits;
      DigitsAreRead(digits);
    } else {
      assert sign == [sign[0]];
      SignedAreRead(sign[0], digits);
    }
  }

  /** Nothing else is a number. */
  lemma OnlyDigitsAreRead(s: string)
    ensures var digits := if s != "" && s[0] in {'+', '-'} then s[1..] else s;
            Atoi(s).Some? ==> digits != "" && forall i :: 0 <= i < |digits| ==> digits[i] in "0123456789"
  {
  }

  /** Two words near each other: the distance, 10 without one, and the quoted words, quoted once more. */
  lemma {:induction false} NearWordsCompile(a: string, b: string, distance: Option<nat>)
    requires IsTerm(a) && IsTerm(b) && (distance.Some? ==> distance.value <= MAX_INT)
    ensures var inner := "\\\"" + a + "\\\" \\\"" + b + "\\\"";
            var q := "*NP" + (if distance.Some? then Decimal(distance.value) else "10") + Quotes(inner);
            CompileTokens([Token("NEAR", false), Token("(", false), Token(a, false), Token(b, false)] +
                          (if distance.Some? then [Token(",", false), Token(Decimal(distance.value), false)] else []) + [Token(")", false)]) ==
            Some(Compiled(Match(2, q, Columns(20, 5, 1, 1)), [Keywords(a, b), q]))
  {
    hide CompileTokens, Decimal, Quotes, Keywords, Fits, Spell, Clean, Apart, TreeOf, Translated;
    var spelled := if distance.Some? then Some(Token(Decimal(distance.value), false)) else None;
    var g := Nearby(SymTok('('), [[Part(a, false, false)], [Part(b, false, false)]], spelled);
    TenInDigits();
    NearForm(a, b, distance);
    CompileReadsBack(g);
    NearWordsTranslated(a, b, if distance.Some? then distance.value else 10, TreeOf(g));
  }

  lemma NearForm(a: string, b: string, distance: Option<nat>)
    requires IsTerm(a) && IsTerm(b) && (distance.Some? ==> distance.value <= MAX_INT)
    ensures var terms := [[Part(a, false, false)], [Part(b, false, false)]];
            var spelled := if distance.Some? then Some(Token(Decimal(distance.value), false)) else None;
            var g := Nearby(SymTok('('), terms, spelled);
            && Fits(g, 0) && Clean(g, []) && Apart(g, []) && TreeOf(g).Near? && WellFormed(TreeOf(g)) && TreeOf(g).terms == terms
            && Distance(TreeOf(g).distance) == (if distance.Some? then distance.value else 10)
            && Spell(g) == [Token("NEAR", false), Token("(", false), Token(a, false), Token(b, false)] +
                           (if distance.Some? then [Token(",", false), Token(Decimal(distance.value), false)] else []) + [Token(")", false)]
  {
    if distance.Some? {
      AtoiOfDecimal(distance.value);
      DecimalIsWritable(distance.value);
    }
    hide Decimal, Atoi;
    NearWordsSpelled(a, b);
    assert [NEAR_TOKEN, SymTok('(')] + [Token(a, false), Token(b, false)] == [NEAR_TOKEN, SymTok('('), Token(a, false), Token(b, false)];
  }

  lemma {:induction false} NearWordsTranslated(a: string, b: string, n: nat, q: Query)
    requires IsTerm(a) && IsTerm(b) && q.Near? && WellFormed(q)
    requires q.terms == [[Part(a, false, false)], [Part(b, false, false)]] && Distance(q.distance) == n
    ensures var inner := "\\\"" + a + "\\\" \\\"" + b + "\\\"";
            var text := "*NP" + Decimal(n) + Quotes(inner);
            Translated(q) == Compiled(Match(2, text, ALL_COLUMNS), [Keywords(a, b), text])
  {
    hide TermsTexts, Escape, Decimal, QuotedTexts, JoinTexts, Quotes, Keywords;
    NearWordsSpelled(a, b);
    TwoKeywords(a, b);
    EscapedKeywords(a, b);
    assert [] + [a, b] == [a, b];
  }

  lemma NearWordsSpelled(a: string, b: string)
    ensures var terms := [[Part(a, false, false)], [Part(b, false, false)]];
            TermsTokens(terms) == [Token(a, false), Token(b, false)] && TermsTexts(terms) == [a, b]
  {
    var p, r := [Part(a, false, false)], [Part(b, false, false)];
    assert [p, r][1..] == [r] && [r][1..] == [];
    assert PhraseTokens(p) == [Token(a, false)] && PhraseTokens(r) == [Token(b, false)];
    assert TermsTokens([r]) == [Token(b, false)] && TermsTexts([r]) == [b];
  }

  lemma {:induction false} EscapeOfBoth(s: string, t: string)
    ensures Escape(s + t) == Escape(s) + Escape(t)
  {
    if s == "" {
      assert s + t == t;
    } else {
      assert (s + t)[1..] == s[1..] + t;
      EscapeOfBoth(s[1..], t);
    }
  }

  lemma EscapedQuotes(w: string)
    requires IsTerm(w)
    ensures Escape(Quotes(w)) == "\\\"" + w + "\\\""
  {
    WordHasNoQuotes(w);
    NothingToEscape(w);
    EscapeOfBoth(['"'], w);
    EscapeOfBoth(['"'] + w, ['"']);
    assert ['"'][1..] == "";
    assert Escape(['"']) == "\\\"";
  }

  lemma EscapedKeywords(a: string, b: string)
    requires IsTerm(a) && IsTerm(b)
    ensures GroongaQuote(Keywords(a, b)) == Quotes("\\\"" + a + "\\\" \\\"" + b + "\\\"")
  {
    hide Escape, Quotes;
    EscapedQuotes(a);
    EscapedQuotes(b);
    NothingToEscape(" ");
    EscapeOfBoth(Quotes(a), " ");
    EscapeOfBoth(Quotes(a) + " ", Quotes(b));
    Rejoined(a, b);
    QuotesOf(Keywords(a, b));
  }

  lemma Rejoined(a: string, b: string)
    ensures ("\\\"" + a + "\\\"") + " " + ("\\\"" + b + "\\\"") == "\\\"" + a + "\\\" \\\"" + b + "\\\""
  {
    assert "\\\" \\\"" == "\\\"" + " " + "\\\"";
  }

  lemma QuotesOf(s: string)
    ensures GroongaQuote(s) == Quotes(Escape(s))
  {
  }
}
