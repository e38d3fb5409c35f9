/**
 Plain words in the search box (backend/internal/search/sqlite_index.go, buildFuzzyQuery): words without query syntax are
 searched by prefix, all of them.
 */
module PlainSearch {
  import opened Wrappers
  import opened Text
  import opened QueryTokens
  import opened QueryParser
  import opened QueryMeaning
  import opened QuerySyntax
  import opened QueryReadBack

  // ----- When a query is left as it is, by its text -----

  /** " OR " stands at i, in whatever case. */
  predicate OrAt(q: string, i: nat) {
    i + 4 <= |q| && q[i] == ' ' && q[i + 1] in {'o', 'O'} && q[i + 2] in {'r', 'R'} && q[i + 3] == ' '
  }

  /** " AND " stands at i. */
  predicate AndAt(q: string, i: nat) {
    i + 5 <= |q| && q[i] == ' ' && q[i + 1] in {'a', 'A'} && q[i + 2] in {'n', 'N'} && q[i + 3] in {'d', 'D'} && q[i + 4] == ' '
  }

  predicate HasOperator(q: string) {
    exists i :: 0 <= i < |q| && (OrAt(q, i) || AndAt(q, i))
  }

  predicate HasSpecial(q: string) {
    exists i :: 0 <= i < |q| && q[i] in {'"', '*', '(', ')', ':'}
  }

  lemma {:induction false} SubstringByPlace(s: string, part: string)
    requires part != ""
    ensures HasSubstring(s, part) <==> exists i :: 0 <= i < |s| && part <= s[i..]
  {
    assert s[0..] == s;
    if s != "" {
      SubstringByPlace(s[1..], part);
      assert forall i :: 0 <= i < |s[1..]| ==> s[1..][i..] == s[i + 1..];
      if i :| 0 <= i < |s| && part <= s[i..] {
        assert i > 0 ==> s[1..][i - 1..] == s[i..];
      }
    }
  }

  lemma OperatorByPlace(q: string, i: nat)
    requires i < |q|
    ensures " OR " <= ToUpper(q)[i..] <==> OrAt(q, i)
    ensures " AND " <= ToUpper(q)[i..] <==> AndAt(q, i)
  {
    var u := ToUpper(q);
    assert forall k :: i <= k < |q| ==> u[i..][k - i] == u[k];
    assert OrAt(q, i) ==> u[i..][..4] == " OR ";
    assert AndAt(q, i) ==> u[i..][..5] == " AND ";
    if " OR " <= u[i..] {
      assert u[i..][..4] == " OR ";
      assert u[i] == ' ' && u[i + 1] == 'O' && u[i + 2] == 'R' && u[i + 3] == ' ';
    }
    if " AND " <= u[i..] {
      assert u[i..][..5] == " AND ";
      assert u[i] == ' ' && u[i + 1] == 'A' && u[i + 2] == 'N' && u[i + 3] == 'D' && u[i + 4] == ' ';
    }
  }

  lemma SpecialByPlace(q: string)
    ensures (exists c :: c in q && c in {'"', '*', '(', ')', ':'}) <==> HasSpecial(q)
  {
    if c :| c in q && c in {'"', '*', '(', ')', ':'} {
      var i :| 0 <= i < |q| && q[i] == c;
    }
    if i :| 0 <= i < |q| && q[i] in {'"', '*', '(', ')', ':'} {
      assert q[i] in q;
    }
  }

  lemma OperatorsByPlace(q: string)
    ensures HasSubstring(ToUpper(q), " OR ") || HasSubstring(ToUpper(q), " AND ") <==> HasOperator(q)
  {
    hide OrAt, AndAt, ToUpper, HasSubstring;
    SubstringByPlace(ToUpper(q), " OR ");
    SubstringByPlace(ToUpper(q), " AND ");
    forall i | 0 <= i < |q|
      ensures " OR " <= ToUpper(q)[i..] <==> OrAt(q, i)
      ensures " AND " <= ToUpper(q)[i..] <==> AndAt(q, i)
    {
      OperatorByPlace(q, i);
    }
  }

  /** A query is left as it is if and only if it has one of five characters, or OR or AND between spaces, in whatever case. */
  lemma SyntaxByText(q: string)
    ensures HasSyntax(q) <==> HasSpecial(q) || HasOperator(q)
  {
    SpecialByPlace(q);
    OperatorsByPlace(q);
  }

  /** A word that buildFuzzyQuery stars: it has none of the characters that make it quote the query. */
  predicate IsPlainWord(w: string) {
    IsWord(w) && '_' !in w
  }

  predicate PlainWords(words: seq<string>) {
    forall i :: 0 <= i < |words| ==> IsPlainWord(words[i])
  }

  predicate NoOperators(words: seq<string>) {
    forall i :: 0 <= i < |words| ==> words[i] !in {"AND", "OR", "NOT"}
  }

  /** The words with a space between two of them. */
  function Spaced(words: seq<string>): string {
    if words == [] then "" else if |words| == 1 then words[0] else words[0] + ([' '] + Spaced(words[1..]))
  }

  function Prefix(word: string): Form {
    Words([Part(word, false, true)], false)
  }

  /** All the words as prefixes, side by side. */
  function AllPrefixes(words: seq<string>): Form
    requires words != []
  {
    if |words| == 1 then Prefix(words[0])
    else Operands(3, AllPrefixes(words[..|words| - 1]), Prefix(words[|words| - 1]))
  }

  function StarTokens(words: seq<string>): seq<Token> {
    if words == [] then [] else [Token(words[0], false), SymTok('*')] + StarTokens(words[1..])
  }

  // ----- The starred words are tokenized word by word -----

  lemma TokensOfStarredWord(w: string, rest: string)
    requires IsWord(w)
    ensures Tokens(w + (['*'] + rest)) == Prepend(Token(w, false), Prepend(SymTok('*'), Tokens(rest)))
  {
    var tail := ['*'] + rest;
    assert w[0] in w;
    TakeWordOfWord(w, tail);
    TokensOfSpecial('*', rest);
    TokensFromWord(w, tail);
  }

  lemma TokensFromWord(w: string, tail: string)
    requires IsWord(w) && TakeWord(w + tail) == w
    ensures Tokens(w + tail) == Prepend(Token(w, false), Tokens(tail))
  {
    assert w[0] in w && (w + tail)[0] == w[0];
    assert (w + tail)[|w|..] == tail;
  }

  lemma {:induction false} TokensOfStarred(words: seq<string>)
    requires PlainWords(words)
    ensures Tokens(Spaced(StarWords(words))) == Some(StarTokens(words))
  {
    assert Tokens("") == Some([]);
    hide Tokens, IsPlainWord;
    if words != [] {
      var w := words[0];
      var rest := if |words| == 1 then "" else [' '] + Spaced(StarWords(words[1..]));
      PlainIsWord(w);
      SpacedStars(words);
      TokensOfStarred(words[1..]);
      TokensOfStarredWord(w, rest);
      assert |words| == 1 ==> words[1..] == [];
      TokensAfterSpace(Spaced(StarWords(words[1..])));
      TwoTokens(w, StarTokens(words[1..]));
    }
  }

  lemma PlainIsWord(w: string)
    requires IsPlainWord(w)
    ensures IsWord(w)
  {
  }

  lemma TwoTokens(w: string, rest: seq<Token>)
    ensures Prepend(Token(w, false), Prepend(SymTok('*'), Some(rest))) == Some([Token(w, false), SymTok('*')] + rest)
  {
    assert [Token(w, false)] + ([SymTok('*')] + rest) == [Token(w, false), SymTok('*')] + rest;
  }

  lemma SpacedStars(words: seq<string>)
    requires words != [] && PlainWords(words)
    ensures Spaced(StarWords(words)) ==
            words[0] + (['*'] + if |words| == 1 then "" else [' '] + Spaced(StarWords(words[1..])))
  {
    StarWordsShape(words);
    hide IsPlainWord, StarWords;
    StarText(words[0], "");
    StarText(words[0], [' '] + Spaced(StarWords(words[1..])));
  }

  lemma StarText(w: string, rest: string)
    ensures w + "*" + rest == w + (['*'] + rest)
    ensures rest == "" ==> w + "*" == w + (['*'] + rest)
  {
    assert "*" == ['*'];
  }

  lemma {:induction false} StarWordsShape(words: seq<string>)
    requires words != [] && PlainWords(words)
    ensures |StarWords(words)| == |words| && StarWords(words)[0] == words[0] + "*" && StarWords(words)[1..] == StarWords(words[1..])
  {
    StarsWord(words[0]);
    if |words| > 1 {
      StarWordsShape(words[1..]);
    }
  }

  lemma StarsWord(w: string)
    requires IsPlainWord(w)
    ensures '*' !in w && IsWord(w)
  {
  }

  // ----- They are the tokens of the tree -----

  lemma {:induction false} StarTokensSnoc(words: seq<string>)
    requires words != []
    ensures StarTokens(words) == StarTokens(words[..|words| - 1]) + [Token(words[|words| - 1], false), SymTok('*')]
  {
    if |words| > 1 {
      StarTokensSnoc(words[1..]);
      assert words[1..][..|words| - 2] == words[..|words| - 1][1..];
    }
  }

  lemma {:induction false} SpellOfPrefixes(words: seq<string>, level: nat)
    requires words != [] && PlainWords(words) && NoOperators(words) && level <= 3
    ensures Fits(AllPrefixes(words), level) && Spell(AllPrefixes(words)) == StarTokens(words)
  {
    var n := |words| - 1;
    StarTokensSnoc(words);
    PrefixFits(words[n]);
    if n > 0 {
      SpellOfPrefixes(words[..n], 3);
      assert Spell(AllPrefixes(words)) == StarTokens(words[..n]) + ([] + Spell(Prefix(words[n])));
    } else {
      assert StarTokens(words[..0]) == [];
    }
  }

  lemma PrefixFits(w: string)
    requires IsPlainWord(w) && w !in {"AND", "OR", "NOT"}
    ensures Spell(Prefix(w)) == [Token(w, false), SymTok('*')] && forall level :: Fits(Prefix(w), level)
  {
  }

  /** No colon follows a word: the star does. */
  lemma {:induction false} PrefixesAreClean(words: seq<string>, rest: seq<Token>)
    requires words != [] && PlainWords(words) && NoOperators(words)
    ensures Clean(AllPrefixes(words), rest) && Apart(AllPrefixes(words), rest)
  {
    var n := |words| - 1;
    PrefixIsClean(words[n], rest);
    if n > 0 {
      PrefixesAreClean(words[..n], [] + (Spell(Prefix(words[n])) + rest));
    }
  }

  lemma PrefixIsClean(w: string, rest: seq<Token>)
    requires IsPlainWord(w) && w !in {"AND", "OR", "NOT"}
    ensures Clean(Prefix(w), rest) && Apart(Prefix(w), rest)
  {
    PrefixFits(w);
    assert ([Token(w, false), SymTok('*')] + rest)[1] == SymTok('*');
  }

  lemma {:induction false} PrefixesMean(words: seq<string>, cols: Columns, m: Interpretation)
    requires words != [] && PlainWords(words) && NoOperators(words) && WellFormed(TreeOf(AllPrefixes(words)))
    ensures Meaning(TreeOf(AllPrefixes(words)), cols, m) <==> forall i :: 0 <= i < |words| ==> m.matches(PhraseQuery(true, words[i]), cols)
  {
    hide PhraseQuery, IsPlainWord, IsPart;
    var n := |words| - 1;
    assert Meaning(TreeOf(Prefix(words[n])), cols, m) == m.matches(PhraseQuery(true, words[n]), cols) by {
      PrefixMeans(words[n], cols, m);
    }
    if n > 0 {
      PrefixesMean(words[..n], cols, m);
    }
  }

  lemma PrefixMeans(w: string, cols: Columns, m: Interpretation)
    requires WellFormed(TreeOf(Prefix(w)))
    ensures Meaning(TreeOf(Prefix(w)), cols, m) == m.matches(PhraseQuery(true, w), cols)
  {
    assert [Part(w, false, true)][0] == Part(w, false, true);
  }

  // ----- What buildFuzzyQuery makes of the words -----

  lemma {:induction false} SpacedChars(words: seq<string>, c: char)
    requires PlainWords(words) && c in Spaced(words)
    ensures c == ' ' || (IsWordChar(c) && !EndsWord(c) && c != '_')
  {
    if |words| == 1 {
      assert IsPlainWord(words[0]);
    } else if |words| > 1 {
      assert IsPlainWord(words[0]);
      if c !in words[0] && c != ' ' {
        SpacedChars(words[1..], c);
      }
    }
  }

  lemma {:induction false} SpacedEdges(words: seq<string>)
    requires words != [] && PlainWords(words)
    ensures var s := Spaced(words); s != "" && !IsSpace(s[0]) && !IsSpace(s[|s| - 1])
  {
    WordEdges(words[0]);
    if |words| > 1 {
      SpacedEdges(words[1..]);
    }
  }

  lemma WordEdges(w: string)
    requires IsPlainWord(w)
    ensures w != "" && !IsSpace(w[0]) && !IsSpace(w[|w| - 1])
  {
    assert w[0] in w && w[|w| - 1] in w;
  }

  lemma {:induction false} FieldsOfSpaced(words: seq<string>)
    requires PlainWords(words)
    ensures Fields(Spaced(words)) == words
  {
    if words != [] {
      var w := words[0];
      var rest := if |words| == 1 then "" else [' '] + Spaced(words[1..]);
      FieldsOfSpaced(words[1..]);
      FirstField(w, rest);
      assert |words| == 1 ==> words[1..] == [] && w + "" == w;
      FieldsAfterSpace(Spaced(words[1..]));
      hide Fields;
      assert words == [w] + words[1..];
    }
  }

  lemma FirstField(w: string, rest: string)
    requires IsPlainWord(w) && (rest == "" || rest[0] == ' ')
    ensures Fields(w + rest) == [w] + Fields(rest)
  {
    WordEdges(w);
    TakeFieldOfWord(w, rest);
    assert (w + rest)[0] == w[0] && (w + rest)[|w|..] == rest;
  }

  lemma FieldsAfterSpace(s: string)
    ensures Fields([' '] + s) == Fields(s)
  {
    assert ([' '] + s)[1..] == s;
  }

  lemma {:induction false} TakesWord(w: string, rest: string)
    requires (forall i :: 0 <= i < |w| ==> !IsSpace(w[i])) && (rest == "" || IsSpace(rest[0]))
    ensures TakeField(w + rest) == w
  {
    if w == "" {
      assert w + rest == rest;
    } else {
      assert (w + rest)[1..] == w[1..] + rest;
      TakesWord(w[1..], rest);
    }
  }

  /** Words are what stands between blanks, of whatever kind and however many. */
  lemma {:induction false} FieldsByText(gap: string, w: string, rest: string)
    requires (forall i :: 0 <= i < |gap| ==> IsSpace(gap[i])) && (forall i :: 0 <= i < |w| ==> !IsSpace(w[i]))
    requires rest == "" || IsSpace(rest[0])
    ensures Fields(gap + w + rest) == (if w == "" then [] else [w]) + Fields(rest)
    decreases |gap|
  {
    hide IsSpace;
    Assoc(gap, w, rest);
    if gap != "" {
      assert (gap + w + rest)[0] == gap[0] && (gap + w + rest)[1..] == gap[1..] + w + rest;
      FieldsByText(gap[1..], w, rest);
    } else if w != "" {
      TakesWord(w, rest);
      var s := w + rest;
      assert gap + w + rest == s && s[0] == w[0] && s[|w|..] == rest;
    } else {
      assert gap + w + rest == rest;
    }
  }

  lemma TakeFieldOfWord(w: string, rest: string)
    requires IsPlainWord(w) && (rest == "" || rest[0] == ' ')
    ensures TakeField(w + rest) == w
  {
    TakeFieldOfText(w, rest);
  }

  lemma {:induction false} TakeFieldOfText(w: string, rest: string)
    requires (forall c :: c in w ==> !EndsWord(c)) && (rest == "" || rest[0] == ' ')
    ensures TakeField(w + rest) == w
  {
    if w == "" {
      assert w + rest == rest;
    } else {
      assert w[0] in w && forall c :: c in w[1..] ==> c in w;
      assert (w + rest)[1..] == w[1..] + rest;
      TakeFieldOfText(w[1..], rest);
    }
  }

  lemma {:induction false} JoinIsSpaced(words: seq<string>)
    ensures JoinTexts(words) == Spaced(words)
  {
    if |words| > 1 {
      JoinIsSpaced(words[1..]);
      JoinCons(words[0], words[1..]);
      assert words == [words[0]] + words[1..];
    }
  }

  lemma {:induction false} JoinCons(w: string, words: seq<string>)
    requires words != []
    ensures JoinTexts([w] + words) == w + ([' '] + JoinTexts(words))
  {
    var n := |words| - 1;
    assert ([w] + words)[..n + 1] == [w] + words[..n];
    if n > 0 {
      JoinCons(w, words[..n]);
      assert w + ([' '] + JoinTexts(words[..n])) + " " + words[n] == w + ([' '] + (JoinTexts(words[..n]) + " " + words[n]));
    } else {
      assert [w] + words[..0] == [w];
      assert w + " " + words[0] == w + ([' '] + words[0]);
    }
  }

  lemma FuzzyStarsWords(words: seq<string>)
    requires words != [] && PlainWords(words) && !HasSyntax(Spaced(words))
    ensures BuildFuzzyQuery(Spaced(words)) == Spaced(StarWords(words))
  {
    var s := Spaced(words);
    SpacedEdges(words);
    assert TrimSpace(s) == s;
    forall c | c in s
      ensures c !in {'-', '_', '+', '#', '/', '.'}
    {
      SpacedChars(words, c);
    }
    FieldsOfSpaced(words);
    JoinIsSpaced(StarWords(words));
  }

  /** What the compiler is given: the trimmed query as it is, or in quotes, or with every word starred. */
  lemma {:induction false} FuzzyByText(lead: string, core: string, trail: string)
    requires (forall i :: 0 <= i < |lead| ==> IsSpace(lead[i])) && (forall i :: 0 <= i < |trail| ==> IsSpace(trail[i]))
    requires core != "" && !IsSpace(core[0]) && !IsSpace(core[|core| - 1])
    ensures HasSpecial(core) || HasOperator(core) ==> BuildFuzzyQuery(lead + core + trail) == core
    ensures !HasSpecial(core) && !HasOperator(core) && HasPunctuation(core) ==>
              BuildFuzzyQuery(lead + core + trail) == ['"'] + core + ['"']
    ensures !HasSpecial(core) && !HasOperator(core) && !HasPunctuation(core) ==>
              BuildFuzzyQuery(lead + core + trail) == JoinTexts(StarWords(Fields(core)))
  {
    TrimByText(lead, core, trail);
    SyntaxByText(core);
  }

  predicate HasPunctuation(q: string) {
    exists c :: c in q && c in {'-', '_', '+', '#', '/', '.'}
  }

  /** A query with punctuation but no syntax is searched as one phrase, its text taken literally. */
  lemma {:induction false} PunctuatedIsOnePhrase(query: string, m: Interpretation)
    requires !HasSpecial(TrimSpace(query)) && !HasOperator(TrimSpace(query)) && HasPunctuation(TrimSpace(query))
    ensures var q, r := TrimSpace(query), CompileText(query);
            r.Some? && (Eval(r.value.expr, r.value.args, m) <==> m.matches(PhraseQuery(false, q), ALL_COLUMNS))
  {
    var q := TrimSpace(query);
    var phrase := Words([Part(q, true, false)], false);
    SyntaxByText(q);
    assert '"' !in q;
    NothingToDouble(q);
    TokensOfQuoted(q, "");
    assert ['"'] + q + ['"'] + "" == ['"'] + q + ['"'];
    PhraseOfText(q);
    CompilePreservesMeaning(phrase, m);
  }

  lemma PhraseOfText(q: string)
    ensures var phrase := Words([Part(q, true, false)], false);
            && Fits(phrase, 0) && Spell(phrase) == [Token(q, true)] && Clean(phrase, []) && Apart(phrase, [])
            && Prepend(Token(q, true), Tokens("")) == Some(Spell(phrase))
  {
    assert IsPart(Part(q, true, false));
    assert [Token(q, true)] + [] == [Token(q, true)];
  }

  lemma {:induction false} NothingToDouble(s: string)
    requires '"' !in s
    ensures DoubleQuotes(s) == s
  {
    if s != "" {
      assert s[0] in s;
      NothingToDouble(s[1..]);
    }
  }

  // ----- Operators between plain words are starred like any word -----

  /** The tokens of the first k words, and of the rest behind them. */
  lemma {:induction false} StarTokensSplit(words: seq<string>, k: nat)
    requires k <= |words|
    ensures StarTokens(words) == StarTokens(words[..k]) + StarTokens(words[k..])
  {
    if k == 0 {
      assert words[..0] == [] && words[0..] == words;
    } else {
      StarTokensSplit(words[1..], k - 1);
      assert words[1..][..k - 1] == words[..k][1..] && words[1..][k - 1..] == words[k..];
    }
  }

  /** A star cannot begin an operand; an operator cannot begin a query. */
  lemma NothingStartsHere(ts: seq<Token>, cols: Columns, bound: Bound)
    requires ts != [] && KindOf(ts[0]) in {Sym('*'), AndOp, OrOp, NotOp} && !ColonAhead(ts)
    ensures ParseImplicit(ts, cols, bound) == None
  {
  }

  /** A query without its first operand. */
  lemma {:induction false} RefusedAtOnce(ts: seq<Token>)
    requires ParseImplicit(ts, ALL_COLUMNS, Bound([""], [])) == None
    ensures CompileTokens(ts) == None
  {
    hide ParseImplicit;
    assert ParseNot(ts, ALL_COLUMNS, Bound([""], [])) == None;
    assert ParseAnd(ts, ALL_COLUMNS, Bound([""], [])) == None;
  }

  /** An operand that cannot be read behind an operator makes the whole query unreadable. */
  lemma {:induction false} RefusedBehindOperator(ts: seq<Token>, left: Parsed)
    requires ParseImplicit(ts, ALL_COLUMNS, Bound([""], [])) == Some(left)
    requires left.rest != [] && KindOf(left.rest[0]) in {AndOp, OrOp, NotOp}
    requires ParseImplicit(left.rest[1..], ALL_COLUMNS, left.bound) == None
    ensures CompileTokens(ts) == None
  {
    hide ParseImplicit;
    var rest := left.rest[1..];
    assert ParseNot(rest, ALL_COLUMNS, left.bound) == None;
    assert ParseAnd(rest, ALL_COLUMNS, left.bound) == None;
    if KindOf(left.rest[0]) == NotOp {
      assert ParseNot(ts, ALL_COLUMNS, Bound([""], [])) == None;
      assert ParseAnd(ts, ALL_COLUMNS, Bound([""], [])) == None;
    } else {
      assert ParseNot(ts, ALL_COLUMNS, Bound([""], [])) == Some(left);
      if KindOf(left.rest[0]) == OrOp {
        assert AndTail(left, ALL_COLUMNS) == Some(left);
        assert ParseAnd(ts, ALL_COLUMNS, Bound([""], [])) == Some(left);
        assert OrTail(left, ALL_COLUMNS) == None;
      } else {
        assert Is(left.rest, AndOp) && left.rest[1..] == rest;
        assert ParseAnd(ts, ALL_COLUMNS, Bound([""], [])) == None;
      }
    }
  }

  predicate IsOperator(w: string) {
    w in {"AND", "OR", "NOT"}
  }

  /** Plain words up to the first operator are read, and then nothing can follow. */
  lemma {:induction false} StopsAtOperator(words: seq<string>, op: string, tail: seq<Token>)
    requires words != [] && PlainWords(words) && NoOperators(words) && IsOperator(op)
    requires tail != [] && tail[0] == SymTok('*') && !ColonAhead(tail)
    ensures CompileTokens(StarTokens(words) + ([Token(op, false)] + tail)) == None
  {
    var g, bound, rest := AllPrefixes(words), Bound([""], []), [Token(op, false)] + tail;
    SpellOfPrefixes(words, 3);
    PrefixesAreClean(words, rest);
    SymKind('*');
    ReadBack(g, 3, ALL_COLUMNS, bound, rest);
    LoopStops(ParseImplicit(StarTokens(words) + rest, ALL_COLUMNS, bound), g, 3, ALL_COLUMNS, bound, rest);
    var (e, more) := Emit(TreeOf(g), ALL_COLUMNS, bound);
    assert rest[1..] == tail;
    NothingStartsHere(tail, ALL_COLUMNS, more);
    RefusedBehindOperator(StarTokens(words) + rest, Parsed(e, more, rest));
  }

  lemma FirstOperator(words: seq<string>) returns (k: nat)
    requires !NoOperators(words)
    ensures k < |words| && IsOperator(words[k]) && NoOperators(words[..k])
  {
    k := 0;
    while !IsOperator(words[k])
      invariant k < |words| && NoOperators(words[..k]) && exists i :: k <= i < |words| && IsOperator(words[i])
      decreases |words| - k
    {
      k := k + 1;
    }
  }

  /** The star behind a word, and what follows it. */
  lemma StarBehind(words: seq<string>)
    requires words != [] && PlainWords(words)
    ensures var ts := StarTokens(words);
            ts[0] == Token(words[0], false) && ts[1..] != [] && ts[1] == SymTok('*') && !ColonAhead(ts) && !ColonAhead(ts[1..])
  {
    var ts := StarTokens(words);
    assert ts[1..] == [SymTok('*')] + StarTokens(words[1..]);
    if |words| > 1 {
      assert IsPlainWord(words[1]) && ts[1..][1].text == words[1];
      assert ':' in ":";
    }
  }

  lemma {:induction false} OperatorWordIsRefused(words: seq<string>)
    requires PlainWords(words) && !NoOperators(words)
    ensures CompileTokens(StarTokens(words)) == None
  {
    var k := FirstOperator(words);
    var ts := StarTokens(words[k..]);
    StarBehind(words[k..]);
    StarTokensSplit(words, k);
    if k == 0 {
      assert words[0..] == words;
      NothingStartsHere(ts, ALL_COLUMNS, Bound([""], []));
      RefusedAtOnce(ts);
    } else {
      assert ts == [Token(words[k], false)] + ts[1..];
      StopsAtOperator(words[..k], words[k], ts[1..]);
      assert StarTokens(words) == StarTokens(words[..k]) + ([Token(words[k], false)] + ts[1..]);
    }
  }

  lemma PlainWordsLackSyntax(words: seq<string>)
    requires words != [] && PlainWords(words) && !HasOperator(Spaced(words))
    ensures !HasSyntax(Spaced(words))
  {
    hide HasSyntax, HasOperator, PlainWords;
    var s := Spaced(words);
    SyntaxByText(s);
    forall i | 0 <= i < |s|
      ensures s[i] !in {'"', '*', '(', ')', ':'}
    {
      SpacedChars(words, s[i]);
    }
  }

  /** Plain words reach the parser starred. */
  lemma PlainWordsCompile(words: seq<string>)
    requires words != [] && PlainWords(words) && !HasSyntax(Spaced(words))
    ensures CompileText(Spaced(words)) == CompileTokens(StarTokens(words))
  {
    hide HasSyntax, PlainWords, Spaced, StarTokens, CompileTokens, Tokens, BuildFuzzyQuery;
    FuzzyStarsWords(words);
    TokensOfStarred(words);
  }

  lemma NoOperatorsByMember(words: seq<string>)
    ensures NoOperators(words) <==> forall w :: w in words ==> w !in {"AND", "OR", "NOT"}
  {
    assert forall i :: 0 <= i < |words| ==> words[i] in words;
  }

  lemma PrefixesCompile(words: seq<string>, m: Interpretation)
    requires words != [] && PlainWords(words) && NoOperators(words)
    ensures var r := CompileTokens(StarTokens(words));
            r.Some? && (Eval(r.value.expr, r.value.args, m) <==>
                        forall i :: 0 <= i < |words| ==> m.matches(PhraseQuery(true, words[i]), ALL_COLUMNS))
  {
    hide CompileTokens, Eval, PhraseQuery, StarTokens, Clean, Apart, Meaning;
    SpellOfPrefixes(words, 0);
    PrefixesAreClean(words, []);
    CompilePreservesMeaning(AllPrefixes(words), m);
    PrefixesMean(words, ALL_COLUMNS, m);
  }

  /**
   Main result for plain words: they compile exactly when none of them is AND, OR or NOT in capitals (an operator is
   starred like any word, and is understood only in a query that has other syntax). The condition is then true exactly
   when every word matches as a prefix in some searched column.
   */
  lemma {:induction false} PlainWordsArePrefixes(words: seq<string>, m: Interpretation)
    requires words != [] && PlainWords(words) && !HasOperator(Spaced(words))
    ensures var r := CompileText(Spaced(words));
            && (r.Some? <==> forall w :: w in words ==> w !in {"AND", "OR", "NOT"})
            && (r.Some? ==> (Eval(r.value.expr, r.value.args, m) <==>
                             forall i :: 0 <= i < |words| ==> m.matches(PhraseQuery(true, words[i]), ALL_COLUMNS)))
  {
    hide CompileText, CompileTokens, HasSyntax, StarTokens;
    PlainWordsLackSyntax(words);
    PlainWordsCompile(words);
    NoOperatorsByMember(words);
    if NoOperators(words) {
      PrefixesCompile(words, m);
    } else {
      OperatorWordIsRefused(words);
    }
  }

  /** The refused families are real: an operator word first, last or between plain words needs no syntax of its own. */
  lemma PlainNotIsRefused(a: string, b: string)
    requires PlainWords([a, b]) && !HasOperator(Spaced([a, "NOT", b]))
    ensures CompileText(Spaced([a, "NOT", b])) == None
  {
    var words := [a, "NOT", b];
    LettersAreWord("NOT");
    assert IsPlainWord([a, b][0]) && IsPlainWord([a, b][1]);
    PlainWordsLackSyntax(words);
    assert !NoOperators(words) by { assert words[1] == "NOT"; }
    FuzzyStarsWords(words);
    TokensOfStarred(words);
    OperatorWordIsRefused(words);
  }
}
