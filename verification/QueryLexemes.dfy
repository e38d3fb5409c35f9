/**
 How a search query falls into tokens, by the text alone (tokenizeQuery in backend/internal/search/postgres_query.go): which
 characters make words, which stand for themselves, and that a text is tokenized exactly as the one list it spells.
 */
module QueryLexemes {
  import opened Wrappers
  import opened Text
  import opened QueryTokens

  // ----- Characters, by their code points -----

  predicate IsBlank(c: char) {
    var n := c as int;
    9 <= n <= 13 || 0x2000 <= n <= 0x200A || n in {32, 0x85, 0xA0, 0x1680, 0x2028, 0x2029, 0x202F, 0x205F, 0x3000}
  }

  predicate IsMark(c: char) {
    c in "(){}:*+,-^"
  }

  /** Digits, letters, the underscore, the substitute character, and everything beyond ASCII that is not blank. */
  predicate IsLetter(c: char) {
    var n := c as int;
    48 <= n <= 57 || 65 <= n <= 90 || 97 <= n <= 122 || n in {26, 95} || (n >= 128 && !IsBlank(c))
  }

  lemma ClassesByCode(c: char)
    ensures IsSpace(c) <==> IsBlank(c)
    ensures c in SPECIAL <==> IsMark(c)
    ensures IsWordChar(c) && !EndsWord(c) <==> IsLetter(c)
    ensures EndsWord(c) <==> IsBlank(c) || IsMark(c) || c == '"'
  {
  }

  // ----- Tokens, by their text -----

  predicate IsName(t: Token) {
    !t.quoted && t.text != "" && forall i :: 0 <= i < |t.text| ==> IsLetter(t.text[i])
  }

  predicate IsToken(t: Token) {
    t.quoted || IsName(t) || (|t.text| == 1 && IsMark(t.text[0]))
  }

  /** A phrase stands in quotes, with every quote in it doubled. */
  function Lexeme(t: Token): string {
    if t.quoted then ['"'] + DoubleQuotes(t.text) + ['"'] else t.text
  }

  /** The token and the rest, which does not belong to it. */
  predicate Begins(s: string, t: Token, rest: string) {
    && IsToken(t) && s == Lexeme(t) + rest
    && (rest != "" ==> (t.quoted ==> rest[0] != '"') && (IsName(t) ==> !IsLetter(rest[0])))
  }

  predicate AreBlank(s: string) {
    forall i :: 0 <= i < |s| ==> IsBlank(s[i])
  }

  /** n blanks, the token, and the rest. */
  predicate Cuts(s: string, n: nat, t: Token, rest: string) {
    n <= |s| && AreBlank(s[..n]) && Begins(s[n..], t, rest)
  }

  /** The tokens one behind the other, with blanks anywhere between them. */
  ghost predicate Spells(s: string, ts: seq<Token>)
    decreases |ts|
  {
    if ts == [] then AreBlank(s)
    else exists n: nat, rest: string :: Cuts(s, n, ts[0], rest) && Spells(rest, ts[1..])
  }

  // ----- What is spelled is read -----

  lemma BlanksBehind(s: string, n: nat)
    requires 0 < n <= |s| && AreBlank(s[..n])
    ensures IsBlank(s[0]) && AreBlank(s[1..][..n - 1]) && s[1..][n - 1..] == s[n..]
  {
    assert s[0] == s[..n][0];
    assert s[1..][..n - 1] == s[..n][1..];
  }

  lemma {:induction false} BlanksAreSkipped(s: string, n: nat)
    requires n <= |s| && AreBlank(s[..n])
    ensures Tokens(s) == Tokens(s[n..])
    decreases n
  {
    if n > 0 {
      BlanksBehind(s, n);
      ClassesByCode(s[0]);
      BlanksAreSkipped(s[1..], n - 1);
    } else {
      assert s[0..] == s;
    }
  }

  lemma CutStarts(s: string, n: nat, t: Token, rest: string)
    requires Cuts(s, n, t, rest)
    ensures s != "" && (IsBlank(s[0]) || IsMark(s[0]) || s[0] == '"' || IsLetter(s[0]))
  {
    hide IsBlank, IsMark, IsLetter;
    if n > 0 {
      assert s[..n][0] == s[0];
    } else {
      assert s[0..] == s && Lexeme(t)[0] == s[0];
    }
  }

  lemma SpelledStarts(s: string, ts: seq<Token>)
    requires Spells(s, ts) && s != "" && !IsLetter(s[0])
    ensures EndsWord(s[0])
  {
    hide Cuts, IsBlank, IsMark, IsLetter, EndsWord;
    ClassesByCode(s[0]);
    if ts != [] {
      var n: nat, rest: string :| Cuts(s, n, ts[0], rest) && Spells(rest, ts[1..]);
      CutStarts(s, n, ts[0], rest);
    }
  }

  lemma PhraseIsRead(t: Token, rest: string)
    requires t.quoted && (rest == "" || rest[0] != '"')
    ensures Tokens(Lexeme(t) + rest) == Prepend(t, Tokens(rest))
  {
    hide Tokens, ClosePhrase;
    ClosePhraseOfDoubled(t.text, rest);
    TokensOfPhrase(DoubleQuotes(t.text) + ['"'] + rest, t.text, rest);
    assert Lexeme(t) + rest == ['"'] + (DoubleQuotes(t.text) + ['"'] + rest);
  }

  lemma NameIsRead(t: Token, rest: string)
    requires IsName(t) && (rest == "" || EndsWord(rest[0]))
    ensures Tokens(t.text + rest) == Prepend(t, Tokens(rest))
  {
    hide ClosePhrase, IsSpace, EndsWord, IsWordChar, IsLetter;
    forall c | c in t.text
      ensures IsWordChar(c) && !EndsWord(c)
    {
      ClassesByCode(c);
    }
    TakeWordOfWord(t.text, rest);
    var s := t.text + rest;
    assert s[0] == t.text[0] && s[0] in t.text;
    NoWordEnd(s[0]);
    assert s[|t.text|..] == rest;
  }

  lemma NoWordEnd(c: char)
    requires !EndsWord(c)
    ensures !IsSpace(c) && c != '"' && c !in SPECIAL
  {
  }

  lemma MarkIsRead(t: Token, rest: string)
    requires !t.quoted && |t.text| == 1 && IsMark(t.text[0])
    ensures Tokens(t.text + rest) == Prepend(t, Tokens(rest))
  {
    assert t.text == [t.text[0]];
    TokensOfSpecial(t.text[0], rest);
  }

  lemma OneIsRead(s: string, t: Token, rest: string, ts: seq<Token>)
    requires Begins(s, t, rest) && Spells(rest, ts)
    ensures Tokens(s) == Prepend(t, Tokens(rest))
  {
    hide Tokens, Spells, IsLetter, IsMark, DoubleQuotes;
    if t.quoted {
      PhraseIsRead(t, rest);
    } else if IsName(t) {
      if rest != "" {
        SpelledStarts(rest, ts);
      }
      NameIsRead(t, rest);
    } else {
      MarkIsRead(t, rest);
    }
  }

  lemma {:induction false} SpelledIsRead(s: string, ts: seq<Token>)
    requires Spells(s, ts)
    ensures Tokens(s) == Some(ts)
    decreases |ts|
  {
    if ts == [] {
      assert s[..|s|] == s && s[|s|..] == "";
      BlanksAreSkipped(s, |s|);
    } else {
      hide Begins, Tokens, AreBlank;
      var n: nat, rest: string :| Cuts(s, n, ts[0], rest) && Spells(rest, ts[1..]);
      BlanksAreSkipped(s, n);
      OneIsRead(s[n..], ts[0], rest, ts[1..]);
      SpelledIsRead(rest, ts[1..]);
      assert ts == [ts[0]] + ts[1..];
    }
  }

  // ----- What is read is spelled -----

  lemma {:induction false} PhraseIsSpelled(s: string)
    requires ClosePhrase(s).Some?
    ensures var l := ClosePhrase(s).value;
            s == DoubleQuotes(l.text) + ['"'] + l.rest && (l.rest == "" || l.rest[0] != '"')
  {
    var l := ClosePhrase(s).value;
    if s[0] != '"' {
      PhraseIsSpelled(s[1..]);
      DoubledMore(s[0], l.text[1..], s, s[1..], l.rest);
    } else if |s| > 1 && s[1] == '"' {
      PhraseIsSpelled(s[2..]);
      DoubledMore('"', l.text[1..], s, s[2..], l.rest);
    } else {
      assert s == "" + ['"'] + s[1..];
    }
  }

  lemma DoubledMore(c: char, text: string, s: string, tail: string, rest: string)
    requires tail == DoubleQuotes(text) + ['"'] + rest && s == (if c == '"' then ['"', '"'] else [c]) + tail
    ensures s == DoubleQuotes([c] + text) + ['"'] + rest
  {
    assert ([c] + text)[1..] == text;
    var lead := if c == '"' then ['"', '"'] else [c];
    Assoc(lead, DoubleQuotes(text) + ['"'], rest);
    Assoc(lead, DoubleQuotes(text), ['"']);
  }

  lemma MoreBlank(s: string, ts: seq<Token>)
    requires s != "" && IsBlank(s[0]) && Spells(s[1..], ts)
    ensures Spells(s, ts)
  {
    hide Begins, IsBlank;
    if ts == [] {
      assert forall i :: 0 < i < |s| ==> s[i] == s[1..][i - 1];
    } else {
      var n: nat, rest: string :| Cuts(s[1..], n, ts[0], rest) && Spells(rest, ts[1..]);
      CutOneMore(s, n, ts[0], rest);
    }
  }

  lemma CutOneMore(s: string, n: nat, t: Token, rest: string)
    requires s != "" && IsBlank(s[0]) && Cuts(s[1..], n, t, rest)
    ensures Cuts(s, n + 1, t, rest)
  {
    hide Begins, IsBlank;
    assert s[1..][n..] == s[n + 1..];
    assert s[..n + 1] == [s[0]] + s[1..][..n];
  }

  lemma OneMore(s: string, t: Token, rest: string, ts: seq<Token>)
    requires Begins(s, t, rest) && Spells(rest, ts)
    ensures Spells(s, [t] + ts)
  {
    hide Begins;
    assert s[0..] == s && s[..0] == "";
    assert ([t] + ts)[1..] == ts;
    assert Cuts(s, 0, ([t] + ts)[0], rest);
  }

  lemma PhraseBegins(s: string)
    requires s != "" && s[0] == '"' && ClosePhrase(s[1..]).Some?
    ensures var l := ClosePhrase(s[1..]).value; Begins(s, Token(l.text, true), l.rest)
  {
    hide ClosePhrase;
    PhraseIsSpelled(s[1..]);
    var l := ClosePhrase(s[1..]).value;
    Assoc(['"'], DoubleQuotes(l.text) + ['"'], l.rest);
    Assoc(['"'], DoubleQuotes(l.text), ['"']);
    assert s == ['"'] + s[1..];
  }

  lemma {:induction false} TakeWordIsPrefix(s: string)
    ensures TakeWord(s) <= s && (|TakeWord(s)| < |s| ==> EndsWord(s[|TakeWord(s)|]))
    ensures forall c :: c in TakeWord(s) ==> !EndsWord(c)
  {
    if s != "" && !EndsWord(s[0]) {
      TakeWordIsPrefix(s[1..]);
    }
  }

  lemma NameOfLetters(w: string)
    requires w != "" && AllWordChars(w) && forall c :: c in w ==> !EndsWord(c)
    ensures IsName(Token(w, false))
  {
    hide EndsWord, IsWordChar, IsLetter;
    forall i | 0 <= i < |w|
      ensures IsLetter(w[i])
    {
      assert w[i] in w;
      ClassesByCode(w[i]);
    }
  }

  lemma NameBegins(s: string)
    requires s != "" && !EndsWord(s[0]) && AllWordChars(TakeWord(s))
    ensures Begins(s, Token(TakeWord(s), false), s[|TakeWord(s)|..])
  {
    hide *;
    TakeWordIsPrefix(s);
    var w := TakeWord(s);
    NameOfLetters(w);
    if |w| < |s| {
      WordEndIsNoLetter(s[|w|]);
    }
    NameBeginsBy(s, w);
  }

  lemma NameBeginsBy(s: string, w: string)
    requires IsName(Token(w, false)) && w <= s && (|w| < |s| ==> !IsLetter(s[|w|]))
    ensures Begins(s, Token(w, false), s[|w|..])
  {
    hide IsLetter, IsMark;
    assert s == w + s[|w|..];
  }

  lemma WordEndIsNoLetter(c: char)
    requires EndsWord(c)
    ensures !IsLetter(c)
  {
    ClassesByCode(c);
  }

  lemma MarkBegins(s: string)
    requires s != "" && s[0] in SPECIAL
    ensures Begins(s, Token([s[0]], false), s[1..])
  {
    hide IsLetter, IsMark;
    ClassesByCode(s[0]);
    MarkIsNoLetter(s[0]);
  }

  lemma MarkIsNoLetter(c: char)
    requires IsMark(c)
    ensures !IsLetter(c)
  {
  }

  lemma {:induction false} ReadIsSpelled(s: string)
    requires Tokens(s).Some?
    ensures Spells(s, Tokens(s).value)
    decreases |s|
  {
    hide Spells, Begins, ClosePhrase, TakeWord, AllWordChars, IsSpace;
    if s == "" {
      NothingSpelled();
    } else if IsSpace(s[0]) {
      ClassesByCode(s[0]);
      ReadIsSpelled(s[1..]);
      MoreBlank(s, Tokens(s).value);
    } else if s[0] == '"' {
      var l := ClosePhrase(s[1..]).value;
      PhraseBegins(s);
      ReadIsSpelled(l.rest);
      OneMore(s, Token(l.text, true), l.rest, Tokens(l.rest).value);
    } else if s[0] in SPECIAL {
      MarkBegins(s);
      ReadIsSpelled(s[1..]);
      OneMore(s, Token([s[0]], false), s[1..], Tokens(s[1..]).value);
    } else {
      var w := TakeWord(s);
      NameBegins(s);
      ReadIsSpelled(s[|w|..]);
      OneMore(s, Token(w, false), s[|w|..], Tokens(s[|w|..]).value);
    }
  }

  lemma NothingSpelled()
    ensures Spells("", [])
  {
  }

  /** Main result: a query is tokenized to a list if and only if it spells that list, and refused if it spells none. */
  lemma TokensBySpelling(s: string, ts: seq<Token>)
    ensures Tokens(s) == Some(ts) <==> Spells(s, ts)
  {
    if Tokens(s) == Some(ts) {
      ReadIsSpelled(s);
    }
    if Spells(s, ts) {
      SpelledIsRead(s, ts);
    }
  }
}
