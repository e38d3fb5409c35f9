/** The tokenizer of the search query language: tokenizeQuery in backend/internal/search/postgres_query.go. */
module QueryTokens {
  import opened Wrappers
  import opened Text

  datatype Token = Token(text: string, quoted: bool)

  const SPECIAL: set<char> := {'(', ')', ':', '{', '}', '*', '+', ',', '-', '^'}

  /** What ends a bare word. */
  predicate EndsWord(c: char) {
    IsSpace(c) || c == '"' || c in SPECIAL
  }

  /** ASCII characters a bare word may hold; every other code point is allowed. */
  predicate IsWordChar(c: char) {
    || c as int >= 128 || 'a' <= c <= 'z' || 'A' <= c <= 'Z' || '0' <= c <= '9' || c == '_' || c as int == 26
  }

  // ----- What the tokenizer computes, on the rest of the input -----

  datatype Lexed = Lexed(text: string, rest: string)

  /** The text of a phrase and what follows its closing quote; a doubled quote is a quote. */
  function ClosePhrase(s: string): (r: Option<Lexed>)
    ensures r.Some? ==> |r.value.rest| < |s|
  {
    if s == "" then None
    else if s[0] != '"' then
      match ClosePhrase(s[1..])
      case None => None
      case Some(l) => Some(Lexed([s[0]] + l.text, l.rest))
    else if |s| > 1 && s[1] == '"' then
      match ClosePhrase(s[2..])
      case None => None
      case Some(l) => Some(Lexed(['"'] + l.text, l.rest))
    else Some(Lexed("", s[1..]))
  }

  function TakeWord(s: string): (w: string)
    ensures |w| <= |s| && (s != "" && !EndsWord(s[0]) ==> w != "")
  {
    if s == "" || EndsWord(s[0]) then "" else [s[0]] + TakeWord(s[1..])
  }

  predicate AllWordChars(w: string) {
    forall c :: c in w ==> IsWordChar(c)
  }

  function Prepend(t: Token, r: Option<seq<Token>>): Option<seq<Token>> {
    match r
    case None => None
    case Some(ts) => Some([t] + ts)
  }

  /** None stands for the two errors: an unterminated phrase, an invalid character. */
  function Tokens(s: string): Option<seq<Token>>
    decreases |s|
  {
    if s == "" then Some([])
    else if IsSpace(s[0]) then Tokens(s[1..])
    else if s[0] == '"' then
      match ClosePhrase(s[1..])
      case None => None
      case Some(l) => Prepend(Token(l.text, true), Tokens(l.rest))
    else if s[0] in SPECIAL then Prepend(Token([s[0]], false), Tokens(s[1..]))
    else
      var w := TakeWord(s);
      if AllWordChars(w) then Prepend(Token(w, false), Tokens(s[|w|..])) else None
  }

  // ----- The index loop -----

  /** `found` are the tokens before position i; together with the rest they make up the result. */
  ghost predicate TokensSoFar(s: string, i: nat, found: seq<Token>) {
    i <= |s| && Tokens(s) == match Tokens(s[i..]) case None => None case Some(ts) => Some(found + ts)
  }

  lemma FoundOne(s: string, i: nat, found: seq<Token>, t: Token, next: nat)
    requires TokensSoFar(s, i, found) && i <= next <= |s|
    requires Tokens(s[i..]) == Prepend(t, Tokens(s[next..]))
    ensures TokensSoFar(s, next, found + [t])
  {
    match Tokens(s[next..])
    case None =>
    case Some(ts) => assert found + ([t] + ts) == found + [t] + ts;
  }

  method ReadPhrase(r: string, start: nat) returns (text: string, i: nat, closed: bool)
    requires start <= |r|
    ensures start <= i <= |r|
    ensures ClosePhrase(r[start..]) == if closed then Some(Lexed(text, r[i..])) else None
  {
    hide ClosePhrase, PhraseSoFar;
    i, text, closed := start, "", false;
    PhraseStarts(r, start);
    while i < |r|
      invariant start <= i <= |r| && !closed
      invariant PhraseSoFar(r, start, i, text)
      decreases |r| - i
    {
      CloseHere(r, i);
      if r[i] == '"' {
        i := i + 1;
        if i < |r| && r[i] == '"' {
          PhraseGrows(r, start, i - 1, text, '"', i + 1);
          text := text + ['"'];
          i := i + 1;
          continue;
        }
        PhraseCloses(r, start, i - 1, text);
        closed := true;
        break;
      }
      PhraseGrows(r, start, i, text, r[i], i + 1);
      text := text + [r[i]];
      i := i + 1;
    }
    if !closed {
      PhraseEndsOpen(r, start, text);
    }
  }

  lemma PhraseEndsOpen(r: string, start: nat, text: string)
    requires start <= |r| && PhraseSoFar(r, start, |r|, text)
    ensures ClosePhrase(r[start..]) == None
  {
    assert r[|r|..] == "";
  }

  lemma PhraseCloses(r: string, start: nat, i: nat, text: string)
    requires start <= i < |r| && PhraseSoFar(r, start, i, text)
    requires ClosePhrase(r[i..]) == Some(Lexed("", r[i + 1..]))
    ensures ClosePhrase(r[start..]) == Some(Lexed(text, r[i + 1..]))
  {
    assert text + "" == text;
  }

  ghost predicate PhraseSoFar(r: string, start: nat, i: nat, text: string)
    requires start <= i <= |r|
  {
    ClosePhrase(r[start..]) == match ClosePhrase(r[i..]) case None => None case Some(l) => Some(Lexed(text + l.text, l.rest))
  }

  lemma PhraseStarts(r: string, start: nat)
    requires start <= |r|
    ensures PhraseSoFar(r, start, start, "")
  {
    match ClosePhrase(r[start..])
    case None =>
    case Some(l) => assert "" + l.text == l.text;
  }

  /** ClosePhrase seen from a position. */
  lemma CloseHere(r: string, i: nat)
    requires i < |r|
    ensures r[i] != '"' ==> ClosePhrase(r[i..]) == match ClosePhrase(r[i + 1..]) case None => None case Some(l) => Some(Lexed([r[i]] + l.text, l.rest))
    ensures r[i] == '"' && i + 1 < |r| && r[i + 1] == '"' ==>
              ClosePhrase(r[i..]) == match ClosePhrase(r[i + 2..]) case None => None case Some(l) => Some(Lexed(['"'] + l.text, l.rest))
    ensures r[i] == '"' && !(i + 1 < |r| && r[i + 1] == '"') ==> ClosePhrase(r[i..]) == Some(Lexed("", r[i + 1..]))
  {
    assert r[i..][1..] == r[i + 1..];
    if i + 1 < |r| {
      assert r[i..][2..] == r[i + 2..];
    }
  }

  lemma PhraseGrows(r: string, start: nat, i: nat, text: string, c: char, next: nat)
    requires start <= i < next <= |r| && PhraseSoFar(r, start, i, text)
    requires ClosePhrase(r[i..]) == match ClosePhrase(r[next..]) case None => None case Some(l) => Some(Lexed([c] + l.text, l.rest))
    ensures PhraseSoFar(r, start, next, text + [c])
  {
    match ClosePhrase(r[next..])
    case None =>
    case Some(l) => assert text + ([c] + l.text) == text + [c] + l.text;
  }

  method ReadWord(r: string, start: nat) returns (i: nat, valid: bool)
    requires start < |r| && !EndsWord(r[start])
    ensures start < i <= |r| || !valid
    ensures valid <==> AllWordChars(TakeWord(r[start..]))
    ensures valid ==> r[start..i] == TakeWord(r[start..])
  {
    hide EndsWord, IsWordChar;
    ghost var word := TakeWord(r[start..]);
    i := start;
    assert AllWordChars(r[start..start]);
    hide AllWordChars;
    while i < |r| && !EndsWord(r[i])
      invariant start <= i <= |r|
      invariant word == r[start..i] + TakeWord(r[i..]) && AllWordChars(r[start..i])
    {
      WordGrows(r, start, i);
      if !IsWordChar(r[i]) {
        return i, false;
      }
      i := i + 1;
    }
    assert r[start..i] + "" == r[start..i];
    valid := true;
  }

  lemma WordGrows(r: string, start: nat, i: nat)
    requires start <= i < |r| && !EndsWord(r[i]) && AllWordChars(r[start..i])
    ensures r[start..i] + TakeWord(r[i..]) == r[start..i + 1] + TakeWord(r[i + 1..])
    ensures IsWordChar(r[i]) ==> AllWordChars(r[start..i + 1])
    ensures !IsWordChar(r[i]) ==> !AllWordChars(r[start..i] + TakeWord(r[i..]))
  {
    hide EndsWord, IsWordChar;
    assert r[i..][1..] == r[i + 1..];
    assert r[start..i + 1] == r[start..i] + [r[i]];
    assert (r[start..i] + TakeWord(r[i..]))[i - start] == r[i];
  }

  method TokenizeQuery(s: string) returns (out: Result<seq<Token>>)
    ensures out == match Tokens(s) case Some(ts) => Ok(ts) case None => out
    ensures out.Ok? <==> Tokens(s).Some?
  {
    var found: seq<Token> := [];
    var i := 0;
    assert s[0..] == s;
    assert TokensSoFar(s, 0, []) by {
      if Tokens(s).Some? { assert [] + Tokens(s).value == Tokens(s).value; }
    }
    while i < |s|
      invariant 0 <= i <= |s| && TokensSoFar(s, i, found)
      decreases |s| - i
    {
      assert s[i..][1..] == s[i + 1..];
      if IsSpace(s[i]) {
        i := i + 1;
        continue;
      }
      if s[i] == '"' {
        var text, next, closed := ReadPhrase(s, i + 1);
        if !closed {
          return Err("unterminated search phrase");
        }
        FoundOne(s, i, found, Token(text, true), next);
        found := found + [Token(text, true)];
        i := next;
        continue;
      }
      if s[i] in SPECIAL {
        FoundOne(s, i, found, Token([s[i]], false), i + 1);
        found := found + [Token([s[i]], false)];
        i := i + 1;
        continue;
      }
      var next, valid := ReadWord(s, i);
      if !valid {
        return Err("invalid search character");
      }
      assert s[i..][|s[i..next]|..] == s[next..];
      FoundOne(s, i, found, Token(s[i..next], false), next);
      found := found + [Token(s[i..next], false)];
      i := next;
    }
    assert s[i..] == "";
    assert found + [] == found;
    out := Ok(found);
  }

  // ----- Writing tokens down -----

  predicate IsWord(w: string) {
    w != "" && forall c :: c in w ==> IsWordChar(c) && !EndsWord(c)
  }

  /** The tokens that can be written: any phrase, a special character, a bare word. */
  predicate IsWritable(t: Token) {
    t.quoted || IsWord(t.text) || (|t.text| == 1 && t.text[0] in SPECIAL)
  }

  function DoubleQuotes(s: string): string {
    if s == "" then "" else (if s[0] == '"' then ['"', '"'] else [s[0]]) + DoubleQuotes(s[1..])
  }

  function WriteToken(t: Token): string {
    if t.quoted then ['"'] + DoubleQuotes(t.text) + ['"'] else t.text
  }

  function Write(ts: seq<Token>): string {
    if ts == [] then ""
    else if |ts| == 1 then WriteToken(ts[0])
    else WriteToken(ts[0]) + [' '] + Write(ts[1..])
  }

  lemma {:induction false} ClosePhraseOfDoubled(text: string, rest: string)
    requires rest == "" || rest[0] != '"'
    ensures ClosePhrase(DoubleQuotes(text) + ['"'] + rest) == Some(Lexed(text, rest))
  {
    if text == "" {
      assert (['"'] + rest)[1..] == rest;
      assert DoubleQuotes(text) + ['"'] + rest == ['"'] + rest;
    } else {
      ClosePhraseOfDoubled(text[1..], rest);
      var tail := DoubleQuotes(text[1..]) + ['"'] + rest;
      CloseOneMore(text[0], tail, text[1..], rest);
      assert DoubleQuotes(text) + ['"'] + rest == (if text[0] == '"' then ['"', '"'] else [text[0]]) + tail;
      assert text == [text[0]] + text[1..];
    }
  }

  lemma CloseOneMore(c: char, tail: string, text: string, rest: string)
    requires ClosePhrase(tail) == Some(Lexed(text, rest))
    ensures ClosePhrase((if c == '"' then ['"', '"'] else [c]) + tail) == Some(Lexed([c] + text, rest))
  {
    if c == '"' {
      assert (['"', '"'] + tail)[2..] == tail;
    } else {
      assert ([c] + tail)[1..] == tail;
    }
  }

  lemma {:induction false} TakeWordOfWord(w: string, rest: string)
    requires forall c :: c in w ==> !EndsWord(c)
    requires rest == "" || EndsWord(rest[0])
    ensures TakeWord(w + rest) == w
  {
    if w == "" {
      assert w + rest == rest;
    } else {
      assert w[0] in w;
      assert (w + rest)[1..] == w[1..] + rest;
      assert forall c :: c in w[1..] ==> c in w;
      TakeWordOfWord(w[1..], rest);
    }
  }

  /** One written token, whatever follows after a space. */
  lemma TokensOfWritten(t: Token, rest: string)
    requires IsWritable(t) && (rest == "" || rest[0] == ' ')
    ensures Tokens(WriteToken(t) + rest) == Prepend(t, Tokens(rest))
  {
    hide Tokens, IsWord, EndsWord;
    if t.quoted {
      TokensOfQuoted(t.text, rest);
    } else if IsWord(t.text) {
      TokensOfWord(t.text, rest);
    } else {
      assert [t.text[0]] == t.text;
      TokensOfSpecial(t.text[0], rest);
    }
  }

  lemma TokensOfSpecial(c: char, rest: string)
    requires c in SPECIAL
    ensures Tokens([c] + rest) == Prepend(Token([c], false), Tokens(rest))
  {
    hide ClosePhrase, TakeWord, AllWordChars;
    assert ([c] + rest)[1..] == rest;
  }

  lemma {:induction false} TokensOfQuoted(text: string, rest: string)
    requires rest == "" || rest[0] == ' '
    ensures Tokens(['"'] + DoubleQuotes(text) + ['"'] + rest) == Prepend(Token(text, true), Tokens(rest))
  {
    hide *;
    var inner := DoubleQuotes(text) + ['"'] + rest;
    ClosePhraseOfDoubled(text, rest);
    TokensOfPhrase(inner, text, rest);
    assert ['"'] + DoubleQuotes(text) + ['"'] + rest == ['"'] + inner;
  }

  lemma TokensOfPhrase(inner: string, text: string, rest: string)
    requires ClosePhrase(inner) == Some(Lexed(text, rest))
    ensures Tokens(['"'] + inner) == Prepend(Token(text, true), Tokens(rest))
  {
    assert (['"'] + inner)[1..] == inner;
  }

  lemma TokensOfWord(w: string, rest: string)
    requires IsWord(w) && (rest == "" || rest[0] == ' ')
    ensures Tokens(w + rest) == Prepend(Token(w, false), Tokens(rest))
  {
    assert w[0] in w;
    TakeWordOfWord(w, rest);
    assert (w + rest)[|w|..] == rest;
  }

  /** Written tokens are read back as they are. */
  lemma {:induction false} TokensOfWrite(ts: seq<Token>)
    requires forall t :: t in ts ==> IsWritable(t)
    ensures Tokens(Write(ts)) == Some(ts)
  {
    if |ts| == 1 {
      assert WriteToken(ts[0]) + "" == WriteToken(ts[0]);
      TokensOfWritten(ts[0], "");
      assert ts == [ts[0]] + [];
    } else if |ts| > 1 {
      hide Tokens, IsWritable, WriteToken;
      var rest := [' '] + Write(ts[1..]);
      assert Write(ts) == WriteToken(ts[0]) + rest;
      TokensOfWritten(ts[0], rest);
      TokensAfterSpace(Write(ts[1..]));
      TokensOfWrite(ts[1..]);
      assert ts == [ts[0]] + ts[1..];
    }
  }

  lemma TokensAfterSpace(s: string)
    ensures Tokens([' '] + s) == Tokens(s)
  {
    assert ([' '] + s)[1..] == s;
  }

  /** Nothing else is ever read: the tokenizer's output is exactly what can be written. */
  lemma {:induction false} TokensAreWritable(s: string)
    ensures Tokens(s).Some? ==> forall t :: t in Tokens(s).value ==> IsWritable(t)
    decreases |s|
  {
    if s != "" && Tokens(s).Some? {
      if IsSpace(s[0]) {
        TokensAreWritable(s[1..]);
      } else if s[0] == '"' {
        TokensAreWritable(ClosePhrase(s[1..]).value.rest);
      } else if s[0] in SPECIAL {
        TokensAreWritable(s[1..]);
      } else {
        TakeWordStops(s);
        TokensAreWritable(s[|TakeWord(s)|..]);
      }
    }
  }

  lemma {:induction false} TakeWordStops(s: string)
    ensures forall c :: c in TakeWord(s) ==> !EndsWord(c)
  {
    if s != "" && !EndsWord(s[0]) {
      TakeWordStops(s[1..]);
    }
  }
}
