/**
 Counting parentheses in the query parser (backend/internal/search/postgres_query.go): no part of the parser takes more
 opening than closing ones, and a NEAR group opened by a quoted "(" takes a closing one too many.
 */
module QueryBalance {
  import opened Wrappers
  import opened Text
  import opened QueryTokens
  import opened QueryParser

  function Weight(t: Token): int {
    if KindOf(t) == Sym(')') then 1 else if KindOf(t) == Sym('(') then -1 else 0
  }

  /** Closing parentheses less opening ones, quoted text not counted. */
  function Excess(ts: seq<Token>): int {
    if ts == [] then 0 else Weight(ts[0]) + Excess(ts[1..])
  }

  lemma {:induction false} ExcessOfBoth(a: seq<Token>, b: seq<Token>)
    ensures Excess(a + b) == Excess(a) + Excess(b)
  {
    if a == [] {
      assert a + b == b;
    } else {
      assert (a + b)[1..] == a[1..] + b;
      ExcessOfBoth(a[1..], b);
    }
  }

  lemma ExcessOfOne(t: Token)
    ensures Excess([t]) == Weight(t)
  {
    assert [t][1..] == [];
  }

  /** What a part of the parser leaves has at most the excess of what it was given. */
  predicate Shrinks(ts: seq<Token>, r: Option<Parsed>) {
    r.Some? ==> Excess(r.value.rest) <= Excess(ts)
  }

  // ----- Phrases, column names and distances take no parentheses -----

  lemma {:induction false} PhraseTakesNone(ts: seq<Token>)
    requires Phrase(ts).Some?
    ensures Excess(Phrase(ts).value.rest) == Excess(ts)
    decreases |ts|, 1
  {
    PlusTailTakesNone(ts[0].text, Skip(ts[1..], Sym('*')));
  }

  lemma {:induction false} PlusTailTakesNone(text: string, ts: seq<Token>)
    requires PlusTail(text, ts).Some?
    ensures Excess(PlusTail(text, ts).value.rest) == Excess(ts)
    decreases |ts|, 0
  {
    if Is(ts, Sym('+')) {
      var next := Phrase(ts[1..]).value;
      PhraseTakesNone(ts[1..]);
      PlusTailTakesNone(text + " " + next.text, next.rest);
    }
  }

  lemma NameIsNoParenthesis(t: Token, chosen: Chosen)
    requires Choose(chosen, ToLower(t.text)).Some?
    ensures Weight(t) == 0
  {
    assert |ToLower(t.text)| == |t.text|;
  }

  lemma {:induction false} NamesTakeNone(ts: seq<Token>, braces: bool, chosen: Chosen)
    requires Names(ts, braces, chosen).Some?
    ensures Excess(Names(ts, braces, chosen).value.rest) == Excess(ts)
    decreases |ts|
  {
    NameIsNoParenthesis(ts[0], chosen);
    if braces && Is(ts[1..], Sym('}')) {
      assert ts[1..][1..] == ts[2..];
    } else if braces {
      NamesTakeNone(ts[1..], braces, Choose(chosen, ToLower(ts[0].text)).value);
    }
  }

  lemma FilterTakesNone(ts: seq<Token>, cols: Columns)
    requires ColumnFilter(ts, cols).Filtered?
    ensures Excess(ColumnFilter(ts, cols).rest) == Excess(ts)
  {
    hide Names, KindOf;
    var unsigned := Skip(ts, Sym('-'));
    NamesTakeNone(Skip(unsigned, Sym('{')), Is(unsigned, Sym('{')), NONE_CHOSEN);
  }

  lemma DistanceTakesNone(ts: seq<Token>)
    requires NearDistance(ts).Some?
    ensures Excess(NearDistance(ts).value.rest) == Excess(ts)
  {
    if Is(ts, Sym(',')) {
      NumberIsNoParenthesis(ts[1]);
      assert ts[1..][1..] == ts[2..];
    }
  }

  lemma NumberIsNoParenthesis(t: Token)
    requires Atoi(t.text).Some?
    ensures Weight(t) == 0
  {
    assert t.text != "(" && t.text != ")";
  }

  lemma {:induction false} NearTermsTakeNone(ts: seq<Token>, texts: seq<string>)
    requires NearTerms(ts, texts).Some?
    ensures Excess(NearTerms(ts, texts).value.rest) == Excess(ts)
    decreases |ts|
  {
    if !(ts == [] || Is(ts, Sym(',')) || Is(ts, Sym(')'))) {
      var p := Phrase(ts).value;
      PhraseTakesNone(ts);
      NearTermsTakeNone(p.rest, texts + [p.text]);
    }
  }

  /** Behind its opening parenthesis a NEAR group takes one closing parenthesis. */
  lemma NearGroupTakesOne(ts: seq<Token>)
    requires NearGroup(ts).Some?
    ensures Excess(NearGroup(ts).value.rest) == Excess(ts) - 1
  {
    hide NearTerms, NearDistance, NearQuery;
    NearTermsTakeNone(ts, []);
    DistanceTakesNone(NearTerms(ts, []).value.rest);
  }

  // ----- Expressions -----

  lemma NearShrinks(ts: seq<Token>)
    requires NearAhead(ts) && NearGroup(ts[2..]).Some?
    ensures Excess(NearGroup(ts[2..]).value.rest) == Excess(ts) - if ts[1].quoted then 1 else 0
  {
    hide NearGroup;
    NearGroupTakesOne(ts[2..]);
    NearIsPlain(ts[0]);
    assert ts[1..][1..] == ts[2..];
  }

  lemma NearIsPlain(t: Token)
    requires !t.quoted && t.text == "NEAR"
    ensures Weight(t) == 0
  {
  }

  lemma {:induction false} AtomShrinks(ts: seq<Token>, cols: Columns, bound: Bound)
    ensures Shrinks(ts, Atom(ts, cols, bound))
    decreases |ts|, 1
  {
    hide ColumnFilter, NearGroup, Phrase, NearAhead;
    match ColumnFilter(ts, cols)
    case BadFilter =>
    case Filtered(narrowed, rest) =>
      FilterTakesNone(ts, cols);
      AtomShrinks(rest, narrowed, bound);
    case NoFilter =>
      if Is(ts, Sym('(')) {
        OrShrinks(ts[1..], cols, bound);
      } else if NearAhead(ts) {
        NearAtomShrinks(ts, cols, bound);
      } else if Phrase(Skip(ts, Sym('^'))).Some? {
        PhraseTakesNone(Skip(ts, Sym('^')));
      }
  }

  lemma NearAtomShrinks(ts: seq<Token>, cols: Columns, bound: Bound)
    requires NearAhead(ts) && ColumnFilter(ts, cols) == NoFilter && !Is(ts, Sym('('))
    ensures var r := Atom(ts, cols, bound); r.Some? ==> Excess(r.value.rest) == Excess(ts) - if ts[1].quoted then 1 else 0
  {
    hide ColumnFilter, NearGroup, Excess;
    if NearGroup(ts[2..]).Some? {
      NearShrinks(ts);
    }
  }

  lemma {:induction false} ImplicitTailShrinks(left: Parsed, cols: Columns)
    ensures Shrinks(left.rest, ImplicitTail(left, cols))
    decreases |left.rest|, 2
  {
    hide Atom, Excess;
    if !EndsImplicit(left.rest) && Atom(left.rest, cols, left.bound).Some? {
      var p := Atom(left.rest, cols, left.bound).value;
      AtomShrinks(left.rest, cols, left.bound);
      ImplicitTailShrinks(Parsed(And(left.expr, p.expr), p.bound, p.rest), cols);
    }
  }

  lemma {:induction false} ImplicitShrinks(ts: seq<Token>, cols: Columns, bound: Bound)
    ensures Shrinks(ts, ParseImplicit(ts, cols, bound))
    decreases |ts|, 3
  {
    hide Atom, ImplicitTail, Excess;
    AtomShrinks(ts, cols, bound);
    if Atom(ts, cols, bound).Some? {
      ImplicitTailShrinks(Atom(ts, cols, bound).value, cols);
    }
  }

  lemma {:induction false} NotTailShrinks(left: Parsed, cols: Columns)
    ensures Shrinks(left.rest, NotTail(left, cols))
    decreases |left.rest|, 0
  {
    hide ParseImplicit;
    if Is(left.rest, NotOp) && ParseImplicit(left.rest[1..], cols, left.bound).Some? {
      var p := ParseImplicit(left.rest[1..], cols, left.bound).value;
      ImplicitShrinks(left.rest[1..], cols, left.bound);
      NotTailShrinks(Parsed(AndNot(left.expr, p.expr), p.bound, p.rest), cols);
    }
  }

  lemma {:induction false} NotShrinks(ts: seq<Token>, cols: Columns, bound: Bound)
    ensures Shrinks(ts, ParseNot(ts, cols, bound))
    decreases |ts|, 4
  {
    hide ParseImplicit, NotTail, Excess;
    ImplicitShrinks(ts, cols, bound);
    if ParseImplicit(ts, cols, bound).Some? {
      NotTailShrinks(ParseImplicit(ts, cols, bound).value, cols);
    }
  }

  lemma {:induction false} AndTailShrinks(left: Parsed, cols: Columns)
    ensures Shrinks(left.rest, AndTail(left, cols))
    decreases |left.rest|, 0
  {
    hide ParseNot;
    if Is(left.rest, AndOp) && ParseNot(left.rest[1..], cols, left.bound).Some? {
      var p := ParseNot(left.rest[1..], cols, left.bound).value;
      NotShrinks(left.rest[1..], cols, left.bound);
      AndTailShrinks(Parsed(And(left.expr, p.expr), p.bound, p.rest), cols);
    }
  }

  lemma {:induction false} AndShrinks(ts: seq<Token>, cols: Columns, bound: Bound)
    ensures Shrinks(ts, ParseAnd(ts, cols, bound))
    decreases |ts|, 5
  {
    hide ParseNot, AndTail, Excess;
    NotShrinks(ts, cols, bound);
    if ParseNot(ts, cols, bound).Some? {
      AndTailShrinks(ParseNot(ts, cols, bound).value, cols);
    }
  }

  lemma {:induction false} OrTailShrinks(left: Parsed, cols: Columns)
    ensures Shrinks(left.rest, OrTail(left, cols))
    decreases |left.rest|, 0
  {
    hide ParseAnd;
    if Is(left.rest, OrOp) && ParseAnd(left.rest[1..], cols, left.bound).Some? {
      var p := ParseAnd(left.rest[1..], cols, left.bound).value;
      AndShrinks(left.rest[1..], cols, left.bound);
      OrTailShrinks(Parsed(Or(left.expr, p.expr), p.bound, p.rest), cols);
    }
  }

  lemma {:induction false} OrShrinks(ts: seq<Token>, cols: Columns, bound: Bound)
    ensures Shrinks(ts, ParseOr(ts, cols, bound))
    decreases |ts|, 6
  {
    hide ParseAnd, OrTail, Excess;
    AndShrinks(ts, cols, bound);
    if ParseAnd(ts, cols, bound).Some? {
      OrTailShrinks(ParseAnd(ts, cols, bound).value, cols);
    }
  }
}
