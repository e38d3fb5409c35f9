/**
 Queries are compiled as they are written (backend/internal/search/postgres_query.go): tokenizer, parser and argument binding
 yield the tree of a form.
 */
module QueryReadBack {
  import opened Wrappers
  import opened Text
  import opened QueryTokens
  import opened QueryParser
  import opened QueryBalance
  import opened QueryBinding
  import opened QueryMeaning
  import opened QuerySyntax

  // ----- Forms are read back: atoms -----

  /** Refused here, or bound to be refused: fewer closing parentheses are left than are written behind the form. */
  predicate Misread(r: Option<Parsed>, rest: seq<Token>) {
    r.Some? ==> Excess(r.value.rest) < Excess(rest)
  }

  /** Where the parser stands when it has read a form in full. */
  function Expected(g: Form, cols: Columns, bound: Bound, rest: seq<Token>): Parsed
    requires WellFormed(TreeOf(g))
  {
    var (e, more) := Emit(TreeOf(g), cols, bound); Parsed(e, more, rest)
  }

  /** Reading a form yields the translation of its tree, unless some phrase is misread. */
  predicate Reads(r: Option<Parsed>, g: Form, cols: Columns, bound: Bound, rest: seq<Token>)
    requires WellFormed(TreeOf(g))
  {
    && (Clean(g, rest) ==> r == Some(Expected(g, cols, bound, rest)))
    && (!Clean(g, rest) && Proper(g) ==> Misread(r, rest))
  }

  lemma {:induction false} WordsReadBack(g: Form, cols: Columns, bound: Bound, rest: seq<Token>)
    requires g.Words? && IsPhrase(g.parts) && Follows(rest) && Apart(g, rest)
    ensures Reads(Atom(Spell(g) + rest, cols, bound), g, cols, bound, rest)
  {
    hide Excess;
    var ts := Spell(g) + rest;
    WordsTokens(g, rest);
    NoFilterWithoutColon(ts, cols);
    if FalseNear(ts) {
      NearAtomShrinks(ts, cols, bound);
      FormAddsNone(g, 4, rest);
    } else {
      PhraseReadBack(g.parts, rest);
    }
  }

  lemma {:induction false} WordsTokens(g: Form, rest: seq<Token>)
    requires g.Words? && IsPhrase(g.parts) && Follows(rest)
    ensures var ts := Spell(g) + rest;
            && ts != [] && KindOf(ts[0]) in {Plain, Quoted, Sym('^')}
            && (|ts| > 1 ==> KindOf(ts[1]) != Sym(':'))
            && Is(ts, Sym('^')) == g.anchored && Skip(ts, Sym('^')) == PhraseTokens(g.parts) + rest
  {
    hide PhraseTokens;
    var ts, phrase := Spell(g) + rest, PhraseTokens(g.parts) + rest;
    PartKind(g.parts[0]);
    SymKind('^');
    SecondOfPhrase(g.parts, rest);
    assert ts == (if g.anchored then [SymTok('^')] else []) + phrase;
    if g.anchored {
      assert ts[1..] == phrase && ts[1] == phrase[0];
    } else {
      assert ts == phrase;
    }
  }

  lemma SecondOfPhrase(parts: seq<Part>, rest: seq<Token>)
    requires IsPhrase(parts) && Follows(rest)
    ensures var ts := PhraseTokens(parts) + rest;
            ts != [] && ts[0] == Token(parts[0].text, parts[0].quoted) && (|ts| > 1 ==> KindOf(ts[1]) != Sym(':'))
  {
    SymKind('*');
    SymKind('+');
    var ts := PhraseTokens(parts) + rest;
    if parts[0].starred {
      assert ts[1] == SymTok('*');
    } else if |parts| > 1 {
      assert ts[1] == SymTok('+');
    } else if |ts| > 1 {
      assert ts[1] == rest[0];
    }
  }

  lemma {:induction false} NearbyReadBack(g: Form, cols: Columns, bound: Bound, rest: seq<Token>)
    requires g.Nearby? && Fits(g, 4)
    ensures Reads(Atom(Spell(g) + rest, cols, bound), g, cols, bound, rest)
  {
    var inner := TermsTokens(g.terms) + (DistanceTokens(g.distance) + ([SymTok(')')] + rest));
    NearbyTokens(g, rest, inner);
    NearReadBack(g.terms, g.distance, rest);
    NearAtom([NEAR_TOKEN, g.open] + inner, g.open, inner, cols, bound);
  }

  lemma NearbyTokens(g: Form, rest: seq<Token>, inner: seq<Token>)
    requires g.Nearby?
    requires inner == TermsTokens(g.terms) + (DistanceTokens(g.distance) + ([SymTok(')')] + rest))
    ensures Spell(g) + rest == [NEAR_TOKEN, g.open] + inner
  {
  }

  lemma {:induction false} NearAtom(ts: seq<Token>, open: Token, inner: seq<Token>, cols: Columns, bound: Bound)
    requires ts == [NEAR_TOKEN, open] + inner && open.text == "("
    ensures Atom(ts, cols, bound) ==
            match NearGroup(inner) case None => None
            case Some(n) => var (e, more) := BindNear(bound, cols, n.query, n.texts); Some(Parsed(e, more, n.rest))
  {
    OperatorKinds();
    NoFilterWithoutColon(ts, cols);
    assert ts[2..] == inner;
  }

  lemma RestrictedSplits(g: Form, rest: seq<Token>)
    requires g.Restricted?
    ensures Spell(g) + rest == FilterTokens(g.exclude, g.names, g.braces) + (Spell(g.body) + rest)
  {
  }

  lemma {:induction false} RestrictedReadBack(g: Form, cols: Columns, bound: Bound, rest: seq<Token>)
    requires g.Restricted? && Fits(g, 4)
    requires var narrowed := Narrow(cols, ChosenBy(g.names, NONE_CHOSEN), g.exclude);
             Reads(Atom(Spell(g.body) + rest, narrowed, bound), g.body, narrowed, bound, rest)
    ensures Reads(Atom(Spell(g) + rest, cols, bound), g, cols, bound, rest)
  {
    hide Excess;
    RestrictedSplits(g, rest);
    FilterReadBack(g.exclude, g.names, g.braces, Spell(g.body) + rest, cols);
  }

  lemma {:induction false} ParensReadBack(g: Form, cols: Columns, bound: Bound, rest: seq<Token>)
    requires g.Parens? && Fits(g, 4)
    requires var close := [SymTok(')')] + rest;
             Reads(ParseOr(Spell(g.body) + close, cols, bound), g.body, cols, bound, close)
    ensures Reads(Atom(Spell(g) + rest, cols, bound), g, cols, bound, rest)
  {
    hide Excess, ParseOr;
    var close := [SymTok(')')] + rest;
    var ts := [SymTok('(')] + (Spell(g.body) + close);
    assert Spell(g) + rest == ts;
    SymKind('(');
    SymKind(')');
    SpellStarts(g.body, 0);
    assert ts[1] == Spell(g.body)[0];
    NoFilterWithoutColon(ts, cols);
    assert ts[1..] == Spell(g.body) + close;
    assert close[1..] == rest;
    CloseCounts(close);
    var r := ParseOr(Spell(g.body) + close, cols, bound);
    if r.Some? && Is(r.value.rest, Sym(')')) {
      CloseCounts(r.value.rest);
    }
  }

  lemma CloseCounts(ts: seq<Token>)
    requires Is(ts, Sym(')'))
    ensures Excess(ts) == 1 + Excess(ts[1..])
  {
  }

  // ----- Forms are read back: the levels of the grammar -----

  /** What is written behind the left operand. */
  function OperandTail(g: Form, rest: seq<Token>): seq<Token>
    requires g.Operands?
  {
    OperatorAt(g.level) + (Spell(g.right) + rest)
  }

  lemma OperandsSplit(g: Form, rest: seq<Token>)
    requires g.Operands?
    ensures Spell(g) + rest == Spell(g.left) + OperandTail(g, rest)
  {
  }

  lemma OperandTailIsEven(g: Form, rest: seq<Token>)
    requires g.Operands? && Fits(g, g.level) && Proper(g.right)
    ensures Excess(OperandTail(g, rest)) == Excess(rest)
  {
    hide Excess, Spell, KindOf;
    FormAddsNone(g.right, g.level + 1, rest);
    OperatorIsEven(g.level);
    ExcessOfBoth(OperatorAt(g.level), Spell(g.right) + rest);
  }

  /** What may be written behind an operand of a level: nothing the stronger levels would take. */
  predicate Behind(level: nat, rest: seq<Token>) {
    && Follows(rest)
    && (level <= 2 ==> EndsImplicit(rest))
    && (level <= 1 ==> !Is(rest, NotOp))
    && (level == 0 ==> !Is(rest, AndOp))
  }

  lemma OperandTailIsBehind(g: Form, rest: seq<Token>)
    requires g.Operands? && Fits(g, g.level)
    ensures Behind(g.level, OperandTail(g, rest)) && GoesOn(g.level, OperandTail(g, rest))
  {
    hide Spell;
    OperatorKinds();
    if g.level == 3 {
      SpellStarts(g.right, 4);
      assert OperandTail(g, rest)[0] == Spell(g.right)[0];
    }
  }

  /** The parser of a level: OR, AND, NOT, juxtaposition, atoms. */
  function ParseAt(level: nat, ts: seq<Token>, cols: Columns, bound: Bound): (r: Option<Parsed>)
    requires level <= 4
    ensures r.Some? ==> |r.value.rest| < |ts|
  {
    match level
    case 0 => ParseOr(ts, cols, bound)
    case 1 => ParseAnd(ts, cols, bound)
    case 2 => ParseNot(ts, cols, bound)
    case 3 => ParseImplicit(ts, cols, bound)
    case _ => Atom(ts, cols, bound)
  }

  /** The loop of a level, behind its first operand. */
  function Onward(level: nat, p: Parsed, cols: Columns): Option<Parsed> {
    match level
    case 0 => OrTail(p, cols)
    case 1 => AndTail(p, cols)
    case 2 => NotTail(p, cols)
    case 3 => ImplicitTail(p, cols)
    case _ => Some(p)
  }

  function Followed(level: nat, first: Option<Parsed>, cols: Columns): Option<Parsed> {
    match first
    case None => None
    case Some(p) => Onward(level, p, cols)
  }

  lemma LevelsNest(level: nat, ts: seq<Token>, cols: Columns, bound: Bound)
    requires level < 4
    ensures ParseAt(level, ts, cols, bound) == Followed(level, ParseAt(level + 1, ts, cols, bound), cols)
  {
  }

  lemma OnwardShrinks(level: nat, p: Parsed, cols: Columns)
    ensures Shrinks(p.rest, Onward(level, p, cols))
  {
    hide Excess;
    match level
    case 0 => OrTailShrinks(p, cols);
    case 1 => AndTailShrinks(p, cols);
    case 2 => NotTailShrinks(p, cols);
    case 3 => ImplicitTailShrinks(p, cols);
    case _ =>
  }

  /** Whether the loop of a level takes another operand. */
  predicate GoesOn(level: nat, rest: seq<Token>) {
    match level
    case 0 => Is(rest, OrOp)
    case 1 => Is(rest, AndOp)
    case 2 => Is(rest, NotOp)
    case 3 => !EndsImplicit(rest)
    case _ => false
  }

  /** What an operator makes of its operands. */
  function Combined(level: nat, a: Expr, b: Expr): Expr {
    match level
    case 0 => Or(a, b)
    case 2 => AndNot(a, b)
    case _ => And(a, b)
  }

  /** The loop goes on with what it has and what it reads next. */
  function Joined(level: nat, a: Expr, second: Option<Parsed>, cols: Columns): Option<Parsed> {
    match second
    case None => None
    case Some(p) => Onward(level, Parsed(Combined(level, a, p.expr), p.bound, p.rest), cols)
  }

  /** One round of the loop of a level. */
  lemma {:induction false} LoopTakes(level: nat, left: Parsed, behind: seq<Token>, cols: Columns)
    requires level < 4 && GoesOn(level, left.rest) && left.rest == OperatorAt(level) + behind
    ensures Onward(level, left, cols) == Joined(level, left.expr, ParseAt(level + 1, behind, cols, left.bound), cols)
  {
    assert level < 3 ==> left.rest[1..] == behind;
    assert level == 3 ==> left.rest == behind;
  }

  /** The same as Reads, with the loop of the level going on behind the form. */
  predicate ReadsOn(r: Option<Parsed>, g: Form, level: nat, cols: Columns, bound: Bound, rest: seq<Token>)
    requires WellFormed(TreeOf(g))
  {
    && (Clean(g, rest) ==> r == Onward(level, Expected(g, cols, bound, rest), cols))
    && (!Clean(g, rest) && Proper(g) ==> Misread(r, rest))
  }

  /** Where nothing follows for the loop to take, the form is all there is to read. */
  lemma {:induction false} LoopStops(r: Option<Parsed>, g: Form, level: nat, cols: Columns, bound: Bound, rest: seq<Token>)
    requires WellFormed(TreeOf(g)) && ReadsOn(r, g, level, cols, bound, rest) && !GoesOn(level, rest)
    ensures Reads(r, g, cols, bound, rest)
  {
    hide Clean, Excess, Emit;
  }

  lemma BehindStops(level: nat, rest: seq<Token>)
    requires Behind(level, rest)
    ensures Behind(level + 1, rest) && !GoesOn(level + 1, rest)
  {
  }

  lemma {:induction false} NextLevelReads(first: Option<Parsed>, g: Form, level: nat, cols: Columns, bound: Bound, rest: seq<Token>)
    requires WellFormed(TreeOf(g)) && Reads(first, g, cols, bound, rest)
    ensures ReadsOn(Followed(level, first, cols), g, level, cols, bound, rest)
  {
    hide Clean, Excess, Onward, Expected;
    if first.Some? {
      OnwardShrinks(level, first.value, cols);
    }
  }

  lemma {:induction false} ExpectedOfOperands(g: Form, cols: Columns, bound: Bound, rest: seq<Token>)
    requires g.Operands? && Fits(g, g.level)
    ensures var (a, mid) := Emit(TreeOf(g.left), cols, bound);
            var p := Expected(g.right, cols, mid, rest);
            Expected(g, cols, bound, rest) == Parsed(Combined(g.level, a, p.expr), p.bound, p.rest)
  {
    match g.level
    case 0 =>
    case 1 =>
    case 2 =>
    case _ =>
  }

  /**
   Both operands of an operator. Where the left one is misread too few parentheses are left already; where the right one is,
   the loop does not make up for it.
   */
  lemma {:induction false} BothOperands(r: Option<Parsed>, second: Option<Parsed>, g: Form, cols: Columns, bound: Bound, rest: seq<Token>)
    requires g.Operands? && Fits(g, g.level)
    requires var tail := OperandTail(g, rest);
             && (Proper(g) ==> Excess(tail) == Excess(rest)) && ReadsOn(r, g.left, g.level, cols, bound, tail)
             && Reads(second, g.right, cols, Emit(TreeOf(g.left), cols, bound).1, rest)
             && Onward(g.level, Expected(g.left, cols, bound, tail), cols) == Joined(g.level, Emit(TreeOf(g.left), cols, bound).0, second, cols)
    ensures ReadsOn(r, g, g.level, cols, bound, rest)
  {
    ExpectedOfOperands(g, cols, bound, rest);
    CleanOperands(g, rest);
    hide Clean, Excess, Onward, Emit, Expected, OperandTail;
    if second.Some? {
      var p := second.value;
      OnwardShrinks(g.level, Parsed(Combined(g.level, Emit(TreeOf(g.left), cols, bound).0, p.expr), p.bound, p.rest), cols);
    }
  }

  lemma CleanOperands(g: Form, rest: seq<Token>)
    requires g.Operands?
    ensures Clean(g, rest) <==> Clean(g.left, OperandTail(g, rest)) && Clean(g.right, rest)
    ensures Apart(g, rest) <==> Apart(g.left, OperandTail(g, rest)) && Apart(g.right, rest)
    ensures Proper(g) <==> Proper(g.left) && Proper(g.right)
  {
  }

  lemma {:induction false} ReadBack(g: Form, level: nat, cols: Columns, bound: Bound, rest: seq<Token>)
    requires Fits(g, level) && level <= 4 && Behind(level, rest) && Apart(g, rest)
    ensures ReadsOn(ParseAt(level, Spell(g) + rest, cols, bound), g, level, cols, bound, rest)
    decreases g, 5 - level
  {
    hide ParseAt, Spell, Onward, Clean, Reads, ReadsOn, Expected, Emit, Excess, Behind, Apart, OperandTail, Joined;
    if level == 4 {
      AtomReadBack(g, cols, bound, rest);
    } else if g.Operands? && g.level == level {
      var tail, mid := OperandTail(g, rest), Emit(TreeOf(g.left), cols, bound).1;
      OperandsSplit(g, rest);
      CleanOperands(g, rest);
      OperandTailIsBehind(g, rest);
      ReadBack(g.left, level, cols, bound, tail);
      BehindStops(level, rest);
      ReadBack(g.right, level + 1, cols, mid, rest);
      var second := ParseAt(level + 1, Spell(g.right) + rest, cols, mid);
      LoopStops(second, g.right, level + 1, cols, mid, rest);
      OperandIsTaken(g, cols, bound, rest);
      if Proper(g) {
        OperandTailIsEven(g, rest);
      }
      BothOperands(ParseAt(level, Spell(g) + rest, cols, bound), second, g, cols, bound, rest);
    } else {
      BehindStops(level, rest);
      ReadBack(g, level + 1, cols, bound, rest);
      var first := ParseAt(level + 1, Spell(g) + rest, cols, bound);
      LoopStops(first, g, level + 1, cols, bound, rest);
      NextLevelReads(first, g, level, cols, bound, rest);
      LevelsNest(level, Spell(g) + rest, cols, bound);
    }
  }

  lemma {:induction false} OperandIsTaken(g: Form, cols: Columns, bound: Bound, rest: seq<Token>)
    requires g.Operands? && Fits(g, g.level)
    ensures var (a, mid) := Emit(TreeOf(g.left), cols, bound);
            Onward(g.level, Expected(g.left, cols, bound, OperandTail(g, rest)), cols) ==
            Joined(g.level, a, ParseAt(g.level + 1, Spell(g.right) + rest, cols, mid), cols)
  {
    hide Spell, Emit, Onward, ParseAt, Joined, GoesOn, Behind;
    OperandTailIsBehind(g, rest);
    LoopTakes(g.level, Expected(g.left, cols, bound, OperandTail(g, rest)), Spell(g.right) + rest, cols);
  }

  lemma {:induction false} AtomReadBack(g: Form, cols: Columns, bound: Bound, rest: seq<Token>)
    requires Fits(g, 4) && Behind(4, rest) && Apart(g, rest)
    ensures ReadsOn(ParseAt(4, Spell(g) + rest, cols, bound), g, 4, cols, bound, rest)
    decreases g, 0
  {
    hide Spell, Clean, Expected, Emit, Excess, Atom, ParseOr;
    match g
    case Words(_, _) => WordsReadBack(g, cols, bound, rest);
    case Nearby(_, _, _) => NearbyReadBack(g, cols, bound, rest);
    case Restricted(exclude, names, braces, body) =>
      ReadBack(body, 4, Narrow(cols, ChosenBy(names, NONE_CHOSEN), exclude), bound, rest);
      RestrictedReadBack(g, cols, bound, rest);
    case Parens(body) =>
      var close := [SymTok(')')] + rest;
      SymKind(')');
      ReadBack(body, 0, cols, bound, close);
      LoopStops(ParseOr(Spell(body) + close, cols, bound), body, 0, cols, bound, close);
      ParensReadBack(g, cols, bound, rest);
  }

  // ----- From the text to the compiled condition -----

  /** What the compiler makes of a tree. */
  function Translated(q: Query): Compiled
    requires WellFormed(q)
  {
    var (e, bound) := Emit(q, ALL_COLUMNS, Bound([""], [])); Compiled(e, FillFirst(bound))
  }

  /**
   Compiling the tokens of a form yields the translation of its tree if no phrase is misread. It fails if one is, unless some
   other NEAR group is opened by a quoted parenthesis: a misread phrase either fails at once or, as such a group, takes a
   closing parenthesis that is missing later.
   */
  lemma {:induction false} CompileReadsBack(g: Form)
    requires Fits(g, 0) && Apart(g, [])
    ensures Clean(g, []) ==> CompileTokens(Spell(g)) == Some(Translated(TreeOf(g)))
    ensures !Clean(g, []) && Proper(g) ==> CompileTokens(Spell(g)) == None
  {
    assert Spell(g) + [] == Spell(g);
    ReadBack(g, 0, ALL_COLUMNS, Bound([""], []), []);
    NothingIsEven();
  }

  /** With parser and binding together: the condition is true exactly when the tree is, whatever matches what. */
  lemma {:induction false} CompilePreservesMeaning(g: Form, m: Interpretation)
    requires Fits(g, 0) && Apart(g, [])
    ensures var r := CompileTokens(Spell(g));
            && (Clean(g, []) ==> r.Some? && (Eval(r.value.expr, r.value.args, m) <==> Meaning(TreeOf(g), ALL_COLUMNS, m)))
            && (!Clean(g, []) && Proper(g) ==> r == None)
  {
    hide CompileTokens, Clean, Apart, Spell, Eval, Meaning, Emit;
    CompileReadsBack(g);
    CompiledIsBound(Spell(g));
    if Clean(g, []) {
      var r := CompileTokens(Spell(g)).value;
      FaithfulEval(r.expr, r.args, m);
      EmitMeans(TreeOf(g), ALL_COLUMNS, Bound([""], []), m);
    }
  }

  /**
   Every argument behind $1 is used by the condition exactly when each anchored term of the tree keeps a searched column;
   both sides of every operator count, whatever their truth value.
   */
  lemma {:induction false} ArgumentsAreUsed(g: Form)
    requires Fits(g, 0) && Apart(g, []) && Clean(g, [])
    ensures var r := CompileTokens(Spell(g));
            r.Some? && (Used(r.value.expr) == Range(1, |r.value.args|) <==> Searches(TreeOf(g), ALL_COLUMNS))
  {
    hide CompileTokens, Clean, Apart, Spell, Emit, Searches;
    CompileReadsBack(g);
    CompiledIsBound(Spell(g));
    NothingDroppedIffSearches(TreeOf(g), ALL_COLUMNS, Bound([""], []));
  }

  /** The query `path : ^ word`. */
  function AnchoredPath(word: string): Form {
    Restricted(false, [Token("path", false)], false, Words([Part(word, false, false)], true))
  }

  /**
   The shortfall is real: `path` is a known column that is never searched, so the query compiles to a condition without any
   placeholder, and the database is handed two arguments for it besides $1.
   */
  lemma {:induction false} AnchoredPathIsUnused(word: string)
    requires IsPart(Part(word, false, false))
    ensures var g := AnchoredPath(word);
            && Fits(g, 0) && Apart(g, []) && Clean(g, []) && !Searches(TreeOf(g), ALL_COLUMNS)
            && Spell(g) == [Token("path", false), SymTok(':'), SymTok('^'), Token(word, false)]
            && var r := CompileTokens(Spell(g));
               r.Some? && r.value.expr == False && Used(r.value.expr) == {} && |r.value.args| == 3
  {
    var g := AnchoredPath(word);
    PathIsColumn();
    var words := g.body;
    assert Spell(words) == [SymTok('^'), Token(word, false)];
    assert Spell(g) == [Token("path", false), SymTok(':'), SymTok('^'), Token(word, false)];
    assert (Spell(words) + [])[1].text == word && (Spell(words) + [])[0] == SymTok('^');
    assert ':' in ":";
    AnchoredPathTree(word);
    CompileReadsBack(g);
  }

  lemma AnchoredPathTree(word: string)
    requires IsPart(Part(word, false, false)) && IsColumnName(Token("path", false))
    ensures var q := TreeOf(AnchoredPath(word));
            && WellFormed(q) && !Searches(q, ALL_COLUMNS)
            && Translated(q).expr == False && |Translated(q).args| == 3
  {
    PathIsColumn();
    var term := Term([Part(word, false, false)], true);
    assert Narrow(ALL_COLUMNS, NONE_CHOSEN, false) == Columns(0, 0, 0, 0);
    assert TreeOf(AnchoredPath(word)) == Filter(false, [Token("path", false)], false, term);
    assert Emit(term, Columns(0, 0, 0, 0), Bound([""], [])).0 == False;
  }

  lemma PathIsColumn()
    ensures IsColumnName(Token("path", false)) && ToLower("path") == "path"
    ensures ChosenBy([Token("path", false)], NONE_CHOSEN) == NONE_CHOSEN
  {
    LowerLettersAreWord("path");
    assert ToLower("path") == "path";
    assert [Token("path", false)][1..] == [];
  }

  lemma LowerLettersAreWord(s: string)
    requires s != "" && forall i :: 0 <= i < |s| ==> 'a' <= s[i] <= 'z'
    ensures IsWord(s)
  {
    forall c | c in s
      ensures IsWordChar(c) && !EndsWord(c)
    {
      var i :| 0 <= i < |s| && s[i] == c;
    }
  }

  // ----- Down to the characters -----

  predicate AllWritable(ts: seq<Token>) {
    forall t :: t in ts ==> IsWritable(t)
  }

  lemma {:induction false} PhraseIsWritable(parts: seq<Part>)
    requires IsPhrase(parts)
    ensures AllWritable(PhraseTokens(parts))
  {
    assert IsPart(parts[0]);
    if |parts| > 1 {
      PhraseIsWritable(parts[1..]);
    }
  }

  lemma {:induction false} TermsAreWritable(terms: seq<seq<Part>>)
    requires forall t :: t in terms ==> IsPhrase(t)
    ensures AllWritable(TermsTokens(terms))
  {
    if terms != [] {
      assert IsPhrase(terms[0]);
      PhraseIsWritable(terms[0]);
      TermsAreWritable(terms[1..]);
    }
  }

  lemma {:induction false} OperatorsAreWritable()
    ensures IsWritable(AND_TOKEN) && IsWritable(OR_TOKEN) && IsWritable(NOT_TOKEN) && IsWritable(NEAR_TOKEN)
  {
    LettersAreWord("AND");
    LettersAreWord("OR");
    LettersAreWord("NOT");
    LettersAreWord("NEAR");
  }

  lemma LettersAreWord(s: string)
    requires s != "" && forall i :: 0 <= i < |s| ==> 'A' <= s[i] <= 'Z'
    ensures IsWord(s)
  {
    forall c | c in s
      ensures IsWordChar(c) && !EndsWord(c)
    {
      var i :| 0 <= i < |s| && s[i] == c;
    }
  }

  lemma {:induction false} SpellIsWritable(g: Form, level: nat)
    requires Fits(g, level)
    ensures AllWritable(Spell(g))
  {
    OperatorsAreWritable();
    match g
    case Words(parts, _) => PhraseIsWritable(parts);
    case Nearby(_, terms, _) => TermsAreWritable(terms);
    case Restricted(_, names, _, body) => SpellIsWritable(body, 4);
    case Parens(body) => SpellIsWritable(body, 0);
    case Operands(k, l, r) => SpellIsWritable(l, k); SpellIsWritable(r, k + 1);
  }

  lemma WrittenTokenEdges(t: Token)
    requires IsWritable(t) && (t.quoted || t.text != "")
    ensures var s := WriteToken(t); s != "" && !IsSpace(s[0]) && !IsSpace(s[|s| - 1])
  {
    if !t.quoted {
      assert t.text[0] in t.text && t.text[|t.text| - 1] in t.text;
    }
  }

  lemma {:induction false} WrittenEdges(ts: seq<Token>)
    requires ts != [] && AllWritable(ts)
    ensures var s := Write(ts); s != "" && !IsSpace(s[0]) && !IsSpace(s[|s| - 1])
  {
    assert IsWritable(ts[0]);
    WrittenTokenEdges(ts[0]);
    if |ts| > 1 {
      WrittenEdges(ts[1..]);
    }
  }

  function Written(g: Form): string {
    Write(Spell(g))
  }

  /** Text with syntax reaches the parser as the tokens it was written from. */
  lemma {:induction false} WrittenCompiles(g: Form)
    requires Fits(g, 0) && HasSyntax(Written(g))
    ensures CompileText(Written(g)) == CompileTokens(Spell(g))
  {
    hide CompileTokens, Spell;
    SpellStarts(g, 0);
    SpellIsWritable(g, 0);
    WrittenEdges(Spell(g));
    assert TrimSpace(Written(g)) == Written(g);
    TokensOfWrite(Spell(g));
  }

  /**
   Main result: a query written as text and compiled (tokenizer, parser, argument binding) has the meaning of its tree under
   every interpretation, and all its arguments are used exactly when each anchored term keeps a searched column, if no phrase
   is followed at once by a quoted colon and no bare NEAR by a quoted "("; otherwise it is refused. The text must use some
   query syntax; plain words are first turned into prefix searches.
   */
  lemma {:induction false} QueryTextKeepsMeaning(g: Form, m: Interpretation)
    requires Fits(g, 0) && Apart(g, []) && HasSyntax(Written(g))
    ensures var r := CompileText(Written(g));
            && (Clean(g, []) ==>
                  && r.Some? && (Eval(r.value.expr, r.value.args, m) <==> Meaning(TreeOf(g), ALL_COLUMNS, m))
                  && (Used(r.value.expr) == Range(1, |r.value.args|) <==> Searches(TreeOf(g), ALL_COLUMNS)))
            && (!Clean(g, []) && Proper(g) ==> r == None)
  {
    hide CompileTokens, CompileText, Clean, Apart, Spell, Eval, Meaning, Searches;
    WrittenCompiles(g);
    CompilePreservesMeaning(g, m);
    if Clean(g, []) {
      ArgumentsAreUsed(g);
    }
  }

  /** A concrete misreading: two phrases side by side, the second just a colon, are refused whatever the first is. */
  lemma {:induction false} QuotedColonIsMisread(text: string)
    ensures var g := Operands(3, Words([Part(text, true, false)], false), Words([Part(":", true, false)], false));
            Fits(g, 0) && Proper(g) && !Clean(g, []) && CompileTokens(Spell(g)) == None
  {
    var l, r := Words([Part(text, true, false)], false), Words([Part(":", true, false)], false);
    assert IsPart(Part(text, true, false)) && IsPart(Part(":", true, false));
    assert Spell(r) == [Token(":", true)];
    assert Spell(l) + (OperatorAt(3) + (Spell(r) + [])) == [Token(text, true), Token(":", true)];
    CompileReadsBack(Operands(3, l, r));
  }

  /** Another: the word NEAR and a phrase that is just a parenthesis. */
  lemma {:induction false} QuotedParenthesisIsMisread()
    ensures var g := Operands(3, Words([Part("NEAR", false, false)], false), Words([Part("(", true, false)], false));
            && Fits(g, 0) && Proper(g) && Apart(g, []) && !Clean(g, [])
            && Spell(g) == [Token("NEAR", false), Token("(", true)] && CompileTokens(Spell(g)) == None
  {
    var l, r := Words([Part("NEAR", false, false)], false), Words([Part("(", true, false)], false);
    LettersAreWord("NEAR");
    assert IsPart(Part("NEAR", false, false)) && IsPart(Part("(", true, false));
    assert Spell(r) == [Token("(", true)] && Spell(l) == [Token("NEAR", false)];
    assert Spell(l) + (OperatorAt(3) + (Spell(r) + [])) == [Token("NEAR", false), Token("(", true)];
    CompileReadsBack(Operands(3, l, r));
  }

  /** NEAR "(" NEAR "(" "word" ) as two phrases and a group, and as one group around three phrases. */
  function PhrasesAndGroup(word: string): Form {
    Operands(3, Operands(3, Words([Part("NEAR", false, false)], false), Words([Part("(", true, false)], false)),
             Nearby(Token("(", true), [[Part(word, true, false)]], None))
  }

  function WholeGroup(word: string): Form {
    Nearby(Token("(", true), [[Part("NEAR", false, false)], [Part("(", true, false)], [Part(word, true, false)]], None)
  }

  /** With a NEAR group opened by a quoted parenthesis there may be enough closing ones: the text is read as one group. */
  lemma {:induction false} QuotedGroupIsReadFirst(word: string)
    ensures var g := PhrasesAndGroup(word);
            && Fits(g, 0) && Apart(g, []) && !Clean(g, []) && !Proper(g) && Fits(WholeGroup(word), 0)
            && CompileTokens(Spell(g)) == Some(Translated(TreeOf(WholeGroup(word))))
  {
    hide CompileTokens, Translated, TreeOf, Spell;
    LettersAreWord("NEAR");
    var parts := [Part("NEAR", false, false), Part("(", true, false), Part(word, true, false)];
    assert IsPart(parts[0]) && IsPart(parts[1]) && IsPart(parts[2]);
    SpelledAlike(word);
    PhrasesAreMisread(word);
    CompileReadsBack(WholeGroup(word));
  }

  lemma {:induction false} PhrasesAreMisread(word: string)
    ensures var g := PhrasesAndGroup(word); Apart(g, []) && !Clean(g, [])
  {
    var g := PhrasesAndGroup(word);
    var l, r := g.left.left, g.left.right;
    OneTerm(l.parts[0]);
    OneTerm(r.parts[0]);
    assert Spell(l) == [NEAR_TOKEN] && Spell(r) == [Token("(", true)];
    var behind := OperatorAt(3) + (Spell(g.right) + []);
    var ts := Spell(l) + (OperatorAt(3) + (Spell(r) + behind));
    assert ts[0] == NEAR_TOKEN && ts[1] == Token("(", true);
    assert (Spell(r) + behind)[0] == Token("(", true);
    assert FalseNear(ts) && !Clean(l, OperatorAt(3) + (Spell(r) + behind)) && Apart(l, OperatorAt(3) + (Spell(r) + behind));
    assert !Clean(g.left, behind) && Apart(g.left, behind);
  }

  lemma SpelledAlike(word: string)
    ensures Spell(PhrasesAndGroup(word)) == Spell(WholeGroup(word)) ==
            [NEAR_TOKEN, Token("(", true), NEAR_TOKEN, Token("(", true), Token(word, true), SymTok(')')]
  {
    var near, open, last := Part("NEAR", false, false), Part("(", true, false), Part(word, true, false);
    OneTerm(last);
    OneTerm(open);
    OneTerm(near);
    assert [[near], [open], [last]][1..] == [[open], [last]] && [[open], [last]][1..] == [[last]] && [[last]][1..] == [];
    assert TermsTokens([[last]]) == [Token(word, true)];
    assert TermsTokens([[open], [last]]) == [Token("(", true), Token(word, true)];
    assert TermsTokens([[near], [open], [last]]) == [NEAR_TOKEN, Token("(", true), Token(word, true)];
  }

  lemma OneTerm(p: Part)
    requires !p.starred
    ensures PhraseTokens([p]) == [Token(p.text, p.quoted)]
  {
    assert [Token(p.text, p.quoted)] + [] + [] == [Token(p.text, p.quoted)];
  }
}
