/**
 What search queries mean: query trees, their translation into conditions, and that the translation preserves the meaning.
 Atomic matches are uninterpreted.
 */
module QueryMeaning {
  import opened Wrappers
  import opened Text
  import opened QueryTokens
  import opened QueryParser
  import opened QueryBinding

  /** A term of a phrase: any quoted text or a bare word, perhaps with a star. */
  datatype Part = Part(text: string, quoted: bool, starred: bool)

  datatype Query =
    | Term(parts: seq<Part>, anchored: bool)
    | Near(terms: seq<seq<Part>>, distance: Option<nat>)
    | Filter(exclude: bool, names: seq<Token>, braces: bool, body: Query)
    | Beside(left: Query, right: Query)   // juxtaposition, an implicit AND
    | Without(left: Query, right: Query)  // NOT
    | Both(left: Query, right: Query)     // AND
    | Either(left: Query, right: Query)   // OR

  // ----- Well-formed trees -----

  /** Bare words must not be operators. */
  predicate IsPart(p: Part) {
    p.quoted || (IsWord(p.text) && p.text !in {"AND", "OR", "NOT"})
  }

  predicate IsPhrase(parts: seq<Part>) {
    parts != [] && forall p :: p in parts ==> IsPart(p)
  }

  predicate IsColumnName(t: Token) {
    Choose(NONE_CHOSEN, ToLower(t.text)).Some? && IsWritable(t)
  }

  predicate WellFormed(q: Query) {
    match q
    case Term(parts, _) => IsPhrase(parts)
    case Near(terms, distance) =>
      && terms != [] && (forall t :: t in terms ==> IsPhrase(t))
      && (distance.Some? ==> distance.value <= MAX_INT)
    case Filter(_, names, braces, body) =>
      && names != [] && (!braces ==> |names| == 1) && (forall n :: n in names ==> IsColumnName(n))
      && WellFormed(body)
    case Beside(l, r) => WellFormed(l) && WellFormed(r)
    case Without(l, r) => WellFormed(l) && WellFormed(r)
    case Both(l, r) => WellFormed(l) && WellFormed(r)
    case Either(l, r) => WellFormed(l) && WellFormed(r)
  }

  // ----- Meaning -----

  /** Which full-text queries match on which columns, and which columns start with which text: 0 title to 3 page id. */
  datatype Interpretation = Interpretation(matches: (string, Columns) -> bool, startsWith: (int, string) -> bool)

  predicate SomeColumnStarts(m: Interpretation, text: string, cols: Columns) {
    || (cols.title != 0 && m.startsWith(0, text))
    || (cols.headings != 0 && m.startsWith(1, text))
    || (cols.content != 0 && m.startsWith(2, text))
    || (cols.pageId != 0 && m.startsWith(3, text))
  }

  function PhraseText(parts: seq<Part>): string {
    if parts == [] then "" else if |parts| == 1 then parts[0].text else parts[0].text + " " + PhraseText(parts[1..])
  }

  function TermsTexts(terms: seq<seq<Part>>): seq<string> {
    if terms == [] then [] else [PhraseText(terms[0])] + TermsTexts(terms[1..])
  }

  function ChosenBy(names: seq<Token>, chosen: Chosen): Chosen
    requires forall n :: n in names ==> IsColumnName(n)
  {
    if names == [] then chosen
    else
      assert IsColumnName(names[0]);
      ChosenBy(names[1..], Choose(chosen, ToLower(names[0].text)).value)
  }

  function Distance(distance: Option<nat>): nat {
    match distance
    case None => 10
    case Some(n) => n
  }

  predicate Meaning(q: Query, cols: Columns, m: Interpretation)
    requires WellFormed(q)
  {
    match q
    case Term(parts, anchored) =>
      && m.matches(PhraseQuery(parts[0].starred, PhraseText(parts)), cols)
      && (anchored ==> SomeColumnStarts(m, PhraseText(parts), cols))
    case Near(terms, distance) => m.matches(NearQuery(Distance(distance), TermsTexts(terms)), cols)
    case Filter(exclude, names, braces, body) => Meaning(body, Narrow(cols, ChosenBy(names, NONE_CHOSEN), exclude), m)
    case Beside(l, r) => Meaning(l, cols, m) && Meaning(r, cols, m)
    case Without(l, r) => Meaning(l, cols, m) && !Meaning(r, cols, m)
    case Both(l, r) => Meaning(l, cols, m) && Meaning(r, cols, m)
    case Either(l, r) => Meaning(l, cols, m) || Meaning(r, cols, m)
  }

  /** The truth of a compiled condition, looking placeholders up in the argument list. */
  predicate Eval(e: Expr, args: seq<string>, m: Interpretation) {
    match e
    case Match(arg, _, cols) => 1 <= arg <= |args| && m.matches(args[arg - 1], cols)
    case StartsWith(arg, _, cols) => 1 <= arg <= |args| && SomeColumnStarts(m, args[arg - 1], cols)
    case And(l, r) => Eval(l, args, m) && Eval(r, args, m)
    case Or(l, r) => Eval(l, args, m) || Eval(r, args, m)
    case AndNot(l, r) => Eval(l, args, m) && !Eval(r, args, m)
    case False => false
  }

  /** The same, with the values recorded at emission. */
  predicate EvalRecorded(e: Expr, m: Interpretation) {
    match e
    case Match(_, value, cols) => m.matches(value, cols)
    case StartsWith(_, value, cols) => SomeColumnStarts(m, value, cols)
    case And(l, r) => EvalRecorded(l, m) && EvalRecorded(r, m)
    case Or(l, r) => EvalRecorded(l, m) || EvalRecorded(r, m)
    case AndNot(l, r) => EvalRecorded(l, m) && !EvalRecorded(r, m)
    case False => false
  }

  lemma {:induction false} FaithfulEval(e: Expr, args: seq<string>, m: Interpretation)
    requires Faithful(e, args)
    ensures Eval(e, args, m) == EvalRecorded(e, m)
  {
    match e
    case And(l, r) => FaithfulEval(l, args, m); FaithfulEval(r, args, m);
    case Or(l, r) => FaithfulEval(l, args, m); FaithfulEval(r, args, m);
    case AndNot(l, r) => FaithfulEval(l, args, m); FaithfulEval(r, args, m);
    case _ =>
  }

  // ----- The direct translation of a tree -----

  /** What compiling a tree emits, read off the tree. */
  function Emit(q: Query, cols: Columns, bound: Bound): (Expr, Bound)
    requires WellFormed(q)
  {
    match q
    case Term(parts, anchored) => BindTerm(bound, cols, anchored, PhraseQuery(parts[0].starred, PhraseText(parts)), PhraseText(parts))
    case Near(terms, distance) => BindNear(bound, cols, NearQuery(Distance(distance), TermsTexts(terms)), TermsTexts(terms))
    case Filter(exclude, names, braces, body) => Emit(body, Narrow(cols, ChosenBy(names, NONE_CHOSEN), exclude), bound)
    case Beside(l, r) => var (a, mid) := Emit(l, cols, bound); var (b, end) := Emit(r, cols, mid); (And(a, b), end)
    case Without(l, r) => var (a, mid) := Emit(l, cols, bound); var (b, end) := Emit(r, cols, mid); (AndNot(a, b), end)
    case Both(l, r) => var (a, mid) := Emit(l, cols, bound); var (b, end) := Emit(r, cols, mid); (And(a, b), end)
    case Either(l, r) => var (a, mid) := Emit(l, cols, bound); var (b, end) := Emit(r, cols, mid); (Or(a, b), end)
  }

  lemma {:induction false} EmitMeans(q: Query, cols: Columns, bound: Bound, m: Interpretation)
    requires WellFormed(q)
    ensures EvalRecorded(Emit(q, cols, bound).0, m) == Meaning(q, cols, m)
  {
    match q
    case Term(_, _) =>
    case Near(_, _) =>
    case Filter(exclude, names, _, body) => EmitMeans(body, Narrow(cols, ChosenBy(names, NONE_CHOSEN), exclude), bound, m);
    case Beside(l, r) => EmitMeans(l, cols, bound, m); EmitMeans(r, cols, Emit(l, cols, bound).1, m);
    case Without(l, r) => EmitMeans(l, cols, bound, m); EmitMeans(r, cols, Emit(l, cols, bound).1, m);
    case Both(l, r) => EmitMeans(l, cols, bound, m); EmitMeans(r, cols, Emit(l, cols, bound).1, m);
    case Either(l, r) => EmitMeans(l, cols, bound, m); EmitMeans(r, cols, Emit(l, cols, bound).1, m);
  }

  // ----- Which arguments are used -----

  /** Every anchored term of the tree still has a column to look at. */
  predicate Searches(q: Query, cols: Columns)
    requires WellFormed(q)
  {
    match q
    case Term(_, anchored) => anchored ==> HasColumn(cols)
    case Near(_, _) => true
    case Filter(exclude, names, _, body) => Searches(body, Narrow(cols, ChosenBy(names, NONE_CHOSEN), exclude))
    case Beside(l, r) => Searches(l, cols) && Searches(r, cols)
    case Without(l, r) => Searches(l, cols) && Searches(r, cols)
    case Both(l, r) => Searches(l, cols) && Searches(r, cols)
    case Either(l, r) => Searches(l, cols) && Searches(r, cols)
  }

  lemma {:induction false} NothingDroppedIffSearches(q: Query, cols: Columns, bound: Bound)
    requires WellFormed(q)
    ensures Dropped(Emit(q, cols, bound).0) == 0 <==> Searches(q, cols)
  {
    match q
    case Term(_, _) =>
    case Near(_, _) =>
    case Filter(exclude, names, _, body) => NothingDroppedIffSearches(body, Narrow(cols, ChosenBy(names, NONE_CHOSEN), exclude), bound);
    case Beside(l, r) => NothingDroppedIffSearches(l, cols, bound); NothingDroppedIffSearches(r, cols, Emit(l, cols, bound).1);
    case Without(l, r) => NothingDroppedIffSearches(l, cols, bound); NothingDroppedIffSearches(r, cols, Emit(l, cols, bound).1);
    case Both(l, r) => NothingDroppedIffSearches(l, cols, bound); NothingDroppedIffSearches(r, cols, Emit(l, cols, bound).1);
    case Either(l, r) => NothingDroppedIffSearches(l, cols, bound); NothingDroppedIffSearches(r, cols, Emit(l, cols, bound).1);
  }
}
