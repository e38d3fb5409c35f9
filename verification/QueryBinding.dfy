/**
 Placeholders and arguments stay together: from the parser, through the WHERE clause and the LIMIT of
 backend/internal/search/postgres_index.go, every emitted $n keeps the value it was emitted for.
 */
module QueryBinding {
  import opened Wrappers
  import opened QueryTokens
  import opened QueryParser

  /** Every placeholder is in range and its argument is the value it was emitted for. */
  predicate Faithful(e: Expr, args: seq<string>) {
    match e
    case Match(arg, value, _) => 1 <= arg <= |args| && args[arg - 1] == value
    case StartsWith(arg, value, _) => 1 <= arg <= |args| && args[arg - 1] == value
    case And(l, r) => Faithful(l, args) && Faithful(r, args)
    case Or(l, r) => Faithful(l, args) && Faithful(r, args)
    case AndNot(l, r) => Faithful(l, args) && Faithful(r, args)
    case False => true
  }

  /** The placeholders that occur. */
  function Used(e: Expr): set<nat> {
    match e
    case Match(arg, _, _) => {arg}
    case StartsWith(arg, _, _) => {arg}
    case And(l, r) => Used(l) + Used(r)
    case Or(l, r) => Used(l) + Used(r)
    case AndNot(l, r) => Used(l) + Used(r)
    case False => {}
  }

  /** The number of anchored terms that had no column left to search. */
  function Dropped(e: Expr): nat {
    match e
    case Match(_, _, _) => 0
    case StartsWith(_, _, _) => 0
    case And(l, r) => Dropped(l) + Dropped(r)
    case Or(l, r) => Dropped(l) + Dropped(r)
    case AndNot(l, r) => Dropped(l) + Dropped(r)
    case False => 1
  }

  /** `narrow` keeps the weight of a column or takes the column out. */
  predicate NarrowedFrom(narrow: Columns, cols: Columns) {
    && (narrow.title == 0 || narrow.title == cols.title)
    && (narrow.headings == 0 || narrow.headings == cols.headings)
    && (narrow.content == 0 || narrow.content == cols.content)
    && (narrow.pageId == 0 || narrow.pageId == cols.pageId)
  }

  predicate OnlyNarrows(e: Expr, cols: Columns) {
    match e
    case Match(_, _, c) => NarrowedFrom(c, cols)
    case StartsWith(_, _, c) => NarrowedFrom(c, cols)
    case And(l, r) => OnlyNarrows(l, cols) && OnlyNarrows(r, cols)
    case Or(l, r) => OnlyNarrows(l, cols) && OnlyNarrows(r, cols)
    case AndNot(l, r) => OnlyNarrows(l, cols) && OnlyNarrows(r, cols)
    case False => true
  }

  function Range(lo: nat, hi: nat): (s: set<nat>)
    ensures forall n :: n in s <==> lo < n <= hi
  {
    if hi <= lo then {} else Range(lo, hi - 1) + {hi}
  }

  predicate Extends(more: seq<string>, args: seq<string>) {
    |args| <= |more| && more[..|args|] == args
  }

  /**
   What a parser function has done to the arguments `before`: appended some, bound each placeholder of its expression
   to one of them, and left over exactly the two of every dropped anchored term.
   */
  ghost predicate BoundBy(e: Expr, args: seq<string>, before: seq<string>, cols: Columns) {
    && Extends(args, before)
    && Faithful(e, args)
    && Used(e) <= Range(|before|, |args|)
    && |Used(e)| + 2 * Dropped(e) == |args| - |before|
    && OnlyNarrows(e, cols)
  }

  lemma {:induction false} FaithfulExtends(e: Expr, args: seq<string>, more: seq<string>)
    requires Faithful(e, args) && Extends(more, args)
    ensures Faithful(e, more)
  {
    match e
    case Match(arg, _, _) => assert more[..|args|][arg - 1] == more[arg - 1];
    case StartsWith(arg, _, _) => assert more[..|args|][arg - 1] == more[arg - 1];
    case And(l, r) => FaithfulExtends(l, args, more); FaithfulExtends(r, args, more);
    case Or(l, r) => FaithfulExtends(l, args, more); FaithfulExtends(r, args, more);
    case AndNot(l, r) => FaithfulExtends(l, args, more); FaithfulExtends(r, args, more);
    case False =>
  }

  lemma {:induction false} NarrowsTransitive(e: Expr, narrow: Columns, cols: Columns)
    requires OnlyNarrows(e, narrow) && NarrowedFrom(narrow, cols)
    ensures OnlyNarrows(e, cols)
  {
    match e
    case And(l, r) => NarrowsTransitive(l, narrow, cols); NarrowsTransitive(r, narrow, cols);
    case Or(l, r) => NarrowsTransitive(l, narrow, cols); NarrowsTransitive(r, narrow, cols);
    case AndNot(l, r) => NarrowsTransitive(l, narrow, cols); NarrowsTransitive(r, narrow, cols);
    case _ =>
  }

  lemma DisjointSum(a: set<nat>, b: set<nat>, lo: nat, mid: nat, hi: nat)
    requires lo <= mid <= hi && a <= Range(lo, mid) && b <= Range(mid, hi)
    ensures a + b <= Range(lo, hi) && |a + b| == |a| + |b|
  {
    forall n | n in a + b
      ensures n in Range(lo, hi) && !(n in a && n in b)
    {
      assert n in a ==> n in Range(lo, mid);
      assert n in b ==> n in Range(mid, hi);
    }
    assert a !! b;
  }

  lemma ExtendsTransitive(a: seq<string>, b: seq<string>, c: seq<string>)
    requires Extends(b, a) && Extends(c, b)
    ensures Extends(c, a)
  {
    assert c[..|a|] == c[..|b|][..|a|];
  }

  /** Two operands, one after the other; the operator does not matter. */
  lemma {:induction false} BoundTogether(l: Expr, r: Expr, before: seq<string>, mid: seq<string>, args: seq<string>, cols: Columns)
    requires BoundBy(l, mid, before, cols) && BoundBy(r, args, mid, cols)
    ensures BoundBy(And(l, r), args, before, cols)
    ensures BoundBy(Or(l, r), args, before, cols)
    ensures BoundBy(AndNot(l, r), args, before, cols)
  {
    ExtendsTransitive(before, mid, args);
    FaithfulExtends(l, mid, args);
    DisjointSum(Used(l), Used(r), |before|, |mid|, |args|);
  }

  lemma TermIsBound(bound: Bound, cols: Columns, anchored: bool, query: string, text: string)
    ensures var (e, more) := BindTerm(bound, cols, anchored, query, text); BoundBy(e, more.args, bound.args, cols)
  {
    var (e, more) := BindTerm(bound, cols, anchored, query, text);
    var n := |bound.args|;
    assert more.args[..n] == bound.args;
    if anchored && HasColumn(cols) {
      assert Used(e) == {n + 1, n + 2};
    }
  }

  lemma NearIsBound(bound: Bound, cols: Columns, query: string, texts: seq<string>)
    ensures var (e, more) := BindNear(bound, cols, query, texts); BoundBy(e, more.args, bound.args, cols)
  {
    assert (bound.args + [query])[..|bound.args|] == bound.args;
  }

  lemma FilterNarrows(ts: seq<Token>, cols: Columns)
    ensures ColumnFilter(ts, cols).Filtered? ==> NarrowedFrom(ColumnFilter(ts, cols).columns, cols)
  {
  }

  // ----- The invariant holds for everything the parser returns -----

  lemma {:induction false} AtomBinds(ts: seq<Token>, cols: Columns, bound: Bound)
    ensures var r := Atom(ts, cols, bound); r.Some? ==> BoundBy(r.value.expr, r.value.bound.args, bound.args, cols)
    decreases |ts|, 1
  {
    match ColumnFilter(ts, cols)
    case BadFilter =>
    case Filtered(narrowed, rest) =>
      AtomBinds(rest, narrowed, bound);
      FilterNarrows(ts, cols);
      if Atom(rest, narrowed, bound).Some? {
        NarrowsTransitive(Atom(rest, narrowed, bound).value.expr, narrowed, cols);
      }
    case NoFilter =>
      if Is(ts, Sym('(')) {
        OrBinds(ts[1..], cols, bound);
      } else if NearAhead(ts) {
        var n := NearGroup(ts[2..]);
        if n.Some? {
          NearIsBound(bound, cols, n.value.query, n.value.texts);
        }
      } else {
        var p := Phrase(Skip(ts, Sym('^')));
        if p.Some? {
          TermIsBound(bound, cols, Is(ts, Sym('^')), PhraseQuery(p.value.prefix, p.value.text), p.value.text);
        }
      }
  }

  lemma {:induction false} ImplicitTailBinds(left: Parsed, cols: Columns, before: seq<string>)
    requires BoundBy(left.expr, left.bound.args, before, cols)
    ensures var r := ImplicitTail(left, cols); r.Some? ==> BoundBy(r.value.expr, r.value.bound.args, before, cols)
    decreases |left.rest|, 2
  {
    if !EndsImplicit(left.rest) {
      var r := Atom(left.rest, cols, left.bound);
      AtomBinds(left.rest, cols, left.bound);
      if r.Some? {
        BoundTogether(left.expr, r.value.expr, before, left.bound.args, r.value.bound.args, cols);
        ImplicitTailBinds(Parsed(And(left.expr, r.value.expr), r.value.bound, r.value.rest), cols, before);
      }
    }
  }

  lemma {:induction false} ImplicitBinds(ts: seq<Token>, cols: Columns, bound: Bound)
    ensures var r := ParseImplicit(ts, cols, bound); r.Some? ==> BoundBy(r.value.expr, r.value.bound.args, bound.args, cols)
    decreases |ts|, 3
  {
    AtomBinds(ts, cols, bound);
    if Atom(ts, cols, bound).Some? {
      ImplicitTailBinds(Atom(ts, cols, bound).value, cols, bound.args);
    }
  }

  lemma {:induction false} NotTailBinds(left: Parsed, cols: Columns, before: seq<string>)
    requires BoundBy(left.expr, left.bound.args, before, cols)
    ensures var r := NotTail(left, cols); r.Some? ==> BoundBy(r.value.expr, r.value.bound.args, before, cols)
    decreases |left.rest|, 0
  {
    if Is(left.rest, NotOp) {
      var r := ParseImplicit(left.rest[1..], cols, left.bound);
      ImplicitBinds(left.rest[1..], cols, left.bound);
      if r.Some? {
        BoundTogether(left.expr, r.value.expr, before, left.bound.args, r.value.bound.args, cols);
        NotTailBinds(Parsed(AndNot(left.expr, r.value.expr), r.value.bound, r.value.rest), cols, before);
      }
    }
  }

  lemma {:induction false} NotBinds(ts: seq<Token>, cols: Columns, bound: Bound)
    ensures var r := ParseNot(ts, cols, bound); r.Some? ==> BoundBy(r.value.expr, r.value.bound.args, bound.args, cols)
    decreases |ts|, 4
  {
    ImplicitBinds(ts, cols, bound);
    if ParseImplicit(ts, cols, bound).Some? {
      NotTailBinds(ParseImplicit(ts, cols, bound).value, cols, bound.args);
    }
  }

  lemma {:induction false} AndTailBinds(left: Parsed, cols: Columns, before: seq<string>)
    requires BoundBy(left.expr, left.bound.args, before, cols)
    ensures var r := AndTail(left, cols); r.Some? ==> BoundBy(r.value.expr, r.value.bound.args, before, cols)
    decreases |left.rest|, 0
  {
    if Is(left.rest, AndOp) {
      var r := ParseNot(left.rest[1..], cols, left.bound);
      NotBinds(left.rest[1..], cols, left.bound);
      if r.Some? {
        BoundTogether(left.expr, r.value.expr, before, left.bound.args, r.value.bound.args, cols);
        AndTailBinds(Parsed(And(left.expr, r.value.expr), r.value.bound, r.value.rest), cols, before);
      }
    }
  }

  lemma {:induction false} AndBinds(ts: seq<Token>, cols: Columns, bound: Bound)
    ensures var r := ParseAnd(ts, cols, bound); r.Some? ==> BoundBy(r.value.expr, r.value.bound.args, bound.args, cols)
    decreases |ts|, 5
  {
    NotBinds(ts, cols, bound);
    if ParseNot(ts, cols, bound).Some? {
      AndTailBinds(ParseNot(ts, cols, bound).value, cols, bound.args);
    }
  }

  lemma {:induction false} OrTailBinds(left: Parsed, cols: Columns, before: seq<string>)
    requires BoundBy(left.expr, left.bound.args, before, cols)
    ensures var r := OrTail(left, cols); r.Some? ==> BoundBy(r.value.expr, r.value.bound.args, before, cols)
    decreases |left.rest|, 0
  {
    if Is(left.rest, OrOp) {
      var r := ParseAnd(left.rest[1..], cols, left.bound);
      AndBinds(left.rest[1..], cols, left.bound);
      if r.Some? {
        BoundTogether(left.expr, r.value.expr, before, left.bound.args, r.value.bound.args, cols);
        OrTailBinds(Parsed(Or(left.expr, r.value.expr), r.value.bound, r.value.rest), cols, before);
      }
    }
  }

  /** The invariant for a whole expression: whatever the tokens, whatever was bound before. */
  lemma {:induction false} OrBinds(ts: seq<Token>, cols: Columns, bound: Bound)
    ensures var r := ParseOr(ts, cols, bound); r.Some? ==> BoundBy(r.value.expr, r.value.bound.args, bound.args, cols)
    decreases |ts|, 6
  {
    AndBinds(ts, cols, bound);
    if ParseAnd(ts, cols, bound).Some? {
      OrTailBinds(ParseAnd(ts, cols, bound).value, cols, bound.args);
    }
  }

  // ----- Compiled queries -----

  lemma {:induction false} FaithfulSkipsFirst(e: Expr, args: seq<string>, first: string)
    requires args != [] && Faithful(e, args) && 1 !in Used(e)
    ensures Faithful(e, args[0 := first])
  {
    match e
    case And(l, r) => FaithfulSkipsFirst(l, args, first); FaithfulSkipsFirst(r, args, first);
    case Or(l, r) => FaithfulSkipsFirst(l, args, first); FaithfulSkipsFirst(r, args, first);
    case AndNot(l, r) => FaithfulSkipsFirst(l, args, first); FaithfulSkipsFirst(r, args, first);
    case _ =>
  }

  lemma {:induction false} RangeSize(lo: nat, hi: nat)
    requires lo <= hi
    ensures |Range(lo, hi)| == hi - lo
  {
    if lo < hi {
      RangeSize(lo, hi - 1);
    }
  }

  lemma SubsetOfEqualSize(a: set<nat>, b: set<nat>)
    requires a <= b
    ensures a == b <==> |a| == |b|
  {
    if a != b {
      var rest := b - a;
      assert b == a + rest && a !! rest && rest != {};
      assert |b| == |a| + |rest|;
    }
  }

  /**
   Main result for the compiler: filling in $1 last disturbs no placeholder, and the arguments behind $1 are all used
   unless an anchored term was dropped for want of a column; QueryMeaning.ArgumentsAreUsed reads that off the query.
   */
  lemma {:induction false} CompiledIsBound(ts: seq<Token>)
    ensures var r := CompileTokens(ts);
            r.Some? ==>
              && r.value.args != []
              && Faithful(r.value.expr, r.value.args)
              && 1 !in Used(r.value.expr)
              && |Used(r.value.expr)| + 2 * Dropped(r.value.expr) == |r.value.args| - 1
              && (Used(r.value.expr) == Range(1, |r.value.args|) <==> Dropped(r.value.expr) == 0)
              && OnlyNarrows(r.value.expr, ALL_COLUMNS)
  {
    OrBinds(ts, ALL_COLUMNS, Bound([""], []));
    var r := CompileTokens(ts);
    if r.Some? {
      var p := ParseOr(ts, ALL_COLUMNS, Bound([""], [])).value;
      FaithfulSkipsFirst(p.expr, p.bound.args, JoinTexts(QuotedTexts(p.bound.keywords)));
      RangeSize(1, |r.value.args|);
      SubsetOfEqualSize(Used(p.expr), Range(1, |r.value.args|));
    }
  }

  // ----- The WHERE clause and the search statement -----

  datatype Arg = TextArg(text: string) | NumberArg(n: int)

  /** `idPlaceholders` are the $n of "page_id IN (…)"; None when the search is not restricted to pages. */
  datatype Where = Where(query: Option<Expr>, idPlaceholders: Option<seq<nat>>)

  function TextArgs(texts: seq<string>): (r: seq<Arg>)
    ensures |r| == |texts| && forall i :: 0 <= i < |r| ==> r[i] == TextArg(texts[i])
  {
    if texts == [] then [] else TextArgs(texts[..|texts| - 1]) + [TextArg(texts[|texts| - 1])]
  }

  /** postgres.Placeholders. */
  function Placeholders(start: nat, count: nat): (r: seq<nat>)
    ensures |r| == count && forall i :: 0 <= i < count ==> r[i] == start + i
  {
    seq(count, i => start + i)
  }

  predicate FaithfulArgs(e: Expr, args: seq<Arg>) {
    match e
    case Match(arg, value, _) => 1 <= arg <= |args| && args[arg - 1] == TextArg(value)
    case StartsWith(arg, value, _) => 1 <= arg <= |args| && args[arg - 1] == TextArg(value)
    case And(l, r) => FaithfulArgs(l, args) && FaithfulArgs(r, args)
    case Or(l, r) => FaithfulArgs(l, args) && FaithfulArgs(r, args)
    case AndNot(l, r) => FaithfulArgs(l, args) && FaithfulArgs(r, args)
    case False => true
  }

  /** Every placeholder of the clause holds, in `args`, what it was emitted for. */
  ghost predicate WhereHolds(w: Where, args: seq<Arg>, ids: Option<seq<string>>) {
    && (w.query.Some? ==> FaithfulArgs(w.query.value, args))
    && (w.idPlaceholders.Some? <==> ids.Some?)
    && (ids.Some? ==>
          && |w.idPlaceholders.value| == |ids.value|
          && forall i :: 0 <= i < |ids.value| ==>
               var n := w.idPlaceholders.value[i]; 1 <= n <= |args| && args[n - 1] == TextArg(ids.value[i]))
  }

  lemma {:induction false} FaithfulAsArgs(e: Expr, texts: seq<string>, args: seq<Arg>)
    requires Faithful(e, texts) && |texts| <= |args| && forall i :: 0 <= i < |texts| ==> args[i] == TextArg(texts[i])
    ensures FaithfulArgs(e, args)
  {
    match e
    case And(l, r) => FaithfulAsArgs(l, texts, args); FaithfulAsArgs(r, texts, args);
    case Or(l, r) => FaithfulAsArgs(l, texts, args); FaithfulAsArgs(r, texts, args);
    case AndNot(l, r) => FaithfulAsArgs(l, texts, args); FaithfulAsArgs(r, texts, args);
    case _ =>
  }

  lemma {:induction false} FaithfulArgsGrow(e: Expr, args: seq<Arg>, more: seq<Arg>)
    requires FaithfulArgs(e, args) && |args| <= |more| && forall i :: 0 <= i < |args| ==> more[i] == args[i]
    ensures FaithfulArgs(e, more)
  {
    match e
    case And(l, r) => FaithfulArgsGrow(l, args, more); FaithfulArgsGrow(r, args, more);
    case Or(l, r) => FaithfulArgsGrow(l, args, more); FaithfulArgsGrow(r, args, more);
    case AndNot(l, r) => FaithfulArgsGrow(l, args, more); FaithfulArgsGrow(r, args, more);
    case _ =>
  }

  /** The condition of a non-empty query with its arguments. */
  method CompileCondition(query: string) returns (r: Option<(Expr, seq<Arg>)>)
    ensures r.Some? <==> CompileText(query).Some?
    ensures r.Some? ==> r.value == (CompileText(query).value.expr, TextArgs(CompileText(query).value.args))
    ensures r.Some? ==> FaithfulArgs(r.value.0, r.value.1)
  {
    var compiled := CompilePostgresQuery(query);
    if compiled.None? {
      return None;
    }
    CompiledIsBound(Tokens(BuildFuzzyQuery(query)).value);
    FaithfulAsArgs(compiled.value.expr, compiled.value.args, TextArgs(compiled.value.args));
    return Some((compiled.value.expr, TextArgs(compiled.value.args)));
  }

  /** postgresSearchWhere: the compiled query, if any, then one placeholder per page id. None is a query error. */
  method PostgresSearchWhere(query: string, ids: Option<seq<string>>) returns (r: Option<(Where, seq<Arg>)>)
    ensures r.Some? ==> WhereHolds(r.value.0, r.value.1, ids)
    ensures r.None? <==> query != "" && CompileText(query).None?
    ensures r.Some? ==> r.value.0.query == if query == "" then None else Some(CompileText(query).value.expr)
  {
    hide CompileText, FaithfulArgs;
    var args: seq<Arg> := [];
    var condition := None;
    if query != "" {
      var compiled := CompileCondition(query);
      if compiled.None? {
        return None;
      }
      condition := Some(compiled.value.0);
      args := compiled.value.1;
    }
    if ids.None? {
      return Some((Where(condition, None), args));
    }
    var more := AppendIds(args, ids.value);
    if condition.Some? {
      FaithfulArgsGrow(condition.value, args, more);
    }
    return Some((Where(condition, Some(Placeholders(|args| + 1, |ids.value|))), more));
  }

  method AppendIds(args: seq<Arg>, ids: seq<string>) returns (more: seq<Arg>)
    ensures |more| == |args| + |ids|
    ensures forall k :: 0 <= k < |args| ==> more[k] == args[k]
    ensures forall k :: 0 <= k < |ids| ==> more[|args| + k] == TextArg(ids[k])
  {
    more := args;
    for i := 0 to |ids|
      invariant |more| == |args| + i
      invariant forall k :: 0 <= k < |args| ==> more[k] == args[k]
      invariant forall k :: 0 <= k < i ==> more[|args| + k] == TextArg(ids[k])
    {
      more := more + [TextArg(ids[i])];
    }
  }

  /** The numbering of LIMIT and OFFSET in Search. */
  method SearchStatement(query: string, ids: Option<seq<string>>, offset: int, limit: int)
    returns (r: Option<(Where, seq<Arg>, nat, nat)>)
    ensures r.None? <==> query != "" && CompileText(query).None?
    ensures r.Some? ==> r.value.0.query == if query == "" then None else Some(CompileText(query).value.expr)
    ensures r.Some? ==>
              var (w, args, limitAt, offsetAt) := r.value;
              && WhereHolds(w, args, ids)
              && 1 <= limitAt <= |args| && args[limitAt - 1] == NumberArg(limit)
              && 1 <= offsetAt <= |args| && args[offsetAt - 1] == NumberArg(offset)
  {
    var where := PostgresSearchWhere(query, ids);
    if where.None? {
      return None;
    }
    var (w, args) := where.value;
    var all := args + [NumberArg(limit), NumberArg(offset)];
    if w.query.Some? {
      FaithfulArgsGrow(w.query.value, args, all);
    }
    return Some((w, all, |args| + 1, |args| + 2));
  }
}
