/** The passes in the order a pattern goes through them: descriptor lowering, filter hoisting,
    predicate pushdown.  Compiled and run, a pattern yields the rows of the standard's reading of
    the pattern as written. */
module Pipeline {
  import opened Values
  import opened Syntax
  import opened RowAlgebra
  import opened Runtime
  import opened Evaluator
  import opened Scoping
  import opened FreshNames
  import opened Hoist
  import opened HoistRows
  import opened MatchChain
  import opened Pushdown
  import opened PushdownRows
  import opened PushdownExact
  import opened Lowering
  import opened LoweringRows

  // ---------------------------------------------------------------- lowering and deferral

  lemma {:induction false} LowerFold(p: PathPattern, es: seq<Expr>, n: nat, taken: set<string>)
    ensures Lower(FoldFilters(p, es), n, taken) == (FoldFilters(Lower(p, n, taken).0, es), Lower(p, n, taken).1)
    decreases |es|
  {
    if es != [] {
      LowerFold(Filter(p, es[0]), es[1..], n, taken);
    }
  }

  /** Same counter, same variables. */
  ghost predicate Alike(q: (PathPattern, nat), r: (PathPattern, nat)) {
    q.1 == r.1 && FreeVars(q.0) == FreeVars(r.0) && PathVars(q.0) == PathVars(r.0) && Sure(q.0) == Sure(r.0)
  }

  /** Taking the filters out first draws the same names. */
  lemma {:induction false} BareAlike(p: PathPattern, n: nat, taken: set<string>)
    ensures Alike(Lower(Bare(p), n, taken), Lower(p, n, taken))
    decreases p, 0
  {
    match p
    case Node(_) =>
    case Edge(_, _) =>
    case Filter(i, _) => BareAlike(i, n, taken);
    case Concat(a, b) => BareAlike(a, n, taken); BareAlike(b, Lower(a, n, taken).1, taken);
    case Join(a, b) => BareAlike(a, n, taken); BareAlike(b, Lower(a, n, taken).1, taken);
    case Named(_, i) => BareAlike(i, n, taken);
    case Union(a, b) => DeferredAlike(a, n, taken); DeferredAlike(b, Lower(a, n, taken).1, taken);
    case Repeat(i, _, _) => DeferredAlike(i, n, taken);
    case Questioned(i) => DeferredAlike(i, n, taken);
    case Selected(_, i) => DeferredAlike(i, n, taken);
  }

  lemma {:induction false} DeferredAlike(p: PathPattern, n: nat, taken: set<string>)
    ensures Alike(Lower(Deferred(p), n, taken), Lower(p, n, taken))
    decreases p, 1
  {
    BareAlike(p, n, taken);
    LowerFold(Bare(p), Collected(p), n, taken);
    FoldShape(Lower(Bare(p), n, taken).0, Collected(p));
  }

  /** The predicates that lowering itself writes into the scope of `p`. */
  function InlineFilters(p: PathPattern, n: nat, taken: set<string>): seq<Expr> {
    Collected(Lower(Bare(p), n, taken).0)
  }

  lemma EqReads(x: string, f: ValueFilter)
    requires f.1.Const?
    ensures Reads(EqExpr(x, f)) == {x}
  {
    var obj, lit := AttrLookup(x, f.0), f.1;
    assert Referenced(obj) == {x} && SubqueryVars(obj) == {};
    assert Referenced(lit) == {} && SubqueryVars(lit) == {};
    var e := Binop(Cmp(Eq), obj, lit);
    assert Referenced(e) == Referenced(obj) + Referenced(lit)
      && SubqueryVars(e) == SubqueryVars(obj) + SubqueryVars(lit);
  }

  lemma {:induction false} FiltersExprReads(x: string, fs: seq<ValueFilter>)
    requires fs != [] && forall i :: 0 <= i < |fs| ==> fs[i].1.Const?
    ensures Reads(FiltersExpr(x, fs)) == {x}
  {
    EqReads(x, fs[|fs| - 1]);
    if |fs| > 1 {
      FiltersExprReads(x, fs[..|fs| - 1]);
    }
  }

  ghost predicate ReadsWithin(es: seq<Expr>, vars: set<string>) {
    forall e :: e in es ==> Reads(e) <= vars
  }

  lemma ElementGenerated(p: PathPattern, n: nat, taken: set<string>)
    requires (p.Node? || p.Edge?) && DescSound(p.desc)
    ensures ReadsWithin(Collected(LowerElement(p, n, taken).0), Sure(LowerElement(p, n, taken).0))
  {
    if HasFilters(p.desc) {
      var d := p.desc.value;
      assert forall i :: 0 <= i < |d.valueFilters| ==> LiteralSound(d.props, d.valueFilters[i]);
      FiltersExprReads(ElementName(d, n, taken), d.valueFilters);
    }
  }

  /** Generated predicates read only variables that every row of the scope binds. */
  lemma {:induction false} GeneratedReads(p: PathPattern, n: nat, taken: set<string>, gone: set<string>)
    requires Lowerable(p, gone)
    ensures ReadsWithin(InlineFilters(p, n, taken), Sure(Lower(p, n, taken).0))
  {
    match p
    case Node(_) => ElementGenerated(p, n, taken);
    case Edge(_, _) => ElementGenerated(p, n, taken);
    case Filter(i, _) => GeneratedReads(i, n, taken, gone);
    case Named(_, i) => GeneratedReads(i, n, taken, gone);
    case Concat(a, b) =>
      BareAlike(a, n, taken);
      GeneratedReads(a, n, taken, gone);
      GeneratedReads(b, Lower(a, n, taken).1, taken, gone);
    case Join(a, b) =>
      BareAlike(a, n, taken);
      GeneratedReads(a, n, taken, gone);
      GeneratedReads(b, Lower(a, n, taken).1, taken, gone);
    case _ =>
  }

  /** The filters of a lowered scope are the written ones and the generated ones. */
  lemma {:induction false} LoweredFilters(p: PathPattern, n: nat, taken: set<string>, e: Expr)
    ensures e in Collected(Lower(p, n, taken).0) <==> e in Collected(p) || e in InlineFilters(p, n, taken)
  {
    match p
    case Filter(i, f) => LoweredFilters(i, n, taken, e);
    case Named(_, i) => LoweredFilters(i, n, taken, e);
    case Concat(a, b) =>
      BareAlike(a, n, taken);
      LoweredFilters(a, n, taken, e);
      LoweredFilters(b, Lower(a, n, taken).1, taken, e);
    case Join(a, b) =>
      BareAlike(a, n, taken);
      LoweredFilters(a, n, taken, e);
      LoweredFilters(b, Lower(a, n, taken).1, taken, e);
    case _ =>
  }

  // ---------------------------------------------------------------- rows

  /** `x` is `q` without the filters `es`. */
  ghost predicate Stripped(env: Env, pol: Policy, q: PathPattern, x: PathPattern, es: seq<Expr>) {
    && FreeVars(q) == FreeVars(x)
    && Rows(env, pol, q) == FilterSeq(Rows(env, pol, x), AllTest(env, es))
    && ReadsWithin(es, Sure(x))
  }

  lemma ReadsSure(es: seq<Expr>, sure: set<string>, other: set<string>)
    requires ReadsWithin(es, sure)
    ensures AllRead(es, other, sure)
  {
  }

  lemma StrippedConcat(env: Env, pol: Policy, q: PathPattern, x: PathPattern, es: seq<Expr>,
                       r: PathPattern, y: PathPattern, fs: seq<Expr>)
    requires Stripped(env, pol, q, x, es) && Stripped(env, pol, r, y, fs)
    ensures Rows(env, pol, Concat(q, r)) == FilterSeq(Rows(env, pol, Concat(x, y)), AllTest(env, es + fs))
  {
    RowsBind(env, pol, x);
    RowsBind(env, pol, y);
    ReadsSure(es, Sure(x), Declared(y));
    ReadsSure(fs, Sure(y), Declared(x));
    ConcatFiltersOnBoth(env, Rows(env, pol, x), Rows(env, pol, y), es, fs, Sure(x), Declared(x), Sure(y), Declared(y));
  }

  lemma StrippedJoin(env: Env, pol: Policy, q: PathPattern, x: PathPattern, es: seq<Expr>,
                     r: PathPattern, y: PathPattern, fs: seq<Expr>)
    requires Picks(env) && Stripped(env, pol, q, x, es) && Stripped(env, pol, r, y, fs)
    requires FreeVars(x) * FreeVars(y) == {} ==> AllRead(es, Declared(y), {})
    ensures Rows(env, pol, Join(q, r)) == FilterSeq(Rows(env, pol, Join(x, y)), AllTest(env, es + fs))
  {
    var shared := FreeVars(x) * FreeVars(y);
    StrippedPair(env, Rows(env, pol, x), Rows(env, pol, y), shared, es, fs, Sure(x), Declared(x), Sure(y),
                 Declared(y)) by {
      RowsBind(env, pol, x);
      RowsBind(env, pol, y);
    }
    RowsOfJoin(env, pol, q, r, shared);
    RowsOfJoin(env, pol, x, y, shared);
  }

  lemma StrippedPair(env: Env, xs: seq<Row>, ys: seq<Row>, shared: set<string>, es: seq<Expr>, fs: seq<Expr>,
                     sure: set<string>, decl: set<string>, sure': set<string>, decl': set<string>)
    requires Picks(env) && Binds(xs, sure, decl) && Binds(ys, sure', decl')
    requires ReadsWithin(es, sure) && ReadsWithin(fs, sure') && (shared == {} ==> AllRead(es, decl', {}))
    ensures PairAll(FilterSeq(xs, AllTest(env, es)), FilterSeq(ys, AllTest(env, fs)), JoinTest(env, shared), JoinMerge)
         == FilterSeq(PairAll(xs, ys, JoinTest(env, shared), JoinMerge), AllTest(env, es + fs))
  {
    ReadsSure(es, sure, decl');
    ReadsSure(fs, sure', decl);
    JoinFiltersOnBoth(env, xs, ys, shared, es, fs, sure, decl, sure', decl');
  }

  /** In an unchecked product the generated predicates of the left operand read nothing of the right. */
  lemma GeneratedApart(a: PathPattern, b: PathPattern, n: nat, m: nat, taken: set<string>, gone: set<string>)
    requires Lowerable(a, gone) && JoinScoped(Lower(a, n, taken).0, Lower(b, m, taken).0)
    ensures FreeVars(Lower(a, n, taken).0) * FreeVars(Lower(b, m, taken).0) == {} ==>
      AllRead(InlineFilters(a, n, taken), Declared(Lower(b, m, taken).0), {})
  {
    var q, r := Lower(a, n, taken).0, Lower(b, m, taken).0;
    GeneratedReads(a, n, taken, gone);
    SureDeclared(q);
    if FreeVars(q) * FreeVars(r) == {} {
      forall e | e in InlineFilters(a, n, taken) ensures Reads(e) * Declared(r) <= {} {
        LoweredFilters(a, n, taken, e);
        assert Referenced(e) <= Reads(e) <= Sure(q);
      }
    }
  }

  lemma StrippedNamed(env: Env, v: string, rows: seq<Row>, base: seq<Row>, es: seq<Expr>)
    requires rows == FilterSeq(base, AllTest(env, es)) && forall e :: e in es ==> v !in Reads(e)
    ensures MapSeq(rows, NameRow(v)) == FilterSeq(MapSeq(base, NameRow(v)), AllTest(env, es))
  {
    NamingAndFilters(env, v, base, es);
  }

  lemma {:induction false} SureDeclared(p: PathPattern)
    ensures Sure(p) <= Declared(p)
  {
    match p
    case Concat(a, b) => SureDeclared(a); SureDeclared(b);
    case Join(a, b) => SureDeclared(a); SureDeclared(b);
    case Union(a, b) => SureDeclared(a); SureDeclared(b);
    case Filter(i, _) => SureDeclared(i);
    case Repeat(i, _, _) => SureDeclared(i);
    case Selected(_, i) => SureDeclared(i);
    case Named(_, i) => SureDeclared(i);
    case _ =>
  }

  /** No generated predicate below a path variable reads it. */
  lemma GeneratedUnnamed(v: string, i: PathPattern, n: nat, taken: set<string>, gone: set<string>)
    requires Lowerable(i, gone) && WellScoped(Named(v, Lower(i, n, taken).0))
    ensures forall e :: e in InlineFilters(i, n, taken) ==> v !in Reads(e)
  {
    var q := Lower(i, n, taken).0;
    GeneratedReads(i, n, taken, gone);
    SureDeclared(q);
    forall e | e in InlineFilters(i, n, taken) ensures v !in Reads(e) {
      LoweredFilters(i, n, taken, e);
      assert Referenced(e) <= Reads(e) <= Sure(q);
    }
  }

  /** Lowering a bare scope leaves its generated predicates in place; pulling them to the root of
      the scope changes no row. */
  lemma {:induction false} BareRows(env: Env, pol: Policy, p: PathPattern, n: nat, taken: set<string>,
                                    gone: set<string>)
    requires Picks(env) && Lowerable(p, gone) && WellScoped(Lower(p, n, taken).0)
    ensures Stripped(env, pol, Lower(Bare(p), n, taken).0, Bare(Lower(p, n, taken).0), InlineFilters(p, n, taken))
    decreases p, 1
  {
    BareAlike(p, n, taken);
    BareKeepsVars(Lower(p, n, taken).0);
    GeneratedReads(p, n, taken, gone);
    if p.Concat? || p.Join? {
      BarePairRows(env, pol, p, n, taken, gone);
    } else if p.Named? {
      BareRows(env, pol, p.inner, n, taken, gone);
      BareKeepsVars(Lower(p.inner, n, taken).0);
      GeneratedUnnamed(p.name, p.inner, n, taken, gone);
      StrippedNamed(env, p.name, Rows(env, pol, Lower(Bare(p.inner), n, taken).0),
                    Rows(env, pol, Bare(Lower(p.inner, n, taken).0)), InlineFilters(p.inner, n, taken));
    } else if p.Filter? {
      BareRows(env, pol, p.inner, n, taken, gone);
    } else if p.Node? || p.Edge? {
      BareElementRows(env, pol, p, n, taken);
    } else {
      BareOpaqueRows(env, pol, p, n, taken, gone);
    }
  }

  lemma BareElementRows(env: Env, pol: Policy, p: PathPattern, n: nat, taken: set<string>)
    requires p.Node? || p.Edge?
    ensures Rows(env, pol, Lower(Bare(p), n, taken).0)
         == FilterSeq(Rows(env, pol, Bare(Lower(p, n, taken).0)), AllTest(env, InlineFilters(p, n, taken)))
  {
    var q := LowerElement(p, n, taken).0;
    if HasFilters(p.desc) {
      assert Collected(q) == [] + [q.expr] == [q.expr];
      assert Bare(q) == q.inner;
    } else {
      FilterNothing(env, Rows(env, pol, p));
    }
  }

  lemma {:induction false} BarePairRows(env: Env, pol: Policy, p: PathPattern, n: nat, taken: set<string>,
                                        gone: set<string>)
    requires Picks(env) && Lowerable(p, gone) && WellScoped(Lower(p, n, taken).0) && (p.Concat? || p.Join?)
    ensures Rows(env, pol, Lower(Bare(p), n, taken).0)
         == FilterSeq(Rows(env, pol, Bare(Lower(p, n, taken).0)), AllTest(env, InlineFilters(p, n, taken)))
    decreases p, 0
  {
    var a, b, m := p.fst, p.snd, Lower(p.fst, n, taken).1;
    BareAlike(a, n, taken);
    BareRows(env, pol, a, n, taken, gone);
    BareRows(env, pol, b, m, taken, gone);
    BareKeepsVars(Lower(a, n, taken).0);
    BareKeepsVars(Lower(b, m, taken).0);
    var q, x, es := Lower(Bare(a), n, taken).0, Bare(Lower(a, n, taken).0), InlineFilters(a, n, taken);
    var r, y, fs := Lower(Bare(b), m, taken).0, Bare(Lower(b, m, taken).0), InlineFilters(b, m, taken);
    if p.Concat? {
      StrippedConcat(env, pol, q, x, es, r, y, fs);
    } else {
      GeneratedApart(a, b, n, m, taken, gone);
      StrippedJoin(env, pol, q, x, es, r, y, fs);
    }
  }

  lemma {:induction false} BareOpaqueRows(env: Env, pol: Policy, p: PathPattern, n: nat, taken: set<string>,
                                          gone: set<string>)
    requires Picks(env) && Lowerable(p, gone) && WellScoped(Lower(p, n, taken).0)
    requires p.Union? || p.Repeat? || p.Questioned? || p.Selected?
    ensures Rows(env, pol, Lower(Bare(p), n, taken).0)
         == FilterSeq(Rows(env, pol, Bare(Lower(p, n, taken).0)), AllTest(env, InlineFilters(p, n, taken)))
    decreases p, 0
  {
    FilterNothing(env, Rows(env, pol, Bare(Lower(p, n, taken).0)));
    match p
    case Union(a, b) =>
      var m := Lower(a, n, taken).1;
      DeferredRows(env, pol, a, n, taken, gone);
      DeferredRows(env, pol, b, m, taken, gone);
      SameVariables(a, n, taken);
      SameVariables(b, m, taken);
    case Repeat(i, _, _) =>
      DeferredRows(env, pol, i, n, taken, gone);
      SameVariables(i, n, taken);
    case Questioned(i) => DeferredRows(env, pol, i, n, taken, gone);
    case Selected(prefix, i) => DeferredRows(env, PolicyFor(prefix), i, n, taken, gone);
  }

  lemma SameVariables(p: PathPattern, n: nat, taken: set<string>)
    ensures Alike(Lower(Deferred(p), n, taken), Lower(p, n, taken))
    ensures FreeVars(Lower(Deferred(p), n, taken).0) == FreeVars(Deferred(Lower(p, n, taken).0))
  {
    DeferredAlike(p, n, taken);
    DeferredKeepsVars(Lower(p, n, taken).0);
  }

  /** Lowering and deferring filters to their scope's root commute, row for row. */
  lemma {:induction false} DeferredRows(env: Env, pol: Policy, p: PathPattern, n: nat, taken: set<string>,
                                        gone: set<string>)
    requires Picks(env) && Lowerable(p, gone) && WellScoped(Lower(p, n, taken).0)
    ensures Rows(env, pol, Lower(Deferred(p), n, taken).0) == Rows(env, pol, Deferred(Lower(p, n, taken).0))
    ensures Lower(Deferred(p), n, taken).1 == Lower(p, n, taken).1
    decreases p, 2
  {
    var q := Lower(p, n, taken).0;
    DeferredAlike(p, n, taken);
    BareRows(env, pol, p, n, taken, gone);
    LowerFold(Bare(p), Collected(p), n, taken);
    RowsFold(env, pol, Lower(Bare(p), n, taken).0, Collected(p));
    RowsFold(env, pol, Bare(q), Collected(q));
    forall e: Expr ensures e in Collected(q) <==> e in InlineFilters(p, n, taken) || e in Collected(p) {
      LoweredFilters(p, n, taken, e);
    }
    FilterTwice(env, Rows(env, pol, Bare(q)), InlineFilters(p, n, taken), Collected(p), Collected(q));
  }

  // ---------------------------------------------------------------- the conditions survive deferral

  lemma {:induction false} LowerableFold(p: PathPattern, es: seq<Expr>, gone: set<string>)
    requires Lowerable(p, gone) && forall e :: e in es ==> Reads(e) * gone == {}
    ensures Lowerable(FoldFilters(p, es), gone)
    decreases |es|
  {
    if es != [] {
      assert es[0] in es && forall e :: e in es[1..] ==> e in es;
      LowerableFold(Filter(p, es[0]), es[1..], gone);
    }
  }

  lemma {:induction false} LowerableCollected(p: PathPattern, gone: set<string>, e: Expr)
    requires Lowerable(p, gone) && e in Collected(p)
    ensures Reads(e) * gone == {}
  {
    match p
    case Filter(i, f) => if e != f { LowerableCollected(i, gone, e); }
    case Concat(a, b) => LowerableCollected(if e in Collected(a) then a else b, gone, e);
    case Join(a, b) => LowerableCollected(if e in Collected(a) then a else b, gone, e);
    case Named(_, i) => LowerableCollected(i, gone, e);
    case _ =>
  }

  lemma {:induction false} LowerableBare(p: PathPattern, gone: set<string>)
    requires Lowerable(p, gone)
    ensures Lowerable(Bare(p), gone)
    decreases p, 0
  {
    match p
    case Filter(i, _) => LowerableBare(i, gone);
    case Concat(a, b) => LowerableBare(a, gone); LowerableBare(b, gone);
    case Join(a, b) => LowerableBare(a, gone); LowerableBare(b, gone);
    case Named(_, i) => LowerableBare(i, gone);
    case Union(a, b) => LowerableDeferred(a, gone); LowerableDeferred(b, gone);
    case Repeat(i, _, _) => LowerableDeferred(i, gone);
    case Questioned(i) => LowerableDeferred(i, gone);
    case Selected(_, i) => LowerableDeferred(i, gone);
    case _ =>
  }

  lemma {:induction false} LowerableDeferred(p: PathPattern, gone: set<string>)
    requires Lowerable(p, gone)
    ensures Lowerable(Deferred(p), gone)
    decreases p, 1
  {
    LowerableBare(p, gone);
    forall e | e in Collected(p) ensures Reads(e) * gone == {} {
      LowerableCollected(p, gone, e);
    }
    LowerableFold(Bare(p), Collected(p), gone);
  }

  // ---------------------------------------------------------------- the theorem

  function Compiled(p: PathPattern, n: nat, taken: set<string>): PathPattern {
    Rewrite(Sealed(Lower(p, n, taken).0))
  }

  /** Lowered, hoisted, optimized and run, a pattern yields -- once the generated names are dropped,
      and in the same order -- the rows of the standard's reading of what was written: every filter
      evaluated at the root of its scope, every inline value filter read off its descriptor. */
  lemma CompiledIsExact(env: Env, pol: Policy, p: PathPattern, n: nat, taken: set<string>, gone: set<string>,
                        nulls: bool)
    requires Lowerable(p, gone) && Declared(p) <= taken
    requires LoweringRows.Generated(n, Lower(p, n, taken).1, taken, gone)
    requires WellScoped(Lower(p, n, taken).0) && StoredGraph(env.g, nulls)
      && Pushable(Sealed(Lower(p, n, taken).0), nulls)
    requires Picks(env) && StarDrops(env, gone)
    ensures MapSeq(Rows(Core(env), pol, Compiled(p, n, taken)), Drop(gone)) == Rows(Surface(env), pol, Deferred(p))
  {
    var q := Lower(p, n, taken).0;
    PushdownIsExact(Core(env), pol, Sealed(q), nulls);
    SealedExact(Core(env), pol, q);
    DeferredRows(Core(env), pol, p, n, taken, gone);
    LowerableDeferred(p, gone);
    DeferredKeepsVars(p);
    LoweringIsExact(env, pol, Deferred(p), n, taken, gone);
  }
}
