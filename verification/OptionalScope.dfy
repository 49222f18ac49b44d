/** What the filters of an OPTIONAL clause see: the engine runs the clause with the outer row ambient,
    or without it when it finds no correlation; the standard evaluates its filters on the joined row. */
module OptionalScope {
  import opened Values
  import opened Syntax
  import opened RowAlgebra
  import opened Runtime
  import opened Evaluator
  import opened Scoping
  import opened Hoist
  import opened HoistRows
  import opened MatchChain

  // ---------------------------------------------------------------- what a clause may see of the table

  /** No filter of the scope of `p`, and none of its inner scopes, can tell whether variables in
      `decl` are ambient: those it reads its own row is sure to bind, and no subquery mentions one. */
  predicate Secluded(p: PathPattern, decl: set<string>)
    decreases p, 1
  {
    && (forall e :: e in Collected(p) ==> Referenced(e) * decl <= Sure(p) && SubqueryVars(e) * decl == {})
    && InnerSecluded(p, decl)
  }

  predicate InnerSecluded(p: PathPattern, decl: set<string>)
    decreases p, 0
  {
    match p
    case Filter(i, _) => InnerSecluded(i, decl)
    case Join(a, b) => InnerSecluded(a, decl) && InnerSecluded(b, decl)
    case Concat(a, b) => InnerSecluded(a, decl) && InnerSecluded(b, decl)
    case Named(_, i) => InnerSecluded(i, decl)
    case Union(a, b) => Secluded(a, decl) && Secluded(b, decl)
    case Repeat(i, _, _) => Secluded(i, decl)
    case Questioned(i) => Secluded(i, decl)
    case Selected(_, i) => Secluded(i, decl)
    case Node(_) => true
    case Edge(_, _) => true
  }

  /** A clause run on its own rows: its filters read, of what the table declares, only what the
      clause is sure to bind itself. */
  predicate SelfContained(p: PathPattern, decl: set<string>) {
    (forall e :: e in Collected(p) ==> Reads(e) * decl <= Sure(p)) && InnerSecluded(p, decl)
  }

  /** What the engine needs of an OPTIONAL clause, decidable before the query runs: it is evaluated
      per outer row, or it can be evaluated by itself. */
  predicate OptionalScoped(p: PathPattern, bound: set<string>, decl: set<string>) {
    Correlated(p, bound) || SelfContained(p, decl)
  }

  // ---------------------------------------------------------------- a correlated clause

  lemma {:induction false} NoSubqueryVars(e: Expr)
    requires !HasSubquery(e)
    ensures SubqueryVars(e) == {}
  {
    match e
    case Binop(_, l, r) => NoSubqueryVars(l); NoSubqueryVars(r);
    case Not(o) => NoSubqueryVars(o);
    case IsNull(o, _) => NoSubqueryVars(o);
    case Coalesce(args) => forall a | a in args ensures SubqueryVars(a) == {} { NoSubqueryVars(a); }
    case ListComp(_, src, cond, body) =>
      NoSubqueryVars(src);
      NoSubqueryVars(body);
      if cond.Some? { NoSubqueryVars(cond.value); }
    case _ =>
  }

  /** With the outer row ambient a filter sees what it sees on the joined row. */
  lemma AmbientIsJoined(env: Env, outer: Assignment, mu: Assignment, e: Expr)
    requires !HasSubquery(e)
    ensures Holds(Beside(env, outer), mu, e) == Holds(env, outer + mu, e)
  {
    NoSubqueryVars(e);
    EvalSees(Beside(env, outer), env, [], mu, outer + mu, e, {});
  }

  lemma {:induction false} CollectedAreFilters(p: PathPattern, e: Expr)
    requires e in Collected(p)
    ensures e in AllFilters(p)
  {
    match p
    case Filter(i, f) => if e != f { CollectedAreFilters(i, e); }
    case Join(a, b) => if e in Collected(a) { CollectedAreFilters(a, e); } else { CollectedAreFilters(b, e); }
    case Concat(a, b) => if e in Collected(a) { CollectedAreFilters(a, e); } else { CollectedAreFilters(b, e); }
    case Named(_, i) => CollectedAreFilters(i, e);
    case _ =>
  }

  lemma CorrelatedMatches(env: Env, outer: Row, inner: seq<Row>, es: seq<Expr>)
    requires forall e :: e in es ==> !HasSubquery(e)
    ensures FilterSeq(PairOne(outer, inner, Unifies, JoinMerge), AllTest(env, es))
         == PairOne(outer, FilterSeq(inner, AllTest(Beside(env, outer.mu), es)), Unifies, JoinMerge)
  {
    forall r | r in inner && Unifies(outer, r)
      ensures AllTest(env, es)(JoinMerge(outer, r)) == AllTest(Beside(env, outer.mu), es)(r)
    {
      forall e | e in es ensures Holds(Beside(env, outer.mu), r.mu, e) == Holds(env, outer.mu + r.mu, e) {
        AmbientIsJoined(env, outer.mu, r.mu, e);
      }
    }
    FilterPairOneRight(outer, inner, Unifies, JoinMerge, AllTest(env, es), AllTest(Beside(env, outer.mu), es));
  }

  // ---------------------------------------------------------------- a self-contained clause

  lemma AmbientUnseen(env: Env, outer: Assignment, mu: Assignment, e: Expr)
    requires Referenced(e) * outer.Keys <= mu.Keys && SubqueryVars(e) * outer.Keys == {}
    ensures Holds(Beside(env, outer), mu, e) == Holds(env, mu, e)
  {
    forall x | x in Referenced(e) ensures LookupVar(Beside(env, outer), mu, x) == LookupVar(env, mu, x) {
      assert x in outer ==> x in Referenced(e) * outer.Keys;
    }
    forall x | x in SubqueryVars(e) ensures x !in outer {
      assert x in outer ==> x in SubqueryVars(e) * outer.Keys;
    }
    EvalSees(Beside(env, outer), env, [], mu, mu, e, {});
  }

  lemma ScanUnseen(env: Env, outer: Assignment, pol: Policy, p: PathPattern)
    requires p.Node? || p.Edge?
    ensures Rows(Beside(env, outer), pol, p) == Rows(env, pol, p)
  {
    var around := Beside(env, outer);
    var d := p.desc;
    if p.Node? {
      FilterCongruence(env.g.nodes, NodeTest(around, d), NodeTest(env, d));
    } else {
      FilterCongruence(env.g.undirectedEdges, EdgeTest(around, d), EdgeTest(env, d));
      FilterCongruence(env.g.directedEdges, EdgeTest(around, d), EdgeTest(env, d));
    }
  }

  lemma FiltersUnseen(env: Env, outer: Assignment, rows: seq<Row>, es: seq<Expr>, sure: set<string>, hi: set<string>)
    requires Binds(rows, sure, hi)
    requires forall e :: e in es ==> Referenced(e) * outer.Keys <= sure && SubqueryVars(e) * outer.Keys == {}
    ensures FilterSeq(rows, AllTest(Beside(env, outer), es)) == FilterSeq(rows, AllTest(env, es))
  {
    forall r | r in rows ensures AllTest(Beside(env, outer), es)(r) == AllTest(env, es)(r) {
      forall e | e in es ensures Holds(Beside(env, outer), r.mu, e) == Holds(env, r.mu, e) {
        AmbientUnseen(env, outer, r.mu, e);
      }
    }
    FilterCongruence(rows, AllTest(Beside(env, outer), es), AllTest(env, es));
  }

  lemma JoinUnseen(env: Env, outer: Assignment, xs: seq<Row>, ys: seq<Row>, shared: set<string>)
    ensures PairAll(xs, ys, JoinTest(Beside(env, outer), shared), JoinMerge)
         == PairAll(xs, ys, JoinTest(env, shared), JoinMerge)
  {
    PairCongruence(xs, ys, JoinTest(Beside(env, outer), shared), JoinMerge, JoinTest(env, shared), JoinMerge);
  }

  lemma RepeatUnseen(env: Env, outer: Assignment, pol: Policy, vars: set<string>, rows: seq<Row>, lb: nat,
                     ub: Option<nat>)
    ensures Repeated(Beside(env, outer), pol, vars, rows, lb, ub) == Repeated(env, pol, vars, rows, lb, ub)
  {
  }

  /** The rows of a secluded pattern do not depend on the ambient row. */
  lemma {:induction false} DeferredUnseen(env: Env, outer: Assignment, pol: Policy, p: PathPattern, decl: set<string>)
    requires outer.Keys <= decl && Secluded(p, decl)
    ensures Rows(Beside(env, outer), pol, Deferred(p)) == Rows(env, pol, Deferred(p))
    decreases p, 1
  {
    BareUnseen(env, outer, pol, p, decl);
    RowsFold(env, pol, Bare(p), Collected(p));
    RowsFold(Beside(env, outer), pol, Bare(p), Collected(p));
    RowsBind(env, pol, Bare(p));
    BareKeepsVars(p);
    forall e | e in Collected(p) ensures Referenced(e) * outer.Keys <= Sure(p) && SubqueryVars(e) * outer.Keys == {} {
      assert Referenced(e) * outer.Keys <= Referenced(e) * decl;
      assert SubqueryVars(e) * outer.Keys <= SubqueryVars(e) * decl;
    }
    FiltersUnseen(env, outer, Rows(env, pol, Bare(p)), Collected(p), Sure(p), Declared(p));
  }

  lemma {:induction false} BareUnseen(env: Env, outer: Assignment, pol: Policy, p: PathPattern, decl: set<string>)
    requires outer.Keys <= decl && InnerSecluded(p, decl)
    ensures Rows(Beside(env, outer), pol, Bare(p)) == Rows(env, pol, Bare(p))
    decreases p, 0
  {
    match p
    case Filter(i, _) => BareUnseen(env, outer, pol, i, decl);
    case Join(a, b) =>
      BareUnseen(env, outer, pol, a, decl);
      BareUnseen(env, outer, pol, b, decl);
      JoinUnseen(env, outer, Rows(env, pol, Bare(a)), Rows(env, pol, Bare(b)), FreeVars(Bare(a)) * FreeVars(Bare(b)));
    case Concat(a, b) =>
      BareUnseen(env, outer, pol, a, decl);
      BareUnseen(env, outer, pol, b, decl);
    case Named(_, i) => BareUnseen(env, outer, pol, i, decl);
    case Union(a, b) =>
      DeferredUnseen(env, outer, pol, a, decl);
      DeferredUnseen(env, outer, pol, b, decl);
    case Repeat(i, lb, ub) =>
      DeferredUnseen(env, outer, pol, i, decl);
      RepeatUnseen(env, outer, pol, FreeVars(Deferred(i)), Rows(env, pol, Deferred(i)), lb, ub);
    case Questioned(i) =>
      DeferredUnseen(env, outer, pol, i, decl);
      ScanUnseen(env, outer, pol, Node(None));
    case Selected(prefix, i) => DeferredUnseen(env, outer, PolicyFor(prefix), i, decl);
    case Node(_) => ScanUnseen(env, outer, pol, p);
    case Edge(_, _) => ScanUnseen(env, outer, pol, p);
  }

  /** A filter that reads only its own row may run before the join. */
  lemma ContainedMatches(env: Env, outer: Row, inner: seq<Row>, es: seq<Expr>, sure: set<string>, hi: set<string>)
    requires Binds(inner, sure, hi) && forall e :: e in es ==> Reads(e) * outer.mu.Keys <= sure
    ensures FilterSeq(PairOne(outer, inner, Unifies, JoinMerge), AllTest(env, es))
         == PairOne(outer, FilterSeq(inner, AllTest(env, es)), Unifies, JoinMerge)
  {
    forall r | r in inner && Unifies(outer, r) ensures AllTest(env, es)(JoinMerge(outer, r)) == AllTest(env, es)(r) {
      forall e | e in es ensures AgreeOn(outer.mu + r.mu, r.mu, Reads(e)) {
        assert forall x :: x in Reads(e) && x in outer.mu ==> x in Reads(e) * outer.mu.Keys;
      }
      HoldsAllLocal(env, outer.mu + r.mu, r.mu, es);
    }
    FilterPairOneRight(outer, inner, Unifies, JoinMerge, AllTest(env, es), AllTest(env, es));
  }

  // ---------------------------------------------------------------- the theorem

  /** The correlation test of an OPTIONAL clause does not notice where filters sit. */
  lemma CorrelatedSame(p: PathPattern, bound: set<string>)
    ensures Correlated(Sealed(p), bound) == Correlated(p, bound)
    ensures FreeVars(Sealed(p)) == FreeVars(p)
  {
    SealedKeepsShape(p);
    forall e: Expr ensures e in AllFilters(Sealed(p)) <==> e in AllFilters(p) {
      SealedCounts(p, e);
      assert Count(AllFilters(Sealed(p)), e) == Count(AllFilters(p), e) + Count([], e);
    }
    assert FilterRefs(AllFilters(Sealed(p))) == FilterRefs(AllFilters(p));
  }

  /** One outer row: the engine's step on the hoisted clause is the left join. */
  lemma OptionalRowExact(env: Env, outer: Row, p: PathPattern, bound: set<string>, decl: set<string>)
    requires Picks(env) && WellScoped(p) && OptionalScoped(p, bound, decl) && outer.mu.Keys <= decl
    ensures OptionalStep(env, Sealed(p), bound)(outer) == LeftJoinStep(env, p, bound)(outer)
  {
    CorrelatedSame(p, bound);
    var around := Beside(env, outer.mu);
    var es := Collected(p);
    if Correlated(p, bound) {
      SealedExact(around, Forbidden, p);
      RowsFold(around, Forbidden, Bare(p), es);
      forall e | e in es ensures !HasSubquery(e) {
        CollectedAreFilters(p, e);
      }
      CorrelatedMatches(env, outer, Rows(around, Forbidden, Bare(p)), es);
    } else {
      SealedExact(env, Forbidden, p);
      RowsFold(env, Forbidden, Bare(p), es);
      BareUnseen(env, outer.mu, Forbidden, p, decl);
      RowsBind(env, Forbidden, Bare(p));
      BareKeepsVars(p);
      forall e | e in es ensures Reads(e) * outer.mu.Keys <= Sure(p) {
        assert Reads(e) * outer.mu.Keys <= Reads(e) * decl;
      }
      ContainedMatches(env, outer, Rows(env, Forbidden, Bare(p)), es, Sure(p), Declared(p));
    }
  }

  // ---------------------------------------------------------------- what the step yields, row by row

  /** Row `r` of the clause goes with `outer`: they agree where both bind a variable, and the clause's
      filters hold of the two together. */
  predicate GoesWith(env: Env, outer: Row, r: Row, es: seq<Expr>) {
    && (forall x :: x in outer.mu && x in r.mu ==> outer.mu[x] == r.mu[x])
    && HoldsAll(env, outer.mu + r.mu, es)
  }

  /** The outer row, with Nothing for each of the variables in `added`. */
  predicate KeptAlone(outer: Row, added: set<string>, r: Row) {
    && r.paths == outer.paths
    && r.mu.Keys == outer.mu.Keys + added
    && (forall x :: x in added ==> r.mu[x] == Nothing)
    && (forall x :: x in outer.mu && x !in added ==> r.mu[x] == outer.mu[x])
  }

  /** `out` lists one joined row for each row of the clause that goes with `outer`, in their order; if
      there is none, it is the outer row alone. */
  ghost predicate LeftJoined(env: Env, outer: Row, bare: seq<Row>, es: seq<Expr>, added: set<string>, idx: seq<nat>,
                             out: seq<Row>) {
    && (forall a, b :: 0 <= a < b < |idx| ==> idx[a] < idx[b])
    && (forall i :: i in idx ==> i < |bare|)
    && (forall i :: 0 <= i < |bare| ==> (i in idx <==> GoesWith(env, outer, bare[i], es)))
    && (if idx == [] then |out| == 1 && KeptAlone(outer, added, out[0])
        else |out| == |idx| && forall a :: 0 <= a < |idx| ==>
               && idx[a] < |bare|
               && out[a].paths == outer.paths + bare[idx[a]].paths
               && out[a].mu == outer.mu + bare[idx[a]].mu)
  }

  /** The standard's step, row by row. */
  lemma LeftJoinRows(env: Env, outer: Row, p: PathPattern, bound: set<string>) returns (idx: seq<nat>)
    ensures LeftJoined(env, outer, Rows(Beside(env, outer.mu), Forbidden, Bare(p)), Collected(p),
                       FreeVars(p) - bound, idx, LeftJoinStep(env, p, bound)(outer))
  {
    var bare := Rows(Beside(env, outer.mu), Forbidden, Bare(p));
    idx := PairPositions(outer, bare, Unifies, JoinMerge, AllTest(env, Collected(p)));
    StepListed(env, outer, bare, Collected(p), FreeVars(p) - bound, idx);
  }

  lemma GoesTest(env: Env, outer: Row, r: Row, es: seq<Expr>)
    ensures GoesWith(env, outer, r, es) <==> Unifies(outer, r) && AllTest(env, es)(JoinMerge(outer, r))
  {
  }

  lemma StepListed(env: Env, outer: Row, bare: seq<Row>, es: seq<Expr>, added: set<string>, idx: seq<nat>)
    requires var f := AllTest(env, es);
      && Positions(bare, (y: Row) => Unifies(outer, y) && f(JoinMerge(outer, y)), idx)
      && Picked(bare, idx, (y: Row) => JoinMerge(outer, y), FilterSeq(PairOne(outer, bare, Unifies, JoinMerge), f))
    ensures LeftJoined(env, outer, bare, es, added, idx,
                       OrPadded(outer, FilterSeq(PairOne(outer, bare, Unifies, JoinMerge), AllTest(env, es)), added))
  {
    var f := AllTest(env, es);
    forall i | 0 <= i < |bare| ensures i in idx <==> GoesWith(env, outer, bare[i], es) {
      GoesTest(env, outer, bare[i], es);
    }
  }

  /** The engine's step on the hoisted clause, row by row. */
  lemma OptionalStepRows(env: Env, outer: Row, p: PathPattern, bound: set<string>, decl: set<string>)
    returns (idx: seq<nat>)
    requires Picks(env) && WellScoped(p) && OptionalScoped(p, bound, decl) && outer.mu.Keys <= decl
    ensures LeftJoined(env, outer, Rows(Beside(env, outer.mu), Forbidden, Bare(p)), Collected(p),
                       FreeVars(p) - bound, idx, OptionalStep(env, Sealed(p), bound)(outer))
  {
    OptionalRowExact(env, outer, p, bound, decl);
    idx := LeftJoinRows(env, outer, p, bound);
  }

  lemma {:induction false} FlatMapCongruence<T, U>(s: seq<T>, f: T -> seq<U>, g: T -> seq<U>)
    requires forall x :: x in s ==> f(x) == g(x)
    ensures FlatMap(s, f) == FlatMap(s, g)
  {
    if s != [] {
      assert s[0] in s;
      assert forall x :: x in s[1..] ==> x in s;
      FlatMapCongruence(s[1..], f, g);
    }
  }

  /** An OPTIONAL clause, hoisted and run as the engine runs it, extends the working table by the left
      join in which the clause's filters see the joined row. */
  lemma OptionalClauseExact(env: Env, table: seq<Row>, p: PathPattern, bound: set<string>, sure: set<string>,
                            decl: set<string>)
    requires Picks(env) && WellScoped(p) && OptionalScoped(p, bound, decl) && Binds(table, sure, decl)
    ensures ExtendTable(env, table, bound, OptionalMatch(Sealed(p))) == FlatMap(table, LeftJoinStep(env, p, bound))
  {
    forall outer: Row | outer in table
      ensures OptionalStep(env, Sealed(p), bound)(outer) == LeftJoinStep(env, p, bound)(outer)
    {
      OptionalRowExact(env, outer, p, bound, decl);
    }
    FlatMapCongruence(table, OptionalStep(env, Sealed(p), bound), LeftJoinStep(env, p, bound));
  }
}
