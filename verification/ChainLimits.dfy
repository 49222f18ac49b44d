/** Where a later clause misses the working table: families of two-clause chains, over every choice of
    names, that hoisting runs exactly in every environment if and only if the clause is scoped. */
module ChainLimits {
  import opened Values
  import opened Syntax
  import opened RowAlgebra
  import opened Runtime
  import opened Evaluator
  import opened Scoping
  import opened Hoist
  import opened HoistRows
  import opened MatchChain
  import opened OptionalScope
  import opened ClauseMerge
  import opened HoistQuery
  import opened HoistLimits

  ghost predicate ExactChain(ms: seq<MatchStatement>)
    requires HoistAll(ms) != [] && ms != []
  {
    forall env :: Picks(env) ==> RunMatchChain(env, HoistAll(ms)) == SpecChain(env, ms)
  }

  lemma ScopedChainIsExact(ms: seq<MatchStatement>)
    requires ms != [] && ChainScoped(ms) && ReachesAll(ms)
    ensures HoistAll(ms) != [] && ExactChain(ms)
  {
    var env := OneNode(map[], "", (mu: Assignment) => false);
    HoistedQueryExact(env, ms);
    forall env | Picks(env) ensures RunMatchChain(env, HoistAll(ms)) == SpecChain(env, ms) {
      HoistedQueryExact(env, ms);
    }
  }

  /** `MATCH q = (n)` and a second clause. */
  function AfterPath(q: string, n: string, m: MatchStatement): seq<MatchStatement> {
    [SimpleMatch(Named(q, Any0(n))), m]
  }

  /** `x IS NOT NULL`, alone or next to an EXISTS that mentions `x`. */
  function Mentions(x: string, nested: bool): Expr {
    if nested then Binop(And, IsNull(Var(x), true), Subquery(0, {x})) else IsNull(Var(x), true)
  }

  /** `(m) WHERE e` */
  function Clause(m: string, e: Expr): PathPattern {
    Filter(Any0(m), e)
  }

  lemma ClauseShape(m: string, e: Expr)
    ensures Sealed(Clause(m, e)) == Clause(m, e)
    ensures Bare(Clause(m, e)) == Any0(m) && Collected(Clause(m, e)) == [e] && AllFilters(Clause(m, e)) == [e]
    ensures WellScoped(Clause(m, e)) && Declared(Clause(m, e)) == {m} == Sure(Clause(m, e)) == FreeVars(Clause(m, e))
    ensures Hidden(Clause(m, e)) == SubqueryVars(e)
  {
    PlainNode(m);
    assert [] + [e] == [e];
    if Referenced(e) <= {m} {
      FilterStays(Any0(m), e);
    } else {
      SplitNone([e], {m});
      assert HoistPattern(Clause(m, e)) == (Any0(m), [e]);
      assert [e][1..] == [];
      assert FoldFilters(Any0(m), [e]) == FoldFilters(Filter(Any0(m), [e][0]), [e][1..]);
      assert FoldFilters(Filter(Any0(m), e), []) == Filter(Any0(m), e);
    }
    assert AllFilters(Any0(m)) == [] && Collected(Any0(m)) == [] && Hidden(Any0(m)) == {};
  }

  lemma MentionsReads(x: string, nested: bool)
    ensures Referenced(Mentions(x, nested)) == {x} == Reads(Mentions(x, nested))
    ensures HasSubquery(Mentions(x, nested)) == nested
  {
    var e := Mentions(x, nested);
    assert Referenced(IsNull(Var(x), true)) == {x} && SubqueryVars(IsNull(Var(x), true)) == {};
    if nested {
      assert Referenced(e) == Referenced(e.left) + Referenced(e.right);
      assert SubqueryVars(e) == SubqueryVars(e.left) + SubqueryVars(e.right);
    }
  }

  /** Where subqueries answer true, the predicate says that `x` has a value. */
  lemma MentionsHolds(env: Env, mu: Assignment, x: string, nested: bool)
    requires env.ambient == map[] && env.subquery == Answers((mu: Assignment) => true)
    ensures HoldsAll(env, mu, [Mentions(x, nested)]) <==> x in mu && !ToValue(mu[x]).Null?
  {
    var e, bound := Mentions(x, nested), x in mu && !ToValue(mu[x]).Null?;
    assert e in [e];
    assert Eval(env, [], mu, Var(x)) == if x in mu then Success(ToValue(mu[x])) else Failure;
    assert Eval(env, [], mu, IsNull(Var(x), true)) == Success(Bool(bound));
    if nested {
      assert Eval(env, [], mu, Subquery(0, {x})) == Success(Bool(true));
      assert Eval(env, [], mu, e) == EvalAnd(Bool(bound), Bool(true));
    }
  }

  // ---------------------------------------------------------------- the shape of the two chains

  lemma FirstClause(q: string, n: string)
    ensures HoistAll([SimpleMatch(Named(q, Any0(n)))]) == [SimpleMatch(Named(q, Any0(n)))]
    ensures MergeClause([], Named(q, Any0(n))) == ([], Named(q, Any0(n)), [])
    ensures BoundVars([SimpleMatch(Named(q, Any0(n)))]) == {n}
    ensures TableDecl([SimpleMatch(Named(q, Any0(n)))]) == {q, n}
  {
    PlainNode(n);
    PlainNamed(q, Any0(n));
    var p := Named(q, Any0(n));
    var first := [SimpleMatch(p)];
    assert first[..0] == [] && HoistAll([]) == [] && BoundVars([]) == {} && TableDecl([]) == {};
    assert MergeClause([], p) == ([], p, []);
    assert HoistStep([], first[0]) == [] + [SimpleMatch(p)];
  }

  lemma AfterPathHoists(q: string, n: string, m: MatchStatement)
    ensures HoistAll(AfterPath(q, n, m)) == HoistStep([SimpleMatch(Named(q, Any0(n)))], m)
    ensures AfterPath(q, n, m)[..1] == [SimpleMatch(Named(q, Any0(n)))]
  {
    FirstClause(q, n);
    var ms := AfterPath(q, n, m);
    assert ms[..1] == [SimpleMatch(Named(q, Any0(n)))] && ms[1] == m;
  }

  lemma AfterPathScoped(q: string, n: string, m: string, e: Expr, optional: bool)
    requires m != n && m != q
    ensures var p := Clause(m, e);
      var second := if optional then OptionalMatch(p) else SimpleMatch(p);
      ChainScoped(AfterPath(q, n, second)) <==> ClauseScoped(second, [SimpleMatch(Named(q, Any0(n)))])
  {
    var p := Clause(m, e);
    var second := if optional then OptionalMatch(p) else SimpleMatch(p);
    var first := SimpleMatch(Named(q, Any0(n)));
    var ms := AfterPath(q, n, second);
    FirstClause(q, n);
    AfterPathHoists(q, n, second);
    ClauseShape(m, e);
    PlainNode(n);
    PlainNamed(q, Any0(n));
    assert Declared(first.pattern) * Declared(p) == {};
    assert Apart(first, second);
    assert ms[..0] == [];
    assert ms[0] == first && ms[1] == second;
    assert Collected(first.pattern) == [] && Hidden(first.pattern) == {};
    assert ClauseScoped(ms[0], ms[..0]);
    assert AllApart(ms);
  }

  lemma PathTable(env: Env, q: string, n: string)
    requires env.g.nodes == [0]
    ensures Rows(env, Forbidden, Named(q, Any0(n))) == [NameRow(q)(Bound(n))]
    ensures Chain(env, [SimpleMatch(Named(q, Any0(n)))]) == [NameRow(q)(Bound(n))]
    ensures SpecChain(env, [SimpleMatch(Named(q, Any0(n)))]) == [NameRow(q)(Bound(n))]
  {
    PathRow(env, q, n);
    PlainNode(n);
    PlainNamed(q, Any0(n));
    assert Deferred(Named(q, Any0(n))) == Named(q, Any0(n));
  }

  // ---------------------------------------------------------------- an OPTIONAL clause

  /** `MATCH q = (n) OPTIONAL MATCH (m) WHERE x IS NOT NULL [AND EXISTS {..x..}]` */
  function OptionalAfter(q: string, n: string, m: string, x: string, nested: bool): seq<MatchStatement> {
    AfterPath(q, n, OptionalMatch(Clause(m, Mentions(x, nested))))
  }

  lemma FlatMapOne<T, U>(x: T, f: T -> seq<U>)
    ensures FlatMap([x], f) == f(x)
  {
    assert [x][1..] == [];
  }

  /** The clause on one node. */
  lemma ClauseRows(env: Env, m: string, e: Expr)
    requires env.g.nodes == [0]
    ensures Rows(env, Forbidden, Clause(m, e)) == if HoldsAll(env, Bound(m).mu, [e]) then [Bound(m)] else []
  {
    NodeRowsOne(env, Forbidden, m);
    FilterOne(env, Bound(m), [e]);
  }

  lemma ClauseCorrelated(m: string, x: string, nested: bool, bound: set<string>)
    requires x != m
    ensures Correlated(Clause(m, Mentions(x, nested)), bound) <==> !nested && x in bound
  {
    var e := Mentions(x, nested);
    MentionsReads(x, nested);
    ClauseShape(m, e);
    assert e in [e] && FilterRefs([e]) == {x};
    assert {x} - {m} == {x};
    assert x in bound <==> x in {x} * bound;
  }

  /** The engine finds no correlation, runs the clause without the outer row, and pads. */
  lemma OptionalPads(env: Env, outer: Row, m: string, x: string, nested: bool, bound: set<string>)
    requires env.g.nodes == [0] && env.ambient == map[] && env.subquery == Answers((mu: Assignment) => true)
    requires x != m && m !in bound && (nested || x !in bound)
    ensures OptionalStep(env, Clause(m, Mentions(x, nested)), bound)(outer) == [Padded(outer, {m})]
  {
    var e := Mentions(x, nested);
    ClauseCorrelated(m, x, nested, bound);
    ClauseShape(m, e);
    ClauseRows(env, m, e);
    MentionsHolds(env, Bound(m).mu, x, nested);
    assert {m} - bound == {m};
  }

  lemma OptionalJoins(env: Env, outer: Row, m: string, x: string, nested: bool, bound: set<string>)
    requires env.g.nodes == [0] && env.ambient == map[] && env.subquery == Answers((mu: Assignment) => true)
    requires x in outer.mu && !ToValue(outer.mu[x]).Null? && m !in outer.mu && x != m
    ensures LeftJoinStep(env, Clause(m, Mentions(x, nested)), bound)(outer) == [JoinMerge(outer, Bound(m))]
  {
    var e := Mentions(x, nested);
    ClauseShape(m, e);
    NodeRowsOne(Beside(env, outer.mu), Forbidden, m);
    PairOneOne(outer, Bound(m), Unifies, JoinMerge);
    MentionsHolds(env, outer.mu + Bound(m).mu, x, nested);
    FilterOne(env, JoinMerge(outer, Bound(m)), [e]);
  }

  lemma OptionalHoists(q: string, n: string, m: string, x: string, nested: bool)
    ensures HoistAll(OptionalAfter(q, n, m, x, nested)) == OptionalAfter(q, n, m, x, nested)
  {
    var ms := OptionalAfter(q, n, m, x, nested);
    AfterPathHoists(q, n, ms[1]);
    ClauseShape(m, Mentions(x, nested));
    assert HoistAll(ms) == [ms[0]] + [ms[1]];
  }

  /** The engine looks for a correlation among element variables only, and not at all when a filter
      holds a subquery: then a filter over the outer row is evaluated without it and the row padded. */
  lemma OptionalMissesOuter(q: string, n: string, m: string, x: string, nested: bool)
    requires m != n && m != q && q != n && x in {q, n} && (nested || x == q)
    ensures HoistAll(OptionalAfter(q, n, m, x, nested)) != [] && !ExactChain(OptionalAfter(q, n, m, x, nested))
  {
    var env := OneNode(map[], "", (mu: Assignment) => true);
    var p, outer := Clause(m, Mentions(x, nested)), NameRow(q)(Bound(n));
    FirstClause(q, n);
    OptionalHoists(q, n, m, x, nested);
    PathTable(env, q, n);
    OptionalChain(env, SimpleMatch(Named(q, Any0(n))), p, {n}, outer);
    OptionalStepsDiffer(env, q, n, m, x, nested);
    SeparatesChain(env, OptionalAfter(q, n, m, x, nested));
  }

  lemma OptionalStepsDiffer(env: Env, q: string, n: string, m: string, x: string, nested: bool)
    requires env.g.nodes == [0] && env.ambient == map[] && env.subquery == Answers((mu: Assignment) => true)
    requires m != n && m != q && q != n && x in {q, n} && (nested || x == q)
    ensures var p, outer := Clause(m, Mentions(x, nested)), NameRow(q)(Bound(n));
      OptionalStep(env, p, {n})(outer) != LeftJoinStep(env, p, {n})(outer)
  {
    var outer := NameRow(q)(Bound(n));
    OptionalPads(env, outer, m, x, nested, {n});
    OuterRowBinds(q, n, x);
    OptionalJoins(env, outer, m, x, nested, {n});
    assert JoinMerge(outer, Bound(m)).mu[m] == PNode(0) && Padded(outer, {m}).mu[m] == Nothing;
  }

  lemma OuterRowBinds(q: string, n: string, x: string)
    requires q != n && x in {q, n}
    ensures var mu := NameRow(q)(Bound(n)).mu; x in mu && !ToValue(mu[x]).Null? && mu.Keys == {q, n}
  {
  }

  lemma SeparatesChain(env: Env, ms: seq<MatchStatement>)
    requires ms != [] && HoistAll(ms) != [] && Picks(env) && RunMatchChain(env, HoistAll(ms)) != SpecChain(env, ms)
    ensures !ExactChain(ms)
  {
  }

  /** One row, then an OPTIONAL clause: what the engine and what the standard makes of it. */
  lemma OptionalChain(env: Env, first: MatchStatement, p: PathPattern, bound: set<string>, outer: Row)
    requires BoundVars([first]) == bound && Chain(env, [first]) == [outer] == SpecChain(env, [first])
    ensures RunMatchChain(env, [first, OptionalMatch(p)]) == OptionalStep(env, p, bound)(outer)
    ensures SpecChain(env, [first, OptionalMatch(p)]) == LeftJoinStep(env, p, bound)(outer)
  {
    var ms := [first, OptionalMatch(p)];
    assert ms[..1] == [first] && ms[1] in ms && !Collapsible(ms);
    FlatMapOne(outer, OptionalStep(env, p, bound));
    FlatMapOne(outer, LeftJoinStep(env, p, bound));
  }

  lemma ClauseContained(m: string, e: Expr, x: string, decl: set<string>)
    requires Reads(e) == {x} && m !in decl
    ensures SelfContained(Clause(m, e), decl) <==> x !in decl
  {
    ClauseShape(m, e);
    assert e in [e] && InnerSecluded(Any0(m), decl) && InnerSecluded(Clause(m, e), decl);
    assert x in decl <==> x in {x} * decl;
  }

  lemma OptionalScopedWhen(q: string, n: string, m: string, x: string, nested: bool)
    requires m != n && m != q && q != n
    ensures ChainScoped(OptionalAfter(q, n, m, x, nested)) <==> x !in {q, n} || (x == n && !nested)
    ensures ReachesAll(OptionalAfter(q, n, m, x, nested))
  {
    var e := Mentions(x, nested);
    var p := Clause(m, e);
    MentionsReads(x, nested);
    ClauseShape(m, e);
    FirstClause(q, n);
    AfterPathHoists(q, n, OptionalMatch(p));
    AfterPathScoped(q, n, m, e, true);
    if x == m {
      assert {x} * {q, n} == {};
    } else {
      ClauseCorrelated(m, x, nested, {n});
    }
    ClauseContained(m, e, x, {q, n});
    var ms := OptionalAfter(q, n, m, x, nested);
    assert ms[..0] == [] && HoistAll([]) == [] && ms[0] == SimpleMatch(Named(q, Any0(n)));
  }

  /** Such a chain is run exactly, whatever it is run against, if and only if the predicate reads no
      outer path variable, and no outer variable at all next to a subquery. */
  lemma OptionalExactIff(q: string, n: string, m: string, x: string, nested: bool)
    requires m != n && m != q && q != n
    ensures HoistAll(OptionalAfter(q, n, m, x, nested)) != []
    ensures ExactChain(OptionalAfter(q, n, m, x, nested)) <==> x !in {q, n} || (x == n && !nested)
    ensures ExactChain(OptionalAfter(q, n, m, x, nested)) <==> ChainScoped(OptionalAfter(q, n, m, x, nested))
  {
    OptionalScopedWhen(q, n, m, x, nested);
    if x !in {q, n} || (x == n && !nested) {
      ScopedChainIsExact(OptionalAfter(q, n, m, x, nested));
    } else {
      OptionalMissesOuter(q, n, m, x, nested);
    }
  }

  // ---------------------------------------------------------------- a simple clause

  /** `MATCH q = (n) MATCH (m) WHERE EXISTS {..x..}` */
  function SimpleAfter(q: string, n: string, m: string, x: string): seq<MatchStatement> {
    AfterPath(q, n, SimpleMatch(Clause(m, Subquery(0, {x}))))
  }

  lemma SimpleHoists(q: string, n: string, m: string, x: string)
    ensures HoistAll(SimpleAfter(q, n, m, x)) == SimpleAfter(q, n, m, x)
    ensures ReachesAll(SimpleAfter(q, n, m, x))
  {
    var ms, e := SimpleAfter(q, n, m, x), Subquery(0, {x});
    var first := [SimpleMatch(Named(q, Any0(n)))];
    FirstClause(q, n);
    AfterPathHoists(q, n, ms[1]);
    PlainNode(m);
    FilterStays(Any0(m), e);
    assert MergeClause(first, Clause(m, e)) == (first, Clause(m, e), []);
    assert HoistAll(ms) == first + [ms[1]] == ms;
    assert ms[..0] == [] && HoistAll([]) == [] && ms[0] == first[0] && HoistAll(ms[..1]) == first;
  }

  /** Two simple clauses run as one product. */
  lemma SimpleChain(env: Env, first: PathPattern, p: PathPattern, outer: Row, row: Row, e: Expr)
    requires !HasSelected(first) && !HasSelected(p) && FreeVars(first) * FreeVars(p) == {} && Collected(p) == [e]
    requires Rows(env, Forbidden, first) == [outer] == SpecChain(env, [SimpleMatch(first)])
    requires Rows(env, Forbidden, p) == [] && Rows(env, Forbidden, Bare(p)) == [row]
    ensures RunMatchChain(env, [SimpleMatch(first), SimpleMatch(p)]) == []
    ensures SpecChain(env, [SimpleMatch(first), SimpleMatch(p)])
         == FilterSeq(NatJoin([outer], [row]), AllTest(env, [e]))
  {
    RowsOfJoin(env, Forbidden, first, p, {});
    PairNone(outer, JoinTest(env, {}), JoinMerge);
    TwoSimple(env, first, p);
  }

  lemma TwoSimple(env: Env, first: PathPattern, p: PathPattern)
    requires !HasSelected(first) && !HasSelected(p)
    ensures var ms := [SimpleMatch(first), SimpleMatch(p)];
      && RunMatchChain(env, ms) == Rows(env, Forbidden, Join(first, p))
      && SpecChain(env, ms)
         == FilterSeq(NatJoin(SpecChain(env, [SimpleMatch(first)]), Rows(env, Forbidden, Bare(p))),
                      AllTest(env, Collected(p)))
  {
    var ms := [SimpleMatch(first), SimpleMatch(p)];
    assert ms[..1] == [SimpleMatch(first)];
    assert Collapsed(ms[..1]) == first && Collapsed(ms) == Join(first, p);
  }

  /** Unreferenced as far as the pass can tell, the filter runs before the table is joined. */
  lemma SimpleMissesOuter(q: string, n: string, m: string, x: string)
    requires m != n && m != q && q != n && x in {q, n}
    ensures HoistAll(SimpleAfter(q, n, m, x)) != [] && !ExactChain(SimpleAfter(q, n, m, x))
  {
    var env := OneNode(map[], "", (mu: Assignment) => x in mu);
    SimpleHoists(q, n, m, x);
    SimpleTables(env, q, n, m, x);
    SeparatesChain(env, SimpleAfter(q, n, m, x));
  }

  lemma SimpleTables(env: Env, q: string, n: string, m: string, x: string)
    requires env.g.nodes == [0] && env.subquery == Answers((mu: Assignment) => x in mu)
    requires m != n && m != q && q != n && x in {q, n}
    ensures RunMatchChain(env, SimpleAfter(q, n, m, x)) == [] != SpecChain(env, SimpleAfter(q, n, m, x))
  {
    var e, outer := Subquery(0, {x}), NameRow(q)(Bound(n));
    ClauseShape(m, e);
    PathTable(env, q, n);
    ClauseRows(env, m, e);
    NodeRowsOne(env, Forbidden, m);
    SubqueryHolds(env, Bound(m).mu, x, (mu: Assignment) => x in mu);
    FirstShape(q, n, m, e);
    SimpleChain(env, Named(q, Any0(n)), Clause(m, e), outer, Bound(m), e);
    OuterRowBinds(q, n, x);
    SimpleJoined(env, outer, m, x);
  }

  lemma FirstShape(q: string, n: string, m: string, e: Expr)
    requires n != m
    ensures FreeVars(Named(q, Any0(n))) * FreeVars(Clause(m, e)) == {}
    ensures !HasSelected(Named(q, Any0(n))) && !HasSelected(Clause(m, e))
  {
  }

  lemma SimpleJoined(env: Env, outer: Row, m: string, x: string)
    requires env.subquery == Answers((mu: Assignment) => x in mu) && x in outer.mu && m !in outer.mu
    ensures FilterSeq(NatJoin([outer], [Bound(m)]), AllTest(env, [Subquery(0, {x})])) == [JoinMerge(outer, Bound(m))]
  {
    var joined := JoinMerge(outer, Bound(m));
    PairOneOne(outer, Bound(m), Unifies, JoinMerge);
    assert x in Restrict(joined.mu, {x});
    SubqueryHolds(env, joined.mu, x, (mu: Assignment) => x in mu);
    FilterOne(env, joined, [Subquery(0, {x})]);
  }

  lemma SimpleScopedWhen(q: string, n: string, m: string, x: string)
    requires m != n && m != q && q != n
    ensures ChainScoped(SimpleAfter(q, n, m, x)) <==> x !in {q, n}
  {
    var e := Subquery(0, {x});
    var first, second := SimpleMatch(Named(q, Any0(n))), SimpleMatch(Clause(m, e));
    ClauseShape(m, e);
    FirstClause(q, n);
    AfterPathScoped(q, n, m, e, false);
    assert ClauseScoped(second, [first]) <==> {x} * {q, n} <= {m};
    assert x in {q, n} <==> x in {x} * {q, n};
    assert m !in {x} * {q, n};
  }

  lemma SimpleExactIff(q: string, n: string, m: string, x: string)
    requires m != n && m != q && q != n
    ensures HoistAll(SimpleAfter(q, n, m, x)) != []
    ensures ExactChain(SimpleAfter(q, n, m, x)) <==> x !in {q, n}
    ensures ExactChain(SimpleAfter(q, n, m, x)) <==> ChainScoped(SimpleAfter(q, n, m, x))
  {
    SimpleHoists(q, n, m, x);
    SimpleScopedWhen(q, n, m, x);
    if x in {q, n} {
      SimpleMissesOuter(q, n, m, x);
    } else {
      ScopedChainIsExact(SimpleAfter(q, n, m, x));
    }
  }

  // ---------------------------------------------------------------- clauses that share an optional step's variable

  /** `MATCH (x)? MATCH (y)` */
  function OptionalStepThen(x: string, y: string): seq<MatchStatement> {
    [SimpleMatch(Questioned(Any0(x))), SimpleMatch(Any0(y))]
  }

  lemma PlainClause(out: seq<MatchStatement>, p: PathPattern)
    requires Plain(p)
    ensures MergeClause(out, p) == (out, p, []) && HoistStep(out, SimpleMatch(p)) == out + [SimpleMatch(p)]
  {
    assert FoldFilters(p, []) == p;
  }

  lemma StepThenHoists(x: string, y: string)
    ensures HoistAll(OptionalStepThen(x, y)) == OptionalStepThen(x, y) && ReachesAll(OptionalStepThen(x, y))
  {
    var ms := OptionalStepThen(x, y);
    PlainNode(x);
    PlainNode(y);
    PlainStep(Any0(x));
    PlainClause([], Questioned(Any0(x)));
    PlainClause([ms[0]], Any0(y));
    assert ms[..1] == [ms[0]] && ms[..1][..0] == [] && ms[..0] == [] && HoistAll([]) == [];
    assert HoistAll(ms[..1]) == [] + [ms[0]] == [ms[0]];
    assert HoistAll(ms) == [ms[0]] + [ms[1]] == ms;
  }

  lemma StepThenScoped(x: string, y: string)
    requires x != y
    ensures ChainScoped(OptionalStepThen(x, y))
  {
    var ms := OptionalStepThen(x, y);
    PlainNode(x);
    PlainNode(y);
    PlainStep(Any0(x));
    assert {x} * {y} == {};
    assert Apart(ms[0], ms[1]);
    assert Hidden(Any0(y)) == {} == Hidden(Questioned(Any0(x)));
    forall i | 0 <= i < 2 ensures ClauseScoped(ms[i], ms[..i]) {
    }
  }

  /** The collapsed join meets on `x`, which the empty step has not bound; joined as the standard has
      it, the row of the empty step takes `x` from the other clause. */
  lemma StepThenDiffers(env: Env, x: string)
    requires Picks(env) && env.g.nodes == [0]
    ensures RunMatchChain(env, OptionalStepThen(x, x)) != SpecChain(env, OptionalStepThen(x, x))
  {
    var q, n := Questioned(Any0(x)), Any0(x);
    PlainNode(x);
    PlainStep(n);
    PlainSealed(q);
    NodeRowsOne(env, Forbidden, x);
    assert Rows(env, Forbidden, q) == [Bare0()] + [Bound(x)];
    TwoSimple(env, q, n);
    assert FreeVars(q) * FreeVars(n) == {x};
    RowsOfJoin(env, Forbidden, q, n, {x});
    assert env.pick({x}) in {x};
    JoinDropsFirst(Bare0(), Bound(x), Bound(x), JoinTest(env, {x}), JoinMerge);
    PairTwo(Bare0(), Bound(x), Bound(x), Unifies, JoinMerge);
    FilterNothing(env, NatJoin([Bare0()] + [Bound(x)], [Bound(x)]));
    assert SpecChain(env, [SimpleMatch(q)]) == Rows(env, Forbidden, q);
  }

  lemma JoinDropsFirst(r0: Row, r1: Row, s: Row, c: (Row, Row) -> bool, m: (Row, Row) -> Row)
    requires !c(r0, s)
    ensures |PairAll([r0] + [r1], [s], c, m)| <= 1
  {
    PairCons(r0, [r1], [s], c, m);
    assert [s] == [s] + [] && [r1] == [r1] + [];
    PairOneCons(r0, s, [], c, m);
    PairOneCons(r1, s, [], c, m);
    PairCons(r1, [], [s], c, m);
  }

  /** Two clauses one of which may leave its variable unbound are run exactly, whatever they are run
      against, if and only if they do not share it. */
  lemma SharedStepExactIff(x: string, y: string)
    ensures HoistAll(OptionalStepThen(x, y)) != []
    ensures ExactChain(OptionalStepThen(x, y)) <==> x != y
  {
    StepThenHoists(x, y);
    if x == y {
      var env := OneNode(map[], x, (mu: Assignment) => false);
      StepThenDiffers(env, x);
      SeparatesChain(env, OptionalStepThen(x, y));
    } else {
      StepThenScoped(x, y);
      ScopedChainIsExact(OptionalStepThen(x, y));
    }
  }

  // ---------------------------------------------------------------- a filter that needs a clause behind a barrier

  /** `OPTIONAL MATCH (n)`, or `MATCH ALL mode (n)`: a clause that is never absorbed. */
  predicate Blocks(first: MatchStatement, n: string) {
    first == OptionalMatch(Any0(n))
    || (first.SimpleMatch? && first.pattern.Selected? && first.pattern.prefix.search.All?
        && first.pattern.inner == Any0(n))
  }

  /** Such a clause, then `MATCH (m) WHERE x IS NOT NULL` */
  function BlockedAfter(first: MatchStatement, m: string, x: string): seq<MatchStatement> {
    [first, SimpleMatch(Clause(m, Mentions(x, false)))]
  }

  lemma BlockShape(first: MatchStatement, n: string)
    requires Blocks(first, n)
    ensures Plain(first.pattern) && !Absorbable(first)
    ensures Declared(first.pattern) == {n} == FreeVars(first.pattern) && ClauseSure(first) == {n}
    ensures HoistStep([], first) == [first]
  {
    PlainNode(n);
    PlainSealed(Any0(n));
    if first.SimpleMatch? {
      assert HoistPattern(first.pattern) == (first.pattern, []);
      PlainClause([], first.pattern);
    }
  }

  lemma BlockRows(env: Env, first: MatchStatement, n: string)
    requires Blocks(first, n) && env.g.nodes == [0]
    ensures Rows(env, Forbidden, first.pattern) == [Bound(n)]
  {
    NodeRowsOne(env, Forbidden, n);
    if first.SimpleMatch? {
      var prefix := first.pattern.prefix;
      NodeRowsOne(env, PolicyFor(prefix), n);
      NodePathInMode(prefix.mode);
      OneRowSelected(Bound(n), prefix);
    }
  }

  lemma OneRowSelected(r: Row, prefix: PathPrefix)
    requires prefix.search.All? && ModeTest(prefix.mode)(r)
    ensures ApplyPrefix([r], prefix) == [r]
  {
    var rows := [r];
    assert rows == [r] + [] && rows[1..] == [];
    FilterCons(r, [], ModeTest(prefix.mode));
    assert SelectFrom(All, rows, rows, []) == [r] + SelectFrom(All, [], rows, [] + [r]);
  }

  lemma NodePathInMode(mode: PathMode)
    ensures PathInMode([PNode(0)], mode)
  {
    var p := [PNode(0)];
    assert p[1..] == [];
    assert EdgeIds(p) == [] && NodeIds(p) == [0];
  }

  lemma BlockedHoists(first: MatchStatement, n: string, m: string, x: string)
    requires Blocks(first, n)
    ensures HoistAll([first]) == [first]
    ensures HoistAll(BlockedAfter(first, m, x)) == BlockedAfter(first, m, x)
  {
    var ms, p := BlockedAfter(first, m, x), Clause(m, Mentions(x, false));
    BlockShape(first, n);
    assert [first][..0] == [] && HoistAll([]) == [] && ms[..1] == [first];
    ClauseAlone([first], m, Mentions(x, false));
    assert HoistAll(ms) == [first] + [ms[1]];
  }

  lemma ClauseAlone(out: seq<MatchStatement>, m: string, e: Expr)
    requires out != [] && !Absorbable(out[|out| - 1])
    ensures HoistStep(out, SimpleMatch(Clause(m, e))) == out + [SimpleMatch(Clause(m, e))]
  {
    var p := Clause(m, e);
    ClauseShape(m, e);
    var (q, pending) := HoistPattern(p);
    assert MergeUp(out, q, pending) == (out, q, pending);
    assert Sealed(p) == FoldFilters(q, pending);
  }

  /** The filter stays on the clause that cannot see the variable, and loses the row. */
  lemma BlockedMisses(env: Env, first: MatchStatement, n: string, m: string)
    requires Blocks(first, n) && n != m
    requires env.g.nodes == [0] && env.ambient == map[] && env.subquery == Answers((mu: Assignment) => true)
    ensures RunMatchChain(env, BlockedAfter(first, m, n)) == [] != SpecChain(env, BlockedAfter(first, m, n))
  {
    var e := Mentions(n, false);
    BlockShape(first, n);
    BlockRows(env, first, n);
    ClauseShape(m, e);
    ClauseRows(env, m, e);
    NodeRowsOne(env, Forbidden, m);
    MentionsHolds(env, Bound(m).mu, n, false);
    MentionsHolds(env, JoinMerge(Bound(n), Bound(m)).mu, n, false);
    PlainSealed(first.pattern);
    BlockedRun(env, first, Clause(m, e), Bound(n));
    BlockedSpec(env, first, Clause(m, e), Bound(n), Bound(m), e);
  }

  lemma BlockedRun(env: Env, first: MatchStatement, p: PathPattern, outer: Row)
    requires Rows(env, Forbidden, first.pattern) == [outer] && Rows(env, Forbidden, p) == [] && !Absorbable(first)
    ensures RunMatchChain(env, [first, SimpleMatch(p)]) == []
  {
    var ms := [first, SimpleMatch(p)];
    assert ms[..1] == [first] && ms[0] in ms && !Collapsible(ms);
    assert Chain(env, ms[..1]) == [outer];
    assert RunMatchChain(env, ms) == NaturalJoin(env, [outer], []);
    PairNothing([outer], JoinTest(env, FirstKeys([outer]) * FirstKeys([])), JoinMerge);
  }

  lemma BlockedSpec(env: Env, first: MatchStatement, p: PathPattern, outer: Row, row: Row, e: Expr)
    requires Rows(env, Forbidden, Deferred(first.pattern)) == [outer] && Rows(env, Forbidden, Bare(p)) == [row]
    requires Collected(p) == [e] && Unifies(outer, row) && HoldsAll(env, JoinMerge(outer, row).mu, [e])
    ensures SpecChain(env, [first, SimpleMatch(p)]) == [JoinMerge(outer, row)]
  {
    var ms := [first, SimpleMatch(p)];
    assert ms[..1] == [first] && SpecChain(env, [first]) == [outer];
    PairOneOne(outer, row, Unifies, JoinMerge);
    FilterOne(env, JoinMerge(outer, row), [e]);
  }

  lemma BlockedScoped(first: MatchStatement, n: string, m: string, x: string)
    requires Blocks(first, n) && n != m
    ensures ChainScoped(BlockedAfter(first, m, x))
    ensures ReachesAll(BlockedAfter(first, m, x)) <==> x != n
  {
    var ms, e := BlockedAfter(first, m, x), Mentions(x, false);
    BlockShape(first, n);
    ClauseShape(m, e);
    MentionsReads(x, false);
    NoSubqueryVars(e);
    assert {n} * {m} == {};
    assert ms[..0] == [] && ms[..1] == [first] && [first][..0] == [];
    assert Apart(ms[0], ms[1]) && AllApart(ms);
    assert Hidden(first.pattern) * {} == {};
    assert ClauseScoped(ms[0], ms[..0]) && ClauseScoped(ms[1], ms[..1]);
    assert TableDecl([first]) == {n} && RunStart([first]) == 1 && [first][1..] == [];
    assert Reach(ms[..1], ms[1].pattern) == {m};
    assert e in [e];
    assert n == x ==> x in {x} * {n};
    assert InReach(ms[..1], ms[1].pattern) <==> x != n;
  }

  /** A filter that needs a clause behind a barrier goes back onto its own clause, where the variable
      has no value: such a chain is run exactly in every environment if and only if the filter reads
      nothing from behind the barrier. */
  lemma BlockedExactIff(first: MatchStatement, n: string, m: string, x: string)
    requires Blocks(first, n) && n != m
    ensures HoistAll(BlockedAfter(first, m, x)) != []
    ensures ExactChain(BlockedAfter(first, m, x)) <==> x != n
    ensures ExactChain(BlockedAfter(first, m, x)) <==> ReachesAll(BlockedAfter(first, m, x))
  {
    BlockedHoists(first, n, m, x);
    BlockedScoped(first, n, m, x);
    if x == n {
      var env := OneNode(map[], "", (mu: Assignment) => true);
      BlockedMisses(env, first, n, m);
      SeparatesChain(env, BlockedAfter(first, m, x));
    } else {
      ScopedChainIsExact(BlockedAfter(first, m, x));
    }
  }
}
