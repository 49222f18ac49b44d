/** Where hoisting is not the standard's reading: for each clause of `WellScoped` a family of patterns,
    over every choice of names and every satisfiable comparison, on which hoisting is exact in every
    environment if and only if the clause holds. */
module HoistLimits {
  import opened Values
  import opened Syntax
  import opened RowAlgebra
  import opened Runtime
  import opened Evaluator
  import opened Scoping
  import opened Hoist
  import opened HoistRows

  /** Hoisting `p` keeps its rows, in order, whatever it is run against. */
  ghost predicate ExactEverywhere(p: PathPattern) {
    forall env, pol :: Picks(env) ==> Rows(env, pol, Sealed(p)) == Rows(env, pol, Deferred(p))
  }

  lemma ScopedIsExact(p: PathPattern)
    requires WellScoped(p)
    ensures ExactEverywhere(p)
  {
    forall env, pol | Picks(env) ensures Rows(env, pol, Sealed(p)) == Rows(env, pol, Deferred(p)) {
      SealedExact(env, pol, p);
    }
  }

  // ---------------------------------------------------------------- the separating environments

  /** Picks `first` where it may. */
  ghost function PickFirst(first: string): set<string> -> string {
    (s: set<string>) => if first in s || s == {} then first else var x :| x in s; x
  }

  /** Subquery bodies that look at the row they are evaluated on. */
  function Answers(body: Assignment -> bool): (nat, Scope, Assignment, Assignment) -> ExprResult {
    (q: nat, scope: Scope, mu: Assignment, ambient: Assignment) => Success(Bool(body(mu)))
  }

  /** One node, number 0; subquery bodies answer `body`. */
  ghost function OneNode(props: Props, key: string, body: Assignment -> bool): (env: Env)
    ensures Picks(env) && env.ambient == map[] && env.g.nodes == [0] && env.g.nodeProps(0) == props
      && env.subquery == Answers(body)
    ensures forall pol, lb, vars, rows :: env.star(pol, lb, vars, rows) == []
  {
    Env(Graph([0], [], [], (id: Id) => 0, (id: Id) => 0, (id: Id) => {}, (id: Id) => {},
              (id: Id) => props, (id: Id) => map[]),
        map[], false, Answers(body),
        (pol: Policy, lb: nat, vars: set<string>, rows: seq<Row>) => [],
        PickFirst(key))
  }

  function Any0(x: string): PathPattern {
    Node(Some(Descriptor(Some(x), {}, Open(map[]), [], [])))
  }

  /** `x.k op lit` */
  function Test(x: string, k: string, op: CmpOp, lit: Value): Expr {
    Binop(Cmp(op), AttrLookup(x, k), Const(lit))
  }

  ghost predicate Satisfiable(op: CmpOp, lit: Value) {
    exists v :: IsTrue(EvalCmp(op, v, lit))
  }

  function Bare0(): Row {
    Row([[PNode(0)]], map[])
  }

  function Bound(x: string): Row {
    Row([[PNode(0)]], map[x := PNode(0)])
  }

  lemma NodeRowsOne(env: Env, pol: Policy, x: string)
    requires env.g.nodes == [0]
    ensures Rows(env, pol, Any0(x)) == [Bound(x)]
    ensures NodeRows(env, None) == [Bare0()]
  {
    var d := Any0(x).desc;
    var ids: seq<Id>, none: seq<Id> := [0], [];
    assert ids[1..] == none;
    assert PropsMatch(env.g.nodeProps(0), Open(map[]));
    assert NodeTest(env, d)(0) && NodeTest(env, None)(0);
    assert FilterSeq(ids, NodeTest(env, d)) == ids && FilterSeq(ids, NodeTest(env, None)) == ids;
    assert FlatMap(ids, NodeStep(Some(x))) == NodeStep(Some(x))(0) + FlatMap(none, NodeStep(Some(x)));
    assert FlatMap(ids, NodeStep(None)) == NodeStep(None)(0) + FlatMap(none, NodeStep(None));
  }

  /** The comparison holds of the node, and fails of anything that has no attributes. */
  lemma TestHolds(env: Env, mu: Assignment, x: string, k: string, op: CmpOp, v: Value, lit: Value)
    requires env.ambient == map[] && k in env.g.nodeProps(0) && env.g.nodeProps(0)[k] == v
      && IsTrue(EvalCmp(op, v, lit))
    ensures x in mu && mu[x] == PNode(0) ==> HoldsAll(env, mu, [Test(x, k, op, lit)])
    ensures x !in mu || mu[x].PPath? ==> !HoldsAll(env, mu, [Test(x, k, op, lit)])
  {
    var e := Test(x, k, op, lit);
    assert e in [e] && LookupScope([], x) == None;
    assert Eval(env, [], mu, Const(lit)) == Success(lit);
    assert Eval(env, [], mu, e.left) ==
      if x in mu then AttrOfPathValue(env.g, mu[x], k) else Failure;
    if x in mu && mu[x] == PNode(0) {
      assert AttrOfPathValue(env.g, mu[x], k) == Success(v);
      assert Eval(env, [], mu, e) == EvalCmp(op, v, lit);
    } else if x !in mu || mu[x].PPath? {
      assert Eval(env, [], mu, e) == Failure;
    }
  }

  lemma FilterOne(env: Env, r: Row, es: seq<Expr>)
    ensures FilterSeq([r], AllTest(env, es)) == if HoldsAll(env, r.mu, es) then [r] else []
  {
    assert [r] == [r] + [];
    FilterCons(r, [], AllTest(env, es));
  }

  lemma PairOneOne(r1: Row, r2: Row, c: (Row, Row) -> bool, m: (Row, Row) -> Row)
    requires c(r1, r2)
    ensures PairOne(r1, [r2], c, m) == [m(r1, r2)]
    ensures PairAll([r1], [r2], c, m) == [m(r1, r2)]
  {
    assert [r1] == [r1] + [] && [r2] == [r2] + [];
    PairOneCons(r1, r2, [], c, m);
    PairCons(r1, [], [r2], c, m);
  }

  lemma PairTwo(r0: Row, r1: Row, s: Row, c: (Row, Row) -> bool, m: (Row, Row) -> Row)
    ensures c(r0, s) && c(r1, s) ==> PairAll([r0] + [r1], [s], c, m) == [m(r0, s)] + [m(r1, s)]
    ensures c(s, r0) && c(s, r1) ==> PairAll([s], [r0] + [r1], c, m) == [m(s, r0)] + [m(s, r1)]
  {
    if c(r0, s) && c(r1, s) {
      PairOneOne(r0, s, c, m);
      PairOneOne(r1, s, c, m);
      PairCons(r0, [r1], [s], c, m);
    }
    if c(s, r0) && c(s, r1) {
      PairOneOne(s, r1, c, m);
      PairOneCons(s, r0, [r1], c, m);
      assert [s] == [s] + [];
      PairCons(s, [], [r0] + [r1], c, m);
    }
  }

  /** A filter that drops the first of two rows before the pairing and neither row after it. */
  lemma FilterBefore(env: Env, r0: Row, r1: Row, s: Row, c: (Row, Row) -> bool, m: (Row, Row) -> Row, es: seq<Expr>)
    requires !HoldsAll(env, r0.mu, es) && HoldsAll(env, r1.mu, es)
    ensures c(r0, s) && c(r1, s) && HoldsAll(env, m(r0, s).mu, es) && HoldsAll(env, m(r1, s).mu, es) ==>
              PairAll(FilterSeq([r0] + [r1], AllTest(env, es)), [s], c, m)
              != FilterSeq(PairAll([r0] + [r1], [s], c, m), AllTest(env, es))
    ensures c(s, r0) && c(s, r1) && HoldsAll(env, m(s, r0).mu, es) && HoldsAll(env, m(s, r1).mu, es) ==>
              PairAll([s], FilterSeq([r0] + [r1], AllTest(env, es)), c, m)
              != FilterSeq(PairAll([s], [r0] + [r1], c, m), AllTest(env, es))
  {
    FilterCons(r0, [r1], AllTest(env, es));
    FilterOne(env, r1, es);
    PairTwo(r0, r1, s, c, m);
    if c(r0, s) && c(r1, s) && HoldsAll(env, m(r0, s).mu, es) && HoldsAll(env, m(r1, s).mu, es) {
      PairOneOne(r1, s, c, m);
      FilterAllPass([m(r0, s)] + [m(r1, s)], AllTest(env, es));
      assert |PairAll([r0] + [r1], [s], c, m)| == 2;
    }
    if c(s, r0) && c(s, r1) && HoldsAll(env, m(s, r0).mu, es) && HoldsAll(env, m(s, r1).mu, es) {
      PairOneOne(s, r1, c, m);
      FilterAllPass([m(s, r0)] + [m(s, r1)], AllTest(env, es));
      assert |PairAll([s], [r0] + [r1], c, m)| == 2;
    }
  }

  // ---------------------------------------------------------------- one filter on one operand

  /** A pattern without filters: both readings leave it as it is. */
  predicate Plain(p: PathPattern) {
    HoistPattern(p) == (p, []) && Bare(p) == p && Collected(p) == [] && WellScoped(p)
  }

  lemma PlainNode(x: string)
    ensures Plain(Any0(x)) && Declared(Any0(x)) == {x} == FreeVars(Any0(x)) && Sure(Any0(x)) == {x}
  {
  }

  lemma PlainSealed(p: PathPattern)
    requires Plain(p)
    ensures Sealed(p) == p && Deferred(p) == p
  {
    assert FoldFilters(p, []) == p;
  }

  lemma PlainStep(p: PathPattern)
    requires Plain(p)
    ensures Plain(Questioned(p)) && Sure(Questioned(p)) == {}
    ensures FreeVars(Questioned(p)) == FreeVars(p) && Declared(Questioned(p)) == Declared(p)
  {
    PlainSealed(p);
    StepShape(p);
  }

  lemma StepShape(p: PathPattern)
    ensures var q := Questioned(p);
      && HoistPattern(q) == (Questioned(Sealed(p)), []) && Bare(q) == Questioned(Deferred(p)) && Collected(q) == []
      && WellScoped(q) == WellScoped(p) && Sure(q) == {} && FreeVars(q) == FreeVars(p) && Declared(q) == Declared(p)
  {
  }

  lemma PlainConcat(a: PathPattern, b: PathPattern)
    requires Plain(a) && Plain(b)
    ensures Plain(Concat(a, b)) && Sure(Concat(a, b)) == Sure(a) + Sure(b)
    ensures FreeVars(Concat(a, b)) == FreeVars(a) + FreeVars(b) && Declared(Concat(a, b)) == Declared(a) + Declared(b)
  {
    assert HoistPattern(Concat(a, b)) == Place(Concat(a, b), [] + []);
    assert Collected(Concat(a, b)) == [] + [];
  }

  lemma PlainNamed(v: string, p: PathPattern)
    requires Plain(p)
    ensures Plain(Named(v, p)) && Declared(Named(v, p)) == {v} + Declared(p) && FreeVars(Named(v, p)) == FreeVars(p)
  {
  }

  lemma FilteredPlain(p: PathPattern, e: Expr)
    requires Plain(p) && Referenced(e) <= Declared(p)
    ensures HoistPattern(Filter(p, e)) == (Filter(p, e), []) && Bare(Filter(p, e)) == p
      && Collected(Filter(p, e)) == [e]
    ensures Declared(Filter(p, e)) == Declared(p) && FreeVars(Filter(p, e)) == FreeVars(p)
      && Sure(Filter(p, e)) == Sure(p)
    ensures WellScoped(Filter(p, e))
  {
    FilterStays(p, e);
    assert Collected(Filter(p, e)) == [] + [e];
  }

  /** The hoisted reading filters the operand, the standard's reading the pairs. */
  ghost predicate Readings(env: Env, p: PathPattern, hoisted: seq<Row>, deferred: seq<Row>, e: Expr) {
    && Rows(env, Forbidden, Sealed(p)) == hoisted
    && Rows(env, Forbidden, Deferred(p)) == FilterSeq(deferred, AllTest(env, [e]))
  }

  lemma SettledReadings(env: Env, p: PathPattern, bare: PathPattern, e: Expr)
    requires HoistPattern(p) == (p, []) && Bare(p) == bare && Collected(p) == [e]
    ensures Readings(env, p, Rows(env, Forbidden, p), Rows(env, Forbidden, bare), e)
  {
    RowsFold(env, Forbidden, bare, [e]);
  }

  lemma ConcatReadings(env: Env, a: PathPattern, b: PathPattern, e: Expr)
    requires Plain(a) && Plain(b) && Referenced(e) <= Declared(a)
    ensures var (xs, ys) := (Rows(env, Forbidden, a), Rows(env, Forbidden, b));
      && Readings(env, Concat(Filter(a, e), b),
                  PairAll(FilterSeq(xs, AllTest(env, [e])), ys, ConcatCompat, ConcatMerge),
                  PairAll(xs, ys, ConcatCompat, ConcatMerge), e)
      && Readings(env, Concat(b, Filter(a, e)),
                  PairAll(ys, FilterSeq(xs, AllTest(env, [e])), ConcatCompat, ConcatMerge),
                  PairAll(ys, xs, ConcatCompat, ConcatMerge), e)
  {
    FilteredPlain(a, e);
    var p, q := Concat(Filter(a, e), b), Concat(b, Filter(a, e));
    assert [] + [e] == [e] && [e] + [] == [e];
    assert HoistPattern(p) == Place(p, [] + []) && HoistPattern(q) == Place(q, [] + []);
    SettledReadings(env, p, Concat(a, b), e);
    SettledReadings(env, q, Concat(b, a), e);
  }

  lemma JoinFirstReadings(env: Env, a: PathPattern, b: PathPattern, shared: set<string>, e: Expr)
    requires Plain(a) && Plain(b) && Referenced(e) <= Declared(a) && FreeVars(a) * FreeVars(b) == shared
    ensures var (xs, ys) := (Rows(env, Forbidden, a), Rows(env, Forbidden, b));
      Readings(env, Join(Filter(a, e), b),
               PairAll(FilterSeq(xs, AllTest(env, [e])), ys, JoinTest(env, shared), JoinMerge),
               PairAll(xs, ys, JoinTest(env, shared), JoinMerge), e)
  {
    FilteredPlain(a, e);
    var p := Join(Filter(a, e), b);
    assert [e] + [] == [e] && HoistPattern(p) == Place(p, [] + []);
    SettledReadings(env, p, Join(a, b), e);
    RowsOfJoin(env, Forbidden, Filter(a, e), b, shared);
    RowsOfJoin(env, Forbidden, a, b, shared);
  }

  lemma JoinLastReadings(env: Env, a: PathPattern, b: PathPattern, shared: set<string>, e: Expr)
    requires Plain(a) && Plain(b) && Referenced(e) <= Declared(a) && FreeVars(b) * FreeVars(a) == shared
    ensures var (xs, ys) := (Rows(env, Forbidden, a), Rows(env, Forbidden, b));
      Readings(env, Join(b, Filter(a, e)),
               PairAll(ys, FilterSeq(xs, AllTest(env, [e])), JoinTest(env, shared), JoinMerge),
               PairAll(ys, xs, JoinTest(env, shared), JoinMerge), e)
  {
    FilteredPlain(a, e);
    var p := Join(b, Filter(a, e));
    assert [] + [e] == [e] && HoistPattern(p) == Place(p, [] + []);
    SettledReadings(env, p, Join(b, a), e);
    RowsOfJoin(env, Forbidden, b, Filter(a, e), shared);
    RowsOfJoin(env, Forbidden, b, a, shared);
  }

  lemma NamedReadings(env: Env, v: string, a: PathPattern, e: Expr)
    requires Plain(a) && Referenced(e) <= Declared(a)
    ensures var xs := Rows(env, Forbidden, a);
      Readings(env, Named(v, Filter(a, e)), MapSeq(FilterSeq(xs, AllTest(env, [e])), NameRow(v)),
               MapSeq(xs, NameRow(v)), e)
  {
    FilteredPlain(a, e);
    SettledReadings(env, Named(v, Filter(a, e)), Named(v, a), e);
  }

  lemma ConcatScopedWhen(a: PathPattern, b: PathPattern, e: Expr)
    requires Plain(a) && Plain(b) && Referenced(e) <= Declared(a)
    ensures WellScoped(Concat(Filter(a, e), b)) <==> Reads(e) * Declared(b) <= Sure(a)
    ensures WellScoped(Concat(b, Filter(a, e))) <==> Reads(e) * Declared(b) <= Sure(a)
  {
    FilteredPlain(a, e);
    assert e in Collected(Filter(a, e));
  }

  lemma JoinScopedWhen(a: PathPattern, b: PathPattern, e: Expr, shared: set<string>)
    requires Plain(a) && Plain(b) && Referenced(e) <= Declared(a) && FreeVars(a) * FreeVars(b) == shared
    ensures WellScoped(Join(Filter(a, e), b)) <==>
            Reads(e) * Declared(b) <= if shared == {} then {} else Sure(a) + KeyOnly(shared)
    ensures WellScoped(Join(b, Filter(a, e))) <==> Reads(e) * Declared(b) <= Sure(a) + KeyOnly(shared)
  {
    FilteredPlain(a, e);
    var p := Filter(a, e);
    assert FreeVars(b) * FreeVars(p) == shared;
    FirstScoped(p, b, e, shared);
    LastScoped(b, p, e, shared);
    JoinUnfolds(p, b);
    JoinUnfolds(b, p);
  }

  lemma JoinUnfolds(a: PathPattern, b: PathPattern)
    requires WellScoped(a) && WellScoped(b)
    ensures WellScoped(Join(a, b)) <==> JoinScoped(a, b)
  {
  }

  lemma FirstScoped(p: PathPattern, b: PathPattern, e: Expr, shared: set<string>)
    requires Collected(p) == [e] && Referenced(e) <= Declared(p) && Collected(b) == []
      && FreeVars(p) * FreeVars(b) == shared
    ensures JoinScoped(p, b) <==> Reads(e) * Declared(b) <= if shared == {} then {} else Sure(p) + KeyOnly(shared)
  {
    OneReadBound(p, e, Declared(b), if shared == {} then {} else Sure(p) + KeyOnly(shared));
  }

  lemma LastScoped(a: PathPattern, p: PathPattern, e: Expr, shared: set<string>)
    requires Collected(p) == [e] && Referenced(e) <= Declared(p) && Collected(a) == []
      && FreeVars(a) * FreeVars(p) == shared
    ensures JoinScoped(a, p) <==> Reads(e) * Declared(a) <= Sure(p) + KeyOnly(shared)
  {
    OneReadBound(p, e, Declared(a), Sure(p) + KeyOnly(shared));
  }

  lemma OneReadBound(p: PathPattern, e: Expr, sibling: set<string>, bound: set<string>)
    requires Collected(p) == [e] && Referenced(e) <= Declared(p)
    ensures ReadsBound(Collected(p), Declared(p), sibling, bound) <==> Reads(e) * sibling <= bound
  {
    assert e in [e];
  }

  lemma NamedScopedWhen(v: string, a: PathPattern, e: Expr)
    requires Plain(a) && Referenced(e) <= Declared(a)
    ensures WellScoped(Named(v, Filter(a, e))) <==> v !in Reads(e)
  {
    FilteredPlain(a, e);
    assert e in Collected(Filter(a, e));
  }

  lemma TestReads(x: string, k: string, op: CmpOp, lit: Value)
    ensures Referenced(Test(x, k, op, lit)) == {x} == Reads(Test(x, k, op, lit))
  {
    var e := Test(x, k, op, lit);
    assert Referenced(e) == Referenced(e.left) + Referenced(e.right);
    assert SubqueryVars(e) == SubqueryVars(e.left) + SubqueryVars(e.right);
    assert Referenced(e.left) == {x} && Referenced(e.right) == {} && SubqueryVars(e.left) == {}
      && SubqueryVars(e.right) == {};
  }

  lemma Separates(env: Env, p: PathPattern)
    requires Picks(env) && Rows(env, Forbidden, Sealed(p)) != Rows(env, Forbidden, Deferred(p))
    ensures !ExactEverywhere(p)
  {
  }

  /** An operand with two rows, the first of which passes the filter only once paired. */
  lemma ConcatSeparates(env: Env, a: PathPattern, b: PathPattern, e: Expr, r0: Row, r1: Row, s: Row)
    requires Picks(env) && Plain(a) && Plain(b) && Referenced(e) <= Declared(a)
    requires Rows(env, Forbidden, a) == [r0] + [r1] && Rows(env, Forbidden, b) == [s]
    requires !HoldsAll(env, r0.mu, [e]) && HoldsAll(env, r1.mu, [e]) && HoldsAll(env, s.mu, [e])
    requires r0.mu + s.mu == s.mu && r1.mu + s.mu == s.mu && s.mu + r0.mu == s.mu && s.mu + r1.mu == s.mu
    requires EndsMeet(r0, s) && EndsMeet(r1, s) && EndsMeet(s, r0) && EndsMeet(s, r1)
    ensures !ExactEverywhere(Concat(Filter(a, e), b)) && !ExactEverywhere(Concat(b, Filter(a, e)))
  {
    ConcatReadings(env, a, b, e);
    assert CanUnify(r0.mu, s.mu) && CanUnify(r1.mu, s.mu);
    FilterBefore(env, r0, r1, s, ConcatCompat, ConcatMerge, [e]);
    Separates(env, Concat(Filter(a, e), b));
    Separates(env, Concat(b, Filter(a, e)));
  }

  lemma JoinSeparates(env: Env, a: PathPattern, b: PathPattern, shared: set<string>, e: Expr, r0: Row, r1: Row, s: Row)
    requires Picks(env) && Plain(a) && Plain(b) && Referenced(e) <= Declared(a)
    requires FreeVars(a) * FreeVars(b) == shared && shared != {}
    requires Rows(env, Forbidden, a) == [r0] + [r1] && Rows(env, Forbidden, b) == [s]
    requires !HoldsAll(env, r0.mu, [e]) && HoldsAll(env, r1.mu, [e]) && HoldsAll(env, s.mu, [e])
    requires r0.mu + s.mu == s.mu && r1.mu + s.mu == s.mu && s.mu + r0.mu == s.mu && s.mu + r1.mu == s.mu
    requires env.pick(shared) in r0.mu.Keys * r1.mu.Keys * s.mu.Keys
    ensures !ExactEverywhere(Join(Filter(a, e), b)) && !ExactEverywhere(Join(b, Filter(a, e)))
  {
    assert FreeVars(b) * FreeVars(a) == shared;
    JoinMeets(env, shared, r0, s);
    JoinMeets(env, shared, r1, s);
    FilterBefore(env, r0, r1, s, JoinTest(env, shared), JoinMerge, [e]);
    JoinFirstSeparates(env, a, b, shared, e);
    JoinLastSeparates(env, a, b, shared, e);
  }

  lemma JoinMeets(env: Env, shared: set<string>, r: Row, s: Row)
    requires shared != {} && env.pick(shared) in r.mu.Keys * s.mu.Keys && r.mu + s.mu == s.mu && s.mu + r.mu == s.mu
    ensures JoinTest(env, shared)(r, s) && JoinTest(env, shared)(s, r)
  {
    forall k | k in r.mu && k in s.mu ensures r.mu[k] == s.mu[k] {
      assert (s.mu + r.mu)[k] == r.mu[k];
    }
  }

  lemma JoinFirstSeparates(env: Env, a: PathPattern, b: PathPattern, shared: set<string>, e: Expr)
    requires Picks(env) && Plain(a) && Plain(b) && Referenced(e) <= Declared(a) && FreeVars(a) * FreeVars(b) == shared
    requires var (xs, ys) := (Rows(env, Forbidden, a), Rows(env, Forbidden, b));
      PairAll(FilterSeq(xs, AllTest(env, [e])), ys, JoinTest(env, shared), JoinMerge)
      != FilterSeq(PairAll(xs, ys, JoinTest(env, shared), JoinMerge), AllTest(env, [e]))
    ensures !ExactEverywhere(Join(Filter(a, e), b))
  {
    JoinFirstReadings(env, a, b, shared, e);
    Separates(env, Join(Filter(a, e), b));
  }

  lemma JoinLastSeparates(env: Env, a: PathPattern, b: PathPattern, shared: set<string>, e: Expr)
    requires Picks(env) && Plain(a) && Plain(b) && Referenced(e) <= Declared(a) && FreeVars(b) * FreeVars(a) == shared
    requires var (xs, ys) := (Rows(env, Forbidden, a), Rows(env, Forbidden, b));
      PairAll(ys, FilterSeq(xs, AllTest(env, [e])), JoinTest(env, shared), JoinMerge)
      != FilterSeq(PairAll(ys, xs, JoinTest(env, shared), JoinMerge), AllTest(env, [e]))
    ensures !ExactEverywhere(Join(b, Filter(a, e)))
  {
    JoinLastReadings(env, a, b, shared, e);
    Separates(env, Join(b, Filter(a, e)));
  }

  // ---------------------------------------------------------------- an optional step beside its variable

  /** `((x)? WHERE x.k op lit)(y)` */
  function OptionalFirst(x: string, y: string, e: Expr): PathPattern {
    Concat(Filter(Questioned(Any0(x)), e), Any0(y))
  }

  /** `(y)((x)? WHERE x.k op lit)` */
  function OptionalLast(x: string, y: string, e: Expr): PathPattern {
    Concat(Any0(y), Filter(Questioned(Any0(x)), e))
  }

  /** The empty branch of `(x)?` leaves `x` to the neighbour, and the pass evaluates the predicate
      before the neighbour has bound it. */
  lemma QuestionedSharesVariable(x: string, k: string, op: CmpOp, lit: Value)
    requires Satisfiable(op, lit)
    ensures !ExactEverywhere(OptionalFirst(x, x, Test(x, k, op, lit)))
    ensures !ExactEverywhere(OptionalLast(x, x, Test(x, k, op, lit)))
  {
    var v :| IsTrue(EvalCmp(op, v, lit));
    var env := OneNode(map[k := v], x, (mu: Assignment) => false);
    var e, a, b := Test(x, k, op, lit), Questioned(Any0(x)), Any0(x);
    TestReads(x, k, op, lit);
    PlainNode(x);
    PlainStep(b);
    NodeRowsOne(env, Forbidden, x);
    assert Rows(env, Forbidden, a) == [Bare0()] + [Bound(x)];
    TestHolds(env, Bare0().mu, x, k, op, v, lit);
    TestHolds(env, Bound(x).mu, x, k, op, v, lit);
    BoundAbsorbs(x);
    ConcatSeparates(env, a, b, e, Bare0(), Bound(x), Bound(x));
  }

  lemma BoundAbsorbs(x: string)
    ensures var (none, one) := (Bare0().mu, Bound(x).mu); none + one == one && one + none == one && one + one == one
    ensures EndsMeet(Bare0(), Bound(x)) && EndsMeet(Bound(x), Bare0()) && EndsMeet(Bound(x), Bound(x))
  {
  }

  lemma OptionalExactWhen(x: string, y: string, k: string, op: CmpOp, lit: Value)
    requires Satisfiable(op, lit)
    ensures ExactEverywhere(OptionalFirst(x, y, Test(x, k, op, lit))) <==> x != y
    ensures WellScoped(OptionalFirst(x, y, Test(x, k, op, lit))) <==> x != y
    ensures ExactEverywhere(OptionalLast(x, y, Test(x, k, op, lit))) <==> x != y
    ensures WellScoped(OptionalLast(x, y, Test(x, k, op, lit))) <==> x != y
  {
    var e := Test(x, k, op, lit);
    TestReads(x, k, op, lit);
    PlainNode(x);
    PlainNode(y);
    PlainStep(Any0(x));
    ConcatScopedWhen(Questioned(Any0(x)), Any0(y), e);
    assert x == y <==> x in {x} * {y};
    if x == y {
      QuestionedSharesVariable(x, k, op, lit);
    } else {
      ScopedIsExact(OptionalFirst(x, y, e));
      ScopedIsExact(OptionalLast(x, y, e));
    }
  }

  // ---------------------------------------------------------------- operands of a join

  /** `((z)(x)? WHERE x.k op lit), (w)(y)` */
  function KeyedFirst(z: string, x: string, w: string, y: string, e: Expr): PathPattern {
    Join(Filter(Concat(Any0(z), Questioned(Any0(x))), e), Concat(Any0(w), Any0(y)))
  }

  /** `(w)(y), ((z)(x)? WHERE x.k op lit)` */
  function KeyedLast(z: string, x: string, w: string, y: string, e: Expr): PathPattern {
    Join(Concat(Any0(w), Any0(y)), Filter(Concat(Any0(z), Questioned(Any0(x))), e))
  }

  /** `(z)(x)?` on one node: the step taken empty, and taken. */
  lemma StepRows(env: Env, z: string, x: string) returns (r0: Row, r1: Row)
    requires env.g.nodes == [0] && x != z
    ensures Rows(env, Forbidden, Concat(Any0(z), Questioned(Any0(x)))) == [r0] + [r1]
    ensures r0.mu == map[z := PNode(0)] && r1.mu == map[z := PNode(0), x := PNode(0)]
  {
    NodeRowsOne(env, Forbidden, x);
    NodeRowsOne(env, Forbidden, z);
    r0, r1 := ConcatMerge(Bound(z), Bare0()), ConcatMerge(Bound(z), Bound(x));
    ConcatTwo(env, Any0(z), Questioned(Any0(x)), Bound(z), Bare0(), Bound(x));
  }

  lemma ConcatTwo(env: Env, a: PathPattern, b: PathPattern, r: Row, s: Row, t: Row)
    requires Rows(env, Forbidden, a) == [r] && Rows(env, Forbidden, b) == [s] + [t]
    requires ConcatCompat(r, s) && ConcatCompat(r, t)
    ensures Rows(env, Forbidden, Concat(a, b)) == [ConcatMerge(r, s)] + [ConcatMerge(r, t)]
  {
    PairTwo(s, t, r, ConcatCompat, ConcatMerge);
  }

  lemma PathRows(env: Env, w: string, y: string) returns (s: Row)
    requires env.g.nodes == [0]
    ensures Rows(env, Forbidden, Concat(Any0(w), Any0(y))) == [s]
    ensures s.mu == map[w := PNode(0), y := PNode(0)]
  {
    NodeRowsOne(env, Forbidden, w);
    NodeRowsOne(env, Forbidden, y);
    PairOneOne(Bound(w), Bound(y), ConcatCompat, ConcatMerge);
    s := ConcatMerge(Bound(w), Bound(y));
  }

  /** The two operands. */
  lemma KeyedOperands(z: string, x: string, w: string, y: string)
    ensures var (i, j) := (Concat(Any0(z), Questioned(Any0(x))), Concat(Any0(w), Any0(y)));
      && Plain(i) && FreeVars(i) == {z, x} == Declared(i) && Sure(i) == {z}
      && Plain(j) && FreeVars(j) == {w, y} == Declared(j)
  {
    PlainNode(z);
    PlainNode(x);
    PlainNode(w);
    PlainNode(y);
    PlainStep(Any0(x));
    PlainConcat(Any0(z), Questioned(Any0(x)));
    PlainConcat(Any0(w), Any0(y));
  }

  /** The rows of the two operands, when their variables are the same two. */
  lemma KeyedRows(env: Env, z: string, x: string, w: string, y: string, k: string, op: CmpOp, v: Value, lit: Value)
    returns (r0: Row, r1: Row, s: Row)
    requires env.g.nodes == [0] && x != z && {w, y} == {x, z}
    requires env.ambient == map[] && k in env.g.nodeProps(0) && env.g.nodeProps(0)[k] == v
      && IsTrue(EvalCmp(op, v, lit))
    ensures Rows(env, Forbidden, Concat(Any0(z), Questioned(Any0(x)))) == [r0] + [r1]
    ensures Rows(env, Forbidden, Concat(Any0(w), Any0(y))) == [s]
    ensures r0.mu + s.mu == s.mu && r1.mu + s.mu == s.mu && s.mu + r0.mu == s.mu && s.mu + r1.mu == s.mu
    ensures z in r0.mu.Keys * r1.mu.Keys * s.mu.Keys
    ensures var es := [Test(x, k, op, lit)];
      !HoldsAll(env, r0.mu, es) && HoldsAll(env, r1.mu, es) && HoldsAll(env, s.mu, es)
  {
    r0, r1 := StepRows(env, z, x);
    s := PathRows(env, w, y);
    TwoNames(z, x, w, y);
    assert r1.mu == s.mu;
    TestHolds(env, r0.mu, x, k, op, v, lit);
    TestHolds(env, s.mu, x, k, op, v, lit);
  }

  /** With two shared variables the rows meet on one of them only: a filter on the other one runs
      before the sibling has bound it. */
  lemma KeyLeavesVariable(z: string, x: string, w: string, y: string, k: string, op: CmpOp, lit: Value)
    requires Satisfiable(op, lit) && x != z && {w, y} == {x, z}
    ensures !ExactEverywhere(KeyedFirst(z, x, w, y, Test(x, k, op, lit)))
    ensures !ExactEverywhere(KeyedLast(z, x, w, y, Test(x, k, op, lit)))
  {
    var v :| IsTrue(EvalCmp(op, v, lit));
    var env := OneNode(map[k := v], z, (mu: Assignment) => false);
    var shared := {z, x};
    var r0, r1, s := KeyedRows(env, z, x, w, y, k, op, v, lit);
    TestReads(x, k, op, lit);
    KeyedOperands(z, x, w, y);
    assert env.pick(shared) == z;
    JoinSeparates(env, Concat(Any0(z), Questioned(Any0(x))), Concat(Any0(w), Any0(y)), shared, Test(x, k, op, lit), r0,
                  r1, s);
  }

  lemma TwoNames(z: string, x: string, w: string, y: string)
    requires x != z && {w, y} == {x, z}
    ensures (w == x && y == z) || (w == z && y == x)
  {
    assert x in {w, y} && z in {w, y};
  }

  lemma KeyedShared(z: string, x: string, w: string, y: string)
    ensures x != z && {w, y} == {x, z} ==> KeyOnly({z, x} * {w, y}) == {}
    ensures x != z && x in {w, y} && {w, y} != {x, z} ==> KeyOnly({z, x} * {w, y}) == {x}
    ensures {x} * {w, y} == (if x in {w, y} then {x} else {})
    ensures x in {w, y} ==> {z, x} * {w, y} != {}
  {
    var shared := {z, x} * {w, y};
    if x != z && {w, y} == {x, z} {
      TwoNames(z, x, w, y);
      assert shared == {x, z} && |{x, z}| == 2;
    } else if x != z && x in {w, y} {
      assert z !in {w, y};
      assert shared == {x};
    }
    if x in {w, y} {
      assert x in shared;
    }
  }

  lemma KeyedExactWhen(z: string, x: string, w: string, y: string, k: string, op: CmpOp, lit: Value)
    requires Satisfiable(op, lit)
    ensures ExactEverywhere(KeyedFirst(z, x, w, y, Test(x, k, op, lit))) <==> x == z || {w, y} != {x, z}
    ensures WellScoped(KeyedFirst(z, x, w, y, Test(x, k, op, lit))) <==> x == z || {w, y} != {x, z}
    ensures ExactEverywhere(KeyedLast(z, x, w, y, Test(x, k, op, lit))) <==> x == z || {w, y} != {x, z}
    ensures WellScoped(KeyedLast(z, x, w, y, Test(x, k, op, lit))) <==> x == z || {w, y} != {x, z}
  {
    var e := Test(x, k, op, lit);
    TestReads(x, k, op, lit);
    KeyedOperands(z, x, w, y);
    JoinScopedWhen(Concat(Any0(z), Questioned(Any0(x))), Concat(Any0(w), Any0(y)), e, {z, x} * {w, y});
    KeyedShared(z, x, w, y);
    if x != z && {w, y} == {x, z} {
      TwoNames(z, x, w, y);
      KeyLeavesVariable(z, x, w, y, k, op, lit);
    } else {
      ScopedIsExact(KeyedFirst(z, x, w, y, e));
      ScopedIsExact(KeyedLast(z, x, w, y, e));
    }
  }

  // ---------------------------------------------------------------- a product

  /** `((x) WHERE x.k op lit), w = (m)` */
  function ProductWithPath(x: string, w: string, m: string, e: Expr): PathPattern {
    Join(Filter(Any0(x), e), Named(w, Any0(m)))
  }

  lemma PathRow(env: Env, w: string, m: string)
    requires env.g.nodes == [0]
    ensures Rows(env, Forbidden, Named(w, Any0(m))) == [NameRow(w)(Bound(m))]
  {
    NodeRowsOne(env, Forbidden, m);
    assert [Bound(m)] == [Bound(m)] + [];
    MapCons(Bound(m), [], NameRow(w));
  }

  /** Operands that share no element variable are paired unchecked, and the right one's path variable
      replaces the left one's element. */
  lemma ProductReplacesVariable(x: string, m: string, k: string, op: CmpOp, lit: Value)
    requires Satisfiable(op, lit) && x != m
    ensures !ExactEverywhere(ProductWithPath(x, x, m, Test(x, k, op, lit)))
  {
    var v :| IsTrue(EvalCmp(op, v, lit));
    var env := OneNode(map[k := v], x, (mu: Assignment) => false);
    var e, path := Test(x, k, op, lit), NameRow(x)(Bound(m));
    TestReads(x, k, op, lit);
    PlainNode(x);
    PlainNode(m);
    PlainNamed(x, Any0(m));
    assert FreeVars(Any0(x)) * FreeVars(Named(x, Any0(m))) == {};
    JoinFirstReadings(env, Any0(x), Named(x, Any0(m)), {}, e);
    NodeRowsOne(env, Forbidden, x);
    PathRow(env, x, m);
    TestHolds(env, Bound(x).mu, x, k, op, v, lit);
    FilterOne(env, Bound(x), [e]);
    PairOneOne(Bound(x), path, JoinTest(env, {}), JoinMerge);
    var r := JoinMerge(Bound(x), path);
    assert r.mu[x].PPath?;
    TestHolds(env, r.mu, x, k, op, v, lit);
    FilterOne(env, r, [e]);
    Separates(env, ProductWithPath(x, x, m, e));
  }

  lemma ProductExactWhen(x: string, w: string, m: string, k: string, op: CmpOp, lit: Value)
    requires Satisfiable(op, lit)
    ensures ExactEverywhere(ProductWithPath(x, w, m, Test(x, k, op, lit))) <==> w != x || x == m
    ensures WellScoped(ProductWithPath(x, w, m, Test(x, k, op, lit))) <==> w != x || x == m
  {
    var e := Test(x, k, op, lit);
    TestReads(x, k, op, lit);
    PlainNode(x);
    PlainNode(m);
    PlainNamed(w, Any0(m));
    JoinScopedWhen(Any0(x), Named(w, Any0(m)), e, {x} * {m});
    assert x == m <==> x in {x} * {m};
    if w == x && x != m {
      assert x in {x} * Declared(Named(w, Any0(m)));
      ProductReplacesVariable(x, m, k, op, lit);
    } else {
      ScopedIsExact(ProductWithPath(x, w, m, e));
    }
  }

  // ---------------------------------------------------------------- a subquery

  /** `(n), (m WHERE EXISTS { ... v ... })` */
  function SubqueryOperand(n: string, m: string, v: string): PathPattern {
    Join(Any0(n), Filter(Any0(m), Subquery(0, {v})))
  }

  lemma SubqueryHolds(env: Env, mu: Assignment, v: string, body: Assignment -> bool)
    requires env.subquery == Answers(body)
    ensures HoldsAll(env, mu, [Subquery(0, {v})]) == body(Restrict(mu, {v}))
  {
    assert Subquery(0, {v}) in [Subquery(0, {v})];
  }

  /** A subquery counts as referencing nothing, so it runs where the sibling is not yet visible. */
  lemma SubqueryMentionsSibling(n: string, m: string)
    requires n != m
    ensures !ExactEverywhere(SubqueryOperand(n, m, n))
  {
    var body := (mu: Assignment) => n in mu;
    var env := OneNode(map[], n, body);
    var e := Subquery(0, {n});
    PlainNode(n);
    PlainNode(m);
    assert FreeVars(Any0(n)) * FreeVars(Any0(m)) == {};
    JoinLastReadings(env, Any0(m), Any0(n), {}, e);
    NodeRowsOne(env, Forbidden, n);
    NodeRowsOne(env, Forbidden, m);
    SubqueryHolds(env, Bound(m).mu, n, body);
    FilterOne(env, Bound(m), [e]);
    PairNone(Bound(n), JoinTest(env, {}), JoinMerge);
    var r := JoinMerge(Bound(n), Bound(m));
    PairOneOne(Bound(n), Bound(m), JoinTest(env, {}), JoinMerge);
    assert n in Restrict(r.mu, {n});
    SubqueryHolds(env, r.mu, n, body);
    FilterOne(env, r, [e]);
    Separates(env, SubqueryOperand(n, m, n));
  }

  lemma PairNone(r: Row, c: (Row, Row) -> bool, m: (Row, Row) -> Row)
    ensures PairAll([r], [], c, m) == []
  {
    assert [r] == [r] + [];
    PairCons(r, [], [], c, m);
  }

  lemma SubqueryExactWhen(n: string, m: string, v: string)
    ensures ExactEverywhere(SubqueryOperand(n, m, v)) <==> v != n || n == m
    ensures WellScoped(SubqueryOperand(n, m, v)) <==> v != n || n == m
  {
    PlainNode(n);
    PlainNode(m);
    JoinScopedWhen(Any0(m), Any0(n), Subquery(0, {v}), {m} * {n});
    assert v == n <==> v in {v} * {n};
    assert n == m <==> n in {m} * {n};
    if v == n && n != m {
      assert {m} * {n} == {};
      SubqueryMentionsSibling(n, m);
    } else {
      ScopedIsExact(SubqueryOperand(n, m, v));
    }
  }

  // ---------------------------------------------------------------- a path variable

  /** `v = ((n) WHERE e)` */
  function NamedOperand(v: string, n: string, e: Expr): PathPattern {
    Named(v, Filter(Any0(n), e))
  }

  lemma NamedRows(env: Env, v: string, n: string, e: Expr)
    requires Referenced(e) <= {n} && env.g.nodes == [0]
    ensures var named := NameRow(v)(Bound(n));
      && Rows(env, Forbidden, Sealed(NamedOperand(v, n, e)))
        == (if HoldsAll(env, Bound(n).mu, [e]) then [named] else [])
      && Rows(env, Forbidden, Deferred(NamedOperand(v, n, e))) == (if HoldsAll(env, named.mu, [e]) then [named] else [])
  {
    PlainNode(n);
    NamedReadings(env, v, Any0(n), e);
    NodeRowsOne(env, Forbidden, n);
    var bound := Bound(n);
    FilterOne(env, bound, [e]);
    assert [bound] == [bound] + [];
    MapCons(bound, [], NameRow(v));
    FilterOne(env, NameRow(v)(bound), [e]);
  }

  /** A path variable that reuses an element's name hides the element from a filter at the root. */
  lemma PathVariableHidesElement(v: string, k: string, op: CmpOp, lit: Value)
    requires Satisfiable(op, lit)
    ensures !ExactEverywhere(NamedOperand(v, v, Test(v, k, op, lit)))
  {
    var u :| IsTrue(EvalCmp(op, u, lit));
    var env := OneNode(map[k := u], v, (mu: Assignment) => false);
    TestReads(v, k, op, lit);
    NamedRows(env, v, v, Test(v, k, op, lit));
    TestHolds(env, Bound(v).mu, v, k, op, u, lit);
    TestHolds(env, NameRow(v)(Bound(v)).mu, v, k, op, u, lit);
    Separates(env, NamedOperand(v, v, Test(v, k, op, lit)));
  }

  /** A subquery below a path variable is evaluated before the path is bound. */
  lemma PathVariableUnseen(v: string, n: string)
    ensures !ExactEverywhere(NamedOperand(v, n, Subquery(0, {v})))
  {
    var body := (mu: Assignment) => v in mu && mu[v].PPath?;
    var env := OneNode(map[], v, body);
    NamedRows(env, v, n, Subquery(0, {v}));
    SubqueryHolds(env, Bound(n).mu, v, body);
    SubqueryHolds(env, NameRow(v)(Bound(n)).mu, v, body);
    Separates(env, NamedOperand(v, n, Subquery(0, {v})));
  }

  lemma NamedExactWhen(v: string, n: string, k: string, op: CmpOp, lit: Value)
    requires Satisfiable(op, lit)
    ensures ExactEverywhere(NamedOperand(v, n, Test(n, k, op, lit))) <==> v != n
    ensures WellScoped(NamedOperand(v, n, Test(n, k, op, lit))) <==> v != n
  {
    var e := Test(n, k, op, lit);
    TestReads(n, k, op, lit);
    PlainNode(n);
    NamedScopedWhen(v, Any0(n), e);
    if v == n {
      PathVariableHidesElement(v, k, op, lit);
    } else {
      ScopedIsExact(NamedOperand(v, n, e));
    }
  }

  lemma NamedSubqueryExactWhen(v: string, n: string, u: string)
    ensures ExactEverywhere(NamedOperand(v, n, Subquery(0, {u}))) <==> u != v
    ensures WellScoped(NamedOperand(v, n, Subquery(0, {u}))) <==> u != v
  {
    PlainNode(n);
    NamedScopedWhen(v, Any0(n), Subquery(0, {u}));
    if u == v {
      PathVariableUnseen(v, n);
    } else {
      ScopedIsExact(NamedOperand(v, n, Subquery(0, {u})));
    }
  }
}
