/** Which variables an evaluation can depend on, and which variables a row binds. */
module Scoping {
  import opened Values
  import opened Syntax
  import opened RowAlgebra
  import opened Runtime
  import opened Evaluator

  ghost predicate AgreeOn(m1: Assignment, m2: Assignment, vars: set<string>) {
    forall x :: x in vars ==> (x in m1 <==> x in m2) && (x in m1 ==> m1[x] == m2[x])
  }

  ghost predicate ScopeBinds(scope: Scope, names: set<string>) {
    forall x :: x in names ==> LookupScope(scope, x).Some?
  }

  // ---------------------------------------------------------------- evaluation is local

  /** The two rows, each in its environment, show `e` the same: the variables it references resolve
      alike, and its subquery bodies see the same row and the same ambient bindings. */
  ghost predicate ShownAlike(v1: Env, m1: Assignment, v2: Env, m2: Assignment, e: Expr, bound: set<string>) {
    && v1.g == v2.g && v1.subquery == v2.subquery
    && (forall x :: x in Referenced(e) - bound ==> LookupVar(v1, m1, x) == LookupVar(v2, m2, x))
    && AgreeOn(m1, m2, SubqueryVars(e))
    && AgreeOn(v1.ambient, v2.ambient, SubqueryVars(e))
  }

  lemma ShownToPart(v1: Env, m1: Assignment, v2: Env, m2: Assignment, e: Expr, bound: set<string>,
                    part: Expr, inner: set<string>)
    requires ShownAlike(v1, m1, v2, m2, e, bound)
    requires Referenced(part) - inner <= Referenced(e) - bound && SubqueryVars(part) <= SubqueryVars(e)
    ensures ShownAlike(v1, m1, v2, m2, part, inner)
  {
  }

  /** An expression sees its surroundings only through the variables it references and through the
      ones its subquery bodies mention. */
  lemma {:induction false} EvalSees(v1: Env, v2: Env, scope: Scope, m1: Assignment, m2: Assignment, e: Expr,
                                    bound: set<string>)
    requires ScopeBinds(scope, bound) && ShownAlike(v1, m1, v2, m2, e, bound)
    ensures Eval(v1, scope, m1, e) == Eval(v2, scope, m2, e)
    decreases e, 2, 0
  {
    if e.Binop? || e.Not? || e.IsNull? {
      OperandsSee(v1, v2, scope, m1, m2, e, bound);
    } else if e.Coalesce? {
      CoalesceSees(v1, v2, scope, m1, m2, e, e.args, bound);
    } else if e.ListComp? {
      ListSees(v1, v2, scope, m1, m2, e, bound);
    } else if e.Subquery? {
      RestrictSees(v1, m1, v2, m2, e.mentions);
    }
  }

  lemma {:induction false} OperandsSee(v1: Env, v2: Env, scope: Scope, m1: Assignment, m2: Assignment, e: Expr,
                                       bound: set<string>)
    requires ScopeBinds(scope, bound) && ShownAlike(v1, m1, v2, m2, e, bound)
    requires e.Binop? || e.Not? || e.IsNull?
    ensures Eval(v1, scope, m1, e) == Eval(v2, scope, m2, e)
    decreases e, 1, 0
  {
    match e
    case Binop(_, l, r) =>
      ShownToPart(v1, m1, v2, m2, e, bound, l, bound);
      ShownToPart(v1, m1, v2, m2, e, bound, r, bound);
      EvalSees(v1, v2, scope, m1, m2, l, bound);
      EvalSees(v1, v2, scope, m1, m2, r, bound);
    case Not(o) => EvalSees(v1, v2, scope, m1, m2, o, bound);
    case IsNull(o, _) => EvalSees(v1, v2, scope, m1, m2, o, bound);
  }

  lemma {:induction false} ListSees(v1: Env, v2: Env, scope: Scope, m1: Assignment, m2: Assignment, e: Expr,
                                    bound: set<string>)
    requires ScopeBinds(scope, bound) && ShownAlike(v1, m1, v2, m2, e, bound) && e.ListComp?
    ensures Eval(v1, scope, m1, e) == Eval(v2, scope, m2, e)
    decreases e, 1, 0
  {
    ShownToPart(v1, m1, v2, m2, e, bound, e.source, bound);
    EvalSees(v1, v2, scope, m1, m2, e.source, bound);
    match Eval(v1, scope, m1, e.source) {
      case Success(List(items)) => ItemsSee(v1, v2, scope, m1, m2, e, items, bound);
      case _ =>
    }
  }

  lemma RestrictSees(v1: Env, m1: Assignment, v2: Env, m2: Assignment, vars: set<string>)
    requires AgreeOn(m1, m2, vars) && AgreeOn(v1.ambient, v2.ambient, vars)
    ensures Restrict(m1, vars) == Restrict(m2, vars) && Restrict(v1.ambient, vars) == Restrict(v2.ambient, vars)
  {
  }

  lemma {:induction false} CoalesceSees(v1: Env, v2: Env, scope: Scope, m1: Assignment, m2: Assignment, parent: Expr,
                                        args: seq<Expr>, bound: set<string>)
    requires parent.Coalesce? && forall a :: a in args ==> a in parent.args
    requires ScopeBinds(scope, bound) && ShownAlike(v1, m1, v2, m2, parent, bound)
    ensures EvalCoalesce(v1, scope, m1, args) == EvalCoalesce(v2, scope, m2, args)
    decreases parent, 0, |args|
  {
    if args != [] {
      var a := args[0];
      assert a in parent.args;
      ShownToPart(v1, m1, v2, m2, parent, bound, a, bound);
      EvalSees(v1, v2, scope, m1, m2, a, bound);
      CoalesceSees(v1, v2, scope, m1, m2, parent, args[1..], bound);
    }
  }

  lemma {:induction false} ItemsSee(v1: Env, v2: Env, scope: Scope, m1: Assignment, m2: Assignment, lc: Expr,
                                    items: seq<Value>, bound: set<string>)
    requires lc.ListComp?
    requires ScopeBinds(scope, bound) && ShownAlike(v1, m1, v2, m2, lc, bound)
    ensures EvalItems(v1, scope, m1, lc, items) == EvalItems(v2, scope, m2, lc, items)
    decreases lc, 0, |items|
  {
    if items != [] {
      var inner := [(lc.item, items[0])] + scope;
      assert inner[1..] == scope;
      ItemsSee(v1, v2, scope, m1, m2, lc, items[1..], bound);
      ShownToPart(v1, m1, v2, m2, lc, bound, lc.body, bound + {lc.item});
      EvalSees(v1, v2, inner, m1, m2, lc.body, bound + {lc.item});
      if lc.cond.Some? {
        ShownToPart(v1, m1, v2, m2, lc, bound, lc.cond.value, bound + {lc.item});
        EvalSees(v1, v2, inner, m1, m2, lc.cond.value, bound + {lc.item});
      }
    }
  }

  /** In one environment: a result depends on those variables of the row alone. */
  lemma EvalLocal(env: Env, m1: Assignment, m2: Assignment, e: Expr)
    requires AgreeOn(m1, m2, Reads(e))
    ensures Eval(env, [], m1, e) == Eval(env, [], m2, e)
  {
    EvalSees(env, env, [], m1, m2, e, {});
  }

  /** Everything a predicate of a pattern can read from a row. */
  function Reads(e: Expr): set<string> {
    Referenced(e) + SubqueryVars(e)
  }

  lemma HoldsLocal(env: Env, m1: Assignment, m2: Assignment, e: Expr)
    requires AgreeOn(m1, m2, Reads(e))
    ensures Holds(env, m1, e) == Holds(env, m2, e)
  {
    EvalLocal(env, m1, m2, e);
  }

  lemma HoldsAnd(env: Env, mu: Assignment, l: Expr, r: Expr)
    ensures Holds(env, mu, Binop(And, l, r)) <==> Holds(env, mu, l) && Holds(env, mu, r)
  {
    var x, y := Eval(env, [], mu, l), Eval(env, [], mu, r);
    assert Eval(env, [], mu, Binop(And, l, r)) ==
      if x.Success? && y.Success? then EvalAnd(x.value, y.value) else Failure;
  }

  // ---------------------------------------------------------------- what rows bind

  ghost predicate Binds(rows: seq<Row>, lo: set<string>, hi: set<string>) {
    forall r :: r in rows ==> lo <= r.mu.Keys <= hi
  }

  lemma {:induction false} FlatMapMember<T, U>(s: seq<T>, f: T -> seq<U>, y: U)
    requires y in FlatMap(s, f)
    ensures exists x :: x in s && y in f(x)
  {
    if y in f(s[0]) {
      assert s[0] in s;
    } else {
      FlatMapMember(s[1..], f, y);
      var x :| x in s[1..] && y in f(x);
      assert x in s;
    }
  }

  lemma {:induction false} InFlatMap<T, U>(s: seq<T>, f: T -> seq<U>, x: T, y: U)
    requires x in s && y in f(x)
    ensures y in FlatMap(s, f)
  {
    if x != s[0] {
      InFlatMap(s[1..], f, x, y);
    }
  }

  lemma StepRowsBind(ids: seq<Id>, f: Id -> seq<Row>, name: Option<string>)
    requires forall id, r :: r in f(id) ==> r.mu.Keys == if name.Some? then {name.value} else {}
    ensures var vars := if name.Some? then {name.value} else {};
            Binds(FlatMap(ids, f), vars, vars)
  {
    forall r | r in FlatMap(ids, f)
      ensures r.mu.Keys == if name.Some? then {name.value} else {}
    {
      FlatMapMember(ids, f, r);
    }
  }

  lemma NodeRowsBind(env: Env, d: Option<Descriptor>)
    ensures Binds(NodeRows(env, d), DescVars(d), DescVars(d))
  {
    StepRowsBind(FilterSeq(env.g.nodes, NodeTest(env, d)), NodeStep(NameOf(d)), NameOf(d));
  }

  lemma EdgeStepBinds(g: Graph, dir: EdgeDir, name: Option<string>, id: Id)
    ensures forall r :: r in RowsOfEdge(g, dir, name, id) ==>
              r.mu == BindOpt(name, PEdge(id, !(dir.Undirected? || dir.AnyDirection?)))
  {
  }

  lemma EdgeRowsOfBind(env: Env, dir: EdgeDir, d: Option<Descriptor>)
    ensures Binds(EdgeRowsOf(env, dir, d), DescVars(d), DescVars(d))
  {
    forall id: Id, r: Row | r in EdgeStep(env.g, dir, NameOf(d))(id) ensures r.mu.Keys == DescVars(d) {
      EdgeStepBinds(env.g, dir, NameOf(d), id);
    }
    StepRowsBind(FilterSeq(if dir.Undirected? then env.g.undirectedEdges else env.g.directedEdges, EdgeTest(env, d)),
                 EdgeStep(env.g, dir, NameOf(d)), NameOf(d));
  }

  lemma EdgeRowsBind(env: Env, dir: EdgeDir, d: Option<Descriptor>)
    ensures Binds(EdgeRows(env, dir, d), DescVars(d), DescVars(d))
  {
    EdgeRowsOfBind(env, dir, d);
    EdgeRowsOfBind(env, Right, d);
    EdgeRowsOfBind(env, Left, d);
    EdgeRowsOfBind(env, Undirected, d);
  }

  lemma FilterBinds(rows: seq<Row>, f: Row -> bool, lo: set<string>, hi: set<string>)
    requires Binds(rows, lo, hi)
    ensures Binds(FilterSeq(rows, f), lo, hi)
  {
    forall r | r in FilterSeq(rows, f) ensures lo <= r.mu.Keys <= hi {
      FilterMember(rows, f, r);
    }
  }

  lemma MapBinds(rows: seq<Row>, f: Row -> Row, lo: set<string>, hi: set<string>)
    requires forall r :: r in rows ==> lo <= f(r).mu.Keys <= hi
    ensures Binds(MapSeq(rows, f), lo, hi)
  {
    forall r | r in MapSeq(rows, f) ensures lo <= r.mu.Keys <= hi {
      MapMember(rows, f, r);
    }
  }

  lemma PairBinds(xs: seq<Row>, ys: seq<Row>, c: (Row, Row) -> bool, m: (Row, Row) -> Row,
                  lo: set<string>, hi: set<string>)
    requires forall x, y :: x in xs && y in ys ==> lo <= m(x, y).mu.Keys <= hi
    ensures Binds(PairAll(xs, ys, c, m), lo, hi)
  {
    forall r | r in PairAll(xs, ys, c, m) ensures lo <= r.mu.Keys <= hi {
      var x, y := PairMember(xs, ys, c, m, r);
    }
  }

  lemma {:induction false} LevelBinds(grouped: seq<Row>, k: nat, lo: set<string>, hi: set<string>)
    requires k >= 1 && Binds(grouped, lo, hi)
    ensures Binds(Level(grouped, k), lo, hi)
  {
    if k > 1 {
      LevelBinds(grouped, k - 1, lo, hi);
      PairBinds(Level(grouped, k - 1), grouped, EndsMeet, GroupMerge, lo, hi);
    }
  }

  lemma {:induction false} LevelsBind(grouped: seq<Row>, k: nat, ub: nat, lo: set<string>, hi: set<string>)
    requires k >= 1 && Binds(grouped, lo, hi)
    ensures Binds(Levels(grouped, k, ub), lo, hi)
    decreases ub + 1 - k
  {
    if k <= ub {
      LevelBinds(grouped, k, lo, hi);
      LevelsBind(grouped, k + 1, ub, lo, hi);
    }
  }

  lemma RepeatBinds(env: Env, vars: set<string>, rows: seq<Row>, lb: nat, ub: nat, lo: set<string>, hi: set<string>)
    requires Binds(rows, lo, hi) && vars <= hi
    ensures Binds(RepeatRows(env, vars, rows, lb, ub), if lb == 0 then vars * lo else lo, hi)
  {
    if lb <= ub {
      var grouped := MapSeq(rows, GroupRow);
      MapBinds(rows, GroupRow, lo, hi);
      LevelsBind(grouped, if lb == 0 then 1 else lb, ub, lo, hi);
      forall r | lb == 0 && r in FlatMap(env.g.nodes, ZeroStep(vars)) ensures r.mu.Keys == vars {
        FlatMapMember(env.g.nodes, ZeroStep(vars), r);
      }
    }
  }

  lemma SelectMember(search: PathSearch, rest: seq<Row>, all: seq<Row>, seen: seq<Row>, r: Row)
    requires r in SelectFrom(search, rest, all, seen)
    ensures r in rest
    decreases |rest|
  {
    if r != rest[0] {
      SelectMember(search, rest[1..], all, seen + [rest[0]], r);
    }
  }

  lemma PrefixMember(rows: seq<Row>, prefix: PathPrefix, r: Row)
    requires r in ApplyPrefix(rows, prefix)
    ensures r in rows
  {
    var valid := FilterSeq(rows, ModeTest(prefix.mode));
    SelectMember(prefix.search, valid, valid, [], r);
    FilterMember(rows, ModeTest(prefix.mode), r);
  }

  lemma ConcatBinds(env: Env, pol: Policy, a: PathPattern, b: PathPattern)
    requires Binds(Rows(env, pol, a), Sure(a), Declared(a)) && Binds(Rows(env, pol, b), Sure(b), Declared(b))
    ensures Binds(Rows(env, pol, Concat(a, b)), Sure(Concat(a, b)), Declared(Concat(a, b)))
  {
    PairBinds(Rows(env, pol, a), Rows(env, pol, b), ConcatCompat, ConcatMerge, Sure(Concat(a, b)),
              Declared(Concat(a, b)));
  }

  lemma JoinBinds(env: Env, pol: Policy, a: PathPattern, b: PathPattern)
    requires Binds(Rows(env, pol, a), Sure(a), Declared(a)) && Binds(Rows(env, pol, b), Sure(b), Declared(b))
    ensures Binds(Rows(env, pol, Join(a, b)), Sure(Join(a, b)), Declared(Join(a, b)))
  {
    PairBinds(Rows(env, pol, a), Rows(env, pol, b), JoinTest(env, FreeVars(a) * FreeVars(b)), JoinMerge,
              Sure(Join(a, b)), Declared(Join(a, b)));
  }

  lemma UnionBinds(env: Env, pol: Policy, a: PathPattern, b: PathPattern)
    requires Binds(Rows(env, pol, a), Sure(a), Declared(a)) && Binds(Rows(env, pol, b), Sure(b), Declared(b))
    ensures var p := PathPattern.Union(a, b); Binds(Rows(env, pol, p), Sure(p), Declared(p))
  {
    var p := PathPattern.Union(a, b);
    MapBinds(Rows(env, pol, a) + Rows(env, pol, b), Fill(FreeVars(p)), Sure(p), Declared(p));
  }

  lemma RepeatedBinds(env: Env, pol: Policy, vars: set<string>, rows: seq<Row>, lb: nat, ub: Option<nat>,
                      lo: set<string>, hi: set<string>)
    requires Binds(rows, lo, hi) && vars <= hi
    ensures Binds(Repeated(env, pol, vars, rows, lb, ub),
                  if ub.None? then vars else if lb == 0 then vars * lo else lo, hi)
  {
    if ub.Some? {
      RepeatBinds(env, vars, rows, lb, ub.value, lo, hi);
    } else {
      StarBinds(env.star(pol, lb, vars, rows), vars);
    }
  }

  lemma StarBinds(stars: seq<StarRow>, vars: set<string>)
    ensures Binds(MapSeq(stars, StarToRow(vars)), vars, vars)
  {
    forall r | r in MapSeq(stars, StarToRow(vars)) ensures r.mu.Keys == vars {
      MapMember(stars, StarToRow(vars), r);
    }
  }

  lemma PrefixBinds(rows: seq<Row>, prefix: PathPrefix, lo: set<string>, hi: set<string>)
    requires Binds(rows, lo, hi)
    ensures Binds(ApplyPrefix(rows, prefix), lo, hi)
  {
    forall r | r in ApplyPrefix(rows, prefix) ensures lo <= r.mu.Keys <= hi {
      PrefixMember(rows, prefix, r);
    }
  }

  /** Every row binds at least `Sure(p)` and at most `Declared(p)`. */
  lemma {:induction false} RowsBind(env: Env, pol: Policy, p: PathPattern)
    ensures Binds(Rows(env, pol, p), Sure(p), Declared(p))
    decreases p
  {
    match p
    case Node(d) => NodeRowsBind(env, d);
    case Edge(dir, d) => EdgeRowsBind(env, dir, d);
    case Concat(a, b) =>
      RowsBind(env, pol, a);
      RowsBind(env, pol, b);
      ConcatBinds(env, pol, a, b);
    case Join(a, b) =>
      RowsBind(env, pol, a);
      RowsBind(env, pol, b);
      JoinBinds(env, pol, a, b);
    case Union(a, b) =>
      RowsBind(env, pol, a);
      RowsBind(env, pol, b);
      UnionBinds(env, pol, a, b);
    case Filter(i, e) =>
      RowsBind(env, pol, i);
      FilterBinds(Rows(env, pol, i), AllTest(env, [e]), Sure(i), Declared(i));
    case Repeat(i, lb, ub) =>
      RowsBind(env, pol, i);
      RepeatedBinds(env, pol, FreeVars(i), Rows(env, pol, i), lb, ub, Sure(i), Declared(i));
    case Questioned(i) =>
      NodeRowsBind(env, None);
      RowsBind(env, pol, i);
    case Selected(prefix, i) =>
      RowsBind(env, PolicyFor(prefix), i);
      PrefixBinds(Rows(env, PolicyFor(prefix), i), prefix, Sure(i), Declared(i));
    case Named(x, i) =>
      RowsBind(env, pol, i);
      MapBinds(Rows(env, pol, i), NameRow(x), Sure(p), Declared(p));
  }
}
