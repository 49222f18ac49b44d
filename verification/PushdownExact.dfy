/** Predicate pushdown preserves meaning: the rewritten pattern has the rows of the written one. */
module PushdownExact {
  import opened Values
  import opened Syntax
  import opened RowAlgebra
  import opened Runtime
  import opened Evaluator
  import opened Scoping
  import opened Pushdown
  import opened StoredTypes
  import opened TypePush
  import opened PushdownRows

  // ---------------------------------------------------------------- when pushdown applies

  /** Variables that every row binds to one element: not padded, not grouped, not a path. */
  function Firm(p: PathPattern): set<string> {
    match p
    case Node(d) => DescVars(d)
    case Edge(_, d) => DescVars(d)
    case Concat(a, b) => Firm(a) + Firm(b)
    case Join(a, b) => (Firm(a) - PathVars(b)) + Firm(b)
    case Union(a, b) => Firm(a) * Firm(b)
    case Filter(i, _) => Firm(i)
    case Repeat(_, _, _) => {}
    case Questioned(_) => {}
    case Selected(_, i) => Firm(i)
    case Named(x, i) => Firm(i) - {x}
  }

  function PushedAt(i: PathPattern, e: Expr): seq<Constraint> {
    Pushed(VarKinds(i), FlattenAnd(e))
  }

  /** Every filter pushes constraints on variables its pattern binds firmly, into descriptors that
      can take them: the ones written there, extended by what the filters outside have pushed. */
  predicate Pushable(p: PathPattern, nulls: bool)
    decreases Size(p)
  {
    match p
    case Node(_) => true
    case Edge(_, _) => true
    case Concat(a, b) => Pushable(a, nulls) && Pushable(b, nulls)
    case Union(a, b) => Pushable(a, nulls) && Pushable(b, nulls)
    case Join(a, b) => Pushable(a, nulls) && Pushable(b, nulls)
    case Filter(i, e) =>
      var pushed := PushedAt(i, e);
      && Mergeable(i, pushed, nulls)
      && (forall k :: k in pushed ==> k.subject in Firm(i))
      && (MergeKeepsShape(i, pushed); Pushable(if pushed == [] then i else Merge(i, pushed), nulls))
    case Repeat(i, _, _) => Pushable(i, nulls)
    case Questioned(i) => Pushable(i, nulls)
    case Selected(_, i) => Pushable(i, nulls)
    case Named(_, i) => Pushable(i, nulls)
  }

  // ---------------------------------------------------------------- firm variables

  predicate IsElement(pv: PathValue) {
    pv.PNode? || pv.PEdge?
  }

  ghost predicate BindsElement(r: Row, x: string) {
    x in r.mu && IsElement(r.mu[x])
  }

  lemma {:induction false} FirmBinds(env: Env, pol: Policy, p: PathPattern, r: Row, x: string)
    requires r in Rows(env, pol, p) && x in Firm(p)
    ensures BindsElement(r, x)
    decreases p, 1
  {
    match p
    case Node(d) => NodeRowEnds(env, d, r);
    case Edge(dir, d) => EdgeBindsElement(env, dir, d, r);
    case Concat(_, _) => FirmConcat(env, pol, p, r, x);
    case Join(_, _) => FirmJoin(env, pol, p, r, x);
    case Union(_, _) => FirmUnion(env, pol, p, r, x);
    case Filter(i, e) =>
      FilterMember(Rows(env, pol, i), AllTest(env, [e]), r);
      FirmBinds(env, pol, i, r, x);
    case Selected(prefix, i) =>
      PrefixMember(Rows(env, PolicyFor(prefix), i), prefix, r);
      FirmBinds(env, PolicyFor(prefix), i, r, x);
    case Named(v, i) =>
      MapMember(Rows(env, pol, i), NameRow(v), r);
      var s :| s in Rows(env, pol, i) && r == NameRow(v)(s);
      FirmBinds(env, pol, i, s, x);
    case _ =>
  }

  lemma {:induction false} FirmConcat(env: Env, pol: Policy, p: PathPattern, r: Row, x: string)
    requires p.Concat? && r in Rows(env, pol, p) && x in Firm(p)
    ensures BindsElement(r, x)
    decreases p, 0
  {
    var r1, r2 := PairMember(Rows(env, pol, p.fst), Rows(env, pol, p.snd), ConcatCompat, ConcatMerge, r);
    if x in Firm(p.snd) { FirmBinds(env, pol, p.snd, r2, x); } else { FirmBinds(env, pol, p.fst, r1, x); }
    assert r.mu == r1.mu + r2.mu;
  }

  lemma {:induction false} FirmJoin(env: Env, pol: Policy, p: PathPattern, r: Row, x: string)
    requires p.Join? && r in Rows(env, pol, p) && x in Firm(p)
    ensures BindsElement(r, x)
    decreases p, 0
  {
    var a, b := p.fst, p.snd;
    var r1, r2 := PairMember(Rows(env, pol, a), Rows(env, pol, b), JoinTest(env, FreeVars(a) * FreeVars(b)), JoinMerge,
                             r);
    if x in Firm(b) {
      FirmBinds(env, pol, b, r2, x);
    } else {
      FirmBinds(env, pol, a, r1, x);
      FirmLeft(env, pol, a, b, r1, r2, x);
    }
    assert r.mu == r1.mu + r2.mu;
  }

  lemma {:induction false} FirmUnion(env: Env, pol: Policy, p: PathPattern, r: Row, x: string)
    requires p.Union? && r in Rows(env, pol, p) && x in Firm(p)
    ensures BindsElement(r, x)
    decreases p, 0
  {
    var xs, ys, fill := Rows(env, pol, p.fst), Rows(env, pol, p.snd), Fill(FreeVars(p));
    MapMember(xs + ys, fill, r);
    var s :| s in xs + ys && r == fill(s);
    if s in xs { FirmBinds(env, pol, p.fst, s, x); } else { FirmBinds(env, pol, p.snd, s, x); }
  }

  lemma EdgeBindsElement(env: Env, dir: EdgeDir, d: Option<Descriptor>, r: Row)
    requires r in EdgeRows(env, dir, d) && NameOf(d).Some?
    ensures BindsElement(r, NameOf(d).value)
  {
    if dir.AnyDirection? {
      if r in EdgeRowsOf(env, Right, d) { EdgeOfBindsElement(env, Right, d, r); }
      else if r in EdgeRowsOf(env, Left, d) { EdgeOfBindsElement(env, Left, d, r); }
      else { EdgeOfBindsElement(env, Undirected, d, r); }
    } else {
      EdgeOfBindsElement(env, dir, d, r);
    }
  }

  lemma EdgeOfBindsElement(env: Env, dir: EdgeDir, d: Option<Descriptor>, r: Row)
    requires r in EdgeRowsOf(env, dir, d) && NameOf(d).Some?
    ensures BindsElement(r, NameOf(d).value)
  {
    var ids := FilterSeq(if dir.Undirected? then env.g.undirectedEdges else env.g.directedEdges, EdgeTest(env, d));
    FlatMapMember(ids, EdgeStep(env.g, dir, NameOf(d)), r);
    var id :| id in ids && r in EdgeStep(env.g, dir, NameOf(d))(id);
    EdgeStepBinds(env.g, dir, NameOf(d), id);
  }

  lemma FirmLeft(env: Env, pol: Policy, a: PathPattern, b: PathPattern, r1: Row, r2: Row, x: string)
    requires r1 in Rows(env, pol, a) && r2 in Rows(env, pol, b) && JoinCompat(env, FreeVars(a) * FreeVars(b), r1, r2)
    requires BindsElement(r1, x) && x in Firm(a) && x !in PathVars(b)
    ensures (r1.mu + r2.mu)[x] == r1.mu[x]
  {
    if x in r2.mu {
      RowsBind(env, pol, b);
      assert x in Declared(b);
      FirmIsFree(a);
      assert x in FreeVars(a) * FreeVars(b);
    }
  }

  lemma {:induction false} FirmIsFree(p: PathPattern)
    ensures Firm(p) <= FreeVars(p)
  {
    match p
    case Concat(a, b) => FirmIsFree(a); FirmIsFree(b);
    case Union(a, b) => FirmIsFree(a); FirmIsFree(b);
    case Join(a, b) => FirmIsFree(a); FirmIsFree(b);
    case Filter(i, _) => FirmIsFree(i);
    case Selected(_, i) => FirmIsFree(i);
    case Named(_, i) => FirmIsFree(i);
    case _ =>
  }

  // ---------------------------------------------------------------- one filter

  lemma {:induction false} HoldsFlatten(env: Env, mu: Assignment, e: Expr)
    ensures Holds(env, mu, e) <==> HoldsAll(env, mu, FlattenAnd(e))
  {
    if IsAnd(e) {
      HoldsFlatten(env, mu, e.left);
      HoldsFlatten(env, mu, e.right);
      HoldsAnd(env, mu, e.left, e.right);
    } else {
      assert e in [e];
    }
  }

  lemma {:induction false} HoldsRebuild(env: Env, mu: Assignment, es: seq<Expr>)
    requires es != []
    ensures Holds(env, mu, RebuildAnd(es)) <==> HoldsAll(env, mu, es)
  {
    assert es[0] in es && es == [es[0]] + es[1..];
    if |es| > 1 {
      HoldsRebuild(env, mu, es[1..]);
      HoldsAnd(env, mu, es[0], RebuildAnd(es[1..]));
    }
  }

  /** A pushed conjunct holds of a row exactly when the element it names meets the constraint. */
  lemma ClassifiedMeets(env: Env, mu: Assignment, kinds: map<string, VarKind>, e: Expr)
    requires Classify(kinds, e).Some?
    requires Classify(kinds, e).value.subject in mu && IsElement(mu[Classify(kinds, e).value.subject])
    ensures Holds(env, mu, e) == ElementMeets(env.g, mu[Classify(kinds, e).value.subject], Classify(kinds, e).value)
  {
    var k := Classify(kinds, e).value;
    var got := Eval(env, [], mu, AttrLookup(k.subject, k.attr));
    var props := if mu[k.subject].PNode? then env.g.nodeProps(mu[k.subject].id) else env.g.edgeProps(mu[k.subject].id);
    assert got == Success(PropOrNull(props, k.attr));
    if k.ValueTest? {
      if e.left.AttrLookup? {
        assert Eval(env, [], mu, e) == EvalCmp(k.op, PropOrNull(props, k.attr), k.literal);
      } else {
        assert Eval(env, [], mu, e) == EvalCmp(e.bop.op, k.literal, PropOrNull(props, k.attr));
        FlipKeepsVerdict(PropOrNull(props, k.attr), e.bop.op, k.literal);
      }
    } else {
      assert Eval(env, [], mu, e) == Success(Bool(ValueIsType(PropOrNull(props, k.attr), k.ty)));
    }
  }

  /** Splitting a filter loses nothing on rows that bind the pushed variables. */
  lemma SplitHolds(env: Env, r: Row, kinds: map<string, VarKind>, e: Expr)
    requires forall k :: k in Pushed(kinds, FlattenAnd(e)) ==> BindsElement(r, k.subject)
    ensures Holds(env, r.mu, e) <==>
            Meets(env.g, r.mu, Pushed(kinds, FlattenAnd(e))) && HoldsAll(env, r.mu, Kept(kinds, FlattenAnd(e)))
  {
    var es := FlattenAnd(e);
    HoldsFlatten(env, r.mu, e);
    KeptStays(kinds, es);
    forall c | c in es && Classify(kinds, c).Some?
      ensures Holds(env, r.mu, c)
           == ElementMeets(env.g, r.mu[Classify(kinds, c).value.subject], Classify(kinds, c).value)
    {
      ClassifiedMeets(env, r.mu, kinds, c);
    }
    if Meets(env.g, r.mu, Pushed(kinds, es)) && HoldsAll(env, r.mu, Kept(kinds, es)) {
      forall c | c in es ensures Holds(env, r.mu, c) {
        if Classify(kinds, c).None? {
          assert c in Kept(kinds, es);
        } else {
          assert Classify(kinds, c).value in Pushed(kinds, es);
        }
      }
    }
    if HoldsAll(env, r.mu, es) {
      forall k | k in Pushed(kinds, es) ensures ElementMeets(env.g, r.mu[k.subject], k) {
        var c :| c in es && Classify(kinds, c) == Some(k);
        assert Holds(env, r.mu, c);
      }
    }
  }

  // ---------------------------------------------------------------- the theorem

  lemma {:induction false} RewriteFilterExact(env: Env, pol: Policy, i: PathPattern, e: Expr, nulls: bool)
    requires StoredGraph(env.g, nulls) && Pushable(Filter(i, e), nulls) && PushedAt(i, e) != []
    ensures Rows(env, pol, Rewrite(Filter(i, e))) == Rows(env, pol, Filter(i, e))
    decreases Size(i), 1
  {
    var pushed := PushedAt(i, e);
    var kept := Kept(VarKinds(i), FlattenAnd(e));
    MergeKeepsShape(i, pushed);
    PushdownIsExact(env, pol, Merge(i, pushed), nulls);
    MergeExact(env, pol, i, pushed, nulls);
    var rows := Rows(env, pol, i);
    forall r | r in rows ensures AllTest(env, [e])(r) == (MeetTest(env.g, pushed)(r) && AllTest(env, kept)(r)) {
      forall k | k in pushed ensures BindsElement(r, k.subject) {
        FirmBinds(env, pol, i, r, k.subject);
      }
      SplitHolds(env, r, VarKinds(i), e);
    }
    FilterFilter(rows, MeetTest(env.g, pushed), AllTest(env, kept), AllTest(env, [e]));
    var met := FilterSeq(rows, MeetTest(env.g, pushed));
    if kept == [] {
      FilterAllPass(met, AllTest(env, kept));
    } else {
      RebuiltFilter(env, met, kept);
    }
  }

  lemma RebuiltFilter(env: Env, rows: seq<Row>, es: seq<Expr>)
    requires es != []
    ensures FilterSeq(rows, AllTest(env, [RebuildAnd(es)])) == FilterSeq(rows, AllTest(env, es))
  {
    forall r | r in rows ensures AllTest(env, [RebuildAnd(es)])(r) == AllTest(env, es)(r) {
      HoldsRebuild(env, r.mu, es);
    }
    FilterCongruence(rows, AllTest(env, [RebuildAnd(es)]), AllTest(env, es));
  }

  /** The optimized pattern yields the rows of the original, in the original's order. */
  lemma {:induction false} PushdownIsExact(env: Env, pol: Policy, p: PathPattern, nulls: bool)
    requires StoredGraph(env.g, nulls) && Pushable(p, nulls)
    ensures Rows(env, pol, Rewrite(p)) == Rows(env, pol, p)
    decreases Size(p), 0
  {
    match p
    case Node(_) =>
    case Edge(_, _) =>
    case Concat(a, b) => PushdownIsExact(env, pol, a, nulls); PushdownIsExact(env, pol, b, nulls);
    case Union(a, b) =>
      PushdownIsExact(env, pol, a, nulls);
      PushdownIsExact(env, pol, b, nulls);
      RewriteKeepsShape(a);
      RewriteKeepsShape(b);
    case Join(a, b) =>
      PushdownIsExact(env, pol, a, nulls);
      PushdownIsExact(env, pol, b, nulls);
      RewriteKeepsShape(a);
      RewriteKeepsShape(b);
    case Filter(i, e) =>
      if PushedAt(i, e) == [] { PushdownIsExact(env, pol, i, nulls); }
      else { RewriteFilterExact(env, pol, i, e, nulls); }
    case Repeat(i, _, _) => PushdownIsExact(env, pol, i, nulls); RewriteKeepsShape(i);
    case Questioned(i) => PushdownIsExact(env, pol, i, nulls);
    case Selected(prefix, i) => PushdownIsExact(env, PolicyFor(prefix), i, nulls);
    case Named(_, i) => PushdownIsExact(env, pol, i, nulls);
  }
}
