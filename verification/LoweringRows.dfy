/** Descriptor lowering preserves rows up to the generated names. */
module LoweringRows {
  import opened Values
  import opened Syntax
  import opened RowAlgebra
  import opened Runtime
  import opened Evaluator
  import opened Scoping
  import opened HoistRows
  import opened FreshNames
  import opened Lowering
  import opened PushdownRows
  import opened StoredTypes
  import opened MatchChain

  // ---------------------------------------------------------------- one element

  /** The scalar types of the values equal to a literal: an integral float equals an int. */
  function EqualTypes(v: Value): set<SimpleType> {
    match v
    case Int(_) => {IntType, FloatType}
    case Float(r) => if (r.Floor as real) == r then {IntType, FloatType} else {FloatType}
    case Str(_) => {StrType}
    case Bool(_) => {BoolType}
    case _ => {}
  }

  /** What the record already says about `f`'s key must follow from the equality that `f` states;
      a closed record must mention the key. */
  predicate LiteralSound(pt: PropertyType, f: ValueFilter) {
    && f.1.Const?
    && (LiteralType(f.1).Some? && !pt.Bottom? ==>
          if f.0 in pt.fields then EqualTypes(f.1.v) <= Admitted(pt.fields[f.0]) else pt.Open?)
  }

  predicate LiteralsSound(pt: PropertyType, fs: seq<ValueFilter>) {
    forall i :: 0 <= i < |fs| ==> LiteralSound(pt, fs[i])
  }

  predicate FilterMeets(props: Props, f: ValueFilter)
    requires f.1.Const?
  {
    IsTrue(EvalCmp(Eq, PropOrNull(props, f.0), f.1.v))
  }

  predicate FiltersMeet(props: Props, fs: seq<ValueFilter>)
    requires forall i :: 0 <= i < |fs| ==> fs[i].1.Const?
  {
    forall i :: 0 <= i < |fs| ==> FilterMeets(props, fs[i])
  }

  /** Equality with a literal implies the type the pass records for it. */
  lemma EqualImpliesType(props: Props, f: ValueFilter)
    requires f.1.Const? && LiteralType(f.1).Some? && FilterMeets(props, f)
    ensures f.0 in props && Scalar(props[f.0])
    ensures IsSubtype(ValueType(props[f.0]), LiteralType(f.1).value)
    ensures ValueType(props[f.0]) in EqualTypes(f.1.v)
  {
  }

  /** The recorded types neither admit nor reject an element that meets the filters. */
  lemma {:induction false} LiteralsMatch(props: Props, pt: PropertyType, fs: seq<ValueFilter>)
    requires LiteralsSound(pt, fs) && FiltersMeet(props, fs)
    ensures PropsMatch(props, ExtendLiterals(pt, fs)) <==> PropsMatch(props, pt)
  {
    forall f | f in fs && LiteralType(f.1).Some?
      ensures f.0 in props && IsSubtype(ValueType(props[f.0]), LiteralType(f.1).value)
      ensures !pt.Bottom? && f.0 in pt.fields ==> IsSubtype(ValueType(props[f.0]), pt.fields[f.0])
    {
      EqualImpliesType(props, f);
      assert LiteralSound(pt, f);
    }
    ExtendedFields(pt, fs);
    if !pt.Bottom? {
      var m, m' := pt.fields, ExtendLiterals(pt, fs).fields;
      assert forall a :: a in m' ==> (a in m && m'[a] == m[a]) || (a in props && IsSubtype(ValueType(props[a]), m'[a]));
    }
  }

  /** Every field of the extended record is an old one or comes from a literal of `fs`. */
  lemma {:induction false} ExtendedFields(pt: PropertyType, fs: seq<ValueFilter>)
    ensures var pt' := ExtendLiterals(pt, fs);
      && pt'.Open? == pt.Open? && pt'.Closed? == pt.Closed?
      && (!pt.Bottom? ==>
            && pt.fields.Keys <= pt'.fields.Keys
            && (forall a :: a in pt'.fields ==>
                  (a in pt.fields && pt'.fields[a] == pt.fields[a]) ||
                  exists f :: f in fs && f.0 == a && LiteralType(f.1) == Some(pt'.fields[a])))
  {
    if fs != [] {
      ExtendedFields(pt, fs[..|fs| - 1]);
      assert fs == fs[..|fs| - 1] + [fs[|fs| - 1]];
    }
  }

  /** The surface match of a descriptor is the core match of the lowered one plus the filters. */
  lemma LoweredMatches(labels: set<string>, props: Props, d: Descriptor, x: string)
    requires LiteralsSound(d.props, d.valueFilters)
    ensures ElementMatches(true, labels, props, Some(d)) <==>
            ElementMatches(false, labels, props, Some(LoweredDesc(d, x))) && FiltersMeet(props, d.valueFilters)
  {
    assert ValueFiltersHold(props, d.valueFilters) <==> FiltersMeet(props, d.valueFilters) by {
      assert forall i :: 0 <= i < |d.valueFilters| ==> LiteralSound(d.props, d.valueFilters[i]);
    }
    if FiltersMeet(props, d.valueFilters) {
      LiteralsMatch(props, d.props, d.valueFilters);
    }
  }

  /** `x` is bound to an element with these properties. */
  predicate BoundTo(g: Graph, mu: Assignment, x: string, props: Props) {
    x in mu &&
    match mu[x]
    case PNode(id) => props == g.nodeProps(id)
    case PEdge(id, _) => props == g.edgeProps(id)
    case _ => false
  }

  lemma EqExprHolds(env: Env, mu: Assignment, x: string, f: ValueFilter, props: Props)
    requires f.1.Const? && BoundTo(env.g, mu, x, props)
    ensures Holds(env, mu, EqExpr(x, f)) <==> FilterMeets(props, f)
  {
    assert Eval(env, [], mu, AttrLookup(x, f.0)) == Success(PropOrNull(props, f.0));
    assert Eval(env, [], mu, f.1) == Success(f.1.v);
    assert Eval(env, [], mu, EqExpr(x, f)) == EvalCmp(Eq, PropOrNull(props, f.0), f.1.v);
  }

  /** The generated WHERE holds exactly of the elements that meet every filter. */
  lemma {:induction false} FiltersExprHolds(env: Env, mu: Assignment, x: string, fs: seq<ValueFilter>, props: Props)
    requires fs != [] && forall i :: 0 <= i < |fs| ==> fs[i].1.Const?
    requires BoundTo(env.g, mu, x, props)
    ensures Holds(env, mu, FiltersExpr(x, fs)) <==> FiltersMeet(props, fs)
  {
    var n := |fs| - 1;
    EqExprHolds(env, mu, x, fs[n], props);
    if n == 0 {
      assert FiltersExpr(x, fs) == EqExpr(x, fs[0]);
    } else {
      var l, r := FiltersExpr(x, fs[..n]), EqExpr(x, fs[n]);
      FiltersExprHolds(env, mu, x, fs[..n], props);
      HoldsAnd(env, mu, l, r);
      assert FiltersExpr(x, fs) == Binop(And, l, r);
      FiltersMeetSnoc(props, fs);
    }
  }

  lemma FiltersMeetSnoc(props: Props, fs: seq<ValueFilter>)
    requires fs != [] && forall i :: 0 <= i < |fs| ==> fs[i].1.Const?
    ensures var n := |fs| - 1; FiltersMeet(props, fs) <==> FiltersMeet(props, fs[..n]) && FilterMeets(props, fs[n])
  {
    var n := |fs| - 1;
    assert forall i :: 0 <= i < n ==> fs[..n][i] == fs[i];
  }

  // ---------------------------------------------------------------- dropping names

  function Drop(gone: set<string>): Row -> Row {
    (r: Row) => Row(r.paths, r.mu - gone)
  }

  lemma {:induction false} MapFlatMap(ids: seq<Id>, step: Id -> seq<Row>, step': Id -> seq<Row>, h: Row -> Row)
    requires forall id :: id in ids ==> MapSeq(step(id), h) == step'(id)
    ensures MapSeq(FlatMap(ids, step), h) == FlatMap(ids, step')
  {
    if ids != [] {
      assert ids[0] in ids;
      assert forall id :: id in ids[1..] ==> id in ids;
      MapFlatMap(ids[1..], step, step', h);
      MapAppend(step(ids[0]), FlatMap(ids[1..], step), h);
    }
  }

  lemma {:induction false} MapIdentity<T>(s: seq<T>, h: T -> T)
    requires forall x :: x in s ==> h(x) == x
    ensures MapSeq(s, h) == s
  {
    if s != [] {
      assert s[0] in s;
      assert forall x :: x in s[1..] ==> x in s;
      MapIdentity(s[1..], h);
    }
  }

  /** Rows that bind none of the dropped names are unchanged. */
  lemma DropNothing(rows: seq<Row>, hi: set<string>, gone: set<string>)
    requires Binds(rows, {}, hi) && hi * gone == {}
    ensures MapSeq(rows, Drop(gone)) == rows
  {
    forall r | r in rows ensures Drop(gone)(r) == r {
      assert r.mu.Keys * gone <= hi * gone;
      assert r.mu - gone == r.mu;
    }
    MapIdentity(rows, Drop(gone));
  }

  /** `x` names the element: as written, and then it stays, or generated, and then it goes. */
  predicate DropsGenerated(name: Option<string>, x: string, gone: set<string>) {
    if name.Some? then name.value == x && x !in gone else x in gone
  }

  /** Dropping the generated name from a lowered step gives the step as written. */
  lemma DropNamed(x: string, name: Option<string>, pv: PathValue, gone: set<string>)
    requires DropsGenerated(name, x, gone)
    ensures BindOpt(Some(x), pv) - gone == BindOpt(name, pv)
  {
  }

  /** A lowered element pattern, narrowed by its filters and stripped of its generated name. */
  lemma DropStep(ids: seq<Id>, test: Id -> bool, cond: Row -> bool, surface: Id -> bool,
                 step: Id -> seq<Row>, step': Id -> seq<Row>, keep: Id -> bool, gone: set<string>)
    requires forall id, r :: r in step(id) ==> cond(r) == keep(id)
    requires forall id :: surface(id) == (test(id) && keep(id))
    requires forall id :: MapSeq(step(id), Drop(gone)) == step'(id)
    ensures MapSeq(FilterSeq(FlatMap(FilterSeq(ids, test), step), cond), Drop(gone))
         == FlatMap(FilterSeq(ids, surface), step')
  {
    NarrowedStep(ids, test, surface, step, cond, keep);
    MapFlatMap(FilterSeq(ids, surface), step, step', Drop(gone));
  }

  function Core(env: Env): Env { env.(surface := false) }

  function Surface(env: Env): Env { env.(surface := true) }

  lemma SingletonMap(r: Row, gone: set<string>)
    ensures MapSeq([r], Drop(gone)) == [Drop(gone)(r)]
  {
    assert [r][1..] == [];
  }

  lemma PairMap(r: Row, s: Row, gone: set<string>)
    ensures MapSeq([r, s], Drop(gone)) == [Drop(gone)(r), Drop(gone)(s)]
  {
    assert [r, s][1..] == [s];
    SingletonMap(s, gone);
  }

  /** Matching the lowered descriptor and filtering is matching the written one, under the new name. */
  lemma NarrowedNodes(env: Env, d: Descriptor, x: string)
    requires LiteralsSound(d.props, d.valueFilters) && d.valueFilters != []
    ensures FilterSeq(NodeRows(Core(env), Some(LoweredDesc(d, x))),
                      AllTest(Core(env), [FiltersExpr(x, d.valueFilters)]))
         == FlatMap(FilterSeq(env.g.nodes, NodeTest(Surface(env), Some(d))), NodeStep(Some(x)))
  {
    var fs := d.valueFilters;
    assert forall i :: 0 <= i < |fs| ==> LiteralSound(d.props, fs[i]);
    var keep := (id: Id) => forall i :: 0 <= i < |fs| ==> fs[i].1.Const? && FilterMeets(env.g.nodeProps(id), fs[i]);
    var cond := AllTest(Core(env), [FiltersExpr(x, fs)]);
    forall id: Id, r | r in NodeStep(Some(x))(id) ensures cond(r) == keep(id) {
      FiltersExprHolds(Core(env), r.mu, x, fs, env.g.nodeProps(id));
    }
    forall id: Id
      ensures NodeTest(Surface(env), Some(d))(id) == (NodeTest(Core(env), Some(LoweredDesc(d, x)))(id) && keep(id))
    {
      LoweredMatches(env.g.nodeLabels(id), env.g.nodeProps(id), d, x);
    }
    NarrowedStep(env.g.nodes, NodeTest(Core(env), Some(LoweredDesc(d, x))), NodeTest(Surface(env), Some(d)),
                 NodeStep(Some(x)), cond, keep);
  }

  lemma LoweredNodeRows(env: Env, d: Descriptor, x: string, gone: set<string>)
    requires LiteralsSound(d.props, d.valueFilters) && d.valueFilters != []
    requires DropsGenerated(d.name, x, gone)
    ensures MapSeq(FilterSeq(NodeRows(Core(env), Some(LoweredDesc(d, x))),
                             AllTest(Core(env), [FiltersExpr(x, d.valueFilters)])), Drop(gone))
         == NodeRows(Surface(env), Some(d))
  {
    NarrowedNodes(env, d, x);
    forall id: Id ensures MapSeq(NodeStep(Some(x))(id), Drop(gone)) == NodeStep(d.name)(id) {
      SingletonMap(Row([[PNode(id)]], BindOpt(Some(x), PNode(id))), gone);
      DropNamed(x, d.name, PNode(id), gone);
    }
    MapFlatMap(FilterSeq(env.g.nodes, NodeTest(Surface(env), Some(d))), NodeStep(Some(x)), NodeStep(d.name),
               Drop(gone));
  }

  lemma DropEdgeStep(g: Graph, dir: EdgeDir, x: string, name: Option<string>, id: Id, gone: set<string>)
    requires DropsGenerated(name, x, gone)
    ensures MapSeq(RowsOfEdge(g, dir, Some(x), id), Drop(gone)) == RowsOfEdge(g, dir, name, id)
  {
    DropNamed(x, name, PEdge(id, true), gone);
    DropNamed(x, name, PEdge(id, false), gone);
    var rows := RowsOfEdge(g, dir, Some(x), id);
    if |rows| == 1 {
      SingletonMap(rows[0], gone);
      assert rows == [rows[0]];
    } else {
      PairMap(rows[0], rows[1], gone);
      assert rows == [rows[0], rows[1]];
    }
  }

  lemma LoweredEdgeRowsOf(env: Env, dir: EdgeDir, d: Descriptor, x: string, gone: set<string>)
    requires LiteralsSound(d.props, d.valueFilters) && d.valueFilters != []
    requires DropsGenerated(d.name, x, gone)
    ensures MapSeq(FilterSeq(EdgeRowsOf(Core(env), dir, Some(LoweredDesc(d, x))),
                             AllTest(Core(env), [FiltersExpr(x, d.valueFilters)])), Drop(gone))
         == EdgeRowsOf(Surface(env), dir, Some(d))
  {
    var fs := d.valueFilters;
    assert forall i :: 0 <= i < |fs| ==> LiteralSound(d.props, fs[i]);
    var keep := (id: Id) => forall i :: 0 <= i < |fs| ==> fs[i].1.Const? && FilterMeets(env.g.edgeProps(id), fs[i]);
    var cond := AllTest(Core(env), [FiltersExpr(x, fs)]);
    forall id: Id, r | r in EdgeStep(env.g, dir, Some(x))(id) ensures cond(r) == keep(id) {
      EdgeStepBinds(env.g, dir, Some(x), id);
      FiltersExprHolds(Core(env), r.mu, x, fs, env.g.edgeProps(id));
    }
    forall id: Id
      ensures EdgeTest(Surface(env), Some(d))(id) == (EdgeTest(Core(env), Some(LoweredDesc(d, x)))(id) && keep(id))
    {
      LoweredMatches(env.g.edgeLabels(id), env.g.edgeProps(id), d, x);
    }
    forall id: Id ensures MapSeq(EdgeStep(env.g, dir, Some(x))(id), Drop(gone)) == EdgeStep(env.g, dir, d.name)(id) {
      DropEdgeStep(env.g, dir, x, d.name, id, gone);
    }
    DropStep(if dir.Undirected? then env.g.undirectedEdges else env.g.directedEdges,
             EdgeTest(Core(env), Some(LoweredDesc(d, x))), cond, EdgeTest(Surface(env), Some(d)),
             EdgeStep(env.g, dir, Some(x)), EdgeStep(env.g, dir, d.name), keep, gone);
  }

  lemma LoweredEdgeRows(env: Env, dir: EdgeDir, d: Descriptor, x: string, gone: set<string>)
    requires LiteralsSound(d.props, d.valueFilters) && d.valueFilters != []
    requires DropsGenerated(d.name, x, gone)
    ensures MapSeq(FilterSeq(EdgeRows(Core(env), dir, Some(LoweredDesc(d, x))),
                             AllTest(Core(env), [FiltersExpr(x, d.valueFilters)])), Drop(gone))
         == EdgeRows(Surface(env), dir, Some(d))
  {
    if dir.AnyDirection? {
      var d', f, h := Some(LoweredDesc(d, x)), AllTest(Core(env), [FiltersExpr(x, d.valueFilters)]), Drop(gone);
      LoweredEdgeRowsOf(env, Right, d, x, gone);
      LoweredEdgeRowsOf(env, Left, d, x, gone);
      LoweredEdgeRowsOf(env, Undirected, d, x, gone);
      var r, l := EdgeRowsOf(Core(env), Right, d'), EdgeRowsOf(Core(env), Left, d');
      var u := EdgeRowsOf(Core(env), Undirected, d');
      FilterAppend(r + l, u, f);
      FilterAppend(r, l, f);
      MapAppend(FilterSeq(r, f) + FilterSeq(l, f), FilterSeq(u, f), h);
      MapAppend(FilterSeq(r, f), FilterSeq(l, f), h);
    } else {
      LoweredEdgeRowsOf(env, dir, d, x, gone);
    }
  }

  // ---------------------------------------------------------------- combining rows

  /** Names shared by the operands are never dropped ones, so unification is unaffected. */
  lemma UnifyDropped(a: Assignment, b: Assignment, gone: set<string>)
    requires a.Keys * b.Keys * gone == {}
    ensures CanUnify(a, b) == CanUnify(a - gone, b - gone)
  {
    if CanUnify(a - gone, b - gone) {
      forall k | k in a && k in b ensures a[k] == b[k] {
        assert k in a.Keys * b.Keys && k !in a.Keys * b.Keys * gone;
        assert k in a - gone && k in b - gone;
      }
    }
  }

  ghost predicate ApartOn(xs: seq<Row>, ys: seq<Row>, gone: set<string>) {
    forall x, y :: x in xs && y in ys ==> x.mu.Keys * y.mu.Keys * gone == {}
  }

  lemma BindsApart(xs: seq<Row>, ys: seq<Row>, hi: set<string>, hi': set<string>, gone: set<string>)
    requires Binds(xs, {}, hi) && Binds(ys, {}, hi') && hi * hi' * gone == {}
    ensures ApartOn(xs, ys, gone)
  {
    forall x, y | x in xs && y in ys ensures x.mu.Keys * y.mu.Keys * gone == {} {
      assert x.mu.Keys * y.mu.Keys * gone <= hi * hi' * gone;
    }
  }

  lemma DropUnion(a: Assignment, b: Assignment, gone: set<string>)
    ensures (a + b) - gone == (a - gone) + (b - gone)
  {
  }

  lemma DropConcat(xs: seq<Row>, ys: seq<Row>, gone: set<string>)
    requires ApartOn(xs, ys, gone)
    ensures MapSeq(PairAll(xs, ys, ConcatCompat, ConcatMerge), Drop(gone))
         == PairAll(MapSeq(xs, Drop(gone)), MapSeq(ys, Drop(gone)), ConcatCompat, ConcatMerge)
  {
    var h := Drop(gone);
    forall x, y | x in xs && y in ys ensures ConcatCompat(x, y) == ConcatCompat(h(x), h(y)) {
      UnifyDropped(x.mu, y.mu, gone);
    }
    forall x, y | x in xs && y in ys && ConcatCompat(x, y) ensures h(ConcatMerge(x, y)) == ConcatMerge(h(x), h(y)) {
      DropUnion(x.mu, y.mu, gone);
    }
    MapPair(xs, ys, ConcatCompat, ConcatMerge, h, ConcatCompat, ConcatMerge);
  }

  lemma DropJoin(env: Env, xs: seq<Row>, ys: seq<Row>, shared: set<string>, gone: set<string>)
    requires ApartOn(xs, ys, gone) && Picks(env) && shared * gone == {}
    ensures MapSeq(PairAll(xs, ys, JoinTest(Core(env), shared), JoinMerge), Drop(gone))
         == PairAll(MapSeq(xs, Drop(gone)), MapSeq(ys, Drop(gone)), JoinTest(Surface(env), shared), JoinMerge)
  {
    var h := Drop(gone);
    forall x, y | x in xs && y in ys
      ensures JoinTest(Core(env), shared)(x, y) == JoinTest(Surface(env), shared)(h(x), h(y))
    {
      UnifyDropped(x.mu, y.mu, gone);
      if shared != {} {
        var jv := env.pick(shared);
        assert jv in shared && jv !in shared * gone;
        assert jv !in gone;
      }
    }
    forall x, y | x in xs && y in ys && JoinTest(Core(env), shared)(x, y)
      ensures h(JoinMerge(x, y)) == JoinMerge(h(x), h(y))
    {
      DropUnion(x.mu, y.mu, gone);
    }
    MapPair(xs, ys, JoinTest(Core(env), shared), JoinMerge, h, JoinTest(Surface(env), shared), JoinMerge);
  }

  lemma DropFilled(r: Row, vars: set<string>, vars': set<string>, gone: set<string>)
    requires vars' - gone == vars
    ensures Fill(vars)(Drop(gone)(r)) == Drop(gone)(Fill(vars')(r))
  {
    var pad, pad' := map x | x in vars && x !in r.mu - gone :: Nothing, map x | x in vars' && x !in r.mu :: Nothing;
    assert forall x :: x in pad <==> x in pad' && x !in gone;
    DropUnion(r.mu, pad', gone);
    assert pad' - gone == pad;
  }

  lemma DropFill(rows: seq<Row>, vars: set<string>, vars': set<string>, gone: set<string>)
    requires vars' - gone == vars
    ensures MapSeq(MapSeq(rows, Fill(vars')), Drop(gone)) == MapSeq(MapSeq(rows, Drop(gone)), Fill(vars))
  {
    var both := (r: Row) => Drop(gone)(Fill(vars')(r));
    forall r | r in rows ensures Fill(vars)(Drop(gone)(r)) == both(r) {
      DropFilled(r, vars, vars', gone);
    }
    MapMap(rows, Fill(vars'), Drop(gone), both);
    MapMap(rows, Drop(gone), Fill(vars), both);
  }

  lemma DropBinding(mu: Assignment, x: string, pv: PathValue, gone: set<string>)
    requires x !in gone
    ensures mu[x := pv] - gone == (mu - gone)[x := pv]
  {
  }

  lemma DropName(rows: seq<Row>, x: string, gone: set<string>)
    requires x !in gone
    ensures MapSeq(MapSeq(rows, NameRow(x)), Drop(gone)) == MapSeq(MapSeq(rows, Drop(gone)), NameRow(x))
  {
    var both := (r: Row) => Drop(gone)(NameRow(x)(r));
    forall r | r in rows ensures NameRow(x)(Drop(gone)(r)) == both(r) {
      DropBinding(r.mu, x, PPath(LastPath(r)), gone);
    }
    MapMap(rows, NameRow(x), Drop(gone), both);
    MapMap(rows, Drop(gone), NameRow(x), both);
  }

  /** Evaluation never looks at how descriptors are read. */
  lemma {:induction false} EvalSurface(env: Env, scope: Scope, mu: Assignment, e: Expr)
    ensures Eval(Core(env), scope, mu, e) == Eval(Surface(env), scope, mu, e)
    decreases e, 1, 0
  {
    match e
    case Var(x) => AmbientSame(env, mu, x);
    case AttrLookup(x, _) => AmbientSame(env, mu, x);
    case Binop(_, l, r) => EvalSurface(env, scope, mu, l); EvalSurface(env, scope, mu, r);
    case Not(o) => EvalSurface(env, scope, mu, o);
    case IsNull(o, _) => EvalSurface(env, scope, mu, o);
    case Coalesce(args) => CoalesceSurface(env, scope, mu, args);
    case ListComp(_, src, _, _) =>
      EvalSurface(env, scope, mu, src);
      match Eval(Core(env), scope, mu, src) {
        case Success(List(items)) => ItemsSurface(env, scope, mu, e, items);
        case _ =>
      }
    case _ =>
  }

  lemma AmbientSame(env: Env, mu: Assignment, x: string)
    ensures LookupVar(Core(env), mu, x) == LookupVar(Surface(env), mu, x)
  {
  }

  lemma {:induction false} CoalesceSurface(env: Env, scope: Scope, mu: Assignment, args: seq<Expr>)
    ensures EvalCoalesce(Core(env), scope, mu, args) == EvalCoalesce(Surface(env), scope, mu, args)
    decreases args, 1, 0
  {
    if args != [] {
      EvalSurface(env, scope, mu, args[0]);
      CoalesceSurface(env, scope, mu, args[1..]);
    }
  }

  lemma {:induction false} ItemsSurface(env: Env, scope: Scope, mu: Assignment, lc: Expr, items: seq<Value>)
    requires lc.ListComp?
    ensures EvalItems(Core(env), scope, mu, lc, items) == EvalItems(Surface(env), scope, mu, lc, items)
    decreases lc, 0, |items|
  {
    if items != [] {
      var inner := [(lc.item, items[0])] + scope;
      ItemsSurface(env, scope, mu, lc, items[1..]);
      EvalSurface(env, inner, mu, lc.body);
      if lc.cond.Some? {
        EvalSurface(env, inner, mu, lc.cond.value);
      }
    }
  }

  lemma DropFilter(env: Env, rows: seq<Row>, e: Expr, gone: set<string>)
    requires Reads(e) * gone == {}
    ensures MapSeq(FilterSeq(rows, AllTest(Core(env), [e])), Drop(gone))
         == FilterSeq(MapSeq(rows, Drop(gone)), AllTest(Surface(env), [e]))
  {
    forall r | r in rows ensures AllTest(Surface(env), [e])(Drop(gone)(r)) == AllTest(Core(env), [e])(r) {
      forall x | x in Reads(e) ensures x !in gone {
        assert x !in Reads(e) * gone;
      }
      assert AgreeOn(r.mu, r.mu - gone, Reads(e));
      HoldsLocal(Core(env), r.mu, r.mu - gone, e);
      EvalSurface(env, [], r.mu - gone, e);
      assert e in [e];
    }
    FilterMap(rows, Drop(gone), AllTest(Surface(env), [e]), AllTest(Core(env), [e]));
  }

  // ---------------------------------------------------------------- repetition

  lemma DropGroup(rows: seq<Row>, gone: set<string>)
    ensures MapSeq(MapSeq(rows, GroupRow), Drop(gone)) == MapSeq(MapSeq(rows, Drop(gone)), GroupRow)
  {
    var both := (r: Row) => Drop(gone)(GroupRow(r));
    forall r | r in rows ensures GroupRow(Drop(gone)(r)) == both(r) {
      assert GroupRow(Drop(gone)(r)).mu == GroupRow(r).mu - gone;
    }
    MapMap(rows, GroupRow, Drop(gone), both);
    MapMap(rows, Drop(gone), GroupRow, both);
  }

  lemma DropGroups(a: Assignment, b: Assignment, gone: set<string>)
    ensures ConcatGroups(a, b) - gone == ConcatGroups(a - gone, b - gone)
  {
  }

  lemma DropGroupMerge(x: Row, y: Row, gone: set<string>)
    ensures Drop(gone)(GroupMerge(x, y)) == GroupMerge(Drop(gone)(x), Drop(gone)(y))
  {
    DropGroups(x.mu, y.mu, gone);
  }

  lemma {:induction false} DropLevel(grouped: seq<Row>, k: nat, gone: set<string>)
    requires k >= 1
    ensures MapSeq(Level(grouped, k), Drop(gone)) == Level(MapSeq(grouped, Drop(gone)), k)
  {
    if k > 1 {
      DropLevel(grouped, k - 1, gone);
      forall x, y ensures Drop(gone)(GroupMerge(x, y)) == GroupMerge(Drop(gone)(x), Drop(gone)(y)) {
        DropGroupMerge(x, y, gone);
      }
      MapPair(Level(grouped, k - 1), grouped, EndsMeet, GroupMerge, Drop(gone), EndsMeet, GroupMerge);
    }
  }

  lemma {:induction false} DropLevels(grouped: seq<Row>, k: nat, ub: nat, gone: set<string>)
    requires k >= 1
    ensures MapSeq(Levels(grouped, k, ub), Drop(gone)) == Levels(MapSeq(grouped, Drop(gone)), k, ub)
    decreases ub + 1 - k
  {
    if k <= ub {
      DropLevel(grouped, k, gone);
      DropLevels(grouped, k + 1, ub, gone);
      MapAppend(Level(grouped, k), Levels(grouped, k + 1, ub), Drop(gone));
    }
  }

  lemma DropZero(ids: seq<Id>, vars: set<string>, vars': set<string>, gone: set<string>)
    requires vars' - gone == vars
    ensures MapSeq(FlatMap(ids, ZeroStep(vars')), Drop(gone)) == FlatMap(ids, ZeroStep(vars))
  {
    forall id | id in ids ensures MapSeq(ZeroStep(vars')(id), Drop(gone)) == ZeroStep(vars)(id) {
      SingletonMap(Row([[PNode(id)]], EmptyGroups(vars')), gone);
      assert EmptyGroups(vars') - gone == EmptyGroups(vars);
    }
    MapFlatMap(ids, ZeroStep(vars'), ZeroStep(vars), Drop(gone));
  }

  lemma DropRepeat(env: Env, vars: set<string>, vars': set<string>, rows: seq<Row>, lb: nat, ub: nat, gone: set<string>)
    requires vars' - gone == vars
    ensures MapSeq(RepeatRows(Core(env), vars', rows, lb, ub), Drop(gone))
         == RepeatRows(Surface(env), vars, MapSeq(rows, Drop(gone)), lb, ub)
  {
    if lb <= ub {
      var laps := Levels(MapSeq(rows, GroupRow), if lb == 0 then 1 else lb, ub);
      DropGroup(rows, gone);
      DropLevels(MapSeq(rows, GroupRow), if lb == 0 then 1 else lb, ub, gone);
      DropZero(env.g.nodes, vars, vars', gone);
      MapAppend(if lb == 0 then FlatMap(env.g.nodes, ZeroStep(vars')) else [], laps, Drop(gone));
    }
  }

  /** The unbounded repetition groups variables one by one: it does the same whether the generated
      ones are dropped before it or after it. */
  ghost predicate StarDrops(env: Env, gone: set<string>) {
    forall pol, lb, vars, rows ::
      MapSeq(MapSeq(env.star(pol, lb, vars, rows), StarToRow(vars)), Drop(gone))
      == MapSeq(env.star(pol, lb, vars - gone, MapSeq(rows, Drop(gone))), StarToRow(vars - gone))
  }

  // ---------------------------------------------------------------- path prefixes

  ghost predicate KeepsPaths(h: Row -> Row) {
    forall r :: h(r).paths == r.paths
  }

  lemma {:induction false} MapLengths(rows: seq<Row>, h: Row -> Row)
    requires KeepsPaths(h)
    ensures MapSeq(MapSeq(rows, h), RowLength) == MapSeq(rows, RowLength) && |MapSeq(rows, h)| == |rows|
  {
    if rows != [] {
      MapLengths(rows[1..], h);
      assert MapSeq(rows, h)[1..] == MapSeq(rows[1..], h);
    }
  }

  lemma MapPartition(rows: seq<Row>, h: Row -> Row, key: BoundaryKey)
    requires KeepsPaths(h)
    ensures Partition(MapSeq(rows, h), key) == MapSeq(Partition(rows, key), h)
  {
    var same := (r: Row) => KeyOf(r) == key;
    FilterMap(rows, h, same, same);
  }

  /** The verdict on a row looks at lengths within its partition only. */
  lemma KeepsMapped(search: PathSearch, r: Row, all: seq<Row>, seen: seq<Row>, h: Row -> Row)
    requires KeepsPaths(h)
    ensures KeyOf(h(r)) == KeyOf(r)
    ensures Keeps(search, MapSeq(Partition(MapSeq(all, h), KeyOf(h(r))), RowLength),
                  |Partition(MapSeq(seen, h), KeyOf(h(r)))|)
         == Keeps(search, MapSeq(Partition(all, KeyOf(r)), RowLength), |Partition(seen, KeyOf(r))|)
  {
    LengthsMapped(all, h, KeyOf(r));
    LengthsMapped(seen, h, KeyOf(r));
  }

  lemma LengthsMapped(rows: seq<Row>, h: Row -> Row, key: BoundaryKey)
    requires KeepsPaths(h)
    ensures MapSeq(Partition(MapSeq(rows, h), key), RowLength) == MapSeq(Partition(rows, key), RowLength)
    ensures |Partition(MapSeq(rows, h), key)| == |Partition(rows, key)|
  {
    MapPartition(rows, h, key);
    MapLengths(Partition(rows, key), h);
  }

  lemma {:induction false} MapSelect(search: PathSearch, rest: seq<Row>, all: seq<Row>, seen: seq<Row>, h: Row -> Row)
    requires KeepsPaths(h)
    ensures MapSeq(SelectFrom(search, rest, all, seen), h)
         == SelectFrom(search, MapSeq(rest, h), MapSeq(all, h), MapSeq(seen, h))
    decreases |rest|
  {
    if rest != [] {
      var r, tail := rest[0], SelectFrom(search, rest[1..], all, seen + [rest[0]]);
      MapSelect(search, rest[1..], all, seen + [r], h);
      SeenMapped(seen, r, h);
      KeepsMapped(search, r, all, seen, h);
      assert MapSeq(rest, h)[0] == h(r) && MapSeq(rest, h)[1..] == MapSeq(rest[1..], h);
      MapCons(r, tail, h);
    }
  }

  lemma SeenMapped(seen: seq<Row>, r: Row, h: Row -> Row)
    ensures MapSeq(seen + [r], h) == MapSeq(seen, h) + [h(r)]
  {
    MapAppend(seen, [r], h);
    assert [r] + [] == [r];
    MapCons(r, [], h);
  }

  lemma MapPrefix(rows: seq<Row>, prefix: PathPrefix, h: Row -> Row)
    requires KeepsPaths(h)
    ensures MapSeq(ApplyPrefix(rows, prefix), h) == ApplyPrefix(MapSeq(rows, h), prefix)
  {
    var mode := ModeTest(prefix.mode);
    FilterMap(rows, h, mode, mode);
    MapSelect(prefix.search, FilterSeq(rows, mode), FilterSeq(rows, mode), [], h);
  }

  // ---------------------------------------------------------------- the theorem

  predicate DescSound(d: Option<Descriptor>) {
    d.Some? ==> LiteralsSound(d.value.props, d.value.valueFilters)
  }

  /** Constant value filters that agree with what their descriptor states already, and filters that
      read no generated name. */
  predicate Lowerable(p: PathPattern, gone: set<string>) {
    match p
    case Node(d) => DescSound(d)
    case Edge(_, d) => DescSound(d)
    case Concat(a, b) => Lowerable(a, gone) && Lowerable(b, gone)
    case Union(a, b) => Lowerable(a, gone) && Lowerable(b, gone)
    case Join(a, b) => Lowerable(a, gone) && Lowerable(b, gone)
    case Filter(i, e) => Lowerable(i, gone) && Reads(e) * gone == {}
    case Repeat(i, _, _) => Lowerable(i, gone)
    case Questioned(i) => Lowerable(i, gone)
    case Selected(_, i) => Lowerable(i, gone)
    case Named(_, i) => Lowerable(i, gone)
  }

  /** `gone` holds the names generated between the two counters and nothing the query uses. */
  ghost predicate Generated(lo: nat, hi: nat, taken: set<string>, gone: set<string>) {
    gone * taken == {} && Range(lo, hi, taken) <= gone
  }

  ghost predicate Lowered(env: Env, pol: Policy, p: PathPattern, q: PathPattern, gone: set<string>) {
    MapSeq(Rows(Core(env), pol, q), Drop(gone)) == Rows(Surface(env), pol, p)
  }

  lemma UnfilteredMatches(labels: set<string>, props: Props, d: Option<Descriptor>)
    requires !HasFilters(d)
    ensures ElementMatches(false, labels, props, d) == ElementMatches(true, labels, props, d)
  {
  }

  lemma UnfilteredRows(env: Env, pol: Policy, p: PathPattern, gone: set<string>)
    requires (p.Node? || p.Edge?) && !HasFilters(p.desc) && Declared(p) * gone == {}
    ensures Lowered(env, pol, p, p, gone)
  {
    RowsBind(Core(env), pol, p);
    DropNothing(Rows(Core(env), pol, p), Declared(p), gone);
    if p.Node? {
      forall id: Id ensures NodeTest(Core(env), p.desc)(id) == NodeTest(Surface(env), p.desc)(id) {
        UnfilteredMatches(env.g.nodeLabels(id), env.g.nodeProps(id), p.desc);
      }
      FilterCongruence(env.g.nodes, NodeTest(Core(env), p.desc), NodeTest(Surface(env), p.desc));
    } else {
      forall id: Id ensures EdgeTest(Core(env), p.desc)(id) == EdgeTest(Surface(env), p.desc)(id) {
        UnfilteredMatches(env.g.edgeLabels(id), env.g.edgeProps(id), p.desc);
      }
      FilterCongruence(env.g.directedEdges, EdgeTest(Core(env), p.desc), EdgeTest(Surface(env), p.desc));
      FilterCongruence(env.g.undirectedEdges, EdgeTest(Core(env), p.desc), EdgeTest(Surface(env), p.desc));
    }
  }

  lemma LowerElementExact(env: Env, pol: Policy, p: PathPattern, n: nat, taken: set<string>, gone: set<string>)
    requires (p.Node? || p.Edge?) && DescSound(p.desc)
    requires Declared(p) <= taken && Generated(n, LowerElement(p, n, taken).1, taken, gone)
    ensures Lowered(env, pol, p, LowerElement(p, n, taken).0, gone)
  {
    assert Declared(p) * gone <= taken * gone;
    if !HasFilters(p.desc) {
      UnfilteredRows(env, pol, p, gone);
    } else {
      var d := p.desc.value;
      var x := ElementName(d, n, taken);
      if d.name.None? {
        NextIsFirstFree(n, taken);
        assert x in Range(n, NextIndex(n, taken) + 1, taken);
      } else {
        assert x in Declared(p) && x in taken;
      }
      assert x in taken ==> x !in gone * taken;
      LoweredLeaf(env, pol, p, d, x, gone);
    }
  }

  lemma LoweredLeaf(env: Env, pol: Policy, p: PathPattern, d: Descriptor, x: string, gone: set<string>)
    requires (p.Node? || p.Edge?) && p.desc == Some(d) && d.valueFilters != []
    requires LiteralsSound(d.props, d.valueFilters) && DropsGenerated(d.name, x, gone)
    ensures Lowered(env, pol, p, Filter(WithDesc(p, Some(LoweredDesc(d, x))), FiltersExpr(x, d.valueFilters)), gone)
  {
    if p.Node? { LoweredNodeRows(env, d, x, gone); } else { LoweredEdgeRows(env, p.dir, d, x, gone); }
  }

  /** Variables of two operands lowered one after the other: the shared ones are as written. */
  lemma SharedNames(fa: set<string>, pa: set<string>, fb: set<string>, pb: set<string>,
                    fa': set<string>, fb': set<string>, ga: set<string>, gb: set<string>,
                    taken: set<string>, gone: set<string>)
    requires fa + pa <= taken && fb + pb <= taken && gone * taken == {}
    requires ga * taken == {} && gb * taken == {} && ga * gb == {}
    requires fa <= fa' <= fa + ga && fb <= fb' <= fb + gb
    ensures fa' * fb' == fa * fb && fa * fb * gone == {}
    ensures (fa' + pa) * (fb' + pb) * gone == {}
  {
    forall x | x in fa' + pa && x in fb' + pb ensures x in taken && (x in ga ==> false) && (x in gb ==> false) {
      assert x !in ga * gb && x !in ga * taken && x !in gb * taken;
    }
    forall x | x in taken ensures x !in gone {
      assert x !in gone * taken;
    }
  }

  /** Two operands lowered one after the other share no generated name. */
  lemma OperandsApart(env: Env, pol: Policy, a: PathPattern, b: PathPattern, a': PathPattern, b': PathPattern,
                      n: nat, m: nat, k: nat, taken: set<string>, gone: set<string>)
    requires Hygienic(a, a', n, m, taken) && Hygienic(b, b', m, k, taken)
    requires Declared(a) <= taken && Declared(b) <= taken && gone * taken == {}
    ensures ApartOn(Rows(Core(env), pol, a'), Rows(Core(env), pol, b'), gone)
    ensures FreeVars(a') * FreeVars(b') == FreeVars(a) * FreeVars(b) && FreeVars(a) * FreeVars(b) * gone == {}
  {
    RangesDisjoint(n, m, k, taken);
    RangeUntaken(n, m, taken);
    RangeUntaken(m, k, taken);
    OperandNames(a, b, a', b', Range(n, m, taken), Range(m, k, taken), taken, gone);
    RowsApart(Core(env), pol, a', b', gone);
  }

  lemma RowsApart(env: Env, pol: Policy, a: PathPattern, b: PathPattern, gone: set<string>)
    requires Declared(a) * Declared(b) * gone == {}
    ensures ApartOn(Rows(env, pol, a), Rows(env, pol, b), gone)
  {
    RowsBind(env, pol, a);
    RowsBind(env, pol, b);
    BindsApart(Rows(env, pol, a), Rows(env, pol, b), Declared(a), Declared(b), gone);
  }

  lemma OperandNames(a: PathPattern, b: PathPattern, a': PathPattern, b': PathPattern, ga: set<string>,
                     gb: set<string>, taken: set<string>, gone: set<string>)
    requires FreeVars(a) <= FreeVars(a') <= FreeVars(a) + ga && PathVars(a') == PathVars(a)
    requires FreeVars(b) <= FreeVars(b') <= FreeVars(b) + gb && PathVars(b') == PathVars(b)
    requires ga * taken == {} && gb * taken == {} && ga * gb == {}
    requires Declared(a) <= taken && Declared(b) <= taken && gone * taken == {}
    ensures Declared(a') * Declared(b') * gone == {}
    ensures FreeVars(a') * FreeVars(b') == FreeVars(a) * FreeVars(b) && FreeVars(a) * FreeVars(b) * gone == {}
  {
    SharedNames(FreeVars(a), PathVars(a), FreeVars(b), PathVars(b), FreeVars(a'), FreeVars(b'), ga, gb, taken, gone);
  }

  lemma RangeUntaken(n: nat, m: nat, taken: set<string>)
    ensures Range(n, m, taken) * taken == {}
  {
  }

  lemma LoweredConcat(env: Env, pol: Policy, a: PathPattern, b: PathPattern, a': PathPattern, b': PathPattern,
                      gone: set<string>)
    requires Lowered(env, pol, a, a', gone) && Lowered(env, pol, b, b', gone)
    requires ApartOn(Rows(Core(env), pol, a'), Rows(Core(env), pol, b'), gone)
    ensures Lowered(env, pol, Concat(a, b), Concat(a', b'), gone)
  {
    var xs, ys := Rows(Core(env), pol, a'), Rows(Core(env), pol, b');
    DropConcat(xs, ys, gone);
    assert Rows(Core(env), pol, Concat(a', b')) == PairAll(xs, ys, ConcatCompat, ConcatMerge);
  }

  lemma LoweredJoin(env: Env, pol: Policy, a: PathPattern, b: PathPattern, a': PathPattern, b': PathPattern,
                    gone: set<string>)
    requires Lowered(env, pol, a, a', gone) && Lowered(env, pol, b, b', gone) && Picks(env)
    requires ApartOn(Rows(Core(env), pol, a'), Rows(Core(env), pol, b'), gone)
    requires FreeVars(a') * FreeVars(b') == FreeVars(a) * FreeVars(b) && FreeVars(a) * FreeVars(b) * gone == {}
    ensures Lowered(env, pol, Join(a, b), Join(a', b'), gone)
  {
    var shared := FreeVars(a) * FreeVars(b);
    RowsOfJoin(Core(env), pol, a', b', shared);
    RowsOfJoin(Surface(env), pol, a, b, shared);
    DropJoin(env, Rows(Core(env), pol, a'), Rows(Core(env), pol, b'), shared, gone);
  }

  lemma LoweredUnion(env: Env, pol: Policy, a: PathPattern, b: PathPattern, a': PathPattern, b': PathPattern,
                     gone: set<string>)
    requires Lowered(env, pol, a, a', gone) && Lowered(env, pol, b, b', gone)
    requires FreeVars(PathPattern.Union(a', b')) - gone == FreeVars(PathPattern.Union(a, b))
    ensures Lowered(env, pol, PathPattern.Union(a, b), PathPattern.Union(a', b'), gone)
  {
    MapAppend(Rows(Core(env), pol, a'), Rows(Core(env), pol, b'), Drop(gone));
    DropFill(Rows(Core(env), pol, a') + Rows(Core(env), pol, b'), FreeVars(PathPattern.Union(a, b)),
             FreeVars(PathPattern.Union(a', b')), gone);
  }

  /** Lowering is invisible: with the generated names dropped, the lowered pattern has the rows of
      the pattern as written, in the same order. */
  lemma {:induction false} LoweringIsExact(env: Env, pol: Policy, p: PathPattern, n: nat, taken: set<string>,
                                           gone: set<string>)
    requires Lowerable(p, gone) && Declared(p) <= taken && Generated(n, Lower(p, n, taken).1, taken, gone)
    requires Picks(env) && StarDrops(env, gone)
    ensures Lowered(env, pol, p, Lower(p, n, taken).0, gone)
    decreases Size(p), 1
  {
    if p.Node? || p.Edge? {
      LowerElementExact(env, pol, p, n, taken, gone);
    } else if p.Concat? || p.Union? || p.Join? {
      LoweringPairExact(env, pol, p, n, taken, gone);
    } else {
      LoweringWrapExact(env, pol, p, n, taken, gone);
    }
  }

  lemma UnionFree(a: PathPattern, b: PathPattern, a': PathPattern, b': PathPattern, n: nat, m: nat, k: nat,
                  taken: set<string>, gone: set<string>)
    requires Hygienic(a, a', n, m, taken) && Hygienic(b, b', m, k, taken)
    requires Declared(a) <= taken && Declared(b) <= taken && Generated(n, k, taken, gone)
    ensures FreeVars(PathPattern.Union(a', b')) - gone == FreeVars(PathPattern.Union(a, b))
  {
    RangesDisjoint(n, m, k, taken);
    DropFree(FreeVars(a), FreeVars(a'), Range(n, m, taken), taken, gone);
    DropFree(FreeVars(b), FreeVars(b'), Range(m, k, taken), taken, gone);
  }

  lemma {:induction false} LoweringPairExact(env: Env, pol: Policy, p: PathPattern, n: nat, taken: set<string>,
                                             gone: set<string>)
    requires Lowerable(p, gone) && Declared(p) <= taken && Generated(n, Lower(p, n, taken).1, taken, gone)
    requires Picks(env) && StarDrops(env, gone) && (p.Concat? || p.Union? || p.Join?)
    ensures Lowered(env, pol, p, Lower(p, n, taken).0, gone)
    decreases Size(p), 0
  {
    var a, b := p.fst, p.snd;
    var (a', m) := Lower(a, n, taken);
    var (b', k) := Lower(b, m, taken);
    LowerHygienic(a, n, taken);
    LowerHygienic(b, m, taken);
    RangesDisjoint(n, m, k, taken);
    LoweringIsExact(env, pol, a, n, taken, gone);
    LoweringIsExact(env, pol, b, m, taken, gone);
    OperandsApart(env, pol, a, b, a', b', n, m, k, taken, gone);
    if p.Union? {
      UnionFree(a, b, a', b', n, m, k, taken, gone);
      LoweredUnion(env, pol, a, b, a', b', gone);
    } else if p.Concat? {
      LoweredConcat(env, pol, a, b, a', b', gone);
    } else {
      LoweredJoin(env, pol, a, b, a', b', gone);
    }
  }

  lemma {:induction false} LoweringWrapExact(env: Env, pol: Policy, p: PathPattern, n: nat, taken: set<string>,
                                             gone: set<string>)
    requires Lowerable(p, gone) && Declared(p) <= taken && Generated(n, Lower(p, n, taken).1, taken, gone)
    requires Picks(env) && StarDrops(env, gone)
    requires p.Filter? || p.Repeat? || p.Questioned? || p.Selected? || p.Named?
    ensures Lowered(env, pol, p, Lower(p, n, taken).0, gone)
    decreases Size(p), 0
  {
    var i := p.inner;
    var i' := Lower(i, n, taken).0;
    LowerHygienic(i, n, taken);
    LoweringIsExact(env, if p.Selected? then PolicyFor(p.prefix) else pol, i, n, taken, gone);
    DropFree(FreeVars(i), FreeVars(i'), Range(n, Lower(i, n, taken).1, taken), taken, gone);
    LoweredWrap(env, pol, p, i, i', gone);
  }

  lemma DropFree(f: set<string>, f': set<string>, range: set<string>, taken: set<string>, gone: set<string>)
    requires f <= f' <= f + range && range <= gone && f <= taken && gone * taken == {}
    ensures f' - gone == f
  {
    forall x | x in f ensures x !in gone {
      assert x !in gone * taken;
    }
  }

  function Rewrap(p: PathPattern, i: PathPattern): PathPattern
    requires p.Filter? || p.Repeat? || p.Questioned? || p.Selected? || p.Named?
  {
    match p
    case Filter(_, e) => Filter(i, e)
    case Repeat(_, lb, ub) => Repeat(i, lb, ub)
    case Questioned(_) => Questioned(i)
    case Selected(prefix, _) => Selected(prefix, i)
    case Named(x, _) => Named(x, i)
  }

  lemma LoweredWrap(env: Env, pol: Policy, p: PathPattern, i: PathPattern, q: PathPattern, gone: set<string>)
    requires p.Filter? || p.Repeat? || p.Questioned? || p.Selected? || p.Named?
    requires i == p.inner && Lowered(env, if p.Selected? then PolicyFor(p.prefix) else pol, i, q, gone)
    requires FreeVars(q) - gone == FreeVars(i) && StarDrops(env, gone)
    requires p.Filter? ==> Reads(p.expr) * gone == {}
    requires p.Named? ==> p.name !in gone
    ensures Lowered(env, pol, p, Rewrap(p, q), gone)
  {
    match p
    case Filter(_, e) => DropFilter(env, Rows(Core(env), pol, q), e, gone);
    case Repeat(_, lb, ub) =>
      DropRepeated(env, pol, FreeVars(i), FreeVars(q), Rows(Core(env), pol, q), lb, ub, gone);
      LoweredRepeat(env, pol, i, q, lb, ub, gone);
    case Questioned(_) => LoweredStep(env, pol, i, q, gone);
    case Selected(prefix, _) => MapPrefix(Rows(Core(env), PolicyFor(prefix), q), prefix, Drop(gone));
    case Named(x, _) => DropName(Rows(Core(env), pol, q), x, gone);
  }

  lemma LoweredRepeat(env: Env, pol: Policy, i: PathPattern, q: PathPattern, lb: nat, ub: Option<nat>,
                      gone: set<string>)
    requires MapSeq(Repeated(Core(env), pol, FreeVars(q), Rows(Core(env), pol, q), lb, ub), Drop(gone))
          == Repeated(Surface(env), pol, FreeVars(i), Rows(Surface(env), pol, i), lb, ub)
    ensures Lowered(env, pol, Repeat(i, lb, ub), Repeat(q, lb, ub), gone)
  {
  }

  lemma DropRepeated(env: Env, pol: Policy, vars: set<string>, vars': set<string>, rows: seq<Row>, lb: nat,
                     ub: Option<nat>,
                     gone: set<string>)
    requires StarDrops(env, gone) && vars' - gone == vars
    ensures MapSeq(Repeated(Core(env), pol, vars', rows, lb, ub), Drop(gone))
         == Repeated(Surface(env), pol, vars, MapSeq(rows, Drop(gone)), lb, ub)
  {
    if ub.Some? {
      DropRepeat(env, vars, vars', rows, lb, ub.value, gone);
    } else {
      DropStar(env, pol, lb, vars, vars', rows, gone);
    }
  }

  lemma DropStar(env: Env, pol: Policy, lb: nat, vars: set<string>, vars': set<string>, rows: seq<Row>,
                 gone: set<string>)
    requires StarDrops(env, gone) && vars' - gone == vars
    ensures MapSeq(MapSeq(env.star(pol, lb, vars', rows), StarToRow(vars')), Drop(gone))
         == MapSeq(env.star(pol, lb, vars, MapSeq(rows, Drop(gone))), StarToRow(vars))
  {
  }

  lemma LoweredStep(env: Env, pol: Policy, i: PathPattern, q: PathPattern, gone: set<string>)
    requires Lowered(env, pol, i, q, gone)
    ensures Lowered(env, pol, Questioned(i), Questioned(q), gone)
  {
    DropStepRows(env, Rows(Core(env), pol, q), gone);
  }

  lemma DropStepRows(env: Env, rows: seq<Row>, gone: set<string>)
    ensures MapSeq(NodeRows(Core(env), None) + rows, Drop(gone))
         == NodeRows(Surface(env), None) + MapSeq(rows, Drop(gone))
  {
    UnfilteredRows(env, Forbidden, Node(None), gone);
    MapAppend(NodeRows(Core(env), None), rows, Drop(gone));
  }
}
