/** The conditions of descriptor lowering, met from the other side. */
module LoweringLimits {
  import opened Values
  import opened Syntax
  import opened RowAlgebra
  import opened Runtime
  import opened Evaluator
  import opened Scoping
  import opened FreshNames
  import opened Lowering
  import opened StoredTypes
  import opened TypePush
  import opened LoweringRows
  import opened HoistLimits

  // ---------------------------------------------------------------- the recorded type

  /** Among the records that meet the filter, does recording the literal's type change the match? */
  predicate RecordingAgrees(props: Props, pt: PropertyType, f: ValueFilter)
    requires f.1.Const?
  {
    FilterMeets(props, f) ==> (PropsMatch(props, ExtendLiteral(pt, f)) <==> PropsMatch(props, pt))
  }

  /** A value equal to the literal with the given scalar type. */
  function EqualOf(v: Value, k: SimpleType): Value
    requires k in EqualTypes(v)
  {
    match v
    case Int(i) => if k == IntType then v else Float(i as real)
    case Float(r) => if k == FloatType then v else Int(r.Floor)
    case _ => v
  }

  lemma EqualOfMeets(props: Props, f: ValueFilter, k: SimpleType)
    requires f.1.Const? && k in EqualTypes(f.1.v)
    requires f.0 in props && props[f.0] == EqualOf(f.1.v, k)
    ensures FilterMeets(props, f) && ValueType(props[f.0]) == k && Scalar(props[f.0])
    ensures Passes(props[f.0], LiteralType(f.1).value)
  {
  }

  function OwnType(v: Value): SimpleType
    requires Scalar(v)
  {
    if v.Int? then IntType else if v.Float? then FloatType else if v.Str? then StrType else BoolType
  }

  lemma UnsoundLiteralDiffers(pt: PropertyType, f: ValueFilter) returns (props: Props)
    requires f.1.Const? && LiteralType(f.1).Some? && !pt.Bottom? && !LiteralSound(pt, f)
    ensures !RecordingAgrees(props, pt, f)
  {
    var k := OwnType(f.1.v);
    if f.0 in pt.fields {
      k :| k in EqualTypes(f.1.v) && k !in Admitted(pt.fields[f.0]);
    }
    var v := EqualOf(f.1.v, k);
    props := WitnessWith(pt, f.0, LiteralType(f.1).value, v, true);
    EqualOfMeets(props, f, k);
    assert k in ScalarTypes();
  }

  lemma OneLiteral(pt: PropertyType, f: ValueFilter)
    ensures ExtendLiterals(pt, [f]) == ExtendLiteral(pt, f)
  {
    var none: seq<ValueFilter> := [];
    assert [f][..0] == none && ExtendLiterals(pt, none) == pt;
  }

  /** Recording the type of a literal leaves the match alone, on every record that meets the filter,
      if and only if the descriptor leaves the key open or already admits every type whose values
      can equal the literal. */
  lemma RecordingExactWhen(pt: PropertyType, f: ValueFilter)
    requires f.1.Const?
    ensures (forall props :: RecordingAgrees(props, pt, f)) <==> LiteralSound(pt, f)
  {
    if LiteralSound(pt, f) {
      forall props ensures RecordingAgrees(props, pt, f) {
        if FilterMeets(props, f) {
          OneLiteral(pt, f);
          LiteralsMatch(props, pt, [f]);
        }
      }
    } else {
      var props := UnsoundLiteralDiffers(pt, f);
    }
  }

  // ---------------------------------------------------------------- a predicate mentions a generated name

  /** The names a lowering generates. */
  function NamesOf(p: PathPattern): set<string> {
    Range(0, Lower(p, 0, Declared(p)).1, Declared(p))
  }

  function LoweredForm(p: PathPattern): PathPattern {
    Lower(p, 0, Declared(p)).0
  }

  /** Lowering `p`, whatever it is run against, loses and gains nothing but the generated names. */
  ghost predicate LoweredEverywhere(p: PathPattern) {
    forall env, pol :: Picks(env) && StarDrops(env, NamesOf(p)) ==> Lowered(env, pol, p, LoweredForm(p), NamesOf(p))
  }

  lemma NamesAreFresh(p: PathPattern)
    ensures NamesOf(p) * Declared(p) == {} && Generated(0, Lower(p, 0, Declared(p)).1, Declared(p), NamesOf(p))
  {
  }

  lemma LowerableIsExact(p: PathPattern)
    requires Lowerable(p, NamesOf(p))
    ensures LoweredEverywhere(p)
  {
    NamesAreFresh(p);
    forall env, pol | Picks(env) && StarDrops(env, NamesOf(p))
      ensures Lowered(env, pol, p, LoweredForm(p), NamesOf(p))
    {
      LoweringIsExact(env, pol, p, 0, Declared(p), NamesOf(p));
    }
  }

  /** `(name {a: lit})` */
  function Keyed(name: Option<string>, a: string, lit: Value): PathPattern {
    Node(Some(Descriptor(name, {}, Open(map[]), [(a, Const(lit))], [])))
  }

  function KeyedName(name: Option<string>): string {
    if name.Some? then name.value else NameAt(0)
  }

  /** What lowering makes of it. */
  function LoweredKeyed(name: Option<string>, a: string, lit: Value): PathPattern {
    Filter(Node(Some(LoweredDesc(Keyed(name, a, lit).desc.value, KeyedName(name)))),
           EqExpr(KeyedName(name), (a, Const(lit))))
  }

  lemma KeyedLowers(name: Option<string>, a: string, lit: Value)
    ensures LoweredForm(Keyed(name, a, lit)) == LoweredKeyed(name, a, lit)
    ensures Declared(Keyed(name, a, lit)) == (if name.Some? then {name.value} else {})
    ensures FreeVars(LoweredKeyed(name, a, lit)) == {KeyedName(name)} == Declared(LoweredKeyed(name, a, lit))
    ensures NamesOf(Keyed(name, a, lit)) == (if name.Some? then {} else {NameAt(0)})
    ensures forall gone :: Lowerable(Keyed(name, a, lit), gone)
  {
    var f := (a, Const(lit));
    assert FiltersExpr(KeyedName(name), [f]) == EqExpr(KeyedName(name), f);
    assert NextIndex(0, {}) == 0;
    if name.None? {
      assert Declared(Keyed(name, a, lit)) == {};
      assert Range(0, 1, {}) == {NameAt(0)};
    } else {
      assert Range(0, 0, {name.value}) == {};
    }
    assert FreeVars(LoweredKeyed(name, a, lit)) == FreeVars(LoweredKeyed(name, a, lit).inner) == {KeyedName(name)};
    assert PathVars(LoweredKeyed(name, a, lit)) == PathVars(LoweredKeyed(name, a, lit).inner) == {};
  }

  /** On one node that meets the filter. */
  lemma KeyedRows(env: Env, name: Option<string>, a: string, lit: Value, id: Id)
    requires FilterMeets(env.g.nodeProps(id), (a, Const(lit)))
    ensures NodeTest(Surface(env), Keyed(name, a, lit).desc)(id)
    ensures NodeTest(Core(env), LoweredKeyed(name, a, lit).inner.desc)(id)
    ensures HoldsAll(Core(env), map[KeyedName(name) := PNode(id)], [LoweredKeyed(name, a, lit).expr])
  {
    var d := Keyed(name, a, lit).desc.value;
    var f := (a, Const(lit));
    assert d.valueFilters == [f] && LiteralSound(d.props, f);
    LoweredMatches(env.g.nodeLabels(id), env.g.nodeProps(id), d, KeyedName(name));
    assert PropsMatch(env.g.nodeProps(id), Open(map[]));
    var x, mu := KeyedName(name), map[KeyedName(name) := PNode(id)];
    FiltersExprHolds(Core(env), mu, x, [f], env.g.nodeProps(id));
    assert FiltersExpr(x, [f]) == EqExpr(x, f);
    assert LoweredKeyed(name, a, lit).expr in [LoweredKeyed(name, a, lit).expr];
  }

  /** `({a: lit}) WHERE x.k op v` */
  function Captured(a: string, lit: Value, x: string, k: string, op: CmpOp, v: Value): PathPattern {
    Filter(Keyed(None, a, lit), Test(x, k, op, v))
  }

  ghost predicate Together(a: string, lit: Value, k: string, op: CmpOp, v: Value) {
    exists props: Props :: FilterMeets(props, (a, Const(lit))) && k in props && IsTrue(EvalCmp(op, props[k], v))
  }

  lemma CapturedLowers(a: string, lit: Value, x: string, k: string, op: CmpOp, v: Value)
    ensures var p := Captured(a, lit, x, k, op, v);
      && LoweredForm(p) == Filter(LoweredKeyed(None, a, lit), Test(x, k, op, v))
      && NamesOf(p) == {NameAt(0)}
      && (Lowerable(p, NamesOf(p)) <==> x != NameAt(0))
  {
    KeyedLowers(None, a, lit);
    TestReads(x, k, op, v);
    var p := Captured(a, lit, x, k, op, v);
    assert Declared(p) == {} == Declared(Keyed(None, a, lit));
    assert x == NameAt(0) <==> x in {x} * {NameAt(0)};
  }

  /** One node that meets a filter, as written and as lowered. */
  lemma KeyedOnly(env: Env, name: Option<string>, a: string, lit: Value)
    requires env.g.nodes == [0] && FilterMeets(env.g.nodeProps(0), (a, Const(lit)))
    ensures Rows(Surface(env), Forbidden, Keyed(name, a, lit)) == [Row([[PNode(0)]], BindOpt(name, PNode(0)))]
    ensures Rows(Core(env), Forbidden, LoweredKeyed(name, a, lit)) == [Bound(KeyedName(name))]
  {
    KeyedRows(env, name, a, lit, 0);
    NodeOnly(Surface(env), Keyed(name, a, lit).desc);
    NodeOnly(Core(env), LoweredKeyed(name, a, lit).inner.desc);
    FilterOne(Core(env), Bound(KeyedName(name)), [LoweredKeyed(name, a, lit).expr]);
  }

  lemma FilteredRow(env: Env, p: PathPattern, e: Expr, r: Row)
    requires Rows(env, Forbidden, p) == [r]
    ensures Rows(env, Forbidden, Filter(p, e)) == if HoldsAll(env, r.mu, [e]) then [r] else []
  {
    FilterOne(env, r, [e]);
  }

  /** The unbound name rejects every row as written, and reads the anonymous node once lowered. */
  lemma CapturedRows(env: Env, a: string, lit: Value, k: string, op: CmpOp, v: Value)
    requires env.g.nodes == [0] && env.ambient == map[] && FilterMeets(env.g.nodeProps(0), (a, Const(lit)))
    requires k in env.g.nodeProps(0) && IsTrue(EvalCmp(op, env.g.nodeProps(0)[k], v))
    ensures Rows(Surface(env), Forbidden, Captured(a, lit, NameAt(0), k, op, v)) == []
    ensures Rows(Core(env), Forbidden, Filter(LoweredKeyed(None, a, lit), Test(NameAt(0), k, op, v)))
         == [Bound(NameAt(0))]
  {
    var x := NameAt(0);
    var e, u := Test(x, k, op, v), env.g.nodeProps(0)[k];
    KeyedOnly(env, None, a, lit);
    TestHolds(Surface(env), Bare0().mu, x, k, op, u, v);
    TestHolds(Core(env), Bound(x).mu, x, k, op, u, v);
    FilteredRow(Surface(env), Keyed(None, a, lit), e, Bare0());
    FilteredRow(Core(env), LoweredKeyed(None, a, lit), e, Bound(x));
  }

  lemma GeneratedNameCaptured(a: string, lit: Value, k: string, op: CmpOp, v: Value)
    requires Together(a, lit, k, op, v)
    ensures !LoweredEverywhere(Captured(a, lit, NameAt(0), k, op, v))
  {
    var props: Props :| FilterMeets(props, (a, Const(lit))) && k in props && IsTrue(EvalCmp(op, props[k], v));
    var env, x := OneNode(props, "", (mu: Assignment) => false), NameAt(0);
    var p := Captured(a, lit, x, k, op, v);
    CapturedLowers(a, lit, x, k, op, v);
    CapturedRows(env, a, lit, k, op, v);
    SingletonMap(Bound(x), NamesOf(p));
    EmptyStar(env, NamesOf(p));
    assert !Lowered(env, Forbidden, p, LoweredForm(p), NamesOf(p));
  }

  lemma EmptyStar(env: Env, gone: set<string>)
    requires forall pol, lb, vars, rows :: env.star(pol, lb, vars, rows) == []
    ensures StarDrops(env, gone)
  {
  }

  /** The one node of a graph that passes the test. */
  lemma NodeOnly(env: Env, d: Option<Descriptor>)
    requires env.g.nodes == [0] && NodeTest(env, d)(0)
    ensures NodeRows(env, d) == [Row([[PNode(0)]], BindOpt(NameOf(d), PNode(0)))]
  {
    var ids: seq<Id>, none: seq<Id> := [0], [];
    assert ids[1..] == none;
    assert FilterSeq(ids, NodeTest(env, d)) == ids;
    assert FlatMap(ids, NodeStep(NameOf(d))) == NodeStep(NameOf(d))(0) + FlatMap(none, NodeStep(NameOf(d)));
  }

  /** A predicate keeps its meaning if and only if it mentions no generated name. */
  lemma CapturedExactWhen(a: string, lit: Value, x: string, k: string, op: CmpOp, v: Value)
    requires Together(a, lit, k, op, v)
    ensures LoweredEverywhere(Captured(a, lit, x, k, op, v)) <==> x != NameAt(0)
    ensures LoweredEverywhere(Captured(a, lit, x, k, op, v))
            <==> Lowerable(Captured(a, lit, x, k, op, v), NamesOf(Captured(a, lit, x, k, op, v)))
  {
    CapturedLowers(a, lit, x, k, op, v);
    if x == NameAt(0) {
      GeneratedNameCaptured(a, lit, k, op, v);
    } else {
      LowerableIsExact(Captured(a, lit, x, k, op, v));
    }
  }

  // ---------------------------------------------------------------- a subquery body draws the same names

  /** `eval_exists`: an outer row passes if some row of the body agrees with it on the variables the
      body binds and the outer row has. */
  function ExistsTest(body: seq<Row>, vars: set<string>): Row -> bool {
    (r: Row) => exists s :: s in body && Agrees(s.mu, r.mu, vars)
  }

  predicate Agrees(inner: Assignment, outer: Assignment, vars: set<string>) {
    forall v :: v in vars && v in outer ==> v in inner && inner[v] == outer[v]
  }

  function SemiJoin(outer: seq<Row>, body: seq<Row>, vars: set<string>): seq<Row> {
    FilterSeq(outer, ExistsTest(body, vars))
  }

  /** The body and the enclosing pattern are lowered one by one, each with a generator of its own. */
  ghost predicate BodyLowered(env: Env, p: PathPattern, body: PathPattern) {
    MapSeq(SemiJoin(Rows(Core(env), Forbidden, LoweredForm(p)), Rows(Core(env), Forbidden, LoweredForm(body)),
                    FreeVars(LoweredForm(body))), Drop(NamesOf(p)))
    == SemiJoin(Rows(Surface(env), Forbidden, p), Rows(Surface(env), Forbidden, body), FreeVars(body))
  }

  /** The two forms correlate on the same variables. */
  predicate SameCorrelation(p: PathPattern, body: PathPattern) {
    Declared(LoweredForm(p)) * FreeVars(LoweredForm(body)) == Declared(p) * FreeVars(body)
  }

  lemma {:induction false} InMapped<T, U>(s: seq<T>, f: T -> U, x: T)
    requires x in s
    ensures f(x) in MapSeq(s, f)
  {
    if x != s[0] {
      InMapped(s[1..], f, x);
    }
  }

  lemma AgreesDropped(inner: Assignment, outer: Assignment, fs: set<string>, fs': set<string>, hi: set<string>,
                      hi': set<string>, goneIn: set<string>, goneOut: set<string>)
    requires outer.Keys <= hi' && hi' * fs' == hi * fs && goneIn * fs == {} && goneOut * hi == {}
    requires fs <= fs' && hi <= hi'
    ensures Agrees(inner, outer, fs') <==> Agrees(inner - goneIn, outer - goneOut, fs)
  {
    forall v | v in fs' && v in outer ensures v in fs && v !in goneIn && v !in goneOut {
      assert v in hi' * fs' && v in hi * fs;
      assert v !in goneIn * fs && v !in goneOut * hi;
    }
  }

  /** An EXISTS keeps its verdict on a row if lowering adds no variable to the ones it correlates on. */
  lemma ExistsDropped(r: Row, body: seq<Row>, fs: set<string>, fs': set<string>, hi: set<string>, hi': set<string>,
                      goneIn: set<string>, goneOut: set<string>)
    requires r.mu.Keys <= hi' && hi' * fs' == hi * fs && goneIn * fs == {} && goneOut * hi == {}
    requires fs <= fs' && hi <= hi'
    ensures ExistsTest(MapSeq(body, Drop(goneIn)), fs)(Drop(goneOut)(r)) == ExistsTest(body, fs')(r)
  {
    forall s: Row ensures Agrees(s.mu, r.mu, fs') <==> Agrees(s.mu - goneIn, r.mu - goneOut, fs) {
      AgreesDropped(s.mu, r.mu, fs, fs', hi, hi', goneIn, goneOut);
    }
    var dropped := MapSeq(body, Drop(goneIn));
    if ExistsTest(body, fs')(r) {
      var s :| s in body && Agrees(s.mu, r.mu, fs');
      InMapped(body, Drop(goneIn), s);
      assert Drop(goneIn)(s) in dropped && Agrees(Drop(goneIn)(s).mu, Drop(goneOut)(r).mu, fs);
    }
    if ExistsTest(dropped, fs)(Drop(goneOut)(r)) {
      var t :| t in dropped && Agrees(t.mu, Drop(goneOut)(r).mu, fs);
      MapMember(body, Drop(goneIn), t);
      var s :| s in body && t == Drop(goneIn)(s);
      assert Agrees(s.mu, r.mu, fs');
    }
  }

  /** If lowering adds no correlation, an EXISTS filter keeps the rows it kept as written. */
  lemma BodyLoweringIsExact(env: Env, p: PathPattern, body: PathPattern)
    requires Picks(env) && StarDrops(env, NamesOf(p)) && StarDrops(env, NamesOf(body))
    requires Lowerable(p, NamesOf(p)) && Lowerable(body, NamesOf(body)) && SameCorrelation(p, body)
    ensures BodyLowered(env, p, body)
  {
    var p', body' := LoweredForm(p), LoweredForm(body);
    NamesAreFresh(p);
    NamesAreFresh(body);
    LowerHygienic(p, 0, Declared(p));
    LowerHygienic(body, 0, Declared(body));
    LoweringIsExact(env, Forbidden, p, 0, Declared(p), NamesOf(p));
    LoweringIsExact(env, Forbidden, body, 0, Declared(body), NamesOf(body));
    RowsBind(Core(env), Forbidden, p');
    var xs, ys := Rows(Core(env), Forbidden, p'), Rows(Core(env), Forbidden, body');
    forall r | r in xs
      ensures ExistsTest(MapSeq(ys, Drop(NamesOf(body))), FreeVars(body))(Drop(NamesOf(p))(r))
           == ExistsTest(ys, FreeVars(body'))(r)
    {
      ExistsDropped(r, ys, FreeVars(body), FreeVars(body'), Declared(p), Declared(p'), NamesOf(body), NamesOf(p));
    }
    FilterMap(xs, Drop(NamesOf(p)), ExistsTest(MapSeq(ys, Drop(NamesOf(body))), FreeVars(body)),
              ExistsTest(ys, FreeVars(body')));
  }

  /** Exactly one of the two nodes passes. */
  lemma OneOfTwo(ids: seq<Id>, test: Id -> bool, name: Option<string>, id: Id)
    requires ids == [0, 1] && id < 2 && test(id) && !test(1 - id)
    ensures FlatMap(FilterSeq(ids, test), NodeStep(name)) == [Row([[PNode(id)]], BindOpt(name, PNode(id)))]
  {
    var none: seq<Id>, last: seq<Id> := [], [1];
    assert ids[1..] == last && last[1..] == none && [id][1..] == none;
    assert FilterSeq(last, test) == if id == 1 then last else none;
    assert FilterSeq(ids, test) == [id];
    assert FlatMap([id], NodeStep(name)) == NodeStep(name)(id) + FlatMap(none, NodeStep(name));
  }

  lemma KeyedTest(env: Env, name: Option<string>, k: string, lit: Value, id: Id)
    ensures NodeTest(Surface(env), Keyed(name, k, lit).desc)(id) <==> FilterMeets(env.g.nodeProps(id), (k, Const(lit)))
  {
    var d := Keyed(name, k, lit).desc.value;
    assert d.valueFilters == [(k, Const(lit))] && d.valueFilters[0].1.Const?;
    assert PropsMatch(env.g.nodeProps(id), Open(map[]));
    assert ValueFiltersHold(env.g.nodeProps(id), d.valueFilters) <==>
        FilterMeets(env.g.nodeProps(id), d.valueFilters[0]);
  }

  lemma KeyedNarrows(env: Env, name: Option<string>, k: string, lit: Value)
    ensures Rows(Core(env), Forbidden, LoweredKeyed(name, k, lit))
         == FlatMap(FilterSeq(env.g.nodes, NodeTest(Surface(env), Keyed(name, k, lit).desc)),
                    NodeStep(Some(KeyedName(name))))
  {
    var d := Keyed(name, k, lit).desc.value;
    KeyedDesc(name, k, lit);
    NarrowedNodes(env, d, KeyedName(name));
  }

  lemma KeyedDesc(name: Option<string>, k: string, lit: Value)
    ensures var d := Keyed(name, k, lit).desc.value;
      && d.valueFilters != [] && LiteralsSound(d.props, d.valueFilters)
      && LoweredKeyed(name, k, lit)
        == Filter(Node(Some(LoweredDesc(d, KeyedName(name)))), FiltersExpr(KeyedName(name), d.valueFilters))
  {
    var f := (k, Const(lit));
    assert Keyed(name, k, lit).desc.value.valueFilters == [f];
    assert FiltersExpr(KeyedName(name), [f]) == EqExpr(KeyedName(name), f);
  }

  /** `(name {k: lit})` on a graph in which node `id` alone has that value. */
  lemma KeyedOfTwo(env: Env, name: Option<string>, k: string, lit: Value, id: Id)
    requires env.g.nodes == [0, 1] && id < 2
    requires FilterMeets(env.g.nodeProps(id), (k, Const(lit))) && !FilterMeets(env.g.nodeProps(1 - id), (k, Const(lit)))
    ensures Rows(Surface(env), Forbidden, Keyed(name, k, lit)) == [Row([[PNode(id)]], BindOpt(name, PNode(id)))]
    ensures Rows(Core(env), Forbidden, LoweredKeyed(name, k, lit))
         == [Row([[PNode(id)]], map[KeyedName(name) := PNode(id)])]
  {
    var test := NodeTest(Surface(env), Keyed(name, k, lit).desc);
    KeyedTest(env, name, k, lit, id);
    KeyedTest(env, name, k, lit, 1 - id);
    OneOfTwo(env.g.nodes, test, name, id);
    OneOfTwo(env.g.nodes, test, Some(KeyedName(name)), id);
    KeyedNarrows(env, name, k, lit);
  }

  /** Two different literals, each equal to itself only. */
  predicate Selective(u: Value, v: Value) {
    IsTrue(EvalCmp(Eq, u, u)) && IsTrue(EvalCmp(Eq, v, v)) && !IsTrue(EvalCmp(Eq, u, v)) && !IsTrue(EvalCmp(Eq, v, u))
  }

  lemma ExistsOne(r: Row, s: Row, vars: set<string>)
    ensures SemiJoin([r], [s], vars) == if Agrees(s.mu, r.mu, vars) then [r] else []
  {
    assert s in [s] && [r] == [r] + [];
    assert ExistsTest([s], vars)(r) == Agrees(s.mu, r.mu, vars);
    FilterCons(r, [], ExistsTest([s], vars));
  }

  lemma SameCorrelationWhen(name: Option<string>, inner: Option<string>, k: string, u: Value, v: Value)
    ensures SameCorrelation(Keyed(name, k, u), Keyed(inner, k, v))
            <==> KeyedName(name) != KeyedName(inner) || (name == inner && name.Some?)
  {
    KeyedLowers(name, k, u);
    KeyedLowers(inner, k, v);
    var x, y := KeyedName(name), KeyedName(inner);
    var shared := Declared(Keyed(name, k, u)) * FreeVars(Keyed(inner, k, v));
    assert FreeVars(Keyed(inner, k, v)) == if inner.Some? then {inner.value} else {};
    if x == y {
      assert {x} * {y} == {x};
      assert shared == {x} <==> name == inner && name.Some? by {
        assert x in shared <==> name == inner && name.Some?;
      }
    } else {
      assert {x} * {y} == {} == shared;
    }
  }

  ghost predicate BodyLoweredEverywhere(p: PathPattern, body: PathPattern) {
    forall env :: Picks(env) && StarDrops(env, NamesOf(p)) && StarDrops(env, NamesOf(body)) ==>
        BodyLowered(env, p, body)
  }

  /** Node 0 alone is `(name {k: u})`, node 1 alone `(inner {k: v})`. */
  ghost predicate Apart2(env: Env, k: string, u: Value, v: Value) {
    && env.g.nodes == [0, 1] && Selective(u, v)
    && env.g.nodeProps(0) == map[k := u] && env.g.nodeProps(1) == map[k := v]
  }

  /** As written, the body has a row, and nothing correlates it. */
  lemma BodyAsWritten(env: Env, name: Option<string>, inner: Option<string>, k: string, u: Value, v: Value)
    requires Apart2(env, k, u, v) && !(name == inner && name.Some?)
    ensures SemiJoin(Rows(Surface(env), Forbidden, Keyed(name, k, u)),
                     Rows(Surface(env), Forbidden, Keyed(inner, k, v)),
                     FreeVars(Keyed(inner, k, v))) == [Row([[PNode(0)]], BindOpt(name, PNode(0)))]
  {
    KeyedOfTwo(env, name, k, u, 0);
    KeyedOfTwo(env, inner, k, v, 1);
    var r, s := Row([[PNode(0)]], BindOpt(name, PNode(0))), Row([[PNode(1)]], BindOpt(inner, PNode(1)));
    KeyedVars(inner, k, v);
    assert Agrees(s.mu, r.mu, if inner.Some? then {inner.value} else {});
    ExistsOne(r, s, FreeVars(Keyed(inner, k, v)));
  }

  lemma KeyedVars(name: Option<string>, k: string, lit: Value)
    ensures FreeVars(Keyed(name, k, lit)) == if name.Some? then {name.value} else {}
  {
  }

  /** Lowered, both receive the same name: the body is correlated with a node it has nothing to do
      with. */
  lemma BodyAsLowered(env: Env, name: Option<string>, inner: Option<string>, k: string, u: Value, v: Value)
    requires Apart2(env, k, u, v) && KeyedName(name) == KeyedName(inner)
    ensures SemiJoin(Rows(Core(env), Forbidden, LoweredKeyed(name, k, u)),
                     Rows(Core(env), Forbidden, LoweredKeyed(inner, k, v)),
                     {KeyedName(inner)}) == []
  {
    var x := KeyedName(name);
    KeyedOfTwo(env, name, k, u, 0);
    KeyedOfTwo(env, inner, k, v, 1);
    var r, s := Row([[PNode(0)]], map[x := PNode(0)]), Row([[PNode(1)]], map[x := PNode(1)]);
    assert x in {x} && !Agrees(s.mu, r.mu, {x});
    ExistsOne(r, s, {x});
  }

  /** Node 0 with one value of `k`, node 1 with another. */
  ghost function TwoValues(k: string, u: Value, v: Value): (env: Env)
    ensures Picks(env) && (Selective(u, v) ==> Apart2(env, k, u, v))
    ensures forall pol, lb, vars, rows :: env.star(pol, lb, vars, rows) == []
  {
    var one := OneNode(map[], "", (mu: Assignment) => false);
    one.(g := one.g.(nodes := [0, 1], nodeProps := (id: Id) => if id == 0 then map[k := u] else map[k := v]))
  }

  lemma BodyRepeatsOuterName(name: Option<string>, inner: Option<string>, k: string, u: Value, v: Value)
    requires Selective(u, v) && KeyedName(name) == KeyedName(inner) && !(name == inner && name.Some?)
    ensures !BodyLoweredEverywhere(Keyed(name, k, u), Keyed(inner, k, v))
  {
    var p, body := Keyed(name, k, u), Keyed(inner, k, v);
    var env := TwoValues(k, u, v);
    KeyedLowers(name, k, u);
    KeyedLowers(inner, k, v);
    EmptyStar(env, NamesOf(p));
    EmptyStar(env, NamesOf(body));
    BodyAsWritten(env, name, inner, k, u, v);
    BodyAsLowered(env, name, inner, k, u, v);
    assert !BodyLowered(env, p, body);
  }

  /** An EXISTS filter keeps its rows, whatever it is run against, if and only if lowering makes the
      body share no name with the enclosing pattern that it did not share as written. */
  lemma BodyExactWhen(name: Option<string>, inner: Option<string>, k: string, u: Value, v: Value)
    requires Selective(u, v)
    ensures BodyLoweredEverywhere(Keyed(name, k, u), Keyed(inner, k, v))
            <==> SameCorrelation(Keyed(name, k, u), Keyed(inner, k, v))
    ensures BodyLoweredEverywhere(Keyed(name, k, u), Keyed(inner, k, v))
            <==> KeyedName(name) != KeyedName(inner) || (name == inner && name.Some?)
  {
    var p, body := Keyed(name, k, u), Keyed(inner, k, v);
    SameCorrelationWhen(name, inner, k, u, v);
    if SameCorrelation(p, body) {
      KeyedLowers(name, k, u);
      KeyedLowers(inner, k, v);
      forall env | Picks(env) && StarDrops(env, NamesOf(p)) && StarDrops(env, NamesOf(body))
        ensures BodyLowered(env, p, body)
      {
        BodyLoweringIsExact(env, p, body);
      }
    } else {
      BodyRepeatsOuterName(name, inner, k, u, v);
    }
  }
}
