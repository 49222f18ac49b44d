/** Where pushdown is exact and where it is not: families of filtered patterns, over every choice of
    names, attributes, types and comparisons, with the condition on the pattern under which the
    optimized one has the original's rows in every environment. */
module PushdownLimits {
  import opened Values
  import opened Syntax
  import opened RowAlgebra
  import opened Runtime
  import opened Evaluator
  import opened Scoping
  import opened StoredTypes
  import opened TypePush
  import opened Pushdown
  import opened PushdownRows
  import opened PushdownExact
  import opened ChainRows

  /** The optimized pattern has the original's rows, whatever stored graph it is run against. */
  ghost predicate PushExact(p: PathPattern, nulls: bool) {
    forall env: Env, pol: Policy :: StoredGraph(env.g, nulls) ==> Rows(env, pol, Rewrite(p)) == Rows(env, pol, p)
  }

  lemma PushableIsExact(p: PathPattern, nulls: bool)
    requires Pushable(p, nulls)
    ensures PushExact(p, nulls)
  {
    forall env: Env, pol: Policy | StoredGraph(env.g, nulls) ensures Rows(env, pol, Rewrite(p)) == Rows(env, pol, p) {
      PushdownIsExact(env, pol, p, nulls);
    }
  }

  lemma Differs(env: Env, p: PathPattern, nulls: bool)
    requires StoredGraph(env.g, nulls) && Rows(env, Forbidden, Rewrite(p)) != Rows(env, Forbidden, p)
    ensures !PushExact(p, nulls)
  {
  }

  // ---------------------------------------------------------------- one conjunct

  /** `x.attr IS t`, or `x.attr op literal` */
  function ExprOf(k: Constraint): Expr {
    match k
    case TypeTest(x, attr, t) => Binop(Is, AttrLookup(x, attr), TypeLit(t))
    case ValueTest(x, attr, op, lit) => Binop(Cmp(op), AttrLookup(x, attr), Const(lit))
  }

  /** Some stored value passes, and none where the attribute is missing. */
  ghost predicate Met(k: Constraint) {
    !PropsMeet(map[], k) && exists v :: Stored(v, false) && PropsMeet(map[k.attr := v], k)
  }

  /** An unconstrained descriptor can take it. */
  predicate Testable(k: Constraint, nulls: bool) {
    if k.TypeTest? then ExtendSound(Open(map[]), k.attr, k.ty, nulls) else !k.literal.PathRef?
  }

  predicate PushedFor(kinds: map<string, VarKind>, k: Constraint) {
    k.TypeTest? || (k.subject in kinds && kinds[k.subject].NodeKind?)
  }

  lemma OneConjunct(kinds: map<string, VarKind>, k: Constraint)
    ensures FlattenAnd(ExprOf(k)) == [ExprOf(k)]
    ensures Classify(kinds, ExprOf(k)) == (if PushedFor(kinds, k) then Some(k) else None)
    ensures Pushed(kinds, [ExprOf(k)]) == (if PushedFor(kinds, k) then [k] else [])
    ensures Kept(kinds, [ExprOf(k)]) == (if PushedFor(kinds, k) then [] else [ExprOf(k)])
  {
    var es := [ExprOf(k)];
    assert es[..0] == [] && Pushed(kinds, []) == [] && Kept(kinds, []) == [];
  }

  lemma RewriteOne(i: PathPattern, k: Constraint)
    ensures PushedAt(i, ExprOf(k)) == (if PushedFor(VarKinds(i), k) then [k] else [])
    ensures Rewrite(Filter(i, ExprOf(k))) ==
            if PushedFor(VarKinds(i), k) then Rewrite(Merge(i, [k])) else Filter(Rewrite(i), ExprOf(k))
  {
    OneConjunct(VarKinds(i), k);
    MergeKeepsShape(i, [k]);
  }

  /** On a row that binds the subject to an element, the conjunct and the constraint agree. */
  lemma ConjunctMeets(env: Env, r: Row, k: Constraint)
    requires BindsElement(r, k.subject)
    ensures AllTest(env, [ExprOf(k)])(r) == MeetTest(env.g, [k])(r)
    ensures MeetTest(env.g, [k])(r) == ElementMeets(env.g, r.mu[k.subject], k)
  {
    var kinds: map<string, VarKind> := map[k.subject := NodeKind];
    OneConjunct(kinds, k);
    ClassifiedMeets(env, r.mu, kinds, ExprOf(k));
    assert ExprOf(k) in [ExprOf(k)] && k in [k];
  }

  lemma UnboundFails(env: Env, r: Row, k: Constraint)
    requires k.subject !in r.mu && k.subject !in env.ambient
    ensures !AllTest(env, [ExprOf(k)])(r)
  {
    var e := ExprOf(k);
    assert e in [e] && Eval(env, [], r.mu, e.left) == Failure;
  }

  // ---------------------------------------------------------------- merging into a chain

  lemma RetainOne(k: Constraint, vars: set<string>)
    ensures RetainVars([k], vars) == if k.subject in vars then [k] else []
  {
    assert [k][1..] == [];
  }

  lemma PlainTakes(name: Option<string>, cs: seq<Constraint>, nulls: bool)
    requires |cs| <= 1 && forall k :: k in cs ==> Testable(k, nulls)
    ensures DescTakes(ChainRows.Plain(name), cs, nulls)
  {
    if |cs| == 1 {
      assert cs[0] in cs && cs[1..] == [];
    }
  }

  lemma {:induction false} ChainTakes(names: seq<Option<string>>, dirs: seq<EdgeDir>, cs: seq<Constraint>, nulls: bool)
    requires |names| == |dirs| + 1 && |cs| <= 1 && forall k :: k in cs ==> Testable(k, nulls)
    ensures var c := Chain(names, dirs);
      TypesTaken(c, cs, nulls) && Pushable(Merge(c, cs), nulls) && Rewrite(Merge(c, cs)) == Merge(c, cs)
    decreases |dirs|
  {
    var n := |dirs|;
    PlainTakes(names[n], cs, nulls);
    if n > 0 {
      var p, e, d := Chain(names[..n], dirs[..n - 1]), Edge(dirs[n - 1], None), Node(ChainRows.Plain(names[n]));
      ChainTakes(names[..n], dirs[..n - 1], cs, nulls);
      assert Merge(e, cs) == e && Merge(Concat(p, e), cs) == Concat(Merge(p, cs), e);
      assert Merge(Hop(p, dirs[n - 1], names[n]), cs) == Concat(Concat(Merge(p, cs), e), Merge(d, cs));
      assert Rewrite(Concat(Merge(p, cs), e)) == Concat(Merge(p, cs), e);
      assert TypesTaken(Concat(p, e), cs, nulls) && Pushable(Concat(Merge(p, cs), e), nulls);
    }
  }

  lemma ChainMergeable(names: seq<Option<string>>, dirs: seq<EdgeDir>, cs: seq<Constraint>, nulls: bool)
    requires |names| == |dirs| + 1 && |cs| <= 1 && forall k :: k in cs ==> Testable(k, nulls)
    ensures Mergeable(Chain(names, dirs), cs, nulls)
  {
    ChainVars(names, dirs);
    ChainTakes(names, dirs, cs, nulls);
    forall k | k in cs ensures MergeableOne(Chain(names, dirs), k) {
      ChainReachable(names, dirs, k.subject);
    }
  }

  /** A test on a variable of the chain goes into its descriptors. */
  lemma ChainPushable(names: seq<Option<string>>, dirs: seq<EdgeDir>, k: Constraint, nulls: bool)
    requires |names| == |dirs| + 1 && Testable(k, nulls) && k.subject in NamesIn(names)
    ensures Pushable(Filter(Chain(names, dirs), ExprOf(k)), nulls)
  {
    var c := Chain(names, dirs);
    RewriteOne(c, k);
    ChainVars(names, dirs);
    ChainMergeable(names, dirs, [k], nulls);
    ChainTakes(names, dirs, [k], nulls);
    ChainTakes(names, dirs, [], nulls);
    MergeUntouched(c, []);
    MergeKeepsShape(c, [k]);
  }

  lemma PrefixMergeable(names: seq<Option<string>>, dirs: seq<EdgeDir>, prefix: PathPrefix, k: Constraint, nulls: bool)
    requires |names| == |dirs| + 1 && Testable(k, nulls)
    requires prefix.search.All? || IsEnd(Chain(names, dirs), k.subject)
    ensures var i := Selected(prefix, Chain(names, dirs)); Mergeable(i, [k], nulls) && Pushable(Merge(i, [k]), nulls)
  {
    var c := Chain(names, dirs);
    var inside := if prefix.search.All? then [k] else RetainVars([k], Boundary(c));
    ChainVars(names, dirs);
    RetainOne(k, Boundary(c));
    ChainTakes(names, dirs, inside, nulls);
    ChainReachable(names, dirs, k.subject);
    SelectedMergeable(prefix, c, k, nulls);
  }

  lemma SelectedMergeable(prefix: PathPrefix, c: PathPattern, k: Constraint, nulls: bool)
    requires PathVars(c) == {} == EdgeVars(c) && Reachable(c, k.subject) && Testable(k, nulls)
    requires prefix.search.All? || IsEnd(c, k.subject)
    requires var inside := if prefix.search.All? then [k] else RetainVars([k], Boundary(c));
      TypesTaken(c, inside, nulls) && Pushable(Merge(c, inside), nulls)
    ensures Mergeable(Selected(prefix, c), [k], nulls) && Pushable(Merge(Selected(prefix, c), [k]), nulls)
  {
    var i := Selected(prefix, c);
    assert MergeableOne(i, k);
    assert TypesTaken(i, [k], nulls);
  }

  lemma PushableOne(i: PathPattern, k: Constraint, nulls: bool)
    requires PushedFor(VarKinds(i), k) && k.subject in Firm(i)
    requires Mergeable(i, [k], nulls) && Pushable(Merge(i, [k]), nulls)
    ensures Pushable(Filter(i, ExprOf(k)), nulls)
  {
    RewriteOne(i, k);
    MergeKeepsShape(i, [k]);
  }

  /** Under a prefix, a test on a variable that the prefix does not hide. */
  lemma PrefixPushable(names: seq<Option<string>>, dirs: seq<EdgeDir>, prefix: PathPrefix, k: Constraint, nulls: bool)
    requires |names| == |dirs| + 1 && Testable(k, nulls) && k.subject in NamesIn(names)
    requires prefix.search.All? || IsEnd(Chain(names, dirs), k.subject)
    ensures Pushable(Filter(Selected(prefix, Chain(names, dirs)), ExprOf(k)), nulls)
  {
    var c := Chain(names, dirs);
    ChainVars(names, dirs);
    PrefixMergeable(names, dirs, prefix, k, nulls);
    PrefixKinds(prefix, c, k.subject);
    PushableOne(Selected(prefix, c), k, nulls);
  }

  lemma PrefixKinds(prefix: PathPrefix, c: PathPattern, x: string)
    requires x in VarKinds(c) && VarKinds(c)[x].NodeKind? && (prefix.search.All? || IsEnd(c, x))
    ensures x in VarKinds(Selected(prefix, c)) && VarKinds(Selected(prefix, c))[x].NodeKind?
  {
    if !prefix.search.All? {
      EndsAreBoundary(c, x);
    }
  }

  // ---------------------------------------------------------------- the endpoints of a selective prefix

  /** A filter on a variable that every row binds is its constraint. */
  lemma WrittenRows(env: Env, pol: Policy, i: PathPattern, k: Constraint)
    requires k.subject in Firm(i)
    ensures Rows(env, pol, Filter(i, ExprOf(k))) == FilterSeq(Rows(env, pol, i), MeetTest(env.g, [k]))
  {
    var rows := Rows(env, pol, i);
    forall r | r in rows ensures BindsElement(r, k.subject) {
      FirmBinds(env, pol, i, r, k.subject);
    }
    ConjunctsMeet(env, rows, k);
    FilterRows(env, pol, i, ExprOf(k));
  }

  lemma FilterRows(env: Env, pol: Policy, i: PathPattern, e: Expr)
    ensures Rows(env, pol, Filter(i, e)) == FilterSeq(Rows(env, pol, i), AllTest(env, [e]))
  {
  }

  lemma ConjunctsMeet(env: Env, rows: seq<Row>, k: Constraint)
    requires forall r :: r in rows ==> BindsElement(r, k.subject)
    ensures FilterSeq(rows, AllTest(env, [ExprOf(k)])) == FilterSeq(rows, MeetTest(env.g, [k]))
  {
    forall r | r in rows ensures AllTest(env, [ExprOf(k)])(r) == MeetTest(env.g, [k])(r) {
      ConjunctMeets(env, r, k);
    }
    FilterCongruence(rows, AllTest(env, [ExprOf(k)]), MeetTest(env.g, [k]));
  }

  /** Optimized under ANY 1: the test first, then the selection. */
  lemma OptimizedRows(env: Env, c: PathPattern, k: Constraint, nulls: bool)
    requires k.subject in Boundary(c) && StoredGraph(env.g, nulls)
    requires Mergeable(c, [k], nulls) && Rewrite(Merge(c, [k])) == Merge(c, [k])
    ensures Rows(env, Forbidden, Rewrite(Filter(Selected(AnyOne(), c), ExprOf(k))))
         == ApplyPrefix(FilterSeq(Rows(env, Forbidden, c), MeetTest(env.g, [k])), AnyOne())
  {
    MergeExact(env, Forbidden, c, [k], nulls);
    RewrittenSelected(c, k);
    SelectedRows(env, Merge(c, [k]));
  }

  lemma RewrittenSelected(c: PathPattern, k: Constraint)
    requires k.subject in Boundary(c) && Rewrite(Merge(c, [k])) == Merge(c, [k])
    ensures Rewrite(Filter(Selected(AnyOne(), c), ExprOf(k))) == Selected(AnyOne(), Merge(c, [k]))
  {
    RewriteOne(Selected(AnyOne(), c), k);
    RetainOne(k, Boundary(c));
    assert Merge(Selected(AnyOne(), c), [k]) == Selected(AnyOne(), Merge(c, [k]));
  }

  /** The node whose having the attribute tells the two apart: not the one the first row binds. */
  lemma OtherNode(env: Env, rows: seq<Row>, first: Row, k: Constraint, e: Id, v: Value)
    requires env == Complete(e, k.attr, v) && !PropsMeet(map[], k)
    requires BindsElement(first, k.subject) && first.mu[k.subject] != PNode(e)
    ensures !MeetTest(env.g, [k])(first)
  {
    ConjunctMeets(env, first, k);
  }

  lemma SamePartition(r0: Row, r1: Row, names: seq<Option<string>>, x: string)
    requires Leads(r0, names, x, 0) && Leads(r1, names, x, 1)
    requires names[0] != Some(x) && names[|names| - 1] != Some(x)
    ensures KeyOf(r0) == KeyOf(r1)
  {
  }

  lemma PartitionStarts(rows: seq<Row>, r: Row)
    requires r in rows
    ensures var part := Partition(rows, KeyOf(r)); part != [] && part[0] in rows
  {
    var same := (s: Row) => KeyOf(s) == KeyOf(r);
    FilterMember(rows, same, r);
    FilterMember(rows, same, Partition(rows, KeyOf(r))[0]);
  }

  /** Two paths between the same endpoints, the second of which alone passes the test. */
  lemma InteriorRows(names: seq<Option<string>>, dirs: seq<EdgeDir>, k: Constraint, v: Value) returns (e: Id, r: Row)
    requires |names| == |dirs| + 1 && !PropsMeet(map[], k) && PropsMeet(map[k.attr := v], k)
    requires k.subject in NamesIn(names) && names[0] != Some(k.subject) && names[|dirs|] != Some(k.subject)
    ensures var env := Complete(e, k.attr, v);
      Overtaken(Rows(env, Forbidden, Chain(names, dirs)), MeetTest(env.g, [k]), r)
  {
    var c, x := Chain(names, dirs), k.subject;
    ChainBinds(names, dirs);
    var base := Complete(0, k.attr, v);
    var rows := Rows(base, Forbidden, c);
    var r0 := ChainThere(base, Forbidden, names, dirs, x, 0);
    var r1 := ChainThere(base, Forbidden, names, dirs, x, 1);
    SamePartition(r0, r1, names, x);
    PartitionStarts(rows, r0);
    var first := Partition(rows, KeyOf(r0))[0];
    FirmBinds(base, Forbidden, c, first, x);
    e := if first.mu[x] == PNode(0) then 1 else 0;
    var env := Complete(e, k.attr, v);
    ChainSame(base, env, Forbidden, names, dirs);
    OtherNode(env, rows, first, k, e, v);
    r := if e == 0 then r0 else r1;
    ConjunctMeets(env, r, k);
  }

  /** The first and last named nodes are taken for the endpoints.  If a named node that is neither
      the first nor the last element passes for one, its test is evaluated before ANY 1 selects,
      although two paths between the same endpoints may bind it differently. */
  lemma InteriorPushed(names: seq<Option<string>>, dirs: seq<EdgeDir>, k: Constraint, nulls: bool)
    requires |names| == |dirs| + 1 && Testable(k, nulls) && Met(k)
    requires k.subject in Boundary(Chain(names, dirs)) && !IsEnd(Chain(names, dirs), k.subject)
    ensures !PushExact(Filter(Selected(AnyOne(), Chain(names, dirs)), ExprOf(k)), nulls)
  {
    var c := Chain(names, dirs);
    var v :| Stored(v, false) && PropsMeet(map[k.attr := v], k);
    ChainVars(names, dirs);
    BoundaryNamed(names, dirs);
    var e, r := InteriorRows(names, dirs, k, v);
    var env := Complete(e, k.attr, v);
    CompleteStored(e, k.attr, v, nulls);
    ChainMergeable(names, dirs, [k], nulls);
    ChainTakes(names, dirs, [k], nulls);
    PushedDiffers(env, c, k, r, nulls);
  }

  lemma PushedDiffers(env: Env, c: PathPattern, k: Constraint, r: Row, nulls: bool)
    requires k.subject in Boundary(c) && k.subject in Firm(c) && StoredGraph(env.g, nulls)
    requires Mergeable(c, [k], nulls) && Rewrite(Merge(c, [k])) == Merge(c, [k])
    requires Overtaken(Rows(env, Forbidden, c), MeetTest(env.g, [k]), r)
    ensures !PushExact(Filter(Selected(AnyOne(), c), ExprOf(k)), nulls)
  {
    OrderMatters(Rows(env, Forbidden, c), MeetTest(env.g, [k]), r);
    SelectedFirm(c);
    WrittenRows(env, Forbidden, Selected(AnyOne(), c), k);
    SelectedRows(env, c);
    OptimizedRows(env, c, k, nulls);
    Differs(env, Filter(Selected(AnyOne(), c), ExprOf(k)), nulls);
  }

  lemma SelectedFirm(c: PathPattern)
    ensures Firm(Selected(AnyOne(), c)) == Firm(c)
  {
  }

  lemma SelectedRows(env: Env, c: PathPattern)
    ensures Rows(env, Forbidden, Selected(AnyOne(), c)) == ApplyPrefix(Rows(env, Forbidden, c), AnyOne())
  {
    RowsOfSelected(env, Forbidden, AnyOne(), c);
  }

  lemma RowsOfSelected(env: Env, pol: Policy, prefix: PathPrefix, c: PathPattern)
    ensures Rows(env, pol, Selected(prefix, c)) == ApplyPrefix(Rows(env, PolicyFor(prefix), c), prefix)
  {
    var p := Selected(prefix, c);
    assert Rows(env, pol, p) == ApplyPrefix(Rows(env, PolicyFor(p.prefix), p.inner), p.prefix);
  }

  /** Exact under every selective prefix. */
  ghost predicate SelectiveExact(c: PathPattern, k: Constraint, nulls: bool) {
    forall prefix: PathPrefix :: !prefix.search.All? ==> PushExact(Filter(Selected(prefix, c), ExprOf(k)), nulls)
  }

  lemma SelectivePushed(names: seq<Option<string>>, dirs: seq<EdgeDir>, k: Constraint, nulls: bool)
    requires |names| == |dirs| + 1 && Testable(k, nulls) && IsEnd(Chain(names, dirs), k.subject)
    ensures SelectiveExact(Chain(names, dirs), k, nulls)
  {
    var c := Chain(names, dirs);
    EndsAreBoundary(c, k.subject);
    BoundaryNamed(names, dirs);
    forall prefix: PathPrefix | !prefix.search.All? ensures PushExact(Filter(Selected(prefix, c), ExprOf(k)), nulls) {
      PrefixPushable(names, dirs, prefix, k, nulls);
      PushableIsExact(Filter(Selected(prefix, c), ExprOf(k)), nulls);
    }
  }

  lemma NotPushed(names: seq<Option<string>>, dirs: seq<EdgeDir>, k: Constraint, nulls: bool)
    requires |names| == |dirs| + 1 && k.ValueTest? && k.subject !in Boundary(Chain(names, dirs))
    ensures SelectiveExact(Chain(names, dirs), k, nulls)
  {
    var c := Chain(names, dirs);
    ChainVars(names, dirs);
    forall prefix: PathPrefix | !prefix.search.All? ensures PushExact(Filter(Selected(prefix, c), ExprOf(k)), nulls) {
      RewriteOne(Selected(prefix, c), k);
      assert VarKinds(Selected(prefix, c)) == map[] + map y | y in Boundary(c) :: NodeKind;
      assert Rewrite(Selected(prefix, c)) == Selected(prefix, c);
    }
  }

  /** Pushing a comparison under a selective prefix is exact in every environment if and only if the
      variable, when the pass takes it for an endpoint, is one. */
  lemma SelectiveValueExactWhen(names: seq<Option<string>>, dirs: seq<EdgeDir>, k: Constraint, nulls: bool)
    requires |names| == |dirs| + 1 && k.ValueTest? && Testable(k, nulls) && Met(k)
    ensures SelectiveExact(Chain(names, dirs), k, nulls) <==>
            (k.subject in Boundary(Chain(names, dirs)) ==> IsEnd(Chain(names, dirs), k.subject))
  {
    var c := Chain(names, dirs);
    if k.subject !in Boundary(c) {
      NotPushed(names, dirs, k, nulls);
    } else if IsEnd(c, k.subject) {
      SelectivePushed(names, dirs, k, nulls);
    } else {
      InteriorPushed(names, dirs, k, nulls);
      assert !AnyOne().search.All?;
    }
  }

  /** `ANY 1 ()-[]-(x)-[]-() WHERE x.attr op literal`: the middle node is the only named one, and the
      pass takes it for both endpoints. */
  lemma UnnamedEndpoints(d1: EdgeDir, d2: EdgeDir, x: string, attr: string, op: CmpOp, lit: Value, nulls: bool)
    requires Met(ValueTest(x, attr, op, lit)) && !lit.PathRef?
    ensures var i := Chain([None, Some(x), None], [d1, d2]);
      && Boundary(i) == {x} && !IsEnd(i, x)
      && !PushExact(Filter(Selected(AnyOne(), i), ExprOf(ValueTest(x, attr, op, lit))), nulls)
  {
    var names, dirs := [None, Some(x), None], [d1, d2];
    var i := Chain(names, dirs);
    ChainVars(names, dirs);
    var top := CollectTop(i);
    assert NamesIn(names) == {x} by {
      assert names[1] in names;
    }
    assert x in top && forall y :: y in top ==> y == x;
    assert top[0] in top && top[|top| - 1] in top;
    InteriorPushed(names, dirs, ValueTest(x, attr, op, lit), nulls);
  }

  // ---------------------------------------------------------------- tests that reach no descriptor

  /** Where no element has the attribute, the written filter drops every row. */
  lemma NothingPasses(env: Env, rows: seq<Row>, c: PathPattern, k: Constraint)
    requires !PropsMeet(map[], k) && env.ambient == map[] && Firm(c) == Declared(c)
    requires forall id: Id :: env.g.nodeProps(id) == map[] && env.g.edgeProps(id) == map[]
    requires forall r :: r in rows ==> r in Rows(env, Forbidden, c)
    ensures FilterSeq(rows, AllTest(env, [ExprOf(k)])) == []
  {
    RowsBind(env, Forbidden, c);
    forall r | r in rows ensures !AllTest(env, [ExprOf(k)])(r) {
      if k.subject in Declared(c) {
        FirmBinds(env, Forbidden, c, r, k.subject);
        ConjunctMeets(env, r, k);
      } else {
        UnboundFails(env, r, k);
      }
    }
    FilterNonePass(rows, AllTest(env, [ExprOf(k)]));
  }

  /** The complete graph without properties. */
  ghost function NoProps(): (env: Env)
    ensures OnComplete(env) && env.ambient == map[]
    ensures forall id: Id :: env.g.nodeProps(id) == map[] && env.g.edgeProps(id) == map[]
  {
    var env := Complete(2, "", Null);
    env.(g := env.g.(nodeProps := (id: Id) => map[]))
  }

  /** No prefix, ALL, or ANY 1. */
  predicate Over(i: PathPattern, c: PathPattern) {
    i == c || i == Selected(AnyOne(), c) || i == Selected(PathPrefix(Walk, All), c)
  }

  lemma OverRows(env: Env, i: PathPattern, c: PathPattern, r: Row)
    requires Over(i, c) && r in Rows(env, Forbidden, c)
    ensures Rows(env, Forbidden, i) != [] && forall s :: s in Rows(env, Forbidden, i) ==> s in Rows(env, Forbidden, c)
  {
    var rows := Rows(env, Forbidden, c);
    if i == Selected(PathPrefix(Walk, All), c) {
      FilterAllPass(rows, ModeTest(Walk));
      SelectAll(rows, rows, []);
    } else if i == Selected(AnyOne(), c) {
      SelectedRows(env, c);
      PrefixPicks(rows, KeyOf(r));
      PartitionStarts(rows, r);
      assert Partition([], KeyOf(r)) == [];
      forall s | s in Rows(env, Forbidden, i) ensures s in rows {
        PrefixMember(rows, AnyOne(), s);
      }
    }
  }

  /** A dropped test: the optimized pattern is the pattern without the filter. */
  lemma DroppedDiffers(names: seq<Option<string>>, dirs: seq<EdgeDir>, i: PathPattern, k: Constraint, nulls: bool)
    requires |names| == |dirs| + 1 && !PropsMeet(map[], k)
    requires Over(i, Chain(names, dirs)) && Rewrite(Filter(i, ExprOf(k))) == i
    ensures !PushExact(Filter(i, ExprOf(k)), nulls)
  {
    var env, c := NoProps(), Chain(names, dirs);
    var r := ChainThere(env, Forbidden, names, dirs, "", 0);
    OverRows(env, i, c, r);
    ChainVars(names, dirs);
    NothingPasses(env, Rows(env, Forbidden, i), c, k);
    Differs(env, Filter(i, ExprOf(k)), nulls);
  }

  /** Under a selective prefix, a type test on any variable but an endpoint: the pass either pushes it
      as if it were one, or drops it.  `x` may be interior or not declared at all. */
  lemma SelectiveTypeExactWhen(names: seq<Option<string>>, dirs: seq<EdgeDir>, k: Constraint, nulls: bool)
    requires |names| == |dirs| + 1 && k.TypeTest? && Testable(k, nulls) && Met(k)
    ensures SelectiveExact(Chain(names, dirs), k, nulls) <==> IsEnd(Chain(names, dirs), k.subject)
  {
    var c := Chain(names, dirs);
    assert !AnyOne().search.All?;
    if IsEnd(c, k.subject) {
      SelectivePushed(names, dirs, k, nulls);
    } else if k.subject in Boundary(c) {
      InteriorPushed(names, dirs, k, nulls);
    } else {
      InteriorDropped(names, dirs, k, nulls);
    }
  }

  /** An interior variable of a selective prefix: the test leaves the WHERE and goes nowhere. */
  lemma InteriorDropped(names: seq<Option<string>>, dirs: seq<EdgeDir>, k: Constraint, nulls: bool)
    requires |names| == |dirs| + 1 && k.TypeTest? && !AdmitsNull(k.ty) && k.subject !in Boundary(Chain(names, dirs))
    ensures var i := Selected(AnyOne(), Chain(names, dirs));
      Rewrite(Filter(i, ExprOf(k))) == i && !PushExact(Filter(i, ExprOf(k)), nulls)
  {
    var c := Chain(names, dirs);
    var i := Selected(AnyOne(), c);
    RewriteOne(i, k);
    RetainOne(k, Boundary(c));
    MergeUntouched(c, []);
    ChainVars(names, dirs);
    assert Merge(i, [k]) == i && Rewrite(i) == i;
    DroppedDiffers(names, dirs, i, k, nulls);
  }

  /** `(a)-[]-(x)-[]-(b)` under ANY 1, with a type test on `x`. */
  lemma InteriorVariable(a: string, x: string, b: string, d1: EdgeDir, d2: EdgeDir, attr: string, t: SimpleType,
                         nulls: bool)
    requires x != a && x != b && !AdmitsNull(t)
    ensures var i := Selected(AnyOne(), Chain([Some(a), Some(x), Some(b)], [d1, d2]));
      var p := Filter(i, ExprOf(TypeTest(x, attr, t)));
      Rewrite(p) == i && !PushExact(p, nulls)
  {
    var names, dirs := [Some(a), Some(x), Some(b)], [d1, d2];
    ChainVars(names, dirs);
    StartIsFirst(Chain(names, dirs));
    EndIsLast(Chain(names, dirs));
    InteriorDropped(names, dirs, TypeTest(x, attr, t), nulls);
  }

  /** A variable the pattern does not declare: the filter rejects every row, the rewrite none. */
  lemma UndeclaredDropped(names: seq<Option<string>>, dirs: seq<EdgeDir>, k: Constraint, nulls: bool)
    requires |names| == |dirs| + 1 && k.TypeTest? && !AdmitsNull(k.ty) && k.subject !in NamesIn(names)
    ensures var (c, all) := (Chain(names, dirs), Selected(PathPrefix(Walk, All), Chain(names, dirs)));
      && Rewrite(Filter(c, ExprOf(k))) == c && !PushExact(Filter(c, ExprOf(k)), nulls)
      && Rewrite(Filter(all, ExprOf(k))) == all && !PushExact(Filter(all, ExprOf(k)), nulls)
  {
    var c := Chain(names, dirs);
    var all := Selected(PathPrefix(Walk, All), c);
    RewriteOne(c, k);
    RewriteOne(all, k);
    ChainVars(names, dirs);
    MergeUntouched(c, [k]);
    assert Merge(all, [k]) == all && Rewrite(all) == all;
    DroppedDiffers(names, dirs, c, k, nulls);
    DroppedDiffers(names, dirs, all, k, nulls);
  }

  /** Without a prefix, and under ALL with any mode, pushing a type test is exact in every environment
      if and only if the pattern declares the variable. */
  lemma TypeExactWhen(names: seq<Option<string>>, dirs: seq<EdgeDir>, k: Constraint, nulls: bool)
    requires |names| == |dirs| + 1 && k.TypeTest? && Testable(k, nulls)
    ensures PushExact(Filter(Chain(names, dirs), ExprOf(k)), nulls) <==> k.subject in NamesIn(names)
    ensures (forall mode :: PushExact(Filter(Selected(PathPrefix(mode, All), Chain(names, dirs)), ExprOf(k)), nulls))
            <==> k.subject in NamesIn(names)
  {
    var c := Chain(names, dirs);
    if k.subject in NamesIn(names) {
      ChainPushable(names, dirs, k, nulls);
      PushableIsExact(Filter(c, ExprOf(k)), nulls);
      forall mode ensures PushExact(Filter(Selected(PathPrefix(mode, All), c), ExprOf(k)), nulls) {
        PrefixPushable(names, dirs, PathPrefix(mode, All), k, nulls);
        PushableIsExact(Filter(Selected(PathPrefix(mode, All), c), ExprOf(k)), nulls);
      }
    } else {
      UndeclaredDropped(names, dirs, k, nulls);
    }
  }

  // ---------------------------------------------------------------- one node

  /** A graph with one node. */
  ghost function OneElement(labels: set<string>, props: Props): Env {
    var env := Complete(2, "", Null);
    env.(g := env.g.(nodes := [0], nodeLabels := (id: Id) => labels, nodeProps := (id: Id) => props))
  }

  lemma OneElementStored(labels: set<string>, props: Props, nulls: bool)
    requires StoredProps(props, nulls)
    ensures StoredGraph(OneElement(labels, props).g, nulls)
  {
  }

  /** A named node pattern that tests labels and the record only. */
  predicate Simple(d: Descriptor) {
    d.name.Some? && d.valuePreds == [] && d.valueFilters == []
  }

  lemma OneElementRows(d: Descriptor, props: Props)
    requires Simple(d)
    ensures var env := OneElement(d.labels, props);
      NodeRows(env, Some(d)) == if PropsMatch(props, d.props) then [NodeRow(0, d.name)] else []
  {
    var env := OneElement(d.labels, props);
    var ids: seq<Id>, none: seq<Id> := [0], [];
    assert ids[1..] == none;
    assert env.g.nodeLabels(0) == d.labels && env.g.nodeProps(0) == props && !env.surface;
    assert ValuePredsHold(props, d.valuePreds);
    assert NodeTest(env, Some(d))(0) == PropsMatch(props, d.props);
    assert FilterSeq(ids, NodeTest(env, Some(d))) == if PropsMatch(props, d.props) then ids else none;
    assert FlatMap(ids, NodeStep(d.name)) == NodeStep(d.name)(0) + FlatMap(none, NodeStep(d.name));
  }

  function Extended(d: Descriptor, attr: string, t: SimpleType): Descriptor {
    d.(props := Extend(d.props, attr, t))
  }

  /** Reads the same record through the descriptor alone, and through the descriptor and the filter. */
  lemma OneElementFiltered(d: Descriptor, props: Props, e: Expr)
    requires Simple(d)
    ensures var env := OneElement(d.labels, props);
      Rows(env, Forbidden, Filter(Node(Some(d)), e))
      == if PropsMatch(props, d.props) && AllTest(env, [e])(NodeRow(0, d.name)) then [NodeRow(0, d.name)] else []
  {
    OneElementRows(d, props);
    SingleFiltered(NodeRow(0, d.name), AllTest(OneElement(d.labels, props), [e]));
  }

  lemma TestRead(d: Descriptor, props: Props, attr: string, t: SimpleType)
    requires Simple(d)
    ensures AllTest(OneElement(d.labels, props), [ExprOf(TypeTest(d.name.value, attr, t))])(NodeRow(0, d.name))
            <==> ValueIsType(PropOrNull(props, attr), t)
  {
    ConjunctMeets(OneElement(d.labels, props), NodeRow(0, d.name), TypeTest(d.name.value, attr, t));
  }

  lemma NodePushable(d: Descriptor, e: Expr, cs: seq<Constraint>, nulls: bool)
    requires Simple(d) && PushedAt(Node(Some(d)), e) == cs
    requires (forall k :: k in cs ==> k.TypeTest? && k.subject == d.name.value)
      && TypesSound(d.props, d.name.value, cs, nulls)
    ensures Pushable(Filter(Node(Some(d)), e), nulls)
  {
    MergeKeepsShape(Node(Some(d)), cs);
    forall k | k in cs ensures MergeableOne(Node(Some(d)), k) && k.subject in Firm(Node(Some(d))) {
    }
  }

  lemma MergedOne(d: Descriptor, attr: string, t: SimpleType)
    requires Simple(d)
    ensures var cs := [TypeTest(d.name.value, attr, t)];
      && MergeIntoNode(Some(d), cs) == Some(Extended(d, attr, t))
      && (forall nulls :: TypesSound(d.props, d.name.value, cs, nulls) <==> ExtendSound(d.props, attr, t, nulls))
  {
    var x := d.name.value;
    var cs: seq<Constraint>, none: seq<Constraint> := [TypeTest(x, attr, t)], [];
    assert cs[1..] == none;
    assert MergeTypes(d.props, x, cs) == MergeTypes(Extend(d.props, attr, t), x, none);
    assert MergeValues(d.valuePreds, x, cs) == MergeValues(d.valuePreds, x, none);
  }

  /** On a single node, pushing `x.attr IS t` is exact for every stored graph if and only if the node
      is `x` and its descriptor can be extended soundly. */
  lemma OneNodeExactWhen(d: Descriptor, x: string, attr: string, t: SimpleType, nulls: bool)
    requires Simple(d) && !d.props.Bottom? && Inhabited(d.props, nulls)
    ensures PushExact(Filter(Node(Some(d)), ExprOf(TypeTest(x, attr, t))), nulls)
            <==> d.name == Some(x) && ExtendSound(d.props, attr, t, nulls)
  {
    var i, k := Node(Some(d)), TypeTest(x, attr, t);
    RewriteOne(i, k);
    MergedOne(d, attr, t);
    if d.name != Some(x) {
      var props := Witness(d.props.fields);
      var env := OneElement(d.labels, props);
      WitnessMatches(d.props, nulls);
      MergeUntouched(i, [k]);
      OneElementRows(d, props);
      OneElementFiltered(d, props, ExprOf(k));
      UnboundFails(env, NodeRow(0, d.name), k);
      OneElementStored(d.labels, props, nulls);
      Differs(env, Filter(i, ExprOf(k)), nulls);
    } else if ExtendSound(d.props, attr, t, nulls) {
      NodePushable(d, ExprOf(k), [k], nulls);
      PushableIsExact(Filter(i, ExprOf(k)), nulls);
    } else {
      var props := ExtendUnsoundDiffers(d.props, attr, t, nulls);
      OneElementRows(Extended(d, attr, t), props);
      OneElementFiltered(d, props, ExprOf(k));
      TestRead(d, props, attr, t);
      OneElementStored(d.labels, props, nulls);
      Differs(OneElement(d.labels, props), Filter(i, ExprOf(k)), nulls);
    }
  }

  // ---------------------------------------------------------------- two tests of one attribute

  /** `x.attr IS t AND x.attr IS u` */
  function TwoTests(x: string, attr: string, t: SimpleType, u: SimpleType): Expr {
    Binop(And, ExprOf(TypeTest(x, attr, t)), ExprOf(TypeTest(x, attr, u)))
  }

  lemma TwoPushed(i: PathPattern, x: string, attr: string, t: SimpleType, u: SimpleType)
    ensures PushedAt(i, TwoTests(x, attr, t, u)) == [TypeTest(x, attr, t), TypeTest(x, attr, u)]
    ensures Kept(VarKinds(i), FlattenAnd(TwoTests(x, attr, t, u))) == []
  {
    var k, l := TypeTest(x, attr, t), TypeTest(x, attr, u);
    OneConjunct(VarKinds(i), k);
    OneConjunct(VarKinds(i), l);
    var es := [ExprOf(k), ExprOf(l)];
    assert FlattenAnd(TwoTests(x, attr, t, u)) == [ExprOf(k)] + [ExprOf(l)] == es;
    assert es[..1] == [ExprOf(k)];
  }

  lemma MergedTwo(d: Descriptor, attr: string, t: SimpleType, u: SimpleType)
    requires Simple(d)
    ensures var cs := [TypeTest(d.name.value, attr, t), TypeTest(d.name.value, attr, u)];
      && MergeIntoNode(Some(d), cs) == Some(Extended(Extended(d, attr, t), attr, u))
      && (forall nulls :: TypesSound(d.props, d.name.value, cs, nulls) <==>
            ExtendSound(d.props, attr, t, nulls) && ExtendSound(Extended(d, attr, t).props, attr, u, nulls))
  {
    var x := d.name.value;
    var k, l := TypeTest(x, attr, t), TypeTest(x, attr, u);
    var cs, last := [k, l], [l];
    assert cs[1..] == last;
    MergedOne(Extended(d, attr, t), attr, u);
    assert MergeTypes(d.props, x, cs) == MergeTypes(Extend(d.props, attr, t), x, last);
    assert MergeValues(d.valuePreds, x, cs) == MergeValues(d.valuePreds, x, last);
    forall nulls ensures TypesSound(d.props, x, cs, nulls) <==>
        ExtendSound(d.props, attr, t, nulls) && TypesSound(Extend(d.props, attr, t), x, last, nulls) {
    }
  }

  lemma BothRead(d: Descriptor, props: Props, attr: string, t: SimpleType, u: SimpleType)
    requires Simple(d)
    ensures AllTest(OneElement(d.labels, props), [TwoTests(d.name.value, attr, t, u)])(NodeRow(0, d.name))
            <==> ValueIsType(PropOrNull(props, attr), t) && ValueIsType(PropOrNull(props, attr), u)
  {
    var env, x := OneElement(d.labels, props), d.name.value;
    TestRead(d, props, attr, t);
    TestRead(d, props, attr, u);
    var e, f := ExprOf(TypeTest(x, attr, t)), ExprOf(TypeTest(x, attr, u));
    assert e in [e] && f in [f] && TwoTests(x, attr, t, u) in [TwoTests(x, attr, t, u)];
    HoldsAnd(env, NodeRow(0, d.name).mu, e, f);
  }

  /** A second test of the attribute replaces the first in the descriptor: once the first is pushed
      soundly, pushing both is exact for every stored graph if and only if the second is sound on top
      of it, that is, no wider. */
  lemma SecondTestExactWhen(d: Descriptor, attr: string, t: SimpleType, u: SimpleType, nulls: bool)
    requires Simple(d) && !d.props.Bottom? && ExtendSound(d.props, attr, t, nulls)
    requires Inhabited(Extended(d, attr, t).props, nulls)
    ensures PushExact(Filter(Node(Some(d)), TwoTests(d.name.value, attr, t, u)), nulls)
            <==> ExtendSound(Extended(d, attr, t).props, attr, u, nulls)
  {
    var i, x := Node(Some(d)), d.name.value;
    var e, cs := TwoTests(x, attr, t, u), [TypeTest(x, attr, t), TypeTest(x, attr, u)];
    TwoPushed(i, x, attr, t, u);
    MergedTwo(d, attr, t, u);
    MergeKeepsShape(i, cs);
    if ExtendSound(Extended(d, attr, t).props, attr, u, nulls) {
      NodePushable(d, e, cs, nulls);
      PushableIsExact(Filter(i, e), nulls);
    } else {
      SecondTestDiffers(d, attr, t, u, nulls);
    }
  }

  lemma SecondTestDiffers(d: Descriptor, attr: string, t: SimpleType, u: SimpleType, nulls: bool)
    requires Simple(d) && !d.props.Bottom? && ExtendSound(d.props, attr, t, nulls)
    requires Inhabited(Extended(d, attr, t).props, nulls) && !ExtendSound(Extended(d, attr, t).props, attr, u, nulls)
    requires Rewrite(Filter(Node(Some(d)), TwoTests(d.name.value, attr, t, u)))
         == Node(Some(Extended(Extended(d, attr, t), attr, u)))
    ensures !PushExact(Filter(Node(Some(d)), TwoTests(d.name.value, attr, t, u)), nulls)
  {
    var e := TwoTests(d.name.value, attr, t, u);
    var props := ExtendUnsoundDiffers(Extended(d, attr, t).props, attr, u, nulls);
    ExtendSoundAgrees(props, d.props, attr, t, nulls);
    OneElementRows(Extended(Extended(d, attr, t), attr, u), props);
    OneElementFiltered(d, props, e);
    BothRead(d, props, attr, t, u);
    OneElementStored(d.labels, props, nulls);
    Differs(OneElement(d.labels, props), Filter(Node(Some(d)), e), nulls);
  }

  /** `(x) WHERE x.attr IS int AND x.attr IS string` holds of nothing; optimized, the node is asked for
      a string only. */
  lemma IntAndString(x: string, attr: string)
    ensures !PushExact(Filter(Node(ChainRows.Plain(Some(x))), TwoTests(x, attr, IntType, StrType)), false)
    ensures Rewrite(Filter(Node(ChainRows.Plain(Some(x))), TwoTests(x, attr, IntType, StrType)))
         == Node(Some(Descriptor(Some(x), {}, Open(map[attr := StrType]), [], [])))
  {
    var d := ChainRows.Plain(Some(x)).value;
    TwoPushed(Node(Some(d)), x, attr, IntType, StrType);
    MergedTwo(d, attr, IntType, StrType);
    MergeKeepsShape(Node(Some(d)), [TypeTest(x, attr, IntType), TypeTest(x, attr, StrType)]);
    assert map[][attr := IntType][attr := StrType] == map[attr := StrType];
    assert StrType in Admitted(StrType) && StrType !in Admitted(IntType) && IntType in Admitted(IntType);
    SecondTestExactWhen(d, attr, IntType, StrType, false);
  }
}
