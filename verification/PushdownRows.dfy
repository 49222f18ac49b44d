/** Merging constraints into descriptors selects exactly the rows that meet them. */
module PushdownRows {
  import opened Values
  import opened Syntax
  import opened RowAlgebra
  import opened Runtime
  import opened Evaluator
  import opened Scoping
  import opened Pushdown
  import opened StoredTypes
  import opened TypePush

  // ---------------------------------------------------------------- what a constraint asks of a row

  predicate PropsMeet(props: Props, k: Constraint) {
    match k
    case TypeTest(_, attr, ty) => ValueIsType(PropOrNull(props, attr), ty)
    case ValueTest(_, attr, op, lit) => IsTrue(EvalCmp(op, PropOrNull(props, attr), lit))
  }

  /** Only elements are constrained: a padded, grouped or path value passes. */
  predicate ElementMeets(g: Graph, pv: PathValue, k: Constraint) {
    match pv
    case PNode(id) => PropsMeet(g.nodeProps(id), k)
    case PEdge(id, _) => PropsMeet(g.edgeProps(id), k)
    case _ => true
  }

  predicate Meets(g: Graph, mu: Assignment, cs: seq<Constraint>) {
    forall k :: k in cs && k.subject in mu ==> ElementMeets(g, mu[k.subject], k)
  }

  function MeetTest(g: Graph, cs: seq<Constraint>): Row -> bool {
    (r: Row) => Meets(g, r.mu, cs)
  }

  // ---------------------------------------------------------------- when a pattern can absorb one

  /** Everything in the graph is a stored value. */
  ghost predicate StoredGraph(g: Graph, nulls: bool) {
    forall id: Id :: StoredProps(g.nodeProps(id), nulls) && StoredProps(g.edgeProps(id), nulls)
  }

  /** The type tests on `x` among `cs`, pushed one after the other, each into what the ones before it
      left of the record. */
  predicate TypesSound(pt: PropertyType, x: string, cs: seq<Constraint>, nulls: bool)
    decreases |cs|
  {
    cs == [] ||
    (if cs[0].TypeTest? && cs[0].subject == x
     then ExtendSound(pt, cs[0].attr, cs[0].ty, nulls)
     && TypesSound(Extend(pt, cs[0].attr, cs[0].ty), x, cs[1..], nulls)
     else TypesSound(pt, x, cs[1..], nulls))
  }

  predicate DescTakes(d: Option<Descriptor>, cs: seq<Constraint>, nulls: bool) {
    d.Some? && d.value.name.Some? ==> TypesSound(d.value.props, d.value.name.value, cs, nulls)
  }

  /** Every descriptor can take the type tests that a merge puts into it. */
  predicate TypesTaken(p: PathPattern, cs: seq<Constraint>, nulls: bool) {
    match p
    case Node(d) => DescTakes(d, cs, nulls)
    case Edge(_, d) => DescTakes(d, cs, nulls)
    case Concat(a, b) => TypesTaken(a, cs, nulls) && TypesTaken(b, cs, nulls)
    case Union(a, b) => TypesTaken(a, cs, nulls) && TypesTaken(b, cs, nulls)
    case Join(a, b) => TypesTaken(a, cs, nulls) && TypesTaken(b, cs, nulls)
    case Filter(i, _) => TypesTaken(i, cs, nulls)
    case Repeat(i, _, _) => TypesTaken(i, cs, nulls)
    case Questioned(i) => TypesTaken(i, cs, nulls)
    case Named(_, i) => TypesTaken(i, cs, nulls)
    case Selected(prefix, i) => TypesTaken(i, if prefix.search.All? then cs else RetainVars(cs, Boundary(i)), nulls)
  }

  function EdgeVars(p: PathPattern): set<string> {
    match p
    case Node(d) => {}
    case Edge(_, d) => DescVars(d)
    case Concat(a, b) => EdgeVars(a) + EdgeVars(b)
    case Union(a, b) => EdgeVars(a) + EdgeVars(b)
    case Join(a, b) => EdgeVars(a) + EdgeVars(b)
    case Filter(i, _) => EdgeVars(i)
    case Repeat(i, _, _) => EdgeVars(i)
    case Questioned(i) => EdgeVars(i)
    case Selected(_, i) => EdgeVars(i)
    case Named(_, i) => EdgeVars(i)
  }

  /** The variable of the node every path of the pattern starts at. */
  function StartVar(p: PathPattern): Option<string> {
    match p
    case Node(d) => NameOf(d)
    case Concat(a, _) => StartVar(a)
    case Filter(i, _) => StartVar(i)
    case Named(x, i) => if StartVar(i) == Some(x) then None else StartVar(i)
    case _ => None
  }

  function EndVar(p: PathPattern): Option<string> {
    match p
    case Node(d) => NameOf(d)
    case Concat(_, b) => EndVar(b)
    case Filter(i, _) => EndVar(i)
    case Named(x, i) => if EndVar(i) == Some(x) then None else EndVar(i)
    case _ => None
  }

  predicate IsEnd(p: PathPattern, x: string) {
    StartVar(p) == Some(x) || EndVar(p) == Some(x)
  }

  /** Every occurrence of `x` can take a constraint: none repeats, and under a selective prefix `x`
      names an endpoint. */
  predicate Reachable(p: PathPattern, x: string) {
    match p
    case Node(_) => true
    case Edge(_, _) => true
    case Concat(a, b) => Reachable(a, x) && Reachable(b, x)
    case Union(a, b) => Reachable(a, x) && Reachable(b, x)
    case Join(a, b) => Reachable(a, x) && Reachable(b, x)
    case Filter(i, _) => Reachable(i, x)
    case Repeat(i, _, _) => x !in FreeVars(i)
    case Questioned(i) => Reachable(i, x)
    case Selected(prefix, i) => Reachable(i, x) && (prefix.search.All? || x !in FreeVars(i) || IsEnd(i, x))
    case Named(_, i) => Reachable(i, x)
  }

  /** Values go to node variables, and paths are never compared. */
  predicate MergeableOne(p: PathPattern, k: Constraint) {
    && k.subject !in PathVars(p)
    && Reachable(p, k.subject)
    && (k.ValueTest? ==> k.subject !in EdgeVars(p) && !k.literal.PathRef?)
  }

  predicate Mergeable(p: PathPattern, cs: seq<Constraint>, nulls: bool) {
    TypesTaken(p, cs, nulls) && forall k :: k in cs ==> MergeableOne(p, k)
  }

  // ---------------------------------------------------------------- one descriptor

  /** Each sound extension adds one test. */
  lemma {:induction false} MergedTypesMatch(props: Props, pt: PropertyType, x: string, cs: seq<Constraint>, nulls: bool)
    requires StoredProps(props, nulls) && TypesSound(pt, x, cs, nulls)
    ensures PropsMatch(props, MergeTypes(pt, x, cs)) <==>
            PropsMatch(props, pt) && forall k :: k in cs && k.TypeTest? && k.subject == x ==> PropsMeet(props, k)
    decreases |cs|
  {
    if cs != [] {
      var k, rest := cs[0], cs[1..];
      assert cs == [k] + rest;
      if k.TypeTest? && k.subject == x {
        MergedTypesMatch(props, Extend(pt, k.attr, k.ty), x, rest, nulls);
        ExtendSoundAgrees(props, pt, k.attr, k.ty, nulls);
      } else {
        MergedTypesMatch(props, pt, x, rest, nulls);
      }
    }
  }

  lemma {:induction false} MergedValuesHold(props: Props, preds: seq<(string, CmpOp, Value)>, x: string,
                                            cs: seq<Constraint>)
    requires forall k :: k in cs && k.ValueTest? ==> !k.literal.PathRef?
    ensures ValuePredsHold(props, MergeValues(preds, x, cs)) <==>
            ValuePredsHold(props, preds) && forall k :: k in cs && k.ValueTest? && k.subject == x ==>
                PropsMeet(props, k)
    decreases |cs|
  {
    if cs != [] {
      var k, rest := cs[0], cs[1..];
      assert cs == [k] + rest;
      if k.ValueTest? && k.subject == x {
        MergedValuesHold(props, preds + [(k.attr, k.op, k.literal)], x, rest);
        PushedComparisonAgrees(PropOrNull(props, k.attr), k.op, k.literal);
        ValuePredsSnoc(props, preds, (k.attr, k.op, k.literal));
      } else {
        MergedValuesHold(props, preds, x, rest);
      }
    }
  }

  lemma ValuePredsSnoc(props: Props, preds: seq<(string, CmpOp, Value)>, v: (string, CmpOp, Value))
    ensures ValuePredsHold(props, preds + [v]) <==>
            ValuePredsHold(props, preds) && v.0 in props && CmpValues(props[v.0], v.1, v.2)
  {
    var all := preds + [v];
    assert all[|preds|] == v;
    assert forall i :: 0 <= i < |preds| ==> all[i] == preds[i];
  }

  /** The constraints of `cs` on variable `name`, read off one element. */
  predicate NamedMeets(props: Props, name: Option<string>, cs: seq<Constraint>) {
    forall k :: k in cs && name == Some(k.subject) ==> PropsMeet(props, k)
  }

  lemma MergedNodeMatches(surface: bool, labels: set<string>, props: Props, d: Option<Descriptor>, cs: seq<Constraint>,
                          nulls: bool)
    requires StoredProps(props, nulls) && DescTakes(d, cs, nulls)
    requires forall k :: k in cs && k.ValueTest? ==> !k.literal.PathRef?
    ensures ElementMatches(surface, labels, props, MergeIntoNode(d, cs)) <==>
            ElementMatches(surface, labels, props, d) && NamedMeets(props, NameOf(d), cs)
  {
    if d.Some? && d.value.name.Some? {
      var x := d.value.name.value;
      MergedValuesHold(props, d.value.valuePreds, x, cs);
      MergedTypesMatch(props, d.value.props, x, cs, nulls);
    }
  }

  lemma MergedEdgeMatches(surface: bool, labels: set<string>, props: Props, d: Option<Descriptor>, cs: seq<Constraint>,
                          nulls: bool)
    requires StoredProps(props, nulls) && DescTakes(d, cs, nulls)
    requires forall k :: k in cs && k.ValueTest? ==> k.subject !in DescVars(d)
    ensures ElementMatches(surface, labels, props, MergeIntoEdge(d, cs)) <==>
            ElementMatches(surface, labels, props, d) && NamedMeets(props, NameOf(d), cs)
  {
    if d.Some? && d.value.name.Some? {
      MergedTypesMatch(props, d.value.props, d.value.name.value, cs, nulls);
    }
  }

  // ---------------------------------------------------------------- element patterns

  /** Filtering what a step yields, when the step's rows stand or fall together. */
  lemma {:induction false} FilterFlatMap(ids: seq<Id>, step: Id -> seq<Row>, f: Row -> bool, keep: Id -> bool)
    requires forall id, r :: id in ids && r in step(id) ==> f(r) == keep(id)
    ensures FilterSeq(FlatMap(ids, step), f) == FlatMap(FilterSeq(ids, keep), step)
  {
    if ids != [] {
      var id := ids[0];
      assert id in ids;
      assert forall i :: i in ids[1..] ==> i in ids;
      FilterFlatMap(ids[1..], step, f, keep);
      FilterAppend(step(id), FlatMap(ids[1..], step), f);
      if keep(id) {
        FilterAllPass(step(id), f);
        assert ([id] + FilterSeq(ids[1..], keep))[1..] == FilterSeq(ids[1..], keep);
      } else {
        FilterNonePass(step(id), f);
      }
    }
  }

  lemma {:induction false} FilterNonePass<T>(s: seq<T>, f: T -> bool)
    requires forall x :: x in s ==> !f(x)
    ensures FilterSeq(s, f) == []
  {
    if s != [] {
      assert s[0] in s;
      assert forall x :: x in s[1..] ==> x in s;
      FilterNonePass(s[1..], f);
    }
  }

  /** Narrowing the element test is filtering the rows. */
  lemma NarrowedStep(ids: seq<Id>, test: Id -> bool, test': Id -> bool, step: Id -> seq<Row>, f: Row -> bool,
                     keep: Id -> bool)
    requires forall id :: test'(id) == (test(id) && keep(id))
    requires forall id, r :: r in step(id) ==> f(r) == keep(id)
    ensures FlatMap(FilterSeq(ids, test'), step) == FilterSeq(FlatMap(FilterSeq(ids, test), step), f)
  {
    FilterFlatMap(FilterSeq(ids, test), step, f, keep);
    FilterFilter(ids, test, keep, test');
  }

  /** A row that binds one element, or none, under `name`. */
  lemma BoundMeets(g: Graph, name: Option<string>, pv: PathValue, props: Props, cs: seq<Constraint>)
    requires forall k :: k in cs ==> ElementMeets(g, pv, k) == PropsMeet(props, k)
    ensures Meets(g, BindOpt(name, pv), cs) == NamedMeets(props, name, cs)
  {
    var mu := BindOpt(name, pv);
    if name.Some? {
      assert mu[name.value] == pv;
      if Meets(g, mu, cs) {
        forall k | k in cs && name == Some(k.subject) ensures PropsMeet(props, k) {
          assert ElementMeets(g, mu[k.subject], k);
        }
      }
    }
  }

  lemma MergeNode(env: Env, d: Option<Descriptor>, cs: seq<Constraint>, nulls: bool)
    requires StoredGraph(env.g, nulls) && Mergeable(Node(d), cs, nulls)
    ensures NodeRows(env, MergeIntoNode(d, cs)) == FilterSeq(NodeRows(env, d), MeetTest(env.g, cs))
  {
    assert forall k :: k in cs ==> MergeableOne(Node(d), k);
    var keep := (id: Id) => NamedMeets(env.g.nodeProps(id), NameOf(d), cs);
    forall id: Id ensures NodeTest(env, MergeIntoNode(d, cs))(id) == (NodeTest(env, d)(id) && keep(id)) {
      MergedNodeMatches(env.surface, env.g.nodeLabels(id), env.g.nodeProps(id), d, cs, nulls);
    }
    forall id: Id, r | r in NodeStep(NameOf(d))(id) ensures MeetTest(env.g, cs)(r) == keep(id) {
      BoundMeets(env.g, NameOf(d), PNode(id), env.g.nodeProps(id), cs);
    }
    NarrowedStep(env.g.nodes, NodeTest(env, d), NodeTest(env, MergeIntoNode(d, cs)), NodeStep(NameOf(d)),
                 MeetTest(env.g, cs), keep);
  }

  lemma EdgeRowMeets(g: Graph, dir: EdgeDir, name: Option<string>, id: Id, r: Row, cs: seq<Constraint>)
    requires r in RowsOfEdge(g, dir, name, id)
    ensures Meets(g, r.mu, cs) == NamedMeets(g.edgeProps(id), name, cs)
  {
    EdgeStepBinds(g, dir, name, id);
    BoundMeets(g, name, PEdge(id, !(dir.Undirected? || dir.AnyDirection?)), g.edgeProps(id), cs);
  }

  lemma MergeEdgeOf(env: Env, dir: EdgeDir, d: Option<Descriptor>, cs: seq<Constraint>, nulls: bool)
    requires StoredGraph(env.g, nulls) && Mergeable(Edge(dir, d), cs, nulls)
    ensures EdgeRowsOf(env, dir, MergeIntoEdge(d, cs)) == FilterSeq(EdgeRowsOf(env, dir, d), MeetTest(env.g, cs))
  {
    assert forall k :: k in cs ==> MergeableOne(Edge(dir, d), k);
    var keep := (id: Id) => NamedMeets(env.g.edgeProps(id), NameOf(d), cs);
    forall id: Id ensures EdgeTest(env, MergeIntoEdge(d, cs))(id) == (EdgeTest(env, d)(id) && keep(id)) {
      MergedEdgeMatches(env.surface, env.g.edgeLabels(id), env.g.edgeProps(id), d, cs, nulls);
    }
    forall id: Id, r | r in EdgeStep(env.g, dir, NameOf(d))(id) ensures MeetTest(env.g, cs)(r) == keep(id) {
      EdgeRowMeets(env.g, dir, NameOf(d), id, r, cs);
    }
    NarrowedStep(if dir.Undirected? then env.g.undirectedEdges else env.g.directedEdges,
                 EdgeTest(env, d), EdgeTest(env, MergeIntoEdge(d, cs)), EdgeStep(env.g, dir, NameOf(d)),
                 MeetTest(env.g, cs), keep);
  }

  lemma MergeEdge(env: Env, dir: EdgeDir, d: Option<Descriptor>, cs: seq<Constraint>, nulls: bool)
    requires StoredGraph(env.g, nulls) && Mergeable(Edge(dir, d), cs, nulls)
    ensures EdgeRows(env, dir, MergeIntoEdge(d, cs)) == FilterSeq(EdgeRows(env, dir, d), MeetTest(env.g, cs))
  {
    if dir.AnyDirection? {
      forall any: EdgeDir, k | k in cs ensures MergeableOne(Edge(any, d), k) {
        assert MergeableOne(Edge(dir, d), k);
      }
      MergeEdgeOf(env, Right, d, cs, nulls);
      MergeEdgeOf(env, Left, d, cs, nulls);
      MergeEdgeOf(env, Undirected, d, cs, nulls);
      var f := MeetTest(env.g, cs);
      FilterAppend(EdgeRowsOf(env, Right, d) + EdgeRowsOf(env, Left, d), EdgeRowsOf(env, Undirected, d), f);
      FilterAppend(EdgeRowsOf(env, Right, d), EdgeRowsOf(env, Left, d), f);
    } else {
      MergeEdgeOf(env, dir, d, cs, nulls);
    }
  }

  // ---------------------------------------------------------------- pairing

  lemma {:induction false} FilterPairBoth<T>(xs: seq<T>, ys: seq<T>, c: (T, T) -> bool, m: (T, T) -> T, f: T -> bool)
    requires forall x, y :: x in xs && y in ys && c(x, y) ==> f(m(x, y)) == (f(x) && f(y))
    ensures FilterSeq(PairAll(xs, ys, c, m), f) == PairAll(FilterSeq(xs, f), FilterSeq(ys, f), c, m)
  {
    if xs != [] {
      assert xs[0] in xs;
      assert forall x :: x in xs[1..] ==> x in xs;
      FilterPairBoth(xs[1..], ys, c, m, f);
      FilterAppend(PairOne(xs[0], ys, c, m), PairAll(xs[1..], ys, c, m), f);
      if f(xs[0]) {
        FilterPairOneRight(xs[0], ys, c, m, f, f);
        PairCons(xs[0], FilterSeq(xs[1..], f), FilterSeq(ys, f), c, m);
      } else {
        FilterPairOneLeft(xs[0], ys, c, m, f, false);
      }
    }
  }

  /** Where two assignments agree on the constrained variables, the union meets what both meet. */
  lemma MeetsUnion(g: Graph, m1: Assignment, m2: Assignment, cs: seq<Constraint>)
    requires forall k :: k in cs && k.subject in m1 && k.subject in m2 ==> m1[k.subject] == m2[k.subject]
    ensures Meets(g, m1 + m2, cs) == (Meets(g, m1, cs) && Meets(g, m2, cs))
  {
    if Meets(g, m1 + m2, cs) {
      forall k | k in cs && k.subject in m1 ensures ElementMeets(g, m1[k.subject], k) {
        assert k.subject in m1 + m2 && (m1 + m2)[k.subject] == m1[k.subject];
      }
      forall k | k in cs && k.subject in m2 ensures ElementMeets(g, m2[k.subject], k) {
        assert k.subject in m1 + m2 && (m1 + m2)[k.subject] == m2[k.subject];
      }
    }
  }

  /** Two rows of a pattern pairing agree on the constrained variables they share. */
  ghost predicate PairsAgree(xs: seq<Row>, ys: seq<Row>, c: (Row, Row) -> bool, m: (Row, Row) -> Row,
                             cs: seq<Constraint>) {
    forall x, y :: x in xs && y in ys && c(x, y) ==>
      && m(x, y).mu == x.mu + y.mu
      && forall k :: k in cs && k.subject in x.mu && k.subject in y.mu ==> x.mu[k.subject] == y.mu[k.subject]
  }

  lemma MergePair(g: Graph, xs: seq<Row>, ys: seq<Row>, xs': seq<Row>, ys': seq<Row>,
                  c: (Row, Row) -> bool, m: (Row, Row) -> Row, cs: seq<Constraint>)
    requires PairsAgree(xs, ys, c, m, cs)
    requires xs' == FilterSeq(xs, MeetTest(g, cs)) && ys' == FilterSeq(ys, MeetTest(g, cs))
    ensures PairAll(xs', ys', c, m) == FilterSeq(PairAll(xs, ys, c, m), MeetTest(g, cs))
  {
    var f := MeetTest(g, cs);
    forall x, y | x in xs && y in ys && c(x, y) ensures f(m(x, y)) == (f(x) && f(y)) {
      MeetsUnion(g, x.mu, y.mu, cs);
    }
    FilterPairBoth(xs, ys, c, m, f);
  }

  lemma JoinAgrees(env: Env, pol: Policy, a: PathPattern, b: PathPattern, cs: seq<Constraint>)
    requires forall k :: k in cs ==> k.subject !in PathVars(a) && k.subject !in PathVars(b)
    ensures PairsAgree(Rows(env, pol, a), Rows(env, pol, b), JoinTest(env, FreeVars(a) * FreeVars(b)), JoinMerge, cs)
  {
    RowsBind(env, pol, a);
    RowsBind(env, pol, b);
    JoinedAgree(env, Rows(env, pol, a), Rows(env, pol, b), FreeVars(a), PathVars(a), FreeVars(b), PathVars(b), cs);
  }

  lemma JoinedAgree(env: Env, xs: seq<Row>, ys: seq<Row>, fa: set<string>, pa: set<string>, fb: set<string>,
                    pb: set<string>,
                    cs: seq<Constraint>)
    requires forall k :: k in cs ==> k.subject !in pa && k.subject !in pb
    requires Binds(xs, {}, fa + pa) && Binds(ys, {}, fb + pb)
    ensures PairsAgree(xs, ys, JoinTest(env, fa * fb), JoinMerge, cs)
  {
    forall x, y, k | x in xs && y in ys && JoinTest(env, fa * fb)(x, y) && k in cs
                   && k.subject in x.mu && k.subject in y.mu
      ensures x.mu[k.subject] == y.mu[k.subject]
    {
      assert k.subject in x.mu.Keys && k.subject in y.mu.Keys;
      assert k.subject in fa * fb;
    }
  }

  // ---------------------------------------------------------------- path prefixes

  /** Rows with the same endpoints get the same verdict. */
  ghost predicate KeyDetermined(rows: seq<Row>, f: Row -> bool) {
    forall r, s :: r in rows && s in rows && KeyOf(r) == KeyOf(s) ==> f(r) == f(s)
  }

  lemma PartitionKept(rows: seq<Row>, all: seq<Row>, r: Row, f: Row -> bool)
    requires KeyDetermined(all, f) && r in all && f(r)
    requires forall s :: s in rows ==> s in all
    ensures Partition(FilterSeq(rows, f), KeyOf(r)) == Partition(rows, KeyOf(r))
  {
    var same := (s: Row) => KeyOf(s) == KeyOf(r);
    FilterFilter(rows, f, same, same);
  }

  /** A test that the endpoints decide keeps or drops whole partitions, so it commutes with any
      selection made inside each partition. */
  lemma {:induction false} SelectionCommutes(search: PathSearch, rest: seq<Row>, all: seq<Row>, seen: seq<Row>,
                                             f: Row -> bool)
    requires KeyDetermined(all, f) && all == seen + rest
    ensures FilterSeq(SelectFrom(search, rest, all, seen), f)
         == SelectFrom(search, FilterSeq(rest, f), FilterSeq(all, f), FilterSeq(seen, f))
    decreases |rest|
  {
    if rest != [] {
      var r := rest[0];
      assert rest == [r] + rest[1..];
      assert all == (seen + [r]) + rest[1..];
      SelectionCommutes(search, rest[1..], all, seen + [r], f);
      FilterAppend(seen, [r], f);
      SingleFiltered(r, f);
      if f(r) {
        assert r in all;
        PartitionKept(all, all, r, f);
        PartitionKept(seen, all, r, f);
        assert FilterSeq(rest, f)[1..] == FilterSeq(rest[1..], f);
        FilterCons(r, SelectFrom(search, rest[1..], all, seen + [r]), f);
      } else {
        FilterCons(r, SelectFrom(search, rest[1..], all, seen + [r]), f);
        assert FilterSeq(seen + [r], f) == FilterSeq(seen, f);
      }
    }
  }

  lemma SingleFiltered(r: Row, f: Row -> bool)
    ensures FilterSeq([r], f) == if f(r) then [r] else []
  {
    assert [r][1..] == [];
  }

  lemma FiltersSwap<T>(rows: seq<T>, f: T -> bool, g: T -> bool)
    ensures FilterSeq(FilterSeq(rows, f), g) == FilterSeq(FilterSeq(rows, g), f)
  {
    var both := (r: T) => f(r) && g(r);
    FilterFilter(rows, f, g, both);
    FilterFilter(rows, g, f, both);
  }

  /** ISO/IEC 39075:2024 section 16.6: endpoint selection before or after the choice of paths. */
  lemma PrefixCommutes(rows: seq<Row>, prefix: PathPrefix, f: Row -> bool)
    requires KeyDetermined(rows, f)
    ensures ApplyPrefix(FilterSeq(rows, f), prefix) == FilterSeq(ApplyPrefix(rows, prefix), f)
  {
    var valid := FilterSeq(rows, ModeTest(prefix.mode));
    forall r | r in valid ensures r in rows {
      FilterMember(rows, ModeTest(prefix.mode), r);
    }
    FiltersSwap(rows, f, ModeTest(prefix.mode));
    SelectionCommutes(prefix.search, valid, valid, [], f);
  }

  lemma {:induction false} SelectAll(rest: seq<Row>, all: seq<Row>, seen: seq<Row>)
    ensures SelectFrom(All, rest, all, seen) == rest
    decreases |rest|
  {
    if rest != [] {
      SelectAll(rest[1..], all, seen + [rest[0]]);
    }
  }

  /** ALL chooses nothing, so any test commutes with it. */
  lemma AllCommutes(rows: seq<Row>, mode: PathMode, f: Row -> bool)
    ensures ApplyPrefix(FilterSeq(rows, f), PathPrefix(mode, All))
         == FilterSeq(ApplyPrefix(rows, PathPrefix(mode, All)), f)
  {
    var valid := FilterSeq(rows, ModeTest(mode));
    var valid' := FilterSeq(FilterSeq(rows, f), ModeTest(mode));
    SelectAll(valid, valid, []);
    SelectAll(valid', valid', []);
    FiltersSwap(rows, f, ModeTest(mode));
  }

  // ---------------------------------------------------------------- endpoints

  ghost predicate StartsAt(r: Row, x: string) {
    x in r.mu && FirstNode(FirstPath(r)).Some? && r.mu[x] == PNode(FirstNode(FirstPath(r)).value)
  }

  ghost predicate EndsAt(r: Row, x: string) {
    x in r.mu && LastNode(LastPath(r)).Some? && r.mu[x] == PNode(LastNode(LastPath(r)).value)
  }

  lemma NodeRowEnds(env: Env, d: Option<Descriptor>, r: Row)
    requires r in NodeRows(env, d) && NameOf(d).Some?
    ensures StartsAt(r, NameOf(d).value) && EndsAt(r, NameOf(d).value)
  {
    FlatMapMember(FilterSeq(env.g.nodes, NodeTest(env, d)), NodeStep(NameOf(d)), r);
  }

  lemma ConcatStarts(r1: Row, r2: Row, x: string)
    requires ConcatCompat(r1, r2) && StartsAt(r1, x)
    ensures StartsAt(ConcatMerge(r1, r2), x)
  {
    assert r1.mu[x] == (r1.mu + r2.mu)[x];
  }

  lemma ConcatEnds(r1: Row, r2: Row, x: string)
    requires ConcatCompat(r1, r2) && EndsAt(r2, x)
    ensures EndsAt(ConcatMerge(r1, r2), x)
  {
    var ext := LastPath(r2);
    var n := |r1.paths| - 1;
    var joined := r1.paths[n] + ext[1..];
    assert LastPath(ConcatMerge(r1, r2)) == joined;
    if |ext| == 1 {
      assert joined == r1.paths[n];
    } else {
      assert joined[|joined| - 1] == ext[|ext| - 1];
    }
  }

  lemma {:induction false} StartBinds(env: Env, pol: Policy, p: PathPattern, r: Row)
    requires r in Rows(env, pol, p) && StartVar(p).Some?
    ensures StartsAt(r, StartVar(p).value)
    decreases p
  {
    match p
    case Node(d) => NodeRowEnds(env, d, r);
    case Concat(a, b) =>
      var x, y := PairMember(Rows(env, pol, a), Rows(env, pol, b), ConcatCompat, ConcatMerge, r);
      StartBinds(env, pol, a, x);
      ConcatStarts(x, y, StartVar(a).value);
    case Filter(i, e) =>
      FilterMember(Rows(env, pol, i), AllTest(env, [e]), r);
      StartBinds(env, pol, i, r);
    case Named(v, i) =>
      MapMember(Rows(env, pol, i), NameRow(v), r);
      var s :| s in Rows(env, pol, i) && r == NameRow(v)(s);
      StartBinds(env, pol, i, s);
    case _ =>
  }

  lemma {:induction false} EndBinds(env: Env, pol: Policy, p: PathPattern, r: Row)
    requires r in Rows(env, pol, p) && EndVar(p).Some?
    ensures EndsAt(r, EndVar(p).value)
    decreases p
  {
    match p
    case Node(d) => NodeRowEnds(env, d, r);
    case Concat(a, b) =>
      var x, y := PairMember(Rows(env, pol, a), Rows(env, pol, b), ConcatCompat, ConcatMerge, r);
      EndBinds(env, pol, b, y);
      ConcatEnds(x, y, EndVar(b).value);
    case Filter(i, e) =>
      FilterMember(Rows(env, pol, i), AllTest(env, [e]), r);
      EndBinds(env, pol, i, r);
    case Named(v, i) =>
      MapMember(Rows(env, pol, i), NameRow(v), r);
      var s :| s in Rows(env, pol, i) && r == NameRow(v)(s);
      EndBinds(env, pol, i, s);
    case _ =>
  }

  /** The pass finds a named endpoint: it is the first, or the last, top-level node variable. */
  lemma {:induction false} StartIsFirst(p: PathPattern)
    requires StartVar(p).Some?
    ensures CollectTop(p) != [] && CollectTop(p)[0] == StartVar(p).value
  {
    match p
    case Concat(a, _) => StartIsFirst(a);
    case Filter(i, _) => StartIsFirst(i);
    case Named(_, i) => StartIsFirst(i);
    case _ =>
  }

  lemma {:induction false} EndIsLast(p: PathPattern)
    requires EndVar(p).Some?
    ensures CollectTop(p) != [] && CollectTop(p)[|CollectTop(p)| - 1] == EndVar(p).value
  {
    match p
    case Concat(_, b) => EndIsLast(b);
    case Filter(i, _) => EndIsLast(i);
    case Named(_, i) => EndIsLast(i);
    case _ =>
  }

  lemma EndsAreBoundary(p: PathPattern, x: string)
    requires IsEnd(p, x)
    ensures x in Boundary(p)
  {
    if StartVar(p) == Some(x) { StartIsFirst(p); }
    if EndVar(p) == Some(x) { EndIsLast(p); }
  }

  /** Constraints on endpoint variables are decided by the endpoints. */
  lemma EndpointTest(env: Env, pol: Policy, p: PathPattern, cs: seq<Constraint>)
    requires forall k :: k in cs ==> k.subject !in PathVars(p) && (k.subject in FreeVars(p) ==> IsEnd(p, k.subject))
    ensures KeyDetermined(Rows(env, pol, p), MeetTest(env.g, cs))
  {
    RowsBind(env, pol, p);
    forall r, s, k | r in Rows(env, pol, p) && s in Rows(env, pol, p) && KeyOf(r) == KeyOf(s)
                   && k in cs && k.subject in r.mu
      ensures k.subject in s.mu && r.mu[k.subject] == s.mu[k.subject]
    {
      assert k.subject in Declared(p);
      if StartVar(p) == Some(k.subject) {
        StartBinds(env, pol, p, r);
        StartBinds(env, pol, p, s);
      } else {
        EndBinds(env, pol, p, r);
        EndBinds(env, pol, p, s);
      }
    }
  }

  // ---------------------------------------------------------------- patterns

  lemma {:induction false} Retained(cs: seq<Constraint>, vars: set<string>, k: Constraint)
    ensures k in RetainVars(cs, vars) <==> k in cs && k.subject in vars
  {
    if cs != [] {
      Retained(cs[1..], vars, k);
      assert cs == [cs[0]] + cs[1..];
    }
  }

  lemma {:induction false} MergeUntouched(p: PathPattern, cs: seq<Constraint>)
    requires forall k :: k in cs ==> k.subject !in FreeVars(p)
    ensures Merge(p, cs) == p
  {
    match p
    case Node(d) =>
      if d.Some? && d.value.name.Some? {
        UntouchedDesc(d.value.props, d.value.valuePreds, d.value.name.value, cs);
      }
    case Edge(_, d) =>
      if d.Some? && d.value.name.Some? {
        UntouchedDesc(d.value.props, d.value.valuePreds, d.value.name.value, cs);
      }
    case Concat(a, b) => MergeUntouched(a, cs); MergeUntouched(b, cs);
    case Union(a, b) => MergeUntouched(a, cs); MergeUntouched(b, cs);
    case Join(a, b) => MergeUntouched(a, cs); MergeUntouched(b, cs);
    case Filter(i, _) => MergeUntouched(i, cs);
    case Repeat(i, _, _) => MergeUntouched(i, cs);
    case Questioned(i) => MergeUntouched(i, cs);
    case Named(_, i) => MergeUntouched(i, cs);
    case Selected(prefix, i) =>
      forall k | k in RetainVars(cs, Boundary(i)) ensures k in cs {
        Retained(cs, Boundary(i), k);
      }
      MergeUntouched(i, if prefix.search.All? then cs else RetainVars(cs, Boundary(i)));
  }

  lemma {:induction false} UntouchedDesc(pt: PropertyType, preds: seq<(string, CmpOp, Value)>, x: string,
                                         cs: seq<Constraint>)
    requires forall k :: k in cs ==> k.subject != x
    ensures MergeTypes(pt, x, cs) == pt && MergeValues(preds, x, cs) == preds
    decreases |cs|
  {
    if cs != [] {
      assert cs[0] in cs;
      UntouchedDesc(pt, preds, x, cs[1..]);
    }
  }

  /** Merging constraints into a pattern is filtering its rows by them. */
  lemma {:induction false} MergeExact(env: Env, pol: Policy, p: PathPattern, cs: seq<Constraint>, nulls: bool)
    requires StoredGraph(env.g, nulls) && Mergeable(p, cs, nulls)
    ensures Rows(env, pol, Merge(p, cs)) == FilterSeq(Rows(env, pol, p), MeetTest(env.g, cs))
    decreases p, 1
  {
    match p
    case Node(d) => MergeNode(env, d, cs, nulls);
    case Edge(dir, d) => MergeEdge(env, dir, d, cs, nulls);
    case Concat(_, _) => MergePairExact(env, pol, p, cs, nulls);
    case Join(_, _) => MergePairExact(env, pol, p, cs, nulls);
    case Union(_, _) => MergeUnionExact(env, pol, p, cs, nulls);
    case Filter(i, e) =>
      assert forall k :: k in cs && MergeableOne(p, k) ==> MergeableOne(i, k);
      MergeExact(env, pol, i, cs, nulls);
      FiltersSwap(Rows(env, pol, i), AllTest(env, [e]), MeetTest(env.g, cs));
    case Repeat(_, _, _) => MergeAbsent(env, pol, p, cs, nulls);
    case Questioned(i) =>
      assert forall k :: k in cs && MergeableOne(p, k) ==> MergeableOne(i, k);
      MergeExact(env, pol, i, cs, nulls);
      NodeRowsBind(env, None);
      FilterAppend(NodeRows(env, None), Rows(env, pol, i), MeetTest(env.g, cs));
      FilterAllPass(NodeRows(env, None), MeetTest(env.g, cs));
    case Named(x, i) =>
      assert forall k :: k in cs && MergeableOne(p, k) ==> MergeableOne(i, k) && k.subject != x;
      MergeExact(env, pol, i, cs, nulls);
      FilterMap(Rows(env, pol, i), NameRow(x), MeetTest(env.g, cs), MeetTest(env.g, cs));
    case Selected(_, _) => MergeSelectedExact(env, pol, p, cs, nulls);
  }

  lemma MergeAbsent(env: Env, pol: Policy, p: PathPattern, cs: seq<Constraint>, nulls: bool)
    requires StoredGraph(env.g, nulls) && Mergeable(p, cs, nulls) && p.Repeat?
    ensures Rows(env, pol, Merge(p, cs)) == FilterSeq(Rows(env, pol, p), MeetTest(env.g, cs))
  {
    forall k | k in cs ensures k.subject !in Declared(p) {
      assert MergeableOne(p, k);
    }
    MergeUntouched(p, cs);
    RowsBind(env, pol, p);
    FilterAllPass(Rows(env, pol, p), MeetTest(env.g, cs));
  }

  lemma {:induction false} MergePairExact(env: Env, pol: Policy, p: PathPattern, cs: seq<Constraint>, nulls: bool)
    requires StoredGraph(env.g, nulls) && Mergeable(p, cs, nulls) && (p.Concat? || p.Join?)
    ensures Rows(env, pol, Merge(p, cs)) == FilterSeq(Rows(env, pol, p), MeetTest(env.g, cs))
    decreases p, 0
  {
    var a, b := p.fst, p.snd;
    forall k | k in cs ensures MergeableOne(a, k) && MergeableOne(b, k) {
      assert MergeableOne(p, k);
    }
    MergeExact(env, pol, a, cs, nulls);
    MergeExact(env, pol, b, cs, nulls);
    var xs, ys := Rows(env, pol, a), Rows(env, pol, b);
    var xs', ys' := Rows(env, pol, Merge(a, cs)), Rows(env, pol, Merge(b, cs));
    if p.Concat? {
      MergePair(env.g, xs, ys, xs', ys', ConcatCompat, ConcatMerge, cs);
    } else {
      MergeKeepsShape(a, cs);
      MergeKeepsShape(b, cs);
      JoinAgrees(env, pol, a, b, cs);
      MergePair(env.g, xs, ys, xs', ys', JoinTest(env, FreeVars(a) * FreeVars(b)), JoinMerge, cs);
    }
  }

  lemma FillMeets(g: Graph, vars: set<string>, r: Row, cs: seq<Constraint>)
    ensures Meets(g, Fill(vars)(r).mu, cs) == Meets(g, r.mu, cs)
  {
    var filled := Fill(vars)(r).mu;
    assert forall x :: x in r.mu ==> x in filled && filled[x] == r.mu[x];
    assert forall x :: x in filled && x !in r.mu ==> filled[x] == Nothing;
  }

  lemma {:induction false} MergeUnionExact(env: Env, pol: Policy, p: PathPattern, cs: seq<Constraint>, nulls: bool)
    requires StoredGraph(env.g, nulls) && Mergeable(p, cs, nulls) && p.Union?
    ensures Rows(env, pol, Merge(p, cs)) == FilterSeq(Rows(env, pol, p), MeetTest(env.g, cs))
    decreases p, 0
  {
    var a, b := p.fst, p.snd;
    forall k | k in cs ensures MergeableOne(a, k) && MergeableOne(b, k) {
      assert MergeableOne(p, k);
    }
    MergeExact(env, pol, a, cs, nulls);
    MergeExact(env, pol, b, cs, nulls);
    MergeKeepsShape(p, cs);
    var f := MeetTest(env.g, cs);
    var both := Rows(env, pol, a) + Rows(env, pol, b);
    FilterAppend(Rows(env, pol, a), Rows(env, pol, b), f);
    forall r | r in both ensures f(Fill(FreeVars(p))(r)) == f(r) {
      FillMeets(env.g, FreeVars(p), r, cs);
    }
    FilterMap(both, Fill(FreeVars(p)), f, f);
  }

  lemma {:induction false} MergeSelectedExact(env: Env, pol: Policy, p: PathPattern, cs: seq<Constraint>, nulls: bool)
    requires StoredGraph(env.g, nulls) && Mergeable(p, cs, nulls) && p.Selected?
    ensures Rows(env, pol, Merge(p, cs)) == FilterSeq(Rows(env, pol, p), MeetTest(env.g, cs))
    decreases p, 0
  {
    var prefix, i := p.prefix, p.inner;
    forall k | k in cs ensures MergeableOne(i, k) {
      assert MergeableOne(p, k);
    }
    var rows := Rows(env, PolicyFor(prefix), i);
    if prefix.search.All? {
      MergeExact(env, PolicyFor(prefix), i, cs, nulls);
      AllCommutes(rows, prefix.mode, MeetTest(env.g, cs));
    } else {
      var inside := RetainVars(cs, Boundary(i));
      forall k | k in inside ensures k in cs {
        Retained(cs, Boundary(i), k);
      }
      MergeExact(env, PolicyFor(prefix), i, inside, nulls);
      SelectiveTest(env, p, cs);
      FilterCongruence(rows, MeetTest(env.g, inside), MeetTest(env.g, cs));
      PrefixCommutes(rows, prefix, MeetTest(env.g, cs));
    }
  }

  /** Under a selective prefix the boundary constraints are all that the rows can notice. */
  lemma SelectiveTest(env: Env, p: PathPattern, cs: seq<Constraint>)
    requires (forall k :: k in cs ==> MergeableOne(p, k)) && p.Selected? && !p.prefix.search.All?
    ensures var rows := Rows(env, PolicyFor(p.prefix), p.inner);
      && KeyDetermined(rows, MeetTest(env.g, cs))
      && forall r :: r in rows ==> MeetTest(env.g, RetainVars(cs, Boundary(p.inner)))(r) == MeetTest(env.g, cs)(r)
  {
    var i := p.inner;
    var rows := Rows(env, PolicyFor(p.prefix), i);
    forall k | k in cs
      ensures k.subject !in PathVars(i)
        && (k.subject in FreeVars(i) ==> IsEnd(i, k.subject) && k.subject in Boundary(i))
    {
      assert MergeableOne(p, k);
      if k.subject in FreeVars(i) {
        EndsAreBoundary(i, k.subject);
      }
    }
    EndpointTest(env, PolicyFor(p.prefix), i, cs);
    RowsBind(env, PolicyFor(p.prefix), i);
    forall r: Row, k: Constraint | r in rows && k.subject in r.mu
      ensures k in cs <==> k in RetainVars(cs, Boundary(i))
    {
      Retained(cs, Boundary(i), k);
      assert k.subject in Declared(i);
    }
  }
}
