/** What rows are: every path of a row is a walk of the graph, each edge crossed in a direction that its
    pattern allows, and every element a row binds lies on one of its paths. */
module PathWalks {
  import opened Values
  import opened Syntax
  import opened RowAlgebra
  import opened Runtime
  import opened Evaluator
  import opened Scoping

  // ---------------------------------------------------------------- walks

  /** The edge lies in the graph, as the kind of edge that it is walked as. */
  predicate EdgeOf(g: Graph, e: PathValue) {
    e.PEdge? && (if e.directed then e.id in g.directedEdges else e.id in g.undirectedEdges)
  }

  predicate Connects(g: Graph, a: PathValue, e: PathValue, b: PathValue) {
    && a.PNode? && b.PNode? && EdgeOf(g, e)
    && ((g.src(e.id) == a.id && g.tgt(e.id) == b.id) || (g.src(e.id) == b.id && g.tgt(e.id) == a.id))
  }

  /** The elements number `2i`, `2i + 1` and `2i + 2` are a node, an edge at it, and its other end. */
  predicate HopAt(g: Graph, p: Path, i: nat)
    requires 2 * i + 2 < |p|
  {
    Connects(g, p[2 * i], p[2 * i + 1], p[2 * i + 2])
  }

  /** Nodes and edges in turn, from a node to a node, each edge between its neighbours. */
  ghost predicate IsWalk(g: Graph, p: Path) {
    && |p| % 2 == 1
    && p[0].PNode? && p[0].id in g.nodes
    && forall i: nat :: 2 * i + 2 < |p| ==> HopAt(g, p, i)
  }

  /** Every edge ends at nodes of the graph. */
  ghost predicate ClosedGraph(g: Graph) {
    && (forall e: Id :: e in g.directedEdges ==> g.src(e) in g.nodes && g.tgt(e) in g.nodes)
    && (forall e: Id :: e in g.undirectedEdges ==> g.src(e) in g.nodes && g.tgt(e) in g.nodes)
  }

  lemma EvenAreNodes(g: Graph, p: Path, i: nat)
    requires IsWalk(g, p) && 2 * i < |p|
    ensures p[2 * i].PNode?
  {
    if i > 0 {
      assert HopAt(g, p, i - 1);
    }
  }

  /** Walks that meet can be joined at the node where they meet. */
  lemma WalksJoin(g: Graph, p: Path, q: Path)
    requires IsWalk(g, p) && IsWalk(g, q) && p[|p| - 1] == q[0]
    ensures IsWalk(g, p + q[1..])
  {
    var w, h: nat := p + q[1..], |p| / 2;
    assert |p| == 2 * h + 1;
    forall i: nat | 2 * i + 2 < |w| ensures HopAt(g, w, i) {
      if i < h {
        assert HopAt(g, p, i);
      } else {
        assert HopAt(g, q, i - h);
        SuffixAt(p, q, 2 * i);
        SuffixAt(p, q, 2 * i + 1);
        SuffixAt(p, q, 2 * i + 2);
      }
    }
  }

  lemma SuffixAt(p: Path, q: Path, j: nat)
    requires p != [] && q != [] && p[|p| - 1] == q[0] && |p| - 1 <= j < |p| + |q| - 1
    ensures (p + q[1..])[j] == q[j - (|p| - 1)]
  {
  }

  /** A walk has as many edges as it has hops, and one node more. */
  lemma {:induction false} WalkCounts(g: Graph, p: Path)
    requires IsWalk(g, p) && ClosedGraph(g)
    ensures |EdgeIds(p)| == |p| / 2 && |NodeIds(p)| == |p| / 2 + 1
    decreases |p|
  {
    if |p| == 1 {
      assert p[1..] == [];
    } else {
      assert HopAt(g, p, 0);
      assert p[1..][1..] == p[2..] && p[1..][0] == p[1];
      TailWalks(g, p);
      WalkCounts(g, p[2..]);
    }
  }

  lemma TailWalks(g: Graph, p: Path)
    requires IsWalk(g, p) && ClosedGraph(g) && |p| > 2
    ensures IsWalk(g, p[2..])
  {
    assert HopAt(g, p, 0);
    forall i: nat | 2 * i + 2 < |p[2..]| ensures HopAt(g, p[2..], i) {
      assert HopAt(g, p, i + 1);
    }
  }

  // ---------------------------------------------------------------- what a row says

  /** The element lies on one of the paths; a group holds such elements, a named path is a walk. */
  ghost predicate Placed(g: Graph, paths: seq<Path>, pv: PathValue)
    decreases pv
  {
    match pv
    case PNode(_) => exists i :: 0 <= i < |paths| && pv in paths[i]
    case PEdge(_, _) => exists i :: 0 <= i < |paths| && pv in paths[i]
    case Nothing => true
    case Group(ms) => forall m :: m in ms ==> Placed(g, paths, m)
    case PPath(steps) => IsWalk(g, steps)
  }

  ghost predicate Located(g: Graph, r: Row) {
    && r.paths != []
    && (forall i :: 0 <= i < |r.paths| ==> IsWalk(g, r.paths[i]))
    && (forall x :: x in r.mu ==> Placed(g, r.paths, r.mu[x]))
  }

  /** One path, as a pattern without a comma produces. */
  ghost predicate OnePath(r: Row) {
    |r.paths| == 1
  }

  ghost predicate AllLocated(g: Graph, rows: seq<Row>, single: bool) {
    forall r :: r in rows ==> Located(g, r) && (single ==> OnePath(r))
  }

  /** More elements on the paths: what was on them still is. */
  lemma {:induction false} PlacedStays(g: Graph, paths: seq<Path>, more: seq<Path>, pv: PathValue)
    requires Placed(g, paths, pv)
    requires forall i, v :: 0 <= i < |paths| && v in paths[i] ==> exists j :: 0 <= j < |more| && v in more[j]
    ensures Placed(g, more, pv)
  {
    match pv
    case Group(ms) => forall m | m in ms ensures Placed(g, more, m) { PlacedStays(g, paths, more, m); }
    case _ =>
  }

  lemma MuPlaced(g: Graph, paths: seq<Path>, more: seq<Path>, mu: Assignment)
    requires forall x :: x in mu ==> Placed(g, paths, mu[x])
    requires forall i, v :: 0 <= i < |paths| && v in paths[i] ==> exists j :: 0 <= j < |more| && v in more[j]
    ensures forall x :: x in mu ==> Placed(g, more, mu[x])
  {
    forall x | x in mu ensures Placed(g, more, mu[x]) {
      PlacedStays(g, paths, more, mu[x]);
    }
  }

  // ---------------------------------------------------------------- patterns without commas inside

  /** No comma anywhere. */
  predicate Linear(p: PathPattern) {
    match p
    case Join(_, _) => false
    case Concat(a, b) => Linear(a) && Linear(b)
    case Union(a, b) => Linear(a) && Linear(b)
    case Filter(i, _) => Linear(i)
    case Repeat(i, _, _) => Linear(i)
    case Questioned(i) => Linear(i)
    case Selected(_, i) => Linear(i)
    case Named(_, i) => Linear(i)
    case Node(_) => true
    case Edge(_, _) => true
  }

  /** What is concatenated or repeated has no comma inside. */
  predicate Shaped(p: PathPattern) {
    match p
    case Join(a, b) => Shaped(a) && Shaped(b)
    case Concat(a, b) => Linear(a) && Linear(b)
    case Union(a, b) => Shaped(a) && Shaped(b)
    case Filter(i, _) => Shaped(i)
    case Repeat(i, _, _) => Linear(i)
    case Questioned(i) => Shaped(i)
    case Selected(_, i) => Shaped(i)
    case Named(_, i) => Shaped(i)
    case Node(_) => true
    case Edge(_, _) => true
  }

  lemma {:induction false} LinearShaped(p: PathPattern)
    requires Linear(p)
    ensures Shaped(p)
  {
    match p
    case Union(a, b) => LinearShaped(a); LinearShaped(b);
    case Filter(i, _) => LinearShaped(i);
    case Questioned(i) => LinearShaped(i);
    case Selected(_, i) => LinearShaped(i);
    case Named(_, i) => LinearShaped(i);
    case _ =>
  }

  // ---------------------------------------------------------------- joining rows

  lemma JoinLocated(g: Graph, r1: Row, r2: Row)
    requires Located(g, r1) && Located(g, r2)
    ensures Located(g, JoinMerge(r1, r2))
  {
    var all := r1.paths + r2.paths;
    forall i, v | 0 <= i < |r1.paths| && v in r1.paths[i] ensures exists j :: 0 <= j < |all| && v in all[j] {
      assert all[i] == r1.paths[i];
    }
    forall i, v | 0 <= i < |r2.paths| && v in r2.paths[i] ensures exists j :: 0 <= j < |all| && v in all[j] {
      assert all[|r1.paths| + i] == r2.paths[i];
    }
    MuPlaced(g, r1.paths, all, r1.mu);
    MuPlaced(g, r2.paths, all, r2.mu);
  }

  /** The path of two rows that meet end to end. */
  function Joint(p: Path, q: Path): Path {
    p + (if q == [] then [] else q[1..])
  }

  lemma JointHolds(g: Graph, r1: Row, r2: Row)
    requires Located(g, r1) && Located(g, r2) && OnePath(r1) && OnePath(r2) && EndsMeet(r1, r2)
    ensures var p := Joint(r1.paths[0], r2.paths[0]);
      && IsWalk(g, p)
      && (forall x :: x in r1.mu ==> Placed(g, [p], r1.mu[x]))
      && (forall x :: x in r2.mu ==> Placed(g, [p], r2.mu[x]))
  {
    var a, b := r1.paths[0], r2.paths[0];
    var p := Joint(a, b);
    EvenAreNodes(g, a, |a| / 2);
    assert a[|a| - 1] == b[0];
    WalksJoin(g, a, b);
    forall i, v | 0 <= i < 1 && v in r1.paths[i] ensures exists j :: 0 <= j < |[p]| && v in [p][j] {
      assert [p][0] == p;
    }
    forall i, v | 0 <= i < 1 && v in r2.paths[i] ensures exists j :: 0 <= j < |[p]| && v in [p][j] {
      assert [p][0] == p && b == [b[0]] + b[1..] && a[|a| - 1] in a;
    }
    MuPlaced(g, r1.paths, [p], r1.mu);
    MuPlaced(g, r2.paths, [p], r2.mu);
  }

  lemma ConcatLocated(g: Graph, r1: Row, r2: Row)
    requires Located(g, r1) && Located(g, r2) && OnePath(r1) && OnePath(r2) && ConcatCompat(r1, r2)
    ensures Located(g, ConcatMerge(r1, r2)) && OnePath(ConcatMerge(r1, r2))
  {
    JointHolds(g, r1, r2);
    assert ConcatMerge(r1, r2).paths == [Joint(r1.paths[0], r2.paths[0])];
  }

  lemma GroupsPlaced(g: Graph, paths: seq<Path>, a: Assignment, b: Assignment)
    requires forall x :: x in a ==> Placed(g, paths, a[x])
    requires forall x :: x in b ==> Placed(g, paths, b[x])
    ensures forall x :: x in ConcatGroups(a, b) ==> Placed(g, paths, ConcatGroups(a, b)[x])
  {
    forall x | x in ConcatGroups(a, b) ensures Placed(g, paths, ConcatGroups(a, b)[x]) {
      assert Placed(g, paths, a[x]);
      if a[x].Group? && x in b && b[x].Group? {
        assert Placed(g, paths, b[x]);
        forall m | m in a[x].members + b[x].members ensures Placed(g, paths, m) {
        }
      }
    }
  }

  lemma LapLocated(g: Graph, r1: Row, r2: Row)
    requires Located(g, r1) && Located(g, r2) && OnePath(r1) && OnePath(r2) && EndsMeet(r1, r2)
    ensures Located(g, GroupMerge(r1, r2)) && OnePath(GroupMerge(r1, r2))
  {
    JointHolds(g, r1, r2);
    assert GroupMerge(r1, r2).paths == [Joint(r1.paths[0], r2.paths[0])];
    GroupsPlaced(g, [Joint(r1.paths[0], r2.paths[0])], r1.mu, r2.mu);
  }

  lemma GroupRowLocated(g: Graph, r: Row)
    requires Located(g, r)
    ensures Located(g, GroupRow(r))
  {
    forall x | x in GroupRow(r).mu ensures Placed(g, r.paths, GroupRow(r).mu[x]) {
      assert Placed(g, r.paths, r.mu[x]);
    }
  }

  // ---------------------------------------------------------------- single elements

  /** From `a` to `b` over the edge, in a direction that the pattern allows. */
  predicate Allowed(g: Graph, dir: EdgeDir, a: Id, e: PathValue, b: Id)
    requires e.PEdge?
  {
    var onward, back := g.src(e.id) == a && g.tgt(e.id) == b, g.src(e.id) == b && g.tgt(e.id) == a;
    match dir
    case Right => e.directed && onward
    case Left => e.directed && back
    case Undirected => !e.directed && (onward || back)
    case AnyDirection => onward || back
  }

  /** The row that crosses `e` from `a` to `b`. */
  predicate IsEdgeRow(env: Env, dir: EdgeDir, d: Option<Descriptor>, a: Id, e: PathValue, b: Id, r: Row) {
    && EdgeOf(env.g, e) && Allowed(env.g, dir, a, e, b)
    && ElementMatches(env.surface, env.g.edgeLabels(e.id), env.g.edgeProps(e.id), d)
    && r.paths == [[PNode(a), e, PNode(b)]]
    && r.mu == if NameOf(d).Some? then map[NameOf(d).value := e] else map[]
  }

  ghost predicate EdgeRowMeans(env: Env, dir: EdgeDir, d: Option<Descriptor>, r: Row) {
    exists a: Id, e: PathValue, b: Id :: IsEdgeRow(env, dir, d, a, e, b, r)
  }

  function EdgesFor(g: Graph, dir: EdgeDir): seq<Id> {
    if dir.Undirected? then g.undirectedEdges else g.directedEdges
  }

  /** One step of the scan. */
  lemma ScannedEdge(env: Env, dir: EdgeDir, d: Option<Descriptor>, id: Id, r: Row)
    requires !dir.AnyDirection? && id in EdgesFor(env.g, dir) && EdgeTest(env, d)(id)
    ensures r in RowsOfEdge(env.g, dir, NameOf(d), id) <==>
        exists a: Id, e: PathValue, b: Id :: IsEdgeRow(env, dir, d, a, e, b, r) && e.id == id
  {
    var g, e := env.g, PEdge(id, !dir.Undirected?);
    if r in RowsOfEdge(g, dir, NameOf(d), id) {
      assert IsEdgeRow(env, dir, d, g.src(id), e, g.tgt(id), r) || IsEdgeRow(env, dir, d, g.tgt(id), e, g.src(id), r);
    }
  }

  lemma EdgeRowsOfMean(env: Env, dir: EdgeDir, d: Option<Descriptor>, r: Row)
    requires !dir.AnyDirection?
    ensures r in EdgeRowsOf(env, dir, d) <==> EdgeRowMeans(env, dir, d, r)
  {
    var ids := FilterSeq(EdgesFor(env.g, dir), EdgeTest(env, d));
    if r in EdgeRowsOf(env, dir, d) {
      FlatMapMember(ids, EdgeStep(env.g, dir, NameOf(d)), r);
      var id :| id in ids && r in EdgeStep(env.g, dir, NameOf(d))(id);
      FilterMember(EdgesFor(env.g, dir), EdgeTest(env, d), id);
      ScannedEdge(env, dir, d, id, r);
    }
    if a: Id, e: PathValue, b: Id :| IsEdgeRow(env, dir, d, a, e, b, r) {
      FilterMember(EdgesFor(env.g, dir), EdgeTest(env, d), e.id);
      ScannedEdge(env, dir, d, e.id, r);
      InFlatMap(ids, EdgeStep(env.g, dir, NameOf(d)), e.id, r);
    }
  }

  /** An edge pattern yields one row for every way to cross a matching edge in an allowed direction, and
      no other. */
  lemma EdgeRowsExact(env: Env, pol: Policy, dir: EdgeDir, d: Option<Descriptor>, r: Row)
    ensures r in Rows(env, pol, Edge(dir, d)) <==> EdgeRowMeans(env, dir, d, r)
  {
    if dir.AnyDirection? {
      EdgeRowsOfMean(env, Right, d, r);
      EdgeRowsOfMean(env, Left, d, r);
      EdgeRowsOfMean(env, Undirected, d, r);
      AnyMeans(env, d, r);
    } else {
      EdgeRowsOfMean(env, dir, d, r);
    }
  }

  lemma AnyMeans(env: Env, d: Option<Descriptor>, r: Row)
    ensures EdgeRowMeans(env, AnyDirection, d, r) <==>
        EdgeRowMeans(env, Right, d, r) || EdgeRowMeans(env, Left, d, r) || EdgeRowMeans(env, Undirected, d, r)
  {
    forall a: Id, e: PathValue, b: Id
      ensures IsEdgeRow(env, AnyDirection, d, a, e, b, r) <==>
          IsEdgeRow(env, Right, d, a, e, b, r) || IsEdgeRow(env, Left, d, a, e, b, r)
          || IsEdgeRow(env, Undirected, d, a, e, b, r)
    {
    }
  }

  predicate IsNodeRow(env: Env, d: Option<Descriptor>, n: Id, r: Row) {
    && n in env.g.nodes && ElementMatches(env.surface, env.g.nodeLabels(n), env.g.nodeProps(n), d)
    && r.paths == [[PNode(n)]]
    && r.mu == if NameOf(d).Some? then map[NameOf(d).value := PNode(n)] else map[]
  }

  /** A node pattern yields the matching nodes. */
  lemma NodeRowsExact(env: Env, pol: Policy, d: Option<Descriptor>, r: Row)
    ensures r in Rows(env, pol, Node(d)) <==> exists n: Id :: IsNodeRow(env, d, n, r)
  {
    var ids, step := FilterSeq(env.g.nodes, NodeTest(env, d)), NodeStep(NameOf(d));
    if r in NodeRows(env, d) {
      FlatMapMember(ids, step, r);
      var n :| n in ids && r in step(n);
      FilterMember(env.g.nodes, NodeTest(env, d), n);
      assert IsNodeRow(env, d, n, r);
    }
    if n: Id :| IsNodeRow(env, d, n, r) {
      FilterMember(env.g.nodes, NodeTest(env, d), n);
      assert r in step(n);
      InFlatMap(ids, step, n, r);
    }
  }

  lemma NodeLocated(env: Env, pol: Policy, d: Option<Descriptor>)
    ensures AllLocated(env.g, Rows(env, pol, Node(d)), true)
  {
    forall r | r in Rows(env, pol, Node(d)) ensures Located(env.g, r) && OnePath(r) {
      NodeRowsExact(env, pol, d, r);
      var n: Id :| IsNodeRow(env, d, n, r);
      assert r.paths[0][0] == PNode(n) && PNode(n) in r.paths[0];
    }
  }

  lemma EdgeLocated(env: Env, pol: Policy, dir: EdgeDir, d: Option<Descriptor>)
    requires ClosedGraph(env.g)
    ensures AllLocated(env.g, Rows(env, pol, Edge(dir, d)), true)
  {
    forall r | r in Rows(env, pol, Edge(dir, d)) ensures Located(env.g, r) && OnePath(r) {
      EdgeRowsExact(env, pol, dir, d, r);
      EdgeMeansLocated(env, dir, d, r);
    }
  }

  lemma EdgeMeansLocated(env: Env, dir: EdgeDir, d: Option<Descriptor>, r: Row)
    requires ClosedGraph(env.g) && EdgeRowMeans(env, dir, d, r)
    ensures Located(env.g, r) && OnePath(r)
  {
    var a: Id, e: PathValue, b: Id :| IsEdgeRow(env, dir, d, a, e, b, r);
    var p := r.paths[0];
    assert HopAt(env.g, p, 0);
    assert p[1] == e && e in p;
  }

  // ---------------------------------------------------------------- repetitions

  lemma {:induction false} LevelLocated(g: Graph, grouped: seq<Row>, k: nat)
    requires k >= 1 && AllLocated(g, grouped, true)
    ensures AllLocated(g, Level(grouped, k), true)
  {
    if k > 1 {
      LevelLocated(g, grouped, k - 1);
      forall r | r in Level(grouped, k) ensures Located(g, r) && OnePath(r) {
        var x, y := PairMember(Level(grouped, k - 1), grouped, EndsMeet, GroupMerge, r);
        LapLocated(g, x, y);
      }
    }
  }

  lemma {:induction false} LevelsLocated(g: Graph, grouped: seq<Row>, k: nat, ub: nat)
    requires k >= 1 && AllLocated(g, grouped, true)
    ensures AllLocated(g, Levels(grouped, k, ub), true)
    decreases ub + 1 - k
  {
    if k <= ub {
      LevelLocated(g, grouped, k);
      LevelsLocated(g, grouped, k + 1, ub);
    }
  }

  lemma GroupedLocated(g: Graph, rows: seq<Row>)
    requires AllLocated(g, rows, true)
    ensures AllLocated(g, MapSeq(rows, GroupRow), true)
  {
    forall r | r in MapSeq(rows, GroupRow) ensures Located(g, r) && OnePath(r) {
      MapMember(rows, GroupRow, r);
      var q :| q in rows && r == GroupRow(q);
      GroupRowLocated(g, q);
    }
  }

  lemma ZeroLocated(env: Env, vars: set<string>)
    ensures AllLocated(env.g, FlatMap(env.g.nodes, ZeroStep(vars)), true)
  {
    forall r | r in FlatMap(env.g.nodes, ZeroStep(vars)) ensures Located(env.g, r) && OnePath(r) {
      FlatMapMember(env.g.nodes, ZeroStep(vars), r);
    }
  }

  /** An unbounded repetition of walks answers walks with what it groups on them. */
  ghost predicate StarLocated(env: Env) {
    forall pol, lb, vars, rows, s :: AllLocated(env.g, rows, true) && s in env.star(pol, lb, vars, rows) ==>
        Located(env.g, StarToRow(vars)(s))
  }

  lemma RepeatLocated(env: Env, pol: Policy, vars: set<string>, rows: seq<Row>, lb: nat, ub: Option<nat>)
    requires StarLocated(env) && AllLocated(env.g, rows, true)
    ensures AllLocated(env.g, Repeated(env, pol, vars, rows, lb, ub), true)
  {
    if ub.Some? {
      GroupedLocated(env.g, rows);
      ZeroLocated(env, vars);
      LevelsLocated(env.g, MapSeq(rows, GroupRow), if lb == 0 then 1 else lb, ub.value);
    } else {
      var star := env.star(pol, lb, vars, rows);
      forall r | r in MapSeq(star, StarToRow(vars)) ensures Located(env.g, r) && OnePath(r) {
        MapMember(star, StarToRow(vars), r);
      }
    }
  }

  // ---------------------------------------------------------------- all patterns

  lemma FilledLocated(g: Graph, rows: seq<Row>, vars: set<string>, single: bool)
    requires AllLocated(g, rows, single)
    ensures AllLocated(g, MapSeq(rows, Fill(vars)), single)
  {
    forall r | r in MapSeq(rows, Fill(vars)) ensures Located(g, r) && (single ==> OnePath(r)) {
      MapMember(rows, Fill(vars), r);
      var q :| q in rows && r == Fill(vars)(q);
      forall x | x in r.mu ensures Placed(g, r.paths, r.mu[x]) {
        if x in q.mu {
          assert Placed(g, q.paths, q.mu[x]);
        }
      }
    }
  }

  lemma NamedLocated(g: Graph, rows: seq<Row>, x: string, single: bool)
    requires AllLocated(g, rows, single)
    ensures AllLocated(g, MapSeq(rows, NameRow(x)), single)
  {
    forall r | r in MapSeq(rows, NameRow(x)) ensures Located(g, r) && (single ==> OnePath(r)) {
      MapMember(rows, NameRow(x), r);
      var q :| q in rows && r == NameRow(x)(q);
      forall y | y in r.mu ensures Placed(g, r.paths, r.mu[y]) {
        if y != x {
          assert Placed(g, q.paths, q.mu[y]);
        }
      }
    }
  }

  /** Every row of every pattern: its paths are walks of the graph, and what it binds lies on them. */
  lemma {:induction false} RowsLocated(env: Env, pol: Policy, p: PathPattern)
    requires ClosedGraph(env.g) && StarLocated(env) && Shaped(p)
    ensures AllLocated(env.g, Rows(env, pol, p), Linear(p))
    decreases p
  {
    match p
    case Node(d) => NodeLocated(env, pol, d);
    case Edge(dir, d) => EdgeLocated(env, pol, dir, d);
    case Concat(a, b) =>
      LinearShaped(a);
      LinearShaped(b);
      RowsLocated(env, pol, a);
      RowsLocated(env, pol, b);
      ConcatRowsLocated(env, pol, a, b);
    case Join(a, b) =>
      RowsLocated(env, pol, a);
      RowsLocated(env, pol, b);
      JoinRowsLocated(env, pol, a, b);
    case Union(a, b) =>
      RowsLocated(env, pol, a);
      RowsLocated(env, pol, b);
      FilledLocated(env.g, Rows(env, pol, a) + Rows(env, pol, b), FreeVars(p), Linear(p));
    case Filter(i, e) =>
      RowsLocated(env, pol, i);
      FilteredLocated(env.g, Rows(env, pol, i), AllTest(env, [e]), Linear(i));
    case Repeat(i, lb, ub) =>
      LinearShaped(i);
      RowsLocated(env, pol, i);
      RepeatLocated(env, pol, FreeVars(i), Rows(env, pol, i), lb, ub);
    case Questioned(i) =>
      RowsLocated(env, pol, i);
      NodeLocated(env, pol, None);
      assert NodeRows(env, None) == Rows(env, pol, Node(None));
    case Selected(prefix, i) =>
      RowsLocated(env, PolicyFor(prefix), i);
      SelectedLocated(env.g, Rows(env, PolicyFor(prefix), i), prefix, Linear(i));
    case Named(x, i) =>
      RowsLocated(env, pol, i);
      NamedLocated(env.g, Rows(env, pol, i), x, Linear(i));
  }

  lemma ConcatRowsLocated(env: Env, pol: Policy, a: PathPattern, b: PathPattern)
    requires AllLocated(env.g, Rows(env, pol, a), true) && AllLocated(env.g, Rows(env, pol, b), true)
    ensures AllLocated(env.g, Rows(env, pol, Concat(a, b)), true)
  {
    forall r | r in Rows(env, pol, Concat(a, b)) ensures Located(env.g, r) && OnePath(r) {
      var x, y := PairMember(Rows(env, pol, a), Rows(env, pol, b), ConcatCompat, ConcatMerge, r);
      ConcatLocated(env.g, x, y);
    }
  }

  lemma JoinRowsLocated(env: Env, pol: Policy, a: PathPattern, b: PathPattern)
    requires AllLocated(env.g, Rows(env, pol, a), false) && AllLocated(env.g, Rows(env, pol, b), false)
    ensures AllLocated(env.g, Rows(env, pol, Join(a, b)), false)
  {
    var test := JoinTest(env, FreeVars(a) * FreeVars(b));
    forall r | r in Rows(env, pol, Join(a, b)) ensures Located(env.g, r) {
      var x, y := PairMember(Rows(env, pol, a), Rows(env, pol, b), test, JoinMerge, r);
      JoinLocated(env.g, x, y);
    }
  }

  lemma FilteredLocated(g: Graph, rows: seq<Row>, f: Row -> bool, single: bool)
    requires AllLocated(g, rows, single)
    ensures AllLocated(g, FilterSeq(rows, f), single)
  {
    forall r | r in FilterSeq(rows, f) ensures Located(g, r) && (single ==> OnePath(r)) {
      FilterMember(rows, f, r);
    }
  }

  lemma SelectedLocated(g: Graph, rows: seq<Row>, prefix: PathPrefix, single: bool)
    requires AllLocated(g, rows, single)
    ensures AllLocated(g, ApplyPrefix(rows, prefix), single)
  {
    forall r | r in ApplyPrefix(rows, prefix) ensures Located(g, r) && (single ==> OnePath(r)) {
      PrefixMember(rows, prefix, r);
    }
  }

  // ---------------------------------------------------------------- path modes

  lemma {:induction false} IdsAt(g: Graph, p: Path, i: nat)
    requires IsWalk(g, p) && ClosedGraph(g)
    ensures |NodeIds(p)| == |p| / 2 + 1 && |EdgeIds(p)| == |p| / 2
    ensures 2 * i < |p| ==> p[2 * i].PNode? && NodeIds(p)[i] == p[2 * i].id
    ensures 2 * i + 1 < |p| ==> p[2 * i + 1].PEdge? && EdgeIds(p)[i] == p[2 * i + 1].id
    decreases |p|
  {
    WalkCounts(g, p);
    if |p| == 1 {
      assert p[1..] == [];
    } else {
      assert HopAt(g, p, 0);
      assert p[1..][1..] == p[2..] && p[1..][0] == p[1];
      TailWalks(g, p);
      if i > 0 {
        IdsAt(g, p[2..], i - 1);
        TailIndex(p, i);
      }
    }
  }

  lemma TailIndex(p: Path, i: nat)
    requires |p| > 2 && i > 0
    ensures 2 * i < |p| ==> p[2..][2 * (i - 1)] == p[2 * i]
    ensures 2 * i + 1 < |p| ==> p[2..][2 * (i - 1) + 1] == p[2 * i + 1]
  {
  }

  /** The `i`-th node, and the `i`-th edge, of a walk. */
  function NodeAt(p: Path, i: nat): PathValue
    requires 2 * i < |p|
  {
    p[2 * i]
  }

  function EdgeAt(p: Path, i: nat): PathValue
    requires 2 * i + 1 < |p|
  {
    p[2 * i + 1]
  }

  lemma SimpleMeans(ids: seq<Id>)
    requires ids != []
    ensures (|ids| <= 1 || (NoRepeats(ids[..|ids| - 1]) && ids[|ids| - 1] !in ids[1..|ids| - 1])) <==>
        forall i, j :: 0 <= i < j < |ids| && ids[i] == ids[j] ==> i == 0 && j == |ids| - 1
  {
    if |ids| > 1 {
      var n := |ids| - 1;
      var init, mid := ids[..n], ids[1..n];
      assert forall i :: 0 <= i < n ==> init[i] == ids[i];
      assert forall i :: 1 <= i < n ==> ids[i] in mid;
    }
  }

  lemma TrailMeans(g: Graph, p: Path)
    requires IsWalk(g, p) && ClosedGraph(g)
    ensures forall i: nat :: 2 * i + 1 < |p| ==> EdgeAt(p, i).PEdge?
    ensures PathInMode(p, Trail) <==>
        forall i: nat, j: nat :: i < j && 2 * j + 1 < |p| ==> EdgeAt(p, i).id != EdgeAt(p, j).id
  {
    var ids := EdgeIds(p);
    forall i: nat | 2 * i + 1 < |p| ensures EdgeAt(p, i).PEdge? && i < |ids| && ids[i] == EdgeAt(p, i).id {
      IdsAt(g, p, i);
    }
    IdsAt(g, p, 0);
    if forall i: nat, j: nat :: i < j && 2 * j + 1 < |p| ==> EdgeAt(p, i).id != EdgeAt(p, j).id {
      forall i, j | 0 <= i < j < |ids| ensures ids[i] != ids[j] {
        assert ids[i] == EdgeAt(p, i).id && ids[j] == EdgeAt(p, j).id;
      }
    }
  }

  lemma NodesListed(g: Graph, p: Path)
    requires IsWalk(g, p) && ClosedGraph(g)
    ensures |NodeIds(p)| == |p| / 2 + 1 && |p| % 2 == 1
    ensures forall i: nat :: 2 * i < |p| ==> NodeAt(p, i).PNode? && NodeIds(p)[i] == NodeAt(p, i).id
  {
    WalkCounts(g, p);
    forall i: nat | 2 * i < |p| ensures NodeAt(p, i).PNode? && NodeIds(p)[i] == NodeAt(p, i).id {
      IdsAt(g, p, i);
    }
  }

  ghost predicate NoNodeTwice(p: Path)
    requires forall i: nat :: 2 * i < |p| ==> NodeAt(p, i).PNode?
  {
    forall i: nat, j: nat :: i < j && 2 * j < |p| ==> NodeAt(p, i).id != NodeAt(p, j).id
  }

  ghost predicate OnlyClosed(p: Path)
    requires forall i: nat :: 2 * i < |p| ==> NodeAt(p, i).PNode?
  {
    forall i: nat, j: nat :: i < j && 2 * j < |p| && NodeAt(p, i).id == NodeAt(p, j).id ==> i == 0 && j == |p| / 2
  }

  ghost predicate NoEdgeTwice(p: Path)
    requires forall i: nat :: 2 * i + 1 < |p| ==> EdgeAt(p, i).PEdge?
  {
    forall i: nat, j: nat :: i < j && 2 * j + 1 < |p| ==> EdgeAt(p, i).id != EdgeAt(p, j).id
  }

  lemma SameRepeats(ids: seq<Id>, p: Path)
    requires |ids| == |p| / 2 + 1 && |p| % 2 == 1
    requires forall i: nat :: 2 * i < |p| ==> NodeAt(p, i).PNode? && ids[i] == NodeAt(p, i).id
    ensures NoRepeats(ids) <==> NoNodeTwice(p)
    ensures (forall i, j :: 0 <= i < j < |ids| && ids[i] == ids[j] ==> i == 0 && j == |ids| - 1) <==> OnlyClosed(p)
  {
    assert forall i: nat :: i < |ids| ==> ids[i] == NodeAt(p, i).id;
  }

  lemma SimpleModeMeans(p: Path)
    requires var ids := NodeIds(p);
      && |ids| == |p| / 2 + 1 && |p| % 2 == 1
      && forall i: nat :: 2 * i < |p| ==> NodeAt(p, i).PNode? && ids[i] == NodeAt(p, i).id
    ensures PathInMode(p, Simple) <==> OnlyClosed(p)
  {
    var ids := NodeIds(p);
    SimpleMeans(ids);
    SameRepeats(ids, p);
  }

  /** TRAIL: no edge twice.  ACYCLIC: no node twice, hence no edge either.  SIMPLE: no node twice, but the
      last may be the first. */
  lemma ModesMean(g: Graph, p: Path)
    requires IsWalk(g, p) && ClosedGraph(g)
    ensures forall i: nat :: 2 * i < |p| ==> NodeAt(p, i).PNode?
    ensures forall i: nat :: 2 * i + 1 < |p| ==> EdgeAt(p, i).PEdge?
    ensures PathInMode(p, Trail) <==> NoEdgeTwice(p)
    ensures PathInMode(p, Acyclic) <==> NoNodeTwice(p)
    ensures PathInMode(p, Simple) <==> OnlyClosed(p)
    ensures NoNodeTwice(p) ==> NoEdgeTwice(p)
  {
    TrailMeans(g, p);
    NodesListed(g, p);
    SameRepeats(NodeIds(p), p);
    SimpleModeMeans(p);
    if NoNodeTwice(p) {
      forall i: nat, j: nat | i < j && 2 * j + 1 < |p| ensures EdgeAt(p, i).id != EdgeAt(p, j).id {
        EdgeOnce(g, p, i, j);
      }
    }
  }

  /** An edge crossed twice has an end visited twice. */
  lemma EdgeOnce(g: Graph, p: Path, i: nat, j: nat)
    requires IsWalk(g, p) && i < j && 2 * j + 1 < |p|
    requires forall i: nat :: 2 * i < |p| ==> NodeAt(p, i).PNode?
    requires NoNodeTwice(p)
    ensures EdgeAt(p, i).PEdge? && EdgeAt(p, j).PEdge? && EdgeAt(p, i).id != EdgeAt(p, j).id
  {
    assert HopAt(g, p, i) && HopAt(g, p, j);
    assert NodeAt(p, i).id != NodeAt(p, j).id && NodeAt(p, i).id != NodeAt(p, j + 1).id;
  }
}
