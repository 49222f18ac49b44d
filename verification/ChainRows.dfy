/** Chains of unconstrained node and edge patterns, `(a)-[]-(b)-[]-()...`, on a graph in which every
    node sequence is a path: the rows that separate a pushed test from the written one. */
module ChainRows {
  import opened Values
  import opened Syntax
  import opened RowAlgebra
  import opened Runtime
  import opened Evaluator
  import opened Scoping
  import opened StoredTypes
  import opened TypePush
  import opened Pushdown
  import opened PathSelection
  import opened PushdownRows
  import opened PushdownExact

  // ---------------------------------------------------------------- the patterns

  function Plain(name: Option<string>): Option<Descriptor> {
    if name.Some? then Some(Descriptor(name, {}, Open(map[]), [], [])) else None
  }

  /** An edge and a node more. */
  function Hop(p: PathPattern, dir: EdgeDir, name: Option<string>): PathPattern {
    Concat(Concat(p, Edge(dir, None)), Node(Plain(name)))
  }

  /** The pattern as parsed: the next edge and node extend what stands to their left. */
  function Chain(names: seq<Option<string>>, dirs: seq<EdgeDir>): PathPattern
    requires |names| == |dirs| + 1
  {
    var n := |dirs|;
    if n == 0 then Node(Plain(names[0])) else Hop(Chain(names[..n], dirs[..n - 1]), dirs[n - 1], names[n])
  }

  function NamesIn(names: seq<Option<string>>): set<string> {
    set x | x in names && x.Some? :: x.value
  }

  lemma NamedSnoc(names: seq<Option<string>>, last: Option<string>)
    ensures NamesIn(names + [last]) == NamesIn(names) + (if last.Some? then {last.value} else {})
  {
    var all := names + [last];
    assert last in all;
    forall x | x in NamesIn(names) ensures x in NamesIn(all) {
      assert Some(x) in names && Some(x) in all;
    }
  }

  function Opt(name: Option<string>): set<string> {
    if name.Some? then {name.value} else {}
  }

  lemma ConcatVars(a: PathPattern, b: PathPattern)
    ensures var c := Concat(a, b);
      && FreeVars(c) == FreeVars(a) + FreeVars(b) && PathVars(c) == PathVars(a) + PathVars(b)
      && Firm(c) == Firm(a) + Firm(b) && EdgeVars(c) == EdgeVars(a) + EdgeVars(b)
      && StartVar(c) == StartVar(a) && EndVar(c) == EndVar(b) && CollectTop(c) == CollectTop(a) + CollectTop(b)
  {
  }

  lemma PlainVars(dir: EdgeDir, name: Option<string>)
    ensures var e := Edge(dir, None);
      FreeVars(e) == {} == Firm(e) && EdgeVars(e) == {} == PathVars(e) && CollectTop(e) == []
    ensures var n := Node(Plain(name));
      && FreeVars(n) == Opt(name) == Firm(n) && EdgeVars(n) == {} == PathVars(n) && EndVar(n) == name
      && CollectTop(n) == if name.Some? then [name.value] else []
  {
  }

  lemma HopVars(p: PathPattern, dir: EdgeDir, name: Option<string>)
    ensures var h := Hop(p, dir, name);
      && FreeVars(h) == FreeVars(p) + Opt(name) && PathVars(h) == PathVars(p)
      && Firm(h) == Firm(p) + Opt(name) && EdgeVars(h) == EdgeVars(p)
      && StartVar(h) == StartVar(p) && EndVar(h) == name
      && (forall x :: x in CollectTop(h) <==> x in CollectTop(p) || Some(x) == name)
  {
    PlainVars(dir, name);
    ConcatVars(p, Edge(dir, None));
    ConcatVars(Concat(p, Edge(dir, None)), Node(Plain(name)));
  }

  lemma HopRewrites(p: PathPattern, dir: EdgeDir, name: Option<string>, acc: map<string, VarKind>)
    requires Rewrite(p) == p
    ensures Rewrite(Hop(p, dir, name)) == Hop(p, dir, name)
    ensures WalkKinds(Hop(p, dir, name), acc) == if name.Some? then WalkKinds(p, acc)[name.value := NodeKind]
      else WalkKinds(p, acc)
  {
    var e := Edge(dir, None);
    var c := Concat(p, e);
    assert Rewrite(e) == e && WalkKinds(e, WalkKinds(p, acc)) == WalkKinds(p, acc);
    assert Rewrite(c) == c && WalkKinds(c, acc) == WalkKinds(p, acc);
  }

  lemma {:induction false} ChainBinds(names: seq<Option<string>>, dirs: seq<EdgeDir>)
    requires |names| == |dirs| + 1
    ensures var c := Chain(names, dirs);
      && FreeVars(c) == NamesIn(names) == Firm(c) && PathVars(c) == {} && EdgeVars(c) == {}
      && StartVar(c) == names[0] && EndVar(c) == names[|dirs|]
      && (forall x :: x in CollectTop(c) <==> x in NamesIn(names))
    decreases |dirs|
  {
    var n := |dirs|;
    if n == 0 {
      assert names == [] + [names[0]];
      NamedSnoc([], names[0]);
    } else {
      ChainBinds(names[..n], dirs[..n - 1]);
      NamedSnoc(names[..n], names[n]);
      assert names == names[..n] + [names[n]];
      HopVars(Chain(names[..n], dirs[..n - 1]), dirs[n - 1], names[n]);
    }
  }

  lemma {:induction false} ChainRewrites(names: seq<Option<string>>, dirs: seq<EdgeDir>)
    requires |names| == |dirs| + 1
    ensures var c := Chain(names, dirs);
      Rewrite(c) == c && VarKinds(c) == map x | x in NamesIn(names) :: NodeKind
    decreases |dirs|
  {
    var n := |dirs|;
    if n == 0 {
      assert names == [] + [names[0]];
      NamedSnoc([], names[0]);
    } else {
      ChainRewrites(names[..n], dirs[..n - 1]);
      NamedSnoc(names[..n], names[n]);
      assert names == names[..n] + [names[n]];
      HopRewrites(Chain(names[..n], dirs[..n - 1]), dirs[n - 1], names[n], map[]);
    }
  }

  lemma ChainVars(names: seq<Option<string>>, dirs: seq<EdgeDir>)
    requires |names| == |dirs| + 1
    ensures var c := Chain(names, dirs);
      && FreeVars(c) == NamesIn(names) == Firm(c) && PathVars(c) == {} && EdgeVars(c) == {}
      && StartVar(c) == names[0] && EndVar(c) == names[|dirs|]
      && (forall x :: x in CollectTop(c) <==> x in NamesIn(names))
      && Rewrite(c) == c && VarKinds(c) == map x | x in NamesIn(names) :: NodeKind
  {
    ChainBinds(names, dirs);
    ChainRewrites(names, dirs);
  }

  lemma {:induction false} ChainReachable(names: seq<Option<string>>, dirs: seq<EdgeDir>, x: string)
    requires |names| == |dirs| + 1
    ensures Reachable(Chain(names, dirs), x)
    decreases |dirs|
  {
    if |dirs| > 0 {
      ChainReachable(names[..|dirs|], dirs[..|dirs| - 1], x);
    }
  }

  lemma BoundaryNamed(names: seq<Option<string>>, dirs: seq<EdgeDir>)
    requires |names| == |dirs| + 1
    ensures Boundary(Chain(names, dirs)) <= NamesIn(names)
  {
    var top := CollectTop(Chain(names, dirs));
    forall x | x in Boundary(Chain(names, dirs)) ensures x in NamesIn(names) {
      assert x in top;
      ChainVars(names, dirs);
    }
  }

  // ---------------------------------------------------------------- the graph

  /** Two nodes, and between any two of them, equal ones included, edges of every kind. */
  function EdgesOf(): seq<Id> { [0, 1, 2, 3] }

  function From(id: Id): Id { if id == 0 || id == 1 then 0 else 1 }

  function To(id: Id): Id { if id == 0 || id == 2 then 0 else 1 }

  /** Node `e` alone has the property. */
  ghost function Complete(e: Id, attr: string, v: Value): Env {
    Env(Graph([0, 1], EdgesOf(), EdgesOf(), From, To, (id: Id) => {}, (id: Id) => {},
              (id: Id) => if id == e then map[attr := v] else map[], (id: Id) => map[]),
        map[], false,
        (q: nat, scope: Scope, mu: Assignment, ambient: Assignment) => Failure,
        (pol: Policy, lb: nat, vars: set<string>, rows: seq<Row>) => [],
        (vars: set<string>) => "")
  }

  lemma CompleteStored(e: Id, attr: string, v: Value, nulls: bool)
    requires Stored(v, false)
    ensures StoredGraph(Complete(e, attr, v).g, nulls)
  {
    StoredWithoutNulls(v, nulls);
  }

  function NodeRow(id: Id, name: Option<string>): Row {
    Row([[PNode(id)]], BindOpt(name, PNode(id)))
  }

  lemma NodeThere(env: Env, pol: Policy, name: Option<string>, id: Id)
    requires id in env.g.nodes && !env.surface
    ensures NodeRow(id, name) in Rows(env, pol, Node(Plain(name)))
  {
    var d := Plain(name);
    assert NodeTest(env, d)(id) by {
      assert PropsMatch(env.g.nodeProps(id), Open(map[]));
    }
    FilterMember(env.g.nodes, NodeTest(env, d), id);
    assert NameOf(d) == name;
    assert NodeRow(id, name) in NodeStep(name)(id);
    InFlatMap(FilterSeq(env.g.nodes, NodeTest(env, d)), NodeStep(name), id, NodeRow(id, name));
  }

  lemma EdgeFromTo(a: Id, b: Id) returns (id: Id)
    requires a < 2 && b < 2
    ensures id in EdgesOf() && From(id) == a && To(id) == b
  {
    id := 2 * a + b;
    assert EdgesOf()[id] == id;
  }

  /** Some row of any edge pattern leads from `a` to `b`. */
  lemma EdgeOfThere(env: Env, dir: EdgeDir, a: Id, b: Id) returns (e: PathValue)
    requires env.g.directedEdges == EdgesOf() == env.g.undirectedEdges && env.g.src == From && env.g.tgt == To
    requires a < 2 && b < 2 && !dir.AnyDirection?
    ensures Row([[PNode(a), e, PNode(b)]], map[]) in EdgeRowsOf(env, dir, None)
  {
    var id: Id;
    if dir.Left? { id := EdgeFromTo(b, a); } else { id := EdgeFromTo(a, b); }
    e := PEdge(id, !dir.Undirected?);
    EdgeScanned(env, dir, id, Row([[PNode(a), e, PNode(b)]], map[]));
  }

  lemma EdgeScanned(env: Env, dir: EdgeDir, id: Id, r: Row)
    requires id in (if dir.Undirected? then env.g.undirectedEdges else env.g.directedEdges)
    requires r in RowsOfEdge(env.g, dir, None, id)
    ensures r in EdgeRowsOf(env, dir, None)
  {
    var ids: seq<Id> := if dir.Undirected? then env.g.undirectedEdges else env.g.directedEdges;
    FilterMember(ids, EdgeTest(env, None), id);
    InFlatMap(FilterSeq(ids, EdgeTest(env, None)), EdgeStep(env.g, dir, None), id, r);
  }

  lemma EdgeThere(env: Env, pol: Policy, dir: EdgeDir, a: Id, b: Id) returns (e: PathValue)
    requires env.g.directedEdges == EdgesOf() == env.g.undirectedEdges && env.g.src == From && env.g.tgt == To
    requires a < 2 && b < 2
    ensures Row([[PNode(a), e, PNode(b)]], map[]) in Rows(env, pol, Edge(dir, None))
  {
    e := EdgeOfThere(env, if dir.AnyDirection? then Right else dir, a, b);
  }

  // ---------------------------------------------------------------- the rows

  /** The node an element of the chain is matched with: `d` for `x`, node 0 for all others. */
  function At(name: Option<string>, x: string, d: Id): Id {
    if name == Some(x) then d else 0
  }

  function Bindings(names: seq<Option<string>>, x: string, d: Id): Assignment {
    map y | y in NamesIn(names) :: PNode(At(Some(y), x, d))
  }

  /** A row of the chain in which `x` is node `d` and every other element node 0. */
  ghost predicate Leads(r: Row, names: seq<Option<string>>, x: string, d: Id) {
    && names != []
    && |r.paths| == 1 && r.paths[0] != []
    && r.paths[0][0] == PNode(At(names[0], x, d))
    && r.paths[0][|r.paths[0]| - 1] == PNode(At(names[|names| - 1], x, d))
    && r.mu == Bindings(names, x, d)
  }

  lemma BindingsSnoc(names: seq<Option<string>>, last: Option<string>, x: string, d: Id)
    ensures Bindings(names + [last], x, d) == Bindings(names, x, d) + BindOpt(last, PNode(At(last, x, d)))
    ensures CanUnify(Bindings(names, x, d), BindOpt(last, PNode(At(last, x, d))))
  {
    NamedSnoc(names, last);
  }

  lemma ConcatLeads(r: Row, e: PathValue, names: seq<Option<string>>, last: Option<string>, x: string, d: Id)
    requires Leads(r, names, x, d)
    ensures var hop := Row([[PNode(At(names[|names| - 1], x, d)), e, PNode(At(last, x, d))]], map[]);
      var node := NodeRow(At(last, x, d), last);
      && ConcatCompat(r, hop)
      && ConcatCompat(ConcatMerge(r, hop), node)
      && Leads(ConcatMerge(ConcatMerge(r, hop), node), names + [last], x, d)
  {
    var hop := Row([[PNode(At(names[|names| - 1], x, d)), e, PNode(At(last, x, d))]], map[]);
    var node := NodeRow(At(last, x, d), last);
    var two := ConcatMerge(r, hop);
    assert two.paths == [r.paths[0] + [e, PNode(At(last, x, d))]];
    assert two.mu == r.mu;
    BindingsSnoc(names, last, x, d);
    var all := ConcatMerge(two, node);
    assert LastPath(node)[1..] == [] && two.paths[0] + [] == two.paths[0];
    assert all.paths == two.paths;
  }

  /** `env` runs on the complete graph. */
  ghost predicate OnComplete(env: Env) {
    && env.g.nodes == [0, 1] && !env.surface
    && env.g.directedEdges == EdgesOf() == env.g.undirectedEdges && env.g.src == From && env.g.tgt == To
  }

  lemma HopThere(env: Env, pol: Policy, p: PathPattern, dir: EdgeDir, names: seq<Option<string>>, last: Option<string>,
                 x: string, d: Id, q: Row) returns (r: Row)
    requires OnComplete(env) && d < 2 && q in Rows(env, pol, p) && Leads(q, names, x, d)
    ensures r in Rows(env, pol, Hop(p, dir, last)) && Leads(r, names + [last], x, d)
  {
    var a, b := At(names[|names| - 1], x, d), At(last, x, d);
    assert env.g.nodes[0] == 0 && env.g.nodes[1] == 1;
    var e := EdgeThere(env, pol, dir, a, b);
    NodeThere(env, pol, last, b);
    ConcatLeads(q, e, names, last, x, d);
    var hop, node := Row([[PNode(a), e, PNode(b)]], map[]), NodeRow(b, last);
    InConcat(env, pol, p, Edge(dir, None), q, hop);
    InConcat(env, pol, Concat(p, Edge(dir, None)), Node(Plain(last)), ConcatMerge(q, hop), node);
    r := ConcatMerge(ConcatMerge(q, hop), node);
  }

  lemma InConcat(env: Env, pol: Policy, a: PathPattern, b: PathPattern, x: Row, y: Row)
    requires x in Rows(env, pol, a) && y in Rows(env, pol, b) && ConcatCompat(x, y)
    ensures ConcatMerge(x, y) in Rows(env, pol, Concat(a, b))
  {
    InPairs(Rows(env, pol, a), Rows(env, pol, b), ConcatCompat, ConcatMerge, x, y);
  }

  lemma StartThere(env: Env, pol: Policy, name: Option<string>, x: string, d: Id) returns (r: Row)
    requires OnComplete(env) && d < 2
    ensures r in Rows(env, pol, Node(Plain(name))) && Leads(r, [name], x, d)
  {
    assert env.g.nodes[0] == 0 && env.g.nodes[1] == 1;
    r := NodeRow(At(name, x, d), name);
    NodeThere(env, pol, name, At(name, x, d));
    BindingsSnoc([], name, x, d);
    assert [name] == [] + [name];
  }

  lemma {:induction false} ChainThere(env: Env, pol: Policy, names: seq<Option<string>>, dirs: seq<EdgeDir>, x: string,
                                      d: Id)
    returns (r: Row)
    requires |names| == |dirs| + 1 && d < 2 && OnComplete(env)
    ensures r in Rows(env, pol, Chain(names, dirs)) && Leads(r, names, x, d)
    decreases |dirs|
  {
    var n := |dirs|;
    if n == 0 {
      r := StartThere(env, pol, names[0], x, d);
      assert names == [names[0]];
    } else {
      var q := ChainThere(env, pol, names[..n], dirs[..n - 1], x, d);
      assert names == names[..n] + [names[n]];
      r := HopThere(env, pol, Chain(names[..n], dirs[..n - 1]), dirs[n - 1], names[..n], names[n], x, d, q);
    }
  }

  /** The rows of a chain do not depend on what the elements carry. */
  lemma {:induction false} ChainSame(e1: Env, e2: Env, pol: Policy, names: seq<Option<string>>, dirs: seq<EdgeDir>)
    requires |names| == |dirs| + 1 && !e1.surface && !e2.surface
    requires e1.g.nodes == e2.g.nodes && e1.g.src == e2.g.src && e1.g.tgt == e2.g.tgt
    requires e1.g.directedEdges == e2.g.directedEdges && e1.g.undirectedEdges == e2.g.undirectedEdges
    ensures Rows(e1, pol, Chain(names, dirs)) == Rows(e2, pol, Chain(names, dirs))
    decreases |dirs|
  {
    var n := |dirs|;
    ScanSame(e1, e2, pol, Node(Plain(names[n])));
    if n > 0 {
      ChainSame(e1, e2, pol, names[..n], dirs[..n - 1]);
      ScanSame(e1, e2, pol, Edge(dirs[n - 1], None));
    }
  }

  lemma UnconstrainedMatches(surface: bool, labels: set<string>, props: Props, name: Option<string>)
    ensures ElementMatches(surface, labels, props, Plain(name))
  {
  }

  lemma ScanSame(e1: Env, e2: Env, pol: Policy, p: PathPattern)
    requires (p.Node? || p.Edge?) && (p.desc.None? || p.desc == Plain(p.desc.value.name))
    requires e1.g.nodes == e2.g.nodes && e1.g.src == e2.g.src && e1.g.tgt == e2.g.tgt
    requires e1.g.directedEdges == e2.g.directedEdges && e1.g.undirectedEdges == e2.g.undirectedEdges
    ensures Rows(e1, pol, p) == Rows(e2, pol, p)
  {
    forall id: Id
      ensures NodeTest(e1, p.desc)(id) == NodeTest(e2, p.desc)(id)
        && EdgeTest(e1, p.desc)(id) == EdgeTest(e2, p.desc)(id)
    {
      UnconstrainedMatches(e1.surface, e1.g.nodeLabels(id), e1.g.nodeProps(id), NameOf(p.desc));
      UnconstrainedMatches(e2.surface, e2.g.nodeLabels(id), e2.g.nodeProps(id), NameOf(p.desc));
      UnconstrainedMatches(e1.surface, e1.g.edgeLabels(id), e1.g.edgeProps(id), NameOf(p.desc));
      UnconstrainedMatches(e2.surface, e2.g.edgeLabels(id), e2.g.edgeProps(id), NameOf(p.desc));
    }
    if p.Node? {
      FilterCongruence(e1.g.nodes, NodeTest(e1, p.desc), NodeTest(e2, p.desc));
    } else {
      EdgesSame(e1, e2, p.dir, p.desc);
      EdgesSame(e1, e2, Right, p.desc);
      EdgesSame(e1, e2, Left, p.desc);
      EdgesSame(e1, e2, Undirected, p.desc);
    }
  }

  lemma EdgesSame(e1: Env, e2: Env, dir: EdgeDir, d: Option<Descriptor>)
    requires e1.g.src == e2.g.src && e1.g.tgt == e2.g.tgt
    requires e1.g.directedEdges == e2.g.directedEdges && e1.g.undirectedEdges == e2.g.undirectedEdges
    requires forall id: Id :: EdgeTest(e1, d)(id) == EdgeTest(e2, d)(id)
    ensures EdgeRowsOf(e1, dir, d) == EdgeRowsOf(e2, dir, d)
  {
    var ids := if dir.Undirected? then e1.g.undirectedEdges else e1.g.directedEdges;
    FilterCongruence(ids, EdgeTest(e1, d), EdgeTest(e2, d));
    FlatMapSame(FilterSeq(ids, EdgeTest(e1, d)), EdgeStep(e1.g, dir, NameOf(d)), EdgeStep(e2.g, dir, NameOf(d)));
  }

  lemma {:induction false} FlatMapSame<T, U>(s: seq<T>, f: T -> seq<U>, g: T -> seq<U>)
    requires forall x :: x in s ==> f(x) == g(x)
    ensures FlatMap(s, f) == FlatMap(s, g)
  {
    if s != [] {
      assert s[0] in s;
      assert forall x :: x in s[1..] ==> x in s;
      FlatMapSame(s[1..], f, g);
    }
  }

  // ---------------------------------------------------------------- ANY 1

  function AnyOne(): PathPrefix {
    PathPrefix(Walk, Any(1))
  }

  function First<T>(s: seq<T>): seq<T> {
    if s == [] then [] else [s[0]]
  }

  /** Of each partition, ANY 1 selects the first row, and no other. */
  lemma {:induction false} AnyOnePicks(rest: seq<Row>, all: seq<Row>, seen: seq<Row>, key: BoundaryKey)
    ensures Partition(SelectFrom(Any(1), rest, all, seen), key)
         == if Partition(seen, key) == [] then First(Partition(rest, key)) else []
    decreases |rest|
  {
    if rest == [] {
      assert Partition([], key) == [];
    } else {
      var r := rest[0];
      assert rest == [r] + rest[1..];
      AnyOnePicks(rest[1..], all, seen + [r], key);
      PartitionSnoc(seen, r, key);
      PartitionCons(r, rest[1..], key);
      PartitionCons(r, SelectFrom(Any(1), rest[1..], all, seen + [r]), key);
    }
  }

  lemma PrefixPicks(rows: seq<Row>, key: BoundaryKey)
    ensures Partition(ApplyPrefix(rows, AnyOne()), key) == First(Partition(rows, key))
  {
    FilterAllPass(rows, ModeTest(Walk));
    AnyOnePicks(rows, rows, [], key);
    assert Partition([], key) == [];
  }

  lemma PartitionFiltered(rows: seq<Row>, f: Row -> bool, key: BoundaryKey)
    ensures Partition(FilterSeq(rows, f), key) == FilterSeq(Partition(rows, key), f)
  {
    FiltersSwap(rows, f, (s: Row) => KeyOf(s) == key);
  }

  /** `r` passes a test that the first row of its partition fails. */
  ghost predicate Overtaken(rows: seq<Row>, f: Row -> bool, r: Row) {
    r in rows && f(r) && Partition(rows, KeyOf(r)) != [] && !f(Partition(rows, KeyOf(r))[0])
  }

  /** Then selecting before the test and after it differ. */
  lemma OrderMatters(rows: seq<Row>, f: Row -> bool, r: Row)
    requires Overtaken(rows, f, r)
    ensures ApplyPrefix(FilterSeq(rows, f), AnyOne()) != FilterSeq(ApplyPrefix(rows, AnyOne()), f)
  {
    var key := KeyOf(r);
    var first := Partition(rows, key)[0];
    PrefixPicks(rows, key);
    PrefixPicks(FilterSeq(rows, f), key);
    PartitionFiltered(rows, f, key);
    PartitionFiltered(ApplyPrefix(rows, AnyOne()), f, key);
    SingleFiltered(first, f);
    var same := (s: Row) => KeyOf(s) == key;
    FilterMember(rows, same, r);
    FilterMember(Partition(rows, key), f, r);
    assert FilterSeq(Partition(rows, key), f) != [];
  }
}
