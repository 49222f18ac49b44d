/** The property graph a mutable store stands for: records by id, and tombstones. */
module PropertyGraph {
  import opened Values

  datatype NodeRec = NodeRec(labels: set<string>, props: Props)

  datatype EdgeRec = EdgeRec(src: Id, tgt: Id, directed: bool, labels: set<string>, props: Props)

  /** Ids are positions; a deleted id keeps its record and its number.  The graph the session started
      from is kept beside it. */
  datatype Plain = Plain(nodes: seq<NodeRec>, edges: seq<EdgeRec>, deadNodes: set<Id>, deadEdges: set<Id>,
                         baseNodes: seq<NodeRec>, baseEdges: seq<EdgeRec>)

  function Fresh(nodes: seq<NodeRec>, edges: seq<EdgeRec>): Plain {
    Plain(nodes, edges, {}, {}, nodes, edges)
  }

  /** What a session does to the graph; `Rollback` gives up all of it. */
  datatype Mutation =
    | InsertNode(labels: set<string>, props: Props)
    | InsertEdge(src: Id, tgt: Id, directed: bool, labels: set<string>, props: Props)
    | DeleteEdge(id: Id)
    | DetachDeleteNode(id: Id)
    | DeleteNodeNoDetach(id: Id)
    | SetNodeProp(id: Id, prop: string, value: Value)
    | SetEdgeProp(id: Id, prop: string, value: Value)
    | ReplaceNodeProps(id: Id, props: Props)
    | ReplaceEdgeProps(id: Id, props: Props)
    | RemoveNodeProp(id: Id, prop: string)
    | RemoveEdgeProp(id: Id, prop: string)
    | AddNodeLabel(id: Id, name: string)
    | AddEdgeLabel(id: Id, name: string)
    | RemoveNodeLabel(id: Id, name: string)
    | RemoveEdgeLabel(id: Id, name: string)
    | Rollback

  // ---------------------------------------------------------------- live elements

  predicate NodeAlive(g: Plain, id: Id) {
    id < |g.nodes| && id !in g.deadNodes
  }

  predicate EdgeAlive(g: Plain, id: Id) {
    id < |g.edges| && id !in g.deadEdges
  }

  /** `e` is a live edge with `n` among its ends. */
  predicate Incident(g: Plain, e: Id, n: Id) {
    EdgeAlive(g, e) && (g.edges[e].src == n || g.edges[e].tgt == n)
  }

  function IncidentEdges(g: Plain, n: Id): set<Id> {
    set e: Id | e < |g.edges| && Incident(g, e, n)
  }

  ghost predicate NoDangling(g: Plain) {
    forall e: Id {:trigger EdgeAlive(g, e)} :: EdgeAlive(g, e) ==>
        NodeAlive(g, g.edges[e].src) && NodeAlive(g, g.edges[e].tgt)
  }

  // ---------------------------------------------------------------- one mutation

  function WithNodeProps(g: Plain, id: Id, props: Props): Plain {
    if id < |g.nodes| then g.(nodes := g.nodes[id := g.nodes[id].(props := props)]) else g
  }

  function WithEdgeProps(g: Plain, id: Id, props: Props): Plain {
    if id < |g.edges| then g.(edges := g.edges[id := g.edges[id].(props := props)]) else g
  }

  function WithNodeLabels(g: Plain, id: Id, labels: set<string>): Plain {
    if id < |g.nodes| then g.(nodes := g.nodes[id := g.nodes[id].(labels := labels)]) else g
  }

  function WithEdgeLabels(g: Plain, id: Id, labels: set<string>): Plain {
    if id < |g.edges| then g.(edges := g.edges[id := g.edges[id].(labels := labels)]) else g
  }

  function NodeProps(g: Plain, id: Id): Props {
    if id < |g.nodes| then g.nodes[id].props else map[]
  }

  function EdgeProps(g: Plain, id: Id): Props {
    if id < |g.edges| then g.edges[id].props else map[]
  }

  function NodeLabels(g: Plain, id: Id): set<string> {
    if id < |g.nodes| then g.nodes[id].labels else {}
  }

  function EdgeLabels(g: Plain, id: Id): set<string> {
    if id < |g.edges| then g.edges[id].labels else {}
  }

  function Step(g: Plain, m: Mutation): Plain {
    match m
    case InsertNode(labels, props) => g.(nodes := g.nodes + [NodeRec(labels, props)])
    case InsertEdge(src, tgt, directed, labels, props) =>
      g.(edges := g.edges + [EdgeRec(src, tgt, directed, labels, props)])
    case DeleteEdge(id) => g.(deadEdges := g.deadEdges + {id})
    case DetachDeleteNode(id) => g.(deadNodes := g.deadNodes + {id}, deadEdges := g.deadEdges + IncidentEdges(g, id))
    case DeleteNodeNoDetach(id) => if IncidentEdges(g, id) == {} then g.(deadNodes := g.deadNodes + {id}) else g
    case SetNodeProp(id, prop, value) => WithNodeProps(g, id, NodeProps(g, id)[prop := value])
    case SetEdgeProp(id, prop, value) => WithEdgeProps(g, id, EdgeProps(g, id)[prop := value])
    case ReplaceNodeProps(id, props) => WithNodeProps(g, id, props)
    case ReplaceEdgeProps(id, props) => WithEdgeProps(g, id, props)
    case RemoveNodeProp(id, prop) => WithNodeProps(g, id, NodeProps(g, id) - {prop})
    case RemoveEdgeProp(id, prop) => WithEdgeProps(g, id, EdgeProps(g, id) - {prop})
    case AddNodeLabel(id, name) => WithNodeLabels(g, id, NodeLabels(g, id) + {name})
    case AddEdgeLabel(id, name) => WithEdgeLabels(g, id, EdgeLabels(g, id) + {name})
    case RemoveNodeLabel(id, name) => WithNodeLabels(g, id, NodeLabels(g, id) - {name})
    case RemoveEdgeLabel(id, name) => WithEdgeLabels(g, id, EdgeLabels(g, id) - {name})
    case Rollback => Fresh(g.baseNodes, g.baseEdges)
  }

  function Run(g: Plain, ms: seq<Mutation>): Plain {
    if ms == [] then g else Step(Run(g, ms[..|ms| - 1]), ms[|ms| - 1])
  }

  /** The caller of `insert_edge` has checked both ends. */
  predicate Admitted(g: Plain, m: Mutation) {
    m.InsertEdge? ==> NodeAlive(g, m.src) && NodeAlive(g, m.tgt)
  }

  ghost predicate AllAdmitted(g: Plain, ms: seq<Mutation>) {
    forall k :: 0 <= k < |ms| ==> Admitted(Run(g, ms[..k]), ms[k])
  }

  // ---------------------------------------------------------------- no dangling edge

  /** Neither now nor after a rollback does a live edge end at a dead node. */
  ghost predicate Sound(g: Plain) {
    NoDangling(g) && NoDangling(Fresh(g.baseNodes, g.baseEdges))
  }

  lemma StepKeepsBase(g: Plain, m: Mutation)
    ensures Step(g, m).baseNodes == g.baseNodes && Step(g, m).baseEdges == g.baseEdges
  {
  }

  /** Same edges, same tombstones, at least the same nodes: still nothing dangles. */
  lemma SameTopology(g: Plain, g': Plain)
    requires NoDangling(g)
    requires |g'.edges| == |g.edges| && forall e :: 0 <= e < |g.edges| ==>
        g'.edges[e].src == g.edges[e].src && g'.edges[e].tgt == g.edges[e].tgt
    requires |g'.nodes| >= |g.nodes| && g'.deadNodes == g.deadNodes && g'.deadEdges >= g.deadEdges
    ensures NoDangling(g')
  {
    forall e: Id | EdgeAlive(g', e) ensures NodeAlive(g', g'.edges[e].src) && NodeAlive(g', g'.edges[e].tgt) {
      assert EdgeAlive(g, e);
    }
  }

  lemma InsertedEdgeHolds(g: Plain, m: Mutation)
    requires NoDangling(g) && m.InsertEdge? && Admitted(g, m)
    ensures NoDangling(Step(g, m))
  {
    var g' := Step(g, m);
    forall e: Id | EdgeAlive(g', e) ensures NodeAlive(g', g'.edges[e].src) && NodeAlive(g', g'.edges[e].tgt) {
      if e < |g.edges| {
        assert EdgeAlive(g, e);
      }
    }
  }

  lemma DeletedNodeHolds(g: Plain, m: Mutation)
    requires NoDangling(g) && (m.DetachDeleteNode? || m.DeleteNodeNoDetach?)
    ensures NoDangling(Step(g, m))
  {
    var g' := Step(g, m);
    forall e: Id | EdgeAlive(g', e) ensures NodeAlive(g', g'.edges[e].src) && NodeAlive(g', g'.edges[e].tgt) {
      assert EdgeAlive(g, e);
      if g' != g {
        assert e !in IncidentEdges(g, m.id);
      }
    }
  }

  /** Every mutation, a rollback included, keeps both ends of every live edge alive. */
  lemma StepKeepsNoDangling(g: Plain, m: Mutation)
    requires Sound(g) && Admitted(g, m)
    ensures Sound(Step(g, m))
  {
    StepKeepsBase(g, m);
    if m.Rollback? {
    } else if m.InsertEdge? {
      InsertedEdgeHolds(g, m);
    } else if m.DetachDeleteNode? || m.DeleteNodeNoDetach? {
      DeletedNodeHolds(g, m);
    } else {
      SameTopology(g, Step(g, m));
    }
  }

  lemma AdmittedPrefix(g: Plain, ms: seq<Mutation>)
    requires ms != [] && AllAdmitted(g, ms)
    ensures var n := |ms| - 1; AllAdmitted(g, ms[..n]) && Admitted(Run(g, ms[..n]), ms[n])
  {
    var n := |ms| - 1;
    forall k | 0 <= k < n ensures Admitted(Run(g, ms[..n][..k]), ms[..n][k]) {
      assert ms[..n][..k] == ms[..k];
    }
  }

  /** No reachable state has a dangling edge. */
  lemma {:induction false} RunKeepsNoDangling(g: Plain, ms: seq<Mutation>)
    requires Sound(g) && AllAdmitted(g, ms)
    ensures Sound(Run(g, ms))
  {
    if ms != [] {
      var n := |ms| - 1;
      AdmittedPrefix(g, ms);
      RunKeepsNoDangling(g, ms[..n]);
      StepKeepsNoDangling(Run(g, ms[..n]), ms[n]);
    }
  }

  /** A refused deletion changes nothing, and it is refused exactly when a live edge touches the node. */
  lemma NoDetachRefused(g: Plain, id: Id)
    ensures IncidentEdges(g, id) != {} <==> exists e: Id :: Incident(g, e, id)
    ensures IncidentEdges(g, id) != {} ==> Step(g, DeleteNodeNoDetach(id)) == g
    ensures IncidentEdges(g, id) == {} ==> Step(g, DeleteNodeNoDetach(id)) == Step(g, DetachDeleteNode(id))
  {
    if e: Id :| Incident(g, e, id) {
      assert e in IncidentEdges(g, id);
    }
    if IncidentEdges(g, id) != {} {
      var e :| e in IncidentEdges(g, id);
      assert Incident(g, e, id);
    } else {
      assert g.deadEdges + IncidentEdges(g, id) == g.deadEdges;
    }
  }

  /** After a detaching delete the node is dead and nothing touches it. */
  lemma DetachIsolates(g: Plain, id: Id)
    ensures var g' := Step(g, DetachDeleteNode(id));
      !NodeAlive(g', id) && IncidentEdges(g', id) == {}
      && forall e: Id :: EdgeAlive(g', e) <==> EdgeAlive(g, e) && !Incident(g, e, id)
  {
  }

  // ---------------------------------------------------------------- counting

  function AliveBelow(n: nat, dead: set<Id>): set<Id> {
    set id: Id | id < n && id !in dead
  }

  /** The allocated ids. */
  function Below(n: nat): set<Id> {
    if n == 0 then {} else Below(n - 1) + {n - 1}
  }

  lemma {:induction false} BelowSize(n: nat)
    ensures |Below(n)| == n && forall id: Id :: id in Below(n) <==> id < n
  {
    if n > 0 {
      BelowSize(n - 1);
    }
  }

  /** Allocated minus tombstones counts the live elements if and only if every tombstone marks an
      allocated id. */
  lemma CountExactWhen(n: nat, dead: set<Id>)
    ensures n - |dead| == |AliveBelow(n, dead)| <==> dead <= Below(n)
  {
    BelowSize(n);
    var inside, outside := dead * Below(n), dead - Below(n);
    assert dead == inside + outside;
    assert |dead| == |inside| + |outside|;
    assert AliveBelow(n, dead) == Below(n) - inside;
    assert Below(n) == AliveBelow(n, dead) + inside;
    assert |Below(n)| == |AliveBelow(n, dead)| + |inside|;
  }

  // ---------------------------------------------------------------- counts over a run

  /** Only allocated ids have been deleted. */
  predicate Allocated(g: Plain) {
    g.deadNodes <= Below(|g.nodes|) && g.deadEdges <= Below(|g.edges|)
  }

  /** The caller of a deletion has looked the element up. */
  predicate Guarded(g: Plain, m: Mutation) {
    && (m.DeleteEdge? ==> m.id < |g.edges|)
    && (m.DetachDeleteNode? || m.DeleteNodeNoDetach? ==> m.id < |g.nodes|)
  }

  ghost predicate AllGuarded(g: Plain, ms: seq<Mutation>) {
    forall k :: 0 <= k < |ms| ==> Guarded(Run(g, ms[..k]), ms[k])
  }

  lemma AllocatedAre(g: Plain)
    ensures Allocated(g) <==>
        (forall id :: id in g.deadNodes ==> id < |g.nodes|) && (forall id :: id in g.deadEdges ==> id < |g.edges|)
  {
    BelowSize(|g.nodes|);
    BelowSize(|g.edges|);
  }

  /** What a mutation adds to the tombstones exists, and no element is ever taken away but by a rollback. */
  lemma StepAdds(g: Plain, m: Mutation)
    requires Guarded(g, m) && !m.Rollback?
    ensures var g' := Step(g, m);
      && |g'.nodes| >= |g.nodes| && |g'.edges| >= |g.edges|
      && (forall id :: id in g'.deadNodes ==> id in g.deadNodes || id < |g.nodes|)
      && (forall id :: id in g'.deadEdges ==> id in g.deadEdges || id < |g.edges|)
  {
  }

  lemma StepKeepsAllocated(g: Plain, m: Mutation)
    requires Allocated(g) && Guarded(g, m)
    ensures Allocated(Step(g, m))
  {
    AllocatedAre(g);
    AllocatedAre(Step(g, m));
    if !m.Rollback? {
      StepAdds(g, m);
    }
  }

  lemma GuardedPrefix(g: Plain, ms: seq<Mutation>)
    requires ms != [] && AllGuarded(g, ms)
    ensures var n := |ms| - 1; AllGuarded(g, ms[..n]) && Guarded(Run(g, ms[..n]), ms[n])
  {
    var n := |ms| - 1;
    forall k | 0 <= k < n ensures Guarded(Run(g, ms[..n][..k]), ms[..n][k]) {
      assert ms[..n][..k] == ms[..k];
    }
  }

  lemma {:induction false} RunKeepsAllocated(g: Plain, ms: seq<Mutation>)
    requires Allocated(g) && AllGuarded(g, ms)
    ensures Allocated(Run(g, ms))
  {
    if ms != [] {
      var n := |ms| - 1;
      GuardedPrefix(g, ms);
      RunKeepsAllocated(g, ms[..n]);
      StepKeepsAllocated(Run(g, ms[..n]), ms[n]);
    }
  }

  ghost predicate NoRepeats(s: seq<Id>) {
    forall i, j :: 0 <= i < j < |s| ==> s[i] != s[j]
  }

  /** `out` lists the elements of `s`, once each. */
  ghost predicate Enumerates(out: seq<Id>, s: set<Id>) {
    NoRepeats(out) && forall id: Id :: id in out <==> id in s
  }

  lemma {:induction false} EnumerationSize(out: seq<Id>, s: set<Id>)
    requires Enumerates(out, s)
    ensures |out| == |s|
    decreases |out|
  {
    if out == [] {
      assert s == {} by {
        forall id: Id ensures id !in s { assert id !in out; }
      }
    } else {
      var k := |out| - 1;
      var x := out[k];
      assert x in out && out == out[..k] + [x];
      forall id: Id ensures id in out[..k] <==> id in s - {x} {
        assert id in out <==> id in out[..k] || id == x;
      }
      EnumerationSize(out[..k], s - {x});
    }
  }

  /** After any run in which only existing elements were deleted, the live counts are the lengths of
      the enumerations, rollbacks or not. */
  lemma RunCountsExact(g: Plain, ms: seq<Mutation>, ns: seq<Id>, es: seq<Id>)
    requires Allocated(g) && AllGuarded(g, ms)
    requires var g' := Run(g, ms);
      Enumerates(ns, AliveBelow(|g'.nodes|, g'.deadNodes)) && Enumerates(es, AliveBelow(|g'.edges|, g'.deadEdges))
    ensures var g' := Run(g, ms);
      |g'.nodes| - |g'.deadNodes| == |ns| && |g'.edges| - |g'.deadEdges| == |es|
  {
    var g' := Run(g, ms);
    RunKeepsAllocated(g, ms);
    CountExactWhen(|g'.nodes|, g'.deadNodes);
    CountExactWhen(|g'.edges|, g'.deadEdges);
    EnumerationSize(ns, AliveBelow(|g'.nodes|, g'.deadNodes));
    EnumerationSize(es, AliveBelow(|g'.edges|, g'.deadEdges));
  }
}
