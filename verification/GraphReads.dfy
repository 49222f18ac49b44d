/** What a reader of the graph sees, and what every mutation does to it: the reads after a mutation, each
    in terms of the reads before. */
module GraphReads {
  import opened Values
  import opened PropertyGraph

  // ---------------------------------------------------------------- the reads

  function Source(g: Plain, e: Id): Option<Id> {
    if e < |g.edges| then Some(g.edges[e].src) else None
  }

  function Target(g: Plain, e: Id): Option<Id> {
    if e < |g.edges| then Some(g.edges[e].tgt) else None
  }

  function Directed(g: Plain, e: Id): Option<bool> {
    if e < |g.edges| then Some(g.edges[e].directed) else None
  }

  function NodeProp(g: Plain, n: Id, k: string): Option<Value> {
    if n < |g.nodes| && k in g.nodes[n].props then Some(g.nodes[n].props[k]) else None
  }

  function EdgeProp(g: Plain, e: Id, k: string): Option<Value> {
    if e < |g.edges| && k in g.edges[e].props then Some(g.edges[e].props[k]) else None
  }

  predicate NodeLabelled(g: Plain, n: Id, l: string) {
    n < |g.nodes| && l in g.nodes[n].labels
  }

  predicate EdgeLabelled(g: Plain, e: Id, l: string) {
    e < |g.edges| && l in g.edges[e].labels
  }

  /** `e` is a live directed edge from `n`. */
  predicate Leaves(g: Plain, n: Id, e: Id) {
    EdgeAlive(g, e) && Directed(g, e) == Some(true) && Source(g, e) == Some(n)
  }

  /** `e` is a live directed edge to `n`. */
  predicate Enters(g: Plain, n: Id, e: Id) {
    EdgeAlive(g, e) && Directed(g, e) == Some(true) && Target(g, e) == Some(n)
  }

  /** `e` is a live undirected edge at `n`. */
  predicate Touches(g: Plain, n: Id, e: Id) {
    EdgeAlive(g, e) && Directed(g, e) == Some(false) && (Source(g, e) == Some(n) || Target(g, e) == Some(n))
  }

  predicate Meeting(g: Plain, n: Id, e: Id) {
    Leaves(g, n, e) || Enters(g, n, e) || Touches(g, n, e)
  }

  // ---------------------------------------------------------------- the reads after a mutation

  /** Which ids become tombstones. */
  ghost predicate KillsNode(g: Plain, m: Mutation, n: Id) {
    m == DetachDeleteNode(n) || (m == DeleteNodeNoDetach(n) && forall e: Id :: !Meeting(g, n, e))
  }

  predicate KillsEdge(g: Plain, m: Mutation, e: Id) {
    m == DeleteEdge(e) || (m.DetachDeleteNode? && Meeting(g, m.id, e))
  }

  /** The id of a new element is the number of those before it. */
  ghost predicate AfterIds(g: Plain, m: Mutation, g': Plain) {
    && |g'.nodes| == |g.nodes| + (if m.InsertNode? then 1 else 0)
    && |g'.edges| == |g.edges| + (if m.InsertEdge? then 1 else 0)
    && (forall n: Id :: n in g'.deadNodes <==> n in g.deadNodes || KillsNode(g, m, n))
    && (forall e: Id :: e in g'.deadEdges <==> e in g.deadEdges || KillsEdge(g, m, e))
    && g'.baseNodes == g.baseNodes && g'.baseEdges == g.baseEdges
  }

  ghost predicate AfterEnds(g: Plain, m: Mutation, g': Plain) {
    forall e: Id ::
      if m.InsertEdge? && e == |g.edges|
      then Source(g', e) == Some(m.src) && Target(g', e) == Some(m.tgt) && Directed(g', e) == Some(m.directed)
      else Source(g', e) == Source(g, e) && Target(g', e) == Target(g, e) && Directed(g', e) == Directed(g, e)
  }

  function PropAt(props: Props, k: string): Option<Value> {
    if k in props then Some(props[k]) else None
  }

  /** What property `k` of node `n` reads afterwards. */
  function NodePropAfter(g: Plain, m: Mutation, n: Id, k: string): Option<Value> {
    if n > |g.nodes| then None
    else if n == |g.nodes| then (if m.InsertNode? then PropAt(m.props, k) else None)
    else if m.SetNodeProp? && m.id == n && m.prop == k then Some(m.value)
    else if m.RemoveNodeProp? && m.id == n && m.prop == k then None
    else if m.ReplaceNodeProps? && m.id == n then PropAt(m.props, k)
    else NodeProp(g, n, k)
  }

  function EdgePropAfter(g: Plain, m: Mutation, e: Id, k: string): Option<Value> {
    if e > |g.edges| then None
    else if e == |g.edges| then (if m.InsertEdge? then PropAt(m.props, k) else None)
    else if m.SetEdgeProp? && m.id == e && m.prop == k then Some(m.value)
    else if m.RemoveEdgeProp? && m.id == e && m.prop == k then None
    else if m.ReplaceEdgeProps? && m.id == e then PropAt(m.props, k)
    else EdgeProp(g, e, k)
  }

  /** Whether node `n` has label `l` afterwards. */
  predicate NodeLabelledAfter(g: Plain, m: Mutation, n: Id, l: string) {
    if n > |g.nodes| then false
    else if n == |g.nodes| then m.InsertNode? && l in m.labels
    else if m.AddNodeLabel? && m.id == n && m.name == l then true
    else if m.RemoveNodeLabel? && m.id == n && m.name == l then false
    else NodeLabelled(g, n, l)
  }

  predicate EdgeLabelledAfter(g: Plain, m: Mutation, e: Id, l: string) {
    if e > |g.edges| then false
    else if e == |g.edges| then m.InsertEdge? && l in m.labels
    else if m.AddEdgeLabel? && m.id == e && m.name == l then true
    else if m.RemoveEdgeLabel? && m.id == e && m.name == l then false
    else EdgeLabelled(g, e, l)
  }

  ghost predicate AfterContents(g: Plain, m: Mutation, g': Plain) {
    && (forall n: Id, k: string :: NodeProp(g', n, k) == NodePropAfter(g, m, n, k))
    && (forall e: Id, k: string :: EdgeProp(g', e, k) == EdgePropAfter(g, m, e, k))
    && (forall n: Id, l: string :: NodeLabelled(g', n, l) <==> NodeLabelledAfter(g, m, n, l))
    && (forall e: Id, l: string :: EdgeLabelled(g', e, l) <==> EdgeLabelledAfter(g, m, e, l))
  }

  /** A rollback brings back what the session started from, without tombstones. */
  ghost predicate Restored(g: Plain, g': Plain) {
    && g'.nodes == g'.baseNodes == g.baseNodes && g'.edges == g'.baseEdges == g.baseEdges
    && g'.deadNodes == {} && g'.deadEdges == {}
  }

  ghost predicate After(g: Plain, m: Mutation, g': Plain) {
    if m.Rollback? then Restored(g, g') else AfterIds(g, m, g') && AfterEnds(g, m, g') && AfterContents(g, m, g')
  }

  // ---------------------------------------------------------------- a mutation meets it

  lemma MeetingIsIncident(g: Plain, n: Id, e: Id)
    ensures Meeting(g, n, e) <==> Incident(g, e, n)
  {
  }

  lemma StepIds(g: Plain, m: Mutation)
    requires !m.Rollback?
    ensures AfterIds(g, m, Step(g, m))
  {
    forall n: Id, e: Id ensures Meeting(g, n, e) <==> Incident(g, e, n) {
      MeetingIsIncident(g, n, e);
    }
    if m.DetachDeleteNode? || m.DeleteNodeNoDetach? {
      assert forall e: Id :: e in IncidentEdges(g, m.id) <==> Meeting(g, m.id, e);
      assert IncidentEdges(g, m.id) == {} <==> forall e: Id :: !Meeting(g, m.id, e);
    }
  }

  lemma StepEnds(g: Plain, m: Mutation)
    requires !m.Rollback?
    ensures AfterEnds(g, m, Step(g, m))
  {
  }

  lemma StepNode(g: Plain, m: Mutation, n: Id)
    requires !m.Rollback?
    ensures forall k: string :: NodeProp(Step(g, m), n, k) == NodePropAfter(g, m, n, k)
    ensures forall l: string :: NodeLabelled(Step(g, m), n, l) <==> NodeLabelledAfter(g, m, n, l)
  {
  }

  lemma StepEdge(g: Plain, m: Mutation, e: Id)
    requires !m.Rollback?
    ensures forall k: string :: EdgeProp(Step(g, m), e, k) == EdgePropAfter(g, m, e, k)
    ensures forall l: string :: EdgeLabelled(Step(g, m), e, l) <==> EdgeLabelledAfter(g, m, e, l)
  {
  }

  lemma StepContents(g: Plain, m: Mutation)
    requires !m.Rollback?
    ensures AfterContents(g, m, Step(g, m))
  {
    var g' := Step(g, m);
    forall n: Id, k: string ensures NodeProp(g', n, k) == NodePropAfter(g, m, n, k) {
      StepNode(g, m, n);
    }
    forall n: Id, l: string ensures NodeLabelled(g', n, l) <==> NodeLabelledAfter(g, m, n, l) {
      StepNode(g, m, n);
    }
    forall e: Id, k: string ensures EdgeProp(g', e, k) == EdgePropAfter(g, m, e, k) {
      StepEdge(g, m, e);
    }
    forall e: Id, l: string ensures EdgeLabelled(g', e, l) <==> EdgeLabelledAfter(g, m, e, l) {
      StepEdge(g, m, e);
    }
  }

  /** Each mutation changes the reads in this way. */
  lemma StepReads(g: Plain, m: Mutation)
    ensures After(g, m, Step(g, m))
  {
    if !m.Rollback? {
      StepIds(g, m);
      StepEnds(g, m);
      StepContents(g, m);
    }
  }

  // ---------------------------------------------------------------- and nothing else does

  lemma SameProps(p: Props, q: Props)
    requires forall k: string :: PropAt(p, k) == PropAt(q, k)
    ensures p == q
  {
    forall k: string ensures k in p <==> k in q {
      assert PropAt(p, k) == PropAt(q, k);
    }
    forall k | k in p ensures p[k] == q[k] {
      assert PropAt(p, k) == PropAt(q, k);
    }
  }

  lemma SameNode(g1: Plain, g2: Plain, n: Id)
    requires n < |g1.nodes| == |g2.nodes|
    requires forall k: string :: NodeProp(g1, n, k) == NodeProp(g2, n, k)
    requires forall l: string :: NodeLabelled(g1, n, l) <==> NodeLabelled(g2, n, l)
    ensures g1.nodes[n] == g2.nodes[n]
  {
    forall k: string ensures PropAt(g1.nodes[n].props, k) == PropAt(g2.nodes[n].props, k) {
      assert NodeProp(g1, n, k) == NodeProp(g2, n, k);
    }
    SameProps(g1.nodes[n].props, g2.nodes[n].props);
    forall l: string ensures l in g1.nodes[n].labels <==> l in g2.nodes[n].labels {
      assert NodeLabelled(g1, n, l) <==> NodeLabelled(g2, n, l);
    }
  }

  lemma SameEdge(g1: Plain, g2: Plain, e: Id)
    requires e < |g1.edges| == |g2.edges|
    requires Source(g1, e) == Source(g2, e) && Target(g1, e) == Target(g2, e) && Directed(g1, e) == Directed(g2, e)
    requires forall k: string :: EdgeProp(g1, e, k) == EdgeProp(g2, e, k)
    requires forall l: string :: EdgeLabelled(g1, e, l) <==> EdgeLabelled(g2, e, l)
    ensures g1.edges[e] == g2.edges[e]
  {
    forall k: string ensures PropAt(g1.edges[e].props, k) == PropAt(g2.edges[e].props, k) {
      assert EdgeProp(g1, e, k) == EdgeProp(g2, e, k);
    }
    SameProps(g1.edges[e].props, g2.edges[e].props);
    forall l: string ensures l in g1.edges[e].labels <==> l in g2.edges[e].labels {
      assert EdgeLabelled(g1, e, l) <==> EdgeLabelled(g2, e, l);
    }
  }

  /** The reads determine the graph: only one state answers them as they must be after a mutation. */
  lemma AfterDetermines(g: Plain, m: Mutation, g1: Plain, g2: Plain)
    requires After(g, m, g1) && After(g, m, g2)
    ensures g1 == g2
  {
    if !m.Rollback? {
      forall n: Id | n < |g1.nodes| ensures g1.nodes[n] == g2.nodes[n] {
        SameNode(g1, g2, n);
      }
      forall e: Id | e < |g1.edges| ensures g1.edges[e] == g2.edges[e] {
        SameEdge(g1, g2, e);
      }
      assert g1.deadNodes == g2.deadNodes && g1.deadEdges == g2.deadEdges;
    }
  }

  // ---------------------------------------------------------------- live elements and adjacency afterwards

  /** A new element is alive, unless its id was deleted before it was given out. */
  lemma AliveAfter(g: Plain, m: Mutation, g': Plain)
    requires After(g, m, g') && !m.Rollback?
    ensures forall n: Id :: NodeAlive(g', n) <==>
        (NodeAlive(g, n) && !KillsNode(g, m, n)) || (m.InsertNode? && n == |g.nodes| && n !in g.deadNodes)
    ensures forall e: Id :: EdgeAlive(g', e) <==>
        (EdgeAlive(g, e) && !KillsEdge(g, m, e)) || (m.InsertEdge? && e == |g.edges| && e !in g.deadEdges)
  {
  }

  /** The new edge is a neighbour of its own ends only, in its own direction; the other lists lose what
      was deleted and are otherwise as before. */
  lemma AdjacentAfter(g: Plain, m: Mutation, g': Plain, n: Id, e: Id)
    requires After(g, m, g') && !m.Rollback?
    ensures var born := m.InsertEdge? && e == |g.edges| && e !in g.deadEdges;
      && (Leaves(g', n, e) <==> (Leaves(g, n, e) && !KillsEdge(g, m, e)) || (born && m.directed && n == m.src))
      && (Enters(g', n, e) <==> (Enters(g, n, e) && !KillsEdge(g, m, e)) || (born && m.directed && n == m.tgt))
      && (Touches(g', n, e) <==>
            (Touches(g, n, e) && !KillsEdge(g, m, e)) || (born && !m.directed && (n == m.src || n == m.tgt)))
  {
    AliveAfter(g, m, g');
    assert EdgeAlive(g, e) ==> e < |g.edges|;
  }
}
