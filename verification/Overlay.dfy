/** The mutation overlay: records inserted in a session, tombstones, and per-record changes that are
    merged into the untouched base on every read. */
module Overlay {
  import opened Values
  import opened PropertyGraph

  /** `Some` overwrites, `None` removes; `cleared` forgets the base first. */
  datatype PropMods = PropMods(cleared: bool, ops: map<string, Option<Value>>)

  datatype LabelMods = LabelMods(added: set<string>, removed: set<string>)

  function Get<K(==), V>(m: map<K, V>, k: K): Option<V> {
    if k in m then Some(m[k]) else None
  }

  // ---------------------------------------------------------------- merging one record

  function ApplyProps(base: Props, mods: Option<PropMods>): Props {
    match mods
    case None => base
    case Some(pm) =>
      var start := if pm.cleared then map[] else base;
      map k | k in start.Keys + pm.ops.Keys && (k in pm.ops ==> pm.ops[k].Some?) ::
        if k in pm.ops then pm.ops[k].value else start[k]
  }

  function ApplyLabels(base: set<string>, mods: Option<LabelMods>): set<string> {
    match mods
    case None => base
    case Some(lm) => (base - lm.removed) + lm.added
  }

  /** `apply_prop_mods`: the changes one by one, in whatever order the map yields them. */
  method ApplyPropMods(base: Props, mods: Option<PropMods>) returns (out: Props)
    ensures out == ApplyProps(base, mods)
  {
    out := base;
    if mods.None? {
      return;
    }
    var pm := mods.value;
    if pm.cleared {
      out := map[];
    }
    ghost var done: map<string, Option<Value>> := map[];
    var todo := pm.ops.Keys;
    while todo != {}
      invariant todo <= pm.ops.Keys && done.Keys == pm.ops.Keys - todo && forall k :: k in done ==> done[k] == pm.ops[k]
      invariant out == ApplyProps(base, Some(PropMods(pm.cleared, done)))
      decreases |todo|
    {
      var name :| name in todo;
      match pm.ops[name] {
        case Some(v) =>
          SetMerges(base, Some(PropMods(pm.cleared, done)), name, v);
          out := out[name := v];
        case None =>
          RemoveMerges(base, Some(PropMods(pm.cleared, done)), name);
          out := out - {name};
      }
      done := done[name := pm.ops[name]];
      todo := todo - {name};
    }
    assert done == pm.ops;
  }

  function ModsOr(m: Option<PropMods>): PropMods {
    match m case Some(pm) => pm case None => PropMods(false, map[])
  }

  function LabelModsOr(m: Option<LabelMods>): LabelMods {
    match m case Some(lm) => lm case None => LabelMods({}, {})
  }

  /** Setting a property in the overlay sets it in the merged record. */
  lemma SetMerges(base: Props, mods: Option<PropMods>, prop: string, v: Value)
    ensures ApplyProps(base, Some(ModsOr(mods).(ops := ModsOr(mods).ops[prop := Some(v)])))
         == ApplyProps(base, mods)[prop := v]
  {
  }

  lemma RemoveMerges(base: Props, mods: Option<PropMods>, prop: string)
    ensures ApplyProps(base, Some(ModsOr(mods).(ops := ModsOr(mods).ops[prop := None])))
         == ApplyProps(base, mods) - {prop}
  {
  }

  function AllSet(props: Props): PropMods {
    PropMods(true, map k | k in props :: Some(props[k]))
  }

  lemma ReplaceMerges(base: Props, props: Props)
    ensures ApplyProps(base, Some(AllSet(props))) == props
  {
  }

  lemma AddMerges(base: set<string>, mods: Option<LabelMods>, l: string)
    ensures var lm := LabelModsOr(mods);
      ApplyLabels(base, Some(LabelMods(lm.added + {l}, lm.removed - {l}))) == ApplyLabels(base, mods) + {l}
  {
  }

  lemma DropMerges(base: set<string>, mods: Option<LabelMods>, l: string)
    ensures var lm := LabelModsOr(mods);
      ApplyLabels(base, Some(LabelMods(lm.added - {l}, lm.removed + {l}))) == ApplyLabels(base, mods) - {l}
  {
  }

  // ---------------------------------------------------------------- merging all records

  function MergedNode(r: NodeRec, pm: Option<PropMods>, lm: Option<LabelMods>): NodeRec {
    NodeRec(ApplyLabels(r.labels, lm), ApplyProps(r.props, pm))
  }

  function MergedEdge(r: EdgeRec, pm: Option<PropMods>, lm: Option<LabelMods>): EdgeRec {
    r.(labels := ApplyLabels(r.labels, lm), props := ApplyProps(r.props, pm))
  }

  function MergedNodes(base: seq<NodeRec>, pms: map<Id, PropMods>, lms: map<Id, LabelMods>): (merged: seq<NodeRec>)
    ensures |merged| == |base|
  {
    if base == [] then []
    else
      var k := |base| - 1;
      MergedNodes(base[..k], pms, lms) + [MergedNode(base[k], Get(pms, k), Get(lms, k))]
  }

  lemma {:induction false} MergedNodeAt(base: seq<NodeRec>, pms: map<Id, PropMods>, lms: map<Id, LabelMods>, i: nat)
    requires i < |base|
    ensures MergedNodes(base, pms, lms)[i] == MergedNode(base[i], Get(pms, i), Get(lms, i))
    decreases |base|
  {
    if i < |base| - 1 {
      MergedNodeAt(base[..|base| - 1], pms, lms, i);
    }
  }

  function MergedEdges(base: seq<EdgeRec>, pms: map<Id, PropMods>, lms: map<Id, LabelMods>): (merged: seq<EdgeRec>)
    ensures |merged| == |base|
  {
    if base == [] then []
    else
      var k := |base| - 1;
      MergedEdges(base[..k], pms, lms) + [MergedEdge(base[k], Get(pms, k), Get(lms, k))]
  }

  lemma {:induction false} MergedEdgeAt(base: seq<EdgeRec>, pms: map<Id, PropMods>, lms: map<Id, LabelMods>, i: nat)
    requires i < |base|
    ensures MergedEdges(base, pms, lms)[i] == MergedEdge(base[i], Get(pms, i), Get(lms, i))
    decreases |base|
  {
    if i < |base| - 1 {
      MergedEdgeAt(base[..|base| - 1], pms, lms, i);
    }
  }

  /** Changing one base record's entry changes that record only. */
  lemma NodePropsChange(base: seq<NodeRec>, pms: map<Id, PropMods>, lms: map<Id, LabelMods>, id: Id, pm: PropMods,
                        props: Props)
    requires id < |base| && ApplyProps(base[id].props, Some(pm)) == props
    ensures MergedNodes(base, pms[id := pm], lms)
         == MergedNodes(base, pms, lms)[id := MergedNodes(base, pms, lms)[id].(props := props)]
  {
    var was, now := MergedNodes(base, pms, lms), MergedNodes(base, pms[id := pm], lms);
    forall i | 0 <= i < |base| ensures now[i] == if i == id then was[id].(props := props) else was[i] {
      MergedNodeAt(base, pms, lms, i);
      MergedNodeAt(base, pms[id := pm], lms, i);
    }
  }

  lemma NodeLabelsChange(base: seq<NodeRec>, pms: map<Id, PropMods>, lms: map<Id, LabelMods>, id: Id, lm: LabelMods,
                         labels: set<string>)
    requires id < |base| && ApplyLabels(base[id].labels, Some(lm)) == labels
    ensures MergedNodes(base, pms, lms[id := lm])
         == MergedNodes(base, pms, lms)[id := MergedNodes(base, pms, lms)[id].(labels := labels)]
  {
    var was, now := MergedNodes(base, pms, lms), MergedNodes(base, pms, lms[id := lm]);
    forall i | 0 <= i < |base| ensures now[i] == if i == id then was[id].(labels := labels) else was[i] {
      MergedNodeAt(base, pms, lms, i);
      MergedNodeAt(base, pms, lms[id := lm], i);
    }
  }

  /** Changing one base record's entry changes that record only. */
  lemma EdgePropsChange(base: seq<EdgeRec>, pms: map<Id, PropMods>, lms: map<Id, LabelMods>, id: Id, pm: PropMods,
                        props: Props)
    requires id < |base| && ApplyProps(base[id].props, Some(pm)) == props
    ensures MergedEdges(base, pms[id := pm], lms)
         == MergedEdges(base, pms, lms)[id := MergedEdges(base, pms, lms)[id].(props := props)]
  {
    var was, now := MergedEdges(base, pms, lms), MergedEdges(base, pms[id := pm], lms);
    forall i | 0 <= i < |base| ensures now[i] == if i == id then was[id].(props := props) else was[i] {
      MergedEdgeAt(base, pms, lms, i);
      MergedEdgeAt(base, pms[id := pm], lms, i);
    }
  }

  lemma EdgeLabelsChange(base: seq<EdgeRec>, pms: map<Id, PropMods>, lms: map<Id, LabelMods>, id: Id, lm: LabelMods,
                         labels: set<string>)
    requires id < |base| && ApplyLabels(base[id].labels, Some(lm)) == labels
    ensures MergedEdges(base, pms, lms[id := lm])
         == MergedEdges(base, pms, lms)[id := MergedEdges(base, pms, lms)[id].(labels := labels)]
  {
    var was, now := MergedEdges(base, pms, lms), MergedEdges(base, pms, lms[id := lm]);
    forall i | 0 <= i < |base| ensures now[i] == if i == id then was[id].(labels := labels) else was[i] {
      MergedEdgeAt(base, pms, lms, i);
      MergedEdgeAt(base, pms, lms[id := lm], i);
    }
  }

  lemma MergedNothing(nodes: seq<NodeRec>, edges: seq<EdgeRec>)
    ensures MergedNodes(nodes, map[], map[]) == nodes && MergedEdges(edges, map[], map[]) == edges
  {
    var ns, es := MergedNodes(nodes, map[], map[]), MergedEdges(edges, map[], map[]);
    forall i | 0 <= i < |nodes| ensures ns[i] == nodes[i] {
      MergedNodeAt(nodes, map[], map[], i);
    }
    forall i | 0 <= i < |edges| ensures es[i] == edges[i] {
      MergedEdgeAt(edges, map[], map[], i);
    }
  }

  // ---------------------------------------------------------------- adjacency lists

  function Listed(m: map<Id, seq<Id>>, n: Id): seq<Id> {
    if n in m then m[n] else []
  }

  datatype Side = Out | In | Both

  /** Is `n` the end of the edge that this side's lists are kept by? */
  predicate Meets(e: EdgeRec, side: Side, n: Id) {
    match side
    case Out => e.directed && e.src == n
    case In => e.directed && e.tgt == n
    case Both => !e.directed && (e.src == n || e.tgt == n)
  }

  /** The edges numbered from `base` that meet `n`, ascending. */
  function Adjacent(es: seq<EdgeRec>, base: nat, side: Side, n: Id): seq<Id> {
    if es == [] then []
    else
      var k := |es| - 1;
      Adjacent(es[..k], base, side, n) + (if Meets(es[k], side, n) then [base + k] else [])
  }

  lemma {:induction false} AdjacentExact(es: seq<EdgeRec>, base: nat, side: Side, n: Id)
    ensures forall id: Id :: id in Adjacent(es, base, side, n) <==>
        base <= id < base + |es| && Meets(es[id - base], side, n)
    ensures NoRepeats(Adjacent(es, base, side, n))
  {
    if es != [] {
      AdjacentExact(es[..|es| - 1], base, side, n);
      var before := Adjacent(es[..|es| - 1], base, side, n);
      forall i | 0 <= i < |before| ensures before[i] < base + |es| - 1 {
        assert before[i] in before;
      }
    }
  }

  ghost predicate ListsAre(m: map<Id, seq<Id>>, es: seq<EdgeRec>, base: nat, side: Side) {
    forall n: Id {:trigger ListIs(m, es, base, side, n)} :: ListIs(m, es, base, side, n)
  }

  ghost predicate ListIs(m: map<Id, seq<Id>>, es: seq<EdgeRec>, base: nat, side: Side, n: Id) {
    Listed(m, n) == Adjacent(es, base, side, n)
  }

  function Pushed(m: map<Id, seq<Id>>, n: Id, id: Id): map<Id, seq<Id>> {
    m[n := Listed(m, n) + [id]]
  }

  lemma NoLists(base: nat, side: Side)
    ensures ListsAre(map[], [], base, side)
  {
  }

  lemma AdjacentGrows(es: seq<EdgeRec>, base: nat, side: Side, e: EdgeRec, n: Id)
    ensures Adjacent(es + [e], base, side, n)
         == Adjacent(es, base, side, n) + (if Meets(e, side, n) then [base + |es|] else [])
  {
    assert (es + [e])[..|es|] == es;
  }

  /** An edge that no list of this side is kept by. */
  lemma PushNone(m: map<Id, seq<Id>>, es: seq<EdgeRec>, base: nat, side: Side, e: EdgeRec)
    requires ListsAre(m, es, base, side) && forall n: Id :: !Meets(e, side, n)
    ensures ListsAre(m, es + [e], base, side)
  {
    forall n: Id ensures ListIs(m, es + [e], base, side, n) {
      AdjacentGrows(es, base, side, e, n);
      assert ListIs(m, es, base, side, n);
    }
  }

  /** The list at `x` is extended. */
  lemma PushOne(m: map<Id, seq<Id>>, es: seq<EdgeRec>, base: nat, side: Side, e: EdgeRec, x: Id)
    requires ListsAre(m, es, base, side) && forall n: Id :: Meets(e, side, n) <==> n == x
    ensures ListsAre(Pushed(m, x, base + |es|), es + [e], base, side)
  {
    var m' := Pushed(m, x, base + |es|);
    forall n: Id ensures ListIs(m', es + [e], base, side, n) {
      AdjacentGrows(es, base, side, e, n);
      assert ListIs(m, es, base, side, n);
      assert Listed(m', n) == if n == x then Listed(m, n) + [base + |es|] else Listed(m, n);
    }
  }

  /** An undirected edge extends the lists at both of its ends. */
  lemma PushTwo(m: map<Id, seq<Id>>, es: seq<EdgeRec>, base: nat, e: EdgeRec)
    requires ListsAre(m, es, base, Both) && !e.directed && e.src != e.tgt
    ensures ListsAre(Pushed(Pushed(m, e.src, base + |es|), e.tgt, base + |es|), es + [e], base, Both)
  {
    var id := base + |es|;
    var m' := Pushed(Pushed(m, e.src, id), e.tgt, id);
    forall n: Id ensures ListIs(m', es + [e], base, Both, n) {
      AdjacentGrows(es, base, Both, e, n);
      assert ListIs(m, es, base, Both, n);
      ListedTwice(m, e.src, e.tgt, id, n);
    }
  }

  lemma ListedTwice(m: map<Id, seq<Id>>, x: Id, y: Id, id: Id, n: Id)
    requires x != y
    ensures Listed(Pushed(Pushed(m, x, id), y, id), n) == if n == x || n == y then Listed(m, n) + [id] else Listed(m, n)
  {
  }

  /** A new undirected self-loop is listed once. */
  lemma PushEnds(m: map<Id, seq<Id>>, es: seq<EdgeRec>, base: nat, e: EdgeRec)
    requires ListsAre(m, es, base, Both) && !e.directed
    ensures ListsAre(if e.src == e.tgt then Pushed(m, e.src, base + |es|)
                     else Pushed(Pushed(m, e.src, base + |es|), e.tgt, base + |es|),
                     es + [e], base, Both)
  {
    if e.src == e.tgt {
      PushOne(m, es, base, Both, e, e.src);
    } else {
      PushTwo(m, es, base, e);
    }
  }

  // ---------------------------------------------------------------- the overlay object

  class MutationOverlay {
    var baseNodeCount: nat
    var baseEdgeCount: nat
    var newNodes: seq<NodeRec>
    var newEdges: seq<EdgeRec>
    var deletedNodes: set<Id>
    var deletedEdges: set<Id>
    var modNodeProps: map<Id, PropMods>
    var modEdgeProps: map<Id, PropMods>
    var modNodeLabels: map<Id, LabelMods>
    var modEdgeLabels: map<Id, LabelMods>
    var newOutgoing: map<Id, seq<Id>>
    var newIncoming: map<Id, seq<Id>>
    var newUndirected: map<Id, seq<Id>>
    var touchedNodeLog: seq<Id>

    /** Changes are kept for base records only, and the adjacency lists are those of the new edges. */
    ghost predicate Valid()
      reads this
    {
      && (forall id :: id in modNodeProps ==> id < baseNodeCount)
      && (forall id :: id in modNodeLabels ==> id < baseNodeCount)
      && (forall id :: id in modEdgeProps ==> id < baseEdgeCount)
      && (forall id :: id in modEdgeLabels ==> id < baseEdgeCount)
      && ListsAre(newOutgoing, newEdges, baseEdgeCount, Out)
      && ListsAre(newIncoming, newEdges, baseEdgeCount, In)
      && ListsAre(newUndirected, newEdges, baseEdgeCount, Both)
    }

    ghost predicate Empty()
      reads this
    {
      && newNodes == [] && newEdges == [] && deletedNodes == {} && deletedEdges == {}
      && modNodeProps == map[] && modEdgeProps == map[] && modNodeLabels == map[] && modEdgeLabels == map[]
    }

    constructor (baseNodes: nat, baseEdges: nat)
      ensures Valid() && Empty() && baseNodeCount == baseNodes && baseEdgeCount == baseEdges
    {
      baseNodeCount, baseEdgeCount := baseNodes, baseEdges;
      newNodes, newEdges, deletedNodes, deletedEdges := [], [], {}, {};
      modNodeProps, modEdgeProps, modNodeLabels, modEdgeLabels := map[], map[], map[], map[];
      newOutgoing, newIncoming, newUndirected := map[], map[], map[];
      touchedNodeLog := [];
      NoLists(baseEdges, Out);
      NoLists(baseEdges, In);
      NoLists(baseEdges, Both);
    }

    method InsertNode(labels: set<string>, props: Props) returns (id: Id)
      requires Valid()
      modifies this`newNodes, this`touchedNodeLog
      ensures Valid() && id == baseNodeCount + |old(newNodes)| && newNodes == old(newNodes) + [NodeRec(labels, props)]
    {
      id := baseNodeCount + |newNodes|;
      newNodes := newNodes + [NodeRec(labels, props)];
      touchedNodeLog := touchedNodeLog + [id];
    }

    method InsertEdge(src: Id, tgt: Id, directed: bool, labels: set<string>, props: Props) returns (id: Id)
      requires Valid()
      modifies this`newEdges, this`newOutgoing, this`newIncoming, this`newUndirected
      ensures Valid() && id == baseEdgeCount + |old(newEdges)|
      ensures newEdges == old(newEdges) + [EdgeRec(src, tgt, directed, labels, props)]
    {
      id := baseEdgeCount + |newEdges|;
      var e := EdgeRec(src, tgt, directed, labels, props);
      ghost var was := newEdges;
      if directed {
        PushOne(newOutgoing, was, baseEdgeCount, Out, e, src);
        PushOne(newIncoming, was, baseEdgeCount, In, e, tgt);
        PushNone(newUndirected, was, baseEdgeCount, Both, e);
        newOutgoing := Pushed(newOutgoing, src, id);
        newIncoming := Pushed(newIncoming, tgt, id);
      } else {
        PushNone(newOutgoing, was, baseEdgeCount, Out, e);
        PushNone(newIncoming, was, baseEdgeCount, In, e);
        PushEnds(newUndirected, was, baseEdgeCount, e);
        newUndirected := Pushed(newUndirected, src, id);
        if src != tgt {
          newUndirected := Pushed(newUndirected, tgt, id);
        }
      }
      newEdges := newEdges + [e];
    }

    method DeleteEdge(id: Id)
      modifies this`deletedEdges
      ensures deletedEdges == old(deletedEdges) + {id}
    {
      deletedEdges := deletedEdges + {id};
    }

    method DeleteNode(id: Id)
      modifies this`deletedNodes, this`touchedNodeLog
      ensures deletedNodes == old(deletedNodes) + {id}
    {
      deletedNodes := deletedNodes + {id};
      touchedNodeLog := touchedNodeLog + [id];
    }

    /** Back to no mutations, over the given base. */
    method Clear(baseNodes: nat, baseEdges: nat)
      modifies this
      ensures Valid() && Empty() && baseNodeCount == baseNodes && baseEdgeCount == baseEdges
    {
      baseNodeCount, baseEdgeCount := baseNodes, baseEdges;
      newNodes, newEdges, deletedNodes, deletedEdges := [], [], {}, {};
      ClearMods();
      ClearLists();
      touchedNodeLog := [];
    }

    method ClearLists()
      requires newEdges == []
      modifies this`newOutgoing, this`newIncoming, this`newUndirected
      ensures ListsAre(newOutgoing, newEdges, baseEdgeCount, Out)
      ensures ListsAre(newIncoming, newEdges, baseEdgeCount, In)
      ensures ListsAre(newUndirected, newEdges, baseEdgeCount, Both)
    {
      newOutgoing, newIncoming, newUndirected := map[], map[], map[];
      NoLists(baseEdgeCount, Out);
      NoLists(baseEdgeCount, In);
      NoLists(baseEdgeCount, Both);
    }

    method ClearMods()
      modifies this`modNodeProps, this`modEdgeProps, this`modNodeLabels, this`modEdgeLabels
      ensures modNodeProps == map[] && modEdgeProps == map[] && modNodeLabels == map[] && modEdgeLabels == map[]
    {
      modNodeProps, modEdgeProps, modNodeLabels, modEdgeLabels := map[], map[], map[], map[];
    }
  }
}
