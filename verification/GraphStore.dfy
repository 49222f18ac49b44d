/** The in-memory store: an immutable base with its indexes, read through the mutation overlay. */
module GraphStore {
  import opened Values
  import opened PropertyGraph
  import opened GraphReads
  import opened Overlay

  // ---------------------------------------------------------------- label indexes

  type Index = map<string, seq<Id>>

  predicate HasLabel(labels: set<string>, l: string) {
    l in labels
  }

  /** The nodes numbered from `base` that carry `l`, ascending. */
  function Labelled(ns: seq<NodeRec>, base: nat, l: string): seq<Id> {
    if ns == [] then []
    else
      var k := |ns| - 1;
      Labelled(ns[..k], base, l) + (if HasLabel(ns[k].labels, l) then [base + k] else [])
  }

  predicate EdgeHas(e: EdgeRec, l: string, directed: bool) {
    e.directed == directed && l in e.labels
  }

  function LabelledEdges(es: seq<EdgeRec>, base: nat, l: string, directed: bool): seq<Id> {
    if es == [] then []
    else
      var k := |es| - 1;
      LabelledEdges(es[..k], base, l, directed) + (if EdgeHas(es[k], l, directed) then [base + k] else [])
  }

  lemma {:induction false} LabelledExact(ns: seq<NodeRec>, base: nat, l: string)
    ensures forall id: Id :: id in Labelled(ns, base, l) <==>
        base <= id < base + |ns| && HasLabel(ns[id - base].labels, l)
    ensures NoRepeats(Labelled(ns, base, l))
  {
    if ns != [] {
      LabelledExact(ns[..|ns| - 1], base, l);
      var before := Labelled(ns[..|ns| - 1], base, l);
      forall i | 0 <= i < |before| ensures before[i] < base + |ns| - 1 {
        assert before[i] in before;
      }
    }
  }

  lemma {:induction false} LabelledEdgesExact(es: seq<EdgeRec>, base: nat, l: string, directed: bool)
    ensures forall id: Id :: id in LabelledEdges(es, base, l, directed) <==>
        base <= id < base + |es| && EdgeHas(es[id - base], l, directed)
    ensures NoRepeats(LabelledEdges(es, base, l, directed))
  {
    if es != [] {
      LabelledEdgesExact(es[..|es| - 1], base, l, directed);
      var before := LabelledEdges(es[..|es| - 1], base, l, directed);
      forall i | 0 <= i < |before| ensures before[i] < base + |es| - 1 {
        assert before[i] in before;
      }
    }
  }

  function Entry(ix: Index, l: string): seq<Id> {
    if l in ix then ix[l] else []
  }

  /** `for l in labels { index.entry(l).or_default().push(id) }` */
  function PushAll(ix: Index, labels: set<string>, id: Id): Index {
    map l | l in ix.Keys + labels :: Entry(ix, l) + (if l in labels then [id] else [])
  }

  ghost predicate IndexesNodes(ix: Index, ns: seq<NodeRec>) {
    forall l {:trigger Entry(ix, l)} :: Entry(ix, l) == Labelled(ns, 0, l)
  }

  ghost predicate IndexesEdges(ix: Index, es: seq<EdgeRec>, directed: bool) {
    forall l {:trigger Entry(ix, l)} :: Entry(ix, l) == LabelledEdges(es, 0, l, directed)
  }

  lemma IndexNode(ix: Index, ns: seq<NodeRec>, k: nat)
    requires k < |ns| && IndexesNodes(ix, ns[..k])
    ensures IndexesNodes(PushAll(ix, ns[k].labels, k), ns[..k + 1])
  {
    var ix' := PushAll(ix, ns[k].labels, k);
    assert ns[..k + 1][..k] == ns[..k];
    forall l ensures Entry(ix', l) == Labelled(ns[..k + 1], 0, l) {
      assert Entry(ix', l) == Entry(ix, l) + (if l in ns[k].labels then [k] else []);
    }
  }

  lemma IndexEdge(ix: Index, es: seq<EdgeRec>, directed: bool, k: nat)
    requires k < |es| && IndexesEdges(ix, es[..k], directed)
    ensures IndexesEdges(if es[k].directed == directed then PushAll(ix, es[k].labels, k) else ix, es[..k + 1], directed)
  {
    var ix', upto := if es[k].directed == directed then PushAll(ix, es[k].labels, k) else ix, es[..k + 1];
    forall l ensures Entry(ix', l) == LabelledEdges(upto, 0, l, directed) {
      EdgeEntry(ix, es, directed, k, l);
    }
  }

  lemma EdgeEntry(ix: Index, es: seq<EdgeRec>, directed: bool, k: nat, l: string)
    requires k < |es| && IndexesEdges(ix, es[..k], directed)
    ensures Entry(if es[k].directed == directed then PushAll(ix, es[k].labels, k) else ix, l)
         == LabelledEdges(es[..k + 1], 0, l, directed)
  {
    assert es[..k + 1][..k] == es[..k];
    assert Entry(ix, l) == LabelledEdges(es[..k], 0, l, directed);
  }

  // ---------------------------------------------------------------- base adjacency

  /** What the loader pushes to the list of `n` for the edge `id`: an undirected edge once for each end. */
  function Pushes(e: EdgeRec, side: Side, n: Id, id: Id): seq<Id> {
    match side
    case Both => if e.directed then [] else (if e.src == n then [id] else []) + (if e.tgt == n then [id] else [])
    case _ => if Meets(e, side, n) then [id] else []
  }

  /** The list of `n` as the loader fills it. */
  function Filled(es: seq<EdgeRec>, side: Side, n: Id): seq<Id> {
    if es == [] then []
    else
      var k := |es| - 1;
      Filled(es[..k], side, n) + Pushes(es[k], side, n, k)
  }

  ghost predicate AdjacencyOf(adj: seq<seq<Id>>, es: seq<EdgeRec>, side: Side) {
    forall n {:trigger adj[n]} :: 0 <= n < |adj| ==> adj[n] == Filled(es, side, n)
  }

  function PushAt(adj: seq<seq<Id>>, n: Id, id: Id): (adj': seq<seq<Id>>)
    requires n < |adj|
    ensures |adj'| == |adj|
  {
    adj[n := adj[n] + [id]]
  }

  lemma AdjacencyStep(adj: seq<seq<Id>>, adj': seq<seq<Id>>, es: seq<EdgeRec>, k: nat, side: Side)
    requires k < |es| && AdjacencyOf(adj, es[..k], side) && |adj'| == |adj|
    requires forall n :: 0 <= n < |adj| ==> adj'[n] == adj[n] + Pushes(es[k], side, n, k)
    ensures AdjacencyOf(adj', es[..k + 1], side)
  {
    assert es[..k + 1][..k] == es[..k];
    forall n | 0 <= n < |adj'| ensures adj'[n] == Filled(es[..k + 1], side, n) {
      assert adj[n] == Filled(es[..k], side, n);
    }
  }

  lemma {:induction false} FilledExact(es: seq<EdgeRec>, side: Side, n: Id)
    ensures forall id: Id :: id in Filled(es, side, n) <==> id < |es| && Meets(es[id], side, n)
  {
    if es != [] {
      var k := |es| - 1;
      FilledExact(es[..k], side, n);
      forall id: Id ensures id in Filled(es, side, n) <==> id < |es| && Meets(es[id], side, n) {
        PushedOnce(es[k], side, n, k, id);
      }
    }
  }

  lemma PushedOnce(e: EdgeRec, side: Side, n: Id, id: Id, x: Id)
    ensures x in Pushes(e, side, n, id) <==> x == id && Meets(e, side, n)
  {
  }

  // ---------------------------------------------------------------- filtering tombstones

  function Live(ids: seq<Id>, dead: set<Id>): seq<Id> {
    if ids == [] then []
    else
      var k := |ids| - 1;
      Live(ids[..k], dead) + (if ids[k] in dead then [] else [ids[k]])
  }

  lemma {:induction false} LiveExact(ids: seq<Id>, dead: set<Id>)
    ensures forall id :: id in Live(ids, dead) <==> id in ids && id !in dead
    ensures NoRepeats(ids) ==> NoRepeats(Live(ids, dead))
  {
    if ids != [] {
      var k := |ids| - 1;
      LiveExact(ids[..k], dead);
      assert ids == ids[..k] + [ids[k]];
      if NoRepeats(ids) {
        assert ids[k] !in ids[..k];
      }
    }
  }

  lemma NoRepeatsJoin(a: seq<Id>, b: seq<Id>)
    requires NoRepeats(a) && NoRepeats(b) && forall id :: id in a ==> id !in b
    ensures NoRepeats(a + b)
  {
    var s := a + b;
    forall i, j | 0 <= i < j < |s| ensures s[i] != s[j] {
      if i < |a| <= j {
        assert s[i] in a && s[j] in b;
      }
    }
  }

  lemma NoRepeatsParts(a: seq<Id>, b: seq<Id>)
    ensures NoRepeats(a + b) ==> NoRepeats(a) && NoRepeats(b)
  {
    var s := a + b;
    if NoRepeats(s) {
      assert forall i :: 0 <= i < |a| ==> s[i] == a[i];
      assert forall i :: 0 <= i < |b| ==> s[|a| + i] == b[i];
    }
  }

  lemma {:induction false} LiveAppend(a: seq<Id>, b: seq<Id>, dead: set<Id>)
    ensures Live(a + b, dead) == Live(a, dead) + Live(b, dead)
    decreases |b|
  {
    if b == [] {
      assert a + b == a;
    } else {
      var k := |b| - 1;
      LiveAppend(a, b[..k], dead);
      assert (a + b)[..|a + b| - 1] == a + b[..k];
    }
  }

  predicate Loop(e: EdgeRec, n: Id) {
    !e.directed && e.src == n && e.tgt == n
  }

  /** A live undirected self-loop of the base at `n`. */
  ghost predicate LoopAmong(es: seq<EdgeRec>, dead: set<Id>, n: Id) {
    exists id: Id :: id < |es| && id !in dead && Loop(es[id], n)
  }

  lemma PushesRepeat(e: EdgeRec, side: Side, n: Id, id: Id, dead: set<Id>)
    ensures NoRepeats(Live(Pushes(e, side, n, id), dead)) <==> !(side.Both? && Loop(e, n) && id !in dead)
    ensures forall x :: x in Live(Pushes(e, side, n, id), dead) ==> x == id
  {
    LiveExact(Pushes(e, side, n, id), dead);
    if side.Both? && Loop(e, n) {
      assert Pushes(e, side, n, id) == [id] + [id];
      LiveSnoc([id], id, dead);
      LiveSnoc([], id, dead);
      assert [] + [id] == [id];
    }
  }

  /** A list of the base names a live edge twice if and only if it is an undirected self-loop. */
  lemma {:induction false} FilledRepeats(es: seq<EdgeRec>, side: Side, n: Id, dead: set<Id>)
    ensures NoRepeats(Live(Filled(es, side, n), dead)) <==> !(side.Both? && LoopAmong(es, dead, n))
  {
    if es != [] {
      var k := |es| - 1;
      var before, last := Filled(es[..k], side, n), Pushes(es[k], side, n, k);
      FilledRepeats(es[..k], side, n, dead);
      FilledExact(es[..k], side, n);
      LiveAppend(before, last, dead);
      LiveExact(before, dead);
      PushesRepeat(es[k], side, n, k, dead);
      if NoRepeats(Live(before, dead)) && NoRepeats(Live(last, dead)) {
        NoRepeatsJoin(Live(before, dead), Live(last, dead));
      }
      NoRepeatsParts(Live(before, dead), Live(last, dead));
      LoopSnoc(es, dead, n);
    }
  }

  lemma LoopSnoc(es: seq<EdgeRec>, dead: set<Id>, n: Id)
    requires es != []
    ensures var k := |es| - 1; LoopAmong(es, dead, n) <==> LoopAmong(es[..k], dead, n) || (k !in dead && Loop(es[k], n))
  {
    var k := |es| - 1;
    if id: Id :| id < |es[..k]| && id !in dead && Loop(es[..k][id], n) {
      assert Loop(es[id], n);
    }
    if id: Id :| id < |es| && id !in dead && Loop(es[id], n) {
      assert id == k || Loop(es[..k][id], n);
    }
  }

  /** One undirected edge from node 0 to itself: loaded, it is listed twice at the node; inserted
      later, once. */
  lemma LoopListedTwice(labels: set<string>, props: Props)
    ensures var e := EdgeRec(0, 0, false, labels, props);
      && Filled([e], Both, 0) == [0, 0]
      && Adjacent([e], 0, Both, 0) == [0]
  {
    var e := EdgeRec(0, 0, false, labels, props);
    var none: seq<EdgeRec> := [];
    assert [e][..0] == none && Filled(none, Both, 0) == [] && Adjacent(none, 0, Both, 0) == [];
    assert Pushes(e, Both, 0, 0) == [0] + [0];
  }

  lemma NoRepeatsSnoc(a: seq<Id>, x: Id)
    requires NoRepeats(a) && x !in a
    ensures NoRepeats(a + [x])
  {
  }

  /** Appends the live ids of `extra`, in order. */
  method AppendLive(start: seq<Id>, extra: seq<Id>, dead: set<Id>) returns (out: seq<Id>)
    ensures out == start + Live(extra, dead)
  {
    out := start;
    for k := 0 to |extra|
      invariant out == start + Live(extra[..k], dead)
    {
      assert extra[..k + 1][..k] == extra[..k];
      if extra[k] !in dead {
        out := out + [extra[k]];
      }
    }
    assert extra[..|extra|] == extra;
  }

  /** The live edges numbered from `base` with the wanted direction, ascending. */
  function DirectedIds(es: seq<EdgeRec>, base: nat, dead: set<Id>, want: bool): seq<Id> {
    if es == [] then []
    else
      var k := |es| - 1;
      DirectedIds(es[..k], base, dead, want) + (if base + k !in dead && es[k].directed == want then [base + k] else [])
  }

  lemma {:induction false} DirectedExact(es: seq<EdgeRec>, base: nat, dead: set<Id>, want: bool)
    ensures NoRepeats(DirectedIds(es, base, dead, want))
    ensures forall id: Id :: id in DirectedIds(es, base, dead, want) <==>
              (base <= id < base + |es| && id !in dead && es[id - base].directed == want)
  {
    if es != [] {
      DirectedExact(es[..|es| - 1], base, dead, want);
      var before := DirectedIds(es[..|es| - 1], base, dead, want);
      forall i | 0 <= i < |before| ensures before[i] < base + |es| - 1 {
        assert before[i] in before;
      }
    }
  }

  lemma DirectedMember(es: seq<EdgeRec>, base: nat, dead: set<Id>, want: bool, id: Id)
    ensures id in DirectedIds(es, base, dead, want) <==>
              (base <= id < base + |es| && id !in dead && es[id - base].directed == want)
  {
    DirectedExact(es, base, dead, want);
  }

  method AppendDirected(start: seq<Id>, es: seq<EdgeRec>, base: nat, dead: set<Id>, want: bool) returns (out: seq<Id>)
    ensures out == start + DirectedIds(es, base, dead, want)
  {
    out := start;
    for k := 0 to |es|
      invariant out == start + DirectedIds(es[..k], base, dead, want)
    {
      assert es[..k + 1][..k] == es[..k];
      if base + k !in dead && es[k].directed == want {
        out := out + [base + k];
      }
    }
    assert es[..|es|] == es;
  }

  /** The overlay's changes to the set of edges since the base. */
  datatype EdgeDelta = EdgeDelta(liveOverlay: seq<(Id, bool)>, deleted: set<Id>, nextEdgeId: nat)

  method LiveNewEdges(es: seq<EdgeRec>, base: nat, dead: set<Id>) returns (live: seq<(Id, bool)>)
    ensures forall id: Id, d: bool :: (id, d) in live <==>
        (base <= id < base + |es| && id !in dead && es[id - base].directed == d)
  {
    live := [];
    for k := 0 to |es|
      invariant forall id: Id, d: bool :: (id, d) in live <==>
          (base <= id < base + k && id !in dead && es[id - base].directed == d)
    {
      if base + k !in dead {
        live := live + [(base + k, es[k].directed)];
      }
    }
  }

  lemma LiveMember(ids: seq<Id>, dead: set<Id>, id: Id)
    ensures id in Live(ids, dead) <==> id in ids && id !in dead
  {
    LiveExact(ids, dead);
  }

  lemma LiveSnoc(ids: seq<Id>, x: Id, dead: set<Id>)
    ensures Live(ids + [x], dead) == Live(ids, dead) + (if x in dead then [] else [x])
  {
    assert (ids + [x])[..|ids|] == ids;
  }

  // ---------------------------------------------------------------- one property change

  function WithOp(mods: Option<PropMods>, prop: string, op: Option<Value>): PropMods {
    ModsOr(mods).(ops := ModsOr(mods).ops[prop := op])
  }

  function Changed(props: Props, prop: string, op: Option<Value>): Props {
    match op case Some(v) => props[prop := v] case None => props - {prop}
  }

  lemma OpMerges(base: Props, mods: Option<PropMods>, prop: string, op: Option<Value>)
    ensures ApplyProps(base, Some(WithOp(mods, prop, op))) == Changed(ApplyProps(base, mods), prop, op)
  {
    match op
    case Some(v) => SetMerges(base, mods, prop, v);
    case None => RemoveMerges(base, mods, prop);
  }

  // ---------------------------------------------------------------- label reads

  function IdSet(ids: seq<Id>): set<Id> {
    set id | id in ids
  }

  function OrEmpty(r: Option<seq<Id>>): seq<Id> {
    match r case Some(ids) => ids case None => []
  }

  predicate Removed(mods: map<Id, LabelMods>, id: Id, l: string) {
    id in mods && l in mods[id].removed
  }

  predicate Added(mods: map<Id, LabelMods>, id: Id, l: string) {
    id in mods && l in mods[id].added
  }

  /** The base list without deleted ids and without those whose label was removed. */
  function Unremoved(ids: seq<Id>, dead: set<Id>, mods: map<Id, LabelMods>, l: string): seq<Id> {
    if ids == [] then []
    else
      var k := |ids| - 1;
      Unremoved(ids[..k], dead, mods, l) + (if ids[k] in dead || Removed(mods, ids[k], l) then [] else [ids[k]])
  }

  lemma {:induction false} UnremovedExact(ids: seq<Id>, dead: set<Id>, mods: map<Id, LabelMods>, l: string)
    ensures forall id :: id in Unremoved(ids, dead, mods, l) <==> id in ids && id !in dead && !Removed(mods, id, l)
    ensures NoRepeats(ids) ==> NoRepeats(Unremoved(ids, dead, mods, l))
  {
    if ids != [] {
      var k := |ids| - 1;
      UnremovedExact(ids[..k], dead, mods, l);
      assert ids == ids[..k] + [ids[k]];
      if NoRepeats(ids) {
        assert ids[k] !in ids[..k];
      }
    }
  }

  /** The loop over the label changes: live ids that gained the label and are not listed yet. */
  method AppendAdded(start: seq<Id>, mods: map<Id, LabelMods>, dead: set<Id>, l: string, ok: Id -> bool)
    returns (out: seq<Id>)
    requires NoRepeats(start)
    ensures NoRepeats(out)
    ensures forall id :: id in out <==> id in start || (Added(mods, id, l) && ok(id) && id !in dead)
  {
    out := start;
    var todo := mods.Keys;
    while todo != {}
      invariant todo <= mods.Keys && NoRepeats(out)
      invariant forall id :: id in out <==> id in start || (id !in todo && Added(mods, id, l) && ok(id) && id !in dead)
      decreases |todo|
    {
      var id :| id in todo;
      if l in mods[id].added && ok(id) && id !in dead && id !in out {
        NoRepeatsSnoc(out, id);
        out := out + [id];
      }
      todo := todo - {id};
    }
  }

  lemma LabelledNext(ns: seq<NodeRec>, base: nat, dead: set<Id>, l: string, k: nat)
    requires k < |ns|
    ensures Live(Labelled(ns[..k + 1], base, l), dead)
         == Live(Labelled(ns[..k], base, l), dead) + (if base + k !in dead && l in ns[k].labels then [base + k] else [])
  {
    var before := Labelled(ns[..k], base, l);
    assert ns[..k + 1][..k] == ns[..k];
    if l in ns[k].labels {
      LiveSnoc(before, base + k, dead);
    } else {
      assert Labelled(ns[..k + 1], base, l) == before;
    }
  }

  lemma LabelledEdgesNext(es: seq<EdgeRec>, base: nat, dead: set<Id>, l: string, want: bool, k: nat)
    requires k < |es|
    ensures Live(LabelledEdges(es[..k + 1], base, l, want), dead)
         == Live(LabelledEdges(es[..k], base, l, want), dead)
           + (if base + k !in dead && EdgeHas(es[k], l, want) then [base + k] else [])
  {
    var before := LabelledEdges(es[..k], base, l, want);
    assert es[..k + 1][..k] == es[..k];
    if EdgeHas(es[k], l, want) {
      LiveSnoc(before, base + k, dead);
    } else {
      assert LabelledEdges(es[..k + 1], base, l, want) == before;
    }
  }

  method AppendNewNodes(start: seq<Id>, ns: seq<NodeRec>, base: nat, dead: set<Id>, l: string) returns (out: seq<Id>)
    ensures out == start + Live(Labelled(ns, base, l), dead)
  {
    out := start;
    for k := 0 to |ns|
      invariant out == start + Live(Labelled(ns[..k], base, l), dead)
    {
      LabelledNext(ns, base, dead, l, k);
      if base + k in dead {
        continue;
      }
      if l in ns[k].labels {
        out := out + [base + k];
      }
    }
    assert ns[..|ns|] == ns;
  }

  method AppendNewEdges(start: seq<Id>, es: seq<EdgeRec>, base: nat, dead: set<Id>, l: string, want: bool)
    returns (out: seq<Id>)
    ensures out == start + Live(LabelledEdges(es, base, l, want), dead)
  {
    out := start;
    for k := 0 to |es|
      invariant out == start + Live(LabelledEdges(es[..k], base, l, want), dead)
    {
      LabelledEdgesNext(es, base, dead, l, want, k);
      if base + k in dead || es[k].directed != want {
        continue;
      }
      if l in es[k].labels {
        out := out + [base + k];
      }
    }
    assert es[..|es|] == es;
  }

  lemma LabelledMember(ns: seq<NodeRec>, base: nat, dead: set<Id>, l: string, id: Id)
    ensures id in Live(Labelled(ns, base, l), dead) <==>
        base <= id < base + |ns| && id !in dead && l in ns[id - base].labels
    ensures NoRepeats(Live(Labelled(ns, base, l), dead))
  {
    LabelledExact(ns, base, l);
    LiveExact(Labelled(ns, base, l), dead);
  }

  lemma LabelledEdgeMember(es: seq<EdgeRec>, base: nat, dead: set<Id>, l: string, want: bool, id: Id)
    ensures id in Live(LabelledEdges(es, base, l, want), dead) <==>
        base <= id < base + |es| && id !in dead && EdgeHas(es[id - base], l, want)
    ensures NoRepeats(Live(LabelledEdges(es, base, l, want), dead))
  {
    LabelledEdgesExact(es, base, l, want);
    LiveExact(LabelledEdges(es, base, l, want), dead);
  }

  /** Merged labels, one name at a time. */
  lemma MergedLabel(base: set<string>, mods: map<Id, LabelMods>, id: Id, l: string)
    ensures l in ApplyLabels(base, Get(mods, id)) <==> (l in base && !Removed(mods, id, l)) || Added(mods, id, l)
  {
  }

  lemma NewAdjMember(lists: map<Id, seq<Id>>, es: seq<EdgeRec>, base: nat, side: Side, n: Id, id: Id)
    requires ListsAre(lists, es, base, side)
    ensures id in Listed(lists, n) <==> (base <= id < base + |es| && Meets(es[id - base], side, n))
  {
    AdjacentExact(es, base, side, n);
    assert ListIs(lists, es, base, side, n);
  }

  // ---------------------------------------------------------------- the store

  class MemoryGraphStore {
    const nodes: seq<NodeRec>
    const edges: seq<EdgeRec>
    const labelToNodes: Index
    const labelToEdgesD: Index
    const labelToEdgesU: Index
    const outgoing: seq<seq<Id>>
    const incoming: seq<seq<Id>>
    const undirectedAdj: seq<seq<Id>>
    const overlay: MutationOverlay

    /** The loaded indexes describe the base. */
    ghost predicate Indexed() {
      && IndexesNodes(labelToNodes, nodes)
      && IndexesEdges(labelToEdgesD, edges, true) && IndexesEdges(labelToEdgesU, edges, false)
      && |outgoing| == |incoming| == |undirectedAdj| == |nodes|
      && AdjacencyOf(outgoing, edges, Out) && AdjacencyOf(incoming, edges, In)
      && AdjacencyOf(undirectedAdj, edges, Both)
      && forall e :: 0 <= e < |edges| ==> edges[e].src < |nodes| && edges[e].tgt < |nodes|
    }

    ghost predicate Valid()
      reads overlay
    {
      && Indexed() && overlay.Valid()
      && overlay.baseNodeCount == |nodes| && overlay.baseEdgeCount == |edges|
    }

    /** The graph the store stands for. */
    ghost function View(): Plain
      reads overlay
    {
      Plain(MergedNodes(nodes, overlay.modNodeProps, overlay.modNodeLabels) + overlay.newNodes,
            MergedEdges(edges, overlay.modEdgeProps, overlay.modEdgeLabels) + overlay.newEdges,
            overlay.deletedNodes, overlay.deletedEdges, nodes, edges)
    }

    /** `from_raw`: columns in, indexes built in one pass over nodes and one over edges. */
    constructor FromRaw(ns: seq<NodeRec>, es: seq<EdgeRec>)
      requires forall e :: 0 <= e < |es| ==> es[e].src < |ns| && es[e].tgt < |ns|
      ensures Valid() && fresh(overlay) && View() == Fresh(ns, es)
    {
      var byLabel := IndexNodes(ns);
      var d, u := IndexEdges(es);
      var out, inc, und := LinkEdges(|ns|, es);
      this.nodes, this.edges := ns, es;
      this.labelToNodes, this.labelToEdgesD, this.labelToEdgesU := byLabel, d, u;
      this.outgoing, this.incoming, this.undirectedAdj := out, inc, und;
      this.overlay := new MutationOverlay(|ns|, |es|);
      new;
      MergedNothing(ns, es);
      assert View().nodes == ns && View().edges == es;
    }

    // -------------------------------------------------------------- point reads

    method NodeProps(id: Id) returns (r: Props)
      requires Valid() && id < |View().nodes|
      ensures r == View().nodes[id].props
    {
      NewNodeInView(id);
      if id >= overlay.baseNodeCount {
        return overlay.newNodes[id - overlay.baseNodeCount].props;
      }
      BaseNodeInView(id);
      r := ApplyPropMods(nodes[id].props, Get(overlay.modNodeProps, id));
    }

    method EdgeProps(id: Id) returns (r: Props)
      requires Valid() && id < |View().edges|
      ensures r == View().edges[id].props
    {
      EdgeInView(id);
      if id >= overlay.baseEdgeCount {
        return overlay.newEdges[id - overlay.baseEdgeCount].props;
      }
      BaseEdgeInView(id);
      r := ApplyPropMods(edges[id].props, Get(overlay.modEdgeProps, id));
    }

    method NodeLabels(id: Id) returns (r: set<string>)
      requires Valid() && id < |View().nodes|
      ensures r == View().nodes[id].labels
    {
      NewNodeInView(id);
      if id >= overlay.baseNodeCount {
        return overlay.newNodes[id - overlay.baseNodeCount].labels;
      }
      BaseNodeInView(id);
      r := ApplyLabels(nodes[id].labels, Get(overlay.modNodeLabels, id));
    }

    method EdgeLabels(id: Id) returns (r: set<string>)
      requires Valid() && id < |View().edges|
      ensures r == View().edges[id].labels
    {
      EdgeInView(id);
      if id >= overlay.baseEdgeCount {
        return overlay.newEdges[id - overlay.baseEdgeCount].labels;
      }
      BaseEdgeInView(id);
      r := ApplyLabels(edges[id].labels, Get(overlay.modEdgeLabels, id));
    }

    method Src(id: Id) returns (n: Id)
      requires Valid() && id < |View().edges|
      ensures Source(View(), id) == Some(n)
    {
      EdgeInView(id);
      if id >= overlay.baseEdgeCount {
        return overlay.newEdges[id - overlay.baseEdgeCount].src;
      }
      n := edges[id].src;
    }

    method Tgt(id: Id) returns (n: Id)
      requires Valid() && id < |View().edges|
      ensures Target(View(), id) == Some(n)
    {
      EdgeInView(id);
      if id >= overlay.baseEdgeCount {
        return overlay.newEdges[id - overlay.baseEdgeCount].tgt;
      }
      n := edges[id].tgt;
    }

    method IsDirected(id: Id) returns (r: bool)
      requires Valid() && id < |View().edges|
      ensures Directed(View(), id) == Some(r)
    {
      EdgeInView(id);
      if id >= overlay.baseEdgeCount {
        return overlay.newEdges[id - overlay.baseEdgeCount].directed;
      }
      r := edges[id].directed;
    }

    method IsNodeAlive(id: Id) returns (r: bool)
      requires Valid()
      ensures r == NodeAlive(View(), id)
    {
      if id in overlay.deletedNodes {
        return false;
      }
      if id < overlay.baseNodeCount {
        return true;
      }
      r := id - overlay.baseNodeCount < |overlay.newNodes|;
    }

    method IsEdgeAlive(id: Id) returns (r: bool)
      requires Valid()
      ensures r == EdgeAlive(View(), id)
    {
      if id in overlay.deletedEdges {
        return false;
      }
      if id < overlay.baseEdgeCount {
        return true;
      }
      r := id - overlay.baseEdgeCount < |overlay.newEdges|;
    }

    /** Signed here; the machine's subtraction needs the tombstones not to outnumber the ids. */
    method LiveCounts() returns (n: int, e: int)
      requires Valid()
      ensures n == |AliveBelow(|View().nodes|, View().deadNodes)| <==> View().deadNodes <= Below(|View().nodes|)
      ensures e == |AliveBelow(|View().edges|, View().deadEdges)| <==> View().deadEdges <= Below(|View().edges|)
    {
      n := overlay.baseNodeCount + |overlay.newNodes| - |overlay.deletedNodes|;
      e := overlay.baseEdgeCount + |overlay.newEdges| - |overlay.deletedEdges|;
      CountExactWhen(|View().nodes|, View().deadNodes);
      CountExactWhen(|View().edges|, View().deadEdges);
    }

    // -------------------------------------------------------------- enumerations

    method Nodes() returns (out: seq<Id>)
      requires Valid()
      ensures NoRepeats(out) && forall id: Id :: id in out <==> NodeAlive(View(), id)
      ensures |out| == |AliveBelow(|View().nodes|, View().deadNodes)|
    {
      out := [];
      var next := overlay.baseNodeCount + |overlay.newNodes|;
      for id := 0 to next
        invariant NoRepeats(out) && forall x: Id :: x in out <==> x < id && x !in overlay.deletedNodes
      {
        if id !in overlay.deletedNodes {
          NoRepeatsSnoc(out, id);
          out := out + [id];
        }
      }
      EnumerationSize(out, AliveBelow(|View().nodes|, View().deadNodes));
    }

    /** `edges_directed` and `edges_undirected`. */
    method EdgesDirected(want: bool) returns (out: seq<Id>)
      requires Valid()
      ensures NoRepeats(out) && forall id: Id :: id in out <==>
          EdgeAlive(View(), id) && View().edges[id].directed == want
    {
      out := AppendDirected([], edges, 0, overlay.deletedEdges, want);
      out := AppendDirected(out, overlay.newEdges, overlay.baseEdgeCount, overlay.deletedEdges, want);
      DirectedExact(edges, 0, overlay.deletedEdges, want);
      DirectedExact(overlay.newEdges, |edges|, overlay.deletedEdges, want);
      ghost var a := DirectedIds(edges, 0, overlay.deletedEdges, want);
      ghost var b := DirectedIds(overlay.newEdges, |edges|, overlay.deletedEdges, want);
      assert out == a + b;
      NoRepeatsJoin(a, b);
      forall id: Id ensures id in out <==> EdgeAlive(View(), id) && View().edges[id].directed == want {
        DirectedInView(id, want);
      }
    }

    lemma DirectedInView(id: Id, want: bool)
      ensures EdgeAlive(View(), id) && View().edges[id].directed == want <==>
              id in DirectedIds(edges, 0, overlay.deletedEdges, want)
              || id in DirectedIds(overlay.newEdges, |edges|, overlay.deletedEdges, want)
    {
      DirectedMember(edges, 0, overlay.deletedEdges, want, id);
      DirectedMember(overlay.newEdges, |edges|, overlay.deletedEdges, want, id);
      EdgeInView(id);
      ghost var g := View();
      assert EdgeAlive(g, id) <==> id < |edges| + |overlay.newEdges| && id !in overlay.deletedEdges;
    }

    /** An edge's ends and direction are never modified. */
    lemma EdgeInView(id: Id)
      ensures |View().edges| == |edges| + |overlay.newEdges|
      ensures id < |edges| ==>
          View().edges[id].src == edges[id].src && View().edges[id].tgt == edges[id].tgt
          && View().edges[id].directed == edges[id].directed
      ensures |edges| <= id < |View().edges| ==> View().edges[id] == overlay.newEdges[id - |edges|]
    {
      if id < |edges| {
        MergedEdgeAt(edges, overlay.modEdgeProps, overlay.modEdgeLabels, id);
      }
    }

    /** What an edge index built over the base needs to catch up: none if a label moved; else the live
        new edges and the tombstones, which together leave every other base edge as it was. */
    method EdgeMutations() returns (r: Option<EdgeDelta>)
      requires Valid()
      ensures r.None? <==> overlay.modEdgeLabels != map[]
      ensures r.Some? ==> r.value.nextEdgeId == |View().edges|
      ensures r.Some? ==> forall id: Id, d: bool :: (id, d) in r.value.liveOverlay <==>
        (|edges| <= id && EdgeAlive(View(), id) && View().edges[id].directed == d)
      ensures r.Some? ==> forall id: Id :: id < |edges| ==>
        (EdgeAlive(View(), id) <==> id !in r.value.deleted) && View().edges[id].labels == edges[id].labels
    {
      if overlay.modEdgeLabels != map[] {
        return None;
      }
      var live := LiveNewEdges(overlay.newEdges, overlay.baseEdgeCount, overlay.deletedEdges);
      r := Some(EdgeDelta(live, overlay.deletedEdges, overlay.baseEdgeCount + |overlay.newEdges|));
      forall id: Id ensures |edges| <= id < |View().edges| ==> View().edges[id] == overlay.newEdges[id - |edges|] {
        EdgeInView(id);
      }
      forall id: Id | id < |edges| ensures View().edges[id].labels == edges[id].labels {
        MergedEdgeAt(edges, overlay.modEdgeProps, overlay.modEdgeLabels, id);
      }
    }

    // -------------------------------------------------------------- adjacency

    ghost function SideOf(side: Side): seq<seq<Id>> {
      match side case Out => outgoing case In => incoming case Both => undirectedAdj
    }

    /** Which live edges an adjacency read must return. */
    ghost predicate Wanted(side: Side, n: Id, id: Id)
      reads overlay
    {
      EdgeAlive(View(), id) && Meets(View().edges[id], side, n)
    }

    lemma BaseAdjExact(side: Side, n: Id, id: Id)
      requires Indexed()
      ensures n < |nodes| ==> (id in SideOf(side)[n] <==> id < |edges| && Meets(edges[id], side, n))
      ensures n >= |nodes| ==> !(id < |edges| && Meets(edges[id], side, n))
    {
      FilledExact(edges, side, n);
    }

    /** A live edge meets `n` in the view exactly when its own record does. */
    lemma WantedAt(side: Side, n: Id, id: Id)
      ensures id < |edges| ==> (Wanted(side, n, id) <==> (id !in overlay.deletedEdges && Meets(edges[id], side, n)))
      ensures |edges| <= id < |edges| + |overlay.newEdges| ==>
        (Wanted(side, n, id) <==> (id !in overlay.deletedEdges && Meets(overlay.newEdges[id - |edges|], side, n)))
      ensures id >= |edges| + |overlay.newEdges| ==> !Wanted(side, n, id)
    {
      EdgeInView(id);
    }

    method MergeAdjacency(side: Side, adj: seq<seq<Id>>, lists: map<Id, seq<Id>>, n: Id) returns (out: seq<Id>)
      requires Valid() && adj == SideOf(side) && ListsAre(lists, overlay.newEdges, |edges|, side)
      ensures forall id: Id :: id in out <==> Wanted(side, n, id)
      ensures NoRepeats(out) <==> !(side.Both? && BaseLoop(n))
    {
      var base := if n < |adj| then adj[n] else [];
      out := AppendLive([], base, overlay.deletedEdges);
      var extra := if n in lists then lists[n] else [];
      out := AppendLive(out, extra, overlay.deletedEdges);
      assert out == Live(base, overlay.deletedEdges) + Live(extra, overlay.deletedEdges);
      forall id: Id ensures id in out <==> Wanted(side, n, id) {
        MergedExact(side, base, extra, lists, n, id);
      }
      ListedOnce(side, base, extra, lists, n);
    }

    lemma MergedExact(side: Side, base: seq<Id>, extra: seq<Id>, lists: map<Id, seq<Id>>, n: Id, id: Id)
      requires Valid() && ListsAre(lists, overlay.newEdges, |edges|, side)
      requires base == if n < |nodes| then SideOf(side)[n] else []
      requires extra == Listed(lists, n)
      ensures id in Live(base, overlay.deletedEdges) || id in Live(extra, overlay.deletedEdges) <==>
          Wanted(side, n, id)
    {
      BaseHalf(side, base, n, id);
      LiveMember(extra, overlay.deletedEdges, id);
      NewAdjMember(lists, overlay.newEdges, |edges|, side, n, id);
      WantedAt(side, n, id);
    }

    lemma BaseHalf(side: Side, base: seq<Id>, n: Id, id: Id)
      requires Valid() && base == if n < |nodes| then SideOf(side)[n] else []
      ensures id in Live(base, overlay.deletedEdges) <==>
          id < |edges| && id !in overlay.deletedEdges && Meets(edges[id], side, n)
    {
      LiveMember(base, overlay.deletedEdges, id);
      BaseAdjExact(side, n, id);
    }

    /** A live base edge that is an undirected self-loop at `n`. */
    ghost predicate BaseLoop(n: Id)
      reads overlay
    {
      LoopAmong(edges, overlay.deletedEdges, n)
    }

    /** The same, seen from outside. */
    ghost predicate LiveBaseLoop(n: Id)
      reads overlay
    {
      exists id: Id :: id < |edges| && EdgeAlive(View(), id) && Loop(View().edges[id], n)
    }

    lemma BaseLoopInView(n: Id)
      ensures BaseLoop(n) <==> LiveBaseLoop(n)
    {
      forall id: Id | id < |edges|
        ensures EdgeAlive(View(), id) && Loop(View().edges[id], n) <==>
            id !in overlay.deletedEdges && Loop(edges[id], n)
      {
        EdgeInView(id);
      }
    }

    lemma ListedOnce(side: Side, base: seq<Id>, extra: seq<Id>, lists: map<Id, seq<Id>>, n: Id)
      requires Valid() && ListsAre(lists, overlay.newEdges, |edges|, side)
      requires base == if n < |nodes| then SideOf(side)[n] else []
      requires extra == Listed(lists, n)
      ensures NoRepeats(Live(base, overlay.deletedEdges) + Live(extra, overlay.deletedEdges)) <==>
          !(side.Both? && BaseLoop(n))
    {
      var dead := overlay.deletedEdges;
      var a, b := Live(base, dead), Live(extra, dead);
      assert ListIs(lists, overlay.newEdges, |edges|, side, n);
      AdjacentExact(overlay.newEdges, |edges|, side, n);
      LiveExact(base, dead);
      LiveExact(extra, dead);
      if n < |nodes| {
        assert base == Filled(edges, side, n);
        FilledRepeats(edges, side, n, dead);
        FilledExact(edges, side, n);
      } else {
        assert a == [] && NoRepeats(a);
        assert !BaseLoop(n);
      }
      if NoRepeats(a) {
        NoRepeatsJoin(a, b);
      }
      NoRepeatsParts(a, b);
    }

    method OutgoingEdges(n: Id) returns (out: seq<Id>)
      requires Valid()
      ensures NoRepeats(out) && forall id: Id :: id in out <==> Leaves(View(), n, id)
    {
      out := MergeAdjacency(Out, outgoing, overlay.newOutgoing, n);
    }

    method IncomingEdges(n: Id) returns (out: seq<Id>)
      requires Valid()
      ensures NoRepeats(out) && forall id: Id :: id in out <==> Enters(View(), n, id)
    {
      out := MergeAdjacency(In, incoming, overlay.newIncoming, n);
    }

    method UndirectedEdgesOf(n: Id) returns (out: seq<Id>)
      requires Valid()
      ensures forall id: Id :: id in out <==> Touches(View(), n, id)
      ensures NoRepeats(out) <==> !LiveBaseLoop(n)
    {
      BaseLoopInView(n);
      out := MergeAdjacency(Both, undirectedAdj, overlay.newUndirected, n);
    }

    // -------------------------------------------------------------- label reads

    ghost predicate NodeCarries(id: Id, l: string)
      reads overlay
    {
      NodeAlive(View(), id) && l in View().nodes[id].labels
    }

    ghost predicate EdgeCarries(id: Id, l: string, want: bool)
      reads overlay
    {
      EdgeAlive(View(), id) && EdgeHas(View().edges[id], l, want)
    }

    lemma NodeCarriesBase(id: Id, l: string)
      requires id < |nodes|
      ensures NodeCarries(id, l) <==>
        (id !in overlay.deletedNodes
         && ((l in nodes[id].labels && !Removed(overlay.modNodeLabels, id, l)) || Added(overlay.modNodeLabels, id, l)))
    {
      MergedLabel(nodes[id].labels, overlay.modNodeLabels, id, l);
      MergedNodeAt(nodes, overlay.modNodeProps, overlay.modNodeLabels, id);
      assert View().nodes[id] == MergedNode(nodes[id], Get(overlay.modNodeProps, id), Get(overlay.modNodeLabels, id));
    }

    lemma NodeCarriesNew(id: Id, l: string)
      requires id >= |nodes|
      ensures NodeCarries(id, l) <==>
          id < |nodes| + |overlay.newNodes| && id !in overlay.deletedNodes && l in overlay.newNodes[id - |nodes|].labels
    {
    }

    lemma EdgeCarriesBase(id: Id, l: string, want: bool)
      requires id < |edges|
      ensures EdgeCarries(id, l, want) <==>
        (id !in overlay.deletedEdges && edges[id].directed == want
         && ((l in edges[id].labels && !Removed(overlay.modEdgeLabels, id, l)) || Added(overlay.modEdgeLabels, id, l)))
    {
      MergedLabel(edges[id].labels, overlay.modEdgeLabels, id, l);
      MergedEdgeAt(edges, overlay.modEdgeProps, overlay.modEdgeLabels, id);
      assert View().edges[id] == MergedEdge(edges[id], Get(overlay.modEdgeProps, id), Get(overlay.modEdgeLabels, id));
    }

    lemma EdgeCarriesNew(id: Id, l: string, want: bool)
      requires id >= |edges|
      ensures EdgeCarries(id, l, want) <==>
        id < |edges| + |overlay.newEdges| && id !in overlay.deletedEdges
        && EdgeHas(overlay.newEdges[id - |edges|], l, want)
    {
    }

    /** Exactly the live nodes that carry the label; no answer means none. */
    method NodesWithLabel(l: string) returns (r: Option<seq<Id>>)
      requires Valid()
      ensures NoRepeats(OrEmpty(r)) && forall id: Id :: id in OrEmpty(r) <==> NodeCarries(id, l)
    {
      var base := Get(labelToNodes, l);
      BaseLabelled(l);
      if overlay.newNodes == [] && overlay.deletedNodes == {} && overlay.modNodeLabels == map[] {
        CleanNodes(l);
        return base;
      }
      var out := MergeLabelledNodes(l, OrEmpty(base));
      r := if base.Some? || out != [] then Some(out) else None;
    }

    lemma BaseLabelled(l: string)
      requires Indexed()
      ensures NoRepeats(OrEmpty(Get(labelToNodes, l)))
      ensures forall id: Id :: id in OrEmpty(Get(labelToNodes, l)) <==> id < |nodes| && l in nodes[id].labels
    {
      assert OrEmpty(Get(labelToNodes, l)) == Entry(labelToNodes, l) == Labelled(nodes, 0, l);
      LabelledExact(nodes, 0, l);
    }

    method MergeLabelledNodes(l: string, base: seq<Id>) returns (out: seq<Id>)
      requires Valid() && NoRepeats(base) && forall id: Id :: id in base <==> id < |nodes| && l in nodes[id].labels
      ensures NoRepeats(out) && forall id: Id :: id in out <==> NodeCarries(id, l)
    {
      var kept := Unremoved(base, overlay.deletedNodes, overlay.modNodeLabels, l);
      UnremovedExact(base, overlay.deletedNodes, overlay.modNodeLabels, l);
      var more := AppendAdded(kept, overlay.modNodeLabels, overlay.deletedNodes, l, _ => true);
      out := AppendNewNodes(more, overlay.newNodes, overlay.baseNodeCount, overlay.deletedNodes, l);
      LabelReadNodes(l, kept, more, out);
    }

    /** The fast path: an untouched overlay leaves the base index in charge. */
    lemma CleanNodes(l: string)
      requires overlay.newNodes == [] && overlay.deletedNodes == {} && overlay.modNodeLabels == map[]
      ensures forall id: Id :: NodeCarries(id, l) <==> id < |nodes| && l in nodes[id].labels
    {
      forall id: Id ensures NodeCarries(id, l) <==> id < |nodes| && l in nodes[id].labels {
        if id < |nodes| { NodeCarriesBase(id, l); } else { NodeCarriesNew(id, l); }
      }
    }

    lemma LabelReadNodes(l: string, kept: seq<Id>, more: seq<Id>, out: seq<Id>)
      requires Valid() && NoRepeats(more)
      requires forall id: Id :: id in kept <==>
          id < |nodes| && l in nodes[id].labels && id !in overlay.deletedNodes && !Removed(overlay.modNodeLabels, id, l)
      requires forall id: Id :: id in more <==>
          id in kept || (Added(overlay.modNodeLabels, id, l) && id !in overlay.deletedNodes)
      requires out == more + Live(Labelled(overlay.newNodes, |nodes|, l), overlay.deletedNodes)
      ensures NoRepeats(out) && forall id: Id :: id in out <==> NodeCarries(id, l)
    {
      var fresh' := Live(Labelled(overlay.newNodes, |nodes|, l), overlay.deletedNodes);
      forall id: Id ensures (id in more ==> id !in fresh') && (id in out <==> NodeCarries(id, l)) {
        LabelledMember(overlay.newNodes, |nodes|, overlay.deletedNodes, l, id);
        if id < |nodes| { NodeCarriesBase(id, l); } else { NodeCarriesNew(id, l); }
      }
      LabelledMember(overlay.newNodes, |nodes|, overlay.deletedNodes, l, 0);
      NoRepeatsJoin(more, fresh');
    }

    /** `edges_with_label_dir`: exactly the live edges of that direction that carry the label. */
    method EdgesWithLabelDir(l: string, want: bool) returns (r: Option<seq<Id>>)
      requires Valid()
      ensures NoRepeats(OrEmpty(r)) && forall id: Id :: id in OrEmpty(r) <==> EdgeCarries(id, l, want)
    {
      var index := if want then labelToEdgesD else labelToEdgesU;
      var base := Get(index, l);
      BaseLabelledEdges(index, l, want);
      if overlay.newEdges == [] && overlay.deletedEdges == {} && overlay.modEdgeLabels == map[] {
        CleanEdges(l, want);
        return base;
      }
      var out := MergeLabelledEdges(l, want, OrEmpty(base));
      r := if base.Some? || out != [] then Some(out) else None;
    }

    lemma BaseLabelledEdges(index: Index, l: string, want: bool)
      requires IndexesEdges(index, edges, want)
      ensures NoRepeats(OrEmpty(Get(index, l)))
      ensures forall id: Id :: id in OrEmpty(Get(index, l)) <==> id < |edges| && EdgeHas(edges[id], l, want)
    {
      assert OrEmpty(Get(index, l)) == Entry(index, l) == LabelledEdges(edges, 0, l, want);
      LabelledEdgesExact(edges, 0, l, want);
    }

    method MergeLabelledEdges(l: string, want: bool, base: seq<Id>) returns (out: seq<Id>)
      requires Valid() && NoRepeats(base) && forall id: Id :: id in base <==>
          id < |edges| && EdgeHas(edges[id], l, want)
      ensures NoRepeats(out) && forall id: Id :: id in out <==> EdgeCarries(id, l, want)
    {
      var kept := Unremoved(base, overlay.deletedEdges, overlay.modEdgeLabels, l);
      UnremovedExact(base, overlay.deletedEdges, overlay.modEdgeLabels, l);
      var columns := edges;
      var more := AppendAdded(kept, overlay.modEdgeLabels, overlay.deletedEdges, l,
                              (id: Id) => id < |columns| && columns[id].directed == want);
      out := AppendNewEdges(more, overlay.newEdges, overlay.baseEdgeCount, overlay.deletedEdges, l, want);
      LabelReadEdges(l, want, kept, more, out);
    }

    lemma CleanEdges(l: string, want: bool)
      requires overlay.newEdges == [] && overlay.deletedEdges == {} && overlay.modEdgeLabels == map[]
      ensures forall id: Id :: EdgeCarries(id, l, want) <==> id < |edges| && EdgeHas(edges[id], l, want)
    {
      forall id: Id ensures EdgeCarries(id, l, want) <==> id < |edges| && EdgeHas(edges[id], l, want) {
        if id < |edges| { EdgeCarriesBase(id, l, want); } else { EdgeCarriesNew(id, l, want); }
      }
    }

    lemma LabelReadEdges(l: string, want: bool, kept: seq<Id>, more: seq<Id>, out: seq<Id>)
      requires Valid() && NoRepeats(more)
      requires forall id: Id :: id in kept <==>
          id < |edges| && EdgeHas(edges[id], l, want) && id !in overlay.deletedEdges
          && !Removed(overlay.modEdgeLabels, id, l)
      requires forall id: Id :: id in more <==>
        (id in kept
         || (Added(overlay.modEdgeLabels, id, l) && id < |edges| && edges[id].directed == want
             && id !in overlay.deletedEdges))
      requires out == more + Live(LabelledEdges(overlay.newEdges, |edges|, l, want), overlay.deletedEdges)
      ensures NoRepeats(out) && forall id: Id :: id in out <==> EdgeCarries(id, l, want)
    {
      var fresh' := Live(LabelledEdges(overlay.newEdges, |edges|, l, want), overlay.deletedEdges);
      forall id: Id ensures (id in more ==> id !in fresh') && (id in out <==> EdgeCarries(id, l, want)) {
        LabelledEdgeMember(overlay.newEdges, |edges|, overlay.deletedEdges, l, want, id);
        if id < |edges| { EdgeCarriesBase(id, l, want); } else { EdgeCarriesNew(id, l, want); }
      }
      LabelledEdgeMember(overlay.newEdges, |edges|, overlay.deletedEdges, l, want, 0);
      NoRepeatsJoin(more, fresh');
    }

    // -------------------------------------------------------------- incident edges

    method Incidents(n: Id) returns (out: seq<Id>)
      requires Valid()
      ensures forall id: Id :: id in out <==> id in IncidentEdges(View(), n)
    {
      var o := OutgoingEdges(n);
      var i := IncomingEdges(n);
      var u := UndirectedEdgesOf(n);
      out := o + i + u;
      forall id: Id ensures id in out <==> id in IncidentEdges(View(), n) {
        assert id in out <==> Wanted(Out, n, id) || Wanted(In, n, id) || Wanted(Both, n, id);
      }
    }

    // -------------------------------------------------------------- writing one record

    method PutNodeMods(id: Id, pm: PropMods, ghost props: Props)
      requires Valid() && id < |nodes| && ApplyProps(nodes[id].props, Some(pm)) == props
      modifies overlay`modNodeProps
      ensures Valid() && View() == WithNodeProps(old(View()), id, props)
    {
      ghost var merged := MergedNodes(nodes, overlay.modNodeProps, overlay.modNodeLabels);
      NodePropsChange(nodes, overlay.modNodeProps, overlay.modNodeLabels, id, pm, props);
      UpdateLeft(merged, overlay.newNodes, id, merged[id].(props := props));
      overlay.modNodeProps := overlay.modNodeProps[id := pm];
    }

    method PutEdgeMods(id: Id, pm: PropMods, ghost props: Props)
      requires Valid() && id < |edges| && ApplyProps(edges[id].props, Some(pm)) == props
      modifies overlay`modEdgeProps
      ensures Valid() && View() == WithEdgeProps(old(View()), id, props)
    {
      ghost var merged := MergedEdges(edges, overlay.modEdgeProps, overlay.modEdgeLabels);
      EdgePropsChange(edges, overlay.modEdgeProps, overlay.modEdgeLabels, id, pm, props);
      UpdateLeft(merged, overlay.newEdges, id, merged[id].(props := props));
      overlay.modEdgeProps := overlay.modEdgeProps[id := pm];
    }

    method PutNodeLabelMods(id: Id, lm: LabelMods, ghost labels: set<string>)
      requires Valid() && id < |nodes| && ApplyLabels(nodes[id].labels, Some(lm)) == labels
      modifies overlay`modNodeLabels
      ensures Valid() && View() == WithNodeLabels(old(View()), id, labels)
    {
      ghost var merged := MergedNodes(nodes, overlay.modNodeProps, overlay.modNodeLabels);
      NodeLabelsChange(nodes, overlay.modNodeProps, overlay.modNodeLabels, id, lm, labels);
      UpdateLeft(merged, overlay.newNodes, id, merged[id].(labels := labels));
      overlay.modNodeLabels := overlay.modNodeLabels[id := lm];
    }

    method PutEdgeLabelMods(id: Id, lm: LabelMods, ghost labels: set<string>)
      requires Valid() && id < |edges| && ApplyLabels(edges[id].labels, Some(lm)) == labels
      modifies overlay`modEdgeLabels
      ensures Valid() && View() == WithEdgeLabels(old(View()), id, labels)
    {
      ghost var merged := MergedEdges(edges, overlay.modEdgeProps, overlay.modEdgeLabels);
      EdgeLabelsChange(edges, overlay.modEdgeProps, overlay.modEdgeLabels, id, lm, labels);
      UpdateLeft(merged, overlay.newEdges, id, merged[id].(labels := labels));
      overlay.modEdgeLabels := overlay.modEdgeLabels[id := lm];
    }

    method PutNewNode(id: Id, rec: NodeRec)
      requires Valid() && |nodes| <= id < |nodes| + |overlay.newNodes|
      modifies overlay`newNodes
      ensures Valid() && View() == old(View()).(nodes := old(View()).nodes[id := rec])
    {
      var off := id - overlay.baseNodeCount;
      UpdateRight(MergedNodes(nodes, overlay.modNodeProps, overlay.modNodeLabels), overlay.newNodes, off, rec);
      overlay.newNodes := overlay.newNodes[off := rec];
    }

    method PutNewEdge(id: Id, e: EdgeRec)
      requires Valid() && |edges| <= id < |edges| + |overlay.newEdges|
      requires ghost var was := overlay.newEdges[id - |edges|];
        e.src == was.src && e.tgt == was.tgt && e.directed == was.directed
      modifies overlay`newEdges
      ensures Valid() && View() == old(View()).(edges := old(View()).edges[id := e])
    {
      var off := id - overlay.baseEdgeCount;
      UpdateRight(MergedEdges(edges, overlay.modEdgeProps, overlay.modEdgeLabels), overlay.newEdges, off, e);
      SameLists(overlay.newOutgoing, overlay.newEdges, overlay.baseEdgeCount, Out, off, e);
      SameLists(overlay.newIncoming, overlay.newEdges, overlay.baseEdgeCount, In, off, e);
      SameLists(overlay.newUndirected, overlay.newEdges, overlay.baseEdgeCount, Both, off, e);
      overlay.newEdges := overlay.newEdges[off := e];
    }

    /** `new_nodes.get_mut(off)`: an id never allocated is ignored. */
    method PutNewNodeProps(id: Id, props: Props)
      requires Valid() && id >= |nodes|
      modifies overlay`newNodes
      ensures Valid() && View() == WithNodeProps(old(View()), id, props)
    {
      NewNodeInView(id);
      if id - overlay.baseNodeCount < |overlay.newNodes| {
        PutNewNode(id, overlay.newNodes[id - overlay.baseNodeCount].(props := props));
      }
    }

    method PutNewNodeLabels(id: Id, labels: set<string>)
      requires Valid() && id >= |nodes|
      modifies overlay`newNodes
      ensures Valid() && View() == WithNodeLabels(old(View()), id, labels)
    {
      NewNodeInView(id);
      if id - overlay.baseNodeCount < |overlay.newNodes| {
        PutNewNode(id, overlay.newNodes[id - overlay.baseNodeCount].(labels := labels));
      }
    }

    method PutNewEdgeProps(id: Id, props: Props)
      requires Valid() && id >= |edges|
      modifies overlay`newEdges
      ensures Valid() && View() == WithEdgeProps(old(View()), id, props)
    {
      EdgeInView(id);
      if id - overlay.baseEdgeCount < |overlay.newEdges| {
        PutNewEdge(id, overlay.newEdges[id - overlay.baseEdgeCount].(props := props));
      }
    }

    method PutNewEdgeLabels(id: Id, labels: set<string>)
      requires Valid() && id >= |edges|
      modifies overlay`newEdges
      ensures Valid() && View() == WithEdgeLabels(old(View()), id, labels)
    {
      EdgeInView(id);
      if id - overlay.baseEdgeCount < |overlay.newEdges| {
        PutNewEdge(id, overlay.newEdges[id - overlay.baseEdgeCount].(labels := labels));
      }
    }

    lemma NewNodeInView(id: Id)
      ensures |View().nodes| == |nodes| + |overlay.newNodes|
      ensures |nodes| <= id < |View().nodes| ==> View().nodes[id] == overlay.newNodes[id - |nodes|]
    {
    }

    /** The properties and labels a session has given the new element, or nothing. */
    function NewNodeProps(id: Id): (r: Props)
      requires id >= |nodes|
      reads overlay
      ensures r == PropertyGraph.NodeProps(View(), id)
    {
      NewNodeInView(id);
      var off := id - |nodes|;
      if off < |overlay.newNodes| then overlay.newNodes[off].props else map[]
    }

    function NewNodeLabels(id: Id): (r: set<string>)
      requires id >= |nodes|
      reads overlay
      ensures r == PropertyGraph.NodeLabels(View(), id)
    {
      NewNodeInView(id);
      var off := id - |nodes|;
      if off < |overlay.newNodes| then overlay.newNodes[off].labels else {}
    }

    function NewEdgeProps(id: Id): (r: Props)
      requires id >= |edges|
      reads overlay
      ensures r == PropertyGraph.EdgeProps(View(), id)
    {
      EdgeInView(id);
      var off := id - |edges|;
      if off < |overlay.newEdges| then overlay.newEdges[off].props else map[]
    }

    function NewEdgeLabels(id: Id): (r: set<string>)
      requires id >= |edges|
      reads overlay
      ensures r == PropertyGraph.EdgeLabels(View(), id)
    {
      EdgeInView(id);
      var off := id - |edges|;
      if off < |overlay.newEdges| then overlay.newEdges[off].labels else {}
    }

    lemma BaseNodeInView(id: Id)
      requires id < |nodes|
      ensures PropertyGraph.NodeProps(View(), id) == ApplyProps(nodes[id].props, Get(overlay.modNodeProps, id))
      ensures PropertyGraph.NodeLabels(View(), id) == ApplyLabels(nodes[id].labels, Get(overlay.modNodeLabels, id))
    {
      MergedNodeAt(nodes, overlay.modNodeProps, overlay.modNodeLabels, id);
      assert View().nodes[id] == MergedNode(nodes[id], Get(overlay.modNodeProps, id), Get(overlay.modNodeLabels, id));
    }

    lemma BaseEdgeInView(id: Id)
      requires id < |edges|
      ensures PropertyGraph.EdgeProps(View(), id) == ApplyProps(edges[id].props, Get(overlay.modEdgeProps, id))
      ensures PropertyGraph.EdgeLabels(View(), id) == ApplyLabels(edges[id].labels, Get(overlay.modEdgeLabels, id))
    {
      MergedEdgeAt(edges, overlay.modEdgeProps, overlay.modEdgeLabels, id);
      assert View().edges[id] == MergedEdge(edges[id], Get(overlay.modEdgeProps, id), Get(overlay.modEdgeLabels, id));
    }

    // -------------------------------------------------------------- mutations

    method InsertNode(labels: set<string>, props: Props) returns (id: Id)
      requires Valid()
      modifies overlay
      ensures Valid() && id == |old(View()).nodes| && View() == Step(old(View()), Mutation.InsertNode(labels, props))
      ensures After(old(View()), Mutation.InsertNode(labels, props), View())
    {
      StepReads(View(), Mutation.InsertNode(labels, props));
      id := overlay.InsertNode(labels, props);
    }

    method InsertEdge(src: Id, tgt: Id, directed: bool, labels: set<string>, props: Props) returns (id: Id)
      requires Valid()
      modifies overlay
      ensures Valid() && id == |old(View()).edges|
        && View() == Step(old(View()), Mutation.InsertEdge(src, tgt, directed, labels, props))
      ensures After(old(View()), Mutation.InsertEdge(src, tgt, directed, labels, props), View())
    {
      StepReads(View(), Mutation.InsertEdge(src, tgt, directed, labels, props));
      id := overlay.InsertEdge(src, tgt, directed, labels, props);
    }

    method DeleteEdge(id: Id)
      requires Valid()
      modifies overlay
      ensures Valid() && View() == Step(old(View()), Mutation.DeleteEdge(id))
      ensures After(old(View()), Mutation.DeleteEdge(id), View())
    {
      StepReads(View(), Mutation.DeleteEdge(id));
      overlay.DeleteEdge(id);
    }

    /** The incident edges are read off the merged view before anything is deleted. */
    method DetachDeleteNode(id: Id)
      requires Valid()
      modifies overlay
      ensures Valid() && View() == Step(old(View()), Mutation.DetachDeleteNode(id))
      ensures After(old(View()), Mutation.DetachDeleteNode(id), View())
    {
      StepReads(View(), Mutation.DetachDeleteNode(id));
      var incident := Incidents(id);
      assert IdSet(incident) == IncidentEdges(View(), id);
      DeleteEdges(incident);
      overlay.DeleteNode(id);
    }

    method DeleteEdges(ids: seq<Id>)
      requires Valid()
      modifies overlay`deletedEdges
      ensures Valid() && overlay.deletedEdges == old(overlay.deletedEdges) + IdSet(ids)
    {
      for k := 0 to |ids|
        invariant Valid() && overlay.deletedEdges == old(overlay.deletedEdges) + IdSet(ids[..k])
      {
        overlay.DeleteEdge(ids[k]);
        assert ids[..k + 1] == ids[..k] + [ids[k]];
      }
      assert ids[..|ids|] == ids;
    }

    /** Refused, and without effect, exactly when a live edge touches the node. */
    method DeleteNodeNoDetach(id: Id) returns (remaining: Option<seq<Id>>)
      requires Valid()
      modifies overlay
      ensures Valid() && View() == Step(old(View()), Mutation.DeleteNodeNoDetach(id))
      ensures After(old(View()), Mutation.DeleteNodeNoDetach(id), View())
      ensures remaining.Some? <==> IncidentEdges(old(View()), id) != {}
      ensures remaining.Some? ==> forall e: Id :: e in remaining.value <==> e in IncidentEdges(old(View()), id)
    {
      StepReads(View(), Mutation.DeleteNodeNoDetach(id));
      var left := Incidents(id);
      if left != [] {
        assert left[0] in IncidentEdges(View(), id);
        return Some(left);
      }
      assert IncidentEdges(View(), id) == {};
      overlay.DeleteNode(id);
      remaining := None;
    }

    lemma NodeOpMerges(id: Id, prop: string, op: Option<Value>)
      requires id < |nodes|
      ensures ApplyProps(nodes[id].props, Some(WithOp(Get(overlay.modNodeProps, id), prop, op)))
           == Changed(PropertyGraph.NodeProps(View(), id), prop, op)
    {
      BaseNodeInView(id);
      OpMerges(nodes[id].props, Get(overlay.modNodeProps, id), prop, op);
    }

    /** Setting and removing one property differ in the recorded change only. */
    method ChangeNodeProp(id: Id, prop: string, op: Option<Value>)
      requires Valid()
      modifies overlay
      ensures Valid()
        && View() == WithNodeProps(old(View()), id, Changed(PropertyGraph.NodeProps(old(View()), id), prop, op))
    {
      if id >= overlay.baseNodeCount {
        PutNewNodeProps(id, Changed(NewNodeProps(id), prop, op));
      } else {
        NodeOpMerges(id, prop, op);
        PutNodeMods(id, WithOp(Get(overlay.modNodeProps, id), prop, op),
                    Changed(PropertyGraph.NodeProps(View(), id), prop, op));
      }
    }

    method SetNodeProp(id: Id, prop: string, value: Value)
      requires Valid()
      modifies overlay
      ensures Valid() && View() == Step(old(View()), Mutation.SetNodeProp(id, prop, value))
      ensures After(old(View()), Mutation.SetNodeProp(id, prop, value), View())
    {
      StepReads(View(), Mutation.SetNodeProp(id, prop, value));
      ChangeNodeProp(id, prop, Some(value));
    }

    /** ISO/IEC 39075:2024 section 13.3: the old properties are forgotten, not overlaid. */
    method ReplaceNodeProps(id: Id, props: Props)
      requires Valid()
      modifies overlay
      ensures Valid() && View() == Step(old(View()), Mutation.ReplaceNodeProps(id, props))
      ensures After(old(View()), Mutation.ReplaceNodeProps(id, props), View())
    {
      StepReads(View(), Mutation.ReplaceNodeProps(id, props));
      if id >= overlay.baseNodeCount {
        PutNewNodeProps(id, props);
      } else {
        ReplaceMerges(nodes[id].props, props);
        PutNodeMods(id, AllSet(props), props);
      }
    }

    method RemoveNodeProp(id: Id, prop: string)
      requires Valid()
      modifies overlay
      ensures Valid() && View() == Step(old(View()), Mutation.RemoveNodeProp(id, prop))
      ensures After(old(View()), Mutation.RemoveNodeProp(id, prop), View())
    {
      StepReads(View(), Mutation.RemoveNodeProp(id, prop));
      ChangeNodeProp(id, prop, None);
    }

    method AddNodeLabel(id: Id, l: string)
      requires Valid()
      modifies overlay
      ensures Valid() && View() == Step(old(View()), Mutation.AddNodeLabel(id, l))
      ensures After(old(View()), Mutation.AddNodeLabel(id, l), View())
    {
      StepReads(View(), Mutation.AddNodeLabel(id, l));
      if id >= overlay.baseNodeCount {
        PutNewNodeLabels(id, NewNodeLabels(id) + {l});
      } else {
        var entry := LabelModsOr(Get(overlay.modNodeLabels, id));
        BaseNodeInView(id);
        AddMerges(nodes[id].labels, Get(overlay.modNodeLabels, id), l);
        PutNodeLabelMods(id, LabelMods(entry.added + {l}, entry.removed - {l}), PropertyGraph.NodeLabels(View(), id)
                         + {l});
      }
    }

    method RemoveNodeLabel(id: Id, l: string)
      requires Valid()
      modifies overlay
      ensures Valid() && View() == Step(old(View()), Mutation.RemoveNodeLabel(id, l))
      ensures After(old(View()), Mutation.RemoveNodeLabel(id, l), View())
    {
      StepReads(View(), Mutation.RemoveNodeLabel(id, l));
      if id >= overlay.baseNodeCount {
        PutNewNodeLabels(id, NewNodeLabels(id) - {l});
      } else {
        var entry := LabelModsOr(Get(overlay.modNodeLabels, id));
        BaseNodeInView(id);
        DropMerges(nodes[id].labels, Get(overlay.modNodeLabels, id), l);
        PutNodeLabelMods(id, LabelMods(entry.added - {l}, entry.removed + {l}),
                         PropertyGraph.NodeLabels(View(), id) - {l});
      }
    }

    lemma EdgeOpMerges(id: Id, prop: string, op: Option<Value>)
      requires id < |edges|
      ensures ApplyProps(edges[id].props, Some(WithOp(Get(overlay.modEdgeProps, id), prop, op)))
           == Changed(PropertyGraph.EdgeProps(View(), id), prop, op)
    {
      BaseEdgeInView(id);
      OpMerges(edges[id].props, Get(overlay.modEdgeProps, id), prop, op);
    }

    /** Setting and removing one property differ in the recorded change only. */
    method ChangeEdgeProp(id: Id, prop: string, op: Option<Value>)
      requires Valid()
      modifies overlay
      ensures Valid()
        && View() == WithEdgeProps(old(View()), id, Changed(PropertyGraph.EdgeProps(old(View()), id), prop, op))
    {
      if id >= overlay.baseEdgeCount {
        PutNewEdgeProps(id, Changed(NewEdgeProps(id), prop, op));
      } else {
        EdgeOpMerges(id, prop, op);
        PutEdgeMods(id, WithOp(Get(overlay.modEdgeProps, id), prop, op),
                    Changed(PropertyGraph.EdgeProps(View(), id), prop, op));
      }
    }

    method SetEdgeProp(id: Id, prop: string, value: Value)
      requires Valid()
      modifies overlay
      ensures Valid() && View() == Step(old(View()), Mutation.SetEdgeProp(id, prop, value))
      ensures After(old(View()), Mutation.SetEdgeProp(id, prop, value), View())
    {
      StepReads(View(), Mutation.SetEdgeProp(id, prop, value));
      ChangeEdgeProp(id, prop, Some(value));
    }

    /** ISO/IEC 39075:2024 section 13.3: the old properties are forgotten, not overlaid. */
    method ReplaceEdgeProps(id: Id, props: Props)
      requires Valid()
      modifies overlay
      ensures Valid() && View() == Step(old(View()), Mutation.ReplaceEdgeProps(id, props))
      ensures After(old(View()), Mutation.ReplaceEdgeProps(id, props), View())
    {
      StepReads(View(), Mutation.ReplaceEdgeProps(id, props));
      if id >= overlay.baseEdgeCount {
        PutNewEdgeProps(id, props);
      } else {
        ReplaceMerges(edges[id].props, props);
        PutEdgeMods(id, AllSet(props), props);
      }
    }

    method RemoveEdgeProp(id: Id, prop: string)
      requires Valid()
      modifies overlay
      ensures Valid() && View() == Step(old(View()), Mutation.RemoveEdgeProp(id, prop))
      ensures After(old(View()), Mutation.RemoveEdgeProp(id, prop), View())
    {
      StepReads(View(), Mutation.RemoveEdgeProp(id, prop));
      ChangeEdgeProp(id, prop, None);
    }

    method AddEdgeLabel(id: Id, l: string)
      requires Valid()
      modifies overlay
      ensures Valid() && View() == Step(old(View()), Mutation.AddEdgeLabel(id, l))
      ensures After(old(View()), Mutation.AddEdgeLabel(id, l), View())
    {
      StepReads(View(), Mutation.AddEdgeLabel(id, l));
      if id >= overlay.baseEdgeCount {
        PutNewEdgeLabels(id, NewEdgeLabels(id) + {l});
      } else {
        var entry := LabelModsOr(Get(overlay.modEdgeLabels, id));
        BaseEdgeInView(id);
        AddMerges(edges[id].labels, Get(overlay.modEdgeLabels, id), l);
        PutEdgeLabelMods(id, LabelMods(entry.added + {l}, entry.removed - {l}), PropertyGraph.EdgeLabels(View(), id)
                         + {l});
      }
    }

    method RemoveEdgeLabel(id: Id, l: string)
      requires Valid()
      modifies overlay
      ensures Valid() && View() == Step(old(View()), Mutation.RemoveEdgeLabel(id, l))
      ensures After(old(View()), Mutation.RemoveEdgeLabel(id, l), View())
    {
      StepReads(View(), Mutation.RemoveEdgeLabel(id, l));
      if id >= overlay.baseEdgeCount {
        PutNewEdgeLabels(id, NewEdgeLabels(id) - {l});
      } else {
        var entry := LabelModsOr(Get(overlay.modEdgeLabels, id));
        BaseEdgeInView(id);
        DropMerges(edges[id].labels, Get(overlay.modEdgeLabels, id), l);
        PutEdgeLabelMods(id, LabelMods(entry.added - {l}, entry.removed + {l}),
                         PropertyGraph.EdgeLabels(View(), id) - {l});
      }
    }

    /** Every overlay change since the store was opened is dropped. */
    method RollbackSession()
      requires Valid()
      modifies overlay
      ensures Valid() && View() == Step(old(View()), Mutation.Rollback) == Fresh(nodes, edges)
      ensures After(old(View()), Mutation.Rollback, View())
    {
      StepReads(View(), Mutation.Rollback);
      overlay.Clear(overlay.baseNodeCount, overlay.baseEdgeCount);
      MergedNothing(nodes, edges);
      assert View().nodes == nodes && View().edges == edges;
    }

    /** One mutation, whichever it is: the store follows the plain graph. */
    method Apply(m: Mutation)
      requires Valid()
      modifies overlay
      ensures Valid() && View() == Step(old(View()), m)
      ensures After(old(View()), m, View())
    {
      StepReads(View(), m);
      match m
      case InsertNode(labels, props) => var _ := InsertNode(labels, props);
      case InsertEdge(src, tgt, directed, labels, props) => var _ := InsertEdge(src, tgt, directed, labels, props);
      case DeleteEdge(id) => DeleteEdge(id);
      case DetachDeleteNode(id) => DetachDeleteNode(id);
      case DeleteNodeNoDetach(id) => var _ := DeleteNodeNoDetach(id);
      case SetNodeProp(id, prop, value) => SetNodeProp(id, prop, value);
      case SetEdgeProp(id, prop, value) => SetEdgeProp(id, prop, value);
      case ReplaceNodeProps(id, props) => ReplaceNodeProps(id, props);
      case ReplaceEdgeProps(id, props) => ReplaceEdgeProps(id, props);
      case RemoveNodeProp(id, prop) => RemoveNodeProp(id, prop);
      case RemoveEdgeProp(id, prop) => RemoveEdgeProp(id, prop);
      case AddNodeLabel(id, l) => AddNodeLabel(id, l);
      case AddEdgeLabel(id, l) => AddEdgeLabel(id, l);
      case RemoveNodeLabel(id, l) => RemoveNodeLabel(id, l);
      case RemoveEdgeLabel(id, l) => RemoveEdgeLabel(id, l);
      case Rollback => RollbackSession();
    }

    /** The base has no tombstones, and its edges end at its nodes. */
    lemma BaseSound()
      requires Indexed()
      ensures NoDangling(Fresh(nodes, edges))
    {
    }

    /** After any run of mutations and rollbacks the store reads as the plain graph they lead to; if
        every inserted edge was given live ends, no live edge dangles; and if every deletion was of an
        existing element, the tombstones are allocated ids, so that the counts are exact. */
    method RunSession(ms: seq<Mutation>)
      requires Valid()
      modifies overlay
      ensures Valid() && View() == Run(old(View()), ms)
      ensures NoDangling(old(View())) && AllAdmitted(old(View()), ms) ==> NoDangling(View())
      ensures Allocated(old(View())) && AllGuarded(old(View()), ms) ==> Allocated(View())
    {
      for k := 0 to |ms|
        invariant Valid() && View() == Run(old(View()), ms[..k])
      {
        Apply(ms[k]);
        assert ms[..k + 1][..k] == ms[..k];
      }
      assert ms[..|ms|] == ms;
      ghost var start := old(View());
      BaseSound();
      if NoDangling(start) && AllAdmitted(start, ms) {
        RunKeepsNoDangling(start, ms);
      }
      if Allocated(start) && AllGuarded(start, ms) {
        RunKeepsAllocated(start, ms);
      }
    }
  }

  /** Rewriting a record's labels or properties moves no edge. */
  lemma {:induction false} SameAdjacent(es: seq<EdgeRec>, base: nat, side: Side, n: Id, off: nat, e: EdgeRec)
    requires off < |es| && e.src == es[off].src && e.tgt == es[off].tgt && e.directed == es[off].directed
    ensures Adjacent(es[off := e], base, side, n) == Adjacent(es, base, side, n)
  {
    var k := |es| - 1;
    if off < k {
      SameAdjacent(es[..k], base, side, n, off, e);
      assert es[off := e][..k] == es[..k][off := e];
    } else {
      assert es[off := e][..k] == es[..k];
    }
  }

  lemma SameLists(m: map<Id, seq<Id>>, es: seq<EdgeRec>, base: nat, side: Side, off: nat, e: EdgeRec)
    requires ListsAre(m, es, base, side)
    requires off < |es| && e.src == es[off].src && e.tgt == es[off].tgt && e.directed == es[off].directed
    ensures ListsAre(m, es[off := e], base, side)
  {
    var es' := es[off := e];
    forall n: Id ensures ListIs(m, es', base, side, n) {
      SameAdjacent(es, base, side, n, off, e);
      assert ListIs(m, es, base, side, n);
    }
  }

  // ---------------------------------------------------------------- sequences in two parts

  lemma UpdateLeft<T>(a: seq<T>, b: seq<T>, i: nat, x: T)
    requires i < |a|
    ensures a[i := x] + b == (a + b)[i := x]
  {
  }

  lemma UpdateRight<T>(a: seq<T>, b: seq<T>, i: nat, x: T)
    requires i < |b|
    ensures a + b[i := x] == (a + b)[|a| + i := x]
  {
  }

  method IndexNodes(ns: seq<NodeRec>) returns (ix: Index)
    ensures IndexesNodes(ix, ns)
  {
    ix := map[];
    for i := 0 to |ns|
      invariant IndexesNodes(ix, ns[..i])
    {
      IndexNode(ix, ns, i);
      ix := PushAll(ix, ns[i].labels, i);
    }
    assert ns[..|ns|] == ns;
  }

  /** Direction-split label indexes of the base edges. */
  method IndexEdges(es: seq<EdgeRec>) returns (d: Index, u: Index)
    ensures IndexesEdges(d, es, true) && IndexesEdges(u, es, false)
  {
    d, u := map[], map[];
    for k := 0 to |es|
      invariant IndexesEdges(d, es[..k], true) && IndexesEdges(u, es[..k], false)
    {
      IndexEdge(d, es, true, k);
      IndexEdge(u, es, false, k);
      if es[k].directed {
        d := PushAll(d, es[k].labels, k);
      } else {
        u := PushAll(u, es[k].labels, k);
      }
    }
    assert es[..|es|] == es;
  }

  /** Base adjacency: an undirected self-loop is listed twice at its node. */
  method LinkEdges(n: nat, es: seq<EdgeRec>) returns (out: seq<seq<Id>>, inc: seq<seq<Id>>, und: seq<seq<Id>>)
    requires forall e :: 0 <= e < |es| ==> es[e].src < n && es[e].tgt < n
    ensures |out| == |inc| == |und| == n
    ensures AdjacencyOf(out, es, Out) && AdjacencyOf(inc, es, In) && AdjacencyOf(und, es, Both)
  {
    out, inc, und := seq(n, _ => []), seq(n, _ => []), seq(n, _ => []);
    for k := 0 to |es|
      invariant |out| == |inc| == |und| == n
      invariant AdjacencyOf(out, es[..k], Out) && AdjacencyOf(inc, es[..k], In) && AdjacencyOf(und, es[..k], Both)
    {
      ghost var o, i, u := out, inc, und;
      if es[k].directed {
        out := PushAt(out, es[k].src, k);
        inc := PushAt(inc, es[k].tgt, k);
      } else {
        und := PushAt(und, es[k].src, k);
        und := PushAt(und, es[k].tgt, k);
      }
      LinkStep(es, k, o, i, u, out, inc, und);
    }
    assert es[..|es|] == es;
  }

  /** One edge is linked on each of its sides. */
  lemma LinkStep(es: seq<EdgeRec>, k: nat, o: seq<seq<Id>>, i: seq<seq<Id>>, u: seq<seq<Id>>,
                 o': seq<seq<Id>>, i': seq<seq<Id>>, u': seq<seq<Id>>)
    requires k < |es| && es[k].src < |o| && es[k].tgt < |o| && |o| == |i| == |u|
    requires AdjacencyOf(o, es[..k], Out) && AdjacencyOf(i, es[..k], In) && AdjacencyOf(u, es[..k], Both)
    requires es[k].directed ==> o' == PushAt(o, es[k].src, k) && i' == PushAt(i, es[k].tgt, k) && u' == u
    requires !es[k].directed ==> o' == o && i' == i && u' == PushAt(PushAt(u, es[k].src, k), es[k].tgt, k)
    ensures AdjacencyOf(o', es[..k + 1], Out) && AdjacencyOf(i', es[..k + 1], In) && AdjacencyOf(u', es[..k + 1], Both)
  {
    AdjacencyStep(o, o', es, k, Out);
    AdjacencyStep(i, i', es, k, In);
    AdjacencyStep(u, u', es, k, Both);
  }
}
