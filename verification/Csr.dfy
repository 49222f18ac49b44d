/** Compressed adjacency: count the edges of every node, sum the counts, place every edge. */
module Csr {
  import opened Values
  import opened Probing
  import opened U32Tables

  // ---------------------------------------------------------------- the specification

  /** The edges that end at node `n`, ascending. */
  function EdgesAt(ends: seq<u32>, n: int): seq<nat> {
    if ends == [] then []
    else
      var k := |ends| - 1;
      EdgesAt(ends[..k], n) + (if ends[k] == n then [k] else [])
  }

  /** `EdgesAt` lists exactly the edges at `n`, in increasing order. */
  lemma {:induction false} EdgesAtExact(ends: seq<u32>, n: int)
    ensures forall e :: e in EdgesAt(ends, n) <==> 0 <= e < |ends| && ends[e] == n
    ensures forall i, j :: 0 <= i < j < |EdgesAt(ends, n)| ==> EdgesAt(ends, n)[i] < EdgesAt(ends, n)[j]
  {
    if ends != [] {
      var k := |ends| - 1;
      EdgesAtExact(ends[..k], n);
      var before := EdgesAt(ends[..k], n);
      forall i | 0 <= i < |before| ensures before[i] < k {
        assert before[i] in before;
      }
    }
  }

  type Lists = seq<seq<nat>>

  ghost predicate EndsBelow(ends: seq<u32>, nodeCount: nat) {
    |ends| < 0x1_0000_0000 && forall e :: 0 <= e < |ends| ==> ends[e] < nodeCount
  }

  /** All the lists at once, edge by edge. */
  function Adjacent(ends: seq<u32>, nodeCount: nat): (ls: Lists)
    requires forall e :: 0 <= e < |ends| ==> ends[e] < nodeCount
    ensures |ls| == nodeCount
  {
    if ends == [] then seq(nodeCount, _ => [])
    else
      var k := |ends| - 1;
      var before := Adjacent(ends[..k], nodeCount);
      before[ends[k] := before[ends[k]] + [k]]
  }

  lemma {:induction false} AdjacentLists(ends: seq<u32>, nodeCount: nat, n: nat)
    requires forall e :: 0 <= e < |ends| ==> ends[e] < nodeCount
    requires n < nodeCount
    ensures Adjacent(ends, nodeCount)[n] == EdgesAt(ends, n)
  {
    if ends != [] {
      AdjacentLists(ends[..|ends| - 1], nodeCount, n);
    }
  }

  /** How many edges the lists before the n-th hold. */
  function Base(ls: Lists, n: nat): nat
    requires n <= |ls|
  {
    if n == 0 then 0 else Base(ls, n - 1) + |ls[n - 1]|
  }

  lemma {:induction false} BaseMonotone(ls: Lists, m: nat, n: nat)
    requires m <= n <= |ls|
    ensures Base(ls, m) <= Base(ls, n)
    ensures m < n ==> Base(ls, m) + |ls[m]| <= Base(ls, n)
    decreases n
  {
    if m < n {
      BaseMonotone(ls, m, n - 1);
    }
  }

  /** Lengthening one list by one shifts what comes after it by one. */
  lemma {:induction false} BaseExtended(ls: Lists, m: nat, e: nat, n: nat)
    requires m < |ls| && n <= |ls|
    ensures Base(ls[m := ls[m] + [e]], n) == Base(ls, n) + (if m < n then 1 else 0)
  {
    if n > 0 {
      BaseExtended(ls, m, e, n - 1);
    }
  }

  lemma {:induction false} BaseOfNothing(ls: Lists, n: nat)
    requires n <= |ls| && forall m :: 0 <= m < |ls| ==> ls[m] == []
    ensures Base(ls, n) == 0
  {
    if n > 0 {
      BaseOfNothing(ls, n - 1);
    }
  }

  /** Together the lists hold every edge once. */
  lemma {:induction false} BaseTotal(ends: seq<u32>, nodeCount: nat)
    requires forall e :: 0 <= e < |ends| ==> ends[e] < nodeCount
    ensures Base(Adjacent(ends, nodeCount), nodeCount) == |ends|
  {
    if ends == [] {
      BaseOfNothing(Adjacent(ends, nodeCount), nodeCount);
    } else {
      var k := |ends| - 1;
      BaseTotal(ends[..k], nodeCount);
      BaseExtended(Adjacent(ends[..k], nodeCount), ends[k], k, nodeCount);
    }
  }

  /** Slots of different lists do not overlap. */
  lemma SlotsApart(ls: Lists, m: nat, n: nat, i: nat, j: nat)
    requires m < |ls| && n < |ls| && i < |ls[m]| && j < |ls[n]|
    requires Base(ls, m) + i == Base(ls, n) + j
    ensures m == n && i == j
  {
    if m < n {
      BaseMonotone(ls, m, n);
    } else if n < m {
      BaseMonotone(ls, n, m);
    }
  }

  ghost predicate Starts(ls: Lists, offsets: seq<u32>) {
    |offsets| == |ls| + 1 && forall n {:trigger offsets[n]} :: 0 <= n <= |ls| ==> offsets[n] == Base(ls, n)
  }

  ghost predicate SliceIs(flat: seq<u32>, start: nat, list: seq<nat>) {
    start + |list| <= |flat| && flat[start..start + |list|] == list
  }

  /** The slots of every node start with the part of its list that is known so far. */
  ghost predicate Filled(ls: Lists, part: Lists, flat: seq<u32>) {
    |part| == |ls| && forall n {:trigger SliceIs(flat, Base(ls, n), part[n])} :: 0 <= n < |ls| ==>
        SliceIs(flat, Base(ls, n), part[n])
  }

  // ---------------------------------------------------------------- the builder

  ghost predicate Counted(ls: Lists, offsets: seq<u32>) {
    && |offsets| == |ls| + 1 && offsets[0] == 0
    && forall j :: 1 <= j <= |ls| ==> offsets[j] == |ls[j - 1]|
  }

  lemma AdjacentStep(ends: seq<u32>, nodeCount: nat, k: nat)
    requires EndsBelow(ends, nodeCount) && k < |ends|
    ensures EndsBelow(ends[..k], nodeCount) && EndsBelow(ends[..k + 1], nodeCount)
    ensures var ls := Adjacent(ends[..k], nodeCount);
      Adjacent(ends[..k + 1], nodeCount) == ls[ends[k] := ls[ends[k]] + [k]]
  {
    assert ends[..k + 1][..k] == ends[..k];
  }

  lemma {:induction false} ListFits(ends: seq<u32>, nodeCount: nat, n: nat)
    requires EndsBelow(ends, nodeCount) && n < nodeCount
    ensures |Adjacent(ends, nodeCount)[n]| <= |ends|
  {
    BaseTotal(ends, nodeCount);
    BaseMonotone(Adjacent(ends, nodeCount), n, nodeCount);
  }

  /** First loop of `csr`: one past each node sits its edge count. */
  method CountEnds(ends: seq<u32>, nodeCount: nat) returns (offsets: array<u32>)
    requires EndsBelow(ends, nodeCount)
    ensures fresh(offsets) && Counted(Adjacent(ends, nodeCount), offsets[..])
  {
    offsets := new u32[nodeCount + 1](_ => 0);
    ghost var ls := Adjacent([], nodeCount);
    for k := 0 to |ends|
      invariant EndsBelow(ends[..k], nodeCount) && ls == Adjacent(ends[..k], nodeCount)
      invariant Counted(ls, offsets[..])
    {
      AdjacentStep(ends, nodeCount, k);
      ListFits(ends[..k], nodeCount, ends[k]);
      var j := ends[k] as int + 1;
      assert offsets[..][j] == |ls[j - 1]|;
      offsets[j] := offsets[j] + 1;
      ls := ls[ends[k] := ls[ends[k]] + [k]];
    }
    assert ends[..|ends|] == ends;
  }

  /** Second loop: prefix sums turn counts into starts. */
  method SumOffsets(ghost ls: Lists, offsets: array<u32>)
    requires Counted(ls, offsets[..]) && Base(ls, |ls|) < 0x1_0000_0000
    modifies offsets
    ensures Starts(ls, offsets[..])
  {
    for i := 1 to offsets.Length
      invariant forall n :: 0 <= n < i ==> offsets[n] == Base(ls, n)
      invariant forall j :: i <= j <= |ls| ==> offsets[j] == |ls[j - 1]|
    {
      BaseMonotone(ls, i, |ls|);
      offsets[i] := offsets[i] + offsets[i - 1];
    }
  }

  lemma SliceAt(flat: seq<u32>, start: nat, list: seq<nat>, j: nat)
    requires SliceIs(flat, start, list) && j < |list|
    ensures start + j < |flat| && flat[start + j] == list[j]
  {
    assert flat[start..start + |list|][j] == flat[start + j];
  }

  lemma SliceExtended(flat: seq<u32>, e: u32, start: nat, list: seq<nat>)
    requires SliceIs(flat, start, list) && start + |list| < |flat|
    ensures SliceIs(flat[start + |list| := e], start, list + [e])
  {
    var flat' := flat[start + |list| := e];
    assert flat'[start..start + |list|] == flat[start..start + |list|];
  }

  lemma SliceKept(flat: seq<u32>, pos: nat, e: u32, start: nat, list: seq<nat>)
    requires SliceIs(flat, start, list) && pos < |flat| && !(start <= pos < start + |list|)
    ensures SliceIs(flat[pos := e], start, list)
  {
    assert flat[pos := e][start..start + |list|] == flat[start..start + |list|];
  }

  /** Placing an edge extends its own node's slice and touches no other. */
  lemma PlacedSlice(ls: Lists, part: Lists, flat: seq<u32>, m: nat, e: u32, pos: nat, n: nat)
    requires Filled(ls, part, flat) && m < |ls| && n < |ls|
    requires |part[m]| < |ls[m]| && |part[n]| <= |ls[n]|
    requires pos == Base(ls, m) + |part[m]| && pos < |flat|
    ensures SliceIs(flat[pos := e], Base(ls, n), if n == m then part[n] + [e] else part[n])
  {
    var start := Base(ls, n);
    assert SliceIs(flat, start, part[n]);
    if m == n {
      SliceExtended(flat, e, start, part[n]);
    } else {
      if start <= pos < start + |part[n]| {
        SlotsApart(ls, n, m, pos - start, |part[m]|);
      }
      SliceKept(flat, pos, e, start, part[n]);
    }
  }

  ghost predicate PartOf(part: Lists, ls: Lists) {
    |part| == |ls| && forall n :: 0 <= n < |ls| ==> |part[n]| <= |ls[n]|
  }

  lemma {:induction false} PartGrows(ends: seq<u32>, nodeCount: nat, k: nat)
    requires EndsBelow(ends, nodeCount) && k <= |ends|
    ensures EndsBelow(ends[..k], nodeCount) && PartOf(Adjacent(ends[..k], nodeCount), Adjacent(ends, nodeCount))
    decreases |ends| - k
  {
    if k < |ends| {
      AdjacentStep(ends, nodeCount, k);
      PartGrows(ends, nodeCount, k + 1);
      var part, next := Adjacent(ends[..k], nodeCount), Adjacent(ends[..k + 1], nodeCount);
      forall n | 0 <= n < nodeCount ensures |part[n]| <= |next[n]| {}
    } else {
      assert ends[..k] == ends;
    }
  }

  ghost predicate CursorsAt(ls: Lists, part: Lists, cursor: seq<u32>) {
    |cursor| == |ls| == |part| && forall n {:trigger cursor[n]} :: 0 <= n < |ls| ==>
        cursor[n] == Base(ls, n) + |part[n]|
  }

  lemma PlaceStep(ends: seq<u32>, nodeCount: nat, k: nat, flat: seq<u32>)
    requires EndsBelow(ends, nodeCount) && k < |ends| && |flat| == |ends|
    requires EndsBelow(ends[..k], nodeCount) && EndsBelow(ends[..k + 1], nodeCount)
    requires Filled(Adjacent(ends, nodeCount), Adjacent(ends[..k], nodeCount), flat)
    ensures var ls, part, m := Adjacent(ends, nodeCount), Adjacent(ends[..k], nodeCount), ends[k];
      var pos := Base(ls, m) + |part[m]|;
      && pos < |flat| && Base(ls, m) + |part[m]| + 1 <= |ends|
      && Filled(ls, Adjacent(ends[..k + 1], nodeCount), flat[pos := k])
  {
    var ls, part, m := Adjacent(ends, nodeCount), Adjacent(ends[..k], nodeCount), ends[k];
    BaseTotal(ends, nodeCount);
    AdjacentStep(ends, nodeCount, k);
    PartGrows(ends, nodeCount, k);
    PartGrows(ends, nodeCount, k + 1);
    var next := Adjacent(ends[..k + 1], nodeCount);
    SlotFits(ls, part, next, m, k);
    PlacedSlices(ls, part, next, flat, m, k, Base(ls, m) + |part[m]|);
  }

  lemma PlacedSlices(ls: Lists, part: Lists, next: Lists, flat: seq<u32>, m: nat, e: u32, pos: nat)
    requires Filled(ls, part, flat) && m < |ls| && next == part[m := part[m] + [e]]
    requires PartOf(part, ls) && PartOf(next, ls) && Base(ls, |ls|) == |flat|
    requires pos == Base(ls, m) + |part[m]| && pos < |flat|
    ensures Filled(ls, next, flat[pos := e])
  {
    assert |part[m]| < |next[m]| <= |ls[m]|;
    forall n | 0 <= n < |ls| ensures SliceIs(flat[pos := e], Base(ls, n), next[n]) {
      PlacedSlice(ls, part, flat, m, e, pos, n);
      assert next[n] == if n == m then part[n] + [e] else part[n];
    }
  }

  lemma SlotFits(ls: Lists, part: Lists, next: Lists, m: nat, e: u32)
    requires m < |ls| == |part| && next == part[m := part[m] + [e]] && PartOf(next, ls)
    ensures Base(ls, m) + |part[m]| < Base(ls, |ls|)
  {
    assert |part[m]| < |next[m]| <= |ls[m]|;
    BaseMonotone(ls, m, |ls|);
  }

  lemma NothingPlaced(ends: seq<u32>, nodeCount: nat, flat: seq<u32>)
    requires EndsBelow(ends, nodeCount) && |flat| == |ends|
    ensures ends[..0] == [] && Filled(Adjacent(ends, nodeCount), Adjacent(ends[..0], nodeCount), flat)
    ensures forall n :: 0 <= n < nodeCount ==> Adjacent(ends[..0], nodeCount)[n] == []
  {
    assert ends[..0] == [];
    var ls, part := Adjacent(ends, nodeCount), Adjacent(ends[..0], nodeCount);
    BaseTotal(ends, nodeCount);
    forall n | 0 <= n < nodeCount ensures SliceIs(flat, Base(ls, n), part[n]) {
      BaseMonotone(ls, n, nodeCount);
    }
  }

  /** Third loop: each edge goes to its node's cursor, which moves on. */
  method PlaceEdges(ends: seq<u32>, nodeCount: nat, cursor: array<u32>) returns (flat: array<u32>)
    requires EndsBelow(ends, nodeCount)
    requires CursorsAt(Adjacent(ends, nodeCount), Adjacent([], nodeCount), cursor[..])
    modifies cursor
    ensures fresh(flat) && flat.Length == |ends|
    ensures Filled(Adjacent(ends, nodeCount), Adjacent(ends, nodeCount), flat[..])
  {
    flat := new u32[|ends|](_ => 0);
    ghost var ls, part := Adjacent(ends, nodeCount), Adjacent([], nodeCount);
    NothingPlaced(ends, nodeCount, flat[..]);
    for k := 0 to |ends|
      invariant EndsBelow(ends[..k], nodeCount) && part == Adjacent(ends[..k], nodeCount)
      invariant CursorsAt(ls, part, cursor[..]) && Filled(ls, part, flat[..])
    {
      AdjacentStep(ends, nodeCount, k);
      PlaceStep(ends, nodeCount, k, flat[..]);
      var n := ends[k];
      assert cursor[..][n] == Base(ls, n) + |part[n]|;
      var pos := cursor[n];
      ghost var before := flat[..];
      flat[pos] := k;
      assert flat[..] == before[pos := k];
      cursor[n] := cursor[n] + 1;
      part := part[n := part[n] + [k]];
    }
    assert ends[..|ends|] == ends;
  }

  /** The adjacency arrays of `ends`. */
  ghost predicate Adjacency(ends: seq<u32>, nodeCount: nat, offsets: seq<u32>, flat: seq<u32>)
    requires EndsBelow(ends, nodeCount)
  {
    var ls := Adjacent(ends, nodeCount);
    Starts(ls, offsets) && |flat| == |ends| && Filled(ls, ls, flat)
  }

  /** `csr`: a stable bucket sort of the edges by their end. */
  method BuildCsr(ends: seq<u32>, nodeCount: nat) returns (offsets: array<u32>, flat: array<u32>)
    requires EndsBelow(ends, nodeCount)
    ensures fresh(offsets) && fresh(flat) && Adjacency(ends, nodeCount, offsets[..], flat[..])
  {
    ghost var ls := Adjacent(ends, nodeCount);
    BaseTotal(ends, nodeCount);
    offsets := CountEnds(ends, nodeCount);
    SumOffsets(ls, offsets);
    var cursor := new u32[nodeCount];
    for n := 0 to nodeCount
      invariant Starts(ls, offsets[..])
      invariant forall m :: 0 <= m < n ==> cursor[m] == Base(ls, m)
    {
      assert offsets[..][n] == Base(ls, n);
      cursor[n] := offsets[n];
    }
    flat := PlaceEdges(ends, nodeCount, cursor);
  }

  // ---------------------------------------------------------------- what the arrays mean

  ghost predicate BucketIs(offsets: seq<u32>, flat: seq<u32>, n: nat, list: seq<nat>) {
    && n + 1 < |offsets|
    && offsets[n] <= offsets[n + 1] <= |flat|
    && flat[offsets[n]..offsets[n + 1]] == list
  }

  /** Every bucket is the ascending list of exactly the edges at its node. */
  lemma BucketIsList(ends: seq<u32>, nodeCount: nat, offsets: seq<u32>, flat: seq<u32>, n: nat)
    requires EndsBelow(ends, nodeCount) && Adjacency(ends, nodeCount, offsets, flat) && n < nodeCount
    ensures BucketIs(offsets, flat, n, EdgesAt(ends, n))
  {
    var ls := Adjacent(ends, nodeCount);
    AdjacentLists(ends, nodeCount, n);
    assert SliceIs(flat, Base(ls, n), ls[n]);
    assert offsets[n + 1] == Base(ls, n + 1);
  }

  /** The offsets run from 0 to the number of edges without decreasing. */
  lemma OffsetsAscend(ends: seq<u32>, nodeCount: nat, offsets: seq<u32>, flat: seq<u32>)
    requires EndsBelow(ends, nodeCount) && Adjacency(ends, nodeCount, offsets, flat)
    ensures offsets[0] == 0 && offsets[nodeCount] == |ends|
    ensures forall m, n :: 0 <= m <= n <= nodeCount ==> offsets[m] <= offsets[n]
  {
    BaseTotal(ends, nodeCount);
    forall m, n | 0 <= m <= n <= nodeCount ensures offsets[m] <= offsets[n] {
      BaseMonotone(Adjacent(ends, nodeCount), m, n);
    }
  }

  lemma {:induction false} ListOf(ls: Lists, nodeCount: nat, i: nat) returns (n: nat, j: nat)
    requires nodeCount <= |ls| && i < Base(ls, nodeCount)
    ensures n < nodeCount && j < |ls[n]| && i == Base(ls, n) + j
  {
    if i < Base(ls, nodeCount - 1) {
      n, j := ListOf(ls, nodeCount - 1, i);
    } else {
      n, j := nodeCount - 1, i - Base(ls, nodeCount - 1);
    }
  }

  lemma SlotHolds(ls: Lists, flat: seq<u32>, i: nat) returns (n: nat, j: nat)
    requires Filled(ls, ls, flat) && i < Base(ls, |ls|)
    ensures n < |ls| && j < |ls[n]| && i == Base(ls, n) + j && i < |flat| && flat[i] == ls[n][j]
  {
    n, j := ListOf(ls, |ls|, i);
    assert SliceIs(flat, Base(ls, n), ls[n]);
    SliceAt(flat, Base(ls, n), ls[n], j);
  }

  /** No edge is lost or repeated: each slot holds an edge, and different slots different edges. */
  lemma FlatIsPermutation(ends: seq<u32>, nodeCount: nat, offsets: seq<u32>, flat: seq<u32>, i: nat, i': nat)
    requires EndsBelow(ends, nodeCount) && Adjacency(ends, nodeCount, offsets, flat) && i < |flat| && i' < |flat|
    ensures flat[i] < |ends| && (flat[i] == flat[i'] ==> i == i')
  {
    BaseTotal(ends, nodeCount);
    var ls := Adjacent(ends, nodeCount);
    var n, j := SlotHolds(ls, flat, i);
    var n', j' := SlotHolds(ls, flat, i');
    ListedAt(ends, nodeCount, n, j);
    ListedAt(ends, nodeCount, n', j');
    if flat[i] == flat[i'] {
      ListedOnce(ends, nodeCount, n, j, j');
    }
  }

  lemma ListedAt(ends: seq<u32>, nodeCount: nat, n: nat, j: nat)
    requires EndsBelow(ends, nodeCount) && n < nodeCount && j < |Adjacent(ends, nodeCount)[n]|
    ensures Adjacent(ends, nodeCount)[n][j] < |ends| && ends[Adjacent(ends, nodeCount)[n][j]] == n
  {
    AdjacentLists(ends, nodeCount, n);
    EdgesAtExact(ends, n);
    assert EdgesAt(ends, n)[j] in EdgesAt(ends, n);
  }

  lemma ListedOnce(ends: seq<u32>, nodeCount: nat, n: nat, j: nat, j': nat)
    requires EndsBelow(ends, nodeCount) && n < nodeCount
    requires j < |Adjacent(ends, nodeCount)[n]| && j' < |Adjacent(ends, nodeCount)[n]|
    requires Adjacent(ends, nodeCount)[n][j] == Adjacent(ends, nodeCount)[n][j']
    ensures j == j'
  {
    AdjacentLists(ends, nodeCount, n);
    EdgesAtExact(ends, n);
  }

  // ---------------------------------------------------------------- the import, end to end

  /** The triples whose subject is `x`, by position. */
  function TriplesFrom(ts: seq<Triple>, x: u32): seq<nat> {
    if ts == [] then []
    else
      var k := |ts| - 1;
      TriplesFrom(ts[..k], x) + (if ts[k].0 == x then [k] else [])
  }

  lemma {:induction false} RenumberedLists(ids: seq<u32>, ts: seq<Triple>, src: seq<u32>, tgt: seq<u32>, n: nat)
    requires Ascending(ids) && Renumbered(ids, ts, src, tgt) && n < |ids|
    ensures EdgesAt(src, n) == TriplesFrom(ts, ids[n])
    decreases |ts|
  {
    if ts != [] {
      var k := |ts| - 1;
      RenumberedLists(ids, ts[..k], src[..k], tgt[..k], n);
      assert src[k] == n <==> ids[src[k]] == ids[n];
    }
  }

  /** From triples to outgoing adjacency: the bucket of the n-th id lists the triples it is the
      subject of, in input order; the bucket of an extra node is empty. */
  method OutgoingAdjacency(hash: Hasher, ts: seq<Triple>, subjects: seq<u32>)
    returns (ids: Option<seq<u32>>, offsets: seq<u32>, flat: seq<u32>)
    requires |ts| < 0x1_0000_0000
    ensures ids.None? <==> exists t :: t in ts && Collides(t)
    ensures ids.Some? ==> Ascending(ids.value) && Members(ids.value) == Endpoints(ts) + Extra(subjects)
    ensures ids.Some? ==> |offsets| == |ids.value| + 1
    ensures ids.Some? ==> forall n :: 0 <= n < |ids.value| ==> BucketIs(offsets, flat, n, TriplesFrom(ts, ids.value[n]))
  {
    var src, tgt;
    ids, src, tgt := NumberEndpoints(hash, ts, subjects);
    offsets, flat := [], [];
    if ids.Some? {
      var off, fl := BuildCsr(src, |ids.value|);
      offsets, flat := off[..], fl[..];
      forall n | 0 <= n < |ids.value| ensures BucketIs(offsets, flat, n, TriplesFrom(ts, ids.value[n])) {
        BucketIsList(src, |ids.value|, offsets, flat, n);
        RenumberedLists(ids.value, ts, src, tgt, n);
      }
    }
  }
}
