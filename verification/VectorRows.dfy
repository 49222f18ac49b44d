/** Reordering the rows of a vector file in place: walk the cycles of a permutation with one row of
    scratch space and a visited bitmap. */
module VectorRows {
  import opened Values
  import opened Probing

  // ---------------------------------------------------------------- rows of a flat buffer

  /** The length of `n` rows of width `dim`. */
  function Area(n: nat, dim: nat): nat {
    if n == 0 then 0 else Area(n - 1, dim) + dim
  }

  lemma {:induction false} AreaIsProduct(n: nat, dim: nat)
    ensures n * dim == Area(n, dim)
  {
    if n > 0 {
      AreaIsProduct(n - 1, dim);
      assert n * dim == (n - 1) * dim + dim;
    }
  }

  lemma {:induction false} AreaMonotone(j: nat, k: nat, dim: nat)
    requires j <= k
    ensures Area(j, dim) <= Area(k, dim) && (j < k ==> Area(j, dim) + dim <= Area(k, dim))
    decreases k
  {
    if j < k {
      AreaMonotone(j, k - 1, dim);
    }
  }

  /** The k-th row of a buffer of `n` rows. */
  function RowAt(data: seq<real>, n: nat, dim: nat, k: nat): (row: seq<real>)
    requires |data| == Area(n, dim) && k < n
    ensures |row| == dim
  {
    AreaMonotone(k, n, dim);
    data[Area(k, dim)..Area(k, dim) + dim]
  }

  function Rows(data: seq<real>, n: nat, dim: nat): (rows: seq<seq<real>>)
    requires |data| == Area(n, dim)
    ensures |rows| == n && forall k :: 0 <= k < n ==> rows[k] == RowAt(data, n, dim, k)
  {
    seq(n, k requires 0 <= k < n => RowAt(data, n, dim, k))
  }

  /** Overwriting the slots of one row replaces that row only. */
  lemma RowWritten(data: seq<real>, data': seq<real>, n: nat, dim: nat, k: nat, row: seq<real>)
    requires |data| == |data'| == Area(n, dim) && k < n && |row| == dim
    requires forall i :: 0 <= i < |data| ==>
      data'[i] == if Area(k, dim) <= i < Area(k, dim) + dim then row[i - Area(k, dim)] else data[i]
    ensures Rows(data', n, dim) == Rows(data, n, dim)[k := row]
  {
    AreaMonotone(k, n, dim);
    forall j | 0 <= j < n ensures RowAt(data', n, dim, j) == if j == k then row else RowAt(data, n, dim, j) {
      AreaMonotone(j, n, dim);
      if j < k {
        AreaMonotone(j, k, dim);
      } else if k < j {
        AreaMonotone(k, j, dim);
      }
    }
  }

  /** `row.copy_from_slice(&data[k * dim..(k + 1) * dim])` */
  method LoadRow(data: array<real>, n: nat, dim: nat, k: nat, row: array<real>)
    requires data.Length == Area(n, dim) && k < n && row.Length == dim && row != data
    modifies row
    ensures row[..] == RowAt(data[..], n, dim, k)
  {
    AreaMonotone(k, n, dim);
    AreaIsProduct(k, dim);
    var base := k * dim;
    for i := 0 to dim
      invariant row[..i] == data[base..base + i]
    {
      row[i] := data[base + i];
    }
  }

  /** `data[base..].copy_from_slice(&row)` */
  method StoreAt(data: array<real>, base: nat, row: array<real>)
    requires base + row.Length <= data.Length && row != data
    modifies data
    ensures forall p :: 0 <= p < data.Length ==>
      data[p] == if base <= p < base + row.Length then row[p - base] else old(data[p])
  {
    for i := 0 to row.Length
      invariant forall p :: 0 <= p < data.Length ==>
        data[p] == if base <= p < base + i then row[p - base] else old(data[p])
    {
      data[base + i] := row[i];
    }
  }

  /** `data.copy_within(from..from + len, to)` on slots that do not overlap. */
  method CopyWithin(data: array<real>, from: nat, to: nat, len: nat)
    requires from + len <= data.Length && to + len <= data.Length
    requires from + len <= to || to + len <= from
    modifies data
    ensures forall p :: 0 <= p < data.Length ==>
      data[p] == if to <= p < to + len then old(data[..])[p - to + from] else old(data[p])
  {
    ghost var was := data[..];
    for i := 0 to len
      invariant forall p :: 0 <= p < data.Length && !(to <= p < to + i) ==> data[p] == was[p]
      invariant forall p :: to <= p < to + i ==> data[p] == was[p - to + from]
    {
      data[to + i] := data[from + i];
    }
  }

  method StoreRow(data: array<real>, n: nat, dim: nat, k: nat, row: array<real>)
    requires data.Length == Area(n, dim) && k < n && row.Length == dim && row != data
    modifies data
    ensures Rows(data[..], n, dim) == Rows(old(data[..]), n, dim)[k := row[..]]
  {
    AreaMonotone(k, n, dim);
    AreaIsProduct(k, dim);
    ghost var before := data[..];
    StoreAt(data, k * dim, row);
    RowWritten(before, data[..], n, dim, k, row[..]);
  }

  method CopyRow(data: array<real>, n: nat, dim: nat, src: nat, dst: nat)
    requires data.Length == Area(n, dim) && src < n && dst < n && src != dst
    modifies data
    ensures Rows(data[..], n, dim) == Rows(old(data[..]), n, dim)[dst := RowAt(old(data[..]), n, dim, src)]
  {
    AreaMonotone(src, n, dim);
    AreaMonotone(dst, n, dim);
    AreaIsProduct(src, dim);
    AreaIsProduct(dst, dim);
    if src < dst { AreaMonotone(src, dst, dim); } else { AreaMonotone(dst, src, dim); }
    ghost var before := data[..];
    CopyWithin(data, src * dim, dst * dim, dim);
    RowWritten(before, data[..], n, dim, dst, RowAt(before, n, dim, src));
  }

  // ---------------------------------------------------------------- permutations

  predicate Permutation(order: seq<nat>, n: nat) {
    && |order| == n
    && (forall i :: 0 <= i < n ==> order[i] < n)
    && forall i, j :: 0 <= i < j < n ==> order[i] != order[j]
  }

  /** The undone positions form whole cycles, but for the one being walked from `start`. */
  ghost predicate Closed(order: seq<nat>, done: seq<bool>, start: nat)
    requires |done| == |order|
  {
    forall j {:trigger order[j]} :: 0 <= j < |order| && !done[j] && order[j] != start ==>
        order[j] < |done| && !done[order[j]]
  }

  /** Done positions hold what they should, the others what they held at the start. */
  ghost predicate Moved<X>(order: seq<nat>, done: seq<bool>, was: seq<X>, now: seq<X>) {
    && |done| == |order| == |was| == |now|
    && forall k {:trigger now[k]} :: 0 <= k < |now| ==>
         if done[k] then order[k] < |was| && now[k] == was[order[k]] else now[k] == was[k]
  }

  lemma MoveStep<X>(order: seq<nat>, done: seq<bool>, was: seq<X>, now: seq<X>, cur: nat, x: X)
    requires Moved(order, done, was, now) && cur < |now| && order[cur] < |was| && x == was[order[cur]]
    ensures Moved(order, done[cur := true], was, now[cur := x])
  {
    var done', now' := done[cur := true], now[cur := x];
    forall k | 0 <= k < |now'|
      ensures if done'[k] then order[k] < |was| && now'[k] == was[order[k]] else now'[k] == was[k]
    {
      assert k != cur ==> now'[k] == now[k];
    }
  }

  lemma Unmoved<X>(order: seq<nat>, done: seq<bool>, was: seq<X>, now: seq<X>, k: nat)
    requires Moved(order, done, was, now) && k < |now| && !done[k]
    ensures now[k] == was[k]
  {
  }

  function Undone(done: seq<bool>): set<nat> {
    set k: nat | k < |done| && !done[k]
  }

  lemma MarkUndone(done: seq<bool>, k: nat)
    requires k < |done| && !done[k]
    ensures Undone(done[k := true]) == Undone(done) - {k} && |Undone(done[k := true])| < |Undone(done)|
  {
    assert k in Undone(done);
  }

  /** Marking the walked position keeps the rest closed: only its predecessor led to it. */
  lemma MarkClosed(order: seq<nat>, done: seq<bool>, start: nat, cur: nat, prev: nat)
    requires Permutation(order, |done|) && Closed(order, done, start) && cur < |done| && !done[cur]
    requires cur == start || (prev < |done| && done[prev] && order[prev] == cur)
    ensures Closed(order, done[cur := true], start)
  {
    var done' := done[cur := true];
    forall j | 0 <= j < |order| && !done'[j] && order[j] != start ensures !done'[order[j]] {
      assert !done[j] && !done[order[j]];
      assert cur == start || j != prev;
    }
  }

  /** No cycle is open: successors of undone positions are undone. */
  ghost predicate Whole(order: seq<nat>, done: seq<bool>)
    requires |done| == |order|
  {
    forall j {:trigger order[j]} :: 0 <= j < |order| && !done[j] ==> order[j] < |done| && !done[order[j]]
  }

  /** Walks one cycle. */
  method WalkCycle(ids: array<u32>, data: array<real>, order: seq<nat>, dim: nat, done: array<bool>, start: nat,
                   row: array<real>,
                         ghost was: seq<u32>, ghost wasRows: seq<seq<real>>)
    requires Permutation(order, ids.Length) && data.Length == Area(ids.Length, dim) && row.Length == dim && row != data
    requires done.Length == ids.Length && start < ids.Length && !done[start]
    requires Moved(order, done[..], was, ids[..]) && Moved(order, done[..], wasRows, Rows(data[..], ids.Length, dim))
    requires Whole(order, done[..])
    modifies ids, data, done, row
    ensures Moved(order, done[..], was, ids[..]) && Moved(order, done[..], wasRows, Rows(data[..], ids.Length, dim))
    ensures Whole(order, done[..]) && done[start]
    ensures forall k :: 0 <= k < done.Length && old(done[k]) ==> done[k]
  {
    var n := ids.Length;
    ghost var rows := Rows(data[..], n, dim);
    LoadRow(data, n, dim, start, row);
    var heldId := ids[start];
    Unmoved(order, done[..], was, ids[..], start);
    Unmoved(order, done[..], wasRows, rows, start);
    var cur := start;
    ghost var prev := start;
    while true
      invariant cur < n && !done[cur] && Closed(order, done[..], start)
      invariant cur == start || (prev < n && done[prev] && order[prev] == cur && done[start])
      invariant rows == Rows(data[..], n, dim)
      invariant Moved(order, done[..], was, ids[..]) && Moved(order, done[..], wasRows, rows)
      invariant heldId == was[start] && row[..] == wasRows[start]
      invariant forall k :: 0 <= k < n && old(done[k]) ==> done[k]
      decreases |Undone(done[..])|
    {
      ghost var d, i0 := done[..], ids[..];
      MarkUndone(d, cur);
      MarkClosed(order, d, start, cur, prev);
      done[cur] := true;
      assert done[..] == d[cur := true];
      var src := order[cur];
      if src == start {
        StoreRow(data, n, dim, cur, row);
        ids[cur] := heldId;
        assert ids[..] == i0[cur := heldId];
        MoveStep(order, d, was, i0, cur, heldId);
        MoveStep(order, d, wasRows, rows, cur, row[..]);
        LastMark(order, d, start, cur);
        return;
      }
      NextUndone(order, d, start, cur);
      Unmoved(order, d, was, i0, src);
      Unmoved(order, d, wasRows, rows, src);
      MoveStep(order, d, was, i0, cur, i0[src]);
      MoveStep(order, d, wasRows, rows, cur, rows[src]);
      CopyRow(data, n, dim, src, cur);
      ids[cur] := ids[src];
      assert ids[..] == i0[cur := i0[src]];
      rows := rows[cur := rows[src]];
      prev := cur;
      cur := src;
    }
  }

  /** The walk's next stop has not been visited, so it still holds what it held. */
  lemma NextUndone(order: seq<nat>, done: seq<bool>, start: nat, cur: nat)
    requires Permutation(order, |done|) && Closed(order, done, start) && cur < |done| && !done[cur]
      && order[cur] != start
    ensures !done[order[cur]]
  {
  }

  /** Coming back to the start closes the cycle. */
  lemma LastMark(order: seq<nat>, done: seq<bool>, start: nat, cur: nat)
    requires Permutation(order, |done|) && cur < |done| && !done[cur] && order[cur] == start
    requires Closed(order, done[cur := true], start)
    ensures Whole(order, done[cur := true])
  {
    var done' := done[cur := true];
    forall j | 0 <= j < |order| && !done'[j] ensures !done'[order[j]] {
      assert j != cur && order[j] != order[cur];
    }
  }

  /** `permute_rows`: position `k` ends up with the id and the row that `order[k]` pointed at. */
  method PermuteRows(ids: array<u32>, data: array<real>, order: seq<nat>, dim: nat)
    requires Permutation(order, ids.Length) && data.Length == Area(ids.Length, dim)
    modifies ids, data
    ensures forall k :: 0 <= k < ids.Length ==> ids[k] == old(ids[..])[order[k]]
    ensures forall k :: 0 <= k < ids.Length ==>
      Rows(data[..], ids.Length, dim)[k] == Rows(old(data[..]), ids.Length, dim)[order[k]]
  {
    var n := ids.Length;
    var done := new bool[n](_ => false);
    var row := new real[dim];
    ghost var was, wasRows := ids[..], Rows(data[..], n, dim);
    for start := 0 to n
      invariant Moved(order, done[..], was, ids[..]) && Moved(order, done[..], wasRows, Rows(data[..], n, dim))
      invariant Whole(order, done[..])
      invariant forall k :: 0 <= k < start ==> done[k]
    {
      if done[start] {
        continue;
      }
      if order[start] == start {
        MarkFixed(order, done[..], was, ids[..], start);
        MarkFixed(order, done[..], wasRows, Rows(data[..], n, dim), start);
        ghost var d := done[..];
        done[start] := true;
        assert done[..] == d[start := true];
        continue;
      }
      WalkCycle(ids, data, order, dim, done, start, row, was, wasRows);
    }
    AllMoved(order, done[..], was, ids[..]);
    AllMoved(order, done[..], wasRows, Rows(data[..], n, dim));
  }

  /** A fixed point is its own cycle and already in place. */
  lemma MarkFixed<X>(order: seq<nat>, done: seq<bool>, was: seq<X>, now: seq<X>, k: nat)
    requires Permutation(order, |done|) && Moved(order, done, was, now) && Whole(order, done)
    requires k < |done| && !done[k] && order[k] == k
    ensures Moved(order, done[k := true], was, now) && Whole(order, done[k := true])
  {
    Unmoved(order, done, was, now, k);
    MoveStep(order, done, was, now, k, now[k]);
    assert now[k := now[k]] == now;
    var done' := done[k := true];
    forall j | 0 <= j < |order| && !done'[j] ensures !done'[order[j]] {
      assert j != k && order[j] != order[k];
    }
  }

  lemma AllMoved<X>(order: seq<nat>, done: seq<bool>, was: seq<X>, now: seq<X>)
    requires Moved(order, done, was, now) && forall k :: 0 <= k < |done| ==> done[k]
    ensures forall k :: 0 <= k < |now| ==> order[k] < |was| && now[k] == was[order[k]]
  {
    forall k | 0 <= k < |now| ensures order[k] < |was| && now[k] == was[order[k]] {
      assert done[k];
      var x := now[k];
    }
  }

  // ---------------------------------------------------------------- the tail of the reader

  predicate SortedBy(ids: seq<u32>, order: seq<nat>) {
    && (forall k :: 0 <= k < |order| ==> order[k] < |ids|)
    && forall a, b :: 0 <= a < b < |order| ==> ids[order[a]] <= ids[order[b]]
  }

  function InsertIndex(ids: seq<u32>, order: seq<nat>, i: nat): seq<nat>
    requires i < |ids| && forall k :: 0 <= k < |order| ==> order[k] < |ids|
  {
    if order == [] || ids[i] <= ids[order[0]] then [i] + order
    else [order[0]] + InsertIndex(ids, order[1..], i)
  }

  lemma {:induction false} InsertIndexSorts(ids: seq<u32>, order: seq<nat>, i: nat)
    requires i < |ids| && SortedBy(ids, order) && i !in order
    requires forall a, b :: 0 <= a < b < |order| ==> order[a] != order[b]
    ensures var r := InsertIndex(ids, order, i);
      && SortedBy(ids, r) && |r| == |order| + 1
      && (forall x :: x in r <==> x == i || x in order)
      && forall a, b :: 0 <= a < b < |r| ==> r[a] != r[b]
  {
    if order == [] || ids[i] <= ids[order[0]] {
      assert InsertIndex(ids, order, i) == [i] + order;
      assert forall k :: 0 <= k < |order| ==> order[k] in order;
    } else {
      assert order == [order[0]] + order[1..];
      InsertIndexSorts(ids, order[1..], i);
      InFront(ids, order, i, InsertIndex(ids, order[1..], i));
    }
  }

  /** The smallest id stays in front of what is inserted behind it. */
  lemma InFront(ids: seq<u32>, order: seq<nat>, i: nat, r: seq<nat>)
    requires order != [] && i < |ids| && SortedBy(ids, order) && i !in order && ids[order[0]] <= ids[i]
    requires forall a, b :: 0 <= a < b < |order| ==> order[a] != order[b]
    requires SortedBy(ids, r) && forall x :: x in r <==> x == i || x in order[1..]
    requires forall a, b :: 0 <= a < b < |r| ==> r[a] != r[b]
    ensures SortedBy(ids, [order[0]] + r)
    ensures forall a, b :: 0 <= a < b < |[order[0]] + r| ==> ([order[0]] + r)[a] != ([order[0]] + r)[b]
  {
    forall b | 0 <= b < |r| ensures ids[order[0]] <= ids[r[b]] && r[b] != order[0] {
      assert r[b] in r;
    }
  }

  /** The standard library's sort of the positions by their id, as far as its result is concerned. */
  function SortIndices(ids: seq<u32>, n: nat): (order: seq<nat>)
    requires n <= |ids|
    ensures forall k :: 0 <= k < |order| ==> order[k] < n
  {
    if n == 0 then []
    else
      var before := SortIndices(ids, n - 1);
      InsertIndexBounded(ids, before, n - 1, n);
      InsertIndex(ids, before, n - 1)
  }

  lemma {:induction false} InsertIndexBounded(ids: seq<u32>, order: seq<nat>, i: nat, n: nat)
    requires i < n <= |ids| && forall k :: 0 <= k < |order| ==> order[k] < n
    ensures forall k :: 0 <= k < |InsertIndex(ids, order, i)| ==> InsertIndex(ids, order, i)[k] < n
  {
    if order != [] && ids[i] > ids[order[0]] {
      InsertIndexBounded(ids, order[1..], i, n);
    }
  }

  lemma {:induction false} SortIndicesSorts(ids: seq<u32>, n: nat)
    requires n <= |ids|
    ensures Sorts(ids, SortIndices(ids, n), n)
  {
    if n > 0 {
      SortIndicesSorts(ids, n - 1);
      SortsNext(ids, SortIndices(ids, n - 1), n - 1);
    }
  }

  /** `order` lists the positions below `n`, each once, by ascending id. */
  ghost predicate Sorts(ids: seq<u32>, order: seq<nat>, n: nat) {
    && SortedBy(ids, order) && Permutation(order, n)
    && forall x :: x in order <==> 0 <= x < n
  }

  lemma SortsNext(ids: seq<u32>, before: seq<nat>, n: nat)
    requires n < |ids| && Sorts(ids, before, n)
    ensures Sorts(ids, InsertIndex(ids, before, n), n + 1)
  {
    InsertIndexSorts(ids, before, n);
    var r := InsertIndex(ids, before, n);
    forall k | 0 <= k < |r| ensures r[k] < n + 1 {
      assert r[k] in r;
    }
  }

  /** After sorting, equal ids are neighbours. */
  lemma DuplicatesAdjacent(ids: seq<u32>, order: seq<nat>, i: nat, j: nat)
    requires Sorts(ids, order, |ids|) && i < j < |ids| && ids[i] == ids[j]
    ensures exists w :: 0 <= w && w + 1 < |order| && ids[order[w]] == ids[order[w + 1]]
  {
    assert i in order && j in order;
    var a :| 0 <= a < |order| && order[a] == i;
    var b :| 0 <= b < |order| && order[b] == j;
    var w := if a < b then a else b;
    var z := if a < b then b else a;
    assert ids[order[w]] <= ids[order[w + 1]];
    assert w + 1 < z ==> ids[order[w + 1]] <= ids[order[z]];
  }

  predicate RepeatsId(ids: seq<u32>, id: u32) {
    exists i, j :: 0 <= i < j < |ids| && ids[i] == id && ids[j] == id
  }

  /** Sort, reject a repeated id, permute: the ids come out strictly ascending and every id keeps
      its row; on a repetition nothing is touched. */
  method SortRows(ids: array<u32>, data: array<real>, dim: nat) returns (dup: Option<u32>)
    requires data.Length == Area(ids.Length, dim)
    modifies ids, data
    ensures dup.Some? ==> RepeatsId(old(ids[..]), dup.value) && ids[..] == old(ids[..]) && data[..] == old(data[..])
    ensures dup.None? ==> Ascending(ids[..]) && Members(ids[..]) == Members(old(ids[..]))
    ensures dup.None? ==> forall k, j :: 0 <= k < ids.Length && 0 <= j < ids.Length && ids[k] == old(ids[..])[j] ==>
      Rows(data[..], ids.Length, dim)[k] == Rows(old(data[..]), ids.Length, dim)[j]
  {
    ghost var was := ids[..];
    var order := SortIndices(ids[..], ids.Length);
    SortIndicesSorts(was, ids.Length);
    dup := FindRepeat(ids[..], order);
    if dup.None? {
      PermuteRows(ids, data, order, dim);
      SortedResult(was, order, ids[..]);
    }
  }

  /** The scan of neighbouring positions. */
  method FindRepeat(ids: seq<u32>, order: seq<nat>) returns (dup: Option<u32>)
    requires Sorts(ids, order, |ids|)
    ensures dup.Some? ==> RepeatsId(ids, dup.value)
    ensures dup.None? ==> forall i, j :: 0 <= i < j < |ids| ==> ids[i] != ids[j]
  {
    if |ids| > 0 {
      for w := 0 to |ids| - 1
        invariant forall v :: 0 <= v < w ==> ids[order[v]] != ids[order[v + 1]]
      {
        if ids[order[w]] == ids[order[w + 1]] {
          var i, j := order[w], order[w + 1];
          assert i < j || j < i;
          return Some(ids[i]);
        }
      }
      NoRepeats(ids, order);
    }
    dup := None;
  }

  lemma NoRepeats(ids: seq<u32>, order: seq<nat>)
    requires Sorts(ids, order, |ids|)
    requires forall w :: 0 <= w < |order| - 1 ==> ids[order[w]] != ids[order[w + 1]]
    ensures forall i, j :: 0 <= i < j < |ids| ==> ids[i] != ids[j]
  {
    forall i, j | 0 <= i < j < |ids| ensures ids[i] != ids[j] {
      if ids[i] == ids[j] {
        DuplicatesAdjacent(ids, order, i, j);
      }
    }
  }

  lemma SortedResult(was: seq<u32>, order: seq<nat>, now: seq<u32>)
    requires Sorts(was, order, |was|) && |now| == |was|
    requires forall i, j :: 0 <= i < j < |was| ==> was[i] != was[j]
    requires forall k :: 0 <= k < |now| ==> now[k] == was[order[k]]
    ensures Ascending(now) && Members(now) == Members(was)
    ensures forall k, j :: 0 <= k < |now| && 0 <= j < |was| && now[k] == was[j] ==> order[k] == j
  {
    forall a, b | 0 <= a < b < |now| ensures now[a] < now[b] {
      assert was[order[a]] <= was[order[b]] && order[a] != order[b];
    }
    forall x | x in was ensures x in now {
      var j :| 0 <= j < |was| && was[j] == x;
      assert j in order;
      var k :| 0 <= k < |order| && order[k] == j;
      assert now[k] == x;
    }
  }
}
