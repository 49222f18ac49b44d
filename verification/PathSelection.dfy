/** Which rows a path prefix selects.  Within every endpoint partition: ANY takes the first rows,
    SHORTEST the shortest ones, SHORTEST GROUPS those of the least lengths. */
module PathSelection {
  import opened Values
  import opened Syntax
  import opened RowAlgebra
  import opened Runtime
  import opened Evaluator

  // ---------------------------------------------------------------- the least elements of an ordered set

  function Min(a: nat, b: nat): nat {
    if a <= b then a else b
  }

  ghost predicate StrictOrder<T(!new)>(less: (T, T) -> bool) {
    && (forall x: T, y: T :: less(x, y) ==> !less(y, x))
    && (forall x: T, y: T :: x != y ==> less(x, y) || less(y, x))
    && (forall x: T, y: T, z: T :: less(x, y) && less(y, z) ==> less(x, z))
  }

  function Under<T>(a: set<T>, less: (T, T) -> bool, x: T): set<T> {
    set y | y in a && less(y, x)
  }

  /** The elements with fewer than `n` elements below them. */
  function Least<T>(a: set<T>, less: (T, T) -> bool, n: nat): set<T> {
    set x | x in a && |Under(a, less, x)| < n
  }

  lemma {:induction false} Greatest<T(!new)>(a: set<T>, less: (T, T) -> bool) returns (m: T)
    requires a != {} && StrictOrder(less)
    ensures m in a && forall x :: x in a && x != m ==> less(x, m)
    decreases |a|
  {
    var x :| x in a;
    if a - {x} == {} {
      m := x;
      assert a == {x};
    } else {
      var top := Greatest(a - {x}, less);
      m := if less(x, top) then top else x;
      forall y | y in a && y != m ensures less(y, m) {
        if y != x && y != top {
          assert y in a - {x} && less(y, top);
          Chained(less, y, top, x);
        }
      }
    }
  }

  lemma Chained<T(!new)>(less: (T, T) -> bool, x: T, y: T, z: T)
    requires StrictOrder(less)
    ensures less(x, y) && less(y, z) ==> less(x, z)
  {
  }

  /** Without the greatest element the others have the same elements below them. */
  lemma UnderOthers<T(!new)>(a: set<T>, less: (T, T) -> bool, m: T)
    requires StrictOrder(less) && m in a && forall x :: x in a && x != m ==> less(x, m)
    ensures Under(a, less, m) == a - {m}
    ensures forall x :: x in a && x != m ==> Under(a, less, x) == Under(a - {m}, less, x)
  {
  }

  /** There are `n` of them, or as many as there are elements. */
  lemma {:induction false} LeastCount<T(!new)>(a: set<T>, less: (T, T) -> bool, n: nat)
    requires StrictOrder(less)
    ensures |Least(a, less, n)| == Min(n, |a|)
    decreases |a|
  {
    if a == {} {
      assert Least(a, less, n) == {};
    } else {
      var m := Greatest(a, less);
      UnderOthers(a, less, m);
      LeastCount(a - {m}, less, n);
      var below := Least(a - {m}, less, n);
      assert |a - {m}| == |a| - 1;
      assert Least(a, less, n) == if |a| - 1 < n then below + {m} else below;
    }
  }

  lemma UnderGrows<T(!new)>(a: set<T>, less: (T, T) -> bool, x: T, y: T)
    requires StrictOrder(less) && x in a && less(x, y)
    ensures |Under(a, less, x)| < |Under(a, less, y)|
  {
    SubsetSize(Under(a, less, x) + {x}, Under(a, less, y));
  }

  lemma {:induction false} SubsetSize<T>(a: set<T>, b: set<T>)
    requires a <= b
    ensures |a| <= |b|
    decreases |a|
  {
    if a != {} {
      var x :| x in a;
      SubsetSize(a - {x}, b - {x});
    }
  }

  /** Every one of them is below every other element. */
  lemma LeastBelow<T(!new)>(a: set<T>, less: (T, T) -> bool, n: nat, x: T, y: T)
    requires StrictOrder(less) && x in Least(a, less, n) && y in a && y !in Least(a, less, n)
    ensures less(x, y)
  {
    if !less(x, y) {
      UnderGrows(a, less, y, x);
    }
  }

  // ---------------------------------------------------------------- positions

  ghost predicate Ascending(idx: seq<nat>, n: nat) {
    && (forall a, b :: 0 <= a < b < |idx| ==> idx[a] < idx[b])
    && (forall a :: 0 <= a < |idx| ==> idx[a] < n)
  }

  lemma {:induction false} AscendingSize(idx: seq<nat>, s: set<nat>, n: nat)
    requires Ascending(idx, n) && forall i :: i in s <==> i in idx
    ensures |s| == |idx|
    decreases |idx|
  {
    if idx == [] {
      assert s == {};
    } else {
      var k := |idx| - 1;
      var init := idx[..k];
      assert idx[k] in s && idx[k] !in init;
      forall i ensures i in s - {idx[k]} <==> i in init {
        if i in idx && i != idx[k] {
          var a :| 0 <= a < |idx| && idx[a] == i;
          assert init[a] == i;
        }
        if i in init {
          var a :| 0 <= a < |init| && init[a] == i;
          assert idx[a] == i;
        }
      }
      AscendingSize(init, s - {idx[k]}, n);
    }
  }

  function UpTo(n: nat): (s: set<nat>)
    ensures |s| == n && forall i: nat :: i in s <==> i < n
  {
    if n == 0 then {} else UpTo(n - 1) + {n - 1}
  }

  // ---------------------------------------------------------------- what a search selects of one partition

  function LengthsOf(lens: seq<nat>): set<nat> {
    set i | 0 <= i < |lens| :: lens[i]
  }

  /** `d` holds the `n` least of the lengths that occur, or all of them. */
  ghost predicate LeastLengths(lens: seq<nat>, n: nat, d: set<nat>) {
    && d <= LengthsOf(lens) && |d| == Min(n, |LengthsOf(lens)|)
    && forall x, y :: x in d && y in LengthsOf(lens) && y !in d ==> x < y
  }

  /** A row at `i` goes before a row at `j`: it is shorter, or as long and produced earlier. */
  predicate Before(lens: seq<nat>, i: nat, j: nat)
    requires i < |lens| && j < |lens|
  {
    lens[i] < lens[j] || (lens[i] == lens[j] && i < j)
  }

  /** `idx` are the positions selected of a partition whose rows have lengths `lens`. */
  ghost predicate Selects(search: PathSearch, lens: seq<nat>, idx: seq<nat>) {
    && Ascending(idx, |lens|)
    && match search
       case All => |idx| == |lens|
       case Any(n) => |idx| == Min(n, |lens|) && forall a :: 0 <= a < |idx| ==> idx[a] == a
       case ShortestPaths(n) =>
         && |idx| == Min(n, |lens|)
         && forall i: nat, j: nat :: i in idx && j < |lens| && j !in idx ==> Before(lens, i, j)
       case ShortestGroups(n) =>
         exists d :: LeastLengths(lens, n, d) && forall i :: 0 <= i < |lens| ==> (i in idx <==> lens[i] in d)
  }

  /** `idx` are the positions that the selection keeps. */
  ghost predicate KeptAt(search: PathSearch, lens: seq<nat>, idx: seq<nat>) {
    Ascending(idx, |lens|) && forall i :: 0 <= i < |lens| ==> (i in idx <==> Keeps(search, lens, i))
  }

  lemma KeptSelects(search: PathSearch, lens: seq<nat>, idx: seq<nat>)
    requires KeptAt(search, lens, idx)
    ensures Selects(search, lens, idx)
  {
    match search
    case All => AscendingSize(idx, UpTo(|lens|), |lens|);
    case Any(n) =>
      AscendingSize(idx, UpTo(Min(n, |lens|)), |lens|);
      FirstOnes(idx, |lens|);
    case ShortestPaths(n) => ShortestKept(n, lens, idx);
    case ShortestGroups(n) => GroupsKept(n, lens, idx);
  }

  /** Ascending positions that are all below their number are the first ones. */
  lemma {:induction false} FirstOnes(idx: seq<nat>, n: nat)
    requires Ascending(idx, n) && forall i :: i in idx ==> i < |idx|
    ensures forall a :: 0 <= a < |idx| ==> idx[a] == a
  {
    forall a | 0 <= a < |idx| ensures idx[a] == a {
      AtLeast(idx, n, a);
      RoomAbove(idx, n, a);
    }
  }

  lemma {:induction false} AtLeast(idx: seq<nat>, n: nat, a: nat)
    requires Ascending(idx, n) && a < |idx|
    ensures idx[a] >= a
  {
    if a > 0 {
      AtLeast(idx, n, a - 1);
    }
  }

  lemma {:induction false} RoomAbove(idx: seq<nat>, n: nat, a: nat)
    requires Ascending(idx, n) && a < |idx| && forall i :: i in idx ==> i < |idx|
    ensures idx[a] <= a
    decreases |idx| - a
  {
    if a + 1 < |idx| {
      RoomAbove(idx, n, a + 1);
    } else {
      assert idx[a] in idx;
    }
  }

  function ByLength(lens: seq<nat>): (nat, nat) -> bool {
    (i: nat, j: nat) =>
      var a, b := if i < |lens| then lens[i] else 0, if j < |lens| then lens[j] else 0;
      a < b || (a == b && i < j)
  }

  lemma ShortestKept(n: nat, lens: seq<nat>, idx: seq<nat>)
    requires KeptAt(ShortestPaths(n), lens, idx)
    ensures Selects(ShortestPaths(n), lens, idx)
  {
    var all, less := UpTo(|lens|), ByLength(lens);
    forall i: nat | i < |lens| ensures i in Least(all, less, n) <==> i in idx {
      assert Under(all, less, i) == set j | 0 <= j < |lens| && (lens[j] < lens[i] || (lens[j] == lens[i] && j < i));
      assert i in idx <==> Keeps(ShortestPaths(n), lens, i);
    }
    LeastCount(all, less, n);
    AscendingSize(idx, Least(all, less, n), |lens|);
    forall i: nat, j: nat | i in idx && j < |lens| && j !in idx ensures Before(lens, i, j) {
      LeastBelow(all, less, n, i, j);
    }
  }

  lemma GroupsKept(n: nat, lens: seq<nat>, idx: seq<nat>)
    requires KeptAt(ShortestGroups(n), lens, idx)
    ensures Selects(ShortestGroups(n), lens, idx)
  {
    var all, less := LengthsOf(lens), (x: nat, y: nat) => x < y;
    var d := Least(all, less, n);
    LeastCount(all, less, n);
    forall x, y | x in d && y in all && y !in d ensures x < y {
      LeastBelow(all, less, n, x, y);
    }
    assert LeastLengths(lens, n, d);
    forall i | 0 <= i < |lens| ensures i in idx <==> lens[i] in d {
      assert Under(all, less, lens[i]) == set j | 0 <= j < |lens| && lens[j] < lens[i] :: lens[j];
      assert i in idx <==> Keeps(ShortestGroups(n), lens, i);
    }
  }

  // ---------------------------------------------------------------- nothing else meets the conditions

  /** Sets of one size, each below what it leaves out, are equal. */
  lemma SameLeast<T(!new)>(a: set<T>, b: set<T>, all: set<T>, less: (T, T) -> bool)
    requires StrictOrder(less) && a <= all && b <= all && |a| == |b|
    requires forall x, y :: x in a && y in all && y !in a ==> less(x, y)
    requires forall x, y :: x in b && y in all && y !in b ==> less(x, y)
    ensures a == b
  {
    if x :| x in a && x !in b {
      if y :| y in b && y !in a {
        assert false;
      } else {
        assert b <= a - {x};
        SubsetSize(b, a - {x});
      }
    } else if y :| y in b && y !in a {
      SubsetSize(a, b - {y});
    }
  }

  function Listed(idx: seq<nat>): set<nat> {
    set i | i in idx
  }

  /** Ascending positions are determined by their set. */
  lemma {:induction false} SameListed(a: seq<nat>, b: seq<nat>, n: nat)
    requires Ascending(a, n) && Ascending(b, n) && Listed(a) == Listed(b)
    ensures a == b
  {
    AscendingSize(a, Listed(a), n);
    AscendingSize(b, Listed(b), n);
    forall k | 0 <= k < |a| ensures a[k] == b[k] {
      SameAt(a, b, n, k);
    }
  }

  lemma {:induction false} SameAt(a: seq<nat>, b: seq<nat>, n: nat, k: nat)
    requires Ascending(a, n) && Ascending(b, n) && Listed(a) == Listed(b) && k < |a| == |b|
    ensures a[k] == b[k] && forall h :: 0 <= h < k ==> a[h] == b[h]
  {
    if k > 0 {
      SameAt(a, b, n, k - 1);
    }
    assert a[k] in Listed(b) && b[k] in Listed(a);
    var h :| 0 <= h < |b| && b[h] == a[k];
    var g :| 0 <= g < |a| && a[g] == b[k];
    assert h >= k && g >= k;
  }

  /** The conditions single out one selection. */
  lemma SelectsDetermines(search: PathSearch, lens: seq<nat>, a: seq<nat>, b: seq<nat>)
    requires Selects(search, lens, a) && Selects(search, lens, b)
    ensures a == b
  {
    var n := |lens|;
    AscendingSize(a, Listed(a), n);
    AscendingSize(b, Listed(b), n);
    match search {
      case All =>
        FullList(a, n);
        FullList(b, n);
      case Any(k) => assert a == b;
      case ShortestPaths(k) =>
        SameLeast(Listed(a), Listed(b), UpTo(n), ByLength(lens));
      case ShortestGroups(k) =>
        GroupsDetermine(k, lens, a, b);
    }
    SameListed(a, b, n);
  }

  lemma GroupsDetermine(n: nat, lens: seq<nat>, a: seq<nat>, b: seq<nat>)
    requires Selects(ShortestGroups(n), lens, a) && Selects(ShortestGroups(n), lens, b)
    ensures Listed(a) == Listed(b)
  {
    var c :| LeastLengths(lens, n, c) && forall i :: 0 <= i < |lens| ==> (i in a <==> lens[i] in c);
    var d :| LeastLengths(lens, n, d) && forall i :: 0 <= i < |lens| ==> (i in b <==> lens[i] in d);
    SameLeast(c, d, LengthsOf(lens), (x: nat, y: nat) => x < y);
  }

  lemma FullList(a: seq<nat>, n: nat)
    requires Ascending(a, n) && |a| == n
    ensures Listed(a) == UpTo(n)
  {
    AscendingSize(a, Listed(a), n);
    assert Listed(a) <= UpTo(n);
    if x :| x in UpTo(n) && x !in Listed(a) {
      SubsetSize(Listed(a), UpTo(n) - {x});
    }
  }

  // ---------------------------------------------------------------- the selection

  lemma PartitionCons(r: Row, rest: seq<Row>, key: BoundaryKey)
    ensures Partition([r] + rest, key) == if KeyOf(r) == key then [r] + Partition(rest, key) else Partition(rest, key)
  {
    FilterCons(r, rest, (s: Row) => KeyOf(s) == key);
  }

  lemma PartitionSnoc(seen: seq<Row>, r: Row, key: BoundaryKey)
    ensures Partition(seen + [r], key) == if KeyOf(r) == key then Partition(seen, key) + [r] else Partition(seen, key)
  {
    FilterAppend(seen, [r], (s: Row) => KeyOf(s) == key);
    FilterCons(r, [], (s: Row) => KeyOf(s) == key);
    assert [r] + [] == [r];
  }

  ghost predicate RowsAt(part: seq<Row>, idx: seq<nat>, out: seq<Row>) {
    |out| == |idx| && forall a :: 0 <= a < |idx| ==> idx[a] < |part| && out[a] == part[idx[a]]
  }

  /** `out` are the rows of `part` at the positions kept, the first of which is number `done` of its
      partition. */
  ghost predicate KeptFrom(search: PathSearch, lens: seq<nat>, done: nat, part: seq<Row>, idx: seq<nat>,
                           out: seq<Row>) {
    && Ascending(idx, |part|)
    && (forall i :: 0 <= i < |part| ==> (i in idx <==> KeepTest(search, lens, done)(i)))
    && RowsAt(part, idx, out)
  }

  lemma ShiftedKept(keep: nat -> bool, n: nat, later: seq<nat>)
    requires Ascending(later, n) && forall i :: 0 <= i < n ==> (i in later <==> keep(i + 1))
    ensures var idx := (if keep(0) then [0] else []) + Shifted(later);
      Ascending(idx, n + 1) && forall i :: 0 <= i < n + 1 ==> (i in idx <==> keep(i))
  {
    var idx := (if keep(0) then [0] else []) + Shifted(later);
    forall i: nat | i < n + 1 ensures i in idx <==> keep(i) {
      if i > 0 {
        ShiftedMember(later, i);
        assert i - 1 in later <==> keep(i - 1 + 1);
      }
    }
  }

  function KeepTest(search: PathSearch, lens: seq<nat>, done: nat): nat -> bool {
    (i: nat) => Keeps(search, lens, done + i)
  }

  lemma RowsAtCons(r: Row, part: seq<Row>, later: seq<nat>, out: seq<Row>)
    requires RowsAt(part, later, out)
    ensures RowsAt([r] + part, [0] + Shifted(later), [r] + out)
    ensures RowsAt([r] + part, [] + Shifted(later), out)
  {
    RowsAtShifted(r, part, later, out);
    var idx, all := [0] + Shifted(later), [r] + out;
    forall a | 0 <= a < |idx| ensures idx[a] < |part| + 1 && all[a] == ([r] + part)[idx[a]] {
      if a > 0 {
        assert idx[a] == Shifted(later)[a - 1] && all[a] == out[a - 1];
      }
    }
    assert [] + Shifted(later) == Shifted(later);
  }

  lemma RowsAtShifted(r: Row, part: seq<Row>, later: seq<nat>, out: seq<Row>)
    requires RowsAt(part, later, out)
    ensures RowsAt([r] + part, Shifted(later), out)
  {
    forall a | 0 <= a < |later| ensures out[a] == ([r] + part)[Shifted(later)[a]] {
      assert ([r] + part)[later[a] + 1] == part[later[a]];
    }
  }

  lemma KeptCons(search: PathSearch, lens: seq<nat>, done: nat, r: Row, part: seq<Row>, later: seq<nat>, out: seq<Row>)
    requires KeptFrom(search, lens, done + 1, part, later, out)
    ensures var keep := KeepTest(search, lens, done)(0);
      KeptFrom(search, lens, done, [r] + part, (if keep then [0] else []) + Shifted(later),
               if keep then [r] + out else out)
  {
    var keep := KeepTest(search, lens, done);
    forall i: nat | i < |part| ensures i in later <==> keep(i + 1) {
      NextTest(search, lens, done, i);
    }
    ShiftedKept(keep, |part|, later);
    RowsAtCons(r, part, later, out);
  }

  lemma NextTest(search: PathSearch, lens: seq<nat>, done: nat, i: nat)
    ensures KeepTest(search, lens, done + 1)(i) == KeepTest(search, lens, done)(i + 1)
  {
    assert done + 1 + i == done + (i + 1);
  }

  /** One row more. */
  lemma SelectCons(search: PathSearch, rest: seq<Row>, all: seq<Row>, seen: seq<Row>, key: BoundaryKey, lens: seq<nat>)
    requires rest != [] && lens == MapSeq(Partition(all, key), RowLength)
    ensures var r, tail := rest[0], SelectFrom(search, rest[1..], all, seen + [rest[0]]);
      Partition(SelectFrom(search, rest, all, seen), key)
        == if KeyOf(r) == key && KeepTest(search, lens, |Partition(seen, key)|)(0) then [r] + Partition(tail, key)
           else Partition(tail, key)
  {
    PartitionCons(rest[0], SelectFrom(search, rest[1..], all, seen + [rest[0]]), key);
  }

  /** The rows of one partition are kept by position. */
  lemma {:induction false} SelectPositions(search: PathSearch, rest: seq<Row>, all: seq<Row>, seen: seq<Row>,
                                           key: BoundaryKey, lens: seq<nat>)
    returns (idx: seq<nat>)
    requires lens == MapSeq(Partition(all, key), RowLength)
    ensures KeptFrom(search, lens, |Partition(seen, key)|, Partition(rest, key), idx,
                     Partition(SelectFrom(search, rest, all, seen), key))
    decreases |rest|
  {
    if rest == [] {
      idx := [];
    } else {
      var r, done := rest[0], |Partition(seen, key)|;
      idx := SelectPositions(search, rest[1..], all, seen + [r], key, lens);
      assert rest == [r] + rest[1..];
      PartitionSnoc(seen, r, key);
      PartitionCons(r, rest[1..], key);
      SelectCons(search, rest, all, seen, key, lens);
      if KeyOf(r) == key {
        var tail := Partition(SelectFrom(search, rest[1..], all, seen + [r]), key);
        KeptCons(search, lens, done, r, Partition(rest[1..], key), idx, tail);
        idx := (if KeepTest(search, lens, done)(0) then [0] else []) + Shifted(idx);
      }
    }
  }

  function Lengths(rows: seq<Row>): (lens: seq<nat>) {
    seq(|rows|, i requires 0 <= i < |rows| => RowLength(rows[i]))
  }

  lemma {:induction false} LengthsMapped(rows: seq<Row>)
    ensures MapSeq(rows, RowLength) == Lengths(rows)
  {
    if rows != [] {
      LengthsMapped(rows[1..]);
    }
  }

  lemma KeptAll(search: PathSearch, part: seq<Row>, idx: seq<nat>, out: seq<Row>)
    requires KeptFrom(search, Lengths(part), 0, part, idx, out)
    ensures Selects(search, Lengths(part), idx)
  {
    forall i | 0 <= i < |part| ensures i in idx <==> Keeps(search, Lengths(part), i) {
      assert KeepTest(search, Lengths(part), 0)(i) == Keeps(search, Lengths(part), i);
    }
    KeptSelects(search, Lengths(part), idx);
  }

  /** Per pair of endpoints, the selected rows are those that the search asks for, in the order in which
      they were produced. */
  lemma SelectionExact(rows: seq<Row>, prefix: PathPrefix, key: BoundaryKey) returns (idx: seq<nat>)
    ensures var part := Partition(FilterSeq(rows, ModeTest(prefix.mode)), key);
      && Selects(prefix.search, Lengths(part), idx)
      && RowsAt(part, idx, Partition(ApplyPrefix(rows, prefix), key))
  {
    var valid := FilterSeq(rows, ModeTest(prefix.mode));
    LengthsMapped(Partition(valid, key));
    idx := SelectPositions(prefix.search, valid, valid, [], key, Lengths(Partition(valid, key)));
    assert Partition([], key) == [];
    KeptAll(prefix.search, Partition(valid, key), idx, Partition(ApplyPrefix(rows, prefix), key));
  }

  /** And altogether the selected rows stay in the order in which they were produced. */
  lemma {:induction false} SelectionInOrder(search: PathSearch, rest: seq<Row>, all: seq<Row>, seen: seq<Row>)
    returns (idx: seq<nat>)
    ensures Ascending(idx, |rest|) && RowsAt(rest, idx, SelectFrom(search, rest, all, seen))
    decreases |rest|
  {
    if rest == [] {
      idx := [];
    } else {
      var r, tail := rest[0], SelectFrom(search, rest[1..], all, seen + [rest[0]]);
      var later := SelectionInOrder(search, rest[1..], all, seen + [r]);
      idx := InOrderCons(r, rest[1..], later, tail, KeepsFirst(search, r, all, seen));
      assert rest == [r] + rest[1..];
      SelectUnfold(search, rest, all, seen);
    }
  }

  lemma InOrderCons(r: Row, rest: seq<Row>, later: seq<nat>, tail: seq<Row>, keep: bool) returns (idx: seq<nat>)
    requires Ascending(later, |rest|) && RowsAt(rest, later, tail)
    ensures Ascending(idx, |[r] + rest|) && RowsAt([r] + rest, idx, if keep then [r] + tail else tail)
  {
    RowsAtCons(r, rest, later, tail);
    RowsAtShifted(r, rest, later, tail);
    AscendingCons(later, |rest|);
    idx := if keep then [0] + Shifted(later) else Shifted(later);
  }

  lemma AscendingCons(later: seq<nat>, n: nat)
    requires Ascending(later, n)
    ensures Ascending([0] + Shifted(later), n + 1) && Ascending(Shifted(later), n + 1)
  {
    var up := Shifted(later);
    ShiftedAscends(later, n);
    var idx := [0] + up;
    forall a, b | 0 <= a < b < |idx| ensures idx[a] < idx[b] {
      assert idx[b] == up[b - 1];
      if a > 0 {
        assert idx[a] == up[a - 1];
      }
    }
  }

  lemma ShiftedAscends(later: seq<nat>, n: nat)
    requires Ascending(later, n)
    ensures Ascending(Shifted(later), n + 1)
  {
  }

  predicate KeepsFirst(search: PathSearch, r: Row, all: seq<Row>, seen: seq<Row>) {
    Keeps(search, MapSeq(Partition(all, KeyOf(r)), RowLength), |Partition(seen, KeyOf(r))|)
  }

  lemma SelectUnfold(search: PathSearch, rest: seq<Row>, all: seq<Row>, seen: seq<Row>)
    requires rest != []
    ensures var tail := SelectFrom(search, rest[1..], all, seen + [rest[0]]);
      SelectFrom(search, rest, all, seen) == if KeepsFirst(search, rest[0], all, seen) then [rest[0]] + tail else tail
  {
  }
}
