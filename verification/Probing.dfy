/** Open addressing with linear probing over a circular table of 32-bit ids. */
module Probing {

  type u32 = x: int | 0 <= x < 0x1_0000_0000

  const EMPTY: u32 := 0xFFFF_FFFF

  // ---------------------------------------------------------------- masks

  function Pow2(k: nat): (p: nat)
    ensures p >= 1
  {
    if k == 0 then 1 else 2 * Pow2(k - 1)
  }

  /** Bitwise AND of naturals. */
  function BitAnd(a: nat, b: nat): nat {
    if a == 0 || b == 0 then 0 else 2 * BitAnd(a / 2, b / 2) + (if a % 2 == 1 && b % 2 == 1 then 1 else 0)
  }

  lemma AndStep(a: nat, b: nat)
    requires a > 0 && b > 0 && b % 2 == 1
    ensures BitAnd(a, b) == 2 * BitAnd(a / 2, b / 2) + a % 2
  {
  }

  /** With a power-of-two capacity, masking is reduction modulo the capacity. */
  lemma {:induction false} MaskIsModulo(h: nat, k: nat)
    ensures BitAnd(h, Pow2(k) - 1) == h % Pow2(k)
  {
    if k == 0 || h == 0 {
      ModuloUnique(h, Pow2(k), if k == 0 then h else 0, 0);
    } else {
      var half := Pow2(k - 1);
      MaskIsModulo(h / 2, k - 1);
      MaskStep(h, half);
    }
  }

  lemma MaskStep(h: nat, half: nat)
    requires h > 0 && half >= 1 && BitAnd(h / 2, half - 1) == (h / 2) % half
    ensures BitAnd(h, 2 * half - 1) == h % (2 * half)
  {
    OddHalf(half);
    AndStep(h, 2 * half - 1);
    ModuloHalves(h, half);
  }

  lemma OddHalf(half: nat)
    requires half >= 1
    ensures (2 * half - 1) / 2 == half - 1 && (2 * half - 1) % 2 == 1
  {
  }

  lemma ModuloHalves(h: nat, half: nat)
    requires half >= 1
    ensures h % (2 * half) == 2 * ((h / 2) % half) + h % 2
  {
    var q, r := (h / 2) / half, (h / 2) % half;
    assert h / 2 == q * half + r;
    assert h == (2 * half) * q + (2 * r + h % 2) by {
      assert h == 2 * (h / 2) + h % 2;
      assert 2 * (q * half) == (2 * half) * q;
    }
    ModuloUnique(h, 2 * half, q, 2 * r + h % 2);
  }

  lemma ProductGrows(m: nat, a: nat, b: nat)
    requires a < b
    ensures m * a + m <= m * b
  {
    assert m * b == m * a + m * (b - a);
    assert m * (b - a) == m + m * (b - a - 1);
  }

  lemma ModuloUnique(h: nat, m: nat, q: nat, r: nat)
    requires m >= 1 && h == m * q + r && r < m
    ensures h % m == r
  {
    var q', r' := h / m, h % m;
    assert h == m * q' + r';
    if q > q' {
      ProductGrows(m, q', q);
    } else if q < q' {
      ProductGrows(m, q, q');
    }
  }

  ghost predicate Capacity(cap: nat) {
    cap >= 4 && cap % 4 == 0 && exists k: nat :: cap == Pow2(k)
  }

  /** `h` reduced modulo the capacity, by going round the circle. */
  function Wrap(h: nat, cap: nat): (i: nat)
    requires cap > 0
    ensures i < cap
  {
    if h < cap then h else Wrap(h - cap, cap)
  }

  lemma {:induction false} WrapIsModulo(h: nat, cap: nat)
    requires cap > 0
    ensures Wrap(h, cap) == h % cap
    decreases h
  {
    if h < cap {
      ModuloUnique(h, cap, 0, h);
    } else {
      WrapIsModulo(h - cap, cap);
      var q, r := (h - cap) / cap, (h - cap) % cap;
      assert h - cap == cap * q + r;
      assert cap * (q + 1) == cap * q + cap;
      ModuloUnique(h, cap, q + 1, r);
    }
  }

  lemma MaskCapacity(h: nat, cap: nat)
    requires Capacity(cap)
    ensures BitAnd(h, cap - 1) == Wrap(h, cap)
  {
    var k: nat :| cap == Pow2(k);
    MaskIsModulo(h, k);
    WrapIsModulo(h, cap);
  }

  lemma DoubledCapacity(cap: nat)
    requires Capacity(cap)
    ensures Capacity(2 * cap)
  {
    var k: nat :| cap == Pow2(k);
    assert Pow2(k + 1) == 2 * cap;
  }

  lemma InitialCapacity()
    ensures Capacity(65536)
  {
    assert Pow2(4) == 16;
    assert Pow2(8) == 256;
    assert Pow2(12) == 4096;
    assert Pow2(16) == 65536;
  }

  // ---------------------------------------------------------------- walking the circle

  function Next(i: nat, cap: nat): nat
    requires i < cap
  {
    if i + 1 == cap then 0 else i + 1
  }

  function Walk(i: nat, d: nat, cap: nat): (j: nat)
    requires i < cap && d < cap
    ensures j < cap
  {
    if i + d < cap then i + d else i + d - cap
  }

  function Steps(i: nat, j: nat, cap: nat): (d: nat)
    requires i < cap && j < cap
    ensures d < cap && Walk(i, d, cap) == j
  {
    if i <= j then j - i else j + cap - i
  }

  /** Distinct step counts below the capacity reach distinct slots. */
  lemma WalkInjective(i: nat, d: nat, e: nat, cap: nat)
    requires i < cap && d < cap && e < cap && Walk(i, d, cap) == Walk(i, e, cap)
    ensures d == e
  {
  }

  lemma NextWalks(i: nat, d: nat, cap: nat)
    requires i < cap && d + 1 < cap
    ensures Next(Walk(i, d, cap), cap) == Walk(i, d + 1, cap)
  {
  }

  // ---------------------------------------------------------------- tables

  type Hasher = u32 -> nat

  function Home(hash: Hasher, v: u32, cap: nat): (i: nat)
    requires cap > 0
    ensures i < cap
  {
    Wrap(hash(v), cap)
  }

  function Contents(t: seq<u32>): set<u32> {
    set v | v in t && v != EMPTY
  }

  /** The id in a slot; naming it keeps the table's quantifiers out of proofs that do not ask. */
  function Slot(t: seq<u32>, i: nat): u32
    requires i < |t|
  {
    t[i]
  }

  predicate Distinct(t: seq<u32>) {
    forall i: nat, j: nat {:trigger Slot(t, i), Slot(t, j)} ::
      i < j < |t| && Slot(t, i) != EMPTY ==> Slot(t, i) != Slot(t, j)
  }

  lemma DistinctSlots(t: seq<u32>)
    ensures Distinct(t) <==> forall i, j :: 0 <= i < j < |t| && t[i] != EMPTY ==> t[i] != t[j]
  {
    if Distinct(t) {
      forall i, j | 0 <= i < j < |t| && t[i] != EMPTY ensures t[i] != t[j] {
        assert Slot(t, i) != Slot(t, j);
      }
    }
  }

  /** The slot `j` can be reached from the home of its id without crossing an empty slot. */
  predicate Reached(hash: Hasher, t: seq<u32>, j: nat)
    requires j < |t|
  {
    var h := Home(hash, t[j], |t|);
    forall d :: 0 <= d < Steps(h, j, |t|) ==> t[Walk(h, d, |t|)] != EMPTY
  }

  predicate Chained(hash: Hasher, t: seq<u32>) {
    forall j: nat {:trigger Reached(hash, t, j)} :: j < |t| && t[j] != EMPTY ==> Reached(hash, t, j)
  }

  predicate Table(hash: Hasher, t: seq<u32>) {
    |t| > 0 && Distinct(t) && Chained(hash, t)
  }

  /** The first `d` slots probed for `v` hold other ids. */
  predicate Probed(hash: Hasher, t: seq<u32>, v: u32, d: nat)
    requires d <= |t| && |t| > 0
  {
    forall e :: 0 <= e < d ==> t[Walk(Home(hash, v, |t|), e, |t|)] != EMPTY && t[Walk(Home(hash, v, |t|), e, |t|)] != v
  }

  lemma NoEmptyBefore(t: seq<u32>, h: nat, d: nat, e: nat)
    requires h < |t| && d < |t| && e < |t| && t[Walk(h, e, |t|)] != EMPTY && t[Walk(h, d, |t|)] == EMPTY
    requires forall i :: 0 <= i < e ==> t[Walk(h, i, |t|)] != EMPTY
    ensures e < d
  {
  }

  /** A probe that meets an empty slot has shown that the id is absent. */
  lemma ProbeMiss(hash: Hasher, t: seq<u32>, v: u32, d: nat)
    requires Table(hash, t) && v != EMPTY && d < |t|
    requires Probed(hash, t, v, d) && t[Walk(Home(hash, v, |t|), d, |t|)] == EMPTY
    ensures v !in Contents(t)
  {
    if v in Contents(t) {
      var j :| 0 <= j < |t| && t[j] == v;
      var h := Home(hash, v, |t|);
      assert Reached(hash, t, j);
      NoEmptyBefore(t, h, d, Steps(h, j, |t|));
    }
  }

  /** Filling the slot where a probe stopped keeps the table and adds exactly that id. */
  lemma PlaceKeepsTable(hash: Hasher, t: seq<u32>, v: u32, d: nat)
    requires Table(hash, t) && v != EMPTY && d < |t| && v !in Contents(t)
    requires Probed(hash, t, v, d) && t[Walk(Home(hash, v, |t|), d, |t|)] == EMPTY
    ensures var t' := t[Walk(Home(hash, v, |t|), d, |t|) := v];
      Table(hash, t') && Contents(t') == Contents(t) + {v}
  {
    var h := Home(hash, v, |t|);
    var i := Walk(h, d, |t|);
    var t' := t[i := v];
    forall j | 0 <= j < |t'| && t'[j] != EMPTY ensures Reached(hash, t', j) {
      if j == i {
        WalkInjective(h, d, Steps(h, i, |t|), |t|);
      } else {
        assert Reached(hash, t, j);
      }
    }
    assert forall j :: 0 <= j < |t| && t[j] != EMPTY ==> t[j] in Contents(t) && j != i;
    assert t'[i] == v;
    DistinctSlots(t);
    DistinctSlots(t');
    forall x | x in Contents(t) + {v} ensures x in Contents(t') {
      if x != v {
        var j :| 0 <= j < |t| && t[j] == x;
        assert t'[j] == x;
      }
    }
  }

  // ---------------------------------------------------------------- counting

  function Members(s: seq<u32>): set<u32> {
    set v | v in s
  }

  lemma {:induction false} DistinctSize(s: seq<u32>)
    requires forall i, j :: 0 <= i < j < |s| ==> s[i] != s[j]
    ensures |Members(s)| == |s|
  {
    if s != [] {
      var n := |s| - 1;
      DistinctSize(s[..n]);
      assert s == s[..n] + [s[n]];
      assert s[n] !in Members(s[..n]);
      assert Members(s) == Members(s[..n]) + {s[n]};
    }
  }

  /** Fewer ids than slots: some slot is empty, so every probe ends. */
  lemma EmptySlotExists(hash: Hasher, t: seq<u32>)
    requires Table(hash, t) && |Contents(t)| < |t|
    ensures exists j :: 0 <= j < |t| && t[j] == EMPTY
  {
    if forall j :: 0 <= j < |t| ==> t[j] != EMPTY {
      FullTable(t);
    }
  }

  lemma FullTable(t: seq<u32>)
    requires Distinct(t) && forall j :: 0 <= j < |t| ==> t[j] != EMPTY
    ensures |Contents(t)| == |t|
  {
    DistinctSlots(t);
    DistinctSize(t);
    assert Contents(t) == Members(t);
  }

  lemma AllEmpty(hash: Hasher, t: seq<u32>)
    requires |t| > 0 && forall j :: 0 <= j < |t| ==> t[j] == EMPTY
    ensures Table(hash, t) && Contents(t) == {}
  {
  }

  // ---------------------------------------------------------------- sorted lists

  predicate Ascending(s: seq<u32>) {
    forall i, j :: 0 <= i < j < |s| ==> s[i] < s[j]
  }

  function InsertSorted(s: seq<u32>, v: u32): seq<u32> {
    if s == [] || v <= s[0] then [v] + s else [s[0]] + InsertSorted(s[1..], v)
  }

  /** The standard library's sort, as far as its result is concerned. */
  function Sorted(s: seq<u32>): seq<u32> {
    if s == [] then [] else InsertSorted(Sorted(s[1..]), s[0])
  }

  lemma {:induction false} InsertSortedAscending(s: seq<u32>, v: u32)
    requires Ascending(s) && v !in s
    ensures Ascending(InsertSorted(s, v)) && |InsertSorted(s, v)| == |s| + 1
    ensures forall x :: x in InsertSorted(s, v) <==> x == v || x in s
  {
    if s != [] && v > s[0] {
      assert s == [s[0]] + s[1..];
      InsertSortedAscending(s[1..], v);
      var r := InsertSorted(s[1..], v);
      forall i | 0 <= i < |r| ensures s[0] < r[i] {
        assert r[i] in r;
      }
    }
  }

  lemma {:induction false} SortedAscending(s: seq<u32>)
    requires forall i, j :: 0 <= i < j < |s| ==> s[i] != s[j]
    ensures Ascending(Sorted(s)) && |Sorted(s)| == |s|
    ensures forall x :: x in Sorted(s) <==> x in s
  {
    if s != [] {
      SortedAscending(s[1..]);
      assert s[0] !in s[1..];
      InsertSortedAscending(Sorted(s[1..]), s[0]);
      assert s == [s[0]] + s[1..];
    }
  }

  /** The i-th of ascending ids is at least i, so positions of a list of ids fit in 32 bits. */
  lemma {:induction false} AscendingIndex(s: seq<u32>, i: nat)
    requires Ascending(s) && i < |s|
    ensures i <= s[i]
  {
    if i > 0 {
      AscendingIndex(s, i - 1);
      assert s[i - 1] < s[i];
    }
  }

  /** An ascending list is determined by its members. */
  lemma {:induction false} AscendingUnique(s: seq<u32>, t: seq<u32>)
    requires Ascending(s) && Ascending(t) && forall x :: x in s <==> x in t
    ensures s == t
  {
    if t != [] {
      assert t[0] in t;
    }
    if s != [] {
      assert s[0] in s;
      assert s[0] in t;
      assert t[0] in s;
      assert s[0] == t[0];
      assert s == [s[0]] + s[1..] && t == [t[0]] + t[1..];
      assert s[0] !in s[1..] && t[0] !in t[1..];
      forall x ensures x in s[1..] <==> x in t[1..] {
        assert x in s <==> x == s[0] || x in s[1..];
        assert x in t <==> x == t[0] || x in t[1..];
      }
      AscendingUnique(s[1..], t[1..]);
    }
  }
}
