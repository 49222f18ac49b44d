/** Sequences of rows: filtering, pairing (the nested-loop reading of every join) and mapping,
    with the laws that let a filter move through a pairing. */
module RowAlgebra {

  function FilterSeq<T>(s: seq<T>, f: T -> bool): seq<T> {
    if s == [] then []
    else if f(s[0]) then [s[0]] + FilterSeq(s[1..], f)
    else FilterSeq(s[1..], f)
  }

  function MapSeq<T, U>(s: seq<T>, f: T -> U): seq<U> {
    if s == [] then [] else [f(s[0])] + MapSeq(s[1..], f)
  }

  /** All `merge(x, y)` for `y` in `ys` compatible with `x`, in order. */
  function PairOne<T>(x: T, ys: seq<T>, compat: (T, T) -> bool, merge: (T, T) -> T): seq<T> {
    if ys == [] then []
    else if compat(x, ys[0]) then [merge(x, ys[0])] + PairOne(x, ys[1..], compat, merge)
    else PairOne(x, ys[1..], compat, merge)
  }

  /** The nested loop: left rows outermost. */
  function PairAll<T>(xs: seq<T>, ys: seq<T>, compat: (T, T) -> bool, merge: (T, T) -> T): seq<T> {
    if xs == [] then [] else PairOne(xs[0], ys, compat, merge) + PairAll(xs[1..], ys, compat, merge)
  }

  // ---------------------------------------------------------------- unfolding a non-empty sequence

  lemma FilterCons<T>(x: T, s: seq<T>, f: T -> bool)
    ensures FilterSeq([x] + s, f) == if f(x) then [x] + FilterSeq(s, f) else FilterSeq(s, f)
  {
    assert ([x] + s)[1..] == s;
  }

  lemma PairOneCons<T>(x: T, y: T, ys: seq<T>, c: (T, T) -> bool, m: (T, T) -> T)
    ensures PairOne(x, [y] + ys, c, m) == if c(x, y) then [m(x, y)] + PairOne(x, ys, c, m) else PairOne(x, ys, c, m)
  {
    assert ([y] + ys)[1..] == ys;
  }

  lemma PairCons<T>(x: T, xs: seq<T>, ys: seq<T>, c: (T, T) -> bool, m: (T, T) -> T)
    ensures PairAll([x] + xs, ys, c, m) == PairOne(x, ys, c, m) + PairAll(xs, ys, c, m)
  {
    assert ([x] + xs)[1..] == xs;
  }

  lemma MapCons<T, U>(x: T, s: seq<T>, f: T -> U)
    ensures MapSeq([x] + s, f) == [f(x)] + MapSeq(s, f)
  {
    assert ([x] + s)[1..] == s;
  }

  // ---------------------------------------------------------------- filtering

  lemma {:induction false} FilterMember<T>(s: seq<T>, f: T -> bool, x: T)
    ensures x in FilterSeq(s, f) <==> x in s && f(x)
  {
    if s != [] {
      FilterMember(s[1..], f, x);
      assert s == [s[0]] + s[1..];
    }
  }

  lemma {:induction false} FilterAppend<T>(s: seq<T>, t: seq<T>, f: T -> bool)
    ensures FilterSeq(s + t, f) == FilterSeq(s, f) + FilterSeq(t, f)
  {
    if s == [] {
      assert s + t == t;
    } else {
      FilterAppend(s[1..], t, f);
      FilterCons(s[0], s[1..] + t, f);
      assert [s[0]] + (s[1..] + t) == s + t;
    }
  }

  lemma {:induction false} FilterCongruence<T>(s: seq<T>, f: T -> bool, g: T -> bool)
    requires forall x :: x in s ==> f(x) == g(x)
    ensures FilterSeq(s, f) == FilterSeq(s, g)
  {
    if s != [] {
      assert s[0] in s;
      assert forall x :: x in s[1..] ==> x in s;
      FilterCongruence(s[1..], f, g);
    }
  }

  lemma {:induction false} FilterAllPass<T>(s: seq<T>, f: T -> bool)
    requires forall x :: x in s ==> f(x)
    ensures FilterSeq(s, f) == s
  {
    if s != [] {
      assert s[0] in s;
      assert forall x :: x in s[1..] ==> x in s;
      FilterAllPass(s[1..], f);
      assert s == [s[0]] + s[1..];
    }
  }

  lemma {:induction false} FilterFilter<T>(s: seq<T>, f: T -> bool, g: T -> bool, h: T -> bool)
    requires forall x :: x in s ==> (h(x) <==> f(x) && g(x))
    ensures FilterSeq(FilterSeq(s, f), g) == FilterSeq(s, h)
  {
    if s != [] {
      assert s[0] in s;
      assert forall x :: x in s[1..] ==> x in s;
      FilterFilter(s[1..], f, g, h);
      FilterCons(s[0], FilterSeq(s[1..], f), g);
    }
  }

  /** `idx` lists, in ascending order, exactly the positions of `s` at which `f` holds. */
  ghost predicate Positions<T>(s: seq<T>, f: T -> bool, idx: seq<nat>) {
    && (forall a, b :: 0 <= a < b < |idx| ==> idx[a] < idx[b])
    && (forall i :: i in idx ==> i < |s|)
    && (forall i :: 0 <= i < |s| ==> (i in idx <==> f(s[i])))
  }

  /** `t` is what `h` makes of `s` at the positions `idx`, one by one. */
  ghost predicate Picked<T, U>(s: seq<T>, idx: seq<nat>, h: T -> U, t: seq<U>) {
    |t| == |idx| && forall a :: 0 <= a < |idx| ==> idx[a] < |s| && t[a] == h(s[idx[a]])
  }

  function Shifted(idx: seq<nat>): (r: seq<nat>)
    ensures |r| == |idx| && forall a :: 0 <= a < |idx| ==> r[a] == idx[a] + 1
  {
    seq(|idx|, a requires 0 <= a < |idx| => idx[a] + 1)
  }

  lemma ShiftedMember(idx: seq<nat>, i: nat)
    requires i > 0
    ensures i in Shifted(idx) <==> i - 1 in idx
  {
    if i - 1 in idx {
      var a :| 0 <= a < |idx| && idx[a] == i - 1;
      assert Shifted(idx)[a] == i;
    }
  }

  lemma PositionsCons<T>(s: seq<T>, f: T -> bool, idx: seq<nat>)
    requires s != [] && Positions(s[1..], f, idx)
    ensures Positions(s, f, (if f(s[0]) then [0] else []) + Shifted(idx))
  {
    var now := (if f(s[0]) then [0] else []) + Shifted(idx);
    forall i | 0 <= i < |s| ensures i in now <==> f(s[i]) {
      if i > 0 {
        assert s[i] == s[1..][i - 1];
        ShiftedMember(idx, i);
      }
    }
    forall i | i in now ensures i < |s| {
      if i > 0 {
        ShiftedMember(idx, i);
      }
    }
  }

  lemma PairFilterCons<T>(x: T, ys: seq<T>, c: (T, T) -> bool, m: (T, T) -> T, f: T -> bool)
    requires ys != []
    ensures FilterSeq(PairOne(x, ys, c, m), f)
         == (if c(x, ys[0]) && f(m(x, ys[0])) then [m(x, ys[0])] else []) + FilterSeq(PairOne(x, ys[1..], c, m), f)
  {
    FilterCons(m(x, ys[0]), PairOne(x, ys[1..], c, m), f);
  }

  /** What pairing one row and filtering the pairs picks. */
  lemma {:induction false} PairPositions<T>(x: T, ys: seq<T>, c: (T, T) -> bool, m: (T, T) -> T, f: T -> bool)
    returns (idx: seq<nat>)
    ensures Positions(ys, (y: T) => c(x, y) && f(m(x, y)), idx)
    ensures Picked(ys, idx, (y: T) => m(x, y), FilterSeq(PairOne(x, ys, c, m), f))
  {
    var test := (y: T) => c(x, y) && f(m(x, y));
    if ys == [] {
      idx := [];
    } else {
      var rest := PairPositions(x, ys[1..], c, m, f);
      assert Positions(ys[1..], test, rest);
      PositionsCons(ys, test, rest);
      PairFilterCons(x, ys, c, m, f);
      idx := (if test(ys[0]) then [0] else []) + Shifted(rest);
    }
  }

  // ---------------------------------------------------------------- pairing

  lemma {:induction false} PairOneMember<T>(x: T, ys: seq<T>, compat: (T, T) -> bool, merge: (T, T) -> T, r: T)
    requires r in PairOne(x, ys, compat, merge)
    ensures exists y :: y in ys && compat(x, y) && r == merge(x, y)
  {
    if compat(x, ys[0]) && r == merge(x, ys[0]) {
      assert ys[0] in ys;
    } else {
      PairOneMember(x, ys[1..], compat, merge, r);
      var y :| y in ys[1..] && compat(x, y) && r == merge(x, y);
      assert y in ys;
    }
  }

  lemma {:induction false} PairMember<T>(xs: seq<T>, ys: seq<T>, compat: (T, T) -> bool, merge: (T, T) -> T, r: T)
    returns (x: T, y: T)
    requires r in PairAll(xs, ys, compat, merge)
    ensures x in xs && y in ys && compat(x, y) && r == merge(x, y)
  {
    if r in PairOne(xs[0], ys, compat, merge) {
      PairOneMember(xs[0], ys, compat, merge, r);
      x := xs[0];
      y :| y in ys && compat(x, y) && r == merge(x, y);
    } else {
      x, y := PairMember(xs[1..], ys, compat, merge, r);
      assert x in xs;
    }
  }

  /** Two pairings agree when their tests and merges agree on the rows at hand. */
  lemma {:induction false} InPairOne<T>(x: T, ys: seq<T>, c: (T, T) -> bool, m: (T, T) -> T, y: T)
    requires y in ys && c(x, y)
    ensures m(x, y) in PairOne(x, ys, c, m)
  {
    if y != ys[0] {
      InPairOne(x, ys[1..], c, m, y);
    }
  }

  lemma {:induction false} InPairs<T>(xs: seq<T>, ys: seq<T>, c: (T, T) -> bool, m: (T, T) -> T, x: T, y: T)
    requires x in xs && y in ys && c(x, y)
    ensures m(x, y) in PairAll(xs, ys, c, m)
  {
    if x == xs[0] {
      InPairOne(x, ys, c, m, y);
    } else {
      InPairs(xs[1..], ys, c, m, x, y);
    }
  }

  lemma {:induction false} PairOneCongruence<T>(x: T, ys: seq<T>, c1: (T, T) -> bool, m1: (T, T) -> T,
                                                 c2: (T, T) -> bool, m2: (T, T) -> T)
    requires forall y :: y in ys ==> c1(x, y) == c2(x, y) && (c1(x, y) ==> m1(x, y) == m2(x, y))
    ensures PairOne(x, ys, c1, m1) == PairOne(x, ys, c2, m2)
  {
    if ys != [] {
      assert ys[0] in ys;
      assert forall y :: y in ys[1..] ==> y in ys;
      PairOneCongruence(x, ys[1..], c1, m1, c2, m2);
    }
  }

  lemma {:induction false} PairCongruence<T>(xs: seq<T>, ys: seq<T>, c1: (T, T) -> bool, m1: (T, T) -> T,
                                              c2: (T, T) -> bool, m2: (T, T) -> T)
    requires forall x, y :: x in xs && y in ys ==> c1(x, y) == c2(x, y) && (c1(x, y) ==> m1(x, y) == m2(x, y))
    ensures PairAll(xs, ys, c1, m1) == PairAll(xs, ys, c2, m2)
  {
    if xs != [] {
      assert xs[0] in xs;
      assert forall x :: x in xs[1..] ==> x in xs;
      PairOneCongruence(xs[0], ys, c1, m1, c2, m2);
      PairCongruence(xs[1..], ys, c1, m1, c2, m2);
    }
  }

  lemma {:induction false} FilterPairOneLeft<T>(x: T, ys: seq<T>, c: (T, T) -> bool, m: (T, T) -> T,
                                                 f: T -> bool, fx: bool)
    requires forall y :: y in ys && c(x, y) ==> f(m(x, y)) == fx
    ensures FilterSeq(PairOne(x, ys, c, m), f) == if fx then PairOne(x, ys, c, m) else []
  {
    if ys != [] {
      assert ys[0] in ys;
      assert forall y :: y in ys[1..] ==> y in ys;
      FilterPairOneLeft(x, ys[1..], c, m, f, fx);
      if c(x, ys[0]) {
        FilterCons(m(x, ys[0]), PairOne(x, ys[1..], c, m), f);
      }
    }
  }

  /** A filter that only looks at the left row can run before the pairing. */
  lemma {:induction false} FilterPairLeft<T>(xs: seq<T>, ys: seq<T>, c: (T, T) -> bool, m: (T, T) -> T,
                                              f: T -> bool, g: T -> bool)
    requires forall x, y :: x in xs && y in ys && c(x, y) ==> f(m(x, y)) == g(x)
    ensures FilterSeq(PairAll(xs, ys, c, m), f) == PairAll(FilterSeq(xs, g), ys, c, m)
  {
    if xs != [] {
      assert xs[0] in xs;
      assert forall x :: x in xs[1..] ==> x in xs;
      FilterPairLeft(xs[1..], ys, c, m, f, g);
      FilterPairOneLeft(xs[0], ys, c, m, f, g(xs[0]));
      FilterAppend(PairOne(xs[0], ys, c, m), PairAll(xs[1..], ys, c, m), f);
      PairCons(xs[0], FilterSeq(xs[1..], g), ys, c, m);
    }
  }

  lemma {:induction false} FilterPairOneRight<T>(x: T, ys: seq<T>, c: (T, T) -> bool, m: (T, T) -> T,
                                                  f: T -> bool, g: T -> bool)
    requires forall y :: y in ys && c(x, y) ==> f(m(x, y)) == g(y)
    ensures FilterSeq(PairOne(x, ys, c, m), f) == PairOne(x, FilterSeq(ys, g), c, m)
  {
    if ys != [] {
      assert ys[0] in ys;
      assert forall y :: y in ys[1..] ==> y in ys;
      FilterPairOneRight(x, ys[1..], c, m, f, g);
      if c(x, ys[0]) {
        FilterCons(m(x, ys[0]), PairOne(x, ys[1..], c, m), f);
      }
      PairOneCons(x, ys[0], FilterSeq(ys[1..], g), c, m);
    }
  }

  /** A filter that only looks at the right row can run before the pairing. */
  lemma {:induction false} FilterPairRight<T>(xs: seq<T>, ys: seq<T>, c: (T, T) -> bool, m: (T, T) -> T,
                                               f: T -> bool, g: T -> bool)
    requires forall x, y :: x in xs && y in ys && c(x, y) ==> f(m(x, y)) == g(y)
    ensures FilterSeq(PairAll(xs, ys, c, m), f) == PairAll(xs, FilterSeq(ys, g), c, m)
  {
    if xs != [] {
      assert xs[0] in xs;
      assert forall x :: x in xs[1..] ==> x in xs;
      FilterPairRight(xs[1..], ys, c, m, f, g);
      FilterPairOneRight(xs[0], ys, c, m, f, g);
      FilterAppend(PairOne(xs[0], ys, c, m), PairAll(xs[1..], ys, c, m), f);
    }
  }

  lemma {:induction false} PairOneAppend<T>(x: T, ys: seq<T>, zs: seq<T>, c: (T, T) -> bool, m: (T, T) -> T)
    ensures PairOne(x, ys + zs, c, m) == PairOne(x, ys, c, m) + PairOne(x, zs, c, m)
  {
    if ys == [] {
      assert ys + zs == zs;
    } else {
      assert (ys + zs)[1..] == ys[1..] + zs;
      PairOneAppend(x, ys[1..], zs, c, m);
    }
  }

  lemma {:induction false} PairAppendLeft<T>(xs: seq<T>, ws: seq<T>, ys: seq<T>, c: (T, T) -> bool, m: (T, T) -> T)
    ensures PairAll(xs + ws, ys, c, m) == PairAll(xs, ys, c, m) + PairAll(ws, ys, c, m)
  {
    if xs == [] {
      assert xs + ws == ws;
    } else {
      assert (xs + ws)[1..] == xs[1..] + ws;
      PairAppendLeft(xs[1..], ws, ys, c, m);
    }
  }

  /** `(x merge y) paired with zs` against `x paired with (y paired with zs)`. */
  lemma {:induction false} PairAssocInner<T>(x: T, y: T, zs: seq<T>, c: (T, T) -> bool, m: (T, T) -> T)
    requires c(x, y)
    requires forall z :: z in zs ==> (c(m(x, y), z) <==> c(y, z) && c(x, m(y, z)))
    requires forall z :: z in zs && c(y, z) ==> m(m(x, y), z) == m(x, m(y, z))
    ensures PairOne(m(x, y), zs, c, m) == PairOne(x, PairOne(y, zs, c, m), c, m)
  {
    if zs != [] {
      assert zs[0] in zs;
      assert forall z :: z in zs[1..] ==> z in zs;
      PairAssocInner(x, y, zs[1..], c, m);
      if c(y, zs[0]) {
        PairOneCons(x, m(y, zs[0]), PairOne(y, zs[1..], c, m), c, m);
      }
    }
  }

  lemma {:induction false} PairNoneInner<T>(x: T, y: T, zs: seq<T>, c: (T, T) -> bool, m: (T, T) -> T)
    requires forall z :: z in zs && c(y, z) ==> !c(x, m(y, z))
    ensures PairOne(x, PairOne(y, zs, c, m), c, m) == []
  {
    if zs != [] {
      assert zs[0] in zs;
      assert forall z :: z in zs[1..] ==> z in zs;
      PairNoneInner(x, y, zs[1..], c, m);
      if c(y, zs[0]) {
        PairOneCons(x, m(y, zs[0]), PairOne(y, zs[1..], c, m), c, m);
      }
    }
  }

  /** The algebra an associative pairing needs. */
  ghost predicate Associative<T(!new)>(c: (T, T) -> bool, m: (T, T) -> T) {
    && (forall x, y, z :: c(x, y) ==> (c(m(x, y), z) <==> c(y, z) && c(x, m(y, z))))
    && (forall x, y, z :: !c(x, y) && c(y, z) ==> !c(x, m(y, z)))
    && (forall x, y, z :: c(x, y) && c(y, z) ==> m(m(x, y), z) == m(x, m(y, z)))
  }

  lemma {:induction false} PairAssocOne<T(!new)>(x: T, ys: seq<T>, zs: seq<T>, c: (T, T) -> bool, m: (T, T) -> T)
    requires Associative(c, m)
    ensures PairAll(PairOne(x, ys, c, m), zs, c, m) == PairOne(x, PairAll(ys, zs, c, m), c, m)
  {
    if ys != [] {
      PairAssocOne(x, ys[1..], zs, c, m);
      PairOneAppend(x, PairOne(ys[0], zs, c, m), PairAll(ys[1..], zs, c, m), c, m);
      if c(x, ys[0]) {
        PairCons(m(x, ys[0]), PairOne(x, ys[1..], c, m), zs, c, m);
        PairAssocInner(x, ys[0], zs, c, m);
      } else {
        PairNoneInner(x, ys[0], zs, c, m);
      }
    }
  }

  /** An associative pairing may be regrouped without changing a row or the row order. */
  lemma {:induction false} PairAssoc<T(!new)>(xs: seq<T>, ys: seq<T>, zs: seq<T>, c: (T, T) -> bool, m: (T, T) -> T)
    requires Associative(c, m)
    ensures PairAll(PairAll(xs, ys, c, m), zs, c, m) == PairAll(xs, PairAll(ys, zs, c, m), c, m)
  {
    if xs != [] {
      PairAssoc(xs[1..], ys, zs, c, m);
      PairAssocOne(xs[0], ys, zs, c, m);
      PairAppendLeft(PairOne(xs[0], ys, c, m), PairAll(xs[1..], ys, c, m), zs, c, m);
    }
  }

  // ---------------------------------------------------------------- mapping

  lemma {:induction false} MapMember<T, U>(s: seq<T>, f: T -> U, y: U)
    requires y in MapSeq(s, f)
    ensures exists x :: x in s && y == f(x)
  {
    if y == f(s[0]) {
      assert s[0] in s;
    } else {
      MapMember(s[1..], f, y);
      var x :| x in s[1..] && y == f(x);
      assert x in s;
    }
  }

  lemma {:induction false} MapAppend<T, U>(s: seq<T>, t: seq<T>, f: T -> U)
    ensures MapSeq(s + t, f) == MapSeq(s, f) + MapSeq(t, f)
  {
    if s == [] {
      assert s + t == t;
    } else {
      assert (s + t)[1..] == s[1..] + t;
      MapAppend(s[1..], t, f);
    }
  }

  /** Filtering after a map is filtering before it. */
  lemma {:induction false} FilterMap<T, U>(s: seq<T>, h: T -> U, f: U -> bool, g: T -> bool)
    requires forall x :: x in s ==> f(h(x)) == g(x)
    ensures FilterSeq(MapSeq(s, h), f) == MapSeq(FilterSeq(s, g), h)
  {
    if s != [] {
      assert s[0] in s;
      assert forall x :: x in s[1..] ==> x in s;
      FilterMap(s[1..], h, f, g);
      FilterCons(h(s[0]), MapSeq(s[1..], h), f);
      MapCons(s[0], FilterSeq(s[1..], g), h);
    }
  }

  lemma {:induction false} MapMap<T, U, W>(s: seq<T>, f: T -> U, g: U -> W, h: T -> W)
    requires forall x :: x in s ==> g(f(x)) == h(x)
    ensures MapSeq(MapSeq(s, f), g) == MapSeq(s, h)
  {
    if s != [] {
      assert s[0] in s;
      assert forall x :: x in s[1..] ==> x in s;
      MapMap(s[1..], f, g, h);
      assert MapSeq(s, f)[1..] == MapSeq(s[1..], f);
    }
  }

  lemma {:induction false} MapPairOne<T>(x: T, ys: seq<T>, c: (T, T) -> bool, m: (T, T) -> T,
                                          h: T -> T, c2: (T, T) -> bool, m2: (T, T) -> T)
    requires forall y :: y in ys ==> c(x, y) == c2(h(x), h(y))
    requires forall y :: y in ys && c(x, y) ==> h(m(x, y)) == m2(h(x), h(y))
    ensures MapSeq(PairOne(x, ys, c, m), h) == PairOne(h(x), MapSeq(ys, h), c2, m2)
  {
    if ys != [] {
      assert ys[0] in ys;
      assert forall y :: y in ys[1..] ==> y in ys;
      MapPairOne(x, ys[1..], c, m, h, c2, m2);
      assert MapSeq(ys, h)[1..] == MapSeq(ys[1..], h);
      MapCons(m(x, ys[0]), PairOne(x, ys[1..], c, m), h);
    }
  }

  /** A map that the pairing respects can be applied to the operands. */
  lemma {:induction false} MapPair<T>(xs: seq<T>, ys: seq<T>, c: (T, T) -> bool, m: (T, T) -> T,
                                       h: T -> T, c2: (T, T) -> bool, m2: (T, T) -> T)
    requires forall x, y :: x in xs && y in ys ==> c(x, y) == c2(h(x), h(y))
    requires forall x, y :: x in xs && y in ys && c(x, y) ==> h(m(x, y)) == m2(h(x), h(y))
    ensures MapSeq(PairAll(xs, ys, c, m), h) == PairAll(MapSeq(xs, h), MapSeq(ys, h), c2, m2)
  {
    if xs != [] {
      assert xs[0] in xs;
      assert forall x :: x in xs[1..] ==> x in xs;
      MapPair(xs[1..], ys, c, m, h, c2, m2);
      MapPairOne(xs[0], ys, c, m, h, c2, m2);
      MapAppend(PairOne(xs[0], ys, c, m), PairAll(xs[1..], ys, c, m), h);
      assert MapSeq(xs, h)[1..] == MapSeq(xs[1..], h);
    }
  }
}
