/** Filter hoisting inside one pattern: the rewrite and its structural guarantees. */
module Hoist {
  import opened Values
  import opened Syntax

  // ---------------------------------------------------------------- the rewrite

  /** Split `es` by whether `vars` covers what each filter references, keeping the order. */
  function Hostable(es: seq<Expr>, vars: set<string>): seq<Expr> {
    if es == [] then []
    else if Referenced(es[0]) <= vars then [es[0]] + Hostable(es[1..], vars)
    else Hostable(es[1..], vars)
  }

  function Unhostable(es: seq<Expr>, vars: set<string>): seq<Expr> {
    if es == [] then []
    else if Referenced(es[0]) <= vars then Unhostable(es[1..], vars)
    else [es[0]] + Unhostable(es[1..], vars)
  }

  function Place(node: PathPattern, pending: seq<Expr>): (PathPattern, seq<Expr>) {
    if pending == [] then (node, pending)
    else (FoldFilters(node, Hostable(pending, Declared(node))), Unhostable(pending, Declared(node)))
  }

  /** The rewritten pattern and the filters no subpattern of it can host. */
  function HoistPattern(p: PathPattern): (PathPattern, seq<Expr>)
    decreases p, 0
  {
    match p
    case Filter(i, e) =>
      var (i', pend) := HoistPattern(i);
      Place(i', pend + [e])
    case Join(a, b) =>
      var (a', pa) := HoistPattern(a);
      var (b', pb) := HoistPattern(b);
      Place(Join(a', b'), pa + pb)
    case Concat(a, b) =>
      var (a', pa) := HoistPattern(a);
      var (b', pb) := HoistPattern(b);
      Place(Concat(a', b'), pa + pb)
    case Named(x, i) =>
      var (i', pend) := HoistPattern(i);
      Place(Named(x, i'), pend)
    case Union(a, b) => (Union(Sealed(a), Sealed(b)), [])
    case Repeat(i, lb, ub) => (Repeat(Sealed(i), lb, ub), [])
    case Questioned(i) => (Questioned(Sealed(i)), [])
    case Selected(prefix, i) => (Selected(prefix, Sealed(i)), [])
    case Node(_) => (p, [])
    case Edge(_, _) => (p, [])
  }

  /** Hoist inside a subtree no filter may leave. */
  function Sealed(p: PathPattern): PathPattern
    decreases p, 1
  {
    var (inner, pending) := HoistPattern(p);
    FoldFilters(inner, pending)
  }

  // ---------------------------------------------------------------- the standard's reading

  /** The pattern without the filters of its own scope; opaque operands are read the same way at
      their own root. */
  function Bare(p: PathPattern): PathPattern
    decreases p, 0
  {
    match p
    case Filter(i, _) => Bare(i)
    case Join(a, b) => Join(Bare(a), Bare(b))
    case Concat(a, b) => Concat(Bare(a), Bare(b))
    case Named(x, i) => Named(x, Bare(i))
    case Union(a, b) => Union(Deferred(a), Deferred(b))
    case Repeat(i, lb, ub) => Repeat(Deferred(i), lb, ub)
    case Questioned(i) => Questioned(Deferred(i))
    case Selected(prefix, i) => Selected(prefix, Deferred(i))
    case Node(_) => p
    case Edge(_, _) => p
  }

  /** The filters written in the pattern's own scope, innermost and leftmost first. */
  function Collected(p: PathPattern): seq<Expr> {
    match p
    case Filter(i, e) => Collected(i) + [e]
    case Join(a, b) => Collected(a) + Collected(b)
    case Concat(a, b) => Collected(a) + Collected(b)
    case Named(_, i) => Collected(i)
    case _ => []
  }

  /** ISO/IEC 39075:2024 section 16.4: every filter of the scope is evaluated over the combined
      binding of the whole scope. */
  function Deferred(p: PathPattern): PathPattern
    decreases p, 1
  {
    FoldFilters(Bare(p), Collected(p))
  }

  // ---------------------------------------------------------------- independent views of a pattern

  /** The pattern with every filter removed, at every depth. */
  function Skeleton(p: PathPattern): PathPattern {
    match p
    case Filter(i, _) => Skeleton(i)
    case Join(a, b) => Join(Skeleton(a), Skeleton(b))
    case Concat(a, b) => Concat(Skeleton(a), Skeleton(b))
    case Union(a, b) => Union(Skeleton(a), Skeleton(b))
    case Named(x, i) => Named(x, Skeleton(i))
    case Repeat(i, lb, ub) => Repeat(Skeleton(i), lb, ub)
    case Questioned(i) => Questioned(Skeleton(i))
    case Selected(prefix, i) => Selected(prefix, Skeleton(i))
    case Node(_) => p
    case Edge(_, _) => p
  }

  /** Every filter of the pattern, at every depth. */
  function AllFilters(p: PathPattern): seq<Expr> {
    match p
    case Filter(i, e) => AllFilters(i) + [e]
    case Join(a, b) => AllFilters(a) + AllFilters(b)
    case Concat(a, b) => AllFilters(a) + AllFilters(b)
    case Union(a, b) => AllFilters(a) + AllFilters(b)
    case Named(_, i) => AllFilters(i)
    case Repeat(i, _, _) => AllFilters(i)
    case Questioned(i) => AllFilters(i)
    case Selected(_, i) => AllFilters(i)
    case Node(_) => []
    case Edge(_, _) => []
  }

  /** The multiset of filters of each scope of the pattern: its own first, then those of its opaque
      operands from left to right. */
  function Scopes(p: PathPattern): seq<multiset<Expr>>
    decreases p, 1
  {
    [multiset(Collected(p))] + InnerScopes(p)
  }

  function InnerScopes(p: PathPattern): seq<multiset<Expr>>
    decreases p, 0
  {
    match p
    case Filter(i, _) => InnerScopes(i)
    case Join(a, b) => InnerScopes(a) + InnerScopes(b)
    case Concat(a, b) => InnerScopes(a) + InnerScopes(b)
    case Named(_, i) => InnerScopes(i)
    case Union(a, b) => Scopes(a) + Scopes(b)
    case Repeat(i, _, _) => Scopes(i)
    case Questioned(i) => Scopes(i)
    case Selected(_, i) => Scopes(i)
    case Node(_) => []
    case Edge(_, _) => []
  }

  /** Every filter of the scope sits on a pattern that binds all it references. */
  predicate Hosted(p: PathPattern) {
    match p
    case Filter(i, e) => Hosted(i) && Referenced(e) <= Declared(i)
    case Join(a, b) => Hosted(a) && Hosted(b)
    case Concat(a, b) => Hosted(a) && Hosted(b)
    case Named(_, i) => Hosted(i)
    case _ => true
  }

  // ---------------------------------------------------------------- splitting and folding

  lemma {:induction false} SplitSound(es: seq<Expr>, vars: set<string>)
    ensures multiset(Hostable(es, vars)) + multiset(Unhostable(es, vars)) == multiset(es)
    ensures forall e :: e in Hostable(es, vars) ==> e in es && Referenced(e) <= vars
    ensures forall e :: e in Unhostable(es, vars) ==> e in es && !(Referenced(e) <= vars)
  {
    if es != [] {
      SplitSound(es[1..], vars);
      assert es == [es[0]] + es[1..];
    }
  }

  lemma {:induction false} SplitNone(es: seq<Expr>, vars: set<string>)
    requires forall e :: e in es ==> !(Referenced(e) <= vars)
    ensures Hostable(es, vars) == [] && Unhostable(es, vars) == es
  {
    if es != [] {
      assert es[0] in es;
      assert forall e :: e in es[1..] ==> e in es;
      SplitNone(es[1..], vars);
      assert es == [es[0]] + es[1..];
    }
  }

  lemma {:induction false} FoldShape(p: PathPattern, es: seq<Expr>)
    ensures FreeVars(FoldFilters(p, es)) == FreeVars(p) && PathVars(FoldFilters(p, es)) == PathVars(p)
    ensures Sure(FoldFilters(p, es)) == Sure(p)
    ensures Skeleton(FoldFilters(p, es)) == Skeleton(p)
    ensures HasSelected(FoldFilters(p, es)) == HasSelected(p)
    ensures AllFilters(FoldFilters(p, es)) == AllFilters(p) + es
    ensures Collected(FoldFilters(p, es)) == Collected(p) + es
    ensures InnerScopes(FoldFilters(p, es)) == InnerScopes(p)
    ensures Bare(FoldFilters(p, es)) == Bare(p)
    decreases |es|
  {
    if es != [] {
      FoldShape(Filter(p, es[0]), es[1..]);
      assert es == [es[0]] + es[1..];
      assert AllFilters(p) + [es[0]] + es[1..] == AllFilters(p) + es;
      assert Collected(p) + [es[0]] + es[1..] == Collected(p) + es;
    }
  }

  lemma {:induction false} FoldHosted(p: PathPattern, es: seq<Expr>)
    requires Hosted(p) && forall e :: e in es ==> Referenced(e) <= Declared(p)
    ensures Hosted(FoldFilters(p, es))
    decreases |es|
  {
    if es != [] {
      assert es[0] in es;
      FoldHosted(Filter(p, es[0]), es[1..]);
    }
  }

  // ---------------------------------------------------------------- what hoisting keeps

  /** Same filter-free skeleton, same bound variables, same opaque scopes. */
  ghost predicate SameShape(q: PathPattern, p: PathPattern) {
    && FreeVars(q) == FreeVars(p)
    && PathVars(q) == PathVars(p)
    && Sure(q) == Sure(p)
    && Skeleton(q) == Skeleton(p)
    && HasSelected(q) == HasSelected(p)
    && InnerScopes(q) == InnerScopes(p)
  }

  /** The filters of `q` and the ones in `rest` are together exactly the filters of `p`. */
  ghost predicate SameFilters(q: PathPattern, rest: seq<Expr>, p: PathPattern) {
    && multiset(Collected(q)) + multiset(rest) == multiset(Collected(p))
    && multiset(AllFilters(q)) + multiset(rest) == multiset(AllFilters(p))
  }

  lemma PlaceKeepsShape(node: PathPattern, pending: seq<Expr>, p: PathPattern)
    requires SameShape(node, p)
    ensures SameShape(Place(node, pending).0, p)
  {
    FoldShape(node, Hostable(pending, Declared(node)));
  }

  /** Hoisting moves filters and nothing else. */
  lemma {:induction false} HoistKeepsShape(p: PathPattern)
    ensures SameShape(HoistPattern(p).0, p)
    decreases p, 0
  {
    match p
    case Filter(i, e) =>
      HoistKeepsShape(i);
      PlaceKeepsShape(HoistPattern(i).0, HoistPattern(i).1 + [e], p);
    case Join(a, b) =>
      HoistKeepsShape(a);
      HoistKeepsShape(b);
      PlaceKeepsShape(Join(HoistPattern(a).0, HoistPattern(b).0), HoistPattern(a).1 + HoistPattern(b).1, p);
    case Concat(a, b) =>
      HoistKeepsShape(a);
      HoistKeepsShape(b);
      PlaceKeepsShape(Concat(HoistPattern(a).0, HoistPattern(b).0), HoistPattern(a).1 + HoistPattern(b).1, p);
    case Named(x, i) =>
      HoistKeepsShape(i);
      PlaceKeepsShape(Named(x, HoistPattern(i).0), HoistPattern(i).1, p);
    case Union(a, b) =>
      SealedKeepsShape(a);
      SealedKeepsShape(b);
    case Repeat(i, lb, ub) => SealedKeepsShape(i);
    case Questioned(i) => SealedKeepsShape(i);
    case Selected(prefix, i) => SealedKeepsShape(i);
    case Node(_) =>
    case Edge(_, _) =>
  }

  /** Sealing also keeps the filters of every scope, the outermost included. */
  lemma {:induction false} SealedKeepsShape(p: PathPattern)
    ensures SameShape(Sealed(p), p) && Scopes(Sealed(p)) == Scopes(p)
    decreases p, 1
  {
    HoistKeepsShape(p);
    FoldShape(HoistPattern(p).0, HoistPattern(p).1);
    SealedKeepsFilters(p);
    assert multiset(Collected(Sealed(p))) + multiset([]) == multiset(Collected(Sealed(p)));
  }

  lemma {:induction false} PlaceHosts(node: PathPattern, pending: seq<Expr>)
    requires Hosted(node)
    ensures Hosted(Place(node, pending).0)
  {
    SplitSound(pending, Declared(node));
    FoldHosted(node, Hostable(pending, Declared(node)));
  }

  /** Each filter the pass places sits on a pattern that binds all it references. */
  lemma {:induction false} HoistHosts(p: PathPattern)
    ensures Hosted(HoistPattern(p).0)
    decreases p
  {
    match p
    case Filter(i, e) =>
      HoistHosts(i);
      PlaceHosts(HoistPattern(i).0, HoistPattern(i).1 + [e]);
    case Join(a, b) =>
      HoistHosts(a);
      HoistHosts(b);
      PlaceHosts(Join(HoistPattern(a).0, HoistPattern(b).0), HoistPattern(a).1 + HoistPattern(b).1);
    case Concat(a, b) =>
      HoistHosts(a);
      HoistHosts(b);
      PlaceHosts(Concat(HoistPattern(a).0, HoistPattern(b).0), HoistPattern(a).1 + HoistPattern(b).1);
    case Named(x, i) =>
      HoistHosts(i);
      PlaceHosts(Named(x, HoistPattern(i).0), HoistPattern(i).1);
    case _ =>
  }

  /** Occurrences of `e`. */
  function Count(es: seq<Expr>, e: Expr): nat {
    multiset(es)[e]
  }

  lemma CountAppend(xs: seq<Expr>, ys: seq<Expr>, e: Expr)
    ensures Count(xs + ys, e) == Count(xs, e) + Count(ys, e)
  {
  }

  lemma CountSplit(es: seq<Expr>, vars: set<string>, e: Expr)
    ensures Count(Hostable(es, vars), e) + Count(Unhostable(es, vars), e) == Count(es, e)
  {
    SplitSound(es, vars);
    assert (multiset(Hostable(es, vars)) + multiset(Unhostable(es, vars)))[e] == multiset(es)[e];
  }

  /** Placing moves occurrences between the node and the leftover, never creating or losing one. */
  lemma PlaceCounts(node: PathPattern, pending: seq<Expr>, e: Expr)
    ensures var (n, rest) := Place(node, pending);
      && Count(Collected(n), e) + Count(rest, e) == Count(Collected(node), e) + Count(pending, e)
      && Count(AllFilters(n), e) + Count(rest, e) == Count(AllFilters(node), e) + Count(pending, e)
  {
    var here := Hostable(pending, Declared(node));
    FoldShape(node, here);
    CountSplit(pending, Declared(node), e);
    CountAppend(Collected(node), here, e);
    CountAppend(AllFilters(node), here, e);
  }

  /** `q` together with `rest` holds each filter as often as `p` does. */
  ghost predicate Accounts(q: PathPattern, rest: seq<Expr>, p: PathPattern, e: Expr) {
    && Count(Collected(q), e) + Count(rest, e) == Count(Collected(p), e)
    && Count(AllFilters(q), e) + Count(rest, e) == Count(AllFilters(p), e)
  }

  lemma PlaceAccounts(node: PathPattern, pending: seq<Expr>, p: PathPattern, e: Expr)
    requires Accounts(node, pending, p, e)
    ensures Accounts(Place(node, pending).0, Place(node, pending).1, p, e)
  {
    PlaceCounts(node, pending, e);
  }

  lemma FilterAccounts(q: PathPattern, rest: seq<Expr>, i: PathPattern, f: Expr, e: Expr)
    requires Accounts(q, rest, i, e)
    ensures Accounts(q, rest + [f], Filter(i, f), e)
  {
    CountAppend(rest, [f], e);
    CountAppend(Collected(i), [f], e);
    CountAppend(AllFilters(i), [f], e);
  }

  /** Counts of two sequences put together. */
  lemma CountsAdd(x: seq<Expr>, y: seq<Expr>, x': seq<Expr>, y': seq<Expr>, r: seq<Expr>, t: seq<Expr>, e: Expr)
    requires Count(x, e) + Count(r, e) == Count(x', e) && Count(y, e) + Count(t, e) == Count(y', e)
    ensures Count(x + y, e) + Count(r + t, e) == Count(x' + y', e)
  {
    CountAppend(x, y, e);
    CountAppend(x', y', e);
    CountAppend(r, t, e);
  }

  /** A pair of operands. */
  predicate Paired(p: PathPattern, a: PathPattern, b: PathPattern) {
    p == Join(a, b) || p == Concat(a, b)
  }

  lemma PairedFilters(p: PathPattern, a: PathPattern, b: PathPattern)
    requires Paired(p, a, b)
    ensures Collected(p) == Collected(a) + Collected(b) && AllFilters(p) == AllFilters(a) + AllFilters(b)
  {
    if p.Join? {
      assert Collected(Join(a, b)) == Collected(a) + Collected(b);
    } else {
      assert Collected(Concat(a, b)) == Collected(a) + Collected(b);
    }
  }

  lemma BothAccount(q: PathPattern, r: seq<Expr>, a: PathPattern, s: PathPattern, t: seq<Expr>, b: PathPattern,
                    node: PathPattern, p: PathPattern, e: Expr)
    requires Accounts(q, r, a, e) && Accounts(s, t, b, e) && Paired(node, q, s) && Paired(p, a, b)
    ensures Accounts(node, r + t, p, e)
  {
    PairedFilters(node, q, s);
    PairedFilters(p, a, b);
    CountsAdd(Collected(q), Collected(s), Collected(a), Collected(b), r, t, e);
    CountsAdd(AllFilters(q), AllFilters(s), AllFilters(a), AllFilters(b), r, t, e);
  }

  lemma UnionAccounts(q: PathPattern, a: PathPattern, s: PathPattern, b: PathPattern, e: Expr)
    requires Accounts(q, [], a, e) && Accounts(s, [], b, e)
    ensures Accounts(PathPattern.Union(q, s), [], PathPattern.Union(a, b), e)
  {
    CountAppend(AllFilters(a), AllFilters(b), e);
    CountAppend(AllFilters(q), AllFilters(s), e);
  }

  lemma {:induction false} HoistCounts(p: PathPattern, e: Expr)
    ensures Accounts(HoistPattern(p).0, HoistPattern(p).1, p, e)
    decreases p, 1
  {
    if p.Join? || p.Concat? {
      HoistPairCounts(p, e);
    } else if p.Filter? || p.Named? {
      HoistWrapCounts(p, e);
    } else {
      HoistOpaqueCounts(p, e);
    }
  }

  lemma {:induction false} HoistPairCounts(p: PathPattern, e: Expr)
    requires p.Join? || p.Concat?
    ensures Accounts(HoistPattern(p).0, HoistPattern(p).1, p, e)
    decreases p, 0
  {
    HoistCounts(p.fst, e);
    HoistCounts(p.snd, e);
    var (q, r) := HoistPattern(p.fst);
    var (s, t) := HoistPattern(p.snd);
    var node := if p.Join? then Join(q, s) else Concat(q, s);
    BothAccount(q, r, p.fst, s, t, p.snd, node, p, e);
    PlaceAccounts(node, r + t, p, e);
  }

  lemma {:induction false} HoistWrapCounts(p: PathPattern, e: Expr)
    requires p.Filter? || p.Named?
    ensures Accounts(HoistPattern(p).0, HoistPattern(p).1, p, e)
    decreases p, 0
  {
    HoistCounts(p.inner, e);
    var (q, rest) := HoistPattern(p.inner);
    if p.Filter? {
      FilterAccounts(q, rest, p.inner, p.expr, e);
      PlaceAccounts(q, rest + [p.expr], p, e);
    } else {
      PlaceAccounts(Named(p.name, q), rest, p, e);
    }
  }

  lemma {:induction false} HoistOpaqueCounts(p: PathPattern, e: Expr)
    requires !p.Join? && !p.Concat? && !p.Filter? && !p.Named?
    ensures Accounts(HoistPattern(p).0, HoistPattern(p).1, p, e)
    decreases p, 0
  {
    match p
    case Union(a, b) =>
      SealedCounts(a, e);
      SealedCounts(b, e);
      UnionAccounts(Sealed(a), a, Sealed(b), b, e);
    case Repeat(i, lb, ub) => SealedCounts(i, e);
    case Questioned(i) => SealedCounts(i, e);
    case Selected(prefix, i) => SealedCounts(i, e);
    case _ =>
  }

  lemma {:induction false} SealedCounts(p: PathPattern, e: Expr)
    ensures Accounts(Sealed(p), [], p, e)
    decreases p, 2
  {
    HoistCounts(p, e);
    var (q, rest) := HoistPattern(p);
    FoldShape(q, rest);
    CountAppend(Collected(q), rest, e);
    CountAppend(AllFilters(q), rest, e);
  }

  /** Sequences with the same occurrences are the same multiset. */
  lemma MultisetFromCounts(xs: seq<Expr>, ys: seq<Expr>, zs: seq<Expr>)
    requires forall e :: Count(xs, e) + Count(ys, e) == Count(zs, e)
    ensures multiset(xs) + multiset(ys) == multiset(zs)
  {
    forall e: Expr ensures (multiset(xs) + multiset(ys))[e] == multiset(zs)[e] {
      assert Count(xs, e) + Count(ys, e) == Count(zs, e);
    }
  }

  /** No filter is lost or duplicated: what the pass placed and what it left pending are together
      exactly the filters that were written. */
  lemma HoistKeepsFilters(p: PathPattern)
    ensures SameFilters(HoistPattern(p).0, HoistPattern(p).1, p)
  {
    var q, rest := HoistPattern(p).0, HoistPattern(p).1;
    forall e: Expr
      ensures Count(Collected(q), e) + Count(rest, e) == Count(Collected(p), e)
      ensures Count(AllFilters(q), e) + Count(rest, e) == Count(AllFilters(p), e)
    {
      HoistCounts(p, e);
    }
    MultisetFromCounts(Collected(q), rest, Collected(p));
    MultisetFromCounts(AllFilters(q), rest, AllFilters(p));
  }

  lemma SealedKeepsFilters(p: PathPattern)
    ensures SameFilters(Sealed(p), [], p)
  {
    var s := Sealed(p);
    forall e: Expr
      ensures Count(Collected(s), e) + Count([], e) == Count(Collected(p), e)
      ensures Count(AllFilters(s), e) + Count([], e) == Count(AllFilters(p), e)
    {
      SealedCounts(p, e);
    }
    MultisetFromCounts(Collected(s), [], Collected(p));
    MultisetFromCounts(AllFilters(s), [], AllFilters(p));
  }

  /** A filter that survives a `Place` at a node of `p`'s shape is not hostable by `p`. */
  lemma PlaceLeaves(node: PathPattern, pending: seq<Expr>, p: PathPattern)
    requires SameShape(node, p)
    requires forall e :: e in pending ==> e in Collected(p)
    ensures forall e :: e in Place(node, pending).1 ==> e in Collected(p) && !(Referenced(e) <= Declared(p))
  {
    SplitSound(pending, Declared(node));
  }

  /** A filter leaves a subpattern only when that subpattern cannot host it, so each filter stops
      at the lowest node above the place it was written. */
  lemma {:induction false} LeavesOnlyWhenUnhosted(p: PathPattern)
    ensures forall e :: e in HoistPattern(p).1 ==> e in Collected(p) && !(Referenced(e) <= Declared(p))
    decreases p
  {
    match p
    case Filter(i, e) =>
      LeavesOnlyWhenUnhosted(i);
      HoistKeepsShape(i);
      PlaceLeaves(HoistPattern(i).0, HoistPattern(i).1 + [e], p);
    case Join(a, b) =>
      LeavesOnlyWhenUnhosted(a);
      LeavesOnlyWhenUnhosted(b);
      HoistKeepsShape(a);
      HoistKeepsShape(b);
      PlaceLeaves(Join(HoistPattern(a).0, HoistPattern(b).0), HoistPattern(a).1 + HoistPattern(b).1, p);
    case Concat(a, b) =>
      LeavesOnlyWhenUnhosted(a);
      LeavesOnlyWhenUnhosted(b);
      HoistKeepsShape(a);
      HoistKeepsShape(b);
      PlaceLeaves(Concat(HoistPattern(a).0, HoistPattern(b).0), HoistPattern(a).1 + HoistPattern(b).1, p);
    case Named(x, i) =>
      LeavesOnlyWhenUnhosted(i);
      HoistKeepsShape(i);
      PlaceLeaves(Named(x, HoistPattern(i).0), HoistPattern(i).1, p);
    case _ =>
  }

  // ---------------------------------------------------------------- idempotence

  lemma PlaceOne(node: PathPattern, e: Expr)
    requires Referenced(e) <= Declared(node)
    ensures Place(node, [e]) == (Filter(node, e), [])
  {
    assert [e] == [e] + [] && [e][1..] == [];
    assert Hostable([e], Declared(node)) == [e] + Hostable([e][1..], Declared(node));
    assert Unhostable([e], Declared(node)) == Unhostable([e][1..], Declared(node));
    assert FoldFilters(node, [e]) == FoldFilters(Filter(node, e), []);
  }

  /** A filter that its own element hosts stays where it was written. */
  lemma FilterStays(node: PathPattern, e: Expr)
    requires HoistPattern(node) == (node, []) && Referenced(e) <= Declared(node)
    ensures HoistPattern(Filter(node, e)) == (Filter(node, e), [])
  {
    assert [] + [e] == [e];
    PlaceOne(node, e);
  }

  /** Filters that a settled node hosts stay on it. */
  lemma {:induction false} HoistHosted(node: PathPattern, es: seq<Expr>)
    requires HoistPattern(node) == (node, [])
    requires forall e :: e in es ==> Referenced(e) <= Declared(node)
    ensures HoistPattern(FoldFilters(node, es)) == (FoldFilters(node, es), [])
    decreases |es|
  {
    if es != [] {
      var n := |es| - 1;
      FoldLast(node, es);
      FoldShape(node, es[..n]);
      HoistHosted(node, es[..n]);
      assert es[n] in es;
      FilterStays(FoldFilters(node, es[..n]), es[n]);
    }
  }

  /** Hoisting the filters `es` off a settled node, the first `k` of which it hosts, puts them back in
      the same order. */
  lemma {:induction false} HoistFolded(node: PathPattern, es: seq<Expr>, k: nat)
    requires k <= |es|
    requires HoistPattern(node) == (node, [])
    requires forall i :: 0 <= i < k ==> Referenced(es[i]) <= Declared(node)
    requires forall i :: k <= i < |es| ==> !(Referenced(es[i]) <= Declared(node))
    ensures HoistPattern(FoldFilters(node, es)) == (FoldFilters(node, es[..k]), es[k..])
    decreases |es|
  {
    if k == |es| {
      WholePrefix(es);
      HoistHosted(node, es);
    } else {
      InitPrefix(es, k);
      HoistFolded(node, es[..|es| - 1], k);
      PendingFolded(node, es, k);
    }
  }

  lemma WholePrefix<T>(es: seq<T>)
    ensures es[..|es|] == es && es[|es|..] == []
  {
  }

  lemma InitPrefix<T>(es: seq<T>, k: nat)
    requires k < |es|
    ensures es[..|es| - 1][..k] == es[..k] && es[..|es| - 1][k..] == es[k..|es| - 1]
  {
  }

  lemma TailSnoc<T>(es: seq<T>, k: nat)
    requires k < |es|
    ensures es[k..|es| - 1] + [es[|es| - 1]] == es[k..]
  {
  }

  lemma FoldDeclares(p: PathPattern, es: seq<Expr>)
    ensures Declared(FoldFilters(p, es)) == Declared(p)
  {
    FoldShape(p, es);
  }

  lemma TailOut(es: seq<Expr>, k: nat, vars: set<string>)
    requires k <= |es| && forall i :: k <= i < |es| ==> !(Referenced(es[i]) <= vars)
    ensures forall f :: f in es[k..] ==> !(Referenced(f) <= vars)
  {
    forall f | f in es[k..] ensures !(Referenced(f) <= vars) {
      var i :| 0 <= i < |es[k..]| && es[k..][i] == f;
      assert es[k + i] == f;
    }
  }

  lemma PendingFolded(node: PathPattern, es: seq<Expr>, k: nat)
    requires k < |es|
    requires forall i :: k <= i < |es| ==> !(Referenced(es[i]) <= Declared(node))
    requires HoistPattern(FoldFilters(node, es[..|es| - 1])) == (FoldFilters(node, es[..k]), es[k..|es| - 1])
    ensures HoistPattern(FoldFilters(node, es)) == (FoldFilters(node, es[..k]), es[k..])
  {
    var n := |es| - 1;
    FoldLast(node, es);
    FoldDeclares(node, es[..k]);
    TailSnoc(es, k);
    TailOut(es, k, Declared(node));
    PendingStays(FoldFilters(node, es[..n]), FoldFilters(node, es[..k]), es[k..n], es[n], Declared(node));
  }

  /** A filter joins the pending ones when none of them can be hosted here. */
  lemma PendingStays(p: PathPattern, node: PathPattern, rest: seq<Expr>, e: Expr, vars: set<string>)
    requires HoistPattern(p) == (node, rest) && Declared(node) == vars
    requires forall f :: f in rest + [e] ==> !(Referenced(f) <= vars)
    ensures HoistPattern(Filter(p, e)) == (node, rest + [e])
  {
    SplitNone(rest + [e], vars);
  }

  lemma {:induction false} FoldLast(p: PathPattern, es: seq<Expr>)
    requires es != []
    ensures FoldFilters(p, es) == Filter(FoldFilters(p, es[..|es| - 1]), es[|es| - 1])
    decreases |es|
  {
    if |es| > 1 {
      FoldLast(Filter(p, es[0]), es[1..]);
      assert es[1..][..|es| - 2] == es[..|es| - 1][1..];
    }
  }

  /** A settled node with placed filters on it is settled. */
  lemma PlaceSettles(node: PathPattern, pending: seq<Expr>)
    requires HoistPattern(node) == (node, [])
    ensures HoistPattern(Place(node, pending).0) == (Place(node, pending).0, [])
  {
    var here := Hostable(pending, Declared(node));
    SplitSound(pending, Declared(node));
    HoistFolded(node, here, |here|);
    assert here[..|here|] == here && here[|here|..] == [];
  }

  lemma {:induction false} HoistSettles(p: PathPattern)
    ensures HoistPattern(HoistPattern(p).0) == (HoistPattern(p).0, [])
    decreases p, 0
  {
    match p
    case Filter(i, e) =>
      HoistSettles(i);
      PlaceSettles(HoistPattern(i).0, HoistPattern(i).1 + [e]);
    case Join(a, b) =>
      HoistSettles(a);
      HoistSettles(b);
      PlaceSettles(Join(HoistPattern(a).0, HoistPattern(b).0), HoistPattern(a).1 + HoistPattern(b).1);
    case Concat(a, b) =>
      HoistSettles(a);
      HoistSettles(b);
      PlaceSettles(Concat(HoistPattern(a).0, HoistPattern(b).0), HoistPattern(a).1 + HoistPattern(b).1);
    case Named(x, i) =>
      HoistSettles(i);
      PlaceSettles(Named(x, HoistPattern(i).0), HoistPattern(i).1);
    case Union(a, b) =>
      SealedIdempotent(a);
      SealedIdempotent(b);
    case Repeat(i, lb, ub) => SealedIdempotent(i);
    case Questioned(i) => SealedIdempotent(i);
    case Selected(prefix, i) => SealedIdempotent(i);
    case Node(_) =>
    case Edge(_, _) =>
  }

  /** Hoisting twice inside a sealed subtree changes nothing more. */
  lemma {:induction false} SealedIdempotent(p: PathPattern)
    ensures Sealed(Sealed(p)) == Sealed(p)
    decreases p, 1
  {
    var (node, pending) := HoistPattern(p);
    HoistSettles(p);
    HoistKeepsShape(p);
    LeavesOnlyWhenUnhosted(p);
    assert forall i :: 0 <= i < |pending| ==> pending[i] in pending;
    HoistFolded(node, pending, 0);
    assert pending[..0] == [] && pending[0..] == pending;
  }
}
