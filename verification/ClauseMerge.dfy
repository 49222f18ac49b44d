/** Clause merging: a filter that no clause of its own can host pulls the preceding simple clauses
    into its pattern.  Which clauses are merged, and which filters find no host, is read off the clauses
    as written. */
module ClauseMerge {
  import opened Values
  import opened Syntax
  import opened RowAlgebra
  import opened Hoist
  import opened MatchChain

  // ---------------------------------------------------------------- the rewrite

  predicate CanMerge(out: seq<MatchStatement>, pattern: PathPattern) {
    && out != []
    && out[|out| - 1].SimpleMatch?
    && !HasSelected(out[|out| - 1].pattern)
    && !HasSelected(pattern)
  }

  /** Absorb preceding clauses while a filter is pending and the boundary may be crossed. */
  function MergeUp(out: seq<MatchStatement>, pattern: PathPattern, pending: seq<Expr>)
    : (seq<MatchStatement>, PathPattern, seq<Expr>)
    decreases |out|
  {
    if pending == [] || !CanMerge(out, pattern) then (out, pattern, pending)
    else
      var (node, rest) := Place(Join(out[|out| - 1].pattern, pattern), pending);
      MergeUp(out[..|out| - 1], node, rest)
  }

  function MergeClause(out: seq<MatchStatement>, p: PathPattern): (seq<MatchStatement>, PathPattern, seq<Expr>) {
    var (pattern, pending) := HoistPattern(p);
    MergeUp(out, pattern, pending)
  }

  function HoistStep(out: seq<MatchStatement>, m: MatchStatement): seq<MatchStatement> {
    match m
    case OptionalMatch(p) => out + [OptionalMatch(Sealed(p))]
    case SimpleMatch(p) =>
      var (out', pattern, rest) := MergeClause(out, p);
      out' + [SimpleMatch(FoldFilters(pattern, rest))]
  }

  function HoistAll(ms: seq<MatchStatement>): seq<MatchStatement> {
    if ms == [] then [] else HoistStep(HoistAll(ms[..|ms| - 1]), ms[|ms| - 1])
  }

  /** `hoist_query`: one pass over the clauses, popping `out` as far as a pending filter reaches. */
  method HoistQuery(ms: seq<MatchStatement>) returns (out: seq<MatchStatement>)
    ensures out == HoistAll(ms)
  {
    out := [];
    for i := 0 to |ms|
      invariant out == HoistAll(ms[..i])
    {
      var m := ms[i];
      var (pattern, pending) := HoistPattern(m.pattern);
      ghost var before, start, asked := out, pattern, pending;
      if m.SimpleMatch? {
        while pending != [] && CanMerge(out, pattern)
          invariant MergeUp(out, pattern, pending) == MergeUp(before, start, asked)
          decreases |out|
        {
          var prev := out[|out| - 1].pattern;
          out := out[..|out| - 1];
          var placed := Place(Join(prev, pattern), pending);
          pattern, pending := placed.0, placed.1;
        }
      }
      pattern := FoldFilters(pattern, pending);
      out := out + [if m.OptionalMatch? then OptionalMatch(pattern) else SimpleMatch(pattern)];
      assert ms[..i + 1][..i] == ms[..i];
    }
    assert ms[..|ms|] == ms;
  }

  // ---------------------------------------------------------------- what merging never absorbs

  function Barriers(ms: seq<MatchStatement>): seq<MatchStatement> {
    if ms == [] then []
    else
      var m := ms[|ms| - 1];
      var before := Barriers(ms[..|ms| - 1]);
      if m.OptionalMatch? then before + [OptionalMatch(Skeleton(m.pattern))]
      else if HasSelected(m.pattern) then before + [SimpleMatch(Skeleton(m.pattern))]
      else before
  }

  lemma BarriersSnoc(ms: seq<MatchStatement>, m: MatchStatement)
    ensures Barriers(ms + [m]) ==
      (if m.OptionalMatch? then Barriers(ms) + [OptionalMatch(Skeleton(m.pattern))]
       else if HasSelected(m.pattern) then Barriers(ms) + [SimpleMatch(Skeleton(m.pattern))]
       else Barriers(ms))
  {
    assert (ms + [m])[..|ms|] == ms;
  }

  lemma {:induction false} MergeUpKeepsBarriers(out: seq<MatchStatement>, pattern: PathPattern, pending: seq<Expr>)
    ensures var (out', pattern', rest) := MergeUp(out, pattern, pending);
      Barriers(out' + [SimpleMatch(FoldFilters(pattern', rest))]) == Barriers(out + [SimpleMatch(pattern)])
    decreases |out|
  {
    var (out', pattern', rest) := MergeUp(out, pattern, pending);
    if pending == [] || !CanMerge(out, pattern) {
      FoldShape(pattern, pending);
      BarriersSnoc(out, SimpleMatch(FoldFilters(pattern, pending)));
      BarriersSnoc(out, SimpleMatch(pattern));
    } else {
      var prev := out[|out| - 1].pattern;
      var node := Join(prev, pattern);
      PlaceKeepsShape(node, pending, node);
      MergeUpKeepsBarriers(out[..|out| - 1], Place(node, pending).0, Place(node, pending).1);
      BarriersSnoc(out[..|out| - 1], SimpleMatch(Place(node, pending).0));
      BarriersSnoc(out, SimpleMatch(pattern));
    }
  }

  /** Optional clauses and clauses with a path prefix are never absorbed: they stay separate
      clauses, in their order, over the same filter-free patterns. */
  lemma {:induction false} NeverAbsorbsBarriers(ms: seq<MatchStatement>)
    ensures Barriers(HoistAll(ms)) == Barriers(ms)
  {
    if ms != [] {
      var n := |ms| - 1;
      var p := ms[n].pattern;
      NeverAbsorbsBarriers(ms[..n]);
      var out := HoistAll(ms[..n]);
      SealedKeepsShape(p);
      HoistKeepsShape(p);
      BarriersSnoc(out, OptionalMatch(Sealed(p)));
      BarriersSnoc(out, SimpleMatch(HoistPattern(p).0));
      MergeUpKeepsBarriers(out, HoistPattern(p).0, HoistPattern(p).1);
    }
  }

  // ---------------------------------------------------------------- the clauses as written

  /** A clause that may be absorbed, and may absorb. */
  predicate Absorbable(m: MatchStatement) {
    m.SimpleMatch? && !HasSelected(m.pattern)
  }

  /** Where the run of mergeable clauses at the end of `ms` begins. */
  function RunStart(ms: seq<MatchStatement>): (s: nat)
    ensures s <= |ms|
  {
    if ms == [] || !Absorbable(ms[|ms| - 1]) then |ms| else RunStart(ms[..|ms| - 1])
  }

  /** It is the least index from which on all clauses are mergeable. */
  lemma {:induction false} RunStartLeast(ms: seq<MatchStatement>)
    ensures forall j :: RunStart(ms) <= j < |ms| ==> Absorbable(ms[j])
    ensures RunStart(ms) > 0 ==> !Absorbable(ms[RunStart(ms) - 1])
  {
    if ms != [] && Absorbable(ms[|ms| - 1]) {
      RunStartLeast(ms[..|ms| - 1]);
    }
  }

  /** What a filter of a simple clause `p` after `before` may read: the clause's own variables and,
      unless it has a prefix, those of the run before it. */
  function Reach(before: seq<MatchStatement>, p: PathPattern): set<string> {
    Declared(p) + (if HasSelected(p) then {} else TableDecl(before[RunStart(before)..]))
  }

  function Outside(vars: set<string>): Expr -> bool {
    (e: Expr) => !(Referenced(e) <= vars)
  }

  /** The filters among `es` that read a variable outside `vars`, in order. */
  function Beyond(es: seq<Expr>, vars: set<string>): seq<Expr> {
    FilterSeq(es, Outside(vars))
  }

  lemma {:induction false} UnhostableIsBeyond(es: seq<Expr>, vars: set<string>)
    ensures Unhostable(es, vars) == Beyond(es, vars)
  {
    if es != [] {
      UnhostableIsBeyond(es[1..], vars);
    }
  }

  lemma BeyondTwice(es: seq<Expr>, vars: set<string>, more: set<string>)
    requires vars <= more
    ensures Beyond(Beyond(es, vars), more) == Beyond(es, more)
  {
    FilterFilter(es, Outside(vars), Outside(more), Outside(more));
  }

  lemma BeyondMember(es: seq<Expr>, vars: set<string>, e: Expr)
    ensures e in Beyond(es, vars) <==> e in es && !(Referenced(e) <= vars)
  {
    FilterMember(es, Outside(vars), e);
  }

  lemma BeyondPair(xs: seq<Expr>, ys: seq<Expr>, a: set<string>, b: set<string>, both: set<string>)
    requires a + b <= both
    ensures Beyond(Beyond(xs, a) + Beyond(ys, b), both) == Beyond(xs + ys, both)
  {
    FilterAppend(Beyond(xs, a), Beyond(ys, b), Outside(both));
    FilterAppend(xs, ys, Outside(both));
    BeyondTwice(xs, a, both);
    BeyondTwice(ys, b, both);
  }

  lemma PlaceLeavesBeyond(node: PathPattern, pending: seq<Expr>)
    ensures Place(node, pending).1 == Beyond(pending, Declared(node))
  {
    UnhostableIsBeyond(pending, Declared(node));
  }

  /** A clause by itself leaves pending, in order, exactly its filters that read a variable it does
      not declare. */
  lemma {:induction false} OwnPending(p: PathPattern)
    ensures HoistPattern(p).1 == Beyond(Collected(p), Declared(p))
    decreases p, 1
  {
    match p
    case Filter(i, e) =>
      OwnPending(i);
      HoistKeepsShape(i);
      PlaceLeavesBeyond(HoistPattern(i).0, HoistPattern(i).1 + [e]);
      OwnPendingSnoc(Collected(i), e, Declared(i));
    case Join(_, _) => OwnPendingPair(p);
    case Concat(_, _) => OwnPendingPair(p);
    case Named(x, i) =>
      OwnPending(i);
      HoistKeepsShape(i);
      PlaceLeavesBeyond(Named(x, HoistPattern(i).0), HoistPattern(i).1);
      BeyondTwice(Collected(i), Declared(i), Declared(p));
    case _ =>
  }

  lemma OwnPendingSnoc(es: seq<Expr>, e: Expr, vars: set<string>)
    ensures Beyond(Beyond(es, vars) + [e], vars) == Beyond(es + [e], vars)
  {
    FilterAppend(Beyond(es, vars), [e], Outside(vars));
    FilterAppend(es, [e], Outside(vars));
    BeyondTwice(es, vars, vars);
  }

  lemma {:induction false} OwnPendingPair(p: PathPattern)
    requires p.Join? || p.Concat?
    ensures HoistPattern(p).1 == Beyond(Collected(p), Declared(p))
    decreases p, 0
  {
    var a, b := p.fst, p.snd;
    OwnPending(a);
    OwnPending(b);
    HoistKeepsShape(a);
    HoistKeepsShape(b);
    var (q, pa) := HoistPattern(a);
    var (s, pb) := HoistPattern(b);
    var node := if p.Join? then Join(q, s) else Concat(q, s);
    PlaceLeavesBeyond(node, pa + pb);
    BeyondPair(Collected(a), Collected(b), Declared(a), Declared(b), Declared(p));
  }

  // ---------------------------------------------------------------- how far one clause absorbs

  lemma DeclSnoc(ms: seq<MatchStatement>, m: MatchStatement)
    ensures TableDecl(ms + [m]) == TableDecl(ms) + Declared(m.pattern)
  {
    assert (ms + [m])[..|ms|] == ms;
  }

  lemma {:induction false} DeclAppend(xs: seq<MatchStatement>, ys: seq<MatchStatement>)
    ensures TableDecl(xs + ys) == TableDecl(xs) + TableDecl(ys)
    decreases |ys|
  {
    if ys == [] {
      assert xs + ys == xs;
    } else {
      var k := |ys| - 1;
      DeclAppend(xs, ys[..k]);
      assert xs + ys == (xs + ys[..k]) + [ys[k]];
      DeclSnoc(xs + ys[..k], ys[k]);
    }
  }

  /** What the clause declares once it has absorbed `out` from `k` on. */
  function Taken(out: seq<MatchStatement>, k: nat, own: set<string>): set<string>
    requires k <= |out|
  {
    own + TableDecl(out[k..])
  }

  lemma TakenInit(out: seq<MatchStatement>, k: nat, own: set<string>)
    requires out != [] && k < |out|
    ensures Taken(out, k, own) == Taken(out[..|out| - 1], k, own + Declared(out[|out| - 1].pattern))
  {
    var n := |out| - 1;
    assert out[k..] == out[..n][k..] + [out[n]];
    DeclSnoc(out[..n][k..], out[n]);
  }

  /** `k` is where absorbing stops: every step down to it was needed and possible, and another one
      would not be. */
  ghost predicate StopsAt(out: seq<MatchStatement>, pattern: PathPattern, pending: seq<Expr>, k: nat) {
    && k <= |out|
    && (forall y :: k < y <= |out| ==> Beyond(pending, Taken(out, y, Declared(pattern))) != [])
    && (forall y :: k <= y < |out| ==> Absorbable(out[y]))
    && (k < |out| ==> !HasSelected(pattern))
    && (Beyond(pending, Taken(out, k, Declared(pattern))) == []
        || k == 0 || !Absorbable(out[k - 1]) || HasSelected(pattern))
  }

  /** The merged clause over `out[k..]` and the pattern, with what is left pending. */
  ghost predicate MergedTo(out: seq<MatchStatement>, pattern: PathPattern, pending: seq<Expr>, k: nat,
                           out': seq<MatchStatement>, q: PathPattern, rest: seq<Expr>) {
    && k <= |out| && out' == out[..k]
    && Declared(q) == Taken(out, k, Declared(pattern))
    && rest == Beyond(pending, Declared(q))
    && (HasSelected(q) <==> HasSelected(pattern))
    && Operands(q) == OperandsOf(out[k..]) + Operands(pattern)
  }

  /** Absorbing goes exactly as far as a pending filter needs and the clauses allow. */
  lemma {:induction false} MergeUpExtent(out: seq<MatchStatement>, pattern: PathPattern, pending: seq<Expr>)
    requires Beyond(pending, Declared(pattern)) == pending
    ensures var (out', q, rest) := MergeUp(out, pattern, pending);
      StopsAt(out, pattern, pending, |out'|) && MergedTo(out, pattern, pending, |out'|, out', q, rest)
    decreases |out|
  {
    var n := |out|;
    assert out[..n] == out && out[n..] == [];
    assert Taken(out, n, Declared(pattern)) == Declared(pattern);
    if pending != [] && CanMerge(out, pattern) {
      MergeUpTurn(out, pattern, pending);
    } else {
      assert OperandsOf(out[n..]) == [];
    }
  }

  lemma {:induction false} MergeUpTurn(out: seq<MatchStatement>, pattern: PathPattern, pending: seq<Expr>)
    requires Beyond(pending, Declared(pattern)) == pending != [] && CanMerge(out, pattern)
    ensures var (out', q, rest) := MergeUp(out, pattern, pending);
      StopsAt(out, pattern, pending, |out'|) && MergedTo(out, pattern, pending, |out'|, out', q, rest)
    decreases |out|, 0
  {
    var n := |out| - 1;
    var init, prev := out[..n], out[n].pattern;
    var node := Join(prev, pattern);
    var (next, left) := Place(node, pending);
    PlaceKeepsShape(node, pending, node);
    SameSkeleton(next, node);
    PlaceLeavesBeyond(node, pending);
    BeyondTwice(pending, Declared(node), Declared(node));
    MergeUpExtent(init, next, left);
    var (out', q, rest) := MergeUp(init, next, left);
    TurnStops(out, pattern, pending, next, left, |out'|);
    TurnMerges(out, pattern, pending, next, left, out', q, rest);
  }

  lemma TurnStops(out: seq<MatchStatement>, pattern: PathPattern, pending: seq<Expr>, next: PathPattern,
                  left: seq<Expr>, k: nat)
    requires out != [] && Absorbable(out[|out| - 1]) && !HasSelected(pattern) && !HasSelected(next)
    requires Declared(next) == Declared(pattern) + Declared(out[|out| - 1].pattern)
    requires left == Beyond(pending, Declared(next)) && Beyond(pending, Declared(pattern)) == pending != []
    requires StopsAt(out[..|out| - 1], next, left, k)
    ensures StopsAt(out, pattern, pending, k)
  {
    var n := |out| - 1;
    var own := Declared(pattern);
    forall y | k <= y <= n
      ensures Beyond(left, Taken(out[..n], y, Declared(next))) == Beyond(pending, Taken(out, y, own))
    {
      TakenInit(out, y, own);
      BeyondTwice(pending, Declared(next), Taken(out, y, own));
    }
    assert out[n + 1..] == [] && Taken(out, n + 1, own) == own;
  }

  lemma TurnMerges(out: seq<MatchStatement>, pattern: PathPattern, pending: seq<Expr>, next: PathPattern,
                   left: seq<Expr>, out': seq<MatchStatement>, q: PathPattern, rest: seq<Expr>)
    requires out != [] && !HasSelected(pattern) && !HasSelected(next)
    requires Declared(next) == Declared(pattern) + Declared(out[|out| - 1].pattern)
    requires Operands(next) == Operands(out[|out| - 1].pattern) + Operands(pattern)
    requires left == Beyond(pending, Declared(next))
    requires MergedTo(out[..|out| - 1], next, left, |out'|, out', q, rest)
    ensures MergedTo(out, pattern, pending, |out'|, out', q, rest)
  {
    var n, k := |out| - 1, |out'|;
    TakenInit(out, k, Declared(pattern));
    BeyondTwice(pending, Declared(next), Declared(q));
    assert out[..n][..k] == out[..k];
    TailOperands(out, k);
    Regroup(OperandsOf(out[..n][k..]), Operands(out[n].pattern), Operands(pattern), OperandsOf(out[k..]));
  }

  lemma TailOperands(out: seq<MatchStatement>, k: nat)
    requires out != [] && k < |out|
    ensures OperandsOf(out[k..]) == OperandsOf(out[..|out| - 1][k..]) + Operands(out[|out| - 1].pattern)
  {
    var n := |out| - 1;
    assert out[k..] == out[..n][k..] + [out[n]];
    OperandsSnoc(out[..n][k..], out[n]);
  }

  lemma Regroup<T>(a: seq<T>, b: seq<T>, c: seq<T>, ab: seq<T>)
    requires ab == a + b
    ensures a + (b + c) == ab + c
  {
  }

  // ---------------------------------------------------------------- what the merged patterns are made of

  /** The operands of a join, from left to right, without filters. */
  function Operands(p: PathPattern): seq<PathPattern> {
    match p
    case Join(a, b) => Operands(a) + Operands(b)
    case Filter(i, _) => Operands(i)
    case _ => [Skeleton(p)]
  }

  function OperandsOf(ms: seq<MatchStatement>): seq<PathPattern> {
    if ms == [] then [] else OperandsOf(ms[..|ms| - 1]) + Operands(ms[|ms| - 1].pattern)
  }

  lemma OperandsSnoc(ms: seq<MatchStatement>, m: MatchStatement)
    ensures OperandsOf(ms + [m]) == OperandsOf(ms) + Operands(m.pattern)
  {
    assert (ms + [m])[..|ms|] == ms;
  }

  lemma {:induction false} OperandsAppend(xs: seq<MatchStatement>, ys: seq<MatchStatement>)
    ensures OperandsOf(xs + ys) == OperandsOf(xs) + OperandsOf(ys)
    decreases |ys|
  {
    if ys == [] {
      assert xs + ys == xs;
    } else {
      var k := |ys| - 1;
      OperandsAppend(xs, ys[..k]);
      var init, last := ys[..k], ys[k];
      assert ys == init + [last] && xs + ys == (xs + init) + [last];
      OperandsSnoc(xs + init, last);
      OperandsSnoc(init, last);
      Regroup(OperandsOf(xs), OperandsOf(init), Operands(last.pattern), OperandsOf(xs + init));
    }
  }

  lemma {:induction false} OperandsOfSkeleton(p: PathPattern)
    ensures Operands(Skeleton(p)) == Operands(p)
  {
    match p
    case Join(a, b) => OperandsOfSkeleton(a); OperandsOfSkeleton(b);
    case Filter(i, _) => OperandsOfSkeleton(i);
    case _ => SkeletonTwice(p);
  }

  lemma {:induction false} SkeletonTwice(p: PathPattern)
    ensures Skeleton(Skeleton(p)) == Skeleton(p)
  {
    match p
    case Filter(i, _) => SkeletonTwice(i);
    case Join(a, b) => SkeletonTwice(a); SkeletonTwice(b);
    case Concat(a, b) => SkeletonTwice(a); SkeletonTwice(b);
    case Union(a, b) => SkeletonTwice(a); SkeletonTwice(b);
    case Named(_, i) => SkeletonTwice(i);
    case Repeat(i, _, _) => SkeletonTwice(i);
    case Questioned(i) => SkeletonTwice(i);
    case Selected(_, i) => SkeletonTwice(i);
    case _ =>
  }

  lemma SameSkeleton(p: PathPattern, q: PathPattern)
    requires Skeleton(p) == Skeleton(q)
    ensures Operands(p) == Operands(q)
  {
    OperandsOfSkeleton(p);
    OperandsOfSkeleton(q);
  }

  // ---------------------------------------------------------------- the merged chain against the written one

  /** Down to which clause a simple clause absorbs. */
  function StopIndex(out: seq<MatchStatement>, p: PathPattern): nat {
    |MergeClause(out, p).0|
  }

  /** The starts after a simple clause that stops absorbing at `k`. */
  function StartsFrom(starts: seq<nat>, k: nat, n: nat): seq<nat> {
    if k < |starts| then starts[..k + 1] else starts + [n]
  }

  /** The clauses of the merged chain, by the index of the first written clause each one covers. */
  function Starts(ms: seq<MatchStatement>): seq<nat> {
    if ms == [] then []
    else
      var n := |ms| - 1;
      var before := Starts(ms[..n]);
      if ms[n].OptionalMatch? then before + [n]
      else
        StartsFrom(before, StopIndex(HoistAll(ms[..n]), ms[n].pattern), n)
  }

  /** The first written clause after the ones the first `x` merged clauses cover. */
  function From(starts: seq<nat>, n: nat, x: nat): nat
    requires x <= |starts|
  {
    if x < |starts| then starts[x] else n
  }

  /** The `x`-th merged clause covers the written clauses up to the next start: it is made of their
      operands, in order, declares what they declare, and covers several only if all may be merged. */
  ghost predicate Covers(ms: seq<MatchStatement>, out: seq<MatchStatement>, starts: seq<nat>, x: nat)
    requires x < |starts| == |out|
  {
    var lo, hi := From(starts, |ms|, x), From(starts, |ms|, x + 1);
    && lo < hi <= |ms|
    && OperandsOf(ms[lo..hi]) == Operands(out[x].pattern)
    && TableDecl(ms[lo..hi]) == Declared(out[x].pattern)
    && (Absorbable(out[x]) ==> forall i :: lo <= i < hi ==> Absorbable(ms[i]))
    && (!Absorbable(out[x]) ==> hi == lo + 1 && !Absorbable(ms[lo]))
    && (out[x].OptionalMatch? <==> ms[lo].OptionalMatch?)
  }

  ghost predicate Partitioned(ms: seq<MatchStatement>, out: seq<MatchStatement>, starts: seq<nat>) {
    && |out| == |starts|
    && (From(starts, |ms|, 0) == 0)
    && forall x :: 0 <= x < |starts| ==> Covers(ms, out, starts, x)
  }

  /** The written clauses `c..j+1` are mergeable with the one before them, and a filter of the last
      of them reads a variable that none of them declares. */
  predicate CrossedBy(ms: seq<MatchStatement>, c: nat, j: nat) {
    && 0 < c <= j < |ms|
    && (forall i :: c - 1 <= i <= j ==> Absorbable(ms[i]))
    && Beyond(Collected(ms[j].pattern), TableDecl(ms[c..j + 1])) != []
  }

  /** Some filter needs the clauses on both sides of the boundary before clause `c`. */
  predicate Crossed(ms: seq<MatchStatement>, c: nat) {
    exists j :: c <= j < |ms| && CrossedBy(ms, c, j)
  }

  lemma CrossedSnoc(ms: seq<MatchStatement>, c: nat)
    requires ms != []
    ensures Crossed(ms, c) <==> Crossed(ms[..|ms| - 1], c) || CrossedBy(ms, c, |ms| - 1)
  {
    var n := |ms| - 1;
    forall j: nat | c <= j < n ensures CrossedBy(ms, c, j) <==> CrossedBy(ms[..n], c, j) {
      assert ms[c..j + 1] == ms[..n][c..j + 1];
      assert forall i :: 0 <= i < n ==> ms[..n][i] == ms[i];
    }
  }

  /** What `out[x..]` is made of: the written clauses from its start on. */
  lemma {:induction false} TailCovers(ms: seq<MatchStatement>, out: seq<MatchStatement>, starts: seq<nat>, x: nat)
    requires Partitioned(ms, out, starts) && x <= |starts|
    ensures var lo := From(starts, |ms|, x);
      && lo <= |ms| && (x < |starts| ==> lo < |ms|)
      && OperandsOf(out[x..]) == OperandsOf(ms[lo..])
      && TableDecl(out[x..]) == TableDecl(ms[lo..])
    decreases |starts| - x
  {
    var lo := From(starts, |ms|, x);
    if x == |starts| {
      assert out[x..] == [] && ms[lo..] == [];
    } else {
      var hi := From(starts, |ms|, x + 1);
      TailCovers(ms, out, starts, x + 1);
      assert Covers(ms, out, starts, x);
      assert out[x..] == [out[x]] + out[x + 1..];
      assert ms[lo..] == ms[lo..hi] + ms[hi..];
      OneOf(out[x]);
      DeclAppend([out[x]], out[x + 1..]);
      DeclAppend(ms[lo..hi], ms[hi..]);
      OperandsAppend([out[x]], out[x + 1..]);
      OperandsAppend(ms[lo..hi], ms[hi..]);
    }
  }

  lemma OneOf(m: MatchStatement)
    ensures OperandsOf([m]) == Operands(m.pattern) && TableDecl([m]) == Declared(m.pattern)
  {
    assert [m][..0] == [];
    assert OperandsOf([m][..0]) == [];
  }

  /** A tail of absorbable clauses covers absorbable clauses. */
  lemma {:induction false} TailAbsorbable(ms: seq<MatchStatement>, out: seq<MatchStatement>, starts: seq<nat>, x: nat)
    requires Partitioned(ms, out, starts) && x <= |starts|
    requires forall y :: x <= y < |out| ==> Absorbable(out[y])
    ensures forall i :: From(starts, |ms|, x) <= i < |ms| ==> Absorbable(ms[i])
    decreases |starts| - x
  {
    if x < |starts| {
      TailAbsorbable(ms, out, starts, x + 1);
      assert Covers(ms, out, starts, x);
    }
  }

  /** Starts ascend. */
  lemma {:induction false} StartsAscend(ms: seq<MatchStatement>, out: seq<MatchStatement>, starts: seq<nat>, x: nat,
                                        y: nat)
    requires Partitioned(ms, out, starts) && x < y <= |starts|
    ensures From(starts, |ms|, x) < From(starts, |ms|, y) <= |ms|
    decreases y - x
  {
    assert Covers(ms, out, starts, x);
    if x + 1 < y {
      StartsAscend(ms, out, starts, x + 1, y);
    }
  }

  // ---------------------------------------------------------------- one more clause

  /** The merged clauses below `k` cover what they covered before. */
  lemma CoversStays(ms: seq<MatchStatement>, out: seq<MatchStatement>, starts: seq<nat>, k: nat,
                    out': seq<MatchStatement>, starts': seq<nat>, x: nat)
    requires ms != [] && Partitioned(ms[..|ms| - 1], out, starts) && x < k <= |starts|
    requires |out'| == |starts'| == k + 1 && out'[..k] == out[..k] && starts'[..k] == starts[..k]
    requires starts'[k] == From(starts, |ms| - 1, k)
    ensures Covers(ms, out', starts', x)
  {
    var n := |ms| - 1;
    assert Covers(ms[..n], out, starts, x);
    assert starts'[x] == starts'[..k][x] == starts[x] && out'[x] == out'[..k][x] == out[x];
    if x + 1 < k {
      assert starts'[x + 1] == starts'[..k][x + 1] == starts[x + 1];
    }
    var lo, hi := From(starts, n, x), From(starts, n, x + 1);
    assert From(starts', |ms|, x + 1) == hi;
    assert ms[lo..hi] == ms[..n][lo..hi];
    assert forall i :: lo <= i < hi ==> ms[i] == ms[..n][i];
  }

  /** Absorbing from `k` on, or nothing when `k` is the end. */
  lemma PartitionedSnoc(ms: seq<MatchStatement>, out: seq<MatchStatement>, starts: seq<nat>, k: nat,
                        out': seq<MatchStatement>, starts': seq<nat>)
    requires ms != [] && Partitioned(ms[..|ms| - 1], out, starts) && k <= |starts|
    requires |out'| == |starts'| == k + 1 && out'[..k] == out[..k] && starts'[..k] == starts[..k]
    requires starts'[k] == From(starts, |ms| - 1, k)
    requires var (m, c) := (ms[|ms| - 1], out'[k]);
      && Operands(c.pattern) == OperandsOf(out[k..]) + Operands(m.pattern)
      && Declared(c.pattern) == TableDecl(out[k..]) + Declared(m.pattern)
      && (Absorbable(c) <==> Absorbable(m)) && (c.OptionalMatch? <==> m.OptionalMatch?)
      && (k < |out| ==> Absorbable(m) && forall y :: k <= y < |out| ==> Absorbable(out[y]))
    ensures Partitioned(ms, out', starts')
  {
    var n := |ms| - 1;
    var lo := From(starts, n, k);
    TailCovers(ms[..n], out, starts, k);
    forall x | 0 <= x < |starts'| ensures Covers(ms, out', starts', x) {
      if x < k {
        CoversStays(ms, out, starts, k, out', starts', x);
      } else {
        LastCovers(ms, out, starts, k, out', starts');
      }
    }
    if k > 0 {
      assert starts'[0] == starts'[..k][0] == starts[0];
    }
  }

  lemma LastCovers(ms: seq<MatchStatement>, out: seq<MatchStatement>, starts: seq<nat>, k: nat,
                   out': seq<MatchStatement>, starts': seq<nat>)
    requires ms != [] && Partitioned(ms[..|ms| - 1], out, starts) && k <= |starts|
    requires |out'| == |starts'| == k + 1 && starts'[k] == From(starts, |ms| - 1, k)
    requires var (m, c) := (ms[|ms| - 1], out'[k]);
      && Operands(c.pattern) == OperandsOf(out[k..]) + Operands(m.pattern)
      && Declared(c.pattern) == TableDecl(out[k..]) + Declared(m.pattern)
      && (Absorbable(c) <==> Absorbable(m)) && (c.OptionalMatch? <==> m.OptionalMatch?)
      && (k < |out| ==> Absorbable(m) && forall y :: k <= y < |out| ==> Absorbable(out[y]))
    ensures Covers(ms, out', starts', k)
  {
    var n := |ms| - 1;
    var lo := From(starts, n, k);
    TailCovers(ms[..n], out, starts, k);
    assert ms[lo..] == ms[..n][lo..] + [ms[n]] && ms[lo..n + 1] == ms[lo..];
    DeclSnoc(ms[..n][lo..], ms[n]);
    OperandsSnoc(ms[..n][lo..], ms[n]);
    if k < |out| {
      TailAbsorbable(ms[..n], out, starts, k);
      assert forall i :: lo <= i < n ==> ms[i] == ms[..n][i];
    }
  }

  /** What the pass makes of one more clause. */
  lemma SimpleStep(out: seq<MatchStatement>, p: PathPattern)
    ensures var (out', q, rest) := MergeClause(out, p);
      var k := |out'|;
      && StopsAt(out, p, Beyond(Collected(p), Declared(p)), k)
      && out' == out[..k]
      && Declared(q) == Taken(out, k, Declared(p))
      && rest == Beyond(Collected(p), Declared(q))
      && (HasSelected(q) <==> HasSelected(p))
      && Operands(q) == OperandsOf(out[k..]) + Operands(p)
  {
    var (start, pending) := HoistPattern(p);
    HoistKeepsShape(p);
    SameSkeleton(start, p);
    OwnPending(p);
    BeyondTwice(Collected(p), Declared(p), Declared(p));
    MergeUpExtent(out, start, pending);
    var (out', q, rest) := MergeUp(out, start, pending);
    StopsSame(out, start, p, pending, |out'|);
    BeyondTwice(Collected(p), Declared(p), Declared(q));
  }

  lemma StopsSame(out: seq<MatchStatement>, start: PathPattern, p: PathPattern, pending: seq<Expr>, k: nat)
    requires StopsAt(out, start, pending, k) && Declared(start) == Declared(p) && HasSelected(start) == HasSelected(p)
    ensures StopsAt(out, p, pending, k)
  {
  }

  /** The merged chain covers the written one, clause by clause. */
  lemma {:induction false} StartsCover(ms: seq<MatchStatement>)
    ensures Partitioned(ms, HoistAll(ms), Starts(ms))
    decreases |ms|
  {
    if ms != [] {
      var n := |ms| - 1;
      var out, starts := HoistAll(ms[..n]), Starts(ms[..n]);
      StartsCover(ms[..n]);
      if ms[n].OptionalMatch? {
        OptionalCovers(ms, out, starts);
      } else {
        SimpleCovers(ms, out, starts);
      }
    }
  }

  lemma OptionalCovers(ms: seq<MatchStatement>, out: seq<MatchStatement>, starts: seq<nat>)
    requires ms != [] && ms[|ms| - 1].OptionalMatch?
    requires out == HoistAll(ms[..|ms| - 1]) && starts == Starts(ms[..|ms| - 1])
    requires Partitioned(ms[..|ms| - 1], out, starts)
    ensures Partitioned(ms, HoistAll(ms), Starts(ms))
  {
    var n := |ms| - 1;
    var p := ms[n].pattern;
    SealedKeepsShape(p);
    SameSkeleton(Sealed(p), p);
    OptionalUnfolds(ms);
    NotAbsorbedCovers(ms, out, starts, OptionalMatch(Sealed(p)));
  }

  lemma OptionalUnfolds(ms: seq<MatchStatement>)
    requires ms != [] && ms[|ms| - 1].OptionalMatch?
    ensures var n := |ms| - 1;
      HoistAll(ms) == HoistAll(ms[..n]) + [OptionalMatch(Sealed(ms[n].pattern))] && Starts(ms) == Starts(ms[..n]) + [n]
  {
  }

  lemma NotAbsorbedCovers(ms: seq<MatchStatement>, out: seq<MatchStatement>, starts: seq<nat>, c: MatchStatement)
    requires ms != [] && ms[|ms| - 1].OptionalMatch? && c.OptionalMatch?
    requires Partitioned(ms[..|ms| - 1], out, starts)
    requires var p := ms[|ms| - 1].pattern; Operands(c.pattern) == Operands(p) && Declared(c.pattern) == Declared(p)
    ensures Partitioned(ms, out + [c], starts + [|ms| - 1])
  {
    assert out[|out|..] == [];
    PartitionedSnoc(ms, out, starts, |out|, out + [c], starts + [|ms| - 1]);
  }

  lemma SimpleCovers(ms: seq<MatchStatement>, out: seq<MatchStatement>, starts: seq<nat>)
    requires ms != [] && ms[|ms| - 1].SimpleMatch?
    requires out == HoistAll(ms[..|ms| - 1]) && starts == Starts(ms[..|ms| - 1])
    requires Partitioned(ms[..|ms| - 1], out, starts)
    ensures Partitioned(ms, HoistAll(ms), Starts(ms))
  {
    var n := |ms| - 1;
    var p := ms[n].pattern;
    SimpleStep(out, p);
    var (out', q, rest) := MergeClause(out, p);
    FoldShape(q, rest);
    SameSkeleton(FoldFilters(q, rest), q);
    AbsorbedCovers(ms, out, starts, |out'|, FoldFilters(q, rest));
  }

  lemma AbsorbedCovers(ms: seq<MatchStatement>, out: seq<MatchStatement>, starts: seq<nat>, k: nat, q: PathPattern)
    requires ms != [] && ms[|ms| - 1].SimpleMatch? && Partitioned(ms[..|ms| - 1], out, starts) && k <= |out|
    requires var p := ms[|ms| - 1].pattern;
      && (k < |out| ==> !HasSelected(p)) && (forall y :: k <= y < |out| ==> Absorbable(out[y]))
      && Declared(q) == Taken(out, k, Declared(p))
      && (HasSelected(q) <==> HasSelected(p))
      && Operands(q) == OperandsOf(out[k..]) + Operands(p)
    ensures Partitioned(ms, out[..k] + [SimpleMatch(q)], StartsFrom(starts, k, |ms| - 1))
  {
    var starts' := StartsFrom(starts, k, |ms| - 1);
    assert starts'[..k] == starts[..k];
    PartitionedSnoc(ms, out, starts, k, out[..k] + [SimpleMatch(q)], starts');
  }

  // ---------------------------------------------------------------- which boundaries are crossed

  lemma BeyondLess(es: seq<Expr>, a: set<string>, b: set<string>)
    requires a <= b && Beyond(es, b) != []
    ensures Beyond(es, a) != []
  {
    var e := Beyond(es, b)[0];
    BeyondMember(es, b, e);
    BeyondMember(es, a, e);
  }

  lemma TakenLess(out: seq<MatchStatement>, x: nat, k: nat, own: set<string>)
    requires x <= k <= |out|
    ensures Taken(out, k, own) <= Taken(out, x, own)
  {
    assert out[x..] == out[x..k] + out[k..];
    DeclAppend(out[x..k], out[k..]);
  }

  /** What a filter of `m` misses, seen from the merged clauses and from the written ones. */
  lemma StartNeeds(before: seq<MatchStatement>, m: MatchStatement, out: seq<MatchStatement>, starts: seq<nat>, x: nat)
    requires Partitioned(before, out, starts) && x <= |starts|
    ensures From(starts, |before|, x) <= |before|
    ensures Taken(out, x, Declared(m.pattern)) == TableDecl(before[From(starts, |before|, x)..] + [m])
  {
    TailCovers(before, out, starts, x);
    DeclSnoc(before[From(starts, |before|, x)..], m);
  }

  lemma StartBeyond(before: seq<MatchStatement>, m: MatchStatement, out: seq<MatchStatement>, starts: seq<nat>, x: nat)
    requires Partitioned(before, out, starts) && x <= |starts|
    ensures From(starts, |before|, x) <= |before|
    ensures var p := m.pattern;
      Beyond(Beyond(Collected(p), Declared(p)), Taken(out, x, Declared(p)))
        == Beyond(Collected(p), TableDecl(before[From(starts, |before|, x)..] + [m]))
  {
    StartNeeds(before, m, out, starts, x);
    BeyondTwice(Collected(m.pattern), Declared(m.pattern), Taken(out, x, Declared(m.pattern)));
  }

  /** The filters of the clause after `before` need what lies on both sides of boundary `c`. */
  predicate CrossesNext(before: seq<MatchStatement>, m: MatchStatement, c: nat) {
    && 0 < c <= |before|
    && Absorbable(m) && (forall i :: c - 1 <= i < |before| ==> Absorbable(before[i]))
    && Beyond(Collected(m.pattern), TableDecl(before[c..] + [m])) != []
  }

  lemma CrossesNextIs(ms: seq<MatchStatement>, c: nat)
    requires ms != []
    ensures CrossedBy(ms, c, |ms| - 1) <==> CrossesNext(ms[..|ms| - 1], ms[|ms| - 1], c)
  {
    var n := |ms| - 1;
    assert forall i :: 0 <= i < n ==> ms[..n][i] == ms[i];
    if 0 < c <= n {
      assert ms[c..n + 1] == ms[..n][c..] + [ms[n]];
    }
  }

  /** Absorbing goes beyond the start of merged clause `x` exactly when the filters of the next clause
      cross the boundary there. */
  lemma CrossedAtStart(before: seq<MatchStatement>, m: MatchStatement, out: seq<MatchStatement>, starts: seq<nat>,
                       k: nat, x: nat)
    requires m.SimpleMatch? && Partitioned(before, out, starts) && 0 < x <= |starts|
    requires StopsAt(out, m.pattern, Beyond(Collected(m.pattern), Declared(m.pattern)), k)
    ensures CrossesNext(before, m, From(starts, |before|, x)) <==> k < x
  {
    StartsAscend(before, out, starts, 0, x);
    if k < x {
      CrossedBeyond(before, m, out, starts, k, x);
    } else {
      NotCrossedBelow(before, m, out, starts, k, x);
    }
  }

  lemma CrossedBeyond(before: seq<MatchStatement>, m: MatchStatement, out: seq<MatchStatement>, starts: seq<nat>,
                      k: nat, x: nat)
    requires m.SimpleMatch? && Partitioned(before, out, starts) && k < x <= |starts|
    requires StopsAt(out, m.pattern, Beyond(Collected(m.pattern), Declared(m.pattern)), k)
    ensures CrossesNext(before, m, From(starts, |before|, x))
  {
    var c := From(starts, |before|, x);
    StartsAscend(before, out, starts, k, x);
    StartsAscend(before, out, starts, x - 1, x);
    TailAbsorbable(before, out, starts, x - 1);
    StartBeyond(before, m, out, starts, x);
  }

  lemma NotCrossedBelow(before: seq<MatchStatement>, m: MatchStatement, out: seq<MatchStatement>, starts: seq<nat>,
                        k: nat, x: nat)
    requires m.SimpleMatch? && Partitioned(before, out, starts) && 0 < x <= k <= |starts|
    requires StopsAt(out, m.pattern, Beyond(Collected(m.pattern), Declared(m.pattern)), k)
    ensures !CrossesNext(before, m, From(starts, |before|, x))
  {
    var c := From(starts, |before|, x);
    var own := Declared(m.pattern);
    if CrossesNext(before, m, c) {
      StartBeyond(before, m, out, starts, x);
      TakenLess(out, x, k, own);
      BeyondLess(Beyond(Collected(m.pattern), own), Taken(out, k, own), Taken(out, x, own));
      assert !Absorbable(out[k - 1]);
      assert Covers(before, out, starts, k - 1);
      var lo := From(starts, |before|, k - 1);
      if x < k {
        StartsAscend(before, out, starts, x, k);
      }
    }
  }

  /** Which clauses stay apart: a clause begins a merged one exactly when no filter needs the clauses on
      both sides of the boundary before it. */
  lemma {:induction false} StartsExact(ms: seq<MatchStatement>, c: nat)
    requires 0 < c < |ms|
    ensures c in Starts(ms) <==> !Crossed(ms, c)
    decreases |ms|
  {
    var n := |ms| - 1;
    StartsNext(ms, c);
    CrossedSnoc(ms, c);
    CrossesNextIs(ms, c);
    StartsCover(ms[..n]);
    StartsBelow(ms[..n], HoistAll(ms[..n]), Starts(ms[..n]));
    if c < n {
      StartsExact(ms[..n], c);
    }
  }

  lemma StartsNext(ms: seq<MatchStatement>, c: nat)
    requires 0 < c < |ms|
    ensures var n := |ms| - 1;
      c in Starts(ms) <==> (c in Starts(ms[..n]) || c == n) && !CrossesNext(ms[..n], ms[n], c)
  {
    if ms[|ms| - 1].SimpleMatch? {
      StartsOfSimple(ms, c);
    } else {
      StartsOfOptional(ms, c);
    }
  }

  lemma StartsOfSimple(ms: seq<MatchStatement>, c: nat)
    requires 0 < c < |ms| && ms[|ms| - 1].SimpleMatch?
    ensures var n := |ms| - 1;
      c in Starts(ms) <==> (c in Starts(ms[..n]) || c == n) && !CrossesNext(ms[..n], ms[n], c)
  {
    StartsUnfold(ms);
    StartsTaken(ms[..|ms| - 1], ms[|ms| - 1], c);
  }

  lemma StartsTaken(before: seq<MatchStatement>, m: MatchStatement, c: nat)
    requires m.SimpleMatch? && 0 < c <= |before|
    ensures c in StartsFrom(Starts(before), StopIndex(HoistAll(before), m.pattern), |before|) <==>
        (c in Starts(before) || c == |before|) && !CrossesNext(before, m, c)
  {
    StartsCover(before);
    SimpleStarts(before, m, HoistAll(before), Starts(before), c);
  }

  lemma StartsUnfold(ms: seq<MatchStatement>)
    requires ms != [] && ms[|ms| - 1].SimpleMatch?
    ensures var n := |ms| - 1;
      Starts(ms) == StartsFrom(Starts(ms[..n]), StopIndex(HoistAll(ms[..n]), ms[n].pattern), n)
  {
  }

  lemma StartsOfOptional(ms: seq<MatchStatement>, c: nat)
    requires ms != [] && ms[|ms| - 1].OptionalMatch?
    ensures var n := |ms| - 1;
      c in Starts(ms) <==> (c in Starts(ms[..n]) || c == n) && !CrossesNext(ms[..n], ms[n], c)
  {
  }

  lemma StartsBelow(before: seq<MatchStatement>, out: seq<MatchStatement>, starts: seq<nat>)
    requires Partitioned(before, out, starts)
    ensures forall x :: 0 <= x < |starts| ==> starts[x] < |before|
  {
    forall x | 0 <= x < |starts| ensures starts[x] < |before| {
      TailCovers(before, out, starts, x);
    }
  }

  /** A simple clause takes over the starts up to where it stops absorbing. */
  lemma SimpleStarts(before: seq<MatchStatement>, m: MatchStatement, out: seq<MatchStatement>, starts: seq<nat>, c: nat)
    requires m.SimpleMatch? && Partitioned(before, out, starts) && 0 < c <= |before|
    ensures var k := StopIndex(out, m.pattern);
      c in StartsFrom(starts, k, |before|) <==> (c in starts || c == |before|) && !CrossesNext(before, m, c)
  {
    SimpleStep(out, m.pattern);
    var k := StopIndex(out, m.pattern);
    StartsBelow(before, out, starts);
    CrossedAtStart(before, m, out, starts, k, |starts|);
    if c in starts {
      var x: nat :| x < |starts| && starts[x] == c;
      CrossedAtStart(before, m, out, starts, k, x);
      forall y | 0 <= y < |starts| && starts[y] == c ensures y == x {
        if y < x { StartsAscend(before, out, starts, y, x); }
        if x < y { StartsAscend(before, out, starts, x, y); }
      }
      if x <= k && k < |starts| {
        assert starts[..k + 1][x] == c;
      }
    }
  }

  // ---------------------------------------------------------------- which filters find no clause

  /** Absorbing to the end of what may be absorbed takes the whole run. */
  lemma RunTaken(before: seq<MatchStatement>, out: seq<MatchStatement>, starts: seq<nat>, k: nat)
    requires Partitioned(before, out, starts) && k <= |out|
    requires forall y :: k <= y < |out| ==> Absorbable(out[y])
    ensures RunStart(before) <= From(starts, |before|, k) <= |before|
    ensures k == 0 || !Absorbable(out[k - 1]) ==> RunStart(before) == From(starts, |before|, k)
  {
    TailCovers(before, out, starts, k);
    TailAbsorbable(before, out, starts, k);
    RunStartLeast(before);
    if k > 0 && !Absorbable(out[k - 1]) {
      assert Covers(before, out, starts, k - 1);
    }
  }

  lemma ReachTaken(before: seq<MatchStatement>, p: PathPattern, out: seq<MatchStatement>, starts: seq<nat>, k: nat)
    requires Partitioned(before, out, starts) && k <= |out|
    requires forall y :: k <= y < |out| ==> Absorbable(out[y])
    requires k < |out| ==> !HasSelected(p)
    ensures Taken(out, k, Declared(p)) <= Reach(before, p)
    ensures k == 0 || !Absorbable(out[k - 1]) || HasSelected(p) ==> Taken(out, k, Declared(p)) == Reach(before, p)
  {
    RunTaken(before, out, starts, k);
    TailCovers(before, out, starts, k);
    if HasSelected(p) {
      assert out[k..] == [];
    } else {
      DeclGrows(before, RunStart(before), From(starts, |before|, k));
    }
  }

  lemma DeclGrows(ms: seq<MatchStatement>, lo: nat, c: nat)
    requires lo <= c <= |ms|
    ensures TableDecl(ms[c..]) <= TableDecl(ms[lo..])
  {
    assert ms[lo..] == ms[lo..c] + ms[c..];
    DeclAppend(ms[lo..c], ms[c..]);
  }

  /** The filters that no clause can host, read off the clauses as written: in order, those of the
      clause that read a variable beyond its reach. */
  lemma UnplacedExact(before: seq<MatchStatement>, p: PathPattern)
    ensures MergeClause(HoistAll(before), p).2 == Beyond(Collected(p), Reach(before, p))
  {
    var out, starts := HoistAll(before), Starts(before);
    StartsCover(before);
    SimpleStep(out, p);
    UnplacedAt(before, p, out, starts, StopIndex(out, p), MergeClause(out, p).2);
  }

  lemma UnplacedAt(before: seq<MatchStatement>, p: PathPattern, out: seq<MatchStatement>, starts: seq<nat>, k: nat,
                   rest: seq<Expr>)
    requires Partitioned(before, out, starts) && StopsAt(out, p, Beyond(Collected(p), Declared(p)), k)
    requires rest == Beyond(Collected(p), Taken(out, k, Declared(p)))
    ensures rest == Beyond(Collected(p), Reach(before, p))
  {
    ReachTaken(before, p, out, starts, k);
    BeyondTwice(Collected(p), Declared(p), Taken(out, k, Declared(p)));
    if Beyond(Collected(p), Reach(before, p)) != [] {
      BeyondLess(Collected(p), Taken(out, k, Declared(p)), Reach(before, p));
    }
  }

  /** A clause that keeps filters without a host declares all that was in its reach. */
  lemma UnplacedReach(before: seq<MatchStatement>, p: PathPattern)
    requires MergeClause(HoistAll(before), p).2 != []
    ensures Declared(MergeClause(HoistAll(before), p).1) == Reach(before, p)
  {
    var out := HoistAll(before);
    StartsCover(before);
    SimpleStep(out, p);
    BeyondTwice(Collected(p), Declared(p), Taken(out, StopIndex(out, p), Declared(p)));
    ReachTaken(before, p, out, Starts(before), StopIndex(out, p));
  }
}
