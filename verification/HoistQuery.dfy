/** Clause merging preserves the query: the merged chain computes the table of the chain that was
    written. */
module HoistQuery {
  import opened Values
  import opened Syntax
  import opened RowAlgebra
  import opened Runtime
  import opened Evaluator
  import opened Scoping
  import opened Hoist
  import opened HoistRows
  import opened MatchChain
  import opened OptionalScope
  import opened ClauseMerge

  // ---------------------------------------------------------------- conditions on a chain

  /** A subquery of a simple clause mentions no earlier variable that its own pattern does not declare;
      an OPTIONAL clause after the first is correlated or self-contained. */
  predicate ClauseScoped(m: MatchStatement, before: seq<MatchStatement>) {
    && WellScoped(m.pattern)
    && (m.SimpleMatch? ==> Hidden(m.pattern) * TableDecl(before) <= Declared(m.pattern))
    && (m.OptionalMatch? && before != [] ==> OptionalScoped(m.pattern, BoundVars(before), TableDecl(before)))
  }

  /** Each pattern is well scoped, clauses are pairwise apart, and none misses an earlier variable. */
  predicate ChainScoped(ms: seq<MatchStatement>) {
    AllApart(ms) && forall i :: 0 <= i < |ms| ==> ClauseScoped(ms[i], ms[..i])
  }

  /** What a clause's filters read of the clauses before it lies within its reach: no optional clause
      and no path prefix stands in between. */
  predicate InReach(before: seq<MatchStatement>, p: PathPattern) {
    forall e :: e in Collected(p) ==> Referenced(e) * TableDecl(before) <= Reach(before, p)
  }

  predicate ReachesAll(ms: seq<MatchStatement>) {
    forall i :: 0 <= i < |ms| && ms[i].SimpleMatch? ==> InReach(ms[..i], ms[i].pattern)
  }

  predicate ApartFrom(ms: seq<MatchStatement>, m: MatchStatement) {
    forall i :: 0 <= i < |ms| ==> Apart(ms[i], m)
  }

  /** The clause patterns as far as scoping can see them. */
  ghost predicate SameVars(p: PathPattern, q: PathPattern) {
    FreeVars(p) == FreeVars(q) && PathVars(p) == PathVars(q) && Sure(p) == Sure(q)
  }

  // ---------------------------------------------------------------- apartness survives merging

  lemma ApartSnoc(ms: seq<MatchStatement>, m: MatchStatement)
    ensures AllApart(ms + [m]) <==> AllApart(ms) && ApartFrom(ms, m)
  {
    var all := ms + [m];
    if AllApart(all) {
      forall i, j | 0 <= i < j < |ms| ensures Apart(ms[i], ms[j]) {
        assert Apart(all[i], all[j]);
      }
      forall i | 0 <= i < |ms| ensures Apart(ms[i], m) {
        assert Apart(all[i], all[|ms|]);
      }
    }
  }

  lemma ApartFromSnoc(ms: seq<MatchStatement>, m: MatchStatement, other: MatchStatement)
    ensures ApartFrom(ms + [m], other) <==> ApartFrom(ms, other) && Apart(m, other)
  {
    var all := ms + [m];
    if ApartFrom(all, other) {
      forall i | 0 <= i < |ms| ensures Apart(ms[i], other) {
        assert Apart(all[i], other);
      }
      assert Apart(all[|ms|], other);
    }
  }

  lemma Commutes(s: set<string>, t: set<string>)
    ensures s * t == t * s
  {
  }

  lemma Distributes(da: set<string>, db: set<string>, dm: set<string>, sa: set<string>, sb: set<string>,
                    sm: set<string>)
    ensures (da + db) * dm == da * dm + db * dm
    ensures da * dm <= sa * sm && db * dm <= sb * sm ==> (da + db) * dm <= (sa + sb) * sm
  {
  }

  lemma ApartJoin(a: PathPattern, b: PathPattern, q: PathPattern, m: MatchStatement)
    requires SameVars(q, Join(a, b))
    ensures Apart(SimpleMatch(a), m) && Apart(SimpleMatch(b), m) ==> Apart(SimpleMatch(q), m)
    ensures Apart(m, SimpleMatch(a)) && Apart(m, SimpleMatch(b)) ==> Apart(m, SimpleMatch(q))
  {
    var dm, sm := Declared(m.pattern), ClauseSure(m);
    assert Declared(q) == Declared(a) + Declared(b);
    assert Sure(q) == Sure(a) + Sure(b);
    Distributes(Declared(a), Declared(b), dm, Sure(a), Sure(b), sm);
    assert (FreeVars(a) + FreeVars(b)) * FreeVars(m.pattern) ==
      FreeVars(a) * FreeVars(m.pattern) + FreeVars(b) * FreeVars(m.pattern);
    Commutes(dm, Declared(a));
    Commutes(dm, Declared(b));
    Commutes(dm, Declared(q));
    Commutes(sm, Sure(a));
    Commutes(sm, Sure(b));
    Commutes(sm, Sure(q));
    Commutes(FreeVars(m.pattern), FreeVars(a));
    Commutes(FreeVars(m.pattern), FreeVars(b));
    Commutes(FreeVars(m.pattern), FreeVars(q));
  }

  lemma ApartSame(p: PathPattern, q: PathPattern, m: MatchStatement)
    requires SameVars(p, q)
    ensures Apart(SimpleMatch(p), m) == Apart(SimpleMatch(q), m) && Apart(m, SimpleMatch(p)) == Apart(m, SimpleMatch(q))
    ensures Apart(OptionalMatch(p), m) == Apart(OptionalMatch(q), m)
    ensures Apart(m, OptionalMatch(p)) == Apart(m, OptionalMatch(q))
  {
  }

  lemma ApartFromSame(ms: seq<MatchStatement>, p: PathPattern, q: PathPattern)
    requires SameVars(p, q)
    ensures ApartFrom(ms, SimpleMatch(p)) == ApartFrom(ms, SimpleMatch(q))
    ensures ApartFrom(ms, OptionalMatch(p)) == ApartFrom(ms, OptionalMatch(q))
  {
    forall i | 0 <= i < |ms|
      ensures Apart(ms[i], SimpleMatch(p)) == Apart(ms[i], SimpleMatch(q))
      ensures Apart(ms[i], OptionalMatch(p)) == Apart(ms[i], OptionalMatch(q))
    {
      ApartSame(p, q, ms[i]);
    }
  }

  /** Absorbing the last clause keeps the rest apart. */
  lemma AbsorbApart(out: seq<MatchStatement>, pattern: PathPattern, q: PathPattern)
    requires out != [] && out[|out| - 1].SimpleMatch?
    requires SameVars(q, Join(out[|out| - 1].pattern, pattern))
    requires AllApart(out + [SimpleMatch(pattern)])
    ensures AllApart(out[..|out| - 1] + [SimpleMatch(q)])
  {
    var n := |out| - 1;
    var init, prev := out[..n], out[n];
    assert out == init + [prev];
    ApartSnoc(out, SimpleMatch(pattern));
    ApartSnoc(init, prev);
    ApartFromSnoc(init, prev, SimpleMatch(pattern));
    forall i | 0 <= i < n ensures Apart(init[i], SimpleMatch(q)) {
      ApartJoin(prev.pattern, pattern, q, init[i]);
    }
    ApartSnoc(init, SimpleMatch(q));
  }

  lemma {:induction false} MergeUpApart(out: seq<MatchStatement>, pattern: PathPattern, pending: seq<Expr>,
                                        m: MatchStatement)
    requires ApartFrom(out, m) && Apart(SimpleMatch(pattern), m)
    ensures var (out', pattern', rest) := MergeUp(out, pattern, pending);
      ApartFrom(out', m) && Apart(SimpleMatch(pattern'), m)
    decreases |out|
  {
    if pending != [] && CanMerge(out, pattern) {
      var n := |out| - 1;
      var node := Join(out[n].pattern, pattern);
      PlaceKeepsShape(node, pending, node);
      ApartJoin(out[n].pattern, pattern, Place(node, pending).0, m);
      MergeUpApart(out[..n], Place(node, pending).0, Place(node, pending).1, m);
    }
  }

  /** A clause apart from everything written is apart from everything hoisted. */
  lemma {:induction false} HoistAllApart(ms: seq<MatchStatement>, m: MatchStatement)
    requires ApartFrom(ms, m)
    ensures ApartFrom(HoistAll(ms), m)
  {
    if ms != [] {
      var n := |ms| - 1;
      var p := ms[n].pattern;
      HoistAllApart(ms[..n], m);
      var out := HoistAll(ms[..n]);
      assert Apart(ms[n], m);
      if ms[n].OptionalMatch? {
        SealedKeepsShape(p);
        ApartSame(Sealed(p), p, m);
        ApartFromSnoc(out, OptionalMatch(Sealed(p)), m);
      } else {
        HoistKeepsShape(p);
        var (q, pending) := HoistPattern(p);
        ApartSame(q, p, m);
        MergeUpApart(out, q, pending, m);
        var (out', q', rest) := MergeUp(out, q, pending);
        FoldShape(q', rest);
        ApartSame(FoldFilters(q', rest), q', m);
        ApartFromSnoc(out', SimpleMatch(FoldFilters(q', rest)), m);
      }
    }
  }

  // ---------------------------------------------------------------- the table under merging

  /** The working table once `pattern` has joined the clauses in `out`. */
  function TableWith(env: Env, out: seq<MatchStatement>, pattern: PathPattern): seq<Row> {
    if out == [] then Rows(env, Forbidden, pattern)
    else NatJoin(Chain(env, out), Rows(env, Forbidden, pattern))
  }

  lemma CloseTable(env: Env, out: seq<MatchStatement>, pattern: PathPattern)
    requires Picks(env) && AllApart(out + [SimpleMatch(pattern)])
    ensures Chain(env, out + [SimpleMatch(pattern)]) == TableWith(env, out, pattern)
  {
    var all := out + [SimpleMatch(pattern)];
    assert all[..|out|] == out;
    if out != [] {
      ChainSimple(env, all);
    }
  }

  /** Absorbing the last clause does not change the table. */
  lemma AbsorbTable(env: Env, out: seq<MatchStatement>, pattern: PathPattern)
    requires Picks(env) && out != [] && out[|out| - 1].SimpleMatch?
    requires AllApart(out + [SimpleMatch(pattern)])
    ensures TableWith(env, out, pattern) == TableWith(env, out[..|out| - 1], Join(out[|out| - 1].pattern, pattern))
  {
    var n := |out| - 1;
    var init, prev := out[..n], out[n].pattern;
    ApartSnoc(out, SimpleMatch(pattern));
    assert Apart(out[n], SimpleMatch(pattern));
    CommaJoinIsNatural(env, prev, pattern);
    if n > 0 {
      ChainSimple(env, out);
      NatJoinRegroups(Chain(env, init), Rows(env, Forbidden, prev), Rows(env, Forbidden, pattern));
    } else {
      assert out == [out[0]];
    }
  }

  /** Filters over variables that `pattern` is sure to bind may run before or after the join. */
  lemma FilterTable(env: Env, out: seq<MatchStatement>, pattern: PathPattern, q: PathPattern, es: seq<Expr>)
    requires AllApart(out + [SimpleMatch(pattern)])
    requires Rows(env, Forbidden, q) == FilterSeq(Rows(env, Forbidden, pattern), AllTest(env, es))
    requires forall e :: e in es ==> Reads(e) * TableDecl(out) <= Declared(pattern)
    ensures TableWith(env, out, q) == FilterSeq(TableWith(env, out, pattern), AllTest(env, es))
  {
    if out != [] {
      var all := out + [SimpleMatch(pattern)];
      assert all[..|out|] == out;
      LastClauseApart(all);
      ApartSnoc(out, SimpleMatch(pattern));
      ChainBinds(env, out);
      RowsBind(env, Forbidden, pattern);
      forall e | e in es ensures Reads(e) * TableDecl(out) <= Sure(pattern) {
        assert Reads(e) * TableDecl(out) <= TableDecl(out) * Declared(pattern);
      }
      UnifiedSeenRight(Chain(env, out), Rows(env, Forbidden, pattern), Unifies, JoinMerge, es,
                       TableDecl(out), Sure(pattern), Declared(pattern));
      FiltersOnRight(env, Chain(env, out), Rows(env, Forbidden, pattern), Unifies, JoinMerge, es);
    }
  }

  /** No subquery of a pending filter mentions an outer variable that the pattern does not declare. */
  ghost predicate SubqueriesLocal(es: seq<Expr>, decl: set<string>, own: set<string>) {
    forall e :: e in es ==> SubqueryVars(e) * decl <= own
  }

  /** What one turn of the merge loop leaves: a clause with the same variables as the join. */
  lemma MergeTurnScope(out: seq<MatchStatement>, pattern: PathPattern, pending: seq<Expr>, q: PathPattern,
                       rest: seq<Expr>)
    requires CanMerge(out, pattern) && AllApart(out + [SimpleMatch(pattern)])
    requires (q, rest) == Place(Join(out[|out| - 1].pattern, pattern), pending)
    requires SubqueriesLocal(pending, TableDecl(out), Declared(pattern))
    ensures var init := out[..|out| - 1];
      var node := Join(out[|out| - 1].pattern, pattern);
      && SameVars(q, node)
      && (forall e :: e in rest ==> e in pending)
      && AllApart(init + [SimpleMatch(q)])
      && AllApart(init + [SimpleMatch(node)])
      && SubqueriesLocal(pending, TableDecl(init), Declared(node))
      && SubqueriesLocal(rest, TableDecl(init), Declared(node))
      && TableDecl(init) + Declared(q) == TableDecl(out) + Declared(pattern)
      && BoundVars(init) + FreeVars(q) == BoundVars(out) + FreeVars(pattern)
  {
    var node := Join(out[|out| - 1].pattern, pattern);
    PlaceKeepsShape(node, pending, node);
    TurnVars(out, pattern);
    StillLocal(pending, TableDecl(out), Declared(pattern), TableDecl(out[..|out| - 1]), Declared(node));
    AbsorbApart(out, pattern, q);
    AbsorbApart(out, pattern, node);
    SplitSound(pending, Declared(node));
  }

  lemma TurnVars(out: seq<MatchStatement>, pattern: PathPattern)
    requires out != []
    ensures var init, node := out[..|out| - 1], Join(out[|out| - 1].pattern, pattern);
      && Declared(pattern) <= Declared(node) && TableDecl(init) <= TableDecl(out)
      && TableDecl(init) + Declared(node) == TableDecl(out) + Declared(pattern)
      && BoundVars(init) + FreeVars(node) == BoundVars(out) + FreeVars(pattern)
  {
  }

  /** Against a smaller table and on a larger pattern subqueries stay local. */
  lemma StillLocal(es: seq<Expr>, decl: set<string>, own: set<string>, less: set<string>, more: set<string>)
    requires SubqueriesLocal(es, decl, own) && less <= decl && own <= more
    ensures SubqueriesLocal(es, less, more)
  {
    forall e | e in es ensures SubqueryVars(e) * less <= more {
      assert SubqueryVars(e) * decl <= own;
    }
  }

  /** The filters hosted by the join act on its table, the others stay pending. */
  lemma MergeTurnRows(env: Env, init: seq<MatchStatement>, node: PathPattern, q: PathPattern, pending: seq<Expr>,
                      rest: seq<Expr>)
    requires AllApart(init + [SimpleMatch(node)])
    requires (q, rest) == Place(node, pending)
    requires SubqueriesLocal(pending, TableDecl(init), Declared(node))
    ensures FilterSeq(TableWith(env, init, q), AllTest(env, rest))
         == FilterSeq(TableWith(env, init, node), AllTest(env, pending))
  {
    var here := PlaceRows(env, Forbidden, node, pending);
    SplitSound(pending, Declared(node));
    forall e | e in here ensures Reads(e) * TableDecl(init) <= Declared(node) {
      assert SubqueryVars(e) * TableDecl(init) <= Declared(node);
    }
    FilterTable(env, init, node, q, here);
    FilterTwice(env, TableWith(env, init, node), here, rest, pending);
  }

  lemma {:induction false} MergeUpScope(out: seq<MatchStatement>, pattern: PathPattern, pending: seq<Expr>)
    requires AllApart(out + [SimpleMatch(pattern)])
    requires SubqueriesLocal(pending, TableDecl(out), Declared(pattern))
    ensures var (out', q, rest) := MergeUp(out, pattern, pending);
      && AllApart(out' + [SimpleMatch(q)])
      && BoundVars(out') + FreeVars(q) == BoundVars(out) + FreeVars(pattern)
      && TableDecl(out') + Declared(q) == TableDecl(out) + Declared(pattern)
    decreases |out|
  {
    if pending != [] && CanMerge(out, pattern) {
      var (q, rest) := Place(Join(out[|out| - 1].pattern, pattern), pending);
      MergeTurnScope(out, pattern, pending, q, rest);
      MergeUpScope(out[..|out| - 1], q, rest);
    }
  }

  lemma {:induction false} MergeUpTable(env: Env, out: seq<MatchStatement>, pattern: PathPattern, pending: seq<Expr>)
    requires Picks(env) && AllApart(out + [SimpleMatch(pattern)])
    requires SubqueriesLocal(pending, TableDecl(out), Declared(pattern))
    ensures var (out', q, rest) := MergeUp(out, pattern, pending);
      FilterSeq(TableWith(env, out', q), AllTest(env, rest))
        == FilterSeq(TableWith(env, out, pattern), AllTest(env, pending))
    decreases |out|
  {
    if pending != [] && CanMerge(out, pattern) {
      var node := Join(out[|out| - 1].pattern, pattern);
      var (q, rest) := Place(node, pending);
      MergeTurnScope(out, pattern, pending, q, rest);
      AbsorbTable(env, out, pattern);
      MergeTurnRows(env, out[..|out| - 1], node, q, pending, rest);
      MergeUpTable(env, out[..|out| - 1], q, rest);
    }
  }

  // ---------------------------------------------------------------- the theorem

  /** What is known after hoisting a prefix of the chain. */
  ghost predicate Exact(env: Env, ms: seq<MatchStatement>) {
    var out := HoistAll(ms);
    && out != [] && ms != []
    && AllApart(out)
    && BoundVars(out) == BoundVars(ms)
    && TableDecl(out) == TableDecl(ms)
    && Chain(env, out) == SpecChain(env, ms)
  }

  /** A clause that declares what its filters read of the table may run them before the join. */
  lemma ClosedTable(env: Env, out: seq<MatchStatement>, q: PathPattern, rest: seq<Expr>)
    requires Picks(env) && AllApart(out + [SimpleMatch(q)])
    requires forall e :: e in rest ==> Reads(e) * TableDecl(out) <= Declared(q)
    ensures var closed := FoldFilters(q, rest);
      && AllApart(out + [SimpleMatch(closed)])
      && FreeVars(closed) == FreeVars(q) && Declared(closed) == Declared(q)
      && TableWith(env, out, closed) == FilterSeq(TableWith(env, out, q), AllTest(env, rest))
  {
    FoldShape(q, rest);
    RowsFold(env, Forbidden, q, rest);
    FilterTable(env, out, q, FoldFilters(q, rest), rest);
    ApartSnoc(out, SimpleMatch(q));
    ApartFromSame(out, q, FoldFilters(q, rest));
    ApartSnoc(out, SimpleMatch(FoldFilters(q, rest)));
  }

  /** Filters left without a host read nothing of the table but what their clause declares. */
  lemma UnplacedLocal(ms: seq<MatchStatement>, p: PathPattern)
    requires InReach(ms, p) && Hidden(p) * TableDecl(ms) <= Declared(p)
    ensures var (out', q, rest) := MergeClause(HoistAll(ms), p);
      Declared(p) <= Declared(q) && forall e :: e in rest ==> Reads(e) * TableDecl(ms) <= Declared(q)
  {
    var (out', q, rest) := MergeClause(HoistAll(ms), p);
    SimpleStep(HoistAll(ms), p);
    if rest != [] {
      UnplacedReach(ms, p);
    }
    forall e | e in rest ensures Reads(e) * TableDecl(ms) <= Declared(q) {
      BeyondMember(Collected(p), Declared(q), e);
      CollectedHidden(p, e);
      assert SubqueryVars(e) * TableDecl(ms) <= Declared(p);
    }
  }

  /** Simple clause: its filters, wherever they end up, act on the joined table. */
  lemma SimpleClauseTable(env: Env, ms: seq<MatchStatement>, out: seq<MatchStatement>, p: PathPattern)
    requires Picks(env) && WellScoped(p) && out == HoistAll(ms) && TableDecl(out) == TableDecl(ms)
    requires AllApart(out + [SimpleMatch(p)])
    requires Hidden(p) * TableDecl(ms) <= Declared(p) && InReach(ms, p)
    ensures var (out', q, rest) := MergeClause(out, p);
      var closed := FoldFilters(q, rest);
      && AllApart(out' + [SimpleMatch(closed)])
      && BoundVars(out') + FreeVars(closed) == BoundVars(out) + FreeVars(p)
      && TableDecl(out') + Declared(closed) == TableDecl(out) + Declared(p)
      && TableWith(env, out', closed) == FilterSeq(TableWith(env, out, Bare(p)), AllTest(env, Collected(p)))
  {
    var (out', q, rest) := MergeClause(out, p);
    MergedClauseTable(env, out, p);
    UnplacedLocal(ms, p);
    forall e | e in rest ensures Reads(e) * TableDecl(out') <= Declared(q) {
      assert Reads(e) * TableDecl(out') <= Reads(e) * TableDecl(ms) + Declared(p);
    }
    ClosedTable(env, out', q, rest);
  }

  lemma MergedClauseTable(env: Env, out: seq<MatchStatement>, p: PathPattern)
    requires Picks(env) && WellScoped(p)
    requires AllApart(out + [SimpleMatch(p)])
    requires Hidden(p) * TableDecl(out) <= Declared(p)
    ensures var (out', q, rest) := MergeClause(out, p);
      && AllApart(out' + [SimpleMatch(q)])
      && BoundVars(out') + FreeVars(q) == BoundVars(out) + FreeVars(p)
      && TableDecl(out') + Declared(q) == TableDecl(out) + Declared(p)
      && FilterSeq(TableWith(env, out', q), AllTest(env, rest))
         == FilterSeq(TableWith(env, out, Bare(p)), AllTest(env, Collected(p)))
  {
    var (start, pending) := HoistPattern(p);
    HoistKeepsShape(p);
    BareKeepsVars(p);
    var placed := HoistedRows(env, Forbidden, p);
    ApartSnoc(out, SimpleMatch(p));
    ApartFromSame(out, p, start);
    ApartSnoc(out, SimpleMatch(start));
    ApartFromSame(out, p, Bare(p));
    ApartSnoc(out, SimpleMatch(Bare(p)));
    forall e | e in pending || e in placed ensures SubqueryVars(e) * TableDecl(out) <= Declared(p) {
      CollectedHidden(p, e);
    }
    MergeUpScope(out, start, pending);
    MergeUpTable(env, out, start, pending);
    FilterTable(env, out, Bare(p), start, placed);
    FilterTwice(env, TableWith(env, out, Bare(p)), placed, pending, Collected(p));
  }

  lemma SnocVars(ms: seq<MatchStatement>, m: MatchStatement)
    ensures BoundVars(ms + [m]) == BoundVars(ms) + FreeVars(m.pattern)
    ensures TableDecl(ms + [m]) == TableDecl(ms) + Declared(m.pattern)
  {
    assert (ms + [m])[..|ms|] == ms;
  }

  lemma PrefixScoped(ms: seq<MatchStatement>)
    requires ms != [] && ChainScoped(ms) && ReachesAll(ms)
    ensures var n := |ms| - 1;
      && ChainScoped(ms[..n]) && ReachesAll(ms[..n]) && ApartFrom(ms[..n], ms[n])
      && ClauseScoped(ms[n], ms[..n])
      && (ms[n].SimpleMatch? ==> InReach(ms[..n], ms[n].pattern))
  {
    var n := |ms| - 1;
    assert forall i :: 0 <= i < n ==> ms[..n][..i] == ms[..i];
    assert ms == ms[..n] + [ms[n]];
    ApartSnoc(ms[..n], ms[n]);
  }

  lemma {:induction false} HoistOptionalExact(env: Env, ms: seq<MatchStatement>)
    requires Picks(env) && ms != [] && ChainScoped(ms) && ReachesAll(ms) && ms[|ms| - 1].OptionalMatch?
    requires |ms| > 1 ==> Exact(env, ms[..|ms| - 1])
    ensures Exact(env, ms)
  {
    var n := |ms| - 1;
    var p := ms[n].pattern;
    var out := HoistAll(ms[..n]);
    PrefixScoped(ms);
    SealedKeepsShape(p);
    HoistAllApart(ms[..n], ms[n]);
    ApartFromSame(out, p, Sealed(p));
    ApartSnoc(out, OptionalMatch(Sealed(p)));
    SnocVars(out, OptionalMatch(Sealed(p)));
    assert HoistAll(ms) == out + [OptionalMatch(Sealed(p))];
    assert (out + [OptionalMatch(Sealed(p))])[..|out|] == out;
    if n == 0 {
      assert ms[..n] == [];
      SealedExact(env, Forbidden, p);
    } else {
      ChainBinds(env, out);
      OptionalClauseExact(env, Chain(env, out), p, BoundVars(out), TableSure(out), TableDecl(out));
    }
  }

  lemma {:induction false} HoistSimpleExact(env: Env, ms: seq<MatchStatement>)
    requires Picks(env) && ms != [] && ChainScoped(ms) && ReachesAll(ms) && ms[|ms| - 1].SimpleMatch?
    requires |ms| > 1 ==> Exact(env, ms[..|ms| - 1])
    ensures Exact(env, ms)
  {
    var n := |ms| - 1;
    var p := ms[n].pattern;
    var out := HoistAll(ms[..n]);
    PrefixScoped(ms);
    HoistAllApart(ms[..n], ms[n]);
    ApartSnoc(out, ms[n]);
    if n == 0 {
      assert ms[..n] == [];
    }
    SimpleClauseTable(env, ms[..n], out, p);
    var (out', q, rest) := MergeClause(out, p);
    var closed := FoldFilters(q, rest);
    assert HoistAll(ms) == out' + [SimpleMatch(closed)];
    CloseTable(env, out', closed);
    SnocVars(out', SimpleMatch(closed));
    FilteredTable(env, ms, out);
  }

  /** The filtered join of a simple clause is what the standard asks for. */
  lemma FilteredTable(env: Env, ms: seq<MatchStatement>, out: seq<MatchStatement>)
    requires ms != [] && ms[|ms| - 1].SimpleMatch?
    requires if |ms| == 1 then out == [] else out != [] && Chain(env, out) == SpecChain(env, ms[..|ms| - 1])
    ensures var p := ms[|ms| - 1].pattern;
      SpecChain(env, ms) == FilterSeq(TableWith(env, out, Bare(p)), AllTest(env, Collected(p)))
  {
    var p := ms[|ms| - 1].pattern;
    if |ms| == 1 {
      RowsFold(env, Forbidden, Bare(p), Collected(p));
    }
  }

  lemma {:induction false} HoistAllExact(env: Env, ms: seq<MatchStatement>)
    requires Picks(env) && ms != [] && ChainScoped(ms) && ReachesAll(ms)
    ensures Exact(env, ms)
    decreases |ms|
  {
    if |ms| > 1 {
      PrefixScoped(ms);
      HoistAllExact(env, ms[..|ms| - 1]);
    }
    if ms[|ms| - 1].OptionalMatch? {
      HoistOptionalExact(env, ms);
    } else {
      HoistSimpleExact(env, ms);
    }
  }

  /** Clause merging preserves the query: run as the engine runs it, the hoisted chain computes the
      table of the chain that was written, each filter reading the working table of its clause. */
  lemma HoistedQueryExact(env: Env, ms: seq<MatchStatement>)
    requires Picks(env) && ms != [] && ChainScoped(ms) && ReachesAll(ms)
    ensures HoistAll(ms) != [] && RunMatchChain(env, HoistAll(ms)) == SpecChain(env, ms)
  {
    HoistAllExact(env, ms);
    if Collapsible(HoistAll(ms)) {
      CollapsedIsChain(env, HoistAll(ms));
    }
  }
}
