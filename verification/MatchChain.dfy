/** The chain of MATCH clauses: the working table flows from one clause to the next. */
module MatchChain {
  import opened Values
  import opened Syntax
  import opened RowAlgebra
  import opened Runtime
  import opened Evaluator
  import opened Scoping
  import opened Hoist
  import opened HoistRows

  // ---------------------------------------------------------------- running a chain

  function FirstKeys(rows: seq<Row>): set<string> {
    if rows == [] then {} else rows[0].mu.Keys
  }

  /** `natural_join`: the shared names are read off the first row of each side. */
  function NaturalJoin(env: Env, left: seq<Row>, right: seq<Row>): seq<Row> {
    PairAll(left, right, JoinTest(env, FirstKeys(left) * FirstKeys(right)), JoinMerge)
  }

  function FilterRefs(es: seq<Expr>): set<string> {
    set e, x | e in es && x in Referenced(e) :: x
  }

  /** `optional_correlation_vars` is non-empty: a predicate of the clause reads a variable that an
      earlier clause bound and this one does not declare. */
  predicate Correlated(p: PathPattern, bound: set<string>) {
    && (forall e :: e in AllFilters(p) ==> !HasSubquery(e))
    && (FilterRefs(AllFilters(p)) - FreeVars(p)) * bound != {}
  }

  function Padded(outer: Row, pad: set<string>): Row {
    Row(outer.paths, outer.mu + map x | x in pad :: Nothing)
  }

  /** An outer row that found no match is kept, its new element variables bound to Nothing. */
  function OrPadded(outer: Row, matched: seq<Row>, pad: set<string>): seq<Row> {
    if matched == [] then [Padded(outer, pad)] else matched
  }

  /** The environment in which the bindings of an outer row are ambient. */
  function Beside(env: Env, outer: Assignment): Env {
    env.(ambient := env.ambient + outer)
  }

  function OptionalStep(env: Env, p: PathPattern, bound: set<string>): Row -> seq<Row> {
    (outer: Row) =>
      var inner := Rows(if Correlated(p, bound) then Beside(env, outer.mu) else env, Forbidden, p);
      OrPadded(outer, PairOne(outer, inner, Unifies, JoinMerge), FreeVars(p) - bound)
  }

  function ExtendTable(env: Env, table: seq<Row>, bound: set<string>, m: MatchStatement): seq<Row> {
    match m
    case SimpleMatch(p) => NaturalJoin(env, table, Rows(env, Forbidden, p))
    case OptionalMatch(p) => FlatMap(table, OptionalStep(env, p, bound))
  }

  function BoundVars(ms: seq<MatchStatement>): set<string> {
    if ms == [] then {} else BoundVars(ms[..|ms| - 1]) + FreeVars(ms[|ms| - 1].pattern)
  }

  /** The clause-by-clause evaluation; the first clause is evaluated as it stands. */
  function Chain(env: Env, ms: seq<MatchStatement>): seq<Row>
    requires ms != []
  {
    var n := |ms| - 1;
    if n == 0 then Rows(env, Forbidden, ms[0].pattern)
    else ExtendTable(env, Chain(env, ms[..n]), BoundVars(ms[..n]), ms[n])
  }

  /** All-simple chains without prefixes run as one comma join. */
  function Collapsed(ms: seq<MatchStatement>): PathPattern
    requires ms != []
  {
    var n := |ms| - 1;
    if n == 0 then ms[0].pattern else Join(Collapsed(ms[..n]), ms[n].pattern)
  }

  predicate Collapsible(ms: seq<MatchStatement>) {
    forall m :: m in ms ==> m.SimpleMatch? && !HasSelected(m.pattern)
  }

  function RunMatchChain(env: Env, ms: seq<MatchStatement>): seq<Row>
    requires ms != []
  {
    if Collapsible(ms) then Rows(env, Forbidden, Collapsed(ms)) else Chain(env, ms)
  }

  // ---------------------------------------------------------------- the standard's reading

  /** ISO/IEC 39075:2024 section 14.3, OPTIONAL: the left join of a row of the working table with the
      clause.  The filters of the clause see the joined row; those of its inner scopes see their own
      row and, around it, the outer one. */
  function LeftJoinStep(env: Env, p: PathPattern, bound: set<string>): Row -> seq<Row> {
    (outer: Row) =>
      var joined := PairOne(outer, Rows(Beside(env, outer.mu), Forbidden, Bare(p)), Unifies, JoinMerge);
      OrPadded(outer, FilterSeq(joined, AllTest(env, Collected(p))), FreeVars(p) - bound)
  }

  /** ISO/IEC 39075:2024 section 14.3: the filters of a clause see the working table joined with the
      clause.  A first clause has no table before it. */
  function SpecChain(env: Env, ms: seq<MatchStatement>): seq<Row>
    requires ms != []
  {
    var n := |ms| - 1;
    var p := ms[n].pattern;
    if n == 0 then Rows(env, Forbidden, Deferred(p))
    else if ms[n].OptionalMatch? then FlatMap(SpecChain(env, ms[..n]), LeftJoinStep(env, p, BoundVars(ms[..n])))
    else FilterSeq(NatJoin(SpecChain(env, ms[..n]), Rows(env, Forbidden, Bare(p))), AllTest(env, Collected(p)))
  }

  // ---------------------------------------------------------------- scoping of a chain

  /** A padded row binds element variables only. */
  function ClauseSure(m: MatchStatement): set<string> {
    if m.OptionalMatch? then Sure(m.pattern) * FreeVars(m.pattern) else Sure(m.pattern)
  }

  /** Two clauses share only variables that each is sure to bind, and never path variables alone. */
  predicate Apart(m1: MatchStatement, m2: MatchStatement) {
    && Declared(m1.pattern) * Declared(m2.pattern) <= ClauseSure(m1) * ClauseSure(m2)
    && (FreeVars(m1.pattern) * FreeVars(m2.pattern) == {} ==> Declared(m1.pattern) * Declared(m2.pattern) == {})
  }

  predicate AllApart(ms: seq<MatchStatement>) {
    forall i, j :: 0 <= i < j < |ms| ==> Apart(ms[i], ms[j])
  }

  function TableSure(ms: seq<MatchStatement>): set<string> {
    if ms == [] then {} else TableSure(ms[..|ms| - 1]) + ClauseSure(ms[|ms| - 1])
  }

  function TableDecl(ms: seq<MatchStatement>): set<string> {
    if ms == [] then {} else TableDecl(ms[..|ms| - 1]) + Declared(ms[|ms| - 1].pattern)
  }

  // ---------------------------------------------------------------- every join is the natural join

  lemma {:induction false} PairNothing(xs: seq<Row>, c: (Row, Row) -> bool, m: (Row, Row) -> Row)
    ensures PairAll(xs, [], c, m) == []
  {
    if xs != [] {
      PairNothing(xs[1..], c, m);
    }
  }

  type Pairing = seq<(nat, nat)>

  /** `pairs` runs through the left rows and, for each, through the right rows, and lists exactly the
      pairs of rows that agree where both bind a variable; `out` is what they make together. */
  ghost predicate JoinsListed(xs: seq<Row>, ys: seq<Row>, pairs: Pairing, out: seq<Row>) {
    && (forall a, b :: 0 <= a < b < |pairs| ==>
          pairs[a].0 < pairs[b].0 || (pairs[a].0 == pairs[b].0 && pairs[a].1 < pairs[b].1))
    && (forall i: nat, j: nat :: (i, j) in pairs <==> i < |xs| && j < |ys| && Agree(xs[i], ys[j]))
    && |out| == |pairs|
    && (forall a :: 0 <= a < |pairs| ==>
          && pairs[a].0 < |xs| && pairs[a].1 < |ys|
          && out[a].paths == xs[pairs[a].0].paths + ys[pairs[a].1].paths
          && out[a].mu == xs[pairs[a].0].mu + ys[pairs[a].1].mu)
  }

  predicate Agree(x: Row, y: Row) {
    forall k :: k in x.mu && k in y.mu ==> x.mu[k] == y.mu[k]
  }

  function WithLeft(idx: seq<nat>): (r: Pairing)
    ensures |r| == |idx| && forall a :: 0 <= a < |idx| ==> r[a] == (0, idx[a])
  {
    seq(|idx|, a requires 0 <= a < |idx| => (0, idx[a]))
  }

  function NextLeft(pairs: Pairing): (r: Pairing)
    ensures |r| == |pairs| && forall a :: 0 <= a < |pairs| ==> r[a] == (pairs[a].0 + 1, pairs[a].1)
  {
    seq(|pairs|, a requires 0 <= a < |pairs| => (pairs[a].0 + 1, pairs[a].1))
  }

  lemma PairingMember(idx: seq<nat>, later: Pairing, i: nat, j: nat)
    ensures (i, j) in WithLeft(idx) + NextLeft(later) <==> if i == 0 then j in idx else (i - 1, j) in later
  {
    var all := WithLeft(idx) + NextLeft(later);
    if (i, j) in all {
      var a :| 0 <= a < |all| && all[a] == (i, j);
      assert a < |idx| || later[a - |idx|] == (i - 1, j);
    }
    if i == 0 && j in idx {
      var a :| 0 <= a < |idx| && idx[a] == j;
      assert all[a] == (0, j);
    }
    if i > 0 && (i - 1, j) in later {
      var a :| 0 <= a < |later| && later[a] == (i - 1, j);
      assert all[|idx| + a] == (i, j);
    }
  }

  /** The natural join, row by row. */
  lemma {:induction false} NatJoinRows(xs: seq<Row>, ys: seq<Row>) returns (pairs: Pairing)
    ensures JoinsListed(xs, ys, pairs, NatJoin(xs, ys))
  {
    if xs == [] {
      pairs := [];
    } else {
      var later := NatJoinRows(xs[1..], ys);
      var idx := PairPositions(xs[0], ys, Unifies, JoinMerge, (r: Row) => true);
      FilterAllPass(PairOne(xs[0], ys, Unifies, JoinMerge), (r: Row) => true);
      pairs := WithLeft(idx) + NextLeft(later);
      JoinsCons(xs, ys, idx, later, PairOne(xs[0], ys, Unifies, JoinMerge), NatJoin(xs[1..], ys));
    }
  }

  lemma JoinsCons(xs: seq<Row>, ys: seq<Row>, idx: seq<nat>, later: Pairing, now: seq<Row>, rest: seq<Row>)
    requires xs != [] && JoinsListed(xs[1..], ys, later, rest)
    requires forall a, b :: 0 <= a < b < |idx| ==> idx[a] < idx[b]
    requires forall j: nat :: j in idx <==> j < |ys| && Agree(xs[0], ys[j])
    requires |now| == |idx| && forall a :: 0 <= a < |idx| ==> idx[a] < |ys| && now[a] == JoinMerge(xs[0], ys[idx[a]])
    ensures JoinsListed(xs, ys, WithLeft(idx) + NextLeft(later), now + rest)
  {
    PairsCons(xs, ys, idx, later);
    var pairs := WithLeft(idx) + NextLeft(later);
    forall a | 0 <= a < |pairs|
      ensures pairs[a].0 < |xs| && pairs[a].1 < |ys| && (now + rest)[a] == JoinMerge(xs[pairs[a].0], ys[pairs[a].1])
    {
      if a >= |idx| {
        assert pairs[a] == (later[a - |idx|].0 + 1, later[a - |idx|].1);
        assert xs[1..][later[a - |idx|].0] == xs[pairs[a].0];
      }
    }
  }

  lemma PairsCons(xs: seq<Row>, ys: seq<Row>, idx: seq<nat>, later: Pairing)
    requires xs != []
    requires forall i: nat, j: nat :: (i, j) in later <==> i < |xs[1..]| && j < |ys| && Agree(xs[1..][i], ys[j])
    requires forall j: nat :: j in idx <==> j < |ys| && Agree(xs[0], ys[j])
    ensures forall i: nat, j: nat ::
      (i, j) in WithLeft(idx) + NextLeft(later) <==> i < |xs| && j < |ys| && Agree(xs[i], ys[j])
  {
    forall i: nat, j: nat
      ensures (i, j) in WithLeft(idx) + NextLeft(later) <==> i < |xs| && j < |ys| && Agree(xs[i], ys[j])
    {
      PairingMember(idx, later, i, j);
      if i > 0 {
        assert (i - 1, j) in later <==> i - 1 < |xs[1..]| && j < |ys| && Agree(xs[1..][i - 1], ys[j]);
      }
    }
  }

  /** Joining on one arbitrary shared name and unifying is the natural join, provided all rows bind
      the shared names. */
  lemma KeyedJoinIsNatural(env: Env, xs: seq<Row>, ys: seq<Row>, shared: set<string>,
                           sure: set<string>, decl: set<string>, sure': set<string>, decl': set<string>)
    requires Picks(env) && Binds(xs, sure, decl) && Binds(ys, sure', decl')
    requires shared <= sure * sure'
    requires shared == {} ==> decl * decl' == {}
    ensures PairAll(xs, ys, JoinTest(env, shared), JoinMerge) == NatJoin(xs, ys)
  {
    forall x, y | x in xs && y in ys ensures JoinTest(env, shared)(x, y) == Unifies(x, y) {
      if shared == {} {
        assert x.mu.Keys * y.mu.Keys <= decl * decl';
        assert forall k :: k in x.mu && k in y.mu ==> k in x.mu.Keys * y.mu.Keys;
      } else {
        assert env.pick(shared) in sure * sure';
      }
    }
    PairCongruence(xs, ys, JoinTest(env, shared), JoinMerge, Unifies, JoinMerge);
  }

  lemma NaturalJoinIsNatural(env: Env, xs: seq<Row>, ys: seq<Row>,
                             sure: set<string>, decl: set<string>, sure': set<string>, decl': set<string>)
    requires Picks(env) && Binds(xs, sure, decl) && Binds(ys, sure', decl')
    requires decl * decl' <= sure * sure'
    ensures NaturalJoin(env, xs, ys) == NatJoin(xs, ys)
  {
    if xs == [] {
    } else if ys == [] {
      PairNothing(xs, JoinTest(env, FirstKeys(xs) * FirstKeys(ys)), JoinMerge);
      PairNothing(xs, Unifies, JoinMerge);
    } else {
      assert xs[0] in xs && ys[0] in ys;
      var shared := FirstKeys(xs) * FirstKeys(ys);
      assert shared <= decl * decl';
      assert sure * sure' <= shared;
      KeyedJoinIsNatural(env, xs, ys, shared, sure, decl, sure', decl');
    }
  }

  /** `MATCH A MATCH B` and `MATCH A, B` are the same natural join. */
  lemma CommaJoinIsNatural(env: Env, a: PathPattern, b: PathPattern)
    requires Picks(env) && Apart(SimpleMatch(a), SimpleMatch(b))
    ensures Rows(env, Forbidden, Join(a, b)) == NatJoin(Rows(env, Forbidden, a), Rows(env, Forbidden, b))
  {
    RowsBind(env, Forbidden, a);
    RowsBind(env, Forbidden, b);
    RowsOfJoin(env, Forbidden, a, b, FreeVars(a) * FreeVars(b));
    KeyedJoinIsNatural(env, Rows(env, Forbidden, a), Rows(env, Forbidden, b), FreeVars(a) * FreeVars(b),
                       Sure(a), Declared(a), Sure(b), Declared(b));
  }

  lemma NatJoinAssociative()
    ensures Associative(Unifies, JoinMerge)
  {
    forall x: Row, y: Row, z: Row
      ensures Unifies(x, y) ==> (Unifies(JoinMerge(x, y), z) <==> Unifies(y, z) && Unifies(x, JoinMerge(y, z)))
      ensures !Unifies(x, y) && Unifies(y, z) ==> !Unifies(x, JoinMerge(y, z))
      ensures Unifies(x, y) && Unifies(y, z) ==> JoinMerge(JoinMerge(x, y), z) == JoinMerge(x, JoinMerge(y, z))
    {
      UnifyAssociative(x, y, z);
    }
  }

  lemma UnifyAssociative(x: Row, y: Row, z: Row)
    ensures Unifies(x, y) ==> (Unifies(JoinMerge(x, y), z) <==> Unifies(y, z) && Unifies(x, JoinMerge(y, z)))
    ensures !Unifies(x, y) && Unifies(y, z) ==> !Unifies(x, JoinMerge(y, z))
    ensures JoinMerge(JoinMerge(x, y), z) == JoinMerge(x, JoinMerge(y, z))
  {
    assert (x.mu + y.mu) + z.mu == x.mu + (y.mu + z.mu);
    assert (x.paths + y.paths) + z.paths == x.paths + (y.paths + z.paths);
    if Unifies(x, y) && Unifies(JoinMerge(x, y), z) {
      forall k | k in y.mu && k in z.mu ensures y.mu[k] == z.mu[k] {
        assert k in (x.mu + y.mu);
      }
      forall k | k in x.mu && k in (y.mu + z.mu) ensures x.mu[k] == (y.mu + z.mu)[k] {
        assert k in (x.mu + y.mu);
      }
    }
    if Unifies(x, y) && Unifies(y, z) && Unifies(x, JoinMerge(y, z)) {
      forall k | k in (x.mu + y.mu) && k in z.mu ensures (x.mu + y.mu)[k] == z.mu[k] {
        assert k in (y.mu + z.mu);
      }
    }
    if !Unifies(x, y) && Unifies(y, z) {
      var k :| k in x.mu && k in y.mu && x.mu[k] != y.mu[k];
      assert k in (y.mu + z.mu) && (y.mu + z.mu)[k] == y.mu[k];
    }
  }

  /** Three clauses may be joined in either grouping. */
  lemma NatJoinRegroups(xs: seq<Row>, ys: seq<Row>, zs: seq<Row>)
    ensures NatJoin(NatJoin(xs, ys), zs) == NatJoin(xs, NatJoin(ys, zs))
  {
    NatJoinAssociative();
    PairAssoc(xs, ys, zs, Unifies, JoinMerge);
  }

  // ---------------------------------------------------------------- what a table binds

  lemma OptionalRowBinds(outer: Row, inner: seq<Row>, p: PathPattern, bound: set<string>, sure: set<string>,
                         decl: set<string>, r: Row)
    requires sure <= outer.mu.Keys <= decl && Binds(inner, Sure(p), Declared(p))
    requires FreeVars(p) * bound <= sure
    requires r in OrPadded(outer, PairOne(outer, inner, Unifies, JoinMerge), FreeVars(p) - bound)
    ensures sure + Sure(p) * FreeVars(p) <= r.mu.Keys <= decl + Declared(p)
  {
    var matched := PairOne(outer, inner, Unifies, JoinMerge);
    if matched != [] {
      PairOneMember(outer, inner, Unifies, JoinMerge, r);
    }
  }

  lemma OptionalStepBinds(env: Env, table: seq<Row>, p: PathPattern, bound: set<string>, sure: set<string>,
                          decl: set<string>)
    requires Binds(table, sure, decl) && FreeVars(p) * bound <= sure
    ensures Binds(FlatMap(table, OptionalStep(env, p, bound)), sure + Sure(p) * FreeVars(p), decl + Declared(p))
  {
    var step := OptionalStep(env, p, bound);
    forall r: Row | r in FlatMap(table, step)
      ensures sure + Sure(p) * FreeVars(p) <= r.mu.Keys <= decl + Declared(p)
    {
      FlatMapMember(table, step, r);
      var outer: Row :| outer in table && r in step(outer);
      RowsBind(env, Forbidden, p);
      RowsBind(Beside(env, outer.mu), Forbidden, p);
      var inner := Rows(if Correlated(p, bound) then Beside(env, outer.mu) else env, Forbidden, p);
      OptionalRowBinds(outer, inner, p, bound, sure, decl, r);
    }
  }

  lemma {:induction false} DeclaredBy(ms: seq<MatchStatement>, x: string) returns (i: nat)
    requires x in TableDecl(ms)
    ensures i < |ms| && x in Declared(ms[i].pattern)
  {
    var n := |ms| - 1;
    if x in Declared(ms[n].pattern) {
      i := n;
    } else {
      i := DeclaredBy(ms[..n], x);
    }
  }

  lemma {:induction false} ClauseInTable(ms: seq<MatchStatement>, i: nat)
    requires i < |ms|
    ensures ClauseSure(ms[i]) <= TableSure(ms) && FreeVars(ms[i].pattern) <= BoundVars(ms)
  {
    var n := |ms| - 1;
    if i < n {
      ClauseInTable(ms[..n], i);
    }
  }

  lemma {:induction false} BoundAreDeclared(ms: seq<MatchStatement>)
    ensures BoundVars(ms) <= TableDecl(ms)
  {
    if ms != [] {
      BoundAreDeclared(ms[..|ms| - 1]);
    }
  }

  /** What the last clause shares with the table before it, both are sure to bind. */
  lemma LastClauseApart(ms: seq<MatchStatement>)
    requires ms != [] && AllApart(ms)
    ensures var n := |ms| - 1;
      && AllApart(ms[..n])
      && TableDecl(ms[..n]) * Declared(ms[n].pattern) <= TableSure(ms[..n]) * ClauseSure(ms[n])
      && FreeVars(ms[n].pattern) * BoundVars(ms[..n]) <= TableSure(ms[..n])
  {
    var n := |ms| - 1;
    forall x | x in TableDecl(ms[..n]) * Declared(ms[n].pattern) ensures x in TableSure(ms[..n]) * ClauseSure(ms[n]) {
      var i := DeclaredBy(ms[..n], x);
      assert ms[..n][i] == ms[i] && Apart(ms[i], ms[n]);
      assert x in Declared(ms[i].pattern) * Declared(ms[n].pattern);
      ClauseInTable(ms[..n], i);
    }
    BoundAreDeclared(ms[..n]);
    assert FreeVars(ms[n].pattern) * BoundVars(ms[..n]) <= TableDecl(ms[..n]) * Declared(ms[n].pattern);
  }

  lemma NaturalJoinBinds(env: Env, xs: seq<Row>, ys: seq<Row>, sure: set<string>, decl: set<string>,
                         sure': set<string>, decl': set<string>)
    requires Binds(xs, sure, decl) && Binds(ys, sure', decl')
    ensures Binds(NaturalJoin(env, xs, ys), sure + sure', decl + decl')
  {
    PairBinds(xs, ys, JoinTest(env, FirstKeys(xs) * FirstKeys(ys)), JoinMerge, sure + sure', decl + decl');
  }

  lemma ExtendBinds(env: Env, table: seq<Row>, bound: set<string>, m: MatchStatement, sure: set<string>,
                    decl: set<string>)
    requires Binds(table, sure, decl) && FreeVars(m.pattern) * bound <= sure
    ensures Binds(ExtendTable(env, table, bound, m), sure + ClauseSure(m), decl + Declared(m.pattern))
  {
    if m.OptionalMatch? {
      OptionalStepBinds(env, table, m.pattern, bound, sure, decl);
    } else {
      RowsBind(env, Forbidden, m.pattern);
      NaturalJoinBinds(env, table, Rows(env, Forbidden, m.pattern), sure, decl, Sure(m.pattern), Declared(m.pattern));
    }
  }

  lemma {:induction false} ChainBinds(env: Env, ms: seq<MatchStatement>)
    requires ms != [] && AllApart(ms)
    ensures Binds(Chain(env, ms), TableSure(ms), TableDecl(ms))
    decreases |ms|
  {
    var n := |ms| - 1;
    if n == 0 {
      assert ms[..n] == [];
      RowsBind(env, Forbidden, ms[0].pattern);
    } else {
      LastClauseApart(ms);
      ChainBinds(env, ms[..n]);
      ExtendBinds(env, Chain(env, ms[..n]), BoundVars(ms[..n]), ms[n], TableSure(ms[..n]), TableDecl(ms[..n]));
    }
  }

  /** A simple clause extends the table by the natural join. */
  lemma ChainSimple(env: Env, ms: seq<MatchStatement>)
    requires Picks(env) && |ms| > 1 && AllApart(ms) && ms[|ms| - 1].SimpleMatch?
    ensures Chain(env, ms) == NatJoin(Chain(env, ms[..|ms| - 1]), Rows(env, Forbidden, ms[|ms| - 1].pattern))
  {
    var n := |ms| - 1;
    var p := ms[n].pattern;
    LastClauseApart(ms);
    ChainBinds(env, ms[..n]);
    RowsBind(env, Forbidden, p);
    NaturalJoinIsNatural(env, Chain(env, ms[..n]), Rows(env, Forbidden, p),
                         TableSure(ms[..n]), TableDecl(ms[..n]), Sure(p), Declared(p));
  }

  lemma {:induction false} CollapsedVars(ms: seq<MatchStatement>)
    requires ms != [] && AllApart(ms) && Collapsible(ms)
    ensures FreeVars(Collapsed(ms)) == BoundVars(ms) && Declared(Collapsed(ms)) == TableDecl(ms)
    ensures Sure(Collapsed(ms)) == TableSure(ms)
    decreases |ms|
  {
    var n := |ms| - 1;
    assert ms[n] in ms;
    if n == 0 {
      assert ms[..n] == [];
    } else {
      LastClauseApart(ms);
      assert forall m :: m in ms[..n] ==> m in ms;
      CollapsedVars(ms[..n]);
    }
  }

  /** Clauses that are pairwise apart are apart from the join of the others. */
  lemma CollapsedApart(ms: seq<MatchStatement>)
    requires |ms| > 1 && AllApart(ms) && Collapsible(ms)
    ensures Apart(SimpleMatch(Collapsed(ms[..|ms| - 1])), SimpleMatch(ms[|ms| - 1].pattern))
  {
    var n := |ms| - 1;
    LastClauseApart(ms);
    assert ms[n] in ms && forall m :: m in ms[..n] ==> m in ms;
    CollapsedVars(ms[..n]);
    if x :| x in TableDecl(ms[..n]) * Declared(ms[n].pattern) {
      var i := DeclaredBy(ms[..n], x);
      assert ms[..n][i] == ms[i] && Apart(ms[i], ms[n]);
      assert x in Declared(ms[i].pattern) * Declared(ms[n].pattern);
      ClauseInTable(ms[..n], i);
      var y :| y in FreeVars(ms[i].pattern) * FreeVars(ms[n].pattern);
      assert y in BoundVars(ms[..n]) * FreeVars(ms[n].pattern);
    }
  }

  /** The collapsed comma join and the clause-by-clause walk give the same table. */
  lemma {:induction false} CollapsedIsChain(env: Env, ms: seq<MatchStatement>)
    requires Picks(env) && ms != [] && AllApart(ms) && Collapsible(ms)
    ensures Rows(env, Forbidden, Collapsed(ms)) == Chain(env, ms)
    decreases |ms|
  {
    var n := |ms| - 1;
    if n > 0 {
      assert ms[n] in ms && forall m :: m in ms[..n] ==> m in ms;
      CollapsedIsChain(env, ms[..n]);
      ChainSimple(env, ms);
      CollapsedApart(ms);
      CommaJoinIsNatural(env, Collapsed(ms[..n]), ms[n].pattern);
    }
  }
}
