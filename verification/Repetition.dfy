/** Bounded repetition: its rows are exactly the sequences of laps that meet end to end, within the
    bounds, each variable bound to the group of what it was in every lap. */
module Repetition {
  import opened Values
  import opened Syntax
  import opened RowAlgebra
  import opened Runtime
  import opened Evaluator
  import opened Scoping
  import opened PathWalks

  // ---------------------------------------------------------------- laps

  predicate MeetsNext(rs: seq<Row>, i: nat)
    requires i + 1 < |rs|
  {
    EndsMeet(rs[i], rs[i + 1])
  }

  /** Rows of the repeated pattern, each ending where the next begins. */
  ghost predicate Laps(rows: seq<Row>, rs: seq<Row>) {
    && rs != []
    && (forall i :: 0 <= i < |rs| ==> rs[i] in rows)
    && (forall i: nat :: i + 1 < |rs| ==> MeetsNext(rs, i))
  }

  /** The laps run one after the other. */
  function Glued(rs: seq<Row>): Row
    requires rs != []
  {
    var n := |rs| - 1;
    if n == 0 then GroupRow(rs[0]) else GroupMerge(Glued(rs[..n]), GroupRow(rs[n]))
  }

  lemma LapsInit(rows: seq<Row>, rs: seq<Row>)
    requires Laps(rows, rs) && |rs| > 1
    ensures Laps(rows, rs[..|rs| - 1]) && EndsMeet(rs[|rs| - 2], rs[|rs| - 1])
  {
    var n := |rs| - 1;
    assert MeetsNext(rs, n - 1);
    forall i: nat | i + 1 < n ensures MeetsNext(rs[..n], i) {
      assert MeetsNext(rs, i);
    }
  }

  lemma LapsSnoc(rows: seq<Row>, rs: seq<Row>, r: Row)
    requires Laps(rows, rs) && r in rows && EndsMeet(rs[|rs| - 1], r)
    ensures Laps(rows, rs + [r])
  {
    var all := rs + [r];
    forall i: nat | i + 1 < |all| ensures MeetsNext(all, i) {
      if i + 1 < |rs| {
        assert MeetsNext(rs, i);
      }
    }
  }

  lemma GluedSnoc(rs: seq<Row>, r: Row)
    requires rs != []
    ensures Glued(rs + [r]) == GroupMerge(Glued(rs), GroupRow(r))
  {
    assert (rs + [r])[..|rs|] == rs;
  }

  /** A lap more ends where that lap ends. */
  lemma MergedEnd(x: Row, y: Row)
    requires EndsMeet(x, y)
    ensures LastNode(LastPath(GroupMerge(x, y))) == LastNode(LastPath(y))
    ensures FirstNode(FirstPath(GroupMerge(x, y))) == FirstNode(FirstPath(x)) || |x.paths| == 1
    ensures |x.paths| == 1 ==> FirstNode(LastPath(GroupMerge(x, y))) == FirstNode(LastPath(x))
  {
    var p, q := LastPath(x), LastPath(y);
    assert LastPath(GroupMerge(x, y)) == p + q[1..];
    if |q| == 1 {
      assert p + q[1..] == p;
    }
  }

  /** If the run ends where its last lap `prev` does, then so it does with one lap more. */
  lemma GluedStep(run: Row, prev: Row, lap: Row)
    requires LastNode(LastPath(run)) == LastNode(LastPath(prev)) && EndsMeet(prev, lap)
    ensures EndsMeet(run, GroupRow(lap))
    ensures LastNode(LastPath(GroupMerge(run, GroupRow(lap)))) == LastNode(LastPath(lap))
    ensures EdgeIds(LastPath(GroupMerge(run, GroupRow(lap)))) == EdgeIds(LastPath(run)) + EdgeIds(LastPath(lap))
    ensures OnePath(run) ==>
      OnePath(GroupMerge(run, GroupRow(lap)))
      && FirstNode(LastPath(GroupMerge(run, GroupRow(lap)))) == FirstNode(LastPath(run))
  {
    MergedEnd(run, GroupRow(lap));
    MergedEdges(run, GroupRow(lap));
  }

  lemma {:induction false} GluedEnd(rows: seq<Row>, rs: seq<Row>)
    requires Laps(rows, rs)
    ensures LastNode(LastPath(Glued(rs))) == LastNode(LastPath(rs[|rs| - 1]))
  {
    var n := |rs| - 1;
    if n > 0 {
      LapsInit(rows, rs);
      GluedEnd(rows, rs[..n]);
      GluedStep(Glued(rs[..n]), rs[n - 1], rs[n]);
    }
  }

  // ---------------------------------------------------------------- the rows of k laps

  lemma InMap<T, U>(s: seq<T>, f: T -> U, x: T)
    requires x in s
    ensures f(x) in MapSeq(s, f)
  {
    if x != s[0] {
      InMap(s[1..], f, x);
    }
  }

  lemma {:induction false} LapsInLevel(rows: seq<Row>, rs: seq<Row>)
    requires Laps(rows, rs)
    ensures Glued(rs) in Level(MapSeq(rows, GroupRow), |rs|)
  {
    var n := |rs| - 1;
    InMap(rows, GroupRow, rs[n]);
    if n > 0 {
      LapsInit(rows, rs);
      LapsInLevel(rows, rs[..n]);
      GluedEnd(rows, rs[..n]);
      assert EndsMeet(Glued(rs[..n]), GroupRow(rs[n]));
      InPairs(Level(MapSeq(rows, GroupRow), n), MapSeq(rows, GroupRow), EndsMeet, GroupMerge, Glued(rs[..n]),
              GroupRow(rs[n]));
    }
  }

  lemma {:induction false} LevelIsLaps(rows: seq<Row>, k: nat, r: Row) returns (rs: seq<Row>)
    requires k >= 1 && r in Level(MapSeq(rows, GroupRow), k)
    ensures |rs| == k && Laps(rows, rs) && r == Glued(rs)
  {
    if k == 1 {
      MapMember(rows, GroupRow, r);
      var q :| q in rows && r == GroupRow(q);
      rs := [q];
    } else {
      var x, y := PairMember(Level(MapSeq(rows, GroupRow), k - 1), MapSeq(rows, GroupRow), EndsMeet, GroupMerge, r);
      var before := LevelIsLaps(rows, k - 1, x);
      MapMember(rows, GroupRow, y);
      var q :| q in rows && y == GroupRow(q);
      GluedEnd(rows, before);
      LapsSnoc(rows, before, q);
      GluedSnoc(before, q);
      rs := before + [q];
    }
  }

  /** `f(k)`, `f(k + 1)` and so on up to `f(ub)`. */
  function Stacked(f: nat -> seq<Row>, k: nat, ub: nat): seq<Row>
    decreases ub + 1 - k
  {
    if k > ub then [] else f(k) + Stacked(f, k + 1, ub)
  }

  lemma {:induction false} StackedMember(f: nat -> seq<Row>, k: nat, ub: nat, r: Row)
    ensures r in Stacked(f, k, ub) <==> exists j: nat :: k <= j <= ub && r in f(j)
    decreases ub + 1 - k
  {
    if k <= ub {
      StackedMember(f, k + 1, ub, r);
      if j: nat :| k <= j <= ub && r in f(j) {
        assert j == k || k + 1 <= j;
      }
    }
  }

  function LevelAt(grouped: seq<Row>): nat -> seq<Row> {
    (k: nat) => if k >= 1 then Level(grouped, k) else []
  }

  lemma {:induction false} LevelsStacked(grouped: seq<Row>, k: nat, ub: nat)
    requires k >= 1
    ensures Levels(grouped, k, ub) == Stacked(LevelAt(grouped), k, ub)
    decreases ub + 1 - k
  {
    if k <= ub {
      LevelsStacked(grouped, k + 1, ub);
    }
  }

  /** No lap: one node, and empty groups. */
  predicate Stays(g: Graph, vars: set<string>, r: Row) {
    && |r.paths| == 1 && |r.paths[0]| == 1 && r.paths[0][0].PNode? && r.paths[0][0].id in g.nodes
    && r.mu.Keys == vars && forall x :: x in vars ==> r.mu[x] == Group([])
  }

  lemma ZeroRows(g: Graph, vars: set<string>, r: Row)
    ensures r in FlatMap(g.nodes, ZeroStep(vars)) <==> Stays(g, vars, r)
  {
    if r in FlatMap(g.nodes, ZeroStep(vars)) {
      FlatMapMember(g.nodes, ZeroStep(vars), r);
    }
    if Stays(g, vars, r) {
      var id := r.paths[0][0].id;
      assert r.paths[0] == [PNode(id)];
      assert r.paths == [[PNode(id)]] && r.mu == EmptyGroups(vars);
      assert r in ZeroStep(vars)(id);
      InFlatMap(g.nodes, ZeroStep(vars), id, r);
    }
  }

  ghost predicate RunsLaps(rows: seq<Row>, lb: nat, ub: nat, r: Row) {
    exists rs :: Laps(rows, rs) && lb <= |rs| <= ub && r == Glued(rs)
  }

  lemma LevelsAreLaps(rows: seq<Row>, lb: nat, ub: nat, r: Row)
    requires lb >= 1
    ensures r in Levels(MapSeq(rows, GroupRow), lb, ub) <==> RunsLaps(rows, lb, ub, r)
  {
    var at := LevelAt(MapSeq(rows, GroupRow));
    LevelsStacked(MapSeq(rows, GroupRow), lb, ub);
    StackedMember(at, lb, ub, r);
    if j: nat :| lb <= j <= ub && r in at(j) {
      var rs := LevelIsLaps(rows, j, r);
    }
    if rs :| Laps(rows, rs) && lb <= |rs| <= ub && r == Glued(rs) {
      LapsInLevel(rows, rs);
      assert r in at(|rs|);
    }
  }

  lemma LapsFromOne(rows: seq<Row>, ub: nat, r: Row)
    ensures RunsLaps(rows, 0, ub, r) <==> RunsLaps(rows, 1, ub, r)
  {
    if rs :| Laps(rows, rs) && 0 <= |rs| <= ub && r == Glued(rs) {
      assert 1 <= |rs|;
    }
  }

  /** The rows of `P{lb,ub}` are the runs of `lb` to `ub` laps of `P`, and, if none is asked for, the
      nodes by themselves. */
  lemma RepeatExact(env: Env, pol: Policy, p: PathPattern, lb: nat, ub: nat, r: Row)
    ensures r in Rows(env, pol, Repeat(p, lb, Some(ub))) <==>
        RunsLaps(Rows(env, pol, p), lb, ub, r) || (lb == 0 && Stays(env.g, FreeVars(p), r))
  {
    RepeatUnfolds(env, pol, p, lb, ub);
    RepeatedRows(env, FreeVars(p), Rows(env, pol, p), lb, ub, r);
  }

  lemma RepeatUnfolds(env: Env, pol: Policy, p: PathPattern, lb: nat, ub: nat)
    ensures Rows(env, pol, Repeat(p, lb, Some(ub))) == RepeatRows(env, FreeVars(p), Rows(env, pol, p), lb, ub)
  {
  }

  lemma RepeatedRows(env: Env, vars: set<string>, rows: seq<Row>, lb: nat, ub: nat, r: Row)
    ensures r in RepeatRows(env, vars, rows, lb, ub) <==>
        RunsLaps(rows, lb, ub, r) || (lb == 0 && Stays(env.g, vars, r))
  {
    LevelsAreLaps(rows, if lb == 0 then 1 else lb, ub, r);
    if lb == 0 {
      ZeroRows(env.g, vars, r);
      LapsFromOne(rows, ub, r);
    }
  }

  // ---------------------------------------------------------------- what a run of laps binds and crosses

  lemma {:induction false} LapGroups(rs: seq<Row>, x: string)
    requires rs != [] && forall i :: 0 <= i < |rs| ==> x in rs[i].mu
    ensures x in Glued(rs).mu
    ensures Glued(rs).mu[x] == Group(seq(|rs|, i requires 0 <= i < |rs| => rs[i].mu[x]))
  {
    var n := |rs| - 1;
    if n > 0 {
      LapGroups(rs[..n], x);
      assert seq(|rs|, i requires 0 <= i < |rs| => rs[i].mu[x])
          == seq(n, i requires 0 <= i < n => rs[..n][i].mu[x]) + [rs[n].mu[x]];
    } else {
      assert seq(|rs|, i requires 0 <= i < |rs| => rs[i].mu[x]) == [rs[0].mu[x]];
    }
  }

  /** The edges of the laps, one lap after the other. */
  function EdgesOfLaps(rs: seq<Row>): seq<Id> {
    if rs == [] then [] else EdgesOfLaps(rs[..|rs| - 1]) + EdgeIds(LastPath(rs[|rs| - 1]))
  }

  lemma {:induction false} EdgeIdsAppend(p: Path, q: Path)
    ensures EdgeIds(p + q) == EdgeIds(p) + EdgeIds(q)
  {
    if p == [] {
      assert p + q == q;
    } else {
      EdgeIdsAppend(p[1..], q);
      assert (p + q)[1..] == p[1..] + q && (p + q)[0] == p[0];
    }
  }

  lemma MergedEdges(x: Row, y: Row)
    requires EndsMeet(x, y)
    ensures EdgeIds(LastPath(GroupMerge(x, y))) == EdgeIds(LastPath(x)) + EdgeIds(LastPath(y))
    ensures |GroupMerge(x, y).paths| == |x.paths|
  {
    EdgeIdsAppend(LastPath(x), LastPath(y)[1..]);
  }

  lemma LapsUnfold(rs: seq<Row>)
    requires |rs| > 1
    ensures var n := |rs| - 1;
      && Glued(rs) == GroupMerge(Glued(rs[..n]), GroupRow(rs[n]))
      && EdgesOfLaps(rs) == EdgesOfLaps(rs[..n]) + EdgeIds(LastPath(rs[n]))
  {
  }

  lemma FirstLap(r: Row)
    ensures Glued([r]) == GroupRow(r) && EdgesOfLaps([r]) == EdgeIds(LastPath(r))
  {
    assert [r][..0] == [];
    assert EdgesOfLaps([r]) == EdgesOfLaps([]) + EdgeIds(LastPath(r));
  }

  /** A run crosses the edges of its laps in order, from where the first begins to where the last ends;
      and each variable is the group of what the laps bound it to. */
  lemma {:induction false} LapsCross(rows: seq<Row>, rs: seq<Row>)
    requires Laps(rows, rs) && OnePath(rs[0])
    ensures OnePath(Glued(rs)) && EdgeIds(LastPath(Glued(rs))) == EdgesOfLaps(rs)
    ensures FirstNode(LastPath(Glued(rs))) == FirstNode(LastPath(rs[0]))
    ensures LastNode(LastPath(Glued(rs))) == LastNode(LastPath(rs[|rs| - 1]))
  {
    var n := |rs| - 1;
    if n == 0 {
      assert rs == [rs[0]];
      FirstLap(rs[0]);
    } else {
      LapsInit(rows, rs);
      LapsCross(rows, rs[..n]);
      LapsUnfold(rs);
      GluedStep(Glued(rs[..n]), rs[n - 1], rs[n]);
    }
  }
}
