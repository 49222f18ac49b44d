/** How far pushdown goes: exactly the conjuncts that can be pushed leave the filters, wherever in the
    pattern the filter stands; the others stay, in order. */
module PushdownReach {
  import opened Values
  import opened Syntax
  import opened RowAlgebra
  import opened Pushdown

  // ---------------------------------------------------------------- which conjuncts can be pushed

  predicate NamesNode(kinds: map<string, VarKind>, x: string) {
    x in kinds && kinds[x].NodeKind?
  }

  /** A type test of an attribute, or a comparison of a node's attribute with a literal, on either side. */
  predicate Pushable(kinds: map<string, VarKind>, c: Expr) {
    && c.Binop?
    && ((c.bop.Is? && c.left.AttrLookup? && c.right.TypeLit?)
        || (c.bop.Cmp? && c.left.AttrLookup? && c.right.Const? && NamesNode(kinds, c.left.obj))
        || (c.bop.Cmp? && c.left.Const? && c.right.AttrLookup? && NamesNode(kinds, c.right.obj)))
  }

  function Stays(kinds: map<string, VarKind>): Expr -> bool {
    (c: Expr) => !Pushable(kinds, c)
  }

  lemma ClassifiedIsPushable(kinds: map<string, VarKind>, c: Expr)
    ensures Classify(kinds, c).Some? <==> Pushable(kinds, c)
  {
  }

  lemma {:induction false} KeptAreStaying(kinds: map<string, VarKind>, es: seq<Expr>)
    ensures Kept(kinds, es) == FilterSeq(es, Stays(kinds))
    ensures Pushed(kinds, es) == [] <==> FilterSeq(es, Stays(kinds)) == es
  {
    if es != [] {
      var n := |es| - 1;
      KeptAreStaying(kinds, es[..n]);
      ClassifiedIsPushable(kinds, es[n]);
      assert es == es[..n] + [es[n]];
      FilterAppend(es[..n], [es[n]], Stays(kinds));
      assert [es[n]] == [es[n]] + [];
      FilterCons(es[n], [], Stays(kinds));
      FilterNoLonger(es[..n], Stays(kinds));
    }
  }

  lemma {:induction false} FilterNoLonger(es: seq<Expr>, f: Expr -> bool)
    ensures |FilterSeq(es, f)| <= |es|
    ensures FilterSeq(es, f) == es <==> |FilterSeq(es, f)| == |es|
  {
    if es != [] {
      FilterNoLonger(es[1..], f);
    }
  }

  // ---------------------------------------------------------------- the filters of a pattern

  /** All conjuncts of all filters, outer ones first. */
  function Conjuncts(p: PathPattern): seq<Expr> {
    match p
    case Filter(i, e) => FlattenAnd(e) + Conjuncts(i)
    case Concat(a, b) => Conjuncts(a) + Conjuncts(b)
    case Union(a, b) => Conjuncts(a) + Conjuncts(b)
    case Join(a, b) => Conjuncts(a) + Conjuncts(b)
    case Repeat(i, _, _) => Conjuncts(i)
    case Questioned(i) => Conjuncts(i)
    case Selected(_, i) => Conjuncts(i)
    case Named(_, i) => Conjuncts(i)
    case Node(_) => []
    case Edge(_, _) => []
  }

  /** Those that cannot be pushed from where they stand. */
  function Staying(p: PathPattern): seq<Expr> {
    match p
    case Filter(i, e) => FilterSeq(FlattenAnd(e), Stays(VarKinds(i))) + Staying(i)
    case Concat(a, b) => Staying(a) + Staying(b)
    case Union(a, b) => Staying(a) + Staying(b)
    case Join(a, b) => Staying(a) + Staying(b)
    case Repeat(i, _, _) => Staying(i)
    case Questioned(i) => Staying(i)
    case Selected(_, i) => Staying(i)
    case Named(_, i) => Staying(i)
    case Node(_) => []
    case Edge(_, _) => []
  }

  lemma {:induction false} MergeKeepsStaying(p: PathPattern, cs: seq<Constraint>)
    ensures Staying(Merge(p, cs)) == Staying(p)
  {
    match p
    case Filter(i, _) => MergeKeepsStaying(i, cs); MergeKeepsKinds(i, cs, map[]);
    case Concat(a, b) => MergeKeepsStaying(a, cs); MergeKeepsStaying(b, cs);
    case Union(a, b) => MergeKeepsStaying(a, cs); MergeKeepsStaying(b, cs);
    case Join(a, b) => MergeKeepsStaying(a, cs); MergeKeepsStaying(b, cs);
    case Repeat(i, _, _) => MergeKeepsStaying(i, cs);
    case Questioned(i) => MergeKeepsStaying(i, cs);
    case Named(_, i) => MergeKeepsStaying(i, cs);
    case Selected(prefix, i) => MergeKeepsStaying(i, if prefix.search.All? then cs else RetainVars(cs, Boundary(i)));
    case _ =>
  }

  /** Exactly the pushable conjuncts leave the filters, at every depth. */
  lemma {:induction false} RewriteLeaves(p: PathPattern)
    ensures Conjuncts(Rewrite(p)) == Staying(p)
    decreases Size(p), 0
  {
    match p
    case Filter(i, e) => FilterLeaves(i, e);
    case Concat(a, b) => RewriteLeaves(a); RewriteLeaves(b);
    case Union(a, b) => RewriteLeaves(a); RewriteLeaves(b);
    case Join(a, b) => RewriteLeaves(a); RewriteLeaves(b);
    case Repeat(i, _, _) => RewriteLeaves(i);
    case Questioned(i) => RewriteLeaves(i);
    case Selected(_, i) => RewriteLeaves(i);
    case Named(_, i) => RewriteLeaves(i);
    case _ =>
  }

  lemma {:induction false} FilterLeaves(i: PathPattern, e: Expr)
    ensures Conjuncts(Rewrite(Filter(i, e))) == Staying(Filter(i, e))
    decreases Size(i), 1
  {
    var kinds, es := VarKinds(i), FlattenAnd(e);
    var pushed, kept := Pushed(kinds, es), Kept(kinds, es);
    KeptAreStaying(kinds, es);
    if pushed == [] {
      RewriteLeaves(i);
    } else {
      MergeKeepsShape(i, pushed);
      MergeKeepsStaying(i, pushed);
      RewriteLeaves(Merge(i, pushed));
      if kept != [] {
        FlattenedAtomic(e);
        KeptStays(kinds, es);
        FlattenRebuild(kept);
      } else {
        assert [] + Conjuncts(Rewrite(Merge(i, pushed))) == Conjuncts(Rewrite(Merge(i, pushed)));
      }
    }
  }

  /** No filter is left in front of a conjunct that could be pushed past it. */
  ghost predicate Settled(p: PathPattern) {
    Staying(p) == Conjuncts(p)
  }

  /** After the pass nothing can be pushed any more, anywhere. */
  lemma RewriteSettles(p: PathPattern)
    ensures Settled(Rewrite(p))
  {
    RewriteIdempotent(p);
    RewriteLeaves(Rewrite(p));
  }
}
