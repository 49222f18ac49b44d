/** Predicate pushdown: conjuncts of a WHERE that test one attribute of one element move into the
    descriptors of that element, everywhere it occurs below the filter. */
module Pushdown {
  import opened Values
  import opened Syntax

  /** `subject.attr IS ty`, or `subject.attr op literal`. */
  datatype Constraint =
    | TypeTest(subject: string, attr: string, ty: SimpleType)
    | ValueTest(subject: string, attr: string, op: CmpOp, literal: Value)

  datatype VarKind = NodeKind | EdgeKind

  // ---------------------------------------------------------------- conjunctions

  function FlattenAnd(e: Expr): seq<Expr> {
    if e.Binop? && e.bop.And? then FlattenAnd(e.left) + FlattenAnd(e.right) else [e]
  }

  function RebuildAnd(es: seq<Expr>): Expr
    requires es != []
  {
    if |es| == 1 then es[0] else Binop(And, es[0], RebuildAnd(es[1..]))
  }

  predicate IsAnd(e: Expr) {
    e.Binop? && e.bop.And?
  }

  lemma {:induction false} FlattenedAtomic(e: Expr)
    ensures FlattenAnd(e) != [] && forall c :: c in FlattenAnd(e) ==> !IsAnd(c)
  {
    if IsAnd(e) {
      FlattenedAtomic(e.left);
      FlattenedAtomic(e.right);
    }
  }

  /** Flattening undoes rebuilding. */
  lemma {:induction false} FlattenRebuild(es: seq<Expr>)
    requires es != [] && forall c :: c in es ==> !IsAnd(c)
    ensures FlattenAnd(RebuildAnd(es)) == es
  {
    if |es| == 1 {
      assert es[0] in es;
    } else {
      FlattenRebuild(es[1..]);
      assert es[0] in es && es == [es[0]] + es[1..];
    }
  }

  // ---------------------------------------------------------------- extraction

  function ExtractType(e: Expr): Option<Constraint> {
    if e.Binop? && e.bop.Is? && e.left.AttrLookup? && e.right.TypeLit?
    then Some(TypeTest(e.left.obj, e.left.attr, e.right.t))
    else None
  }

  function ExtractValue(e: Expr): Option<Constraint> {
    if !e.Binop? || !e.bop.Cmp? then None
    else if e.left.AttrLookup? && e.right.Const?
    then Some(ValueTest(e.left.obj, e.left.attr, e.bop.op, e.right.v))
    else if e.left.Const? && e.right.AttrLookup?
    then Some(ValueTest(e.right.obj, e.right.attr, FlipOp(e.bop.op), e.left.v))
    else None
  }

  /** What a conjunct turns into: value tests are pushed for node variables only. */
  function Classify(kinds: map<string, VarKind>, e: Expr): Option<Constraint> {
    if ExtractType(e).Some? then ExtractType(e)
    else
      match ExtractValue(e)
      case Some(k) => if k.subject in kinds && kinds[k.subject].NodeKind? then Some(k) else None
      case None => None
  }

  function Pushed(kinds: map<string, VarKind>, es: seq<Expr>): seq<Constraint> {
    if es == [] then []
    else
      var before := Pushed(kinds, es[..|es| - 1]);
      match Classify(kinds, es[|es| - 1]) case Some(k) => before + [k] case None => before
  }

  function Kept(kinds: map<string, VarKind>, es: seq<Expr>): seq<Expr> {
    if es == [] then []
    else
      var before := Kept(kinds, es[..|es| - 1]);
      if Classify(kinds, es[|es| - 1]).Some? then before else before + [es[|es| - 1]]
  }

  /** The loop of `rewrite` that sorts the conjuncts. */
  method SplitConjuncts(kinds: map<string, VarKind>, es: seq<Expr>) returns (pushed: seq<Constraint>, kept: seq<Expr>)
    ensures pushed == Pushed(kinds, es) && kept == Kept(kinds, es)
  {
    pushed, kept := [], [];
    for i := 0 to |es|
      invariant pushed == Pushed(kinds, es[..i]) && kept == Kept(kinds, es[..i])
    {
      assert es[..i + 1][..i] == es[..i];
      var t := ExtractType(es[i]);
      if t.Some? {
        pushed := pushed + [t.value];
      } else {
        var v := ExtractValue(es[i]);
        if v.Some? && v.value.subject in kinds && kinds[v.value.subject].NodeKind? {
          pushed := pushed + [v.value];
        } else {
          kept := kept + [es[i]];
        }
      }
    }
    assert es[..|es|] == es;
  }

  lemma {:induction false} KeptStays(kinds: map<string, VarKind>, es: seq<Expr>)
    ensures forall e :: e in Kept(kinds, es) ==> e in es && Classify(kinds, e).None?
    ensures forall k :: k in Pushed(kinds, es) ==> exists e :: e in es && Classify(kinds, e) == Some(k)
    ensures forall e :: e in es && Classify(kinds, e).None? ==> e in Kept(kinds, es)
    ensures forall e :: e in es && Classify(kinds, e).Some? ==> Classify(kinds, e).value in Pushed(kinds, es)
  {
    if es != [] {
      KeptStays(kinds, es[..|es| - 1]);
      assert es == es[..|es| - 1] + [es[|es| - 1]];
    }
  }

  lemma {:induction false} NothingPushed(kinds: map<string, VarKind>, es: seq<Expr>)
    requires forall e :: e in es ==> Classify(kinds, e).None?
    ensures Pushed(kinds, es) == []
  {
    if es != [] {
      assert es[|es| - 1] in es;
      NothingPushed(kinds, es[..|es| - 1]);
    }
  }

  // ---------------------------------------------------------------- what a variable names

  function CollectTop(p: PathPattern): seq<string> {
    match p
    case Node(d) => if d.Some? && d.value.name.Some? then [d.value.name.value] else []
    case Concat(a, b) => CollectTop(a) + CollectTop(b)
    case Filter(i, _) => CollectTop(i)
    case Questioned(i) => CollectTop(i)
    case Named(_, i) => CollectTop(i)
    case _ => []
  }

  /** `boundary_node_vars`: first and last of the top-level node variables. */
  function Boundary(p: PathPattern): set<string> {
    var vars := CollectTop(p);
    if vars == [] then {} else {vars[0], vars[|vars| - 1]}
  }

  function WalkKinds(p: PathPattern, acc: map<string, VarKind>): map<string, VarKind> {
    match p
    case Node(d) => if d.Some? && d.value.name.Some? then acc[d.value.name.value := NodeKind] else acc
    case Edge(_, d) => if d.Some? && d.value.name.Some? then acc[d.value.name.value := EdgeKind] else acc
    case Concat(a, b) => WalkKinds(b, WalkKinds(a, acc))
    case Union(a, b) => WalkKinds(b, WalkKinds(a, acc))
    case Join(a, b) => WalkKinds(b, WalkKinds(a, acc))
    case Filter(i, _) => WalkKinds(i, acc)
    case Questioned(i) => WalkKinds(i, acc)
    case Named(_, i) => WalkKinds(i, acc)
    case Repeat(i, _, _) => WalkKinds(i, acc)
    case Selected(prefix, i) =>
      if prefix.search.All? then WalkKinds(i, acc)
      else acc + map x | x in Boundary(i) :: NodeKind
  }

  function VarKinds(p: PathPattern): map<string, VarKind> {
    WalkKinds(p, map[])
  }

  // ---------------------------------------------------------------- merging into descriptors

  function MergeTypes(props: PropertyType, x: string, cs: seq<Constraint>): PropertyType
    decreases |cs|
  {
    if cs == [] then props
    else if cs[0].TypeTest? && cs[0].subject == x
    then MergeTypes(Extend(props, cs[0].attr, cs[0].ty), x, cs[1..])
    else MergeTypes(props, x, cs[1..])
  }

  function MergeValues(preds: seq<(string, CmpOp, Value)>, x: string, cs: seq<Constraint>): seq<(string, CmpOp, Value)>
    decreases |cs|
  {
    if cs == [] then preds
    else if cs[0].ValueTest? && cs[0].subject == x
    then MergeValues(preds + [(cs[0].attr, cs[0].op, cs[0].literal)], x, cs[1..])
    else MergeValues(preds, x, cs[1..])
  }

  function MergeIntoNode(desc: Option<Descriptor>, cs: seq<Constraint>): Option<Descriptor> {
    if desc.None? || desc.value.name.None? then desc
    else
      var d, x := desc.value, desc.value.name.value;
      Some(d.(props := MergeTypes(d.props, x, cs), valuePreds := MergeValues(d.valuePreds, x, cs)))
  }

  function MergeIntoEdge(desc: Option<Descriptor>, cs: seq<Constraint>): Option<Descriptor> {
    if desc.None? || desc.value.name.None? then desc
    else Some(desc.value.(props := MergeTypes(desc.value.props, desc.value.name.value, cs)))
  }

  function RetainVars(cs: seq<Constraint>, vars: set<string>): seq<Constraint> {
    if cs == [] then []
    else if cs[0].subject in vars then [cs[0]] + RetainVars(cs[1..], vars)
    else RetainVars(cs[1..], vars)
  }

  /** Merge into every occurrence; a selective prefix admits its boundary variables only. */
  function Merge(p: PathPattern, cs: seq<Constraint>): PathPattern {
    match p
    case Node(d) => Node(MergeIntoNode(d, cs))
    case Edge(dir, d) => Edge(dir, MergeIntoEdge(d, cs))
    case Concat(a, b) => Concat(Merge(a, cs), Merge(b, cs))
    case Union(a, b) => Union(Merge(a, cs), Merge(b, cs))
    case Join(a, b) => Join(Merge(a, cs), Merge(b, cs))
    case Filter(i, e) => Filter(Merge(i, cs), e)
    case Repeat(i, lb, ub) => Repeat(Merge(i, cs), lb, ub)
    case Questioned(i) => Questioned(Merge(i, cs))
    case Named(x, i) => Named(x, Merge(i, cs))
    case Selected(prefix, i) =>
      Selected(prefix, Merge(i, if prefix.search.All? then cs else RetainVars(cs, Boundary(i))))
  }

  /** Merging touches descriptors only: same size, same variables, same kinds. */
  lemma {:induction false} MergeKeepsShape(p: PathPattern, cs: seq<Constraint>)
    ensures Size(Merge(p, cs)) == Size(p)
    ensures FreeVars(Merge(p, cs)) == FreeVars(p) && PathVars(Merge(p, cs)) == PathVars(p)
    ensures CollectTop(Merge(p, cs)) == CollectTop(p)
  {
    match p
    case Node(_) =>
    case Edge(_, _) =>
    case Concat(a, b) => MergeKeepsShape(a, cs); MergeKeepsShape(b, cs);
    case Union(a, b) => MergeKeepsShape(a, cs); MergeKeepsShape(b, cs);
    case Join(a, b) => MergeKeepsShape(a, cs); MergeKeepsShape(b, cs);
    case Filter(i, _) => MergeKeepsShape(i, cs);
    case Repeat(i, _, _) => MergeKeepsShape(i, cs);
    case Questioned(i) => MergeKeepsShape(i, cs);
    case Named(_, i) => MergeKeepsShape(i, cs);
    case Selected(prefix, i) => MergeKeepsShape(i, if prefix.search.All? then cs else RetainVars(cs, Boundary(i)));
  }

  lemma {:induction false} MergeKeepsKinds(p: PathPattern, cs: seq<Constraint>, acc: map<string, VarKind>)
    ensures WalkKinds(Merge(p, cs), acc) == WalkKinds(p, acc)
    decreases p
  {
    match p
    case Node(_) =>
    case Edge(_, _) =>
    case Concat(a, b) => MergeKeepsKinds(a, cs, acc); MergeKeepsKinds(b, cs, WalkKinds(a, acc));
    case Union(a, b) => MergeKeepsKinds(a, cs, acc); MergeKeepsKinds(b, cs, WalkKinds(a, acc));
    case Join(a, b) => MergeKeepsKinds(a, cs, acc); MergeKeepsKinds(b, cs, WalkKinds(a, acc));
    case Filter(i, _) => MergeKeepsKinds(i, cs, acc);
    case Repeat(i, _, _) => MergeKeepsKinds(i, cs, acc);
    case Questioned(i) => MergeKeepsKinds(i, cs, acc);
    case Named(_, i) => MergeKeepsKinds(i, cs, acc);
    case Selected(prefix, i) =>
      var inside := if prefix.search.All? then cs else RetainVars(cs, Boundary(i));
      MergeKeepsKinds(i, inside, acc);
      MergeKeepsShape(i, inside);
  }

  // ---------------------------------------------------------------- the rewrite

  /** The rewritten term is no subterm of `p`; what decreases is the size, which merging keeps. */
  function Rewrite(p: PathPattern): PathPattern
    decreases Size(p)
  {
    match p
    case Filter(i, e) =>
      var pushed := Pushed(VarKinds(i), FlattenAnd(e));
      var kept := Kept(VarKinds(i), FlattenAnd(e));
      if pushed == [] then Filter(Rewrite(i), e)
      else
        MergeKeepsShape(i, pushed);
        var q := Rewrite(Merge(i, pushed));
        if kept == [] then q else Filter(q, RebuildAnd(kept))
    case Concat(a, b) => Concat(Rewrite(a), Rewrite(b))
    case Union(a, b) => Union(Rewrite(a), Rewrite(b))
    case Join(a, b) => Join(Rewrite(a), Rewrite(b))
    case Repeat(i, lb, ub) => Repeat(Rewrite(i), lb, ub)
    case Questioned(i) => Questioned(Rewrite(i))
    case Selected(prefix, i) => Selected(prefix, Rewrite(i))
    case Named(x, i) => Named(x, Rewrite(i))
    case Node(_) => p
    case Edge(_, _) => p
  }

  /** `optimize`, with the conjunct loop of the original. */
  method Optimize(p: PathPattern) returns (q: PathPattern)
    ensures q == Rewrite(p)
    decreases Size(p)
  {
    match p
    case Filter(i, e) =>
      var pushed, kept := SplitConjuncts(VarKinds(i), FlattenAnd(e));
      if pushed == [] {
        var r := Optimize(i);
        q := Filter(r, e);
      } else {
        MergeKeepsShape(i, pushed);
        q := Optimize(Merge(i, pushed));
        if kept != [] {
          q := Filter(q, RebuildAnd(kept));
        }
      }
    case Concat(a, b) =>
      var x := Optimize(a);
      var y := Optimize(b);
      q := Concat(x, y);
    case Union(a, b) =>
      var x := Optimize(a);
      var y := Optimize(b);
      q := Union(x, y);
    case Join(a, b) =>
      var x := Optimize(a);
      var y := Optimize(b);
      q := Join(x, y);
    case Repeat(i, lb, ub) =>
      var r := Optimize(i);
      q := Repeat(r, lb, ub);
    case Questioned(i) =>
      var r := Optimize(i);
      q := Questioned(r);
    case Selected(prefix, i) =>
      var r := Optimize(i);
      q := Selected(prefix, r);
    case Named(x, i) =>
      var r := Optimize(i);
      q := Named(x, r);
    case _ => q := p;
  }

  // ---------------------------------------------------------------- shape and idempotence

  lemma {:induction false} RewriteKeepsShape(p: PathPattern)
    ensures FreeVars(Rewrite(p)) == FreeVars(p) && PathVars(Rewrite(p)) == PathVars(p)
    ensures CollectTop(Rewrite(p)) == CollectTop(p)
    decreases Size(p)
  {
    match p
    case Filter(i, e) =>
      var pushed := Pushed(VarKinds(i), FlattenAnd(e));
      MergeKeepsShape(i, pushed);
      RewriteKeepsShape(if pushed == [] then i else Merge(i, pushed));
    case Concat(a, b) => RewriteKeepsShape(a); RewriteKeepsShape(b);
    case Union(a, b) => RewriteKeepsShape(a); RewriteKeepsShape(b);
    case Join(a, b) => RewriteKeepsShape(a); RewriteKeepsShape(b);
    case Repeat(i, _, _) => RewriteKeepsShape(i);
    case Questioned(i) => RewriteKeepsShape(i);
    case Selected(_, i) => RewriteKeepsShape(i);
    case Named(_, i) => RewriteKeepsShape(i);
    case _ =>
  }

  lemma {:induction false} RewriteKeepsKinds(p: PathPattern, acc: map<string, VarKind>)
    ensures WalkKinds(Rewrite(p), acc) == WalkKinds(p, acc)
    decreases Size(p)
  {
    match p
    case Filter(i, e) =>
      var pushed := Pushed(VarKinds(i), FlattenAnd(e));
      MergeKeepsShape(i, pushed);
      MergeKeepsKinds(i, pushed, acc);
      RewriteKeepsKinds(if pushed == [] then i else Merge(i, pushed), acc);
    case Concat(a, b) => RewriteKeepsKinds(a, acc); RewriteKeepsKinds(b, WalkKinds(a, acc));
    case Union(a, b) => RewriteKeepsKinds(a, acc); RewriteKeepsKinds(b, WalkKinds(a, acc));
    case Join(a, b) => RewriteKeepsKinds(a, acc); RewriteKeepsKinds(b, WalkKinds(a, acc));
    case Repeat(i, _, _) => RewriteKeepsKinds(i, acc);
    case Questioned(i) => RewriteKeepsKinds(i, acc);
    case Selected(_, i) => RewriteKeepsKinds(i, acc); RewriteKeepsShape(i);
    case Named(_, i) => RewriteKeepsKinds(i, acc);
    case _ =>
  }

  /** One pass pushes everything that can be pushed: a second pass changes nothing. */
  lemma {:induction false} RewriteIdempotent(p: PathPattern)
    ensures Rewrite(Rewrite(p)) == Rewrite(p)
    decreases Size(p), 0
  {
    match p
    case Filter(i, e) => FilterIdempotent(i, e);
    case Concat(a, b) => RewriteIdempotent(a); RewriteIdempotent(b);
    case Union(a, b) => RewriteIdempotent(a); RewriteIdempotent(b);
    case Join(a, b) => RewriteIdempotent(a); RewriteIdempotent(b);
    case Repeat(i, _, _) => RewriteIdempotent(i);
    case Questioned(i) => RewriteIdempotent(i);
    case Selected(_, i) => RewriteIdempotent(i);
    case Named(_, i) => RewriteIdempotent(i);
    case _ =>
  }

  /** A filter whose conjuncts all stay put is passed over. */
  lemma RewriteSettled(i: PathPattern, e: Expr)
    requires Pushed(VarKinds(i), FlattenAnd(e)) == [] && Rewrite(i) == i
    ensures Rewrite(Filter(i, e)) == Filter(i, e)
  {
  }

  lemma {:induction false} FilterIdempotent(i: PathPattern, e: Expr)
    ensures Rewrite(Rewrite(Filter(i, e))) == Rewrite(Filter(i, e))
    decreases Size(i), 1
  {
    var pushed := Pushed(VarKinds(i), FlattenAnd(e));
    var kept := Kept(VarKinds(i), FlattenAnd(e));
    MergeKeepsShape(i, pushed);
    MergeKeepsKinds(i, pushed, map[]);
    var next := if pushed == [] then i else Merge(i, pushed);
    RewriteKeepsKinds(next, map[]);
    RewriteIdempotent(next);
    if pushed == [] {
      RewriteSettled(Rewrite(i), e);
    } else if kept != [] {
      FlattenedAtomic(e);
      KeptStays(VarKinds(i), FlattenAnd(e));
      FlattenRebuild(kept);
      NothingPushed(VarKinds(i), kept);
      RewriteSettled(Rewrite(next), RebuildAnd(kept));
    }
  }
}
