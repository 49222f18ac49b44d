/** Descriptor lowering: an inline value filter `{k: literal}` becomes a WHERE on the element's
    variable, generated when the element has none, and records the type the literal implies. */
module Lowering {
  import opened Values
  import opened Syntax
  import opened FreshNames

  type ValueFilter = (string, Expr)

  /** Numbers compare across the int/float split, so a numeric literal implies their union. */
  function LiteralType(e: Expr): Option<SimpleType> {
    match e
    case Const(Int(_)) => Some(UnionType(IntType, FloatType))
    case Const(Float(_)) => Some(UnionType(IntType, FloatType))
    case Const(Str(_)) => Some(StrType)
    case Const(Bool(_)) => Some(BoolType)
    case _ => None
  }

  function ExtendLiteral(pt: PropertyType, f: ValueFilter): PropertyType {
    match LiteralType(f.1) case Some(t) => Extend(pt, f.0, t) case None => pt
  }

  function ExtendLiterals(pt: PropertyType, fs: seq<ValueFilter>): PropertyType {
    if fs == [] then pt else ExtendLiteral(ExtendLiterals(pt, fs[..|fs| - 1]), fs[|fs| - 1])
  }

  function EqExpr(x: string, f: ValueFilter): Expr {
    Binop(Cmp(Eq), AttrLookup(x, f.0), f.1)
  }

  function FiltersExpr(x: string, fs: seq<ValueFilter>): Expr
    requires fs != []
  {
    if |fs| == 1 then EqExpr(x, fs[0])
    else Binop(And, FiltersExpr(x, fs[..|fs| - 1]), EqExpr(x, fs[|fs| - 1]))
  }

  /** `filters_to_expr` */
  method FiltersToExpr(x: string, fs: seq<ValueFilter>) returns (cond: Expr)
    requires fs != []
    ensures cond == FiltersExpr(x, fs)
  {
    cond := EqExpr(x, fs[0]);
    for i := 1 to |fs|
      invariant cond == FiltersExpr(x, fs[..i])
    {
      cond := Binop(And, cond, EqExpr(x, fs[i]));
      assert fs[..i + 1][..i] == fs[..i];
    }
    assert fs[..|fs|] == fs;
  }

  function WithDesc(p: PathPattern, d: Option<Descriptor>): PathPattern
    requires p.Node? || p.Edge?
  {
    if p.Node? then Node(d) else Edge(p.dir, d)
  }

  /** The descriptor once its filters, named by `x`, have moved out. */
  function LoweredDesc(d: Descriptor, x: string): Descriptor {
    d.(name := Some(x), props := ExtendLiterals(d.props, d.valueFilters), valueFilters := [])
  }

  predicate HasFilters(d: Option<Descriptor>) {
    d.Some? && d.value.valueFilters != []
  }

  /** The variable the filters will speak about, given the generator's counter. */
  function ElementName(d: Descriptor, n: nat, taken: set<string>): string {
    if d.name.Some? then d.name.value else NameAt(NextIndex(n, taken))
  }

  function LowerElement(p: PathPattern, n: nat, taken: set<string>): (PathPattern, nat)
    requires p.Node? || p.Edge?
  {
    if !HasFilters(p.desc) then (p, n)
    else
      var d := p.desc.value;
      var x := ElementName(d, n, taken);
      (Filter(WithDesc(p, Some(LoweredDesc(d, x))), FiltersExpr(x, d.valueFilters)),
       if d.name.Some? then n else NextIndex(n, taken) + 1)
  }

  /** The lowered pattern and the generator's counter afterwards. */
  function Lower(p: PathPattern, n: nat, taken: set<string>): (PathPattern, nat) {
    match p
    case Node(_) => LowerElement(p, n, taken)
    case Edge(_, _) => LowerElement(p, n, taken)
    case Concat(a, b) =>
      var (a', m) := Lower(a, n, taken);
      var (b', k) := Lower(b, m, taken);
      (Concat(a', b'), k)
    case Union(a, b) =>
      var (a', m) := Lower(a, n, taken);
      var (b', k) := Lower(b, m, taken);
      (PathPattern.Union(a', b'), k)
    case Join(a, b) =>
      var (a', m) := Lower(a, n, taken);
      var (b', k) := Lower(b, m, taken);
      (Join(a', b'), k)
    case Filter(i, e) => var (i', m) := Lower(i, n, taken); (Filter(i', e), m)
    case Repeat(i, lb, ub) => var (i', m) := Lower(i, n, taken); (Repeat(i', lb, ub), m)
    case Questioned(i) => var (i', m) := Lower(i, n, taken); (Questioned(i'), m)
    case Selected(prefix, i) => var (i', m) := Lower(i, n, taken); (Selected(prefix, i'), m)
    case Named(x, i) => var (i', m) := Lower(i, n, taken); (Named(x, i'), m)
  }

  /** `lower_node_or_edge`, drawing a name from the shared generator when it needs one. */
  method LowerNodeOrEdge(p: PathPattern, names: FreshVars) returns (q: PathPattern)
    requires p.Node? || p.Edge?
    modifies names`counter
    ensures (q, names.counter) == LowerElement(p, old(names.counter), names.taken)
  {
    if p.desc.None? || p.desc.value.valueFilters == [] {
      q := p;
      return;
    }
    var desc := p.desc.value;
    var filters := desc.valueFilters;
    desc := desc.(valueFilters := []);
    if desc.name.None? {
      var name := names.Next();
      desc := desc.(name := Some(name));
    }
    ghost var props := desc.props;
    for i := 0 to |filters|
      invariant desc == desc.(props := ExtendLiterals(props, filters[..i]))
      invariant desc.name == Some(ElementName(p.desc.value, old(names.counter), names.taken))
      invariant desc.labels == p.desc.value.labels && desc.valuePreds == p.desc.value.valuePreds
        && desc.valueFilters == []
    {
      var t := LiteralType(filters[i].1);
      if t.Some? {
        desc := desc.(props := Extend(desc.props, filters[i].0, t.value));
      }
      assert filters[..i + 1][..i] == filters[..i];
    }
    assert filters[..|filters|] == filters;
    var cond := FiltersToExpr(desc.name.value, filters);
    q := Filter(WithDesc(p, Some(desc)), cond);
  }

  /** `elaborate_pattern` */
  method ElaboratePattern(p: PathPattern, names: FreshVars) returns (q: PathPattern)
    modifies names`counter
    ensures (q, names.counter) == Lower(p, old(names.counter), names.taken)
    decreases p
  {
    match p
    case Node(_) => q := LowerNodeOrEdge(p, names);
    case Edge(_, _) => q := LowerNodeOrEdge(p, names);
    case Concat(a, b) =>
      var a' := ElaboratePattern(a, names);
      var b' := ElaboratePattern(b, names);
      q := Concat(a', b');
    case Union(a, b) =>
      var a' := ElaboratePattern(a, names);
      var b' := ElaboratePattern(b, names);
      q := PathPattern.Union(a', b');
    case Join(a, b) =>
      var a' := ElaboratePattern(a, names);
      var b' := ElaboratePattern(b, names);
      q := Join(a', b');
    case Filter(i, e) =>
      var i' := ElaboratePattern(i, names);
      q := Filter(i', e);
    case Repeat(i, lb, ub) =>
      var i' := ElaboratePattern(i, names);
      q := Repeat(i', lb, ub);
    case Questioned(i) =>
      var i' := ElaboratePattern(i, names);
      q := Questioned(i');
    case Selected(prefix, i) =>
      var i' := ElaboratePattern(i, names);
      q := Selected(prefix, i');
    case Named(x, i) =>
      var i' := ElaboratePattern(i, names);
      q := Named(x, i');
  }

  // ---------------------------------------------------------------- hygiene

  predicate NoValueFilters(p: PathPattern) {
    match p
    case Node(d) => !HasFilters(d)
    case Edge(_, d) => !HasFilters(d)
    case Concat(a, b) => NoValueFilters(a) && NoValueFilters(b)
    case Union(a, b) => NoValueFilters(a) && NoValueFilters(b)
    case Join(a, b) => NoValueFilters(a) && NoValueFilters(b)
    case Filter(i, _) => NoValueFilters(i)
    case Repeat(i, _, _) => NoValueFilters(i)
    case Questioned(i) => NoValueFilters(i)
    case Selected(_, i) => NoValueFilters(i)
    case Named(_, i) => NoValueFilters(i)
  }

  /** The only new variables of a lowered pattern are names the generator produced on this stretch
      of its counter. */
  ghost predicate Hygienic(p: PathPattern, q: PathPattern, n: nat, m: nat, taken: set<string>) {
    && n <= m
    && FreeVars(p) <= FreeVars(q) <= FreeVars(p) + Range(n, m, taken)
    && PathVars(q) == PathVars(p)
  }

  lemma HygienicPair(a: PathPattern, b: PathPattern, a': PathPattern, b': PathPattern, n: nat, m: nat, k: nat,
                     taken: set<string>)
    requires Hygienic(a, a', n, m, taken) && Hygienic(b, b', m, k, taken)
    ensures Hygienic(Concat(a, b), Concat(a', b'), n, k, taken)
    ensures Hygienic(PathPattern.Union(a, b), PathPattern.Union(a', b'), n, k, taken)
    ensures Hygienic(Join(a, b), Join(a', b'), n, k, taken)
  {
    RangesDisjoint(n, m, k, taken);
  }

  lemma LowerElementHygienic(p: PathPattern, n: nat, taken: set<string>)
    requires p.Node? || p.Edge?
    ensures Hygienic(p, LowerElement(p, n, taken).0, n, LowerElement(p, n, taken).1, taken)
    ensures NoValueFilters(LowerElement(p, n, taken).0)
  {
    if HasFilters(p.desc) && p.desc.value.name.None? {
      NextIsFirstFree(n, taken);
      var i := NextIndex(n, taken);
      assert n <= i < i + 1 && NameAt(i) in Range(n, i + 1, taken);
    }
  }

  /** Lowering leaves no value filter behind and invents no name the pattern uses. */
  lemma {:induction false} LowerHygienic(p: PathPattern, n: nat, taken: set<string>)
    ensures Hygienic(p, Lower(p, n, taken).0, n, Lower(p, n, taken).1, taken)
    ensures NoValueFilters(Lower(p, n, taken).0)
    decreases Size(p), 0
  {
    match p
    case Node(_) => LowerElementHygienic(p, n, taken);
    case Edge(_, _) => LowerElementHygienic(p, n, taken);
    case Concat(a, b) => LowerPairHygienic(a, b, n, taken);
    case Union(a, b) => LowerPairHygienic(a, b, n, taken);
    case Join(a, b) => LowerPairHygienic(a, b, n, taken);
    case Filter(i, _) => LowerHygienic(i, n, taken);
    case Repeat(i, _, _) => LowerHygienic(i, n, taken);
    case Questioned(i) => LowerHygienic(i, n, taken);
    case Selected(_, i) => LowerHygienic(i, n, taken);
    case Named(_, i) => LowerHygienic(i, n, taken);
  }

  lemma {:induction false} LowerPairHygienic(a: PathPattern, b: PathPattern, n: nat, taken: set<string>)
    ensures var (a', m) := Lower(a, n, taken);
      var (b', k) := Lower(b, m, taken);
      && Hygienic(a, a', n, m, taken) && Hygienic(b, b', m, k, taken)
      && NoValueFilters(a') && NoValueFilters(b')
      && Hygienic(Concat(a, b), Concat(a', b'), n, k, taken)
      && Hygienic(PathPattern.Union(a, b), PathPattern.Union(a', b'), n, k, taken)
      && Hygienic(Join(a, b), Join(a', b'), n, k, taken)
    decreases Size(a) + Size(b), 1
  {
    var (a', m) := Lower(a, n, taken);
    var (b', k) := Lower(b, m, taken);
    LowerHygienic(a, n, taken);
    LowerHygienic(b, m, taken);
    HygienicPair(a, b, a', b', n, m, k, taken);
  }
}
