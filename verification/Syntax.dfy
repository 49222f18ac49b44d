/** The core abstract syntax: expressions, descriptors and path patterns, with the variable
    collectors the passes rely on. */
module Syntax {
  import opened Values

  datatype BinOp = Cmp(op: CmpOp) | And | Or | Is

  datatype Expr =
    | Const(v: Value)
    | Var(name: string)
    | AttrLookup(obj: string, attr: string)
    | Binop(bop: BinOp, left: Expr, right: Expr)
    | Not(operand: Expr)
    | IsNull(operand: Expr, negated: bool)
    | Coalesce(args: seq<Expr>)
    | ListComp(item: string, source: Expr, cond: Option<Expr>, body: Expr)
    | TypeLit(t: SimpleType)
    /** EXISTS / NOT EXISTS / VALUE: `query` identifies the body, `mentions` are the variables its
        patterns declare or its expressions reference. */
    | Subquery(query: nat, mentions: set<string>)

  datatype Descriptor = Descriptor(
    name: Option<string>,
    labels: set<string>,
    props: PropertyType,
    valueFilters: seq<(string, Expr)>,
    valuePreds: seq<(string, CmpOp, Value)>)

  datatype EdgeDir = Right | Left | Undirected | AnyDirection

  datatype PathMode = Walk | Trail | Simple | Acyclic

  datatype PathSearch = All | Any(count: nat) | ShortestPaths(count: nat) | ShortestGroups(count: nat)

  datatype PathPrefix = PathPrefix(mode: PathMode, search: PathSearch)

  datatype PathPattern =
    | Node(desc: Option<Descriptor>)
    | Edge(dir: EdgeDir, desc: Option<Descriptor>)
    | Concat(fst: PathPattern, snd: PathPattern)
    | Union(fst: PathPattern, snd: PathPattern)
    | Join(fst: PathPattern, snd: PathPattern)
    | Filter(inner: PathPattern, expr: Expr)
    | Repeat(inner: PathPattern, lb: nat, ub: Option<nat>)
    | Questioned(inner: PathPattern)
    | Selected(prefix: PathPrefix, inner: PathPattern)
    | Named(name: string, inner: PathPattern)

  datatype MatchStatement = SimpleMatch(pattern: PathPattern) | OptionalMatch(pattern: PathPattern)

  // ---------------------------------------------------------------- expression variables

  /** `Expr::referenced_vars`: subqueries contribute nothing, a comprehension hides its item. */
  function Referenced(e: Expr): set<string> {
    match e
    case Var(x) => {x}
    case AttrLookup(x, _) => {x}
    case Binop(_, l, r) => Referenced(l) + Referenced(r)
    case Not(o) => Referenced(o)
    case IsNull(o, _) => Referenced(o)
    case Coalesce(args) => set a, x | a in args && x in Referenced(a) :: x
    case ListComp(item, src, cond, body) =>
      Referenced(src) + ((if cond.Some? then Referenced(cond.value) else {}) + Referenced(body) - {item})
    case Const(_) => {}
    case TypeLit(_) => {}
    case Subquery(_, _) => {}
  }

  /** Variables an expression can only see through a subquery body. */
  function SubqueryVars(e: Expr): set<string> {
    match e
    case Binop(_, l, r) => SubqueryVars(l) + SubqueryVars(r)
    case Not(o) => SubqueryVars(o)
    case IsNull(o, _) => SubqueryVars(o)
    case Coalesce(args) => set a, x | a in args && x in SubqueryVars(a) :: x
    case ListComp(_, src, cond, body) =>
      SubqueryVars(src) + (if cond.Some? then SubqueryVars(cond.value) else {}) + SubqueryVars(body)
    case Subquery(_, vars) => vars
    case _ => {}
  }

  predicate HasSubquery(e: Expr) {
    match e
    case Binop(_, l, r) => HasSubquery(l) || HasSubquery(r)
    case Not(o) => HasSubquery(o)
    case IsNull(o, _) => HasSubquery(o)
    case Coalesce(args) => exists a :: a in args && HasSubquery(a)
    case ListComp(_, src, cond, body) =>
      HasSubquery(src) || (cond.Some? && HasSubquery(cond.value)) || HasSubquery(body)
    case Subquery(_, _) => true
    case _ => false
  }

  // ---------------------------------------------------------------- pattern variables

  function DescVars(d: Option<Descriptor>): set<string> {
    if d.Some? && d.value.name.Some? then {d.value.name.value} else {}
  }

  /** `PathPattern::freevars`: the element variables. */
  function FreeVars(p: PathPattern): set<string> {
    match p
    case Node(d) => DescVars(d)
    case Edge(_, d) => DescVars(d)
    case Concat(a, b) => FreeVars(a) + FreeVars(b)
    case Union(a, b) => FreeVars(a) + FreeVars(b)
    case Join(a, b) => FreeVars(a) + FreeVars(b)
    case Filter(i, _) => FreeVars(i)
    case Repeat(i, _, _) => FreeVars(i)
    case Questioned(i) => FreeVars(i)
    case Selected(_, i) => FreeVars(i)
    case Named(_, i) => FreeVars(i)
  }

  /** `collect_path_vars`: the path variables. */
  function PathVars(p: PathPattern): set<string> {
    match p
    case Node(_) => {}
    case Edge(_, _) => {}
    case Concat(a, b) => PathVars(a) + PathVars(b)
    case Union(a, b) => PathVars(a) + PathVars(b)
    case Join(a, b) => PathVars(a) + PathVars(b)
    case Filter(i, _) => PathVars(i)
    case Repeat(i, _, _) => PathVars(i)
    case Questioned(i) => PathVars(i)
    case Selected(_, i) => PathVars(i)
    case Named(v, i) => {v} + PathVars(i)
  }

  function Declared(p: PathPattern): set<string> {
    FreeVars(p) + PathVars(p)
  }

  predicate HasSelected(p: PathPattern) {
    match p
    case Selected(_, _) => true
    case Node(_) => false
    case Edge(_, _) => false
    case Concat(a, b) => HasSelected(a) || HasSelected(b)
    case Union(a, b) => HasSelected(a) || HasSelected(b)
    case Join(a, b) => HasSelected(a) || HasSelected(b)
    case Filter(i, _) => HasSelected(i)
    case Repeat(i, _, _) => HasSelected(i)
    case Questioned(i) => HasSelected(i)
    case Named(_, i) => HasSelected(i)
  }

  function Size(p: PathPattern): nat {
    match p
    case Node(_) => 1
    case Edge(_, _) => 1
    case Concat(a, b) => 1 + Size(a) + Size(b)
    case Union(a, b) => 1 + Size(a) + Size(b)
    case Join(a, b) => 1 + Size(a) + Size(b)
    case Filter(i, _) => 1 + Size(i)
    case Repeat(i, _, _) => 1 + Size(i)
    case Questioned(i) => 1 + Size(i)
    case Selected(_, i) => 1 + Size(i)
    case Named(_, i) => 1 + Size(i)
  }

  /** Variables that every row of the pattern is certain to bind.  `Questioned` promises nothing:
      its empty branch binds no variable.  A union pads element variables only. */
  function Sure(p: PathPattern): set<string> {
    match p
    case Node(d) => DescVars(d)
    case Edge(_, d) => DescVars(d)
    case Concat(a, b) => Sure(a) + Sure(b)
    case Union(a, b) => FreeVars(p) + Sure(a) * Sure(b)
    case Join(a, b) => Sure(a) + Sure(b)
    case Filter(i, _) => Sure(i)
    case Repeat(i, lb, ub) => if ub.None? then FreeVars(i) else if lb == 0 then FreeVars(i) * Sure(i) else Sure(i)
    case Questioned(_) => {}
    case Selected(_, i) => Sure(i)
    case Named(v, i) => {v} + Sure(i)
  }

  /** Wrap `p` in the filters `es`, the first one innermost. */
  function FoldFilters(p: PathPattern, es: seq<Expr>): PathPattern
    decreases |es|
  {
    if es == [] then p else FoldFilters(Filter(p, es[0]), es[1..])
  }
}
