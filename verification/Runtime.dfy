/** The reference evaluator: expressions over a binding row, path patterns to row sequences.

    Rows come out in the order of the evaluator's own loops, so equalities proved about `Rows`
    are equalities of row sequences, which is stronger than equality of bags. */
module Runtime {
  import opened Values
  import opened Syntax
  import opened RowAlgebra

  datatype PathValue =
    | PNode(id: Id)
    | PEdge(id: Id, directed: bool)
    | Nothing
    | Group(members: seq<PathValue>)
    | PPath(steps: seq<PathValue>)

  type Path = seq<PathValue>
  type Assignment = map<string, PathValue>

  datatype Row = Row(paths: seq<Path>, mu: Assignment)

  datatype Graph = Graph(
    nodes: seq<Id>,
    directedEdges: seq<Id>,
    undirectedEdges: seq<Id>,
    src: Id -> Id,
    tgt: Id -> Id,
    nodeLabels: Id -> set<string>,
    edgeLabels: Id -> set<string>,
    nodeProps: Id -> Props,
    edgeProps: Id -> Props)

  datatype Policy = Forbidden | KShortest(count: nat, groups: bool) | ByMode(mode: PathMode)

  /** One answer of an unbounded repetition: a path and the group of each repeated variable. */
  datatype StarRow = StarRow(path: Path, groups: map<string, seq<PathValue>>)

  type Scope = seq<(string, Value)>

  /** What an evaluation can see besides the row: the graph, the bindings of the ambient outer rows
      (the innermost row's where several bind a name), whether inline value filters are read directly
      off the descriptor (the surface reading), and three parts that stay parameters -- subquery
      bodies, unbounded repetition, and the arbitrary member a hash set hands out as the join key. */
  datatype Env = Env(
    g: Graph,
    ambient: Assignment,
    surface: bool,
    subquery: (nat, Scope, Assignment, Assignment) -> ExprResult,
    star: (Policy, nat, set<string>, seq<Row>) -> seq<StarRow>,
    pick: set<string> -> string)

  // ---------------------------------------------------------------- expressions

  function LookupScope(scope: Scope, x: string): Option<Value> {
    if scope == [] then None
    else if scope[0].0 == x then Some(scope[0].1)
    else LookupScope(scope[1..], x)
  }

  function LookupVar(env: Env, mu: Assignment, x: string): Option<PathValue> {
    if x in mu then Some(mu[x]) else if x in env.ambient then Some(env.ambient[x]) else None
  }

  function ToValue(pv: PathValue): Value {
    match pv
    case PNode(id) => NodeRef(id)
    case PEdge(id, _) => EdgeRef(id)
    case Nothing => Null
    case Group(items) => List(seq(|items|, i requires 0 <= i < |items| => ToValue(items[i])))
    case PPath(items) => PathRef(seq(|items|, i requires 0 <= i < |items| => ToValue(items[i])))
  }

  function AttrOfPathValue(g: Graph, pv: PathValue, attr: string): ExprResult {
    match pv
    case PNode(id) => Success(PropOrNull(g.nodeProps(id), attr))
    case PEdge(id, _) => Success(PropOrNull(g.edgeProps(id), attr))
    case Group(items) =>
      Success(List(seq(|items|, i requires 0 <= i < |items| =>
        match AttrOfPathValue(g, items[i], attr) case Success(v) => v case Failure => Null)))
    case Nothing => Failure
    case PPath(_) => Failure
  }

  function AttrOfValue(g: Graph, v: Value, attr: string): ExprResult {
    match v
    case NodeRef(id) => Success(PropOrNull(g.nodeProps(id), attr))
    case EdgeRef(id) => Success(PropOrNull(g.edgeProps(id), attr))
    case _ => Failure
  }

  function EvalAnd(l: Value, r: Value): ExprResult {
    if !(l.Null? || l.Bool?) || !(r.Null? || r.Bool?) then Failure
    else if l == Bool(false) || r == Bool(false) then Success(Bool(false))
    else if l == Bool(true) && r == Bool(true) then Success(Bool(true))
    else Success(Null)
  }

  function EvalOr(l: Value, r: Value): ExprResult {
    if !(l.Null? || l.Bool?) || !(r.Null? || r.Bool?) then Failure
    else if l == Bool(true) || r == Bool(true) then Success(Bool(true))
    else if l == Bool(false) && r == Bool(false) then Success(Bool(false))
    else Success(Null)
  }

  function ApplyBinop(bop: BinOp, l: Value, r: Value): ExprResult {
    match bop
    case Cmp(op) => EvalCmp(op, l, r)
    case And => EvalAnd(l, r)
    case Or => EvalOr(l, r)
    case Is => Failure
  }

  function Restrict(mu: Assignment, vars: set<string>): Assignment {
    map x | x in mu && x in vars :: mu[x]
  }

  function Eval(env: Env, scope: Scope, mu: Assignment, e: Expr): ExprResult
    decreases e, 1, 0
  {
    match e
    case Const(v) => Success(v)
    case Var(x) =>
      (match LookupScope(scope, x)
       case Some(v) => Success(v)
       case None => match LookupVar(env, mu, x) case Some(pv) => Success(ToValue(pv)) case None => Failure)
    case AttrLookup(x, attr) =>
      (match LookupScope(scope, x)
       case Some(v) => AttrOfValue(env.g, v, attr)
       case None => match LookupVar(env, mu, x) case Some(pv) => AttrOfPathValue(env.g, pv, attr) case None => Failure)
    case Binop(bop, l, r) =>
      if bop.Is? then
        match Eval(env, scope, mu, l) {
          case Failure => Failure
          case Success(v) => if r.TypeLit? then Success(Bool(ValueIsType(v, r.t))) else Failure
        }
      else
        match (Eval(env, scope, mu, l), Eval(env, scope, mu, r)) {
          case (Success(x), Success(y)) => ApplyBinop(bop, x, y)
          case _ => Failure
        }
    case Not(o) =>
      (match Eval(env, scope, mu, o)
       case Success(Bool(b)) => Success(Bool(!b))
       case Success(Null) => Success(Null)
       case _ => Failure)
    case IsNull(o, negated) =>
      var isNull := match Eval(env, scope, mu, o) case Success(v) => v.Null? case Failure => true;
      Success(Bool(if negated then !isNull else isNull))
    case Coalesce(args) => EvalCoalesce(env, scope, mu, args)
    case ListComp(_, src, _, _) =>
      (match Eval(env, scope, mu, src)
       case Success(List(items)) => Success(List(EvalItems(env, scope, mu, e, items)))
       case Success(Null) => Success(List([]))
       case Failure => Success(List([]))
       case _ => Failure)
    case TypeLit(_) => Failure
    case Subquery(q, vars) => env.subquery(q, scope, Restrict(mu, vars), Restrict(env.ambient, vars))
  }

  function EvalCoalesce(env: Env, scope: Scope, mu: Assignment, args: seq<Expr>): ExprResult
    decreases args, 1, 0
  {
    if args == [] then Success(Null)
    else match Eval(env, scope, mu, args[0])
      case Success(v) => if v.Null? then EvalCoalesce(env, scope, mu, args[1..]) else Success(v)
      case Failure => EvalCoalesce(env, scope, mu, args[1..])
  }

  /** The elements a comprehension keeps, its item bound innermost in the scope. */
  function EvalItems(env: Env, scope: Scope, mu: Assignment, lc: Expr, items: seq<Value>): seq<Value>
    requires lc.ListComp?
    decreases lc, 0, |items|
  {
    if items == [] then []
    else
      var inner := [(lc.item, items[0])] + scope;
      var rest := EvalItems(env, scope, mu, lc, items[1..]);
      if lc.cond.Some? && !IsTrue(Eval(env, inner, mu, lc.cond.value)) then rest
      else [match Eval(env, inner, mu, lc.body) case Success(v) => v case Failure => Null] + rest
  }
}
