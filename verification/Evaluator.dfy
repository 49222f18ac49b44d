/** Path patterns to row sequences: `run_path_pattern` with its pairwise (hash-join) evaluators,
    bounded repetition and the path prefixes. */
module Evaluator {
  import opened Values
  import opened Syntax
  import opened RowAlgebra
  import opened Runtime

  function FlatMap<T, U>(s: seq<T>, f: T -> seq<U>): seq<U> {
    if s == [] then [] else f(s[0]) + FlatMap(s[1..], f)
  }

  // ---------------------------------------------------------------- rows

  function LastPath(r: Row): Path {
    if r.paths == [] then [] else r.paths[|r.paths| - 1]
  }

  function FirstPath(r: Row): Path {
    if r.paths == [] then [] else r.paths[0]
  }

  function FirstNode(p: Path): Option<Id> {
    if p != [] && p[0].PNode? then Some(p[0].id) else None
  }

  function LastNode(p: Path): Option<Id> {
    if p != [] && p[|p| - 1].PNode? then Some(p[|p| - 1].id) else None
  }

  predicate CanUnify(a: Assignment, b: Assignment) {
    forall k :: k in a && k in b ==> a[k] == b[k]
  }

  function BindOpt(name: Option<string>, pv: PathValue): Assignment {
    match name case Some(x) => map[x := pv] case None => map[]
  }

  function Extended(r: Row, ext: Path, mu: Assignment): Row {
    if r.paths == [] then Row([], mu)
    else
      var n := |r.paths| - 1;
      Row(r.paths[n := r.paths[n] + (if ext == [] then [] else ext[1..])], mu)
  }

  predicate EndsMeet(r1: Row, r2: Row) {
    LastNode(LastPath(r1)).Some? && LastNode(LastPath(r1)) == FirstNode(LastPath(r2))
  }

  /** `hash_join`: the paths meet and the assignments unify. */
  predicate ConcatCompat(r1: Row, r2: Row) {
    EndsMeet(r1, r2) && CanUnify(r1.mu, r2.mu)
  }

  function ConcatMerge(r1: Row, r2: Row): Row {
    Extended(r1, LastPath(r2), r1.mu + r2.mu)
  }

  function JoinMerge(r1: Row, r2: Row): Row {
    Row(r1.paths + r2.paths, r1.mu + r2.mu)
  }

  /** `run_join`: without a shared element variable the product is taken unchecked; otherwise the
      rows meet on one shared variable and must unify. */
  predicate JoinCompat(env: Env, shared: set<string>, r1: Row, r2: Row) {
    if shared == {} then true
    else
      var jv := env.pick(shared);
      jv in r1.mu && jv in r2.mu && r1.mu[jv] == r2.mu[jv] && CanUnify(r1.mu, r2.mu)
  }

  /** The arbitrary join key is one of the shared names. */
  ghost predicate Picks(env: Env) {
    forall s: set<string> :: s != {} ==> env.pick(s) in s
  }

  function JoinTest(env: Env, shared: set<string>): (Row, Row) -> bool {
    (r1, r2) => JoinCompat(env, shared, r1, r2)
  }

  /** Natural join: rows pair when their assignments unify. */
  predicate Unifies(r1: Row, r2: Row) {
    CanUnify(r1.mu, r2.mu)
  }

  function NatJoin(xs: seq<Row>, ys: seq<Row>): seq<Row> {
    PairAll(xs, ys, Unifies, JoinMerge)
  }

  // ---------------------------------------------------------------- element patterns

  predicate ValuePredsHold(props: Props, preds: seq<(string, CmpOp, Value)>) {
    forall i :: 0 <= i < |preds| ==> preds[i].0 in props && CmpValues(props[preds[i].0], preds[i].1, preds[i].2)
  }

  /** The surface meaning of `{k: literal}`: equality with the literal. */
  predicate ValueFiltersHold(props: Props, filters: seq<(string, Expr)>) {
    forall i :: 0 <= i < |filters| && filters[i].1.Const? ==>
      IsTrue(EvalCmp(Eq, PropOrNull(props, filters[i].0), filters[i].1.v))
  }

  predicate ElementMatches(surface: bool, labels: set<string>, props: Props, d: Option<Descriptor>) {
    d.Some? ==>
      && d.value.labels <= labels
      && PropsMatch(props, d.value.props)
      && ValuePredsHold(props, d.value.valuePreds)
      && (surface ==> ValueFiltersHold(props, d.value.valueFilters))
  }

  function NodeTest(env: Env, d: Option<Descriptor>): Id -> bool {
    (id: Id) => ElementMatches(env.surface, env.g.nodeLabels(id), env.g.nodeProps(id), d)
  }

  function EdgeTest(env: Env, d: Option<Descriptor>): Id -> bool {
    (id: Id) => ElementMatches(env.surface, env.g.edgeLabels(id), env.g.edgeProps(id), d)
  }

  function NameOf(d: Option<Descriptor>): Option<string> {
    if d.Some? then d.value.name else None
  }

  function NodeStep(name: Option<string>): Id -> seq<Row> {
    (id: Id) => [Row([[PNode(id)]], BindOpt(name, PNode(id)))]
  }

  function EdgeRow(from: Id, e: PathValue, to: Id, name: Option<string>): Row {
    Row([[PNode(from), e, PNode(to)]], BindOpt(name, e))
  }

  /** The rows one edge contributes; an undirected edge is walked both ways. */
  function RowsOfEdge(g: Graph, dir: EdgeDir, name: Option<string>, id: Id): seq<Row> {
    if dir.Right? then [EdgeRow(g.src(id), PEdge(id, true), g.tgt(id), name)]
    else if dir.Left? then [EdgeRow(g.tgt(id), PEdge(id, true), g.src(id), name)]
    else [EdgeRow(g.src(id), PEdge(id, false), g.tgt(id), name), EdgeRow(g.tgt(id), PEdge(id, false), g.src(id), name)]
  }

  function EdgeStep(g: Graph, dir: EdgeDir, name: Option<string>): Id -> seq<Row> {
    (id: Id) => RowsOfEdge(g, dir, name, id)
  }

  function NodeRows(env: Env, d: Option<Descriptor>): seq<Row> {
    FlatMap(FilterSeq(env.g.nodes, NodeTest(env, d)), NodeStep(NameOf(d)))
  }

  function EdgeRowsOf(env: Env, dir: EdgeDir, d: Option<Descriptor>): seq<Row> {
    FlatMap(FilterSeq(if dir.Undirected? then env.g.undirectedEdges else env.g.directedEdges, EdgeTest(env, d)),
            EdgeStep(env.g, dir, NameOf(d)))
  }

  function EdgeRows(env: Env, dir: EdgeDir, d: Option<Descriptor>): seq<Row> {
    if dir.AnyDirection?
    then EdgeRowsOf(env, Right, d) + EdgeRowsOf(env, Left, d) + EdgeRowsOf(env, Undirected, d)
    else EdgeRowsOf(env, dir, d)
  }

  // ---------------------------------------------------------------- unions, repetition, names

  function Fill(vars: set<string>): Row -> Row {
    (r: Row) => Row(r.paths, r.mu + map x | x in vars && x !in r.mu :: Nothing)
  }

  function NameRow(x: string): Row -> Row {
    (r: Row) => Row(r.paths, r.mu[x := PPath(LastPath(r))])
  }

  function GroupRow(r: Row): Row {
    Row(r.paths, map x | x in r.mu :: Group([r.mu[x]]))
  }

  function ConcatGroups(a: Assignment, b: Assignment): Assignment {
    map x | x in a :: if a[x].Group? && x in b && b[x].Group? then Group(a[x].members + b[x].members) else a[x]
  }

  function GroupMerge(r1: Row, r2: Row): Row {
    Extended(r1, LastPath(r2), ConcatGroups(r1.mu, r2.mu))
  }

  function EmptyGroups(vars: set<string>): Assignment {
    map x | x in vars :: Group([])
  }

  function ZeroStep(vars: set<string>): Id -> seq<Row> {
    (id: Id) => [Row([[PNode(id)]], EmptyGroups(vars))]
  }

  /** Rows of exactly `k` laps. */
  function Level(grouped: seq<Row>, k: nat): seq<Row>
    requires k >= 1
  {
    if k == 1 then grouped else PairAll(Level(grouped, k - 1), grouped, EndsMeet, GroupMerge)
  }

  function Levels(grouped: seq<Row>, k: nat, ub: nat): seq<Row>
    requires k >= 1
    decreases ub + 1 - k
  {
    if k > ub then [] else Level(grouped, k) + Levels(grouped, k + 1, ub)
  }

  function RepeatRows(env: Env, vars: set<string>, rows: seq<Row>, lb: nat, ub: nat): seq<Row> {
    if lb > ub then []
    else (if lb == 0 then FlatMap(env.g.nodes, ZeroStep(vars)) else [])
         + Levels(MapSeq(rows, GroupRow), if lb == 0 then 1 else lb, ub)
  }

  /** An unbounded repetition binds one group per repeated variable. */
  function StarToRow(vars: set<string>): StarRow -> Row {
    (s: StarRow) => Row([s.path], map x | x in vars :: Group(if x in s.groups then s.groups[x] else []))
  }

  function Repeated(env: Env, pol: Policy, vars: set<string>, rows: seq<Row>, lb: nat, ub: Option<nat>): seq<Row> {
    if ub.Some? then RepeatRows(env, vars, rows, lb, ub.value)
    else MapSeq(env.star(pol, lb, vars, rows), StarToRow(vars))
  }

  // ---------------------------------------------------------------- path prefixes

  function EdgeIds(p: Path): seq<Id> {
    if p == [] then [] else if p[0].PEdge? then [p[0].id] + EdgeIds(p[1..]) else EdgeIds(p[1..])
  }

  function NodeIds(p: Path): seq<Id> {
    if p == [] then [] else if p[0].PNode? then [p[0].id] + NodeIds(p[1..]) else NodeIds(p[1..])
  }

  predicate NoRepeats(s: seq<Id>) {
    forall i, j :: 0 <= i < j < |s| ==> s[i] != s[j]
  }

  predicate PathInMode(p: Path, mode: PathMode) {
    match mode
    case Walk => true
    case Trail => NoRepeats(EdgeIds(p))
    case Acyclic => NoRepeats(NodeIds(p))
    case Simple =>
      var ids := NodeIds(p);
      |ids| <= 1 || (NoRepeats(ids[..|ids| - 1]) && ids[|ids| - 1] !in ids[1..|ids| - 1])
  }

  function ModeTest(mode: PathMode): Row -> bool {
    (r: Row) => forall i :: 0 <= i < |r.paths| ==> PathInMode(r.paths[i], mode)
  }

  type BoundaryKey = (Option<Id>, Option<Id>)

  function KeyOf(r: Row): BoundaryKey {
    (FirstNode(FirstPath(r)), LastNode(LastPath(r)))
  }

  function TotalLength(paths: seq<Path>): nat {
    if paths == [] then 0 else |EdgeIds(paths[0])| + TotalLength(paths[1..])
  }

  function RowLength(r: Row): nat {
    TotalLength(r.paths)
  }

  /** The rows of one partition, in production order. */
  function Partition(rows: seq<Row>, key: BoundaryKey): seq<Row> {
    FilterSeq(rows, (r: Row) => KeyOf(r) == key)
  }

  /** Is the row at `pos` of its partition kept?  `lens` are the partition's row lengths. */
  predicate Keeps(search: PathSearch, lens: seq<nat>, pos: nat) {
    match search
    case All => true
    case Any(n) => pos < n
    case ShortestPaths(n) =>
      pos < |lens| ==> |set j | 0 <= j < |lens| && (lens[j] < lens[pos] || (lens[j] == lens[pos] && j < pos))| < n
    case ShortestGroups(n) =>
      pos < |lens| ==> |set j | 0 <= j < |lens| && lens[j] < lens[pos] :: lens[j]| < n
  }

  /** Each row is decided from its own partition of `all` alone; `seen + rest` is `all`. */
  function SelectFrom(search: PathSearch, rest: seq<Row>, all: seq<Row>, seen: seq<Row>): seq<Row>
    decreases |rest|
  {
    if rest == [] then []
    else
      var r := rest[0];
      var tail := SelectFrom(search, rest[1..], all, seen + [r]);
      if Keeps(search, MapSeq(Partition(all, KeyOf(r)), RowLength), |Partition(seen, KeyOf(r))|)
      then [r] + tail
      else tail
  }

  function ApplyPrefix(rows: seq<Row>, prefix: PathPrefix): seq<Row> {
    var valid := FilterSeq(rows, ModeTest(prefix.mode));
    SelectFrom(prefix.search, valid, valid, [])
  }

  function PolicyFor(prefix: PathPrefix): Policy {
    match prefix.mode
    case Walk =>
      (match prefix.search
       case ShortestPaths(n) => KShortest(n, false)
       case ShortestGroups(n) => KShortest(n, true)
       case _ => Forbidden)
    case _ => ByMode(prefix.mode)
  }

  // ---------------------------------------------------------------- patterns

  predicate Holds(env: Env, mu: Assignment, e: Expr) {
    IsTrue(Eval(env, [], mu, e))
  }

  predicate HoldsAll(env: Env, mu: Assignment, es: seq<Expr>) {
    forall e :: e in es ==> Holds(env, mu, e)
  }

  function AllTest(env: Env, es: seq<Expr>): Row -> bool {
    (r: Row) => HoldsAll(env, r.mu, es)
  }

  function Rows(env: Env, pol: Policy, p: PathPattern): seq<Row>
    decreases p
  {
    match p
    case Node(d) => NodeRows(env, d)
    case Edge(dir, d) => EdgeRows(env, dir, d)
    case Concat(a, b) => PairAll(Rows(env, pol, a), Rows(env, pol, b), ConcatCompat, ConcatMerge)
    case Join(a, b) =>
      PairAll(Rows(env, pol, a), Rows(env, pol, b), JoinTest(env, FreeVars(a) * FreeVars(b)), JoinMerge)
    case Union(a, b) => MapSeq(Rows(env, pol, a) + Rows(env, pol, b), Fill(FreeVars(p)))
    case Filter(i, e) => FilterSeq(Rows(env, pol, i), AllTest(env, [e]))
    case Repeat(i, lb, ub) => Repeated(env, pol, FreeVars(i), Rows(env, pol, i), lb, ub)
    case Questioned(i) => NodeRows(env, None) + Rows(env, pol, i)
    case Selected(prefix, i) => ApplyPrefix(Rows(env, PolicyFor(prefix), i), prefix)
    case Named(x, i) => MapSeq(Rows(env, pol, i), NameRow(x))
  }
}
