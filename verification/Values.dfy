/** Property values, their types, and the comparisons both evaluators share.

    `value_is_type` and the descriptor check `is_subtype(value_type(v), t)` are two different
    readings of "v has type t"; `CmpValues` and `EqVerdict` are two different readings of a
    comparison.  The optimizer swaps one reading for the other, so both are modelled in full
    and compared here.
  */
module Values {

  type Id = nat

  datatype Option<+T> = None | Some(value: T)

  datatype Value =
    | Null
    | Int(i: int)
    | Float(r: real)
    | Str(s: string)
    | Bool(b: bool)
    | List(items: seq<Value>)
    | NodeRef(node: Id)
    | EdgeRef(edge: Id)
    | PathRef(elems: seq<Value>)
    | Date(days: int)
    | Datetime(millis: int)

  type Props = map<string, Value>

  datatype SimpleType =
    | IntType | FloatType | BoolType | StrType
    | Star | NullType | Zero
    | UnionType(left: SimpleType, right: SimpleType)
    | ListType(elem: SimpleType)
    | NodeType | EdgeType | PathType | DateType | DatetimeType

  datatype PropertyType = Open(fields: map<string, SimpleType>) | Closed(fields: map<string, SimpleType>) | Bottom

  datatype CmpOp = Eq | Ne | Lt | Le | Gt | Ge

  datatype Ordering = Less | Equal | Greater

  datatype EqResult = Definite(b: bool) | Unknown | Mismatch

  // ---------------------------------------------------------------- types

  /** The `IS` predicate of the expression language. */
  predicate ValueIsType(v: Value, t: SimpleType)
    decreases v, t
  {
    match t
    case Star => true
    case UnionType(a, b) => ValueIsType(v, a) || ValueIsType(v, b)
    case StrType => v.Str?
    case IntType => v.Int?
    case FloatType => v.Float?
    case BoolType => v.Bool?
    case ListType(e) => v.List? && forall i :: 0 <= i < |v.items| ==> ValueIsType(v.items[i], e)
    case NullType => v.Null?
    case NodeType => v.NodeRef?
    case EdgeType => v.EdgeRef?
    case PathType => v.PathRef?
    case _ => false
  }

  function Union(a: SimpleType, b: SimpleType): SimpleType {
    if a == Zero then b else if b == Zero then a else if a == b then a else UnionType(a, b)
  }

  /** The type a stored value is given when an element is matched against a descriptor. */
  function ValueType(v: Value): SimpleType
    decreases v, 0
  {
    match v
    case Null => Zero
    case Int(_) => IntType
    case Float(_) => FloatType
    case Str(_) => StrType
    case Bool(_) => BoolType
    case Date(_) => DateType
    case Datetime(_) => DatetimeType
    case List(items) => if items == [] then ListType(Star) else ListType(UnionOf(v, items, |items|))
    case NodeRef(_) => NodeType
    case EdgeRef(_) => EdgeType
    case PathRef(_) => PathType
  }

  /** Left fold of `Union` over the types of the first `n` items. */
  function UnionOf(parent: Value, items: seq<Value>, n: nat): SimpleType
    requires n <= |items|
    requires forall i :: 0 <= i < |items| ==> items[i] < parent
    decreases parent, 0, n
  {
    if n == 0 then Zero else Union(UnionOf(parent, items, n - 1), ValueType(items[n - 1]))
  }

  predicate IsSubtype(a: SimpleType, b: SimpleType)
    decreases a, b
  {
    if a.Star? || b.Star? || a.Zero? then true
    else if a.UnionType? then IsSubtype(a.left, b) || IsSubtype(a.right, b)
    else if b.UnionType? then IsSubtype(a, b.left) || IsSubtype(a, b.right)
    else if a.ListType? && b.ListType? then IsSubtype(a.elem, b.elem)
    else a == b
  }

  /** `PropertyType::extend`: overwrites the entry, and is a no-op on the bottom record. */
  function Extend(p: PropertyType, attr: string, t: SimpleType): PropertyType {
    match p
    case Open(m) => Open(m[attr := t])
    case Closed(m) => Closed(m[attr := t])
    case Bottom => Bottom
  }

  /** `is_subtype(Closed(value types of props), p)`, the record half of a descriptor match. */
  predicate PropsMatch(props: Props, p: PropertyType) {
    match p
    case Open(m) => forall k :: k in m ==> k in props && IsSubtype(ValueType(props[k]), m[k])
    case Closed(m) => m.Keys == props.Keys && forall k :: k in m ==> IsSubtype(ValueType(props[k]), m[k])
    case Bottom => false
  }

  function PropOrNull(props: Props, attr: string): Value {
    if attr in props then props[attr] else Null
  }

  // ---------------------------------------------------------------- comparisons

  function FlipOp(op: CmpOp): CmpOp {
    match op
    case Lt => Gt
    case Le => Ge
    case Gt => Lt
    case Ge => Le
    case Eq => Eq
    case Ne => Ne
  }

  function CompareInt(a: int, b: int): Ordering {
    if a < b then Less else if a == b then Equal else Greater
  }

  function CompareReal(a: real, b: real): Ordering {
    if a < b then Less else if a == b then Equal else Greater
  }

  function CompareStr(a: string, b: string): Ordering {
    if a == [] then (if b == [] then Equal else Less)
    else if b == [] then Greater
    else if a[0] < b[0] then Less
    else if a[0] > b[0] then Greater
    else CompareStr(a[1..], b[1..])
  }

  function CompareBool(a: bool, b: bool): Ordering {
    if a == b then Equal else if b then Less else Greater
  }

  predicate OrderingSatisfies(op: CmpOp, o: Ordering) {
    match op
    case Eq => o == Equal
    case Ne => o != Equal
    case Lt => o == Less
    case Le => o != Greater
    case Gt => o == Greater
    case Ge => o != Less
  }

  /** The ordering `cmp_values` computes, or `None` where it answers `false` for every operator. */
  function ScalarOrdering(a: Value, b: Value): Option<Ordering> {
    match (a, b)
    case (Date(x), Date(y)) => Some(CompareInt(x, y))
    case (Datetime(x), Datetime(y)) => Some(CompareInt(x, y))
    case (Int(x), Int(y)) => Some(CompareInt(x, y))
    case (Float(x), Float(y)) => Some(CompareReal(x, y))
    case (Int(x), Float(y)) => Some(CompareReal(x as real, y))
    case (Float(x), Int(y)) => Some(CompareReal(x, y as real))
    case (Str(x), Str(y)) => Some(CompareStr(x, y))
    case (Bool(x), Bool(y)) => Some(CompareBool(x, y))
    case (_, _) => None
  }

  predicate SameKind(a: Value, b: Value) {
    match (a, b)
    case (Null, Null) => true
    case (Int(_), Int(_)) => true
    case (Float(_), Float(_)) => true
    case (Str(_), Str(_)) => true
    case (Bool(_), Bool(_)) => true
    case (List(_), List(_)) => true
    case (NodeRef(_), NodeRef(_)) => true
    case (EdgeRef(_), EdgeRef(_)) => true
    case (PathRef(_), PathRef(_)) => true
    case (Date(_), Date(_)) => true
    case (Datetime(_), Datetime(_)) => true
    case (_, _) => false
  }

  /** Three-valued equality, structural on lists and paths. */
  function EqVerdict(a: Value, b: Value): EqResult
    decreases a, 1, 0
  {
    if a.Null? || b.Null? then Unknown
    else match (a, b)
      case (List(x), List(y)) => if |x| != |y| then Definite(false) else EqFold(a, x, y, |x|, false)
      case (PathRef(x), PathRef(y)) => if |x| != |y| then Definite(false) else EqFold(a, x, y, |x|, false)
      case (Int(x), Float(y)) => Definite(x as real == y)
      case (Float(x), Int(y)) => Definite(x == y as real)
      case (NodeRef(_), EdgeRef(_)) => Definite(false)
      case (EdgeRef(_), NodeRef(_)) => Definite(false)
      case (_, _) => if SameKind(a, b) then Definite(a == b) else Mismatch
  }

  /** Kleene conjunction of the last `n` pairwise verdicts; a nested mismatch counts as `false`. */
  function EqFold(parent: Value, x: seq<Value>, y: seq<Value>, n: nat, unknown: bool): EqResult
    requires |x| == |y| && n <= |x|
    requires forall i :: 0 <= i < |x| ==> x[i] < parent
    decreases parent, 0, n
  {
    if n == 0 then (if unknown then Unknown else Definite(true))
    else match EqVerdict(x[|x| - n], y[|x| - n])
      case Definite(true) => EqFold(parent, x, y, n - 1, unknown)
      case Unknown => EqFold(parent, x, y, n - 1, true)
      case _ => Definite(false)
  }

  /** Keep/drop verdict of a pushed-down predicate on a node's raw properties. */
  predicate CmpValues(a: Value, op: CmpOp, b: Value) {
    if a.Null? || b.Null? then false
    else if a.List? && b.List? then
      match (op, EqVerdict(a, b)) {
        case (Eq, Definite(x)) => x
        case (Ne, Definite(x)) => !x
        case (Eq, Mismatch) => false
        case (Ne, Mismatch) => true
        case _ => false
      }
    else if (a.NodeRef? || a.EdgeRef?) && (b.NodeRef? || b.EdgeRef?) then
      match op {
        case Eq => a == b
        case Ne => a != b
        case _ => false
      }
    else
      match ScalarOrdering(a, b) {
        case Some(o) => OrderingSatisfies(op, o)
        case None => false
      }
  }

  predicate OrderablePair(a: Value, b: Value) {
    ScalarOrdering(a, b).Some?
  }

  /** Outcome of evaluating an expression: a value, or an error that drops the row. */
  datatype ExprResult = Success(value: Value) | Failure

  predicate IsTrue(r: ExprResult) {
    r == Success(Bool(true))
  }

  /** The residual evaluator's comparison, three-valued and with type errors. */
  function EvalCmp(op: CmpOp, a: Value, b: Value): ExprResult {
    if a.Null? || b.Null? then Success(Null)
    else match op
      case Eq =>
        (match EqVerdict(a, b)
         case Definite(x) => Success(Bool(x))
         case Unknown => Success(Null)
         case Mismatch => Failure)
      case Ne =>
        (match EqVerdict(a, b)
         case Definite(x) => Success(Bool(!x))
         case Unknown => Success(Null)
         case Mismatch => Failure)
      case _ => if OrderablePair(a, b) then Success(Bool(CmpValues(a, op, b))) else Failure
  }

  // ---------------------------------------------------------------- the two readings compared

  lemma {:induction false} CompareStrEqual(a: string, b: string)
    ensures CompareStr(a, b) == Equal <==> a == b
  {
    if a != [] && b != [] && a[0] == b[0] {
      CompareStrEqual(a[1..], b[1..]);
      assert a == [a[0]] + a[1..] && b == [b[0]] + b[1..];
    }
  }

  lemma {:induction false} CompareStrFlip(a: string, b: string)
    ensures CompareStr(a, b) == Less <==> CompareStr(b, a) == Greater
    ensures CompareStr(a, b) == Greater <==> CompareStr(b, a) == Less
  {
    if a != [] && b != [] && a[0] == b[0] {
      CompareStrFlip(a[1..], b[1..]);
    }
  }

  lemma {:induction false} EqFoldNoMismatch(parent: Value, x: seq<Value>, y: seq<Value>, n: nat, unknown: bool)
    requires |x| == |y| && n <= |x|
    requires forall i :: 0 <= i < |x| ==> x[i] < parent
    ensures EqFold(parent, x, y, n, unknown) != Mismatch
    decreases n
  {
    if n != 0 {
      EqFoldNoMismatch(parent, x, y, n - 1, unknown);
      EqFoldNoMismatch(parent, x, y, n - 1, true);
    }
  }

  /** A comparison keeps a row on the pushed-down route exactly when it keeps it on the residual
      route.  Paths are the one exception: the residual route compares them structurally, the
      pushed-down one rejects them. */
  lemma PushedComparisonAgrees(v: Value, op: CmpOp, lit: Value)
    ensures CmpValues(v, op, lit) <==>
            IsTrue(EvalCmp(op, v, lit)) && !(v.PathRef? && lit.PathRef?)
  {
    if v.Null? || lit.Null? {
    } else if v.List? && lit.List? {
      ListsAgree(v, op, lit);
    } else if ScalarOrdering(v, lit).Some? {
      OrderedAgree(v, op, lit);
    } else if SameKind(v, lit) || op.Eq? || op.Ne? {
      UnorderedAgree(v, op, lit);
    }
  }

  lemma ListsAgree(v: Value, op: CmpOp, lit: Value)
    requires v.List? && lit.List?
    ensures CmpValues(v, op, lit) <==> IsTrue(EvalCmp(op, v, lit))
  {
    if |v.items| == |lit.items| {
      EqFoldNoMismatch(v, v.items, lit.items, |v.items|, false);
    }
  }

  /** Values that are ordered are equal when neither is smaller. */
  lemma OrderedAgree(v: Value, op: CmpOp, lit: Value)
    requires ScalarOrdering(v, lit).Some?
    ensures CmpValues(v, op, lit) <==> IsTrue(EvalCmp(op, v, lit))
  {
    if v.Str? && lit.Str? {
      CompareStrEqual(v.s, lit.s);
    }
    assert EqVerdict(v, lit) == Definite(ScalarOrdering(v, lit).value == Equal);
  }

  /** Elements compare by identity; anything else, paths aside, is no match. */
  lemma UnorderedAgree(v: Value, op: CmpOp, lit: Value)
    requires ScalarOrdering(v, lit).None? && !v.Null? && !lit.Null? && !(v.List? && lit.List?)
    ensures CmpValues(v, op, lit) <==> IsTrue(EvalCmp(op, v, lit)) && !(v.PathRef? && lit.PathRef?)
  {
  }

  lemma {:induction false} EqVerdictSymmetric(a: Value, b: Value)
    ensures EqVerdict(a, b) == EqVerdict(b, a)
    decreases a, 1, 0
  {
    match (a, b) {
      case (List(x), List(y)) =>
        if |x| == |y| { EqFoldSymmetric(a, b, x, y, |x|, false); }
      case (PathRef(x), PathRef(y)) =>
        if |x| == |y| { EqFoldSymmetric(a, b, x, y, |x|, false); }
      case _ =>
    }
  }

  lemma {:induction false} EqFoldSymmetric(a: Value, b: Value, x: seq<Value>, y: seq<Value>, n: nat, unknown: bool)
    requires |x| == |y| && n <= |x|
    requires forall i :: 0 <= i < |x| ==> x[i] < a && y[i] < b
    ensures EqFold(a, x, y, n, unknown) == EqFold(b, y, x, n, unknown)
    decreases a, 0, n
  {
    if n != 0 {
      EqVerdictSymmetric(x[|x| - n], y[|x| - n]);
      EqFoldSymmetric(a, b, x, y, n - 1, unknown);
      EqFoldSymmetric(a, b, x, y, n - 1, true);
    }
  }

  /** `literal op attr` and `attr flip(op) literal` keep the same rows. */
  lemma FlipKeepsVerdict(v: Value, op: CmpOp, lit: Value)
    ensures EvalCmp(op, lit, v) == EvalCmp(FlipOp(op), v, lit)
  {
    EqVerdictSymmetric(lit, v);
    if v.Str? && lit.Str? {
      CompareStrEqual(lit.s, v.s);
      CompareStrEqual(v.s, lit.s);
      CompareStrFlip(lit.s, v.s);
    }
  }

  /** Values on which the two type readings can be compared directly: everything that is stored
      as a scalar property. */
  predicate Scalar(v: Value) {
    v.Int? || v.Float? || v.Str? || v.Bool?
  }

  lemma {:induction false} ScalarTypeReadingsAgree(v: Value, t: SimpleType)
    requires Scalar(v)
    ensures IsSubtype(ValueType(v), t) == ValueIsType(v, t)
    decreases t
  {
    if t.UnionType? {
      ScalarTypeReadingsAgree(v, t.left);
      ScalarTypeReadingsAgree(v, t.right);
    }
  }
}
