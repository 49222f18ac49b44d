/** What the comparisons and the connectives mean: an ordering comparison is the order of the values
    themselves, equality of lists is decided element by element, and the connectives are least and
    greatest truth value. */
module ValueLaws {
  import opened Values
  import opened Runtime

  // ---------------------------------------------------------------- orderings

  /** `a` is before `b` in the dictionary: they agree up to some position, and there `a` ends or has
      the smaller character. */
  ghost predicate DictionaryBefore(a: string, b: string) {
    exists k: nat :: k <= |a| && k < |b| && a[..k] == b[..k] && (k == |a| || a[k] < b[k])
  }

  /** Values that have an order among them: both numbers, or two of one ordered type. */
  predicate Comparable(a: Value, b: Value) {
    || ((a.Int? || a.Float?) && (b.Int? || b.Float?))
    || (a.Str? && b.Str?) || (a.Bool? && b.Bool?) || (a.Date? && b.Date?) || (a.Datetime? && b.Datetime?)
  }

  function Number(a: Value): real
    requires a.Int? || a.Float?
  {
    if a.Int? then a.i as real else a.r
  }

  ghost predicate Smaller(a: Value, b: Value)
    requires Comparable(a, b)
  {
    if a.Int? || a.Float? then Number(a) < Number(b)
    else if a.Str? then DictionaryBefore(a.s, b.s)
    else if a.Bool? then !a.b && b.b
    else if a.Date? then a.days < b.days
    else a.millis < b.millis
  }

  predicate Same(a: Value, b: Value)
    requires Comparable(a, b)
  {
    if a.Int? || a.Float? then Number(a) == Number(b) else a == b
  }

  lemma DictionaryTail(a: string, b: string)
    requires a != [] && b != [] && a[0] == b[0]
    ensures DictionaryBefore(a, b) <==> DictionaryBefore(a[1..], b[1..])
  {
    if DictionaryBefore(a, b) {
      var k: nat :| k <= |a| && k < |b| && a[..k] == b[..k] && (k == |a| || a[k] < b[k]);
      assert k > 0;
      assert a[1..][..k - 1] == a[..k][1..] && b[1..][..k - 1] == b[..k][1..];
    }
    if DictionaryBefore(a[1..], b[1..]) {
      var k: nat :| k <= |a[1..]| && k < |b[1..]| && a[1..][..k] == b[1..][..k]
        && (k == |a[1..]| || a[1..][k] < b[1..][k]);
      assert a[..k + 1] == [a[0]] + a[1..][..k] && b[..k + 1] == [b[0]] + b[1..][..k];
    }
  }

  lemma {:induction false} StringsOrdered(a: string, b: string)
    ensures CompareStr(a, b) == Less <==> DictionaryBefore(a, b)
  {
    if a == [] {
      assert b != [] ==> a[..0] == b[..0];
    } else if b != [] {
      if a[0] == b[0] {
        DictionaryTail(a, b);
        StringsOrdered(a[1..], b[1..]);
      } else {
        HeadsDiffer(a, b);
      }
    }
  }

  lemma HeadsDiffer(a: string, b: string)
    requires a != [] && b != [] && a[0] != b[0]
    ensures DictionaryBefore(a, b) <==> a[0] < b[0]
  {
    if a[0] < b[0] {
      assert a[..0] == b[..0];
    }
    if DictionaryBefore(a, b) {
      var k: nat :| k <= |a| && k < |b| && a[..k] == b[..k] && (k == |a| || a[k] < b[k]);
      if k > 0 {
        assert a[..k][0] == b[..k][0];
      }
    }
  }

  lemma OrderingIs(a: Value, b: Value)
    requires Comparable(a, b)
    ensures ScalarOrdering(a, b) == Some(Less) <==> Smaller(a, b)
    ensures ScalarOrdering(a, b) == Some(Greater) <==> Smaller(b, a)
    ensures ScalarOrdering(a, b) == Some(Equal) <==> Same(a, b)
    ensures ScalarOrdering(a, b).Some?
  {
    if a.Str? {
      StringsOrdered(a.s, b.s);
      StringsOrdered(b.s, a.s);
      CompareStrFlip(a.s, b.s);
      CompareStrEqual(a.s, b.s);
    }
  }

  /** What each operator asks of two ordered values. */
  ghost predicate Asks(op: CmpOp, a: Value, b: Value)
    requires Comparable(a, b)
  {
    match op
    case Eq => Same(a, b)
    case Ne => !Same(a, b)
    case Lt => Smaller(a, b)
    case Le => Smaller(a, b) || Same(a, b)
    case Gt => Smaller(b, a)
    case Ge => Smaller(b, a) || Same(a, b)
  }

  /** Each operator is the order of the values themselves, on the pushed route and on the residual one. */
  lemma ComparisonMeans(a: Value, op: CmpOp, b: Value)
    requires Comparable(a, b)
    ensures CmpValues(a, op, b) <==> Asks(op, a, b)
    ensures EvalCmp(op, a, b) == Success(Bool(Asks(op, a, b)))
  {
    OrderingIs(a, b);
  }

  /** Nothing else has an order: the pushed route drops the row, the residual one fails or is unknown. */
  lemma NoOtherOrder(a: Value, op: CmpOp, b: Value)
    requires !Comparable(a, b) && !op.Eq? && !op.Ne?
    ensures !CmpValues(a, op, b)
    ensures EvalCmp(op, a, b) == if a.Null? || b.Null? then Success(Null) else Failure
  {
  }

  // ---------------------------------------------------------------- equality of lists and paths

  function Items(v: Value): seq<Value>
    requires v.List? || v.PathRef?
  {
    if v.List? then v.items else v.elems
  }

  /** The verdict on two elements rules equality out. */
  predicate Differ(a: Value, b: Value) {
    EqVerdict(a, b) == Definite(false) || EqVerdict(a, b) == Mismatch
  }

  lemma {:induction false} FoldMeans(parent: Value, x: seq<Value>, y: seq<Value>, n: nat, unknown: bool)
    requires |x| == |y| && n <= |x|
    requires forall i :: 0 <= i < |x| ==> x[i] < parent
    ensures EqFold(parent, x, y, n, unknown) == Definite(false) <==>
        exists i :: |x| - n <= i < |x| && Differ(x[i], y[i])
    ensures EqFold(parent, x, y, n, unknown) == Definite(true) <==>
        !unknown && forall i :: |x| - n <= i < |x| ==> EqVerdict(x[i], y[i]) == Definite(true)
    ensures EqFold(parent, x, y, n, unknown) != Mismatch
    decreases n
  {
    if n > 0 {
      FoldMeans(parent, x, y, n - 1, unknown);
      FoldMeans(parent, x, y, n - 1, true);
      assert EqVerdict(x[|x| - n], y[|x| - n]) == Definite(true) || EqVerdict(x[|x| - n], y[|x| - n]) == Unknown
          || Differ(x[|x| - n], y[|x| - n]);
    }
  }

  /** Two lists are unequal if their lengths or some two elements are; equal if all elements are; and
      otherwise it is unknown. */
  lemma ListEqualityMeans(a: Value, b: Value)
    requires (a.List? && b.List?) || (a.PathRef? && b.PathRef?)
    ensures EqVerdict(a, b) == Definite(false) <==>
        |Items(a)| != |Items(b)| || exists i :: 0 <= i < |Items(a)| && Differ(Items(a)[i], Items(b)[i])
    ensures EqVerdict(a, b) == Definite(true) <==>
        |Items(a)| == |Items(b)|
        && forall i :: 0 <= i < |Items(a)| ==> EqVerdict(Items(a)[i], Items(b)[i]) == Definite(true)
    ensures EqVerdict(a, b) != Mismatch
  {
    if |Items(a)| == |Items(b)| {
      FoldMeans(a, Items(a), Items(b), |Items(a)|, false);
    }
  }

  // ---------------------------------------------------------------- the connectives

  /** The truth values in order: false, unknown, true. */
  function Rank(v: Value): int
    requires v.Null? || v.Bool?
  {
    if v.Null? then 0 else if v.b then 1 else -1
  }

  function Ranked(k: int): Value {
    if k < 0 then Bool(false) else if k == 0 then Null else Bool(true)
  }

  /** AND is the lesser truth value, OR the greater. */
  lemma ConnectivesMean(l: Value, r: Value)
    requires (l.Null? || l.Bool?) && (r.Null? || r.Bool?)
    ensures EvalAnd(l, r) == Success(Ranked(if Rank(l) <= Rank(r) then Rank(l) else Rank(r)))
    ensures EvalOr(l, r) == Success(Ranked(if Rank(l) >= Rank(r) then Rank(l) else Rank(r)))
  {
  }
}
