/** The two readings of a type test over everything that can be stored: what a descriptor admits and
    what the IS predicate accepts.  Each condition is a recursion over the type, proved equivalent to
    the statement about all stored values that it stands for. */
module StoredTypes {
  import opened Values

  // ---------------------------------------------------------------- stored values

  /** What a property can hold; `nulls` says whether JSON nulls were loaded. */
  predicate Stored(v: Value, nulls: bool) {
    match v
    case Null => nulls
    case List(items) => forall i :: 0 <= i < |items| ==> Stored(items[i], nulls)
    case _ => Scalar(v)
  }

  /** The descriptor's reading of "v has type t". */
  predicate Passes(v: Value, t: SimpleType) {
    IsSubtype(ValueType(v), t)
  }

  // ---------------------------------------------------------------- what a type is made of

  function ScalarTypes(): set<SimpleType> {
    {IntType, FloatType, StrType, BoolType}
  }

  /** The scalar types a type admits. */
  function Admitted(t: SimpleType): set<SimpleType> {
    set k | k in ScalarTypes() && IsSubtype(k, t)
  }

  predicate HasStar(t: SimpleType) {
    t.Star? || (t.UnionType? && (HasStar(t.left) || HasStar(t.right)))
  }

  predicate HasList(t: SimpleType) {
    t.Star? || t.ListType? || (t.UnionType? && (HasList(t.left) || HasList(t.right)))
  }

  /** The union of the element types of the list types in `t`. */
  function ElemType(t: SimpleType): SimpleType {
    match t
    case Star => Star
    case ListType(e) => e
    case UnionType(a, b) => UnionType(ElemType(a), ElemType(b))
    case _ => Zero
  }

  /** How deeply lists nest in `t`. */
  function Depth(t: SimpleType): nat {
    match t
    case ListType(e) => 1 + Depth(e)
    case UnionType(a, b) => if Depth(a) < Depth(b) then Depth(b) else Depth(a)
    case _ => 0
  }

  predicate AdmitsNull(t: SimpleType) {
    ValueIsType(Null, t)
  }

  /** Some value other than null passes `t`. */
  predicate Passable(t: SimpleType) {
    Admitted(t) != {} || HasList(t)
  }

  /** Every stored value satisfies `IS t`. */
  predicate Total(t: SimpleType, nulls: bool)
    decreases t, 1
  {
    ScalarTypes() <= Admitted(t) && (nulls ==> AdmitsNull(t)) && TotalList(t, nulls)
  }

  /** Every stored list satisfies `IS t`. */
  predicate TotalList(t: SimpleType, nulls: bool)
    decreases t, 0
  {
    match t
    case Star => true
    case ListType(e) => Total(e, nulls)
    case UnionType(a, b) => TotalList(a, nulls) || TotalList(b, nulls)
    case _ => false
  }

  /** Descriptor and IS predicate agree on `t`. */
  predicate Faithful(t: SimpleType, nulls: bool) {
    && (nulls ==> AdmitsNull(t))
    && (HasList(t) ==> TotalList(t, nulls) || (!Passable(ElemType(t)) && (nulls ==> AdmitsNull(ElemType(t)))))
  }

  /** Whatever passes `t` passes `s`. */
  predicate Covers(s: SimpleType, t: SimpleType)
    decreases Depth(s)
  {
    HasStar(s) ||
    (Admitted(t) <= Admitted(s) && (HasList(t) ==> HasList(s) && (ElemDepth(s); Covers(ElemType(s), ElemType(t)))))
  }

  lemma {:induction false} ElemDepth(t: SimpleType)
    ensures !HasStar(t) ==> Depth(ElemType(t)) == if HasList(t) then Depth(t) - 1 else 0
    ensures !HasStar(t) && HasList(t) ==> Depth(t) > 0
    ensures !HasStar(t) && !HasList(t) ==> Depth(t) == 0
  {
    if t.UnionType? {
      ElemDepth(t.left);
      ElemDepth(t.right);
    }
  }

  // ---------------------------------------------------------------- subtyping of unions

  lemma {:induction false} SubtypeOfUnion(a: SimpleType, x: SimpleType, y: SimpleType)
    ensures IsSubtype(a, UnionType(x, y)) <==> IsSubtype(a, x) || IsSubtype(a, y)
  {
    if a.UnionType? {
      SubtypeOfUnion(a.left, x, y);
      SubtypeOfUnion(a.right, x, y);
    }
  }

  lemma {:induction false} ZeroIsLeast(a: SimpleType, t: SimpleType)
    requires IsSubtype(a, Zero)
    ensures IsSubtype(a, t)
  {
    if a.UnionType? {
      if IsSubtype(a.left, Zero) { ZeroIsLeast(a.left, t); } else { ZeroIsLeast(a.right, t); }
    }
  }

  lemma {:induction false} ListSubtype(u: SimpleType, t: SimpleType)
    ensures IsSubtype(ListType(u), t) <==> HasList(t) && IsSubtype(u, ElemType(t))
  {
    if t.UnionType? {
      ListSubtype(u, t.left);
      ListSubtype(u, t.right);
      SubtypeOfUnion(u, ElemType(t.left), ElemType(t.right));
      NoListElem(t.left);
      NoListElem(t.right);
      if IsSubtype(u, Zero) {
        ZeroIsLeast(u, ElemType(t.left));
        ZeroIsLeast(u, ElemType(t.right));
      }
    }
  }

  lemma {:induction false} NoListElem(t: SimpleType)
    ensures !HasList(t) ==> forall u :: IsSubtype(u, ElemType(t)) ==> IsSubtype(u, Zero)
  {
    if t.UnionType? && !HasList(t) {
      NoListElem(t.left);
      NoListElem(t.right);
      forall u | IsSubtype(u, ElemType(t)) ensures IsSubtype(u, Zero) {
        SubtypeOfUnion(u, ElemType(t.left), ElemType(t.right));
      }
    }
  }

  lemma {:induction false} StarIsGreatest(a: SimpleType, t: SimpleType)
    requires HasStar(t)
    ensures IsSubtype(a, t)
  {
    if t.UnionType? {
      SubtypeOfUnion(a, t.left, t.right);
      if HasStar(t.left) { StarIsGreatest(a, t.left); } else { StarIsGreatest(a, t.right); }
    }
  }

  // ---------------------------------------------------------------- what a list passes

  lemma TypeOfValue(v: Value)
    ensures ValueType(v) != Star && (ValueType(v) == Zero <==> v.Null?)
  {
  }

  predicate AllNull(items: seq<Value>, n: nat)
    requires n <= |items|
  {
    forall i :: 0 <= i < n ==> items[i].Null?
  }

  lemma UnionSubtype(a: SimpleType, b: SimpleType, e: SimpleType)
    requires a != Star && b != Star && !(a == Zero && b == Zero)
    ensures Union(a, b) != Star && Union(a, b) != Zero
    ensures IsSubtype(Union(a, b), e) <==> (a != Zero && IsSubtype(a, e)) || (b != Zero && IsSubtype(b, e))
  {
    if a != Zero && b != Zero && a != b {
      assert IsSubtype(UnionType(a, b), e) <==> e.Star? || IsSubtype(a, e) || IsSubtype(b, e);
    }
  }

  /** Some element among the first `n`, not null, passes. */
  ghost predicate SomePasses(items: seq<Value>, n: nat, e: SimpleType)
    requires n <= |items|
  {
    exists i :: 0 <= i < n && !items[i].Null? && Passes(items[i], e)
  }

  lemma SomeSnoc(items: seq<Value>, n: nat, e: SimpleType)
    requires 0 < n <= |items|
    ensures SomePasses(items, n, e) <==> SomePasses(items, n - 1, e) || (!items[n - 1].Null? && Passes(items[n - 1], e))
    ensures AllNull(items, n) <==> AllNull(items, n - 1) && items[n - 1].Null?
    ensures AllNull(items, n - 1) ==> !SomePasses(items, n - 1, e)
  {
  }

  lemma {:induction false} UnionOfSubtype(parent: Value, items: seq<Value>, n: nat, e: SimpleType)
    requires n <= |items| && forall i :: 0 <= i < |items| ==> items[i] < parent
    ensures UnionOf(parent, items, n) == Zero <==> AllNull(items, n)
    ensures UnionOf(parent, items, n) != Star
    ensures !AllNull(items, n) ==> (IsSubtype(UnionOf(parent, items, n), e) <==> SomePasses(items, n, e))
    decreases n
  {
    if n > 0 {
      UnionOfSubtype(parent, items, n - 1, e);
      TypeOfValue(items[n - 1]);
      var before, last := UnionOf(parent, items, n - 1), ValueType(items[n - 1]);
      SomeSnoc(items, n, e);
      if before != Zero || last != Zero {
        UnionSubtype(before, last, e);
      }
    }
  }

  /** A list passes `t` if it is empty or holds only nulls, or if one element passes. */
  lemma ListPasses(items: seq<Value>, t: SimpleType)
    ensures Passes(List(items), t) <==>
      HasList(t)
      && (AllNull(items, |items|) || exists i :: 0 <= i < |items| && !items[i].Null? && Passes(items[i], ElemType(t)))
  {
    var v := List(items);
    if items == [] {
      ListSubtype(Star, t);
    } else {
      UnionOfSubtype(v, items, |items|, ElemType(t));
      ListSubtype(UnionOf(v, items, |items|), t);
    }
  }

  /** The IS predicate accepts no more than the descriptor. */
  lemma {:induction false} IsImpliesPasses(v: Value, t: SimpleType, nulls: bool)
    requires Stored(v, nulls) && ValueIsType(v, t)
    ensures Passes(v, t)
    decreases v, t
  {
    if t.UnionType? {
      SubtypeOfUnion(ValueType(v), t.left, t.right);
      if ValueIsType(v, t.left) { IsImpliesPasses(v, t.left, nulls); } else { IsImpliesPasses(v, t.right, nulls); }
    } else if v.List? && t.ListType? {
      ListPasses(v.items, t);
      if i :| 0 <= i < |v.items| && !v.items[i].Null? {
        IsImpliesPasses(v.items[i], t.elem, nulls);
      }
    }
  }

  // ---------------------------------------------------------------- totality

  lemma {:induction false} TotalHolds(v: Value, t: SimpleType, nulls: bool)
    requires Stored(v, nulls) && Total(t, nulls)
    ensures ValueIsType(v, t)
    decreases v, 1, t
  {
    if v.List? {
      TotalListHolds(v, t, nulls);
    } else if !v.Null? {
      assert ValueType(v) in Admitted(t);
      ScalarTypeReadingsAgree(v, t);
    }
  }

  lemma {:induction false} TotalListHolds(v: Value, t: SimpleType, nulls: bool)
    requires v.List? && Stored(v, nulls) && TotalList(t, nulls)
    ensures ValueIsType(v, t)
    decreases v, 0, t
  {
    match t
    case ListType(e) =>
      forall i | 0 <= i < |v.items| ensures ValueIsType(v.items[i], e) {
        TotalHolds(v.items[i], e, nulls);
      }
    case UnionType(a, b) => TotalListHolds(v, if TotalList(a, nulls) then a else b, nulls);
    case _ =>
  }

  function Sample(k: SimpleType): Value
    requires k in ScalarTypes()
  {
    match k
    case IntType => Int(0)
    case FloatType => Float(0.0)
    case StrType => Str("")
    case _ => Bool(false)
  }

  lemma SampleFits(k: SimpleType, t: SimpleType)
    requires k in ScalarTypes()
    ensures Scalar(Sample(k)) && ValueType(Sample(k)) == k
    ensures k in Admitted(t) <==> ValueIsType(Sample(k), t)
    ensures k in Admitted(t) <==> Passes(Sample(k), t)
  {
    ScalarTypeReadingsAgree(Sample(k), t);
  }

  /** Every list that has these elements fails `IS t`. */
  lemma {:induction false} RejectList(t: SimpleType, nulls: bool) returns (items: seq<Value>)
    requires !TotalList(t, nulls)
    ensures Stored(List(items), nulls)
    ensures forall more: seq<Value> :: !ValueIsType(List(items + more), t)
    decreases t, 0
  {
    items := [];
    match t {
      case ListType(e) =>
        var v := RejectValue(e, nulls);
        items := [v];
        forall more: seq<Value> ensures !ValueIsType(List(items + more), t) {
          assert (items + more)[0] == v;
        }
      case UnionType(a, b) =>
        var xs := RejectList(a, nulls);
        var ys := RejectList(b, nulls);
        items := xs + ys;
        forall more: seq<Value> ensures !ValueIsType(List(items + more), t) {
          assert items + more == xs + (ys + more);
          Contains(xs, ys, more, b);
        }
      case _ =>
    }
  }

  /** A list that fails still fails with more elements in front. */
  lemma {:induction false} Contains(xs: seq<Value>, ys: seq<Value>, more: seq<Value>, t: SimpleType)
    requires !ValueIsType(List(ys + more), t)
    ensures !ValueIsType(List(xs + ys + more), t)
  {
    match t
    case UnionType(a, b) =>
      Contains(xs, ys, more, a);
      Contains(xs, ys, more, b);
    case ListType(e) =>
      var i :| 0 <= i < |ys + more| && !ValueIsType((ys + more)[i], e);
      assert (xs + ys + more)[|xs| + i] == (ys + more)[i];
    case _ =>
  }

  lemma {:induction false} RejectValue(t: SimpleType, nulls: bool) returns (v: Value)
    requires !Total(t, nulls)
    ensures Stored(v, nulls) && !ValueIsType(v, t)
    decreases t, 1
  {
    if k :| k in ScalarTypes() && k !in Admitted(t) {
      v := Sample(k);
      SampleFits(k, t);
    } else if nulls && !AdmitsNull(t) {
      v := Null;
    } else {
      var items := RejectList(t, nulls);
      v := List(items);
      assert items + [] == items;
    }
  }

  // ---------------------------------------------------------------- the readings compared

  function PassSample(t: SimpleType): Value
    requires Passable(t)
  {
    if IntType in Admitted(t) then Int(0)
    else if FloatType in Admitted(t) then Float(0.0)
    else if StrType in Admitted(t) then Str("")
    else if BoolType in Admitted(t) then Bool(false)
    else List([])
  }

  lemma PassSamplePasses(t: SimpleType)
    requires Passable(t)
    ensures forall nulls :: Stored(PassSample(t), nulls)
    ensures !PassSample(t).Null? && Passes(PassSample(t), t)
  {
    if Admitted(t) == {} {
      ListPasses([], t);
    } else {
      var k := if IntType in Admitted(t) then IntType else if FloatType in Admitted(t) then FloatType
               else if StrType in Admitted(t) then StrType else BoolType;
      var j :| j in Admitted(t);
      assert j in ScalarTypes() && k in Admitted(t);
      SampleFits(k, t);
    }
  }

  /** What passes is passable. */
  lemma PassesPassable(v: Value, t: SimpleType, nulls: bool)
    requires Stored(v, nulls) && !v.Null? && Passes(v, t)
    ensures Passable(t)
  {
    if v.List? {
      ListPasses(v.items, t);
    } else {
      assert ValueType(v) in Admitted(t);
    }
  }

  lemma {:induction false} NullElem(items: seq<Value>, t: SimpleType)
    requires items != [] && AllNull(items, |items|)
    ensures ValueIsType(List(items), t) <==> HasList(t) && AdmitsNull(ElemType(t))
  {
    if t.UnionType? {
      NullElem(items, t.left);
      NullElem(items, t.right);
      NoListNull(t.left);
      NoListNull(t.right);
    } else if t.ListType? {
      assert items[0].Null?;
    }
  }

  lemma {:induction false} NoListNull(t: SimpleType)
    ensures !HasList(t) ==> !AdmitsNull(ElemType(t))
  {
    if t.UnionType? {
      NoListNull(t.left);
      NoListNull(t.right);
    }
  }

  lemma {:induction false} EmptyListIs(t: SimpleType)
    ensures ValueIsType(List([]), t) <==> HasList(t)
  {
    if t.UnionType? {
      EmptyListIs(t.left);
      EmptyListIs(t.right);
    }
  }

  lemma FaithfulAgrees(v: Value, t: SimpleType, nulls: bool)
    requires Stored(v, nulls) && Faithful(t, nulls)
    ensures Passes(v, t) == ValueIsType(v, t)
  {
    if ValueIsType(v, t) {
      IsImpliesPasses(v, t, nulls);
    } else if v.List? {
      ListPasses(v.items, t);
      if HasList(t) {
        if TotalList(t, nulls) { TotalListHolds(v, t, nulls); }
        EmptyListIs(t);
        if AllNull(v.items, |v.items|) {
          if v.items != [] {
            assert v.items[0].Null? && Stored(v.items[0], nulls);
            NullElem(v.items, t);
          }
        } else if i :| 0 <= i < |v.items| && !v.items[i].Null? && Passes(v.items[i], ElemType(t)) {
          PassesPassable(v.items[i], ElemType(t), nulls);
        }
      }
    } else if !v.Null? {
      ScalarTypeReadingsAgree(v, t);
    }
  }

  /** A stored value the descriptor admits and the filter drops. */
  lemma UnfaithfulValue(t: SimpleType, nulls: bool) returns (v: Value)
    requires !Faithful(t, nulls)
    ensures Stored(v, nulls) && Passes(v, t) && !ValueIsType(v, t)
  {
    if nulls && !AdmitsNull(t) {
      v := Null;
    } else if Passable(ElemType(t)) {
      var u := PassSample(ElemType(t));
      PassSamplePasses(ElemType(t));
      var items := RejectList(t, nulls);
      var all := items + [u];
      v := List(all);
      assert all[|items|] == u && forall i :: 0 <= i < |items| ==> all[i] == items[i];
      ListPasses(all, t);
    } else {
      v := List([Null]);
      ListPasses([Null], t);
      NullElem([Null], t);
    }
  }

  /** Descriptor and filter read `t` alike on every stored value if and only if `t` is faithful. */
  lemma FaithfulIff(t: SimpleType, nulls: bool)
    ensures Faithful(t, nulls) <==> forall v :: Stored(v, nulls) ==> Passes(v, t) == ValueIsType(v, t)
  {
    if Faithful(t, nulls) {
      forall v | Stored(v, nulls) ensures Passes(v, t) == ValueIsType(v, t) {
        FaithfulAgrees(v, t, nulls);
      }
    } else {
      var v := UnfaithfulValue(t, nulls);
    }
  }

  // ---------------------------------------------------------------- one type inside another

  lemma {:induction false} CoversPasses(v: Value, s: SimpleType, t: SimpleType, nulls: bool)
    requires Stored(v, nulls) && Covers(s, t) && Passes(v, t)
    ensures Passes(v, s)
    decreases v
  {
    if HasStar(s) {
      StarIsGreatest(ValueType(v), s);
    } else if v.List? {
      ListPasses(v.items, t);
      ListPasses(v.items, s);
      if !AllNull(v.items, |v.items|) {
        var i :| 0 <= i < |v.items| && !v.items[i].Null? && Passes(v.items[i], ElemType(t));
        CoversPasses(v.items[i], ElemType(s), ElemType(t), nulls);
      }
    } else if !v.Null? {
      assert ValueType(v) in Admitted(t);
    }
  }

  lemma {:induction false} UncoveredValue(s: SimpleType, t: SimpleType) returns (v: Value)
    requires !Covers(s, t)
    ensures Stored(v, false) && Passes(v, t) && !Passes(v, s)
    decreases Depth(s)
  {
    if k :| k in Admitted(t) && k !in Admitted(s) {
      v := Sample(k);
      SampleFits(k, s);
      SampleFits(k, t);
    } else if !HasList(s) {
      v := List([]);
      ListPasses([], s);
      ListPasses([], t);
    } else {
      ElemDepth(s);
      var u := UncoveredValue(ElemType(s), ElemType(t));
      v := List([u]);
      ListOfUncovered(u, s, t);
    }
  }

  lemma ListOfUncovered(u: Value, s: SimpleType, t: SimpleType)
    requires Stored(u, false) && Passes(u, ElemType(t)) && !Passes(u, ElemType(s)) && HasList(s) && HasList(t)
    ensures Stored(List([u]), false) && Passes(List([u]), t) && !Passes(List([u]), s)
  {
    NullPasses(ElemType(s));
    ListOfOne(u, s);
    ListOfOne(u, t);
  }

  lemma NullPasses(t: SimpleType)
    ensures Passes(Null, t)
  {
  }

  lemma ListOfOne(u: Value, t: SimpleType)
    requires !u.Null?
    ensures Passes(List([u]), t) <==> HasList(t) && Passes(u, ElemType(t))
  {
    ListPasses([u], t);
    assert [u][0] == u;
  }

  /** Everything stored that passes `t` passes `s` if and only if `s` covers `t`. */
  lemma CoversIff(s: SimpleType, t: SimpleType, nulls: bool)
    ensures Covers(s, t) <==> forall v :: Stored(v, nulls) && Passes(v, t) ==> Passes(v, s)
  {
    if Covers(s, t) {
      forall v | Stored(v, nulls) && Passes(v, t) ensures Passes(v, s) {
        CoversPasses(v, s, t, nulls);
      }
    } else {
      var v := UncoveredValue(s, t);
      StoredWithoutNulls(v, nulls);
    }
  }

  lemma {:induction false} StoredWithoutNulls(v: Value, nulls: bool)
    requires Stored(v, false)
    ensures Stored(v, nulls)
  {
    if v.List? {
      forall i | 0 <= i < |v.items| ensures Stored(v.items[i], nulls) {
        StoredWithoutNulls(v.items[i], nulls);
      }
    }
  }
}
