/** Where hoisting puts each filter: on the lowest node above its origin that declares all its
    variables, and in the written order among the filters of one node. */
module HoistPlacement {
  import opened Values
  import opened Syntax
  import opened Hoist

  // ---------------------------------------------------------------- nodes of a scope

  /** The steps from the root of a scope to one of its nodes.  Filters are no nodes: they sit on one. */
  type Address = seq<nat>

  /** The filters sitting on the node at `a`, innermost first. */
  function HostedAt(p: PathPattern, a: Address): seq<Expr> {
    match p
    case Filter(i, e) => if a == [] then HostedAt(i, []) + [e] else HostedAt(i, a)
    case Join(l, r) =>
      if a == [] then []
      else if a[0] == 0 then HostedAt(l, a[1..])
      else if a[0] == 1 then HostedAt(r, a[1..])
      else []
    case Concat(l, r) =>
      if a == [] then []
      else if a[0] == 0 then HostedAt(l, a[1..])
      else if a[0] == 1 then HostedAt(r, a[1..])
      else []
    case Named(_, i) => if a == [] then [] else if a[0] == 0 then HostedAt(i, a[1..]) else []
    case _ => []
  }

  /** The variables the node at `a` declares. */
  function DeclaredAt(p: PathPattern, a: Address): set<string> {
    match p
    case Filter(i, _) => DeclaredAt(i, a)
    case Join(l, r) =>
      if a == [] then Declared(p)
      else if a[0] == 0 then DeclaredAt(l, a[1..])
      else if a[0] == 1 then DeclaredAt(r, a[1..])
      else {}
    case Concat(l, r) =>
      if a == [] then Declared(p)
      else if a[0] == 0 then DeclaredAt(l, a[1..])
      else if a[0] == 1 then DeclaredAt(r, a[1..])
      else {}
    case Named(_, i) => if a == [] then Declared(p) else if a[0] == 0 then DeclaredAt(i, a[1..]) else {}
    case _ => if a == [] then Declared(p) else {}
  }

  datatype Occurrence = Occurrence(origin: Address, expr: Expr)

  function Below(c: nat, ws: seq<Occurrence>): seq<Occurrence> {
    if ws == [] then [] else Below(c, ws[..|ws| - 1]) + [Occurrence([c] + ws[|ws| - 1].origin, ws[|ws| - 1].expr)]
  }

  /** The filters of two operands, the first one's first. */
  function Both(ls: seq<Occurrence>, rs: seq<Occurrence>): seq<Occurrence> {
    Below(0, ls) + Below(1, rs)
  }

  /** The filters of the scope, in written order, each with the node it was written on. */
  function Written(p: PathPattern): seq<Occurrence> {
    match p
    case Filter(i, e) => Written(i) + [Occurrence([], e)]
    case Join(l, r) => Both(Written(l), Written(r))
    case Concat(l, r) => Both(Written(l), Written(r))
    case Named(_, i) => Below(0, Written(i))
    case _ => []
  }

  predicate CanHost(p: PathPattern, a: Address, need: set<string>) {
    need <= DeclaredAt(p, a)
  }

  /** Climbing from `o` to the root: the first node that declares `need`. */
  function Lowest(p: PathPattern, o: Address, need: set<string>): Option<Address>
    decreases |o|
  {
    if CanHost(p, o, need) then Some(o) else if o == [] then None else Lowest(p, o[..|o| - 1], need)
  }

  /** It is the lowest of the nodes above `o`, `o` included, that declare `need`. */
  lemma {:induction false} LowestMeaning(p: PathPattern, o: Address, need: set<string>)
    ensures Lowest(p, o, need).Some? ==>
      var a := Lowest(p, o, need).value;
      a <= o && CanHost(p, a, need) && forall b: Address :: b <= o && |b| > |a| ==> !CanHost(p, b, need)
    ensures Lowest(p, o, need).None? ==> forall b: Address :: b <= o ==> !CanHost(p, b, need)
    decreases |o|
  {
    if !CanHost(p, o, need) {
      forall b: Address | b <= o && CanHost(p, b, need) ensures o != [] && b <= o[..|o| - 1] {
        assert b != o;
      }
      if o != [] {
        LowestMeaning(p, o[..|o| - 1], need);
      }
    }
  }

  function HostOf(p: PathPattern, w: Occurrence): Option<Address> {
    Lowest(p, w.origin, Referenced(w.expr))
  }

  /** The filters among `ws` whose lowest host is `h`, in order; those without one for `None`. */
  function Chosen(p: PathPattern, ws: seq<Occurrence>, h: Option<Address>): seq<Expr> {
    if ws == [] then []
    else
      var w := ws[|ws| - 1];
      Chosen(p, ws[..|ws| - 1], h) + (if HostOf(p, w) == h then [w.expr] else [])
  }

  // ---------------------------------------------------------------- sequences

  lemma {:induction false} ChosenAppend(p: PathPattern, xs: seq<Occurrence>, ys: seq<Occurrence>, h: Option<Address>)
    ensures Chosen(p, xs + ys, h) == Chosen(p, xs, h) + Chosen(p, ys, h)
    decreases |ys|
  {
    if ys == [] {
      assert xs + ys == xs;
    } else {
      ChosenAppend(p, xs, ys[..|ys| - 1], h);
      assert (xs + ys)[..|xs + ys| - 1] == xs + ys[..|ys| - 1];
    }
  }

  lemma {:induction false} HostableAppend(xs: seq<Expr>, ys: seq<Expr>, vars: set<string>)
    ensures Hostable(xs + ys, vars) == Hostable(xs, vars) + Hostable(ys, vars)
  {
    if xs == [] {
      assert xs + ys == ys;
    } else {
      assert (xs + ys)[0] == xs[0] && (xs + ys)[1..] == xs[1..] + ys;
      HostableAppend(xs[1..], ys, vars);
    }
  }

  lemma {:induction false} UnhostableAppend(xs: seq<Expr>, ys: seq<Expr>, vars: set<string>)
    ensures Unhostable(xs + ys, vars) == Unhostable(xs, vars) + Unhostable(ys, vars)
  {
    if xs == [] {
      assert xs + ys == ys;
    } else {
      assert (xs + ys)[0] == xs[0] && (xs + ys)[1..] == xs[1..] + ys;
      UnhostableAppend(xs[1..], ys, vars);
    }
  }

  lemma HostableOne(e: Expr, vars: set<string>)
    ensures Hostable([e], vars) == (if Referenced(e) <= vars then [e] else [])
    ensures Unhostable([e], vars) == (if Referenced(e) <= vars then [] else [e])
  {
    assert [e][1..] == [];
  }

  lemma {:induction false} HostedFold(p: PathPattern, es: seq<Expr>, a: Address)
    ensures HostedAt(FoldFilters(p, es), a) == if a == [] then HostedAt(p, []) + es else HostedAt(p, a)
    decreases |es|
  {
    if es != [] {
      HostedFold(Filter(p, es[0]), es[1..], a);
      assert [es[0]] + es[1..] == es;
    }
  }

  // ---------------------------------------------------------------- one step down

  /** `i` hangs below the root of `p` by step `c`. */
  predicate ChildAt(p: PathPattern, c: nat, i: PathPattern) {
    match p
    case Join(l, r) => (c == 0 && i == l) || (c == 1 && i == r)
    case Concat(l, r) => (c == 0 && i == l) || (c == 1 && i == r)
    case Named(_, j) => c == 0 && i == j
    case _ => false
  }

  lemma DeclaredBelow(p: PathPattern, c: nat, i: PathPattern, o: Address)
    requires ChildAt(p, c, i)
    ensures DeclaredAt(p, [c] + o) == DeclaredAt(i, o) && DeclaredAt(p, []) == Declared(p)
  {
    assert ([c] + o)[0] == c && ([c] + o)[1..] == o;
  }

  lemma {:induction false} LowestBelow(p: PathPattern, c: nat, i: PathPattern, o: Address, need: set<string>)
    requires ChildAt(p, c, i)
    ensures Lowest(i, o, need).Some? ==> Lowest(p, [c] + o, need) == Some([c] + Lowest(i, o, need).value)
    ensures Lowest(i, o, need).None? ==> Lowest(p, [c] + o, need) == if need <= Declared(p) then Some([]) else None
    decreases |o|
  {
    DeclaredBelow(p, c, i, o);
    var up := [c] + o;
    if !CanHost(i, o, need) {
      if o == [] {
        assert up[..|up| - 1] == [];
        assert Lowest(p, up, need) == Lowest(p, [], need);
      } else {
        assert up[..|up| - 1] == [c] + o[..|o| - 1];
        LowestBelow(p, c, i, o[..|o| - 1], need);
      }
    }
  }

  /** The host of an occurrence in a child, and in the parent. */
  lemma HostBelow(p: PathPattern, c: nat, i: PathPattern, w: Occurrence)
    requires ChildAt(p, c, i)
    ensures var up := HostOf(p, Occurrence([c] + w.origin, w.expr));
      && (HostOf(i, w).Some? ==> up == Some([c] + HostOf(i, w).value))
      && (HostOf(i, w).None? ==> up == if Referenced(w.expr) <= Declared(p) then Some([]) else None)
  {
    LowestBelow(p, c, i, w.origin, Referenced(w.expr));
  }

  lemma BelowSnoc(p: PathPattern, c: nat, ws: seq<Occurrence>, h: Option<Address>)
    requires ws != []
    ensures var w := ws[|ws| - 1];
      Chosen(p, Below(c, ws), h)
      == Chosen(p, Below(c, ws[..|ws| - 1]), h)
        + (if HostOf(p, Occurrence([c] + w.origin, w.expr)) == h then [w.expr] else [])
  {
    var before := Below(c, ws[..|ws| - 1]);
    assert Below(c, ws)[..|before|] == before;
  }

  lemma SameStep(c: nat, a: Address, b: Address)
    requires a != []
    ensures a == [c] + b <==> a[0] == c && a[1..] == b
  {
  }

  /** The filters hosted further down are the child's. */
  lemma {:induction false} ChosenDown(p: PathPattern, c: nat, i: PathPattern, ws: seq<Occurrence>, a: Address)
    requires ChildAt(p, c, i) && a != []
    ensures Chosen(p, Below(c, ws), Some(a)) == if a[0] == c then Chosen(i, ws, Some(a[1..])) else []
    decreases |ws|
  {
    if ws != [] {
      var w := ws[|ws| - 1];
      ChosenDown(p, c, i, ws[..|ws| - 1], a);
      BelowSnoc(p, c, ws, Some(a));
      HostBelow(p, c, i, w);
      if HostOf(i, w).Some? {
        SameStep(c, a, HostOf(i, w).value);
      }
    }
  }

  /** The parent hosts what it can of what the child hands up. */
  lemma {:induction false} ChosenHere(p: PathPattern, c: nat, i: PathPattern, ws: seq<Occurrence>)
    requires ChildAt(p, c, i)
    ensures Chosen(p, Below(c, ws), Some([])) == Hostable(Chosen(i, ws, None), Declared(p))
    decreases |ws|
  {
    if ws != [] {
      var k := |ws| - 1;
      var w := ws[k];
      ChosenHere(p, c, i, ws[..k]);
      BelowSnoc(p, c, ws, Some([]));
      HostBelow(p, c, i, w);
      HostableAppend(Chosen(i, ws[..k], None), [w.expr], Declared(p));
      HostableOne(w.expr, Declared(p));
      if HostOf(i, w).Some? {
        assert [c] + HostOf(i, w).value != [];
        assert Chosen(i, ws, None) == Chosen(i, ws[..k], None) + [] == Chosen(i, ws[..k], None);
      } else {
        assert Chosen(i, ws, None) == Chosen(i, ws[..k], None) + [w.expr];
      }
    }
  }

  /** It hands the rest up in turn. */
  lemma {:induction false} ChosenUp(p: PathPattern, c: nat, i: PathPattern, ws: seq<Occurrence>)
    requires ChildAt(p, c, i)
    ensures Chosen(p, Below(c, ws), None) == Unhostable(Chosen(i, ws, None), Declared(p))
    decreases |ws|
  {
    if ws != [] {
      var k := |ws| - 1;
      var w := ws[k];
      ChosenUp(p, c, i, ws[..k]);
      BelowSnoc(p, c, ws, None);
      HostBelow(p, c, i, w);
      UnhostableAppend(Chosen(i, ws[..k], None), [w.expr], Declared(p));
      HostableOne(w.expr, Declared(p));
      if HostOf(i, w).Some? {
        assert [c] + HostOf(i, w).value != [];
        assert Chosen(i, ws, None) == Chosen(i, ws[..k], None) + [] == Chosen(i, ws[..k], None);
      } else {
        assert Chosen(i, ws, None) == Chosen(i, ws[..k], None) + [w.expr];
      }
    }
  }

  // ---------------------------------------------------------------- the theorem

  /** `q` and `rest` are what the pass makes of the scope `p`, as far as the node `a` shows. */
  ghost predicate Placed(p: PathPattern, q: PathPattern, rest: seq<Expr>, a: Address) {
    HostedAt(q, a) == Chosen(p, Written(p), Some(a)) && rest == Chosen(p, Written(p), None)
  }

  lemma PlaceHosted(node: PathPattern, pending: seq<Expr>, a: Address)
    ensures HostedAt(Place(node, pending).0, a)
         == if a == [] then HostedAt(node, []) + Hostable(pending, Declared(node)) else HostedAt(node, a)
    ensures Place(node, pending).1 == Unhostable(pending, Declared(node))
  {
    HostedFold(node, Hostable(pending, Declared(node)), a);
  }

  /** Where the node `a` of a pair lies in its operand `c`. */
  function Inside(c: nat, a: Address): Address {
    if a != [] && a[0] == c then a[1..] else []
  }

  lemma PairHosts(l: PathPattern, r: PathPattern, a: Address)
    ensures HostedAt(Join(l, r), a) == HostedAt(Concat(l, r), a)
    ensures HostedAt(Join(l, r), a) ==
      if a == [] || a[0] > 1 then [] else if a[0] == 0 then HostedAt(l, a[1..]) else HostedAt(r, a[1..])
  {
  }

  predicate PairOf(p: PathPattern, l: PathPattern, r: PathPattern) {
    p == Join(l, r) || p == Concat(l, r)
  }

  lemma WrittenPair(p: PathPattern, l: PathPattern, r: PathPattern)
    requires PairOf(p, l, r)
    ensures Written(p) == Both(Written(l), Written(r)) && ChildAt(p, 0, l) && ChildAt(p, 1, r)
  {
    var ls, rs := Written(l), Written(r);
    if p.Join? {
      assert Written(p) == Both(ls, rs);
    } else {
      assert Written(p) == Both(ls, rs);
    }
  }

  /** What the filters of a pair come to: at the pair itself, further down, and above it. */
  lemma ChosenHereBoth(p: PathPattern, l: PathPattern, r: PathPattern, ls: seq<Occurrence>, rs: seq<Occurrence>)
    requires ChildAt(p, 0, l) && ChildAt(p, 1, r)
    ensures Chosen(p, Both(ls, rs), Some([])) == Hostable(Chosen(l, ls, None) + Chosen(r, rs, None), Declared(p))
  {
    ChosenAppend(p, Below(0, ls), Below(1, rs), Some([]));
    ChosenHere(p, 0, l, ls);
    ChosenHere(p, 1, r, rs);
    HostableAppend(Chosen(l, ls, None), Chosen(r, rs, None), Declared(p));
  }

  lemma ChosenDownBoth(p: PathPattern, l: PathPattern, r: PathPattern, ls: seq<Occurrence>, rs: seq<Occurrence>,
                       a: Address)
    requires ChildAt(p, 0, l) && ChildAt(p, 1, r) && a != []
    ensures Chosen(p, Both(ls, rs), Some(a)) ==
      if a[0] == 0 then Chosen(l, ls, Some(a[1..])) else if a[0] == 1 then Chosen(r, rs, Some(a[1..])) else []
  {
    ChosenAppend(p, Below(0, ls), Below(1, rs), Some(a));
    ChosenDown(p, 0, l, ls, a);
    ChosenDown(p, 1, r, rs, a);
  }

  lemma ChosenUpBoth(p: PathPattern, l: PathPattern, r: PathPattern, ls: seq<Occurrence>, rs: seq<Occurrence>)
    requires ChildAt(p, 0, l) && ChildAt(p, 1, r)
    ensures Chosen(p, Both(ls, rs), None) == Unhostable(Chosen(l, ls, None) + Chosen(r, rs, None), Declared(p))
  {
    ChosenAppend(p, Below(0, ls), Below(1, rs), None);
    ChosenUp(p, 0, l, ls);
    ChosenUp(p, 1, r, rs);
    UnhostableAppend(Chosen(l, ls, None), Chosen(r, rs, None), Declared(p));
  }

  /** Each side keeps what it hosts, the pair hosts what it can of what they hand up. */
  lemma PlacedPair(p: PathPattern, l: PathPattern, r: PathPattern, q: PathPattern, s: PathPattern,
                   node: PathPattern, pl: seq<Expr>, pr: seq<Expr>, a: Address)
    requires PairOf(p, l, r) && PairOf(node, q, s)
    requires Placed(l, q, pl, Inside(0, a)) && Placed(r, s, pr, Inside(1, a)) && Declared(node) == Declared(p)
    ensures Placed(p, Place(node, pl + pr).0, Place(node, pl + pr).1, a)
  {
    PlaceHosted(node, pl + pr, a);
    PairHosts(q, s, a);
    WrittenPair(p, l, r);
    if a == [] {
      ChosenHereBoth(p, l, r, Written(l), Written(r));
    } else {
      ChosenDownBoth(p, l, r, Written(l), Written(r), a);
    }
    ChosenUpBoth(p, l, r, Written(l), Written(r));
  }

  lemma PlacedNamed(x: string, i: PathPattern, q: PathPattern, rest: seq<Expr>, a: Address)
    requires Placed(i, q, rest, Inside(0, a)) && Declared(Named(x, q)) == Declared(Named(x, i))
    ensures Placed(Named(x, i), Place(Named(x, q), rest).0, Place(Named(x, q), rest).1, a)
  {
    var p, node := Named(x, i), Named(x, q);
    assert Written(p) == Below(0, Written(i));
    ChosenHere(p, 0, i, Written(i));
    ChosenUp(p, 0, i, Written(i));
    PlaceHosted(node, rest, a);
    assert HostedAt(node, a) == if a == [] || a[0] != 0 then [] else HostedAt(q, a[1..]);
    if a != [] {
      ChosenDown(p, 0, i, Written(i), a);
    }
  }

  /** Nothing that `i` handed up can be hosted on `i`. */
  lemma {:induction false} HandedUp(i: PathPattern, ws: seq<Occurrence>, e: Expr)
    requires e in Chosen(i, ws, None)
    ensures !(Referenced(e) <= Declared(i))
    decreases |ws|
  {
    var w := ws[|ws| - 1];
    if e in Chosen(i, ws[..|ws| - 1], None) {
      HandedUp(i, ws[..|ws| - 1], e);
    } else {
      LowestMeaning(i, w.origin, Referenced(e));
      RootDeclares(i);
      var root: Address := [];
      assert root <= w.origin && !CanHost(i, root, Referenced(e));
    }
  }

  lemma {:induction false} RootDeclares(p: PathPattern)
    ensures DeclaredAt(p, []) == Declared(p)
  {
    if p.Filter? {
      RootDeclares(p.inner);
    }
  }

  lemma {:induction false} LowestFiltered(i: PathPattern, f: Expr, o: Address, need: set<string>)
    ensures Lowest(Filter(i, f), o, need) == Lowest(i, o, need)
    decreases |o|
  {
    if o != [] {
      LowestFiltered(i, f, o[..|o| - 1], need);
    }
  }

  lemma {:induction false} ChosenFiltered(i: PathPattern, f: Expr, ws: seq<Occurrence>, h: Option<Address>)
    ensures Chosen(Filter(i, f), ws, h) == Chosen(i, ws, h)
    decreases |ws|
  {
    if ws != [] {
      ChosenFiltered(i, f, ws[..|ws| - 1], h);
      LowestFiltered(i, f, ws[|ws| - 1].origin, Referenced(ws[|ws| - 1].expr));
    }
  }

  lemma RootHost(i: PathPattern, e: Expr)
    ensures Lowest(i, [], Referenced(e)) == if Referenced(e) <= Declared(i) then Some([]) else None
  {
    RootDeclares(i);
  }

  /** One filter more, written on the root. */
  lemma ChosenWith(i: PathPattern, e: Expr, h: Option<Address>)
    ensures Chosen(Filter(i, e), Written(Filter(i, e)), h)
         == Chosen(i, Written(i), h)
           + (if h == (if Referenced(e) <= Declared(i) then Some([]) else None) then [e] else [])
  {
    var p, ws, w := Filter(i, e), Written(i), Occurrence([], e);
    RootHost(i, e);
    LowestFiltered(i, e, [], Referenced(e));
    ChosenFiltered(i, e, ws, h);
    assert Written(p)[..|ws|] == ws && Written(p)[|ws|] == w;
    assert HostOf(p, w) == if Referenced(e) <= Declared(i) then Some([]) else None;
  }

  /** Of what the operand handed up and the new filter, only the new one can be hosted. */
  lemma SplitWith(i: PathPattern, rest: seq<Expr>, e: Expr)
    requires rest == Chosen(i, Written(i), None)
    ensures Hostable(rest + [e], Declared(i)) == (if Referenced(e) <= Declared(i) then [e] else [])
    ensures Unhostable(rest + [e], Declared(i)) == rest + (if Referenced(e) <= Declared(i) then [] else [e])
  {
    forall f | f in rest ensures !(Referenced(f) <= Declared(i)) {
      HandedUp(i, Written(i), f);
    }
    SplitNone(rest, Declared(i));
    HostableAppend(rest, [e], Declared(i));
    UnhostableAppend(rest, [e], Declared(i));
    HostableOne(e, Declared(i));
  }

  lemma PlacedFilter(i: PathPattern, e: Expr, q: PathPattern, rest: seq<Expr>, a: Address)
    requires Placed(i, q, rest, a) && Placed(i, q, rest, []) && Declared(q) == Declared(i)
    ensures Placed(Filter(i, e), Place(q, rest + [e]).0, Place(q, rest + [e]).1, a)
  {
    SplitWith(i, rest, e);
    ChosenWith(i, e, Some(a));
    ChosenWith(i, e, None);
    PlaceHosted(q, rest + [e], a);
  }

  /** Each filter of the scope ends on the lowest node, from its origin upwards, that declares all it
      references; those that no node can host are handed up; and the filters of one node, like those
      handed up, stand in the order in which they were written. */
  lemma {:induction false} PlacedLowest(p: PathPattern, a: Address)
    ensures Placed(p, HoistPattern(p).0, HoistPattern(p).1, a)
    decreases p, 1
  {
    match p
    case Filter(i, e) =>
      PlacedLowest(i, a);
      PlacedLowest(i, []);
      HoistKeepsShape(i);
      PlacedFilter(i, e, HoistPattern(i).0, HoistPattern(i).1, a);
    case Join(l, r) => PlacedLowestPair(p, a);
    case Concat(l, r) => PlacedLowestPair(p, a);
    case Named(x, i) =>
      PlacedLowest(i, Inside(0, a));
      HoistKeepsShape(i);
      PlacedNamed(x, i, HoistPattern(i).0, HoistPattern(i).1, a);
    case _ =>
  }

  lemma {:induction false} PlacedLowestPair(p: PathPattern, a: Address)
    requires p.Join? || p.Concat?
    ensures Placed(p, HoistPattern(p).0, HoistPattern(p).1, a)
    decreases p, 0
  {
    var l, r := p.fst, p.snd;
    PlacedLowest(l, Inside(0, a));
    PlacedLowest(r, Inside(1, a));
    HoistKeepsShape(l);
    HoistKeepsShape(r);
    var (q, pl) := HoistPattern(l);
    var (s, pr) := HoistPattern(r);
    PlacedPair(p, l, r, q, s, if p.Join? then Join(q, s) else Concat(q, s), pl, pr, a);
  }

  // ---------------------------------------------------------------- a sealed scope

  /** The node at `a` of a scope, without the filters on it. */
  function NodeAt(p: PathPattern, a: Address): Option<PathPattern> {
    match p
    case Filter(i, _) => NodeAt(i, a)
    case Join(l, r) =>
      if a == [] then Some(p)
      else if a[0] == 0 then NodeAt(l, a[1..])
      else if a[0] == 1 then NodeAt(r, a[1..])
      else None
    case Concat(l, r) =>
      if a == [] then Some(p)
      else if a[0] == 0 then NodeAt(l, a[1..])
      else if a[0] == 1 then NodeAt(r, a[1..])
      else None
    case Named(_, i) => if a == [] then Some(p) else if a[0] == 0 then NodeAt(i, a[1..]) else None
    case _ => if a == [] then Some(p) else None
  }

  /** A node whose operands are scopes of their own, or that has none. */
  predicate Bounding(p: PathPattern) {
    p.Union? || p.Repeat? || p.Questioned? || p.Selected? || p.Node? || p.Edge?
  }

  function SealedInside(p: PathPattern): PathPattern
    requires Bounding(p)
  {
    match p
    case Union(a, b) => PathPattern.Union(Sealed(a), Sealed(b))
    case Repeat(i, lb, ub) => Repeat(Sealed(i), lb, ub)
    case Questioned(i) => Questioned(Sealed(i))
    case Selected(prefix, i) => Selected(prefix, Sealed(i))
    case _ => p
  }

  lemma {:induction false} NodeFold(p: PathPattern, es: seq<Expr>, a: Address)
    ensures NodeAt(FoldFilters(p, es), a) == NodeAt(p, a)
    decreases |es|
  {
    if es != [] {
      NodeFold(Filter(p, es[0]), es[1..], a);
    }
  }

  /** Inner scopes stay where they are, each sealed in the same way. */
  lemma {:induction false} InnerScopesSealed(p: PathPattern, a: Address)
    requires NodeAt(p, a).Some? && Bounding(NodeAt(p, a).value)
    ensures NodeAt(HoistPattern(p).0, a) == Some(SealedInside(NodeAt(p, a).value))
    decreases p
  {
    match p
    case Filter(i, e) =>
      InnerScopesSealed(i, a);
      NodePlace(HoistPattern(i).0, HoistPattern(i).1 + [e], a);
    case Join(l, r) =>
      InnerScopesSealed(if a[0] == 0 then l else r, a[1..]);
      NodePlace(Join(HoistPattern(l).0, HoistPattern(r).0), HoistPattern(l).1 + HoistPattern(r).1, a);
    case Concat(l, r) =>
      InnerScopesSealed(if a[0] == 0 then l else r, a[1..]);
      NodePlace(Concat(HoistPattern(l).0, HoistPattern(r).0), HoistPattern(l).1 + HoistPattern(r).1, a);
    case Named(x, i) =>
      InnerScopesSealed(i, a[1..]);
      NodePlace(Named(x, HoistPattern(i).0), HoistPattern(i).1, a);
    case _ =>
  }

  lemma NodePlace(node: PathPattern, pending: seq<Expr>, a: Address)
    ensures NodeAt(Place(node, pending).0, a) == NodeAt(node, a)
  {
    NodeFold(node, Hostable(pending, Declared(node)), a);
  }

  /** In a sealed subtree the filters no node can host close the root's list. */
  lemma SealedPlaced(p: PathPattern, a: Address)
    ensures HostedAt(Sealed(p), a) ==
      (if a == [] then Chosen(p, Written(p), Some([])) + Chosen(p, Written(p), None)
       else Chosen(p, Written(p), Some(a)))
    ensures NodeAt(p, a).Some? && Bounding(NodeAt(p, a).value) ==>
        NodeAt(Sealed(p), a) == Some(SealedInside(NodeAt(p, a).value))
  {
    PlacedLowest(p, a);
    PlacedLowest(p, []);
    HostedFold(HoistPattern(p).0, HoistPattern(p).1, a);
    NodeFold(HoistPattern(p).0, HoistPattern(p).1, a);
    if NodeAt(p, a).Some? && Bounding(NodeAt(p, a).value) {
      InnerScopesSealed(p, a);
    }
  }

  /** The occurrences are the filters of the scope, in their order. */
  lemma {:induction false} WrittenIsCollected(p: PathPattern)
    ensures Exprs(Written(p)) == Collected(p)
  {
    match p
    case Filter(i, e) =>
      WrittenIsCollected(i);
      ExprsAppend(Written(i), [Occurrence([], e)]);
      assert Exprs([Occurrence([], e)]) == [e];
    case Join(l, r) =>
      WrittenIsCollected(l);
      WrittenIsCollected(r);
      ExprsAppend(Below(0, Written(l)), Below(1, Written(r)));
      ExprsBelow(0, Written(l));
      ExprsBelow(1, Written(r));
    case Concat(l, r) =>
      WrittenIsCollected(l);
      WrittenIsCollected(r);
      ExprsAppend(Below(0, Written(l)), Below(1, Written(r)));
      ExprsBelow(0, Written(l));
      ExprsBelow(1, Written(r));
    case Named(_, i) =>
      WrittenIsCollected(i);
      ExprsBelow(0, Written(i));
    case _ =>
  }

  function Exprs(ws: seq<Occurrence>): seq<Expr> {
    seq(|ws|, k requires 0 <= k < |ws| => ws[k].expr)
  }

  lemma ExprsAppend(xs: seq<Occurrence>, ys: seq<Occurrence>)
    ensures Exprs(xs + ys) == Exprs(xs) + Exprs(ys)
  {
  }

  lemma {:induction false} ExprsBelow(c: nat, ws: seq<Occurrence>)
    ensures |Below(c, ws)| == |ws| && Exprs(Below(c, ws)) == Exprs(ws)
  {
    if ws != [] {
      var k := |ws| - 1;
      ExprsBelow(c, ws[..k]);
      assert Exprs(Below(c, ws)) == Exprs(Below(c, ws[..k])) + [ws[k].expr];
      assert Exprs(ws) == Exprs(ws[..k]) + [ws[k].expr];
    }
  }
}
