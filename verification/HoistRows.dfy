/** Hoisting inside one pattern produces exactly the rows of the standard's reading. */
module HoistRows {
  import opened Values
  import opened Syntax
  import opened RowAlgebra
  import opened Runtime
  import opened Evaluator
  import opened Scoping
  import opened Hoist

  // ---------------------------------------------------------------- the scoping a pattern must obey

  /** Variables the filters of the scope mention inside subquery bodies, where the pass does not look. */
  function Hidden(p: PathPattern): set<string> {
    match p
    case Filter(i, e) => Hidden(i) + SubqueryVars(e)
    case Join(a, b) => Hidden(a) + Hidden(b)
    case Concat(a, b) => Hidden(a) + Hidden(b)
    case Named(_, i) => Hidden(i)
    case _ => {}
  }

  /** Each filter of `es` that a pattern declaring `own` hosts reads, of the sibling's variables,
      only ones in `bound`. */
  predicate ReadsBound(es: seq<Expr>, own: set<string>, sibling: set<string>, bound: set<string>) {
    forall e :: e in es && Referenced(e) <= own ==> Reads(e) * sibling <= bound
  }

  /** The join key is bound on both sides of every joined pair; it is known when there is no choice. */
  function KeyOnly(shared: set<string>): set<string> {
    if |shared| == 1 then shared else {}
  }

  predicate ConcatScoped(a: PathPattern, b: PathPattern) {
    && ReadsBound(Collected(a), Declared(a), Declared(b), Sure(a))
    && ReadsBound(Collected(b), Declared(b), Declared(a), Sure(b))
  }

  /** Operands without a shared element variable are paired unchecked, and the right row's bindings
      win: then a filter on the left must not read what the right one declares. */
  predicate JoinScoped(a: PathPattern, b: PathPattern) {
    && ReadsBound(Collected(a), Declared(a), Declared(b),
                  if FreeVars(a) * FreeVars(b) == {} then {} else Sure(a) + KeyOnly(FreeVars(a) * FreeVars(b)))
    && ReadsBound(Collected(b), Declared(b), Declared(a), Sure(b) + KeyOnly(FreeVars(a) * FreeVars(b)))
  }

  /** A filter evaluated inside an operand reads nothing that the sibling binds and the operand may
      leave unbound; one evaluated below a path variable does not read it. */
  predicate WellScoped(p: PathPattern) {
    match p
    case Filter(i, _) => WellScoped(i)
    case Join(a, b) => WellScoped(a) && WellScoped(b) && JoinScoped(a, b)
    case Concat(a, b) => WellScoped(a) && WellScoped(b) && ConcatScoped(a, b)
    case Named(x, i) =>
      WellScoped(i) && forall e :: e in Collected(i) && Referenced(e) <= Declared(i) ==> x !in Reads(e)
    case Union(a, b) => WellScoped(a) && WellScoped(b)
    case Repeat(i, _, _) => WellScoped(i)
    case Questioned(i) => WellScoped(i)
    case Selected(_, i) => WellScoped(i)
    case Node(_) => true
    case Edge(_, _) => true
  }

  // ---------------------------------------------------------------- filters and pairings

  /** On a paired row the filters see what they saw on the left row. */
  ghost predicate SeenLeft(xs: seq<Row>, ys: seq<Row>, c: (Row, Row) -> bool, m: (Row, Row) -> Row, es: seq<Expr>) {
    forall x, y, e :: x in xs && y in ys && c(x, y) && e in es ==> AgreeOn(m(x, y).mu, x.mu, Reads(e))
  }

  ghost predicate SeenRight(xs: seq<Row>, ys: seq<Row>, c: (Row, Row) -> bool, m: (Row, Row) -> Row, es: seq<Expr>) {
    forall x, y, e :: x in xs && y in ys && c(x, y) && e in es ==> AgreeOn(m(x, y).mu, y.mu, Reads(e))
  }

  lemma HoldsAllLocal(env: Env, m1: Assignment, m2: Assignment, es: seq<Expr>)
    requires forall e :: e in es ==> AgreeOn(m1, m2, Reads(e))
    ensures HoldsAll(env, m1, es) == HoldsAll(env, m2, es)
  {
    forall e | e in es ensures Holds(env, m1, e) == Holds(env, m2, e) {
      HoldsLocal(env, m1, m2, e);
    }
  }

  /** Such filters may run on the left operand. */
  lemma FiltersOnLeft(env: Env, xs: seq<Row>, ys: seq<Row>, c: (Row, Row) -> bool, m: (Row, Row) -> Row, es: seq<Expr>)
    requires SeenLeft(xs, ys, c, m, es)
    ensures FilterSeq(PairAll(xs, ys, c, m), AllTest(env, es)) == PairAll(FilterSeq(xs, AllTest(env, es)), ys, c, m)
  {
    forall x, y | x in xs && y in ys && c(x, y) ensures AllTest(env, es)(m(x, y)) == AllTest(env, es)(x) {
      HoldsAllLocal(env, m(x, y).mu, x.mu, es);
    }
    FilterPairLeft(xs, ys, c, m, AllTest(env, es), AllTest(env, es));
  }

  lemma FiltersOnRight(env: Env, xs: seq<Row>, ys: seq<Row>, c: (Row, Row) -> bool, m: (Row, Row) -> Row, es: seq<Expr>)
    requires SeenRight(xs, ys, c, m, es)
    ensures FilterSeq(PairAll(xs, ys, c, m), AllTest(env, es)) == PairAll(xs, FilterSeq(ys, AllTest(env, es)), c, m)
  {
    forall x, y | x in xs && y in ys && c(x, y) ensures AllTest(env, es)(m(x, y)) == AllTest(env, es)(y) {
      HoldsAllLocal(env, m(x, y).mu, y.mu, es);
    }
    FilterPairRight(xs, ys, c, m, AllTest(env, es), AllTest(env, es));
  }

  lemma FilterTwice(env: Env, rows: seq<Row>, es: seq<Expr>, fs: seq<Expr>, all: seq<Expr>)
    requires forall e :: e in all <==> e in es || e in fs
    ensures FilterSeq(FilterSeq(rows, AllTest(env, es)), AllTest(env, fs)) == FilterSeq(rows, AllTest(env, all))
  {
    FilterFilter(rows, AllTest(env, es), AllTest(env, fs), AllTest(env, all));
  }

  lemma FilterNothing(env: Env, rows: seq<Row>)
    ensures FilterSeq(rows, AllTest(env, [])) == rows
  {
    FilterAllPass(rows, AllTest(env, []));
  }

  /** Both operands pre-filtered: the pairing filtered afterwards. */
  lemma FiltersOnBoth(env: Env, xs: seq<Row>, ys: seq<Row>, c: (Row, Row) -> bool, m: (Row, Row) -> Row,
                      es: seq<Expr>, fs: seq<Expr>)
    requires SeenLeft(xs, ys, c, m, es) && SeenRight(xs, ys, c, m, fs)
    ensures PairAll(FilterSeq(xs, AllTest(env, es)), FilterSeq(ys, AllTest(env, fs)), c, m)
         == FilterSeq(PairAll(xs, ys, c, m), AllTest(env, es + fs))
  {
    var xs' := FilterSeq(xs, AllTest(env, es));
    forall x | x in xs' ensures x in xs {
      FilterMember(xs, AllTest(env, es), x);
    }
    FiltersOnRight(env, xs', ys, c, m, fs);
    FiltersOnLeft(env, xs, ys, c, m, es);
    FilterTwice(env, PairAll(xs, ys, c, m), es, fs, es + fs);
  }

  ghost predicate AllRead(es: seq<Expr>, sibling: set<string>, bound: set<string>) {
    forall e :: e in es ==> Reads(e) * sibling <= bound
  }

  /** Rows that unify: a shared variable the left row binds has one value. */
  lemma UnifiedSeenLeft(xs: seq<Row>, ys: seq<Row>, c: (Row, Row) -> bool, m: (Row, Row) -> Row, es: seq<Expr>,
                        sure: set<string>, decl: set<string>, sibling: set<string>)
    requires forall x, y :: x in xs && y in ys && c(x, y) ==> CanUnify(x.mu, y.mu) && m(x, y).mu == x.mu + y.mu
    requires Binds(xs, sure, decl) && Binds(ys, {}, sibling) && AllRead(es, sibling, sure)
    ensures SeenLeft(xs, ys, c, m, es)
  {
    forall x, y, e, v | x in xs && y in ys && c(x, y) && e in es && v in Reads(e) && v in y.mu
      ensures v in x.mu && x.mu[v] == y.mu[v]
    {
      assert v in sibling && v in Reads(e) * sibling && v in sure;
    }
  }

  lemma UnifiedSeenRight(xs: seq<Row>, ys: seq<Row>, c: (Row, Row) -> bool, m: (Row, Row) -> Row, es: seq<Expr>,
                         sibling: set<string>, sure: set<string>, decl: set<string>)
    requires forall x, y :: x in xs && y in ys && c(x, y) ==> m(x, y).mu == x.mu + y.mu
    requires Binds(xs, {}, sibling) && Binds(ys, sure, decl) && AllRead(es, sibling, sure)
    ensures SeenRight(xs, ys, c, m, es)
  {
    forall x, y, e, v | x in xs && y in ys && c(x, y) && e in es && v in Reads(e) && v in x.mu
      ensures v in y.mu
    {
      assert v in sibling && v in Reads(e) * sibling && v in sure;
    }
  }

  lemma ConcatFiltersOnBoth(env: Env, xs: seq<Row>, ys: seq<Row>, es: seq<Expr>, fs: seq<Expr>,
                            sure: set<string>, decl: set<string>, sure': set<string>, decl': set<string>)
    requires Binds(xs, sure, decl) && Binds(ys, sure', decl')
    requires AllRead(es, decl', sure) && AllRead(fs, decl, sure')
    ensures PairAll(FilterSeq(xs, AllTest(env, es)), FilterSeq(ys, AllTest(env, fs)), ConcatCompat, ConcatMerge)
         == FilterSeq(PairAll(xs, ys, ConcatCompat, ConcatMerge), AllTest(env, es + fs))
  {
    UnifiedSeenLeft(xs, ys, ConcatCompat, ConcatMerge, es, sure, decl, decl');
    UnifiedSeenRight(xs, ys, ConcatCompat, ConcatMerge, fs, decl, sure', decl');
    FiltersOnBoth(env, xs, ys, ConcatCompat, ConcatMerge, es, fs);
  }

  /** With a single shared variable, that one is the key. */
  lemma OnlyKey(env: Env, shared: set<string>, v: string)
    requires Picks(env) && v in KeyOnly(shared)
    ensures shared != {} && env.pick(shared) == v
  {
    assert env.pick(shared) in shared;
    assert {v} <= shared && |shared - {v}| == 0;
  }

  lemma JoinSeenLeft(env: Env, xs: seq<Row>, ys: seq<Row>, shared: set<string>, es: seq<Expr>,
                     sure: set<string>, decl: set<string>, sibling: set<string>)
    requires Picks(env) && Binds(xs, sure, decl) && Binds(ys, {}, sibling)
    requires AllRead(es, sibling, if shared == {} then {} else sure + KeyOnly(shared))
    ensures SeenLeft(xs, ys, JoinTest(env, shared), JoinMerge, es)
  {
    forall x, y, e, v | x in xs && y in ys && JoinTest(env, shared)(x, y) && e in es && v in Reads(e) && v in y.mu
      ensures v in x.mu && x.mu[v] == y.mu[v]
    {
      assert v in sibling && v in Reads(e) * sibling;
      if v !in sure {
        OnlyKey(env, shared, v);
      }
    }
  }

  lemma JoinSeenRight(env: Env, xs: seq<Row>, ys: seq<Row>, shared: set<string>, es: seq<Expr>,
                      sibling: set<string>, sure: set<string>, decl: set<string>)
    requires Picks(env) && Binds(xs, {}, sibling) && Binds(ys, sure, decl)
    requires AllRead(es, sibling, sure + KeyOnly(shared))
    ensures SeenRight(xs, ys, JoinTest(env, shared), JoinMerge, es)
  {
    forall x, y, e, v | x in xs && y in ys && JoinTest(env, shared)(x, y) && e in es && v in Reads(e) && v in x.mu
      ensures v in y.mu
    {
      assert v in sibling && v in Reads(e) * sibling;
      if v !in sure {
        OnlyKey(env, shared, v);
      }
    }
  }

  lemma JoinFiltersOnBoth(env: Env, xs: seq<Row>, ys: seq<Row>, shared: set<string>, es: seq<Expr>, fs: seq<Expr>,
                          sure: set<string>, decl: set<string>, sure': set<string>, decl': set<string>)
    requires Picks(env) && Binds(xs, sure, decl) && Binds(ys, sure', decl')
    requires AllRead(es, decl', if shared == {} then {} else sure + KeyOnly(shared))
    requires AllRead(fs, decl, sure' + KeyOnly(shared))
    ensures PairAll(FilterSeq(xs, AllTest(env, es)), FilterSeq(ys, AllTest(env, fs)), JoinTest(env, shared), JoinMerge)
         == FilterSeq(PairAll(xs, ys, JoinTest(env, shared), JoinMerge), AllTest(env, es + fs))
  {
    JoinSeenLeft(env, xs, ys, shared, es, sure, decl, decl');
    JoinSeenRight(env, xs, ys, shared, fs, decl, sure', decl');
    FiltersOnBoth(env, xs, ys, JoinTest(env, shared), JoinMerge, es, fs);
  }

  // ---------------------------------------------------------------- shapes the proof relies on

  lemma {:induction false} RowsFold(env: Env, pol: Policy, p: PathPattern, es: seq<Expr>)
    ensures Rows(env, pol, FoldFilters(p, es)) == FilterSeq(Rows(env, pol, p), AllTest(env, es))
    decreases |es|
  {
    if es == [] {
      FilterNothing(env, Rows(env, pol, p));
    } else {
      RowsFold(env, pol, Filter(p, es[0]), es[1..]);
      FilterTwice(env, Rows(env, pol, p), [es[0]], es[1..], es);
    }
  }

  lemma {:induction false} BareKeepsVars(p: PathPattern)
    ensures FreeVars(Bare(p)) == FreeVars(p) && PathVars(Bare(p)) == PathVars(p) && Sure(Bare(p)) == Sure(p)
    decreases p, 0
  {
    match p
    case Filter(i, _) => BareKeepsVars(i);
    case Join(a, b) => BareKeepsVars(a); BareKeepsVars(b);
    case Concat(a, b) => BareKeepsVars(a); BareKeepsVars(b);
    case Named(_, i) => BareKeepsVars(i);
    case Union(a, b) => DeferredKeepsVars(a); DeferredKeepsVars(b);
    case Repeat(i, _, _) => DeferredKeepsVars(i);
    case Questioned(i) => DeferredKeepsVars(i);
    case Selected(_, i) => DeferredKeepsVars(i);
    case Node(_) =>
    case Edge(_, _) =>
  }

  lemma {:induction false} DeferredKeepsVars(p: PathPattern)
    ensures FreeVars(Deferred(p)) == FreeVars(p) && PathVars(Deferred(p)) == PathVars(p) && Sure(Deferred(p)) == Sure(p)
    decreases p, 1
  {
    BareKeepsVars(p);
    FoldShape(Bare(p), Collected(p));
  }

  lemma {:induction false} CollectedHidden(p: PathPattern, e: Expr)
    requires e in Collected(p)
    ensures SubqueryVars(e) <= Hidden(p)
  {
    match p
    case Filter(i, f) => if e != f { CollectedHidden(i, e); }
    case Join(a, b) => if e in Collected(a) { CollectedHidden(a, e); } else { CollectedHidden(b, e); }
    case Concat(a, b) => if e in Collected(a) { CollectedHidden(a, e); } else { CollectedHidden(b, e); }
    case Named(_, i) => CollectedHidden(i, e);
    case _ =>
  }

  /** The filters hosted inside an operand obey its scoping. */
  lemma HostedReads(es: seq<Expr>, written: seq<Expr>, own: set<string>, sibling: set<string>, bound: set<string>)
    requires ReadsBound(written, own, sibling, bound)
    requires forall e :: e in es ==> e in written && Referenced(e) <= own
    ensures AllRead(es, sibling, bound)
  {
  }

  /** What the proof needs to know about one operand. */
  lemma OperandFacts(env: Env, pol: Policy, a: PathPattern)
    ensures Binds(Rows(env, pol, Bare(a)), Sure(a), Declared(a))
    ensures FreeVars(HoistPattern(a).0) == FreeVars(a) && PathVars(HoistPattern(a).0) == PathVars(a)
    ensures FreeVars(Bare(a)) == FreeVars(a)
  {
    HoistKeepsShape(a);
    BareKeepsVars(a);
    RowsBind(env, pol, Bare(a));
  }

  // ---------------------------------------------------------------- the theorem

  /** `Place` attaches exactly the filters it does not hand back. */
  lemma PlaceRows(env: Env, pol: Policy, node: PathPattern, pending: seq<Expr>) returns (here: seq<Expr>)
    ensures forall e :: e in here ==> e in pending && Referenced(e) <= Declared(node)
    ensures forall e :: e in pending ==> e in here || e in Place(node, pending).1
    ensures Rows(env, pol, Place(node, pending).0) == FilterSeq(Rows(env, pol, node), AllTest(env, here))
  {
    here := Hostable(pending, Declared(node));
    SplitSound(pending, Declared(node));
    forall e | e in pending ensures e in here || e in Place(node, pending).1 {
      assert e in multiset(pending);
    }
    RowsFold(env, pol, node, here);
  }

  /** Placing more filters on a node whose rows are already `base` filtered by `es`. */
  lemma PlaceOnto(env: Env, pol: Policy, node: PathPattern, pending: seq<Expr>, base: seq<Row>, es: seq<Expr>)
    returns (placed: seq<Expr>)
    requires Rows(env, pol, node) == FilterSeq(base, AllTest(env, es))
    ensures forall e :: e in placed ==> e in es || (e in pending && Referenced(e) <= Declared(node))
    ensures forall e :: e in es || e in pending ==> e in placed || e in Place(node, pending).1
    ensures Rows(env, pol, Place(node, pending).0) == FilterSeq(base, AllTest(env, placed))
  {
    var here := PlaceRows(env, pol, node, pending);
    placed := es + here;
    FilterTwice(env, base, es, here, placed);
  }

  /** The state of the induction: `placed` are the filters of `written` put inside a pattern that
      declares `decl`, `rest` the ones handed upwards. */
  ghost predicate Split(written: seq<Expr>, decl: set<string>, rest: seq<Expr>, placed: seq<Expr>) {
    && (forall e :: e in placed ==> e in written && Referenced(e) <= decl)
    && (forall e :: e in rest ==> e in written && !(Referenced(e) <= decl))
    && (forall e :: e in written ==> e in placed || e in rest)
  }

  /** One operand of the induction: `q` is the hoisted form of `a`, `x` its filter-free form. */
  ghost predicate Hoisted(env: Env, pol: Policy, a: PathPattern, q: PathPattern, x: PathPattern, placed: seq<Expr>) {
    && FreeVars(q) == FreeVars(a) && PathVars(q) == PathVars(a)
    && FreeVars(x) == FreeVars(a)
    && Binds(Rows(env, pol, x), Sure(a), Declared(a))
    && Rows(env, pol, q) == FilterSeq(Rows(env, pol, x), AllTest(env, placed))
  }

  lemma HoistedJoin(env: Env, pol: Policy, a: PathPattern, b: PathPattern, q: PathPattern, s: PathPattern,
                    x: PathPattern, y: PathPattern, pa: seq<Expr>, pb: seq<Expr>)
    requires Picks(env) && JoinScoped(a, b)
    requires Hoisted(env, pol, a, q, x, pa) && Hoisted(env, pol, b, s, y, pb)
    requires forall e :: e in pa ==> e in Collected(a) && Referenced(e) <= Declared(a)
    requires forall e :: e in pb ==> e in Collected(b) && Referenced(e) <= Declared(b)
    ensures Rows(env, pol, Join(q, s)) == FilterSeq(Rows(env, pol, Join(x, y)), AllTest(env, pa + pb))
  {
    var shared := FreeVars(a) * FreeVars(b);
    HostedReads(pa, Collected(a), Declared(a), Declared(b), if shared == {} then {} else Sure(a) + KeyOnly(shared));
    HostedReads(pb, Collected(b), Declared(b), Declared(a), Sure(b) + KeyOnly(shared));
    JoinFiltersOnBoth(env, Rows(env, pol, x), Rows(env, pol, y), shared, pa, pb, Sure(a), Declared(a), Sure(b),
                      Declared(b));
    JoinedRows(env, pol, q, s, x, y, shared, pa, pb);
  }

  /** Two operands filtered before they are joined, given that their rows may be. */
  lemma JoinedRows(env: Env, pol: Policy, q: PathPattern, s: PathPattern, x: PathPattern, y: PathPattern,
                   shared: set<string>, pa: seq<Expr>, pb: seq<Expr>)
    requires FreeVars(q) * FreeVars(s) == shared == FreeVars(x) * FreeVars(y)
    requires Rows(env, pol, q) == FilterSeq(Rows(env, pol, x), AllTest(env, pa))
    requires Rows(env, pol, s) == FilterSeq(Rows(env, pol, y), AllTest(env, pb))
    requires PairAll(FilterSeq(Rows(env, pol, x), AllTest(env, pa)), FilterSeq(Rows(env, pol, y), AllTest(env, pb)),
                     JoinTest(env, shared), JoinMerge)
          == FilterSeq(PairAll(Rows(env, pol, x), Rows(env, pol, y), JoinTest(env, shared), JoinMerge),
                       AllTest(env, pa + pb))
    ensures Rows(env, pol, Join(q, s)) == FilterSeq(Rows(env, pol, Join(x, y)), AllTest(env, pa + pb))
  {
    RowsOfJoin(env, pol, q, s, shared);
    RowsOfJoin(env, pol, x, y, shared);
  }

  lemma RowsOfJoin(env: Env, pol: Policy, a: PathPattern, b: PathPattern, shared: set<string>)
    requires FreeVars(a) * FreeVars(b) == shared
    ensures Rows(env, pol, Join(a, b))
         == PairAll(Rows(env, pol, a), Rows(env, pol, b), JoinTest(env, shared), JoinMerge)
  {
    var xs, ys := Rows(env, pol, a), Rows(env, pol, b);
    assert Rows(env, pol, Join(a, b)) == PairAll(xs, ys, JoinTest(env, FreeVars(a) * FreeVars(b)), JoinMerge);
  }

  lemma HoistedConcat(env: Env, pol: Policy, a: PathPattern, b: PathPattern, q: PathPattern, s: PathPattern,
                      x: PathPattern, y: PathPattern, pa: seq<Expr>, pb: seq<Expr>)
    requires ConcatScoped(a, b)
    requires Hoisted(env, pol, a, q, x, pa) && Hoisted(env, pol, b, s, y, pb)
    requires forall e :: e in pa ==> e in Collected(a) && Referenced(e) <= Declared(a)
    requires forall e :: e in pb ==> e in Collected(b) && Referenced(e) <= Declared(b)
    ensures Rows(env, pol, Concat(q, s)) == FilterSeq(Rows(env, pol, Concat(x, y)), AllTest(env, pa + pb))
  {
    HostedReads(pa, Collected(a), Declared(a), Declared(b), Sure(a));
    HostedReads(pb, Collected(b), Declared(b), Declared(a), Sure(b));
    ConcatFiltersOnBoth(env, Rows(env, pol, x), Rows(env, pol, y), pa, pb, Sure(a), Declared(a), Sure(b), Declared(b));
  }

  lemma NamingKeepsVerdict(env: Env, v: string, r: Row, es: seq<Expr>)
    requires forall e :: e in es ==> v !in Reads(e)
    ensures AllTest(env, es)(NameRow(v)(r)) == AllTest(env, es)(r)
  {
    HoldsAllLocal(env, NameRow(v)(r).mu, r.mu, es);
  }

  lemma NamingAndFilters(env: Env, v: string, rows: seq<Row>, es: seq<Expr>)
    requires forall e :: e in es ==> v !in Reads(e)
    ensures MapSeq(FilterSeq(rows, AllTest(env, es)), NameRow(v))
         == FilterSeq(MapSeq(rows, NameRow(v)), AllTest(env, es))
  {
    forall r | r in rows ensures AllTest(env, es)(NameRow(v)(r)) == AllTest(env, es)(r) {
      NamingKeepsVerdict(env, v, r, es);
    }
    FilterMap(rows, NameRow(v), AllTest(env, es), AllTest(env, es));
  }

  lemma HoistedNamed(env: Env, v: string, i: PathPattern, rows: seq<Row>, base: seq<Row>, placed: seq<Expr>)
    requires forall e :: e in Collected(i) && Referenced(e) <= Declared(i) ==> v !in Reads(e)
    requires rows == FilterSeq(base, AllTest(env, placed))
    requires forall e :: e in placed ==> e in Collected(i) && Referenced(e) <= Declared(i)
    ensures MapSeq(rows, NameRow(v)) == FilterSeq(MapSeq(base, NameRow(v)), AllTest(env, placed))
  {
    NamingAndFilters(env, v, base, placed);
  }

  /** Splitting the filters that reach a node of `p` between the node and the enclosing pattern. */
  lemma SplitAt(node: PathPattern, pending: seq<Expr>, written: seq<Expr>, decl: set<string>,
                es: seq<Expr>, placed: seq<Expr>)
    requires Declared(node) == decl
    requires forall e :: e in es ==> e in written && Referenced(e) <= decl
    requires forall e :: e in pending ==> e in written
    requires forall e :: e in written ==> e in es || e in pending
    requires forall e :: e in placed ==> e in es || (e in pending && Referenced(e) <= decl)
    requires forall e :: e in es || e in pending ==> e in placed || e in Place(node, pending).1
    ensures Split(written, decl, Place(node, pending).1, placed)
  {
    SplitSound(pending, decl);
  }

  lemma {:induction false} HoistedRows(env: Env, pol: Policy, p: PathPattern) returns (placed: seq<Expr>)
    requires Picks(env) && WellScoped(p)
    ensures Split(Collected(p), Declared(p), HoistPattern(p).1, placed)
    ensures Hoisted(env, pol, p, HoistPattern(p).0, Bare(p), placed)
    decreases p, 1
  {
    OperandFacts(env, pol, p);
    if p.Join? {
      placed := HoistRowsJoin(env, pol, p.fst, p.snd);
    } else if p.Concat? {
      placed := HoistRowsConcat(env, pol, p.fst, p.snd);
    } else if p.Filter? || p.Named? {
      placed := HoistRowsWrap(env, pol, p);
    } else {
      placed := [];
      HoistRowsOpaque(env, pol, p);
    }
  }

  lemma {:induction false} HoistRowsJoin(env: Env, pol: Policy, a: PathPattern, b: PathPattern)
    returns (placed: seq<Expr>)
    requires Picks(env) && WellScoped(Join(a, b))
    ensures Split(Collected(Join(a, b)), Declared(Join(a, b)), HoistPattern(Join(a, b)).1, placed)
    ensures Rows(env, pol, HoistPattern(Join(a, b)).0)
         == FilterSeq(Rows(env, pol, Bare(Join(a, b))), AllTest(env, placed))
    decreases Join(a, b), 0
  {
    var pa := HoistedRows(env, pol, a);
    var pb := HoistedRows(env, pol, b);
    JoinUnfolds(a, b);
    placed := JoinPlaced(env, pol, a, b, HoistPattern(a).0, HoistPattern(b).0, Bare(a), Bare(b), HoistPattern(a).1,
                         HoistPattern(b).1, pa, pb);
    PairDeclares(a, b, a, b);
  }

  lemma JoinPlaced(env: Env, pol: Policy, a: PathPattern, b: PathPattern, q: PathPattern, s: PathPattern,
                   x: PathPattern, y: PathPattern, ra: seq<Expr>, rb: seq<Expr>, pa: seq<Expr>, pb: seq<Expr>)
    returns (placed: seq<Expr>)
    requires Picks(env) && JoinScoped(a, b)
    requires Hoisted(env, pol, a, q, x, pa) && Hoisted(env, pol, b, s, y, pb)
    requires Split(Collected(a), Declared(a), ra, pa) && Split(Collected(b), Declared(b), rb, pb)
    ensures Split(Collected(a) + Collected(b), Declared(a) + Declared(b), Place(Join(q, s), ra + rb).1, placed)
    ensures Rows(env, pol, Place(Join(q, s), ra + rb).0)
         == FilterSeq(Rows(env, pol, Join(x, y)), AllTest(env, placed))
  {
    HoistedJoin(env, pol, a, b, q, s, x, y, pa, pb);
    PairDeclares(a, b, q, s);
    placed := PlacePair(env, pol, Join(a, b), a, b, Join(q, s), ra, rb, pa, pb, Rows(env, pol, Join(x, y)));
  }

  lemma PairDeclares(a: PathPattern, b: PathPattern, q: PathPattern, s: PathPattern)
    requires FreeVars(q) == FreeVars(a) && PathVars(q) == PathVars(a)
    requires FreeVars(s) == FreeVars(b) && PathVars(s) == PathVars(b)
    ensures var p := Join(a, b);
      && Collected(p) == Collected(a) + Collected(b)
      && Declared(p) == Declared(a) + Declared(b) == Declared(Join(q, s))
  {
  }

  lemma JoinUnfolds(a: PathPattern, b: PathPattern)
    ensures var p := Join(a, b);
      && Collected(p) == Collected(a) + Collected(b) && Bare(p) == Join(Bare(a), Bare(b))
      && HoistPattern(p) == Place(Join(HoistPattern(a).0, HoistPattern(b).0), HoistPattern(a).1 + HoistPattern(b).1)
  {
  }

  /** The filters of two operands, placed on the pair or handed up. */
  lemma PlacePair(env: Env, pol: Policy, p: PathPattern, a: PathPattern, b: PathPattern, node: PathPattern,
                  ra: seq<Expr>, rb: seq<Expr>, pa: seq<Expr>, pb: seq<Expr>, base: seq<Row>)
    returns (placed: seq<Expr>)
    requires Collected(p) == Collected(a) + Collected(b) && Declared(p) == Declared(a) + Declared(b) == Declared(node)
    requires Split(Collected(a), Declared(a), ra, pa) && Split(Collected(b), Declared(b), rb, pb)
    requires Rows(env, pol, node) == FilterSeq(base, AllTest(env, pa + pb))
    ensures Split(Collected(p), Declared(p), Place(node, ra + rb).1, placed)
    ensures Rows(env, pol, Place(node, ra + rb).0) == FilterSeq(base, AllTest(env, placed))
  {
    placed := PlaceOnto(env, pol, node, ra + rb, base, pa + pb);
    SplitAt(node, ra + rb, Collected(p), Declared(p), pa + pb, placed);
  }

  lemma {:induction false} HoistRowsConcat(env: Env, pol: Policy, a: PathPattern, b: PathPattern)
    returns (placed: seq<Expr>)
    requires Picks(env) && WellScoped(Concat(a, b))
    ensures Split(Collected(Concat(a, b)), Declared(Concat(a, b)), HoistPattern(Concat(a, b)).1, placed)
    ensures Rows(env, pol, HoistPattern(Concat(a, b)).0)
         == FilterSeq(Rows(env, pol, Bare(Concat(a, b))), AllTest(env, placed))
    decreases Concat(a, b), 0
  {
    var p := Concat(a, b);
    var (q, ra) := HoistPattern(a);
    var (s, rb) := HoistPattern(b);
    var pa := HoistedRows(env, pol, a);
    var pb := HoistedRows(env, pol, b);
    HoistedConcat(env, pol, a, b, q, s, Bare(a), Bare(b), pa, pb);
    placed := PlacePair(env, pol, p, a, b, Concat(q, s), ra, rb, pa, pb, Rows(env, pol, Concat(Bare(a), Bare(b))));
  }

  lemma {:induction false} HoistRowsWrap(env: Env, pol: Policy, p: PathPattern) returns (placed: seq<Expr>)
    requires Picks(env) && WellScoped(p) && (p.Filter? || p.Named?)
    ensures Split(Collected(p), Declared(p), HoistPattern(p).1, placed)
    ensures Rows(env, pol, HoistPattern(p).0) == FilterSeq(Rows(env, pol, Bare(p)), AllTest(env, placed))
    decreases p, 0
  {
    var i := p.inner;
    var (q, rest) := HoistPattern(i);
    var x := Bare(i);
    var inside := HoistedRows(env, pol, i);
    if p.Filter? {
      placed := PlaceOnto(env, pol, q, rest + [p.expr], Rows(env, pol, x), inside);
      SplitAt(q, rest + [p.expr], Collected(p), Declared(p), inside, placed);
    } else {
      HoistedNamed(env, p.name, i, Rows(env, pol, q), Rows(env, pol, x), inside);
      placed := PlaceOnto(env, pol, Named(p.name, q), rest, Rows(env, pol, Named(p.name, x)), inside);
      SplitAt(Named(p.name, q), rest, Collected(p), Declared(p), inside, placed);
    }
  }

  lemma {:induction false} HoistRowsOpaque(env: Env, pol: Policy, p: PathPattern)
    requires Picks(env) && WellScoped(p)
    requires !p.Join? && !p.Concat? && !p.Filter? && !p.Named?
    ensures Rows(env, pol, HoistPattern(p).0) == FilterSeq(Rows(env, pol, Bare(p)), AllTest(env, []))
    decreases p, 0
  {
    FilterNothing(env, Rows(env, pol, Bare(p)));
    match p
    case Union(a, b) =>
      SealedKeepsShape(a); SealedKeepsShape(b);
      DeferredKeepsVars(a); DeferredKeepsVars(b);
      SealedExact(env, pol, a);
      SealedExact(env, pol, b);
    case Repeat(i, _, _) =>
      SealedKeepsShape(i);
      DeferredKeepsVars(i);
      SealedExact(env, pol, i);
    case Questioned(i) => SealedExact(env, pol, i);
    case Selected(prefix, i) => SealedExact(env, PolicyFor(prefix), i);
    case _ =>
  }

  /** Hoisting is exact ISO scoping: row for row, in the same order, the rewritten pattern evaluates
      to the pattern in which every filter of a scope is deferred to that scope's root. */
  lemma {:induction false} SealedExact(env: Env, pol: Policy, p: PathPattern)
    requires Picks(env) && WellScoped(p)
    ensures Rows(env, pol, Sealed(p)) == Rows(env, pol, Deferred(p))
    decreases p, 2
  {
    var placed := HoistedRows(env, pol, p);
    var pending := HoistPattern(p).1;
    RowsFold(env, pol, HoistPattern(p).0, pending);
    RowsFold(env, pol, Bare(p), Collected(p));
    FilterTwice(env, Rows(env, pol, Bare(p)), placed, pending, Collected(p));
  }
}
