/** Generated variable names: `FreshVars` of the lowering pass. */
module FreshNames {
  import opened Decimal

  function Prefix(): string { "_gqlite_elab_" }

  function NameAt(i: nat): string {
    Prefix() + Digits(i)
  }

  lemma NameInjective(i: nat, j: nat)
    requires NameAt(i) == NameAt(j)
    ensures i == j
  {
    assert NameAt(i)[|Prefix()|..] == Digits(i) && NameAt(j)[|Prefix()|..] == Digits(j);
    DigitsInjective(i, j);
  }

  /** The index of the next name that is not taken; each name skipped is taken only once. */
  function NextIndex(n: nat, taken: set<string>): nat
    decreases |taken|
  {
    if NameAt(n) !in taken then n else NextIndex(n + 1, taken - {NameAt(n)})
  }

  /** The generator always finds a free name, and the first one. */
  lemma {:induction false} NextIsFirstFree(n: nat, taken: set<string>)
    ensures var i := NextIndex(n, taken);
      n <= i && NameAt(i) !in taken && forall j :: n <= j < i ==> NameAt(j) in taken
    decreases |taken|
  {
    if NameAt(n) in taken {
      NextIsFirstFree(n + 1, taken - {NameAt(n)});
      var i := NextIndex(n + 1, taken - {NameAt(n)});
      if NameAt(i) == NameAt(n) {
        NameInjective(i, n);
      }
    }
  }

  /** Skipping a taken name does not change which name comes next. */
  lemma {:induction false} NextSkips(n: nat, taken: set<string>)
    requires NameAt(n) in taken
    ensures NextIndex(n, taken) == NextIndex(n + 1, taken)
  {
    NextIsFirstFree(n, taken);
    NextIsFirstFree(n + 1, taken);
    var i, j := NextIndex(n, taken), NextIndex(n + 1, taken);
    assert NameAt(i) !in taken && NameAt(j) !in taken;
    assert !(n + 1 <= i < j) && !(n <= j < i);
  }

  /** The first `k` names handed out from counter `n` on. */
  function Run(k: nat, n: nat, taken: set<string>): (names: seq<string>)
    ensures |names| == k
    decreases k
  {
    if k == 0 then [] else [NameAt(NextIndex(n, taken))] + Run(k - 1, NextIndex(n, taken) + 1, taken)
  }

  /** However long a generator runs, its names are pairwise distinct and none is taken. */
  lemma {:induction false} RunIsFresh(k: nat, n: nat, taken: set<string>)
    ensures forall i :: 0 <= i < k ==> Run(k, n, taken)[i] !in taken
    ensures forall i :: 0 <= i < k ==> exists m :: n <= m && Run(k, n, taken)[i] == NameAt(m)
    ensures forall i, j :: 0 <= i < j < k ==> Run(k, n, taken)[i] != Run(k, n, taken)[j]
    decreases k
  {
    if k > 0 {
      var m := NextIndex(n, taken);
      NextIsFirstFree(n, taken);
      RunIsFresh(k - 1, m + 1, taken);
      var rest := Run(k - 1, m + 1, taken);
      forall j | 0 <= j < k - 1 ensures rest[j] != NameAt(m) {
        var i :| m + 1 <= i && rest[j] == NameAt(i);
        if NameAt(i) == NameAt(m) { NameInjective(i, m); }
      }
    }
  }

  /** The names a run from counter `lo` to counter `hi` may have produced. */
  function Range(lo: nat, hi: nat, taken: set<string>): set<string> {
    set i | lo <= i < hi && NameAt(i) !in taken :: NameAt(i)
  }

  lemma RangesDisjoint(lo: nat, mid: nat, hi: nat, taken: set<string>)
    requires lo <= mid <= hi
    ensures Range(lo, mid, taken) * Range(mid, hi, taken) == {}
    ensures Range(lo, hi, taken) == Range(lo, mid, taken) + Range(mid, hi, taken)
  {
    forall x | x in Range(lo, mid, taken) && x in Range(mid, hi, taken) ensures false {
      var i :| lo <= i < mid && NameAt(i) !in taken && x == NameAt(i);
      var j :| mid <= j < hi && NameAt(j) !in taken && x == NameAt(j);
      NameInjective(i, j);
    }
  }

  class FreshVars {
    var counter: nat
    const taken: set<string>

    constructor (taken: set<string>)
      ensures counter == 0 && this.taken == taken
    {
      counter := 0;
      this.taken := taken;
    }

    /** Hands out the first free name at or after the counter, and moves past it. */
    method Next() returns (name: string)
      modifies this`counter
      ensures name == NameAt(NextIndex(old(counter), taken)) && name !in taken
      ensures counter == NextIndex(old(counter), taken) + 1
    {
      ghost var unseen := taken;
      ghost var start := counter;
      NextIsFirstFree(counter, taken);
      while true
        invariant start <= counter && NextIndex(counter, taken) == NextIndex(start, taken)
        invariant unseen <= taken
        invariant forall x :: x in taken && x !in unseen ==> exists j :: start <= j < counter && x == NameAt(j)
        decreases |unseen|
      {
        var i := counter;
        counter := counter + 1;
        name := NameAt(i);
        if name !in taken {
          return;
        }
        if name !in unseen {
          var j :| start <= j < i && name == NameAt(j);
          NameInjective(i, j);
        }
        NextSkips(i, taken);
        unseen := unseen - {name};
      }
    }
  }
}
