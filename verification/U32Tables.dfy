/** The importer's hash tables: a set of external ids that grows in place, the map from external to
    internal ids, and the two passes that number the endpoints of every triple. */
module U32Tables {
  import opened Values
  import opened Probing

  ghost predicate Loaded(hash: Hasher, t: seq<u32>, mask: nat, n: nat) {
    && Capacity(|t|) && mask == |t| - 1
    && Table(hash, t)
    && |Contents(t)| == n && 4 * n <= 3 * |t|
  }

  /** Moving one slot on, by the mask. */
  lemma Advance(i: nat, home: nat, d: nat, gap: nat, cap: nat)
    requires Capacity(cap) && home < cap && gap < cap && d <= Steps(home, gap, cap)
    requires i == Walk(home, d, cap) && i != gap
    ensures d + 1 <= Steps(home, gap, cap) && BitAnd(i + 1, cap - 1) == Walk(home, d + 1, cap)
  {
    NextWalks(home, d, cap);
    MaskCapacity(i + 1, cap);
    assert Wrap(i + 1, cap) == if i + 1 < cap then i + 1 else Wrap(i + 1 - cap, cap);
  }

  lemma Start(hash: Hasher, v: u32, cap: nat)
    requires Capacity(cap)
    ensures BitAnd(hash(v), cap - 1) == Home(hash, v, cap) == Walk(Home(hash, v, cap), 0, cap)
  {
    MaskCapacity(hash(v), cap);
  }

  /** What one more element of a table adds to the ids seen so far. */
  lemma ContentsStep(t: seq<u32>, k: nat)
    requires k < |t| && Distinct(t)
    ensures t[..k + 1] == t[..k] + [t[k]]
    ensures Contents(t[..k + 1]) == Contents(t[..k]) + ({t[k]} - {EMPTY})
    ensures t[k] != EMPTY ==> t[k] !in Contents(t[..k])
    ensures Contents(t[..k]) <= Contents(t) && |Contents(t[..k])| <= |Contents(t)|
  {
    assert t == t[..k] + t[k..];
    DistinctSlots(t);
    SubsetSize(Contents(t[..k]), Contents(t));
  }

  lemma {:induction false} SubsetSize(a: set<u32>, b: set<u32>)
    requires a <= b
    ensures |a| <= |b|
  {
    if a != {} {
      var x :| x in a;
      SubsetSize(a - {x}, b - {x});
    }
  }

  /** One more id in a table that was not full. */
  lemma PlacedLoad(t: seq<u32>, t': seq<u32>, n: nat, v: u32)
    requires |t'| == |t| && |t| % 4 == 0 && v !in Contents(t) && Contents(t') == Contents(t) + {v}
    requires |Contents(t)| == n && 4 * n < 3 * |t|
    ensures |Contents(t')| == n + 1 && 4 * (n + 1) <= 3 * |t'|
  {
  }

  lemma PlacedLoaded(hash: Hasher, t: seq<u32>, t': seq<u32>, mask: nat, n: nat, v: u32)
    requires Loaded(hash, t, mask, n) && 4 * n < 3 * |t| && |t'| == |t| && v !in Contents(t)
    requires Table(hash, t') && Contents(t') == Contents(t) + {v}
    ensures Loaded(hash, t', mask, n + 1)
  {
    PlacedLoad(t, t', n, v);
  }

  /** The probe loop of `insert` and of `get`: the slot that holds the id, or else the empty slot
      that proves its absence and is where it would go. */
  method Probe(hash: Hasher, slots: seq<u32>, mask: nat, v: u32) returns (i: nat)
    requires Capacity(|slots|) && mask == |slots| - 1
    requires Table(hash, slots) && |Contents(slots)| < |slots|
    ensures i < |slots| && (slots[i] == v || slots[i] == EMPTY)
    ensures v != EMPTY ==> (slots[i] == v <==> v in Contents(slots))
    ensures slots[i] != v ==> Table(hash, slots[i := v]) && Contents(slots[i := v]) == Contents(slots) + {v}
  {
    ghost var cap, home := |slots|, Home(hash, v, |slots|);
    ghost var d := 0;
    EmptySlotExists(hash, slots);
    ghost var gap :| 0 <= gap < cap && slots[gap] == EMPTY;
    Start(hash, v, cap);
    i := BitAnd(hash(v), mask);
    while true
      invariant d <= Steps(home, gap, cap) && i == Walk(home, d, cap) && Probed(hash, slots, v, d)
      decreases cap - d
    {
      var cur := slots[i];
      if cur == v {
        assert v != EMPTY ==> v in Contents(slots);
        return;
      }
      if cur == EMPTY {
        ProbeMiss(hash, slots, v, d);
        PlaceKeepsTable(hash, slots, v, d);
        return;
      }
      Advance(i, home, d, gap, cap);
      i := BitAnd(i + 1, mask);
      d := d + 1;
    }
  }

  /** The probe loop of `grow` and of `from_sorted`: the first empty slot on a new id's way. */
  method FreeSlot(hash: Hasher, slots: seq<u32>, mask: nat, v: u32) returns (i: nat)
    requires Capacity(|slots|) && mask == |slots| - 1
    requires Table(hash, slots) && |Contents(slots)| < |slots|
    requires v != EMPTY && v !in Contents(slots)
    ensures i < |slots| && slots[i] == EMPTY
    ensures Table(hash, slots[i := v]) && Contents(slots[i := v]) == Contents(slots) + {v}
  {
    ghost var cap, home := |slots|, Home(hash, v, |slots|);
    ghost var d := 0;
    EmptySlotExists(hash, slots);
    ghost var gap :| 0 <= gap < cap && slots[gap] == EMPTY;
    Start(hash, v, cap);
    i := BitAnd(hash(v), mask);
    while slots[i] != EMPTY
      invariant d <= Steps(home, gap, cap) && i == Walk(home, d, cap) && Probed(hash, slots, v, d)
      decreases cap - d
    {
      assert slots[i] in Contents(slots);
      Advance(i, home, d, gap, cap);
      i := BitAnd(i + 1, mask);
      d := d + 1;
    }
    PlaceKeepsTable(hash, slots, v, d);
  }

  function EmptySlots(cap: nat): (t: seq<u32>)
    ensures |t| == cap && forall i :: 0 <= i < cap ==> t[i] == EMPTY
  {
    seq(cap, _ => EMPTY)
  }

  class U32Set {
    const hash: Hasher
    var slots: seq<u32>
    var mask: nat
    var len: nat

    ghost predicate Valid()
      reads this
    {
      Loaded(hash, slots, mask, len)
    }

    ghost function Ids(): set<u32>
      reads this
    {
      Contents(slots)
    }

    constructor (hash: Hasher)
      ensures Valid() && Ids() == {} && this.hash == hash
    {
      this.hash := hash;
      slots := EmptySlots(65536);
      mask := 65535;
      len := 0;
      InitialCapacity();
      AllEmpty(hash, EmptySlots(65536));
    }

    /** Adds one id; the sentinel is silently refused, and a duplicate changes nothing. */
    method Insert(v: u32)
      requires Valid()
      modifies this
      ensures Valid() && Ids() == old(Ids()) + ({v} - {EMPTY})
    {
      if len * 4 >= |slots| * 3 {
        Grow();
      }
      PutProbed(v);
    }

    /** The second half of `insert`: probe, then write unless the id is there already. */
    method PutProbed(v: u32)
      requires Valid() && 4 * len < 3 * |slots|
      modifies this
      ensures Valid() && Ids() == old(Ids()) + ({v} - {EMPTY})
    {
      var i := Probe(hash, slots, mask, v);
      if slots[i] == v {
        return;
      }
      PlacedLoaded(hash, slots, slots[i := v], mask, len, v);
      slots := slots[i := v];
      len := len + 1;
    }

    /** Doubles the table and re-inserts every id: same ids, same count. */
    method Grow()
      requires Valid()
      modifies this
      ensures Valid() && Ids() == old(Ids()) && len == old(len)
      ensures |slots| == 2 * old(|slots|)
    {
      var prev := slots;
      slots := EmptySlots(|slots| * 2);
      mask := |slots| - 1;
      DoubledCapacity(|prev|);
      AllEmpty(hash, slots);
      for k := 0 to |prev|
        invariant |slots| == 2 * |prev| && mask == |slots| - 1 && len == old(len)
        invariant Table(hash, slots) && Contents(slots) == Contents(prev[..k])
      {
        var v := prev[k];
        ContentsStep(prev, k);
        if v == EMPTY {
          continue;
        }
        var i := FreeSlot(hash, slots, mask, v);
        slots := slots[i := v];
      }
      assert prev[..|prev|] == prev;
    }

    /** The members in ascending order, each once. */
    method IntoSortedVec() returns (out: seq<u32>)
      requires Valid()
      ensures Ascending(out) && Members(out) == Ids() && |out| == len
    {
      out := [];
      for k := 0 to |slots|
        invariant Members(out) == Contents(slots[..k])
        invariant forall i, j :: 0 <= i < j < |out| ==> out[i] != out[j]
      {
        ContentsStep(slots, k);
        if slots[k] != EMPTY {
          assert slots[k] !in Members(out);
          out := out + [slots[k]];
        }
      }
      assert slots[..|slots|] == slots;
      DistinctSize(out);
      SortedAscending(out);
      ghost var before := out;
      out := Sorted(out);
      assert Members(out) == Members(before);
    }
  }

  class U32Map {
    const hash: Hasher
    const keys: seq<u32>
    const vals: seq<u32>
    const mask: nat
    ghost const sorted: seq<u32>

    ghost predicate Valid() {
      && Loaded(hash, keys, mask, |sorted|)
      && Ascending(sorted) && EMPTY !in sorted && Contents(keys) == Members(sorted)
      && Numbered(keys, vals, sorted)
    }

    /** Builds a table at most three quarters full that numbers the ids by their positions. */
    constructor FromSorted(hash: Hasher, sorted: seq<u32>)
      requires Ascending(sorted) && EMPTY !in sorted
      ensures Valid() && this.sorted == sorted && this.hash == hash
    {
      var cap := 65536;
      InitialCapacity();
      while cap * 3 < |sorted| * 4
        invariant Capacity(cap)
        decreases |sorted| * 4 - cap * 3
      {
        DoubledCapacity(cap);
        cap := cap * 2;
      }
      var keys: seq<u32>, vals: seq<u32> := EmptySlots(cap), seq(cap, _ => 0);
      var mask := cap - 1;
      AllEmpty(hash, keys);
      assert sorted[..0] == [];
      for internal := 0 to |sorted|
        invariant |keys| == |vals| == cap
        invariant Table(hash, keys) && Contents(keys) == Members(sorted[..internal])
        invariant Numbered(keys, vals, sorted[..internal])
      {
        var external := sorted[internal];
        DistinctSize(sorted[..internal]);
        MembersStep(sorted, internal);
        AscendingIndex(sorted, internal);
        var i := FreeSlot(hash, keys, mask, external);
        NumberedStep(keys, vals, sorted, internal, i);
        keys := keys[i := external];
        vals := vals[i := internal];
      }
      assert sorted[..|sorted|] == sorted;
      DistinctSize(sorted);
      this.hash := hash;
      this.keys := keys;
      this.vals := vals;
      this.mask := mask;
      this.sorted := sorted;
    }

    /** Inverts the list: an id is found exactly when it occurs, with its position.  The sentinel is
        answered with the value of an empty slot. */
    method Get(k: u32) returns (r: Option<u32>)
      requires Valid()
      ensures k != EMPTY ==> (r.Some? <==> k in sorted)
      ensures k != EMPTY && r.Some? ==> r.value < |sorted| && sorted[r.value] == k
      ensures k == EMPTY ==> r == Some(0)
    {
      var i := Probe(hash, keys, mask, k);
      assert k in sorted <==> k in Members(sorted);
      if keys[i] == k { return Some(vals[i]); } else { return None; }
    }
  }

  /** Every stored key carries its position in the list; an empty slot carries 0. */
  predicate Numbered(keys: seq<u32>, vals: seq<u32>, sorted: seq<u32>) {
    && |vals| == |keys|
    && forall j :: 0 <= j < |keys| ==>
         if keys[j] == EMPTY then vals[j] == 0 else vals[j] < |sorted| && sorted[vals[j]] == keys[j]
  }

  lemma NumberedStep(t: seq<u32>, u: seq<u32>, sorted: seq<u32>, n: nat, i: nat)
    requires n < |sorted| && n < 0x1_0000_0000 && sorted[n] != EMPTY && Numbered(t, u, sorted[..n]) && i < |t|
    ensures Numbered(t[i := sorted[n]], u[i := n as u32], sorted[..n + 1])
  {
  }

  lemma MembersStep(sorted: seq<u32>, n: nat)
    requires Ascending(sorted) && n < |sorted| && EMPTY !in sorted
    ensures Members(sorted[..n + 1]) == Members(sorted[..n]) + {sorted[n]}
    ensures sorted[n] !in Members(sorted[..n]) && sorted[n] != EMPTY
  {
    assert sorted[..n + 1] == sorted[..n] + [sorted[n]];
    assert sorted[n] in sorted;
  }

  // ---------------------------------------------------------------- the two passes

  type Triple = (u32, u32)

  predicate Collides(t: Triple) {
    t.0 == EMPTY || t.1 == EMPTY
  }

  function Endpoints(ts: seq<Triple>): set<u32> {
    (set t | t in ts :: t.0) + (set t | t in ts :: t.1)
  }

  /** The endpoints of a triple, as positions in the list of ids. */
  predicate Renumbered(ids: seq<u32>, ts: seq<Triple>, src: seq<u32>, tgt: seq<u32>) {
    && |src| == |tgt| == |ts|
    && forall i :: 0 <= i < |ts| ==>
        src[i] < |ids| && ids[src[i]] == ts[i].0 && tgt[i] < |ids| && ids[tgt[i]] == ts[i].1
  }

  method InsertBoth(nodes: U32Set, a: u32, b: u32)
    requires nodes.Valid() && a != EMPTY && b != EMPTY
    modifies nodes
    ensures nodes.Valid() && nodes.Ids() == old(nodes.Ids()) + {a, b}
  {
    nodes.Insert(a);
    nodes.Insert(b);
  }

  /** Extra nodes: the subjects of another file, a sentinel among them passed over. */
  function Extra(subjects: seq<u32>): set<u32> {
    set s | s in subjects && s != EMPTY
  }

  lemma ExtraStep(subjects: seq<u32>, i: nat)
    requires i < |subjects|
    ensures Extra(subjects[..i + 1]) == Extra(subjects[..i]) + (if subjects[i] == EMPTY then {} else {subjects[i]})
  {
    assert subjects[..i + 1] == subjects[..i] + [subjects[i]];
  }

  method InsertExtra(nodes: U32Set, s: u32)
    requires nodes.Valid()
    modifies nodes
    ensures nodes.Valid() && nodes.Ids() == old(nodes.Ids()) + (if s == EMPTY then {} else {s})
  {
    if s != EMPTY {
      nodes.Insert(s);
    }
  }

  /** `scan_subjects` */
  method ScanSubjects(nodes: U32Set, subjects: seq<u32>)
    requires nodes.Valid()
    modifies nodes
    ensures nodes.Valid() && nodes.Ids() == old(nodes.Ids()) + Extra(subjects)
  {
    ghost var before := nodes.Ids();
    for i := 0 to |subjects|
      invariant nodes.Valid() && nodes.Ids() == before + Extra(subjects[..i])
    {
      InsertExtra(nodes, subjects[i]);
      ExtraStep(subjects, i);
    }
    assert subjects[..|subjects|] == subjects;
  }

  /** Pass 1: the ascending list of all endpoints and extra nodes.  A sentinel id in a triple aborts
      the import. */
  method CollectEndpoints(hash: Hasher, ts: seq<Triple>, subjects: seq<u32>) returns (ids: Option<seq<u32>>)
    ensures ids.None? <==> exists t :: t in ts && Collides(t)
    ensures ids.Some? ==>
        Ascending(ids.value) && Members(ids.value) == Endpoints(ts) + Extra(subjects) && EMPTY !in ids.value
  {
    var nodes := new U32Set(hash);
    for i := 0 to |ts|
      invariant fresh(nodes) && nodes.Valid()
      invariant nodes.Ids() == Endpoints(ts[..i]) && EMPTY !in Endpoints(ts[..i])
      invariant forall j :: 0 <= j < i ==> !Collides(ts[j])
    {
      if ts[i].0 == EMPTY || ts[i].1 == EMPTY {
        assert ts[i] in ts && Collides(ts[i]);
        return None;
      }
      InsertBoth(nodes, ts[i].0, ts[i].1);
      EndpointsStep(ts, i);
    }
    assert ts[..|ts|] == ts;
    ScanSubjects(nodes, subjects);
    var externals := nodes.IntoSortedVec();
    assert EMPTY !in Members(externals);
    ids := Some(externals);
  }

  /** Pass 2: no lookup fails. */
  method LookUpEndpoints(index: U32Map, ts: seq<Triple>) returns (src: seq<u32>, tgt: seq<u32>)
    requires index.Valid() && Endpoints(ts) <= Members(index.sorted)
    ensures Renumbered(index.sorted, ts, src, tgt)
  {
    src, tgt := [], [];
    for i := 0 to |ts|
      invariant index.Valid()
      invariant Renumbered(index.sorted, ts[..i], src, tgt)
    {
      EndpointOf(ts, i, index.sorted);
      var s := index.Get(ts[i].0);
      var t := index.Get(ts[i].1);
      RenumberedStep(index.sorted, ts, i, src, tgt, s.value, t.value);
      src, tgt := src + [s.value], tgt + [t.value];
    }
    assert ts[..|ts|] == ts;
  }

  lemma EndpointOf(ts: seq<Triple>, i: nat, ids: seq<u32>)
    requires i < |ts| && Endpoints(ts) <= Members(ids)
    ensures ts[i].0 in ids && ts[i].1 in ids
  {
    assert ts[i] in ts && ts[i].0 in Endpoints(ts) && ts[i].1 in Endpoints(ts);
  }

  /** The numbering of an import: positions in the ascending list of all nodes. */
  method NumberEndpoints(hash: Hasher, ts: seq<Triple>, subjects: seq<u32>)
    returns (ids: Option<seq<u32>>, src: seq<u32>, tgt: seq<u32>)
    ensures ids.None? <==> exists t :: t in ts && Collides(t)
    ensures ids.Some? ==> Ascending(ids.value) && Members(ids.value) == Endpoints(ts) + Extra(subjects)
    ensures ids.Some? ==> Renumbered(ids.value, ts, src, tgt)
  {
    src, tgt := [], [];
    ids := CollectEndpoints(hash, ts, subjects);
    if ids.Some? {
      var index := new U32Map.FromSorted(hash, ids.value);
      src, tgt := LookUpEndpoints(index, ts);
    }
  }

  lemma RenumberedStep(ids: seq<u32>, ts: seq<Triple>, i: nat, src: seq<u32>, tgt: seq<u32>, s: u32, t: u32)
    requires i < |ts| && Renumbered(ids, ts[..i], src, tgt)
    requires s < |ids| && ids[s] == ts[i].0 && t < |ids| && ids[t] == ts[i].1
    ensures Renumbered(ids, ts[..i + 1], src + [s], tgt + [t])
  {
    var all := ts[..i + 1];
    assert all[i] == ts[i];
    assert forall j :: 0 <= j < i ==> all[j] == ts[..i][j];
  }

  lemma EndpointsStep(ts: seq<Triple>, i: nat)
    requires i < |ts|
    ensures Endpoints(ts[..i + 1]) == Endpoints(ts[..i]) + {ts[i].0, ts[i].1}
  {
    assert ts[..i + 1] == ts[..i] + [ts[i]];
    forall x | x in Endpoints(ts[..i]) + {ts[i].0, ts[i].1} ensures x in Endpoints(ts[..i + 1]) {
      if x in Endpoints(ts[..i]) {
        var t :| t in ts[..i] && x in {t.0, t.1};
        assert t in ts[..i + 1];
      } else {
        assert ts[i] in ts[..i + 1];
      }
    }
  }
}
