/** Pushing one type test into one descriptor: `PropertyType::extend` overwrites what the descriptor
    said about the attribute, so it adds the test only under a condition. */
module TypePush {
  import opened Values
  import opened StoredTypes

  ghost predicate StoredProps(props: Props, nulls: bool) {
    forall a :: a in props ==> Stored(props[a], nulls)
  }

  /** Do the extended descriptor and the filter select the same record? */
  predicate ExtendAgrees(props: Props, pt: PropertyType, attr: string, t: SimpleType) {
    PropsMatch(props, Extend(pt, attr, t)) <==> PropsMatch(props, pt) && ValueIsType(PropOrNull(props, attr), t)
  }

  /** Extending the record with `attr: t` means adding the test `attr IS t`: the descriptor already
      restricts `attr`, at least as far; or it leaves it open and `t` rejects a missing one; or it
      rules the attribute out and nothing could have passed. */
  predicate ExtendSound(pt: PropertyType, attr: string, t: SimpleType, nulls: bool) {
    if pt.Bottom? then true
    else if attr in pt.fields then Faithful(t, nulls) && Covers(pt.fields[attr], t)
    else if pt.Open? then !AdmitsNull(t) && Faithful(t, nulls)
    else !nulls && !AdmitsNull(t) && !Passable(t)
  }

  /** Some stored record matches. */
  predicate Inhabited(pt: PropertyType, nulls: bool) {
    !pt.Bottom? && !nulls ==> forall a :: a in pt.fields ==> Passable(pt.fields[a])
  }

  // ---------------------------------------------------------------- where it is sound

  /** Fields other than `attr` are asked the same thing before and after. */
  lemma OtherFields(m: map<string, SimpleType>, attr: string, t: SimpleType)
    ensures var m' := m[attr := t];
      m'[attr] == t && m'.Keys == m.Keys + {attr} && forall a :: a in m && a != attr ==> m'[a] == m[a]
  {
  }

  lemma NarrowedAgrees(props: Props, pt: PropertyType, attr: string, t: SimpleType, nulls: bool)
    requires StoredProps(props, nulls) && !pt.Bottom? && attr in pt.fields
    requires Faithful(t, nulls) && Covers(pt.fields[attr], t)
    ensures ExtendAgrees(props, pt, attr, t)
  {
    OtherFields(pt.fields, attr, t);
    if attr in props {
      FaithfulAgrees(props[attr], t, nulls);
      if Passes(props[attr], t) {
        CoversPasses(props[attr], pt.fields[attr], t, nulls);
      }
    }
  }

  lemma OpenedAgrees(props: Props, pt: PropertyType, attr: string, t: SimpleType, nulls: bool)
    requires StoredProps(props, nulls) && pt.Open? && attr !in pt.fields && !AdmitsNull(t) && Faithful(t, nulls)
    ensures ExtendAgrees(props, pt, attr, t)
  {
    OtherFields(pt.fields, attr, t);
    if attr in props {
      FaithfulAgrees(props[attr], t, nulls);
    }
  }

  lemma ClosedAgrees(props: Props, pt: PropertyType, attr: string, t: SimpleType)
    requires StoredProps(props, false) && pt.Closed? && attr !in pt.fields && !AdmitsNull(t) && !Passable(t)
    ensures ExtendAgrees(props, pt, attr, t)
  {
    OtherFields(pt.fields, attr, t);
    if attr in props && Passes(props[attr], t) {
      assert Stored(props[attr], false);
      PassesPassable(props[attr], t, false);
    }
  }

  lemma ExtendSoundAgrees(props: Props, pt: PropertyType, attr: string, t: SimpleType, nulls: bool)
    requires StoredProps(props, nulls) && ExtendSound(pt, attr, t, nulls)
    ensures ExtendAgrees(props, pt, attr, t)
  {
    if !pt.Bottom? {
      if attr in pt.fields {
        NarrowedAgrees(props, pt, attr, t, nulls);
      } else if pt.Open? {
        OpenedAgrees(props, pt, attr, t, nulls);
      } else {
        ClosedAgrees(props, pt, attr, t);
      }
    }
  }

  // ---------------------------------------------------------------- where it is not

  function FieldSample(t: SimpleType): Value {
    if Passable(t) then PassSample(t) else Null
  }

  lemma FieldSamplePasses(t: SimpleType, nulls: bool)
    requires nulls || Passable(t)
    ensures Stored(FieldSample(t), nulls) && Passes(FieldSample(t), t)
  {
    if Passable(t) {
      PassSamplePasses(t);
    }
  }

  /** A record that fits a record type exactly. */
  function Witness(m: map<string, SimpleType>): Props {
    map a | a in m :: FieldSample(m[a])
  }

  lemma WitnessMatches(pt: PropertyType, nulls: bool)
    requires !pt.Bottom? && Inhabited(pt, nulls)
    ensures StoredProps(Witness(pt.fields), nulls) && PropsMatch(Witness(pt.fields), pt)
    ensures Witness(pt.fields).Keys == pt.fields.Keys
  {
    forall a | a in pt.fields
      ensures Stored(FieldSample(pt.fields[a]), nulls) && Passes(FieldSample(pt.fields[a]), pt.fields[a])
    {
      FieldSamplePasses(pt.fields[a], nulls);
    }
  }

  /** Each field of `m` but `attr` admits what `props` holds there. */
  ghost predicate FitsBut(props: Props, m: map<string, SimpleType>, attr: string) {
    forall a :: a in m && a != attr ==> a in props && Passes(props[a], m[a])
  }

  lemma FitsOne(props: Props, pt: PropertyType, attr: string)
    requires !pt.Bottom? && attr in pt.fields && attr in props && FitsBut(props, pt.fields, attr)
    requires props.Keys == pt.fields.Keys
    ensures PropsMatch(props, pt) <==> Passes(props[attr], pt.fields[attr])
  {
  }

  /** The record of the witness with one attribute set, and what it is asked. */
  lemma WitnessWith(pt: PropertyType, attr: string, t: SimpleType, v: Value, nulls: bool) returns (props: Props)
    requires !pt.Bottom? && Inhabited(pt, nulls) && Stored(v, nulls)
    ensures StoredProps(props, nulls) && attr in props && props[attr] == v
    ensures PropsMatch(props, Extend(pt, attr, t)) <==> Passes(v, t)
    ensures PropsMatch(props, pt) <==> if attr in pt.fields then Passes(v, pt.fields[attr]) else pt.Open?
  {
    WitnessMatches(pt, nulls);
    OtherFields(pt.fields, attr, t);
    props := Witness(pt.fields)[attr := v];
    assert FitsBut(props, pt.fields, attr) && FitsBut(props, Extend(pt, attr, t).fields, attr);
    FitsOne(props, Extend(pt, attr, t), attr);
    if attr in pt.fields {
      FitsOne(props, pt, attr);
    } else {
      WithExtra(props, pt, attr);
    }
  }

  lemma WithExtra(props: Props, pt: PropertyType, attr: string)
    requires !pt.Bottom? && attr !in pt.fields && attr in props && FitsBut(props, pt.fields, attr)
    ensures PropsMatch(props, pt) ==> pt.Open?
    ensures pt.Open? ==> PropsMatch(props, pt)
  {
  }

  /** The type the descriptor reads the attribute at admits a value that the overwritten entry, or the
      filter, rejects. */
  lemma WidenedField(pt: PropertyType, attr: string, t: SimpleType, nulls: bool) returns (props: Props)
    requires !pt.Bottom? && Inhabited(pt, nulls) && attr in pt.fields
    requires !(Faithful(t, nulls) && Covers(pt.fields[attr], t))
    ensures StoredProps(props, nulls) && !ExtendAgrees(props, pt, attr, t)
  {
    var v;
    if Faithful(t, nulls) {
      v := UncoveredValue(pt.fields[attr], t);
      StoredWithoutNulls(v, nulls);
    } else {
      v := UnfaithfulValue(t, nulls);
    }
    props := WitnessWith(pt, attr, t, v, nulls);
  }

  /** A record without the attribute passes `IS t` where `t` admits null, but not the descriptor. */
  lemma AbsentField(pt: PropertyType, attr: string, t: SimpleType, nulls: bool) returns (props: Props)
    requires !pt.Bottom? && Inhabited(pt, nulls) && attr !in pt.fields && AdmitsNull(t)
    ensures StoredProps(props, nulls) && attr !in props && !ExtendAgrees(props, pt, attr, t)
  {
    WitnessMatches(pt, nulls);
    props := Witness(pt.fields);
    assert attr in pt.fields[attr := t];
  }

  /** A descriptor passes a stored null whatever the type; the filter does not. */
  lemma StoredNullPasses(pt: PropertyType, attr: string, t: SimpleType) returns (props: Props)
    requires !pt.Bottom? && !AdmitsNull(t)
    ensures StoredProps(props, true) && attr in props && props[attr] == Null && !ExtendAgrees(props, pt, attr, t)
  {
    props := WitnessWith(pt, attr, t, Null, true);
  }

  /** One element of a fitting type lets a list of mixed elements pass the descriptor. */
  lemma MixedListPasses(pt: PropertyType, attr: string, t: SimpleType) returns (props: Props)
    requires pt.Open? && Inhabited(pt, false) && attr !in pt.fields && HasList(t) && !TotalList(t, false)
      && Passable(ElemType(t))
    ensures StoredProps(props, false) && attr in props && props[attr].List? && !ExtendAgrees(props, pt, attr, t)
  {
    var items := RejectList(t, false);
    var u := PassSample(ElemType(t));
    PassSamplePasses(ElemType(t));
    var all := items + [u];
    assert all[|items|] == u && forall i :: 0 <= i < |items| ==> all[i] == items[i];
    ListPasses(all, t);
    assert Stored(List(items), false) && Stored(List(all), false);
    props := WitnessWith(pt, attr, t, List(all), false);
  }

  lemma AddedField(pt: PropertyType, attr: string, t: SimpleType, nulls: bool) returns (props: Props)
    requires pt.Closed? && Inhabited(pt, nulls) && attr !in pt.fields && (nulls || Passable(t))
    ensures StoredProps(props, nulls) && !ExtendAgrees(props, pt, attr, t)
  {
    FieldSamplePasses(t, nulls);
    props := WitnessWith(pt, attr, t, FieldSample(t), nulls);
  }

  /** A stored record on which an unsound extension shows. */
  lemma ExtendUnsoundDiffers(pt: PropertyType, attr: string, t: SimpleType, nulls: bool) returns (props: Props)
    requires Inhabited(pt, nulls) && !ExtendSound(pt, attr, t, nulls)
    ensures StoredProps(props, nulls) && !ExtendAgrees(props, pt, attr, t)
  {
    if attr in pt.fields {
      props := WidenedField(pt, attr, t, nulls);
    } else if AdmitsNull(t) {
      props := AbsentField(pt, attr, t, nulls);
    } else if pt.Open? {
      var v := UnfaithfulValue(t, nulls);
      props := WitnessWith(pt, attr, t, v, nulls);
    } else {
      props := AddedField(pt, attr, t, nulls);
    }
  }

  /** Pushing `x.attr IS t` into one descriptor is exact over all stored records, with or without
      nulls among them, if and only if the extension is sound. */
  lemma TypePushExactWhen(pt: PropertyType, attr: string, t: SimpleType, nulls: bool)
    requires Inhabited(pt, nulls)
    ensures (forall props :: StoredProps(props, nulls) ==> ExtendAgrees(props, pt, attr, t)) <==>
        ExtendSound(pt, attr, t, nulls)
  {
    if ExtendSound(pt, attr, t, nulls) {
      forall props | StoredProps(props, nulls) ensures ExtendAgrees(props, pt, attr, t) {
        ExtendSoundAgrees(props, pt, attr, t, nulls);
      }
    } else {
      var props := ExtendUnsoundDiffers(pt, attr, t, nulls);
    }
  }

  /** Where nulls are stored, no type test goes into a descriptor that does not mention the attribute. */
  lemma NeverExactWithNulls(pt: PropertyType, attr: string, t: SimpleType)
    requires !pt.Bottom? && attr !in pt.fields
    ensures !ExtendSound(pt, attr, t, true)
    ensures exists props :: StoredProps(props, true) && !ExtendAgrees(props, pt, attr, t)
  {
    TypePushExactWhen(pt, attr, t, true);
  }

  /** A mixed list, `[1, "a"]`, passes `a: [int]` and fails `a IS [int]`. */
  lemma MixedListReadings(attr: string)
    ensures !ExtendAgrees(map[attr := List([Int(1), Str("a")])], Open(map[]), attr, ListType(IntType))
  {
    var items := [Int(1), Str("a")];
    ListPasses(items, ListType(IntType));
    assert Passes(items[0], IntType) && !ValueIsType(items[1], IntType);
    assert !ValueIsType(List(items), ListType(IntType));
  }
}
