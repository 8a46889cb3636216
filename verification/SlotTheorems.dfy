/** Generator and validator agree, and the projection is canonical. */
module SlotTheorems {
  import opened Wrappers
  import opened Text
  import Sorting
  import Utf8
  import opened Slots

  /******* What has been read *******/

  predicate StableSlot(s: Slot) {
    Stable(s.componentType) && Stable(s.principal) && Stable(s.nodeId)
  }

  predicate StableAuthority(a: Authority) {
    Stable(a.verificationMethod) && Stable(a.expectedDigest) && IsLowerSha256(a.expectedDigest)
  }

  /** Principals are claimed once each, and every slot has its authority. */
  ghost predicate StateInv(st: State) {
    && (forall i | 0 <= i < |st.slots| :: StableSlot(st.slots[i]) && st.slots[i].principal in st.owners)
    && (forall i, j | 0 <= i < j < |st.slots| :: st.slots[i].principal != st.slots[j].principal)
    && st.authorities.Keys == SetOf(st.slots)
    && (forall s | s in st.authorities :: StableAuthority(st.authorities[s]))
    && (forall s | s in st.chosen :: s in st.slots)
  }

  lemma {:induction false} ClaimExactly(owners: set<string>, identities: seq<string>)
    ensures Claim(owners, identities).Ok?
       <==> Distinct(identities) && forall i | 0 <= i < |identities| :: identities[i] !in owners
    ensures Claim(owners, identities).Ok? ==> Claim(owners, identities).value == owners + SetOf(identities)
    decreases identities
  {
    if identities != [] {
      ClaimExactly(owners + {identities[0]}, identities[1..]);
      assert identities == [identities[0]] + identities[1..];
      if Claim(owners, identities).Ok? {
        assert forall i | 0 < i < |identities| :: identities[i] == identities[1..][i - 1];
      } else if identities[0] !in owners {
        assert !Distinct(identities[1..]) || exists i :: 0 <= i < |identities[1..]| && identities[1..][i] in owners + {identities[0]};
      }
    }
  }

  lemma AddSlot(st: State, slot: Slot, owners: set<string>, authority: Authority, chosen: seq<Slot>)
    requires StateInv(st) && StableSlot(slot) && StableAuthority(authority)
    requires st.owners + {slot.principal} <= owners && slot.principal !in st.owners
    requires chosen == st.chosen || chosen == st.chosen + [slot]
    ensures StateInv(State(owners, st.slots + [slot], chosen, st.authorities[slot := authority]))
  {
    var slots := st.slots + [slot];
    assert forall s | s in slots :: s in st.slots || s == slot;
    assert slots[|st.slots|] == slot;
    assert SetOf(slots) == SetOf(st.slots) + {slot};
  }

  lemma BaseStepKeeps(st: State, v: Json)
    requires StateInv(st) && BaseStep(st, v).Ok?
    ensures StateInv(BaseStep(st, v).value) && BaseStep(st, v).value.chosen == st.chosen
  {
    var m := v.fields;
    var slot := ReadSlot(m).value;
    var identities := [slot.principal, StableText(Get(m, "readyReporterPrincipal")).value, StableText(Get(m, "probeNkeySelector")).value];
    ClaimExactly(st.owners, identities);
    assert identities[0] in SetOf(identities);
    AddSlot(st, slot, Claim(st.owners, identities).value, ReadAuthority(m).value, st.chosen);
  }

  lemma ComponentStepKeeps(st: State, v: Json, profile: string)
    requires StateInv(st) && ComponentStep(st, v, profile).Ok?
    ensures StateInv(ComponentStep(st, v, profile).value)
    ensures st.slots <= ComponentStep(st, v, profile).value.slots
  {
    var m := v.fields;
    var slot := ReadSlot(m).value;
    var identities := [slot.principal, StableText(Get(m, "nkeySelector")).value];
    ClaimExactly(st.owners, identities);
    assert identities[0] in SetOf(identities);
    AddSlot(st, slot, Claim(st.owners, identities).value, ReadAuthority(m).value, ComponentStep(st, v, profile).value.chosen);
  }

  lemma {:induction false} BaseKeeps(values: seq<Json>)
    requires ReadBase(values).Ok?
    ensures StateInv(ReadBase(values).value) && ReadBase(values).value.chosen == []
  {
    if values != [] {
      BaseKeeps(values[..|values| - 1]);
      BaseStepKeeps(ReadBase(values[..|values| - 1]).value, values[|values| - 1]);
    }
  }

  lemma {:induction false} ComponentsKeep(values: seq<Json>, start: State, profile: string)
    requires StateInv(start) && ReadComponents(values, start, profile).Ok?
    ensures StateInv(ReadComponents(values, start, profile).value)
    ensures start.slots <= ReadComponents(values, start, profile).value.slots
  {
    if values != [] {
      ComponentsKeep(values[..|values| - 1], start, profile);
      ComponentStepKeeps(ReadComponents(values[..|values| - 1], start, profile).value, values[|values| - 1], profile);
    }
  }

  lemma {:induction false} ExplicitAreKnown(values: seq<Json>, known: set<Slot>)
    requires ReadExplicit(values, known).Ok?
    ensures forall s | s in ReadExplicit(values, known).value :: s in known
  {
    if values != [] {
      ExplicitAreKnown(values[..|values| - 1], known);
    }
  }

  lemma PrincipalsMakeSlotsDistinct(st: State)
    requires StateInv(st)
    ensures Distinct(st.slots)
  {
  }

  lemma ReadSlotsAreDistinct(baseValues: seq<Json>, values: seq<Json>, profile: string)
    requires ReadBase(baseValues).Ok? && ReadComponents(values, ReadBase(baseValues).value, profile).Ok?
    ensures Distinct(ReadComponents(values, ReadBase(baseValues).value, profile).value.slots)
  {
    hide StateInv, Distinct, ReadBase, ReadComponents;
    BaseKeeps(baseValues);
    ComponentsKeep(values, ReadBase(baseValues).value, profile);
    PrincipalsMakeSlotsDistinct(ReadComponents(values, ReadBase(baseValues).value, profile).value);
  }

  /** The duplicate-slot check can never fire: a repeated slot would repeat a claimed principal. */
  lemma NoDuplicateSlots(profile: string, bundle: Fields, descriptor: Fields)
    ensures Compute(profile, bundle, descriptor).Err? ==> Ordinary(Compute(profile, bundle, descriptor).error)
  {
    hide HasTypes, OnlyTypes, Distinct, Sort, Unique, ReadBase, ReadComponents, ReadExplicit;
    var baseValues, values := Sequence(Get(descriptor, "fixedBaseSlots")), Sequence(Get(bundle, "components"));
    if baseValues.Ok? && values.Ok? && ReadBase(baseValues.value).Ok?
       && ReadComponents(values.value, ReadBase(baseValues.value).value, profile).Ok?
    {
      ReadSlotsAreDistinct(baseValues.value, values.value, profile);
    }
  }

  /******* Writing and reading projections *******/

  lemma FieldsOfSlot(m: Fields, s: Slot)
    requires m.Keys == SLOT_FIELDS
    ensures ReadSlot(m) == Ok(s) <==> m == SlotFields(s) && StableSlot(s)
  {
    hide Stable;
    assert "componentType" in m && "componentPrincipal" in m && "nodeId" in m;
    if ReadSlot(m) == Ok(s) {
      assert forall k | k in m :: m[k] == SlotFields(s)[k];
    }
  }

  lemma ExactSlot(v: Json, s: Slot)
    ensures ReadExactSlot(v) == Ok(s) <==> v == SlotJson(s) && StableSlot(s)
  {
    assert SlotFields(s).Keys == SLOT_FIELDS;
    if v.Object? && v.fields.Keys == SLOT_FIELDS {
      FieldsOfSlot(v.fields, s);
    }
  }

  lemma SlotsJsonStep(slots: seq<Slot>, values: seq<Json>)
    requires slots != []
    ensures values == SlotsJson(slots)
       <==> values != [] && values[..|values| - 1] == SlotsJson(slots[..|slots| - 1])
            && values[|values| - 1] == SlotJson(slots[|slots| - 1])
  {
    var n := |values| - 1;
    if values != [] && values[..n] == SlotsJson(slots[..|slots| - 1]) && values[n] == SlotJson(slots[|slots| - 1]) {
      assert values == values[..n] + [values[n]];
      assert SlotsJson(slots) == SlotsJson(slots[..|slots| - 1]) + [SlotJson(slots[|slots| - 1])];
    }
  }

  ghost predicate AllStable(slots: seq<Slot>) {
    forall s | s in slots :: StableSlot(s)
  }

  /** A projection parses to some slots exactly if it is what is written for them. */
  lemma {:induction false} ParsesExactly(values: seq<Json>, slots: seq<Slot>)
    ensures ParseSlots(values) == Ok(slots) <==> values == SlotsJson(slots) && AllStable(slots)
  {
    if slots == [] {
      assert SlotsJson(slots) == [];
    } else {
      SlotsJsonStep(slots, values);
      var last := slots[|slots| - 1];
      assert slots == slots[..|slots| - 1] + [last];
      if values != [] {
        ParsesExactly(values[..|values| - 1], slots[..|slots| - 1]);
        ExactSlot(values[|values| - 1], last);
        assert AllStable(slots) <==> AllStable(slots[..|slots| - 1]) && StableSlot(last);
      }
    }
  }

  lemma FieldsOfRecovery(m: Fields, s: Slot, a: Authority)
    requires m.Keys == RECOVERY_FIELDS
    ensures ReadSlot(m) == Ok(s) && ReadAuthority(m) == Ok(a)
       <==> Object(m) == RecoveryJson(s, a) && StableSlot(s) && StableAuthority(a)
  {
    hide Stable, IsLowerSha256;
    assert "componentType" in m && "componentPrincipal" in m && "nodeId" in m;
    assert "verificationMethod" in m && "expectedDigest" in m;
    if ReadSlot(m) == Ok(s) && ReadAuthority(m) == Ok(a) {
      assert forall k | k in m :: m[k] == RecoveryJson(s, a).fields[k];
    }
  }

  function RecoveriesJson(pairs: seq<(Slot, Authority)>): seq<Json> {
    seq(|pairs|, i requires 0 <= i < |pairs| => RecoveryJson(pairs[i].0, pairs[i].1))
  }

  ghost predicate ParsablePairs(pairs: seq<(Slot, Authority)>) {
    && (forall i | 0 <= i < |pairs| :: StableSlot(pairs[i].0) && StableAuthority(pairs[i].1))
    && (forall i, j | 0 <= i < j < |pairs| :: pairs[i].0 != pairs[j].0)
  }

  lemma RecoveriesJsonStep(pairs: seq<(Slot, Authority)>, values: seq<Json>)
    requires pairs != []
    ensures values == RecoveriesJson(pairs)
       <==> values != [] && values[..|values| - 1] == RecoveriesJson(pairs[..|pairs| - 1])
            && values[|values| - 1] == RecoveryJson(pairs[|pairs| - 1].0, pairs[|pairs| - 1].1)
  {
    var n, last := |values| - 1, pairs[|pairs| - 1];
    if values != [] && values[..n] == RecoveriesJson(pairs[..|pairs| - 1]) && values[n] == RecoveryJson(last.0, last.1) {
      assert values == values[..n] + [values[n]];
      assert RecoveriesJson(pairs) == RecoveriesJson(pairs[..|pairs| - 1]) + [RecoveryJson(last.0, last.1)];
    }
  }

  lemma ExactRecovery(v: Json, s: Slot, a: Authority)
    ensures ReadRecovery(v) == Ok((s, a)) <==> v == RecoveryJson(s, a) && StableSlot(s) && StableAuthority(a)
  {
    assert RecoveryJson(s, a).fields.Keys == RECOVERY_FIELDS;
    if v.Object? && v.fields.Keys == RECOVERY_FIELDS {
      FieldsOfRecovery(v.fields, s, a);
    }
  }

  lemma ParsablePairsStep(before: seq<(Slot, Authority)>, s: Slot, a: Authority)
    ensures ParsablePairs(before + [(s, a)])
       <==> (ParsablePairs(before) && StableSlot(s) && StableAuthority(a) && NewSlot(before, s))
  {
    hide StableSlot, StableAuthority;
    var pairs := before + [(s, a)];
    assert pairs[|before|] == (s, a) && forall i | 0 <= i < |before| :: pairs[i] == before[i];
  }

  lemma ParseRecoveryStep(values: seq<Json>, before: seq<(Slot, Authority)>, s: Slot, a: Authority)
    requires values != []
    ensures ParseRecovery(values) == Ok(before + [(s, a)])
       <==> (&& ParseRecovery(values[..|values| - 1]) == Ok(before)
             && values[|values| - 1] == RecoveryJson(s, a) && StableSlot(s) && StableAuthority(a)
             && NewSlot(before, s))
  {
    hide ReadRecovery, RecoveryJson, StableSlot, StableAuthority, NewSlot;
    ExactRecovery(values[|values| - 1], s, a);
    AppendInjective(before, (s, a), ParseRecovery(values));
  }

  /** The last element and the ones before it determine a result. */
  lemma AppendInjective<T>(before: seq<T>, x: T, r: Result<seq<T>, SlotError>)
    ensures r == Ok(before + [x]) <==> r.Ok? && r.value != [] && r.value[..|r.value| - 1] == before && r.value[|r.value| - 1] == x
  {
    if r.Ok? && r.value != [] {
      assert r.value == r.value[..|r.value| - 1] + [r.value[|r.value| - 1]];
    }
  }

  lemma {:induction false} RecoveryParsesExactly(values: seq<Json>, pairs: seq<(Slot, Authority)>)
    ensures ParseRecovery(values) == Ok(pairs) <==> values == RecoveriesJson(pairs) && ParsablePairs(pairs)
  {
    if pairs == [] {
      assert RecoveriesJson(pairs) == [];
    } else {
      hide ParsablePairs, NewSlot, ReadRecovery, StableSlot, StableAuthority, RecoveryJson;
      var before, last := pairs[..|pairs| - 1], pairs[|pairs| - 1];
      assert pairs == before + [(last.0, last.1)];
      RecoveriesJsonStep(pairs, values);
      ParsablePairsStep(before, last.0, last.1);
      if values != [] {
        RecoveryParsesExactly(values[..|values| - 1], before);
        ParseRecoveryStep(values, before, last.0, last.1);
      }
    }
  }

  /******* Generated slots *******/

  lemma SortMembers(slots: seq<Slot>)
    ensures forall s :: s in Sort(slots) <==> s in slots
  {
    Sorting.SortPermutes(Less, slots);
  }

  lemma {:induction false} UniqueMembers(slots: seq<Slot>)
    ensures Distinct(Unique(slots)) && forall s :: s in Unique(slots) <==> s in slots
  {
    if slots != [] {
      UniqueMembers(slots[..|slots| - 1]);
      assert slots == slots[..|slots| - 1] + [slots[|slots| - 1]];
    }
  }

  /** What is generated comes from what was read, and has its authority. */
  lemma GeneratedFacts(profile: string, bundle: Fields, descriptor: Fields)
    requires Compute(profile, bundle, descriptor).Ok?
    ensures var (slots, authorities) := Compute(profile, bundle, descriptor).value;
      && Get(bundle, "deliveryProfile").Some? && bundle["deliveryProfile"].Object?
      && forall s | s in slots :: s in authorities && StableSlot(s) && StableAuthority(authorities[s])
  {
    hide HasTypes, OnlyTypes, StateInv;
    var baseValues := Sequence(Get(descriptor, "fixedBaseSlots")).value;
    var base := ReadBase(baseValues).value;
    var values := Sequence(Get(bundle, "components")).value;
    var st := ReadComponents(values, base, profile).value;
    var explicits := ReadExplicit(Sequence(Some(ExplicitValue(bundle["deliveryProfile"].fields))).value, SetOf(st.slots)).value;
    BaseKeeps(baseValues);
    ComponentsKeep(values, base, profile);
    ExplicitAreKnown(Sequence(Some(ExplicitValue(bundle["deliveryProfile"].fields))).value, SetOf(st.slots));
    UniqueMembers(base.slots + st.chosen + explicits);
    SortMembers(Unique(base.slots + st.chosen + explicits));
    KnownHaveAuthority(st, base.slots, explicits);
  }

  lemma KnownHaveAuthority(st: State, base: seq<Slot>, explicits: seq<Slot>)
    requires StateInv(st) && base <= st.slots && forall s | s in explicits :: s in SetOf(st.slots)
    ensures forall s | s in base + st.chosen + explicits ::
              s in st.authorities && StableSlot(s) && StableAuthority(st.authorities[s])
  {
    forall s | s in base + st.chosen + explicits ensures s in SetOf(st.slots) && s in st.slots {
      assert s in base ==> exists i :: 0 <= i < |base| && base[i] == s && st.slots[i] == s;
    }
  }

  function Pairs(slots: seq<Slot>, authorities: map<Slot, Authority>): seq<(Slot, Authority)>
    requires forall s | s in slots :: s in authorities
  {
    seq(|slots|, i requires 0 <= i < |slots| => (slots[i], authorities[slots[i]]))
  }

  /** With every authority known, both projections are total. */
  lemma {:induction false} AllHaveAuthority(slots: seq<Slot>, authorities: map<Slot, Authority>)
    requires forall s | s in slots :: s in authorities
    ensures WithAuthorities(slots, authorities) == Ok(Pairs(slots, authorities))
    ensures Render(slots, authorities) == Ok(RecoveriesJson(Pairs(slots, authorities)))
  {
    if slots != [] {
      var n := |slots| - 1;
      AllHaveAuthority(slots[..n], authorities);
      assert Pairs(slots, authorities) == Pairs(slots[..n], authorities) + [(slots[n], authorities[slots[n]])];
      assert RecoveriesJson(Pairs(slots, authorities))
        == RecoveriesJson(Pairs(slots[..n], authorities)) + [RecoveryJson(slots[n], authorities[slots[n]])];
    }
  }

  /******* The order *******/

  lemma LessIrreflexive(a: Slot)
    ensures !Less(a, a)
  {
    Utf8.LessIrreflexive(Utf8.Encode(a.componentType));
    Utf8.LessIrreflexive(Utf8.Encode(a.principal));
    Utf8.LessIrreflexive(Utf8.Encode(a.nodeId));
  }

  lemma LessTransitive(a: Slot, b: Slot, c: Slot)
    requires Less(a, b) && Less(b, c)
    ensures Less(a, c)
  {
    forall x: seq<Utf8.byte>, y: seq<Utf8.byte>, z: seq<Utf8.byte> | Utf8.Less(x, y) && Utf8.Less(y, z) ensures Utf8.Less(x, z) {
      Utf8.LessTransitive(x, y, z);
    }
  }

  lemma LessTotal(a: Slot, b: Slot)
    ensures a == b || Less(a, b) || Less(b, a)
  {
    Utf8.LessTotal(Utf8.Encode(a.componentType), Utf8.Encode(b.componentType));
    Utf8.LessTotal(Utf8.Encode(a.principal), Utf8.Encode(b.principal));
    Utf8.LessTotal(Utf8.Encode(a.nodeId), Utf8.Encode(b.nodeId));
    if Utf8.Encode(a.componentType) == Utf8.Encode(b.componentType) && Utf8.Encode(a.principal) == Utf8.Encode(b.principal)
       && Utf8.Encode(a.nodeId) == Utf8.Encode(b.nodeId)
    {
      Utf8.EncodeInjective(a.componentType, b.componentType);
      Utf8.EncodeInjective(a.principal, b.principal);
      Utf8.EncodeInjective(a.nodeId, b.nodeId);
    }
  }

  ghost predicate StrictlySorted(slots: seq<Slot>) {
    forall i, j | 0 <= i < j < |slots| :: Less(slots[i], slots[j])
  }

  lemma LessIsOrder()
    ensures Sorting.IsOrder(Less)
  {
    hide Less;
    forall a, b | Less(a, b) ensures !Less(b, a) {
      if Less(b, a) {
        LessTransitive(a, b, a);
        LessIrreflexive(a);
      }
    }
    forall a, b, c | !Less(a, b) && !Less(b, c) ensures !Less(a, c) {
      LessTotal(a, b);
      LessTotal(b, c);
      if Less(a, c) && a != b && b != c {
        LessTransitive(a, c, b);
        LessTransitive(b, a, b);
        LessIrreflexive(b);
      }
    }
  }

  lemma SortSorts(slots: seq<Slot>)
    requires Distinct(slots)
    ensures StrictlySorted(Sort(slots))
  {
    hide Less;
    LessIsOrder();
    Sorting.SortOrders(Less, slots);
    Sorting.SortPermutes(Less, slots);
    var sorted := Sort(slots);
    Sorting.DistinctCounts(slots);
    forall i, j | 0 <= i < j < |sorted| ensures Less(sorted[i], sorted[j]) {
      assert !Less(sorted[j], sorted[i]);
      LessTotal(sorted[i], sorted[j]);
      assert sorted == sorted[..j] + [sorted[j]] + sorted[j + 1..];
      assert sorted[i] in sorted[..j];
      assert multiset(sorted)[sorted[j]] <= 1;
    }
  }

  lemma SortedIsDistinct(slots: seq<Slot>)
    requires StrictlySorted(slots)
    ensures Distinct(slots)
  {
    hide Less;
    forall i, j | 0 <= i < j < |slots| ensures slots[i] != slots[j] {
      LessIrreflexive(slots[i]);
    }
  }

  /** A set of slots has one strictly increasing listing. */
  lemma {:induction false} SortedIsCanonical(xs: seq<Slot>, ys: seq<Slot>)
    requires StrictlySorted(xs) && StrictlySorted(ys) && forall s :: s in xs <==> s in ys
    ensures xs == ys
  {
    hide Less;
    EmptyTogether(xs, ys);
    if xs != [] {
      SameHead(xs, ys);
      SortedIsDistinct(xs);
      SortedIsDistinct(ys);
      forall s ensures s in xs[1..] <==> s in ys[1..] {
        assert s in xs <==> s == xs[0] || s in xs[1..];
        assert s in ys <==> s == ys[0] || s in ys[1..];
        assert xs[0] !in xs[1..] && ys[0] !in ys[1..];
      }
      SortedIsCanonical(xs[1..], ys[1..]);
      assert xs == [xs[0]] + xs[1..] && ys == [ys[0]] + ys[1..];
    }
  }

  lemma EmptyTogether(xs: seq<Slot>, ys: seq<Slot>)
    requires forall s :: s in xs <==> s in ys
    ensures xs == [] <==> ys == []
  {
    if xs != [] {
      assert xs[0] in ys;
    }
    if ys != [] {
      assert ys[0] in xs;
    }
  }

  lemma SameHead(xs: seq<Slot>, ys: seq<Slot>)
    requires StrictlySorted(xs) && StrictlySorted(ys) && xs != [] && ys != [] && forall s :: s in xs <==> s in ys
    ensures xs[0] == ys[0]
  {
    hide Less;
    assert xs[0] in xs && ys[0] in ys;
    var i :| 0 <= i < |ys| && ys[i] == xs[0];
    var j :| 0 <= j < |xs| && xs[j] == ys[0];
    if i > 0 && j > 0 {
      LessTransitive(xs[0], ys[0], xs[0]);
      LessIrreflexive(xs[0]);
    }
  }

  /** The output is strictly increasing, byte by byte, so it is the one listing of its set of slots. */
  lemma OutputIsSorted(profile: string, bundle: Fields, descriptor: Fields)
    requires Compute(profile, bundle, descriptor).Ok?
    ensures StrictlySorted(Compute(profile, bundle, descriptor).value.0)
  {
    hide Less, HasTypes, OnlyTypes;
    var base := ReadBase(Sequence(Get(descriptor, "fixedBaseSlots")).value).value;
    var st := ReadComponents(Sequence(Get(bundle, "components")).value, base, profile).value;
    var explicits := ReadExplicit(Sequence(Some(ExplicitValue(bundle["deliveryProfile"].fields))).value, SetOf(st.slots)).value;
    UniqueMembers(base.slots + st.chosen + explicits);
    SortSorts(Unique(base.slots + st.chosen + explicits));
  }

  /******* Agreement *******/

  /** Both projections are in the bundle. */
  ghost predicate Carries(bundle: Fields, slots: seq<Json>, recovery: seq<Json>) {
    && Mapping(Get(bundle, "deliveryProfile")).Ok?
    && Get(Mapping(Get(bundle, "deliveryProfile")).value, "requiredSlots") == Some(Array(slots))
    && Mapping(Get(bundle, "recoveryPolicy")).Ok?
    && Get(Mapping(Get(bundle, "recoveryPolicy")).value, "requiredComponents") == Some(Array(recovery))
  }

  lemma GeneratedPairs(slots: seq<Slot>, authorities: map<Slot, Authority>)
    requires StrictlySorted(slots) && forall s | s in slots :: s in authorities && StableSlot(s) && StableAuthority(authorities[s])
    ensures AllStable(slots) && ParsablePairs(Pairs(slots, authorities))
  {
    hide Less, StableSlot, StableAuthority;
    SortedIsDistinct(slots);
  }

  lemma ChecksDecided(delivery: Fields, bundle: Fields, slots: seq<Slot>, authorities: map<Slot, Authority>)
    requires forall s | s in slots :: s in authorities
    requires AllStable(slots) && ParsablePairs(Pairs(slots, authorities))
    requires Get(bundle, "deliveryProfile") == Some(Object(delivery))
    ensures CheckSlots(delivery, slots).Ok? && CheckRecovery(bundle, slots, authorities).Ok?
       <==> Carries(bundle, SlotsJson(slots), RecoveriesJson(Pairs(slots, authorities)))
  {
    hide StableSlot, StableAuthority, RecoveryJson, SlotJson, ParsablePairs;
    AllHaveAuthority(slots, authorities);
    var values := Sequence(Get(delivery, "requiredSlots"));
    if values.Ok? {
      ParsesExactly(values.value, slots);
    }
    if Mapping(Get(bundle, "recoveryPolicy")).Ok? {
      var components := Sequence(Get(Mapping(Get(bundle, "recoveryPolicy")).value, "requiredComponents"));
      if components.Ok? {
        RecoveryParsesExactly(components.value, Pairs(slots, authorities));
      }
    }
  }

  /** The validator accepts exactly the bundles that the generator accepts and that carry what it
      generates, and then returns what it generated. */
  lemma ValidatorAcceptsExactly(profile: string, bundle: Fields, descriptor: Fields, slots: seq<Slot>)
    ensures RequiredSlotSet(profile, bundle, descriptor) == Ok(slots)
       <==> && Compute(profile, bundle, descriptor).Ok? && Compute(profile, bundle, descriptor).value.0 == slots
            && SlotProjection(profile, bundle, descriptor).Ok? && RecoveryProjection(profile, bundle, descriptor).Ok?
            && Carries(bundle, SlotProjection(profile, bundle, descriptor).value,
                       RecoveryProjection(profile, bundle, descriptor).value)
  {
    hide Compute, CheckSlots, CheckRecovery, Carries, StrictlySorted, StableSlot, StableAuthority, ParsablePairs, AllStable;
    if Compute(profile, bundle, descriptor).Ok? {
      var (generated, authorities) := Compute(profile, bundle, descriptor).value;
      GeneratedFacts(profile, bundle, descriptor);
      OutputIsSorted(profile, bundle, descriptor);
      GeneratedPairs(generated, authorities);
      AllHaveAuthority(generated, authorities);
      ChecksDecided(bundle["deliveryProfile"].fields, bundle, generated, authorities);
    }
  }

  /** Neither internal check ever fires, in the generators or in the validator. */
  lemma ErrorsAreOrdinary(profile: string, bundle: Fields, descriptor: Fields)
    ensures var r := RequiredSlotSet(profile, bundle, descriptor); r.Err? ==> Ordinary(r.error)
    ensures var r := SlotProjection(profile, bundle, descriptor); r.Err? ==> Ordinary(r.error)
    ensures var r := RecoveryProjection(profile, bundle, descriptor); r.Err? ==> Ordinary(r.error)
  {
    hide Compute, StrictlySorted, StableSlot, StableAuthority, ParsablePairs, AllStable;
    NoDuplicateSlots(profile, bundle, descriptor);
    if Compute(profile, bundle, descriptor).Ok? {
      var (generated, authorities) := Compute(profile, bundle, descriptor).value;
      GeneratedFacts(profile, bundle, descriptor);
      AllHaveAuthority(generated, authorities);
    }
  }

  /** Signing: the projections are put where the validator looks for them. */
  function Install(bundle: Fields, slots: seq<Json>, recovery: seq<Json>): Fields
    requires Mapping(Get(bundle, "deliveryProfile")).Ok?
  {
    var delivery := bundle["deliveryProfile"].fields;
    var policy := if Mapping(Get(bundle, "recoveryPolicy")).Ok? then bundle["recoveryPolicy"].fields else map[];
    bundle["deliveryProfile" := Object(delivery["requiredSlots" := Array(slots)])]
          ["recoveryPolicy" := Object(policy["requiredComponents" := Array(recovery)])]
  }

  /** The generator does not read what signing writes. */
  lemma InstallKeepsCompute(profile: string, bundle: Fields, descriptor: Fields, slots: seq<Json>, recovery: seq<Json>)
    requires Mapping(Get(bundle, "deliveryProfile")).Ok?
    ensures Compute(profile, Install(bundle, slots, recovery), descriptor) == Compute(profile, bundle, descriptor)
  {
    hide HasTypes, OnlyTypes, Distinct, Sort, Unique;
    var installed := Install(bundle, slots, recovery);
    assert Get(installed, "components") == Get(bundle, "components");
    assert ExplicitValue(installed["deliveryProfile"].fields) == ExplicitValue(bundle["deliveryProfile"].fields);
  }

  /** Whatever the generator accepts, the validator accepts with both projections installed, and it
      returns the same slots. */
  lemma InstalledIsAccepted(profile: string, bundle: Fields, descriptor: Fields)
    requires SlotProjection(profile, bundle, descriptor).Ok?
    ensures Mapping(Get(bundle, "deliveryProfile")).Ok? && RecoveryProjection(profile, bundle, descriptor).Ok?
    ensures var js, rs := SlotProjection(profile, bundle, descriptor).value, RecoveryProjection(profile, bundle, descriptor).value;
      RequiredSlotSet(profile, Install(bundle, js, rs), descriptor) == Ok(Compute(profile, bundle, descriptor).value.0)
  {
    hide Compute, RequiredSlotSet, StrictlySorted, StableSlot, StableAuthority;
    GeneratedFacts(profile, bundle, descriptor);
    var (generated, authorities) := Compute(profile, bundle, descriptor).value;
    AllHaveAuthority(generated, authorities);
    var js, rs := SlotProjection(profile, bundle, descriptor).value, RecoveryProjection(profile, bundle, descriptor).value;
    InstallKeepsCompute(profile, bundle, descriptor, js, rs);
    ValidatorAcceptsExactly(profile, Install(bundle, js, rs), descriptor, generated);
  }
}
