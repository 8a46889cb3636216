/** The readers as the program runs them: loops that claim identities and fill lists and dictionaries. */
module SlotReaders {
  import opened Wrappers
  import opened Slots

  /** `_claim_unique_identity`: takes the identity, unless somebody owns it already. */
  method ClaimIdentity(owners: set<string>, identity: string) returns (ok: bool, claimed: set<string>)
    ensures ok <==> identity !in owners
    ensures ok ==> claimed == owners + {identity}
  {
    if identity in owners {
      return false, owners;
    }
    return true, owners + {identity};
  }

  method ClaimIdentities(owners: set<string>, identities: seq<string>) returns (r: Result<set<string>, SlotError>)
    ensures r == Claim(owners, identities)
  {
    var claimed := owners;
    for i := 0 to |identities|
      invariant Claim(claimed, identities[i..]) == Claim(owners, identities)
    {
      var ok, next := ClaimIdentity(claimed, identities[i]);
      assert identities[i..][0] == identities[i] && identities[i..][1..] == identities[i + 1..];
      if !ok {
        return Err(IdentityReused);
      }
      claimed := next;
    }
    return Ok(claimed);
  }

  /** The body of the base loop. */
  method ReadBaseSlot(st: State, v: Json) returns (r: Result<State, SlotError>)
    ensures r == BaseStep(st, v)
  {
    if !v.Object? {
      return Err(BadShape);
    }
    var slot := ReadSlot(v.fields);
    if slot.Err? {
      return Err(slot.error);
    }
    var reporter := StableText(Get(v.fields, "readyReporterPrincipal"));
    if reporter.Err? {
      return Err(reporter.error);
    }
    var nkey := StableText(Get(v.fields, "probeNkeySelector"));
    if nkey.Err? {
      return Err(nkey.error);
    }
    var authority := ReadAuthority(v.fields);
    if authority.Err? {
      return Err(authority.error);
    }
    var owners := ClaimIdentities(st.owners, [slot.value.principal, reporter.value, nkey.value]);
    if owners.Err? {
      return Err(owners.error);
    }
    return Ok(State(owners.value, st.slots + [slot.value], st.chosen, st.authorities[slot.value := authority.value]));
  }

  /** The first error is the error of the whole. */
  lemma {:induction false} BaseFails(values: seq<Json>, i: nat)
    requires i <= |values| && ReadBase(values[..i]).Err?
    ensures ReadBase(values) == ReadBase(values[..i])
  {
    hide BaseStep;
    if i < |values| {
      assert values[..|values| - 1][..i] == values[..i];
      BaseFails(values[..|values| - 1], i);
    } else {
      assert values[..i] == values;
    }
  }

  method ReadBaseValues(values: seq<Json>) returns (r: Result<State, SlotError>)
    ensures r == ReadBase(values)
  {
    hide BaseStep;
    var st := START;
    for i := 0 to |values|
      invariant ReadBase(values[..i]) == Ok(st)
    {
      r := ReadBaseSlot(st, values[i]);
      assert values[..i + 1][..i] == values[..i] && values[..i + 1][i] == values[i];
      if r.Err? {
        BaseFails(values, i + 1);
        return;
      }
      st := r.value;
    }
    assert values[..|values|] == values;
    return Ok(st);
  }

  lemma NothingMissing(wanted: set<string>, present: set<string>)
    ensures wanted - present == {} <==> forall t | t in wanted :: t in present
  {
    if wanted - present == {} {
      forall t | t in wanted ensures t in present {
        assert t !in wanted - present;
      }
    }
  }

  /** The types of the slots are the required ones exactly if nothing is missing and nothing unknown. */
  lemma TypesDecided(slots: seq<Slot>, types: set<string>)
    requires types == set i | 0 <= i < |slots| :: slots[i].componentType
    ensures BASE_TYPES - types == {} <==> HasTypes(slots)
    ensures types - BASE_TYPES == {} <==> OnlyTypes(slots)
  {
    NothingMissing(BASE_TYPES, types);
    NothingMissing(types, BASE_TYPES);
    assert forall i | 0 <= i < |slots| :: slots[i].componentType in types;
  }

  method ReadBaseSlots(descriptor: Fields) returns (r: Result<State, SlotError>)
    ensures r == BaseSlots(descriptor)
  {
    hide ReadBase, HasTypes, OnlyTypes;
    var values := Sequence(Get(descriptor, "fixedBaseSlots"));
    if values.Err? {
      return Err(values.error);
    }
    r := ReadBaseValues(values.value);
    if r.Err? {
      return;
    }
    var slots := r.value.slots;
    var types := set i | 0 <= i < |slots| :: slots[i].componentType;
    TypesDecided(slots, types);
    var missing := BASE_TYPES - types;
    if missing != {} {
      return Err(BadTypes);
    }
    var unknown := types - BASE_TYPES;
    if unknown != {} {
      return Err(BadTypes);
    }
  }

  method ReadProfileNames(values: seq<Json>) returns (r: Result<seq<string>, SlotError>)
    ensures r == ReadProfiles(values)
  {
    var names := [];
    ghost var all := ReadProfiles(values);
    assert values[0..] == values && (all.Ok? ==> [] + all.value == all.value);
    for i := 0 to |values|
      invariant |names| == i
      invariant match ReadProfiles(values[i..])
                case Ok(rest) => ReadProfiles(values) == Ok(names + rest)
                case Err(e) => ReadProfiles(values) == Err(e)
    {
      assert values[i..][0] == values[i] && values[i..][1..] == values[i + 1..];
      if !values[i].Str? || values[i].text !in PROFILES {
        return Err(BadProfile);
      }
      ghost var rest := ReadProfiles(values[i + 1..]);
      if rest.Ok? {
        assert names + ([values[i].text] + rest.value) == (names + [values[i].text]) + rest.value;
      }
      names := names + [values[i].text];
    }
    assert names + [] == names;
    return Ok(names);
  }

  /** The body of the component loop. */
  method ReadComponentSlot(st: State, v: Json, profile: string) returns (r: Result<State, SlotError>)
    ensures r == ComponentStep(st, v, profile)
  {
    if !v.Object? {
      return Err(BadShape);
    }
    var slot := ReadSlot(v.fields);
    if slot.Err? {
      return Err(slot.error);
    }
    if slot.value.componentType == "merge-broker" {
      return Err(MergeBroker);
    }
    var nkey := StableText(Get(v.fields, "nkeySelector"));
    if nkey.Err? {
      return Err(nkey.error);
    }
    var owners := ClaimIdentities(st.owners, [slot.value.principal, nkey.value]);
    if owners.Err? {
      return Err(owners.error);
    }
    var authority := ReadAuthority(v.fields);
    if authority.Err? {
      return Err(authority.error);
    }
    var values := Sequence(Get(v.fields, "requiredForProfiles"));
    if values.Err? {
      return Err(values.error);
    }
    var profiles := ReadProfileNames(values.value);
    if profiles.Err? {
      return Err(profiles.error);
    }
    if !Distinct(profiles.value) {
      return Err(RepeatedProfile);
    }
    var chosen := if profile in profiles.value then st.chosen + [slot.value] else st.chosen;
    return Ok(State(owners.value, st.slots + [slot.value], chosen, st.authorities[slot.value := authority.value]));
  }

  lemma {:induction false} ComponentsFail(values: seq<Json>, start: State, profile: string, i: nat)
    requires i <= |values| && ReadComponents(values[..i], start, profile).Err?
    ensures ReadComponents(values, start, profile) == ReadComponents(values[..i], start, profile)
  {
    hide ComponentStep;
    if i < |values| {
      assert values[..|values| - 1][..i] == values[..i];
      ComponentsFail(values[..|values| - 1], start, profile, i);
    } else {
      assert values[..i] == values;
    }
  }

  method ReadComponentSlots(values: seq<Json>, start: State, profile: string) returns (r: Result<State, SlotError>)
    ensures r == ReadComponents(values, start, profile)
  {
    hide ComponentStep;
    var st := start;
    for i := 0 to |values|
      invariant ReadComponents(values[..i], start, profile) == Ok(st)
    {
      r := ReadComponentSlot(st, values[i], profile);
      assert values[..i + 1][..i] == values[..i] && values[..i + 1][i] == values[i];
      if r.Err? {
        ComponentsFail(values, start, profile, i + 1);
        return;
      }
      st := r.value;
    }
    assert values[..|values|] == values;
    return Ok(st);
  }

  lemma {:induction false} ExplicitFails(values: seq<Json>, known: set<Slot>, i: nat)
    requires i <= |values| && ReadExplicit(values[..i], known).Err?
    ensures ReadExplicit(values, known) == ReadExplicit(values[..i], known)
  {
    hide ReadExactSlot;
    if i < |values| {
      assert values[..|values| - 1][..i] == values[..i];
      ExplicitFails(values[..|values| - 1], known, i);
    } else {
      assert values[..i] == values;
    }
  }

  method ReadExplicitSlots(values: seq<Json>, known: set<Slot>) returns (r: Result<seq<Slot>, SlotError>)
    ensures r == ReadExplicit(values, known)
  {
    hide ReadExactSlot;
    var slots := [];
    for i := 0 to |values|
      invariant ReadExplicit(values[..i], known) == Ok(slots)
    {
      assert values[..i + 1][..i] == values[..i] && values[..i + 1][i] == values[i];
      var slot := ReadExactSlot(values[i]);
      if slot.Err? || slot.value.componentType == "merge-broker" || slot.value !in known || slot.value in slots {
        ExplicitFails(values, known, i + 1);
        return ReadExplicit(values[..i + 1], known);
      }
      slots := slots + [slot.value];
    }
    assert values[..|values|] == values;
    return Ok(slots);
  }

  /** `_unique_slots`: a dictionary keeps the first occurrence of each slot, in order. */
  method UniqueSlots(slots: seq<Slot>) returns (unique: seq<Slot>)
    ensures unique == Unique(slots)
  {
    unique := [];
    var seen: set<Slot> := {};
    for i := 0 to |slots|
      invariant unique == Unique(slots[..i]) && seen == SetOf(unique)
    {
      assert slots[..i + 1][..i] == slots[..i];
      if slots[i] !in seen {
        unique := unique + [slots[i]];
        seen := seen + {slots[i]};
      }
    }
    assert slots[..|slots|] == slots;
  }

  lemma {:induction false} RenderFails(slots: seq<Slot>, authorities: map<Slot, Authority>, i: nat)
    requires i <= |slots| && Render(slots[..i], authorities).Err?
    ensures Render(slots, authorities) == Render(slots[..i], authorities)
  {
    if i < |slots| {
      assert slots[..|slots| - 1][..i] == slots[..i];
      RenderFails(slots[..|slots| - 1], authorities, i);
    } else {
      assert slots[..i] == slots;
    }
  }

  /** `_render_recovery_projection`. */
  method RenderRecovery(slots: seq<Slot>, authorities: map<Slot, Authority>) returns (r: Result<seq<Json>, SlotError>)
    ensures r == Render(slots, authorities)
  {
    hide RecoveryJson;
    var rendered := [];
    for i := 0 to |slots|
      invariant Render(slots[..i], authorities) == Ok(rendered)
    {
      assert slots[..i + 1][..i] == slots[..i] && slots[..i + 1][i] == slots[i];
      if slots[i] !in authorities {
        RenderFails(slots, authorities, i + 1);
        return Err(MissingAuthority);
      }
      rendered := rendered + [RecoveryJson(slots[i], authorities[slots[i]])];
    }
    assert slots[..|slots|] == slots;
    return Ok(rendered);
  }

  lemma {:induction false} RecoveryFails(values: seq<Json>, i: nat)
    requires i <= |values| && ParseRecovery(values[..i]).Err?
    ensures ParseRecovery(values) == ParseRecovery(values[..i])
  {
    hide ReadRecovery;
    if i < |values| {
      assert values[..|values| - 1][..i] == values[..i];
      RecoveryFails(values[..|values| - 1], i);
    } else {
      assert values[..i] == values;
    }
  }

  lemma NewSlotStep(pairs: seq<(Slot, Authority)>, pair: (Slot, Authority), s: Slot)
    ensures NewSlot(pairs + [pair], s) <==> NewSlot(pairs, s) && s != pair.0
  {
    assert (pairs + [pair])[|pairs|] == pair && forall i | 0 <= i < |pairs| :: (pairs + [pair])[i] == pairs[i];
  }

  /** The parsing loop of `_validate_recovery_projection`, with its set of slots seen so far. */
  method ParseRecoveryComponents(values: seq<Json>) returns (r: Result<seq<(Slot, Authority)>, SlotError>)
    ensures r == ParseRecovery(values)
  {
    hide ReadRecovery;
    var parsed: seq<(Slot, Authority)> := [];
    var seen: set<Slot> := {};
    for i := 0 to |values|
      invariant ParseRecovery(values[..i]) == Ok(parsed)
      invariant forall s :: s !in seen <==> NewSlot(parsed, s)
    {
      assert values[..i + 1][..i] == values[..i] && values[..i + 1][i] == values[i];
      var pair := ReadRecovery(values[i]);
      if pair.Err? || pair.value.0 in seen {
        RecoveryFails(values, i + 1);
        return if pair.Err? then Err(pair.error) else Err(WrongProjection);
      }
      forall s ensures NewSlot(parsed + [pair.value], s) <==> NewSlot(parsed, s) && s != pair.value.0 {
        NewSlotStep(parsed, pair.value, s);
      }
      seen := seen + {pair.value.0};
      parsed := parsed + [pair.value];
    }
    assert values[..|values|] == values;
    return Ok(parsed);
  }
}
