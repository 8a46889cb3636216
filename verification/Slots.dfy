/** The stable-slot set that a signed configuration bundle requires, and its two projections. */
module Slots {
  import opened Wrappers
  import opened Text
  import Sorting
  import Utf8

  datatype Json = Str(text: string) | Array(items: seq<Json>) | Object(fields: map<string, Json>) | Scalar

  type Fields = map<string, Json>

  datatype Slot = Slot(componentType: string, principal: string, nodeId: string)

  datatype Authority = Authority(verificationMethod: string, expectedDigest: string)

  datatype SlotError =
    | BadProfile | BadShape | IdentityReused | BadTypes | MergeBroker | RepeatedProfile
    | DuplicateSlots | UnknownExplicit | RepeatedExplicit | WrongProjection | MissingAuthority

  /** Errors about the input, as opposed to the two checks that repeat what is already known. */
  predicate Ordinary(e: SlotError) {
    e != DuplicateSlots && e != MissingAuthority
  }

  const BASE_TYPES: set<string> := {
    "CONFIG_CONTROLLER", "STATE_SERVICE", "GATEWAY", "NATS_JETSTREAM", "OBJECT_STORE", "ARTIFACT_BROKER", "AUDIT_SINK"}

  const PROFILES: set<string> := {"CORE", "INTEROP", "EXTENDED"}

  const SLOT_FIELDS: set<string> := {"componentType", "componentPrincipal", "nodeId"}

  const RECOVERY_FIELDS: set<string> := SLOT_FIELDS + {"verificationMethod", "expectedDigest"}

  /******* Fields *******/

  function Get(m: Fields, key: string): Option<Json> {
    if key in m then Some(m[key]) else None
  }

  function Mapping(v: Option<Json>): Result<Fields, SlotError> {
    if v.Some? && v.value.Object? then Ok(v.value.fields) else Err(BadShape)
  }

  function Sequence(v: Option<Json>): (r: Result<seq<Json>, SlotError>)
    ensures r.Err? ==> Ordinary(r.error)
  {
    if v.Some? && v.value.Array? then Ok(v.value.items) else Err(BadShape)
  }

  function StableText(v: Option<Json>): Result<string, SlotError> {
    if v.Some? && v.value.Str? && Stable(v.value.text) then Ok(v.value.text) else Err(BadShape)
  }

  function ReadSlot(m: Fields): Result<Slot, SlotError> {
    var componentType :- StableText(Get(m, "componentType"));
    var principal :- StableText(Get(m, "componentPrincipal"));
    var nodeId :- StableText(Get(m, "nodeId"));
    Ok(Slot(componentType, principal, nodeId))
  }

  function ReadAuthority(m: Fields): Result<Authority, SlotError> {
    var verificationMethod :- StableText(Get(m, "verificationMethod"));
    var expectedDigest :- StableText(Get(m, "expectedDigest"));
    :- Need(IsLowerSha256(expectedDigest), BadShape);
    Ok(Authority(verificationMethod, expectedDigest))
  }

  /******* Base and component slots *******/

  /** What has been read so far: the identities claimed, all slots in order, those of the wanted
      profile, and the recovery authority of each slot. */
  datatype State = State(owners: set<string>, slots: seq<Slot>, chosen: seq<Slot>, authorities: map<Slot, Authority>)

  const START := State({}, [], [], map[])

  /** `_claim_unique_identity`, for each in turn: one namespace for principals and NKey selectors. */
  function Claim(owners: set<string>, identities: seq<string>): (r: Result<set<string>, SlotError>)
    ensures r.Err? ==> Ordinary(r.error)
    decreases identities
  {
    if identities == [] then Ok(owners)
    else
      :- Need(identities[0] !in owners, IdentityReused);
      Claim(owners + {identities[0]}, identities[1..])
  }

  function BaseStep(st: State, v: Json): (r: Result<State, SlotError>)
    ensures r.Err? ==> Ordinary(r.error)
  {
    var m :- Mapping(Some(v));
    var slot :- ReadSlot(m);
    var reporter :- StableText(Get(m, "readyReporterPrincipal"));
    var nkey :- StableText(Get(m, "probeNkeySelector"));
    var authority :- ReadAuthority(m);
    var owners :- Claim(st.owners, [slot.principal, reporter, nkey]);
    Ok(State(owners, st.slots + [slot], st.chosen, st.authorities[slot := authority]))
  }

  function ReadBase(values: seq<Json>): (r: Result<State, SlotError>)
    ensures r.Err? ==> Ordinary(r.error)
  {
    if values == [] then Ok(START)
    else
      var st :- ReadBase(values[..|values| - 1]);
      BaseStep(st, values[|values| - 1])
  }

  predicate HasTypes(slots: seq<Slot>) {
    forall t | t in BASE_TYPES :: exists i | 0 <= i < |slots| :: slots[i].componentType == t
  }

  predicate OnlyTypes(slots: seq<Slot>) {
    forall i | 0 <= i < |slots| :: slots[i].componentType in BASE_TYPES
  }

  /** `_read_base_slots`. */
  function BaseSlots(descriptor: Fields): (r: Result<State, SlotError>)
    ensures r.Err? ==> Ordinary(r.error)
  {
    var values :- Sequence(Get(descriptor, "fixedBaseSlots"));
    var base :- ReadBase(values);
    :- Need(HasTypes(base.slots) && OnlyTypes(base.slots), BadTypes);
    Ok(base)
  }

  function ReadProfiles(values: seq<Json>): (r: Result<seq<string>, SlotError>)
    ensures r.Err? ==> Ordinary(r.error)
  {
    if values == [] then Ok([])
    else
      :- Need(values[0].Str? && values[0].text in PROFILES, BadProfile);
      var rest :- ReadProfiles(values[1..]);
      Ok([values[0].text] + rest)
  }

  predicate Distinct<T(==)>(xs: seq<T>) {
    forall i, j | 0 <= i < j < |xs| :: xs[i] != xs[j]
  }

  function ComponentStep(st: State, v: Json, profile: string): (r: Result<State, SlotError>)
    ensures r.Err? ==> Ordinary(r.error)
  {
    var m :- Mapping(Some(v));
    var slot :- ReadSlot(m);
    :- Need(slot.componentType != "merge-broker", MergeBroker);
    var nkey :- StableText(Get(m, "nkeySelector"));
    var owners :- Claim(st.owners, [slot.principal, nkey]);
    var authority :- ReadAuthority(m);
    var values :- Sequence(Get(m, "requiredForProfiles"));
    var profiles :- ReadProfiles(values);
    :- Need(Distinct(profiles), RepeatedProfile);
    Ok(State(owners, st.slots + [slot], if profile in profiles then st.chosen + [slot] else st.chosen,
             st.authorities[slot := authority]))
  }

  function ReadComponents(values: seq<Json>, start: State, profile: string): (r: Result<State, SlotError>)
    ensures r.Err? ==> Ordinary(r.error)
  {
    if values == [] then Ok(start)
    else
      var st :- ReadComponents(values[..|values| - 1], start, profile);
      ComponentStep(st, values[|values| - 1], profile)
  }

  /******* Explicit slots *******/

  function ReadExactSlot(v: Json): Result<Slot, SlotError> {
    var m :- Mapping(Some(v));
    :- Need(m.Keys == SLOT_FIELDS, BadShape);
    ReadSlot(m)
  }

  function ReadExplicit(values: seq<Json>, known: set<Slot>): (r: Result<seq<Slot>, SlotError>)
    ensures r.Err? ==> Ordinary(r.error)
  {
    if values == [] then Ok([])
    else
      var before :- ReadExplicit(values[..|values| - 1], known);
      var slot :- ReadExactSlot(values[|values| - 1]);
      :- Need(slot.componentType != "merge-broker", MergeBroker);
      :- Need(slot in known, UnknownExplicit);
      :- Need(slot !in before, RepeatedExplicit);
      Ok(before + [slot])
  }

  /******* The canonical order *******/

  /** Python's order on the triples of UTF-8 bytes. */
  predicate Less(a: Slot, b: Slot) {
    var (a0, a1, a2) := (Utf8.Encode(a.componentType), Utf8.Encode(a.principal), Utf8.Encode(a.nodeId));
    var (b0, b1, b2) := (Utf8.Encode(b.componentType), Utf8.Encode(b.principal), Utf8.Encode(b.nodeId));
    || Utf8.Less(a0, b0)
    || (a0 == b0 && (Utf8.Less(a1, b1) || (a1 == b1 && Utf8.Less(a2, b2))))
  }

  /** `_sort_slots`. */
  function Sort(slots: seq<Slot>): seq<Slot> {
    Sorting.Sort(Less, slots)
  }

  /** `_unique_slots`: the first occurrences. */
  function Unique(slots: seq<Slot>): seq<Slot> {
    if slots == [] then []
    else
      var before, last := Unique(slots[..|slots| - 1]), slots[|slots| - 1];
      if last in before then before else before + [last]
  }

  /******* Generator and validator *******/

  function SetOf<T>(xs: seq<T>): set<T> {
    set x | x in xs
  }

  function ExplicitValue(delivery: Fields): Json {
    if "explicitlyRequiredOperationalSlots" in delivery then delivery["explicitlyRequiredOperationalSlots"] else Array([])
  }

  /** `_compute_required_slots` without the projections. */
  function Compute(profile: string, bundle: Fields, descriptor: Fields): Result<(seq<Slot>, map<Slot, Authority>), SlotError> {
    if profile !in PROFILES then Err(BadProfile) else
    var base :- BaseSlots(descriptor);
    var componentValues :- Sequence(Get(bundle, "components"));
    var st :- ReadComponents(componentValues, base, profile);
    :- Need(Distinct(st.slots), DuplicateSlots);
    var delivery :- Mapping(Get(bundle, "deliveryProfile"));
    var explicitValues :- Sequence(Some(ExplicitValue(delivery)));
    var explicits :- ReadExplicit(explicitValues, SetOf(st.slots));
    Ok((Sort(Unique(base.slots + st.chosen + explicits)), st.authorities))
  }

  function SlotFields(s: Slot): Fields {
    map["componentType" := Str(s.componentType), "componentPrincipal" := Str(s.principal), "nodeId" := Str(s.nodeId)]
  }

  function SlotJson(s: Slot): Json {
    Object(SlotFields(s))
  }

  function RecoveryJson(s: Slot, a: Authority): Json {
    Object(SlotFields(s)["verificationMethod" := Str(a.verificationMethod)]["expectedDigest" := Str(a.expectedDigest)])
  }

  function SlotsJson(slots: seq<Slot>): seq<Json> {
    seq(|slots|, i requires 0 <= i < |slots| => SlotJson(slots[i]))
  }

  /** `_render_recovery_projection`; `_authority_for` raises for a slot without authority. */
  function Render(slots: seq<Slot>, authorities: map<Slot, Authority>): Result<seq<Json>, SlotError> {
    if slots == [] then Ok([])
    else
      var before :- Render(slots[..|slots| - 1], authorities);
      :- Need(slots[|slots| - 1] in authorities, MissingAuthority);
      Ok(before + [RecoveryJson(slots[|slots| - 1], authorities[slots[|slots| - 1]])])
  }

  /** `required_slot_projection`. */
  function SlotProjection(profile: string, bundle: Fields, descriptor: Fields): Result<seq<Json>, SlotError> {
    var (slots, _) :- Compute(profile, bundle, descriptor);
    Ok(SlotsJson(slots))
  }

  /** `required_recovery_projection`. */
  function RecoveryProjection(profile: string, bundle: Fields, descriptor: Fields): Result<seq<Json>, SlotError> {
    var (slots, authorities) :- Compute(profile, bundle, descriptor);
    Render(slots, authorities)
  }

  function ParseSlots(values: seq<Json>): (r: Result<seq<Slot>, SlotError>)
    ensures r.Err? ==> Ordinary(r.error)
  {
    if values == [] then Ok([])
    else
      var before :- ParseSlots(values[..|values| - 1]);
      var slot :- ReadExactSlot(values[|values| - 1]);
      Ok(before + [slot])
  }

  function ReadRecovery(v: Json): (r: Result<(Slot, Authority), SlotError>)
    ensures r.Err? ==> Ordinary(r.error)
  {
    var m :- Mapping(Some(v));
    :- Need(m.Keys == RECOVERY_FIELDS, BadShape);
    var slot :- ReadSlot(m);
    var authority :- ReadAuthority(m);
    Ok((slot, authority))
  }

  predicate NewSlot(pairs: seq<(Slot, Authority)>, s: Slot) {
    forall i | 0 <= i < |pairs| :: pairs[i].0 != s
  }

  function ParseRecovery(values: seq<Json>): (r: Result<seq<(Slot, Authority)>, SlotError>)
    ensures r.Err? ==> Ordinary(r.error)
  {
    if values == [] then Ok([])
    else
      var before :- ParseRecovery(values[..|values| - 1]);
      var pair :- ReadRecovery(values[|values| - 1]);
      :- Need(NewSlot(before, pair.0), WrongProjection);
      Ok(before + [pair])
  }

  function WithAuthorities(slots: seq<Slot>, authorities: map<Slot, Authority>): Result<seq<(Slot, Authority)>, SlotError> {
    if slots == [] then Ok([])
    else
      var before :- WithAuthorities(slots[..|slots| - 1], authorities);
      :- Need(slots[|slots| - 1] in authorities, MissingAuthority);
      Ok(before + [(slots[|slots| - 1], authorities[slots[|slots| - 1]])])
  }

  /** `_validate_required_slots_projection`. */
  function CheckSlots(delivery: Fields, generated: seq<Slot>): Result<(), SlotError> {
    var values :- Sequence(Get(delivery, "requiredSlots"));
    var parsed :- ParseSlots(values);
    :- Need(parsed == generated, WrongProjection);
    Ok(())
  }

  /** `_validate_recovery_projection`. */
  function CheckRecovery(bundle: Fields, generated: seq<Slot>, authorities: map<Slot, Authority>): Result<(), SlotError> {
    var recovery :- Mapping(Get(bundle, "recoveryPolicy"));
    var values :- Sequence(Get(recovery, "requiredComponents"));
    var parsed :- ParseRecovery(values);
    var expected :- WithAuthorities(generated, authorities);
    :- Need(parsed == expected, WrongProjection);
    Ok(())
  }

  /** `required_slot_set`. */
  function RequiredSlotSet(profile: string, bundle: Fields, descriptor: Fields): Result<seq<Slot>, SlotError> {
    var (slots, authorities) :- Compute(profile, bundle, descriptor);
    var delivery :- Mapping(Get(bundle, "deliveryProfile"));
    var _ :- CheckSlots(delivery, slots);
    var _ :- CheckRecovery(bundle, slots, authorities);
    Ok(slots)
  }
}
