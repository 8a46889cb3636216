/** What the generator accepts and what it puts out, read off the JSON of descriptor and bundle. */
module SlotMeaning {
  import opened Wrappers
  import opened Text
  import Utf8
  import opened Slots
  import opened SlotTheorems
  import opened SlotPermutations

  /******* Entries *******/

  ghost predicate HasText(m: Fields, key: string, text: string) {
    key in m && m[key] == Str(text)
  }

  /** An entry with the three fields of this slot. */
  ghost predicate Names(v: Json, s: Slot) {
    && v.Object?
    && HasText(v.fields, "componentType", s.componentType)
    && HasText(v.fields, "componentPrincipal", s.principal)
    && HasText(v.fields, "nodeId", s.nodeId)
  }

  /** An entry with the two fields of this authority. */
  ghost predicate Authorises(v: Json, a: Authority) {
    && v.Object?
    && HasText(v.fields, "verificationMethod", a.verificationMethod)
    && HasText(v.fields, "expectedDigest", a.expectedDigest)
  }

  ghost predicate HasStable(m: Fields, key: string) {
    key in m && m[key].Str? && Stable(m[key].text)
  }

  ghost predicate HasSlotFields(v: Json) {
    && v.Object?
    && HasStable(v.fields, "componentType") && HasStable(v.fields, "componentPrincipal") && HasStable(v.fields, "nodeId")
  }

  ghost predicate HasAuthorityFields(v: Json) {
    && v.Object?
    && HasStable(v.fields, "verificationMethod") && HasStable(v.fields, "expectedDigest")
    && IsLowerSha256(v.fields["expectedDigest"].text)
  }

  /** An entry of `fixedBaseSlots`. */
  ghost predicate IsBaseEntry(v: Json) {
    && HasSlotFields(v) && HasAuthorityFields(v)
    && HasStable(v.fields, "readyReporterPrincipal") && HasStable(v.fields, "probeNkeySelector")
  }

  /** An entry of `components`: never the merge broker, and for profiles that exist, each named once. */
  ghost predicate IsComponentEntry(v: Json) {
    && HasSlotFields(v) && HasAuthorityFields(v)
    && v.fields["componentType"] != Str("merge-broker")
    && HasStable(v.fields, "nkeySelector")
    && "requiredForProfiles" in v.fields && v.fields["requiredForProfiles"].Array?
    && var profiles := v.fields["requiredForProfiles"].items;
    && (forall i | 0 <= i < |profiles| :: profiles[i] in {Str("CORE"), Str("INTEROP"), Str("EXTENDED")})
    && (forall i, j | 0 <= i < j < |profiles| :: profiles[i] != profiles[j])
  }

  ghost predicate IsRequiredFor(v: Json, profile: string) {
    && v.Object? && "requiredForProfiles" in v.fields && v.fields["requiredForProfiles"].Array?
    && Str(profile) in v.fields["requiredForProfiles"].items
  }

  /** An entry of `explicitlyRequiredOperationalSlots`: three fields and no others. */
  ghost predicate IsExplicitEntry(v: Json) {
    && HasSlotFields(v)
    && v.fields.Keys == {"componentType", "componentPrincipal", "nodeId"}
    && v.fields["componentType"] != Str("merge-broker")
  }

  /** The identities that an entry claims, in one namespace. */
  ghost function BaseIdentities(v: Json): seq<string> {
    if IsBaseEntry(v)
    then [v.fields["componentPrincipal"].text, v.fields["readyReporterPrincipal"].text, v.fields["probeNkeySelector"].text]
    else []
  }

  ghost function ComponentIdentities(v: Json): seq<string> {
    if IsComponentEntry(v) then [v.fields["componentPrincipal"].text, v.fields["nkeySelector"].text] else []
  }

  ghost function AllBaseIdentities(values: seq<Json>): seq<string> {
    if values == [] then []
    else AllBaseIdentities(values[..|values| - 1]) + BaseIdentities(values[|values| - 1])
  }

  ghost function AllComponentIdentities(values: seq<Json>): seq<string> {
    if values == [] then []
    else AllComponentIdentities(values[..|values| - 1]) + ComponentIdentities(values[|values| - 1])
  }

  /******* What the readers make of an entry *******/

  lemma StableTextExactly(m: Fields, key: string)
    ensures StableText(Get(m, key)).Ok? <==> HasStable(m, key)
    ensures HasStable(m, key) ==> StableText(Get(m, key)).value == m[key].text
  {
    hide Stable;
  }

  lemma ReadSlotExactly(v: Json)
    requires v.Object?
    ensures ReadSlot(v.fields).Ok? <==> HasSlotFields(v)
    ensures HasSlotFields(v) ==> forall s :: Names(v, s) <==> s == ReadSlot(v.fields).value
  {
    hide Stable;
  }

  lemma ReadAuthorityExactly(v: Json)
    requires v.Object?
    ensures ReadAuthority(v.fields).Ok? <==> HasAuthorityFields(v)
    ensures HasAuthorityFields(v) ==> Authorises(v, ReadAuthority(v.fields).value)
  {
    hide Stable, IsLowerSha256;
  }

  lemma BaseItemExactly(v: Json)
    ensures BaseItem(v).Some? <==> IsBaseEntry(v)
    ensures BaseItem(v).Some? ==>
              var item := BaseItem(v).value;
              && (forall s :: Names(v, s) <==> s == item.slot)
              && Authorises(v, item.authority) && item.identities == BaseIdentities(v) && !item.chosen
  {
    hide ReadSlot, ReadAuthority, StableText, HasAuthorityFields, Authorises, Stable;
    if v.Object? {
      ReadSlotExactly(v);
      ReadAuthorityExactly(v);
      StableTextExactly(v.fields, "readyReporterPrincipal");
      StableTextExactly(v.fields, "probeNkeySelector");
      NamedPrincipal(v);
    }
  }

  lemma NamedPrincipal(v: Json)
    ensures HasSlotFields(v) ==> forall s | Names(v, s) ::
              v.fields["componentPrincipal"].text == s.principal && v.fields["componentType"] == Str(s.componentType)
  {
  }

  lemma ProfilesExactly(values: seq<Json>, profile: string)
    ensures ReadProfiles(values).Ok?
       <==> forall i | 0 <= i < |values| :: values[i] in {Str("CORE"), Str("INTEROP"), Str("EXTENDED")}
    ensures ReadProfiles(values).Ok? ==>
              && (Distinct(ReadProfiles(values).value) <==> forall i, j | 0 <= i < j < |values| :: values[i] != values[j])
              && (profile in ReadProfiles(values).value <==> Str(profile) in values)
  {
    ProfilesAreNames(values);
    assert forall v: Json :: v.Str? && v.text in PROFILES <==> v in {Str("CORE"), Str("INTEROP"), Str("EXTENDED")};
    if ReadProfiles(values).Ok? {
      NamesAreDistinctTogether(values, ReadProfiles(values).value);
    }
  }

  lemma ComponentItemExactly(v: Json, profile: string)
    ensures ComponentItem(v, profile).Some? <==> IsComponentEntry(v)
    ensures ComponentItem(v, profile).Some? ==>
              var item := ComponentItem(v, profile).value;
              && (forall s :: Names(v, s) <==> s == item.slot)
              && Authorises(v, item.authority) && item.identities == ComponentIdentities(v)
              && (item.chosen <==> IsRequiredFor(v, profile))
  {
    hide ReadSlot, ReadAuthority, StableText, HasAuthorityFields, Authorises, Stable, ReadProfiles, Distinct;
    if v.Object? {
      ReadSlotExactly(v);
      ReadAuthorityExactly(v);
      StableTextExactly(v.fields, "nkeySelector");
      NamedPrincipal(v);
      var values := Sequence(Get(v.fields, "requiredForProfiles"));
      if values.Ok? {
        ProfilesExactly(values.value, profile);
      }
    }
  }

  /******* What the readers make of all entries *******/

  ghost predicate NoneTwice<T(!new)>(xs: seq<T>) {
    forall i, j | 0 <= i < j < |xs| :: xs[i] != xs[j]
  }

  lemma BaseBagStep(before: seq<Json>, last: Json)
    ensures Bag(Items(before + [last], BaseItem)) == Bag(Items(before, BaseItem)) + multiset(BaseIdentities(last))
  {
    hide BaseItem, Bag;
    assert Items(before + [last], BaseItem) == Items(before, BaseItem) + [BaseItem(last)];
    BagAppend(Items(before, BaseItem), BaseItem(last));
    BaseItemExactly(last);
  }

  lemma {:induction false} BaseBag(values: seq<Json>)
    ensures Bag(Items(values, BaseItem)) == multiset(AllBaseIdentities(values))
  {
    hide BaseItem, BaseIdentities;
    if values == [] {
      assert Items(values, BaseItem) == [];
    } else {
      var before, last := values[..|values| - 1], values[|values| - 1];
      BaseBag(before);
      BaseBagStep(before, last);
      assert values == before + [last];
    }
  }

  lemma ComponentBagStep(before: seq<Json>, last: Json, profile: string)
    ensures Bag(Items(before + [last], ForProfile(profile)))
         == Bag(Items(before, ForProfile(profile))) + multiset(ComponentIdentities(last))
  {
    hide ComponentItem, Bag;
    assert Items(before + [last], ForProfile(profile)) == Items(before, ForProfile(profile)) + [ComponentItem(last, profile)];
    BagAppend(Items(before, ForProfile(profile)), ComponentItem(last, profile));
    ComponentItemExactly(last, profile);
  }

  lemma {:induction false} ComponentBag(values: seq<Json>, profile: string)
    ensures Bag(Items(values, ForProfile(profile))) == multiset(AllComponentIdentities(values))
  {
    hide ComponentItem, ComponentIdentities;
    if values == [] {
      assert Items(values, ForProfile(profile)) == [];
    } else {
      var before, last := values[..|values| - 1], values[|values| - 1];
      ComponentBag(before, profile);
      ComponentBagStep(before, last, profile);
      assert values == before + [last];
    }
  }

  lemma AllParse(values: seq<Json>, f: Json -> Option<Item>)
    ensures (forall o | o in Items(values, f) :: o.Some?) <==> forall v | v in values :: f(v).Some?
  {
    if forall o | o in Items(values, f) :: o.Some? {
      forall i | 0 <= i < |values| ensures f(values[i]).Some? {
        assert Items(values, f)[i] in Items(values, f);
      }
    }
  }

  /** Claimed once each, and not before. */
  lemma ClaimableExactly(items: seq<Option<Item>>, identities: seq<string>, owners: set<string>)
    requires Bag(items) == multiset(identities)
    ensures Claimable(items, owners)
       <==> (forall o | o in items :: o.Some?) && NoneTwice(identities) && forall i | 0 <= i < |identities| :: identities[i] !in owners
  {
    DistinctIsOnce(identities);
    forall i | 0 <= i < |identities| ensures identities[i] in Bag(items) {
      assert identities[i] in multiset(identities);
    }
  }

  lemma BaseReadExactly(values: seq<Json>)
    ensures ReadBase(values).Ok? <==> (forall v | v in values :: IsBaseEntry(v)) && NoneTwice(AllBaseIdentities(values))
    ensures ReadBase(values).Ok? ==>
              && Gathers(Items(values, BaseItem), START, ReadBase(values).value)
              && ReadBase(values).value.owners == (set x | x in AllBaseIdentities(values))
  {
    hide AbsorbAll, BaseItem, IsBaseEntry, Claimable, NoneTwice, AllBaseIdentities, Gathers, Bag;
    var items := Items(values, BaseItem);
    BaseAbsorbs(values);
    ItemsArePrincipled(values, "");
    StartIsSame();
    AbsorbExactly(items, START);
    BaseBag(values);
    ClaimableExactly(items, AllBaseIdentities(values), {});
    AllParse(values, BaseItem);
    forall v | v in values ensures BaseItem(v).Some? <==> IsBaseEntry(v) {
      BaseItemExactly(v);
    }
    if ReadBase(values).Ok? {
      GatheredOwners(items, START, ReadBase(values).value, AllBaseIdentities(values));
    }
  }

  lemma GatheredOwners(items: seq<Option<Item>>, start: State, st: State, identities: seq<string>)
    requires Gathers(items, start, st) && Bag(items) == multiset(identities)
    ensures st.owners == start.owners + set x | x in identities
  {
    forall x ensures x in Bag(items) <==> x in identities {
      assert x in identities <==> x in multiset(identities);
    }
  }

  lemma ComponentsReadExactly(values: seq<Json>, start: State, profile: string)
    requires StateInv(start)
    ensures var ids := AllComponentIdentities(values);
      ReadComponents(values, start, profile).Ok?
      <==> (forall v | v in values :: IsComponentEntry(v)) && NoneTwice(ids) && forall i | 0 <= i < |ids| :: ids[i] !in start.owners
    ensures ReadComponents(values, start, profile).Ok? ==>
              Gathers(Items(values, ForProfile(profile)), start, ReadComponents(values, start, profile).value)
  {
    hide AbsorbAll, ComponentItem, IsComponentEntry, Claimable, NoneTwice, AllComponentIdentities, Gathers, Bag, StateInv;
    var items := Items(values, ForProfile(profile));
    ComponentsAbsorb(values, start, profile);
    ItemsArePrincipled(values, profile);
    InvIsGuarded(start);
    AbsorbExactly(items, start);
    ComponentBag(values, profile);
    ClaimableExactly(items, AllComponentIdentities(values), start.owners);
    AllParse(values, ForProfile(profile));
    forall v | v in values ensures ForProfile(profile)(v).Some? <==> IsComponentEntry(v) {
      ComponentItemExactly(v, profile);
    }
  }

  /** Which slots a list of entries brings. */
  lemma BaseSlotsExactly(values: seq<Json>, s: Slot)
    requires forall v | v in values :: IsBaseEntry(v)
    ensures HasSlot(Items(values, BaseItem), s) <==> exists v | v in values :: Names(v, s)
    ensures !HasChosen(Items(values, BaseItem), s)
  {
    hide BaseItem, IsBaseEntry, Names;
    var items := Items(values, BaseItem);
    forall i | 0 <= i < |values|
      ensures items[i] == BaseItem(values[i]) && items[i].Some? && !items[i].value.chosen
      ensures Names(values[i], s) <==> items[i].value.slot == s
    {
      BaseItemExactly(values[i]);
    }
    if exists v | v in values :: Names(v, s) {
      var i :| 0 <= i < |values| && Names(values[i], s);
      assert items[i] in items;
    }
  }

  lemma ComponentSlotsExactly(values: seq<Json>, profile: string, s: Slot)
    requires forall v | v in values :: IsComponentEntry(v)
    ensures HasSlot(Items(values, ForProfile(profile)), s) <==> exists v | v in values :: Names(v, s)
    ensures HasChosen(Items(values, ForProfile(profile)), s)
       <==> exists v | v in values :: Names(v, s) && IsRequiredFor(v, profile)
  {
    hide ComponentItem, IsComponentEntry, Names, IsRequiredFor;
    var items := Items(values, ForProfile(profile));
    forall i | 0 <= i < |values|
      ensures items[i] == ComponentItem(values[i], profile) && items[i].Some?
      ensures Names(values[i], s) <==> items[i].value.slot == s
      ensures items[i].value.chosen <==> IsRequiredFor(values[i], profile)
    {
      ComponentItemExactly(values[i], profile);
    }
    if exists v | v in values :: Names(v, s) {
      var i :| 0 <= i < |values| && Names(values[i], s);
      assert items[i] in items;
    }
    if exists v | v in values :: Names(v, s) && IsRequiredFor(v, profile) {
      var i :| 0 <= i < |values| && Names(values[i], s) && IsRequiredFor(values[i], profile);
      assert items[i] in items;
    }
  }

  /******* The generator *******/

  ghost predicate IsArray(m: Fields, key: string) {
    key in m && m[key].Array?
  }

  ghost function ItemsOf(m: Fields, key: string): seq<Json> {
    if IsArray(m, key) then m[key].items else []
  }

  ghost function Delivery(bundle: Fields): Fields {
    if "deliveryProfile" in bundle && bundle["deliveryProfile"].Object? then bundle["deliveryProfile"].fields else map[]
  }

  ghost function Bases(descriptor: Fields): seq<Json> {
    ItemsOf(descriptor, "fixedBaseSlots")
  }

  ghost function Components(bundle: Fields): seq<Json> {
    ItemsOf(bundle, "components")
  }

  ghost function Explicits(bundle: Fields): seq<Json> {
    ItemsOf(Delivery(bundle), "explicitlyRequiredOperationalSlots")
  }

  ghost predicate IsBaseType(componentType: string) {
    componentType in {"CONFIG_CONTROLLER", "STATE_SERVICE", "GATEWAY", "NATS_JETSTREAM", "OBJECT_STORE", "ARTIFACT_BROKER",
                      "AUDIT_SINK"}
  }

  /** The descriptor lists well-formed base slots of exactly the seven types, with no identity twice. */
  ghost predicate AcceptsBases(descriptor: Fields) {
    && IsArray(descriptor, "fixedBaseSlots")
    && (forall v | v in Bases(descriptor) :: IsBaseEntry(v))
    && NoneTwice(AllBaseIdentities(Bases(descriptor)))
    && (forall v, s | v in Bases(descriptor) && Names(v, s) :: IsBaseType(s.componentType))
    && (forall componentType | IsBaseType(componentType) ::
          exists v, s | v in Bases(descriptor) && Names(v, s) :: s.componentType == componentType)
  }

  /** The bundle lists well-formed components, which repeat no identity of each other or of a base slot. */
  ghost predicate AcceptsComponents(bundle: Fields, descriptor: Fields) {
    && IsArray(bundle, "components")
    && (forall v | v in Components(bundle) :: IsComponentEntry(v))
    && NoneTwice(AllBaseIdentities(Bases(descriptor)) + AllComponentIdentities(Components(bundle)))
  }

  /** Explicit slots, if there are any, are base or component slots, each once. */
  ghost predicate AcceptsExplicits(bundle: Fields, descriptor: Fields) {
    && "deliveryProfile" in bundle && bundle["deliveryProfile"].Object?
    && ("explicitlyRequiredOperationalSlots" in Delivery(bundle) ==> IsArray(Delivery(bundle), "explicitlyRequiredOperationalSlots"))
    && NoneTwice(Explicits(bundle))
    && (forall v | v in Explicits(bundle) :: IsExplicitEntry(v) && IsListed(v, Bases(descriptor) + Components(bundle)))
  }

  ghost predicate IsListed(v: Json, entries: seq<Json>) {
    exists w, s | w in entries && Names(w, s) :: Names(v, s)
  }

  lemma BasesAreRead(descriptor: Fields)
    ensures BaseSlots(descriptor).Ok? <==> AcceptsBases(descriptor)
    ensures BaseSlots(descriptor).Ok? ==>
              && Gathers(Items(Bases(descriptor), BaseItem), START, BaseSlots(descriptor).value)
              && BaseSlots(descriptor).value.owners == (set x | x in AllBaseIdentities(Bases(descriptor)))
              && StateInv(BaseSlots(descriptor).value)
              && (forall s :: s in BaseSlots(descriptor).value.slots <==> exists v | v in Bases(descriptor) :: Names(v, s))
              && BaseSlots(descriptor).value.chosen == []
  {
    hide ReadBase, IsBaseEntry, NoneTwice, AllBaseIdentities, Names, StateInv, HasTypes, OnlyTypes, HasSlot, HasChosen;
    var values := Bases(descriptor);
    BaseReadExactly(values);
    if IsArray(descriptor, "fixedBaseSlots") && ReadBase(values).Ok? {
      var st := ReadBase(values).value;
      BaseKeeps(values);
      forall s ensures s in st.slots <==> exists v | v in values :: Names(v, s) {
        BaseSlotsExactly(values, s);
      }
      TypesExactly(values, st.slots);
    }
  }

  lemma TypesExactly(values: seq<Json>, slots: seq<Slot>)
    requires forall s :: s in slots <==> exists v | v in values :: Names(v, s)
    ensures OnlyTypes(slots) <==> forall v, s | v in values && Names(v, s) :: IsBaseType(s.componentType)
    ensures HasTypes(slots)
       <==> forall componentType | IsBaseType(componentType) ::
              exists v, s | v in values && Names(v, s) :: s.componentType == componentType
  {
    hide Names;
    assert forall x :: x in BASE_TYPES <==> IsBaseType(x);
    if OnlyTypes(slots) {
      forall v, s | v in values && Names(v, s) ensures IsBaseType(s.componentType) {
        assert s in slots;
      }
    }
    if HasTypes(slots) {
      forall componentType | IsBaseType(componentType)
        ensures exists v, s | v in values && Names(v, s) :: s.componentType == componentType
      {
        var i :| 0 <= i < |slots| && slots[i].componentType == componentType;
        assert slots[i] in slots;
        var v :| v in values && Names(v, slots[i]);
      }
    }
    if forall componentType | IsBaseType(componentType) ::
         exists v, s | v in values && Names(v, s) :: s.componentType == componentType
    {
      forall componentType | componentType in BASE_TYPES ensures exists i | 0 <= i < |slots| :: slots[i].componentType == componentType {
        assert IsBaseType(componentType);
        var v, s :| v in values && Names(v, s) && s.componentType == componentType;
        assert s in slots;
      }
    }
    if forall v, s | v in values && Names(v, s) :: IsBaseType(s.componentType) {
      forall i | 0 <= i < |slots| ensures slots[i].componentType in BASE_TYPES {
        assert slots[i] in slots;
        var v :| v in values && Names(v, slots[i]);
      }
    }
  }

  lemma NoneTwiceJoined(xs: seq<string>, ys: seq<string>)
    ensures NoneTwice(xs + ys) <==> NoneTwice(xs) && NoneTwice(ys) && forall i | 0 <= i < |ys| :: ys[i] !in xs
  {
    var all := xs + ys;
    assert forall i | 0 <= i < |ys| :: all[|xs| + i] == ys[i];
    assert forall i | 0 <= i < |xs| :: all[i] == xs[i];
    if NoneTwice(all) {
      forall i | 0 <= i < |ys| ensures ys[i] !in xs {
        forall k | 0 <= k < |xs| ensures xs[k] != ys[i] {
          assert all[k] != all[|xs| + i];
        }
      }
      forall i, j | 0 <= i < j < |ys| ensures ys[i] != ys[j] {
        assert all[|xs| + i] != all[|xs| + j];
      }
      forall i, j | 0 <= i < j < |xs| ensures xs[i] != xs[j] {
        assert all[i] != all[j];
      }
    }
  }

  lemma ComponentsAreRead(bundle: Fields, descriptor: Fields, profile: string)
    requires BaseSlots(descriptor).Ok?
    ensures var values, base := Sequence(Get(bundle, "components")), BaseSlots(descriptor).value;
      && (values.Ok? && ReadComponents(values.value, base, profile).Ok? <==> AcceptsComponents(bundle, descriptor))
      && (AcceptsComponents(bundle, descriptor) ==>
            var st := ReadComponents(Components(bundle), base, profile).value;
            && values.value == Components(bundle)
            && Gathers(Items(Components(bundle), ForProfile(profile)), base, st)
            && (forall s :: s in st.slots <==> exists v | v in Bases(descriptor) + Components(bundle) :: Names(v, s))
            && (forall s :: s in st.chosen <==> exists v | v in Components(bundle) :: Names(v, s) && IsRequiredFor(v, profile)))
  {
    hide ReadComponents, IsComponentEntry, NoneTwice, AllBaseIdentities, AllComponentIdentities, Names, StateInv, HasSlot, HasChosen;
    hide BaseSlots, AcceptsBases, IsRequiredFor;
    var base, values := BaseSlots(descriptor).value, Components(bundle);
    BasesAreRead(descriptor);
    ComponentsReadExactly(values, base, profile);
    AcceptedBasesAreOnce(descriptor);
    NoneTwiceJoined(AllBaseIdentities(Bases(descriptor)), AllComponentIdentities(values));
    if AcceptsComponents(bundle, descriptor) {
      forall s
        ensures HasSlot(Items(values, ForProfile(profile)), s) <==> exists v | v in values :: Names(v, s)
        ensures HasChosen(Items(values, ForProfile(profile)), s)
           <==> exists v | v in values :: Names(v, s) && IsRequiredFor(v, profile)
      {
        ComponentSlotsExactly(values, profile, s);
      }
    }
  }

  lemma AcceptedBasesAreOnce(descriptor: Fields)
    ensures AcceptsBases(descriptor) ==> NoneTwice(AllBaseIdentities(Bases(descriptor)))
  {
  }

  lemma ExplicitEntryExactly(v: Json, known: set<Slot>)
    ensures IsExplicit(v, known) <==> IsExplicitEntry(v) && exists s | s in known :: Names(v, s)
    ensures IsExplicitEntry(v) ==> forall s :: Names(v, s) <==> s == ReadExactSlot(v).value
    ensures ReadExactSlot(v).Ok? ==> forall s :: SlotJson(s) == v && StableSlot(s) <==> Names(v, s)
  {
    hide ReadSlot, StableSlot, SlotJson;
    if v.Object? {
      ReadSlotExactly(v);
      NamedPrincipal(v);
    }
    forall s ensures ReadExactSlot(v) == Ok(s) <==> v == SlotJson(s) && StableSlot(s) {
      ExactSlot(v, s);
    }
  }

  lemma ExplicitsAreRead(values: seq<Json>, known: set<Slot>)
    ensures ReadExplicit(values, known).Ok?
       <==> NoneTwice(values) && forall v | v in values :: IsExplicitEntry(v) && exists s | s in known :: Names(v, s)
    ensures ReadExplicit(values, known).Ok? ==>
              forall s :: s in ReadExplicit(values, known).value <==> exists v | v in values :: Names(v, s)
  {
    hide IsExplicit, IsExplicitEntry, Names, ReadExactSlot, ReadExplicit, SlotJson, StableSlot;
    ExplicitExactly(values, known);
    forall v | v in values
      ensures IsExplicit(v, known) <==> IsExplicitEntry(v) && exists s | s in known :: Names(v, s)
      ensures IsExplicit(v, known) ==> forall s :: SlotJson(s) == v && StableSlot(s) <==> Names(v, s)
    {
      ExplicitEntryExactly(v, known);
      ExplicitParses(v, known);
    }
    if ReadExplicit(values, known).Ok? {
      forall s ensures s in ReadExplicit(values, known).value <==> exists v | v in values :: Names(v, s) {
        NamedOnlyByItself(values, s);
      }
    }
  }

  lemma ExplicitParses(v: Json, known: set<Slot>)
    ensures IsExplicit(v, known) ==> ReadExactSlot(v).Ok?
  {
    hide ReadExactSlot;
  }

  lemma NamedOnlyByItself(values: seq<Json>, s: Slot)
    requires forall v | v in values :: SlotJson(s) == v && StableSlot(s) <==> Names(v, s)
    ensures SlotJson(s) in values && StableSlot(s) <==> exists v | v in values :: Names(v, s)
  {
    hide SlotJson, StableSlot, Names;
  }

  /******* Acceptance and output *******/

  ghost predicate Accepts(profile: string, bundle: Fields, descriptor: Fields) {
    && profile in {"CORE", "INTEROP", "EXTENDED"}
    && AcceptsBases(descriptor) && AcceptsComponents(bundle, descriptor) && AcceptsExplicits(bundle, descriptor)
  }

  lemma ListedExactly(v: Json, entries: seq<Json>, known: set<Slot>)
    requires forall s :: s in known <==> exists w | w in entries :: Names(w, s)
    ensures IsListed(v, entries) <==> exists s | s in known :: Names(v, s)
  {
    hide Names;
    if s :| s in known && Names(v, s) {
      var w :| w in entries && Names(w, s);
    }
  }

  lemma ExplicitStageExactly(bundle: Fields, descriptor: Fields, known: set<Slot>)
    requires forall s :: s in known <==> exists w | w in Bases(descriptor) + Components(bundle) :: Names(w, s)
    ensures var delivery := Mapping(Get(bundle, "deliveryProfile"));
      && (AcceptsExplicits(bundle, descriptor)
          <==> delivery.Ok? && Sequence(Some(ExplicitValue(delivery.value))).Ok?
               && ReadExplicit(Sequence(Some(ExplicitValue(delivery.value))).value, known).Ok?)
      && (AcceptsExplicits(bundle, descriptor) ==>
            forall s :: s in ReadExplicit(Sequence(Some(ExplicitValue(delivery.value))).value, known).value
              <==> exists v | v in Explicits(bundle) :: Names(v, s))
  {
    hide ReadExplicit, IsExplicitEntry, Names, NoneTwice, IsListed;
    var delivery := Mapping(Get(bundle, "deliveryProfile"));
    if delivery.Ok? && Sequence(Some(ExplicitValue(delivery.value))).Ok? {
      assert Explicits(bundle) == Sequence(Some(ExplicitValue(delivery.value))).value;
      ExplicitsAreRead(Explicits(bundle), known);
      forall v | v in Explicits(bundle)
        ensures IsListed(v, Bases(descriptor) + Components(bundle)) <==> exists s | s in known :: Names(v, s)
      {
        ListedExactly(v, Bases(descriptor) + Components(bundle), known);
      }
    }
  }

  /** The generator succeeds exactly on what it accepts. */
  lemma GeneratesExactly(profile: string, bundle: Fields, descriptor: Fields)
    ensures Compute(profile, bundle, descriptor).Ok? <==> Accepts(profile, bundle, descriptor)
  {
    hide BaseSlots, ReadComponents, ReadExplicit, AcceptsBases, AcceptsComponents, AcceptsExplicits, Distinct, Sort, Unique, Names;
    hide Gathers, StateInv, Items, IsRequiredFor, AllBaseIdentities, Bases, Components;
    assert forall p :: p in PROFILES <==> p in {"CORE", "INTEROP", "EXTENDED"};
    BasesAreRead(descriptor);
    if profile in PROFILES && BaseSlots(descriptor).Ok? {
      ComponentsAreRead(bundle, descriptor, profile);
      if AcceptsComponents(bundle, descriptor) {
        var st := ReadComponents(Components(bundle), BaseSlots(descriptor).value, profile).value;
        ReadSlotsMakeDistinct(bundle, descriptor, profile);
        ExplicitStageExactly(bundle, descriptor, SetOf(st.slots));
      }
    }
  }

  lemma ReadSlotsMakeDistinct(bundle: Fields, descriptor: Fields, profile: string)
    requires BaseSlots(descriptor).Ok? && AcceptsComponents(bundle, descriptor)
    requires ReadComponents(Components(bundle), BaseSlots(descriptor).value, profile).Ok?
    ensures Distinct(ReadComponents(Components(bundle), BaseSlots(descriptor).value, profile).value.slots)
  {
    hide ReadBase, ReadComponents, Distinct, HasTypes, OnlyTypes, AcceptsComponents;
    ReadSlotsAreDistinct(Bases(descriptor), Components(bundle), profile);
  }

  /** A slot that some entry requires. */
  ghost predicate IsRequired(s: Slot, profile: string, bundle: Fields, descriptor: Fields) {
    || (exists v | v in Bases(descriptor) :: Names(v, s))
    || (exists v | v in Components(bundle) :: Names(v, s) && IsRequiredFor(v, profile))
    || (exists v | v in Explicits(bundle) :: Names(v, s))
  }

  /** The output lists the fixed base slots, the components required for the profile and the explicitly
      required slots, and no others. */
  lemma GeneratedSlotsExactly(profile: string, bundle: Fields, descriptor: Fields)
    requires Compute(profile, bundle, descriptor).Ok?
    ensures forall s :: s in Compute(profile, bundle, descriptor).value.0 <==> IsRequired(s, profile, bundle, descriptor)
  {
    hide BaseSlots, ReadComponents, ReadExplicit, AcceptsBases, AcceptsComponents, AcceptsExplicits, Distinct, Sort, Unique, Names;
    hide Gathers, StateInv, Items, IsRequiredFor, AllBaseIdentities, Bases, Components;
    GeneratesExactly(profile, bundle, descriptor);
    BasesAreRead(descriptor);
    ComponentsAreRead(bundle, descriptor, profile);
    var base := BaseSlots(descriptor).value;
    var st := ReadComponents(Components(bundle), base, profile).value;
    ExplicitStageExactly(bundle, descriptor, SetOf(st.slots));
    var delivery := bundle["deliveryProfile"].fields;
    var explicits := ReadExplicit(Sequence(Some(ExplicitValue(delivery))).value, SetOf(st.slots)).value;
    UniqueMembers(base.slots + st.chosen + explicits);
    SortMembers(Unique(base.slots + st.chosen + explicits));
  }

  /** Every slot that a base slot or a component names gets the authority of that entry. */
  lemma AuthoritiesExactly(profile: string, bundle: Fields, descriptor: Fields)
    requires Compute(profile, bundle, descriptor).Ok?
    ensures var authorities := Compute(profile, bundle, descriptor).value.1;
      forall v, s | v in Bases(descriptor) + Components(bundle) && Names(v, s) ::
        s in authorities && Authorises(v, authorities[s])
  {
    hide BaseSlots, ReadComponents, ReadExplicit, AcceptsBases, AcceptsComponents, AcceptsExplicits, Distinct, Sort, Unique, Names;
    hide Gathers, StateInv, Items, IsRequiredFor, AllBaseIdentities, Bases, Components, Authorises, BaseItem, ComponentItem;
    hide IsBaseEntry, IsComponentEntry;
    GeneratesExactly(profile, bundle, descriptor);
    BasesAreRead(descriptor);
    ComponentsAreRead(bundle, descriptor, profile);
    AcceptedEntries(bundle, descriptor);
    var base := BaseSlots(descriptor).value;
    var st := ReadComponents(Components(bundle), base, profile).value;
    forall v, s | v in Bases(descriptor) + Components(bundle) && Names(v, s)
      ensures s in st.authorities && Authorises(v, st.authorities[s])
    {
      if v in Bases(descriptor) {
        BaseItemExactly(v);
        GatheredAuthority(Bases(descriptor), BaseItem, v, START, base);
        KeptAuthority(Items(Components(bundle), ForProfile(profile)), base, st, s);
      } else {
        ComponentItemExactly(v, profile);
        GatheredAuthority(Components(bundle), ForProfile(profile), v, base, st);
      }
    }
  }

  lemma AcceptedEntries(bundle: Fields, descriptor: Fields)
    ensures AcceptsBases(descriptor) ==> forall v | v in Bases(descriptor) :: IsBaseEntry(v)
    ensures AcceptsComponents(bundle, descriptor) ==> forall v | v in Components(bundle) :: IsComponentEntry(v)
  {
  }

  lemma GatheredAuthority(values: seq<Json>, f: Json -> Option<Item>, v: Json, start: State, st: State)
    requires Gathers(Items(values, f), start, st) && v in values && f(v).Some?
    ensures f(v).value.slot in st.authorities && st.authorities[f(v).value.slot] == f(v).value.authority
  {
    var i :| 0 <= i < |values| && values[i] == v;
    assert Items(values, f)[i] == f(v);
    assert f(v) in Items(values, f);
  }

  lemma KeptAuthority(items: seq<Option<Item>>, start: State, st: State, s: Slot)
    requires Gathers(items, start, st) && s in start.authorities
    ensures s in st.authorities && st.authorities[s] == start.authorities[s]
  {
  }

  /******* The order *******/

  /** By type, then principal, then node, each by its code points. */
  ghost predicate ComesBefore(a: Slot, b: Slot) {
    if a.componentType != b.componentType then Utf8.Before(a.componentType, b.componentType)
    else if a.principal != b.principal then Utf8.Before(a.principal, b.principal)
    else Utf8.Before(a.nodeId, b.nodeId)
  }

  /** The byte-wise order of the triples is their order by code points. */
  lemma LessExactly(a: Slot, b: Slot)
    ensures Less(a, b) <==> ComesBefore(a, b)
  {
    hide Utf8.Encode, Utf8.Less, Utf8.Before;
    Utf8.EncodeExactly(a.componentType, b.componentType);
    Utf8.EncodeExactly(a.principal, b.principal);
    Utf8.EncodeExactly(a.nodeId, b.nodeId);
  }

  /** The output is the one listing of the required slots in which each comes before all later ones. */
  lemma GeneratedOrderExactly(profile: string, bundle: Fields, descriptor: Fields, slots: seq<Slot>)
    requires Compute(profile, bundle, descriptor).Ok?
    ensures slots == Compute(profile, bundle, descriptor).value.0
       <==> && (forall s :: s in slots <==> IsRequired(s, profile, bundle, descriptor))
            && (forall i, j | 0 <= i < j < |slots| :: ComesBefore(slots[i], slots[j]))
  {
    hide Compute, IsRequired, ComesBefore, Less;
    var generated := Compute(profile, bundle, descriptor).value.0;
    GeneratedSlotsExactly(profile, bundle, descriptor);
    OutputIsSorted(profile, bundle, descriptor);
    forall a, b ensures Less(a, b) <==> ComesBefore(a, b) {
      LessExactly(a, b);
    }
    if (forall s :: s in slots <==> IsRequired(s, profile, bundle, descriptor))
       && (forall i, j | 0 <= i < j < |slots| :: ComesBefore(slots[i], slots[j]))
    {
      SortedIsCanonical(slots, generated);
    }
  }

  /******* The validator *******/

  /** The three fields of the slot and no others. */
  ghost predicate IsSlotRecord(v: Json, s: Slot) {
    Names(v, s) && v.fields.Keys == {"componentType", "componentPrincipal", "nodeId"}
  }

  /** The fields of the slot, the authority of the entry that names it, and no others. */
  ghost predicate IsRecoveryRecord(v: Json, s: Slot, entries: seq<Json>) {
    && Names(v, s)
    && v.fields.Keys == {"componentType", "componentPrincipal", "nodeId", "verificationMethod", "expectedDigest"}
    && exists w, a | w in entries && Names(w, s) && Authorises(w, a) :: Authorises(v, a)
  }

  ghost predicate ListsSlots(values: seq<Json>, slots: seq<Slot>) {
    |values| == |slots| && forall i | 0 <= i < |values| :: IsSlotRecord(values[i], slots[i])
  }

  ghost predicate ListsAuthorities(values: seq<Json>, slots: seq<Slot>, entries: seq<Json>) {
    |values| == |slots| && forall i | 0 <= i < |values| :: IsRecoveryRecord(values[i], slots[i], entries)
  }

  lemma SlotJsonExactly(v: Json, s: Slot)
    ensures v == SlotJson(s) <==> IsSlotRecord(v, s)
  {
    if IsSlotRecord(v, s) {
      assert forall k | k in v.fields :: v.fields[k] == SlotFields(s)[k];
      assert v.fields == SlotFields(s);
    }
  }

  lemma RecoveryJsonExactly(v: Json, s: Slot, a: Authority)
    ensures v == RecoveryJson(s, a)
       <==> && Names(v, s) && Authorises(v, a)
            && v.fields.Keys == {"componentType", "componentPrincipal", "nodeId", "verificationMethod", "expectedDigest"}
  {
    var w := RecoveryJson(s, a);
    assert w.fields.Keys == {"componentType", "componentPrincipal", "nodeId", "verificationMethod", "expectedDigest"};
    if Names(v, s) && Authorises(v, a) && v.fields.Keys == w.fields.Keys {
      assert forall k | k in v.fields :: v.fields[k] == w.fields[k];
      assert v.fields == w.fields;
    }
  }

  lemma ListsSlotsExactly(values: seq<Json>, slots: seq<Slot>)
    ensures values == SlotsJson(slots) <==> ListsSlots(values, slots)
  {
    hide IsSlotRecord, SlotJson;
    forall i | 0 <= i < |values| && i < |slots| ensures values[i] == SlotJson(slots[i]) <==> IsSlotRecord(values[i], slots[i]) {
      SlotJsonExactly(values[i], slots[i]);
    }
    if ListsSlots(values, slots) {
      forall i | 0 <= i < |values| ensures values[i] == SlotsJson(slots)[i] {
      }
    }
  }

  /** An entry has one authority, and the entry of a slot has the one recorded for the slot. */
  lemma RecoveryRecordExactly(v: Json, s: Slot, a: Authority, entries: seq<Json>)
    requires forall w | w in entries && Names(w, s) :: Authorises(w, a)
    requires exists w | w in entries :: Names(w, s)
    ensures v == RecoveryJson(s, a) <==> IsRecoveryRecord(v, s, entries)
  {
    hide RecoveryJson;
    RecoveryJsonExactly(v, s, a);
    forall w, b | Authorises(w, a) && Authorises(w, b) ensures a == b {
    }
  }

  lemma ListsAuthoritiesExactly(values: seq<Json>, slots: seq<Slot>, authorities: map<Slot, Authority>, entries: seq<Json>)
    requires forall s | s in slots :: s in authorities
    requires forall v, s | v in entries && Names(v, s) :: s in authorities && Authorises(v, authorities[s])
    requires forall s | s in slots :: exists v | v in entries :: Names(v, s)
    ensures values == RecoveriesJson(Pairs(slots, authorities)) <==> ListsAuthorities(values, slots, entries)
  {
    hide Names, Authorises, RecoveryJson, IsRecoveryRecord;
    forall i | 0 <= i < |values| && i < |slots|
      ensures values[i] == RecoveryJson(slots[i], authorities[slots[i]]) <==> IsRecoveryRecord(values[i], slots[i], entries)
    {
      assert slots[i] in slots;
      RecoveryRecordExactly(values[i], slots[i], authorities[slots[i]], entries);
    }
    var written := RecoveriesJson(Pairs(slots, authorities));
    assert |written| == |slots| && forall i | 0 <= i < |slots| :: written[i] == RecoveryJson(slots[i], authorities[slots[i]]);
    if ListsAuthorities(values, slots, entries) {
      forall i | 0 <= i < |values| ensures values[i] == written[i] {
      }
    }
  }

  /** A required slot is a base slot or a component. */
  lemma RequiredIsKnown(s: Slot, profile: string, bundle: Fields, descriptor: Fields)
    requires IsRequired(s, profile, bundle, descriptor) && AcceptsExplicits(bundle, descriptor)
    ensures exists v | v in Bases(descriptor) + Components(bundle) :: Names(v, s)
  {
    hide IsExplicitEntry, IsRequiredFor, NoneTwice, Bases, Components, Explicits, Names;
    if v :| v in Explicits(bundle) && Names(v, s) {
      assert IsListed(v, Bases(descriptor) + Components(bundle));
      var w, t :| w in Bases(descriptor) + Components(bundle) && Names(w, t) && Names(v, t);
      NamesOne(v, s, t);
    }
  }

  lemma NamesOne(v: Json, s: Slot, t: Slot)
    requires Names(v, s) && Names(v, t)
    ensures s == t
  {
  }

  /** The bundle carries both projections of these slots. */
  ghost predicate CarriesListings(bundle: Fields, descriptor: Fields, slots: seq<Slot>) {
    && IsArray(Delivery(bundle), "requiredSlots")
    && ListsSlots(Delivery(bundle)["requiredSlots"].items, slots)
    && "recoveryPolicy" in bundle && bundle["recoveryPolicy"].Object?
    && IsArray(bundle["recoveryPolicy"].fields, "requiredComponents")
    && ListsAuthorities(bundle["recoveryPolicy"].fields["requiredComponents"].items, slots, Bases(descriptor) + Components(bundle))
  }

  /** The validator returns some slots exactly if descriptor and bundle are well formed, these are the
      required slots in order, and the bundle lists them, with the authorities in its recovery policy. */
  lemma ValidatesExactly(profile: string, bundle: Fields, descriptor: Fields, slots: seq<Slot>)
    ensures RequiredSlotSet(profile, bundle, descriptor) == Ok(slots)
       <==> && Accepts(profile, bundle, descriptor)
            && (forall s :: s in slots <==> IsRequired(s, profile, bundle, descriptor))
            && (forall i, j | 0 <= i < j < |slots| :: ComesBefore(slots[i], slots[j]))
            && CarriesListings(bundle, descriptor, slots)
  {
    hide Compute, RequiredSlotSet, IsRequired, ComesBefore, AcceptsBases, AcceptsComponents, AcceptsExplicits;
    hide StableSlot, StableAuthority, ListsSlots, ListsAuthorities, SlotsJson, RecoveriesJson, Names, Authorises, Bases, Components;
    ValidatorAcceptsExactly(profile, bundle, descriptor, slots);
    GeneratesExactly(profile, bundle, descriptor);
    if Accepts(profile, bundle, descriptor) {
      GeneratedOrderExactly(profile, bundle, descriptor, slots);
      var (generated, authorities) := Compute(profile, bundle, descriptor).value;
      if slots == generated {
        ProjectionsExactly(profile, bundle, descriptor);
      }
    }
  }

  lemma ProjectionsExactly(profile: string, bundle: Fields, descriptor: Fields)
    requires Compute(profile, bundle, descriptor).Ok?
    ensures SlotProjection(profile, bundle, descriptor).Ok? && RecoveryProjection(profile, bundle, descriptor).Ok?
    ensures Carries(bundle, SlotProjection(profile, bundle, descriptor).value, RecoveryProjection(profile, bundle, descriptor).value)
       <==> CarriesListings(bundle, descriptor, Compute(profile, bundle, descriptor).value.0)
  {
    hide Compute, IsRequired, AcceptsBases, AcceptsComponents, AcceptsExplicits;
    hide StableSlot, StableAuthority, ListsSlots, ListsAuthorities, SlotsJson, RecoveriesJson, Names, Authorises, Bases, Components;
    var (slots, authorities) := Compute(profile, bundle, descriptor).value;
    GeneratedFacts(profile, bundle, descriptor);
    AllHaveAuthority(slots, authorities);
    GeneratesExactly(profile, bundle, descriptor);
    GeneratedSlotsExactly(profile, bundle, descriptor);
    AuthoritiesExactly(profile, bundle, descriptor);
    forall s | s in slots ensures exists v | v in Bases(descriptor) + Components(bundle) :: Names(v, s) {
      RequiredIsKnown(s, profile, bundle, descriptor);
    }
    if IsArray(Delivery(bundle), "requiredSlots") {
      ListsSlotsExactly(Delivery(bundle)["requiredSlots"].items, slots);
    }
    if "recoveryPolicy" in bundle && bundle["recoveryPolicy"].Object? && IsArray(bundle["recoveryPolicy"].fields, "requiredComponents") {
      ListsAuthoritiesExactly(bundle["recoveryPolicy"].fields["requiredComponents"].items, slots, authorities,
                              Bases(descriptor) + Components(bundle));
    }
  }
}
