/** The order in which a bundle lists things does not matter: not for base slots, components or
    explicit slots, nor for the profiles of a component. */
module SlotPermutations {
  import opened Wrappers
  import opened Text
  import opened Slots
  import opened SlotTheorems

  /******* Readers as folds over items *******/

  /** What one entry contributes, once it has parsed. */
  datatype Item = Item(slot: Slot, identities: seq<string>, authority: Authority, chosen: bool)

  function BaseItem(v: Json): Option<Item> {
    if !v.Object? then None
    else
      var slot, reporter, nkey, authority := ReadSlot(v.fields), StableText(Get(v.fields, "readyReporterPrincipal")),
        StableText(Get(v.fields, "probeNkeySelector")), ReadAuthority(v.fields);
      if slot.Ok? && reporter.Ok? && nkey.Ok? && authority.Ok?
      then Some(Item(slot.value, [slot.value.principal, reporter.value, nkey.value], authority.value, false))
      else None
  }

  function ComponentItem(v: Json, profile: string): Option<Item> {
    if !v.Object? then None
    else
      var slot, nkey, authority, values := ReadSlot(v.fields), StableText(Get(v.fields, "nkeySelector")),
        ReadAuthority(v.fields), Sequence(Get(v.fields, "requiredForProfiles"));
      if slot.Ok? && slot.value.componentType != "merge-broker" && nkey.Ok? && authority.Ok? && values.Ok?
         && ReadProfiles(values.value).Ok? && Distinct(ReadProfiles(values.value).value)
      then Some(Item(slot.value, [slot.value.principal, nkey.value], authority.value,
                     profile in ReadProfiles(values.value).value))
      else None
  }

  function Absorb(st: State, item: Item): Option<State> {
    var owners := Claim(st.owners, item.identities);
    if owners.Err? then None
    else Some(State(owners.value, st.slots + [item.slot],
                    if item.chosen then st.chosen + [item.slot] else st.chosen,
                    st.authorities[item.slot := item.authority]))
  }

  function AbsorbAll(items: seq<Option<Item>>, start: State): Option<State> {
    if items == [] then Some(start)
    else
      var before, last := AbsorbAll(items[..|items| - 1], start), items[|items| - 1];
      if before.None? || last.None? then None else Absorb(before.value, last.value)
  }

  function Items(values: seq<Json>, f: Json -> Option<Item>): seq<Option<Item>> {
    seq(|values|, i requires 0 <= i < |values| => f(values[i]))
  }

  function AsOption<T, E>(r: Result<T, E>): Option<T> {
    if r.Ok? then Some(r.value) else None
  }

  lemma BaseStepAbsorbs(st: State, v: Json)
    ensures AsOption(BaseStep(st, v)) == if BaseItem(v).Some? then Absorb(st, BaseItem(v).value) else None
  {
    hide Claim, ReadSlot, ReadAuthority, Stable;
  }

  lemma ComponentStepAbsorbs(st: State, v: Json, profile: string)
    ensures AsOption(ComponentStep(st, v, profile))
         == if ComponentItem(v, profile).Some? then Absorb(st, ComponentItem(v, profile).value) else None
  {
    hide Claim, ReadSlot, ReadAuthority, Stable, ReadProfiles, Distinct;
  }

  lemma {:induction false} BaseAbsorbs(values: seq<Json>)
    ensures AsOption(ReadBase(values)) == AbsorbAll(Items(values, BaseItem), START)
  {
    hide BaseStep, BaseItem, Absorb;
    if values != [] {
      var n := |values| - 1;
      BaseAbsorbs(values[..n]);
      assert Items(values, BaseItem)[..n] == Items(values[..n], BaseItem);
      if ReadBase(values[..n]).Ok? {
        BaseStepAbsorbs(ReadBase(values[..n]).value, values[n]);
      }
    }
  }

  function ForProfile(profile: string): Json -> Option<Item> {
    (v: Json) => ComponentItem(v, profile)
  }

  lemma {:induction false} ComponentsAbsorb(values: seq<Json>, start: State, profile: string)
    ensures AsOption(ReadComponents(values, start, profile)) == AbsorbAll(Items(values, ForProfile(profile)), start)
  {
    hide ComponentStep, ComponentItem, Absorb;
    if values != [] {
      var n := |values| - 1;
      ComponentsAbsorb(values[..n], start, profile);
      assert Items(values, ForProfile(profile))[..n] == Items(values[..n], ForProfile(profile));
      if ReadComponents(values[..n], start, profile).Ok? {
        ComponentStepAbsorbs(ReadComponents(values[..n], start, profile).value, values[n], profile);
      }
    }
  }

  /******* A fold that only depends on the bag of items *******/

  function IdentitiesOf(o: Option<Item>): multiset<string> {
    if o.Some? then multiset(o.value.identities) else multiset{}
  }

  /** Every identity claimed, with how often. */
  function Bag(items: seq<Option<Item>>): multiset<string> {
    if items == [] then multiset{}
    else Bag(items[..|items| - 1]) + IdentitiesOf(items[|items| - 1])
  }

  function Remove<T>(xs: seq<T>, k: nat): seq<T>
    requires k < |xs|
  {
    xs[..k] + xs[k + 1..]
  }

  lemma RemoveAndLast<T>(xs: seq<T>, k: nat)
    requires k < |xs| - 1
    ensures Remove(xs, k) == Remove(xs[..|xs| - 1], k) + [xs[|xs| - 1]]
  {
  }

  lemma RemoveBag<T>(xs: seq<T>, k: nat)
    requires k < |xs|
    ensures multiset(Remove(xs, k)) == multiset(xs) - multiset{xs[k]}
  {
    assert xs == xs[..k] + [xs[k]] + xs[k + 1..];
  }

  lemma BagAppend(items: seq<Option<Item>>, o: Option<Item>)
    ensures Bag(items + [o]) == Bag(items) + IdentitiesOf(o)
  {
    assert (items + [o])[..|items|] == items;
  }

  lemma {:induction false} BagWithout(items: seq<Option<Item>>, k: nat)
    requires k < |items|
    ensures Bag(items) == Bag(Remove(items, k)) + IdentitiesOf(items[k])
  {
    hide Remove, IdentitiesOf;
    var n := |items| - 1;
    assert items == items[..n] + [items[n]];
    if k == n {
      RemoveLast(items);
    } else {
      BagWithout(items[..n], k);
      RemoveAndLast(items, k);
      BagAppend(Remove(items[..n], k), items[n]);
    }
  }

  lemma RemoveLast<T>(xs: seq<T>)
    requires xs != []
    ensures Remove(xs, |xs| - 1) == xs[..|xs| - 1]
  {
  }

  lemma {:induction false} BagPermutes(xs: seq<Option<Item>>, ys: seq<Option<Item>>)
    requires multiset(xs) == multiset(ys)
    ensures Bag(xs) == Bag(ys)
    decreases |xs|
  {
    hide Remove, IdentitiesOf;
    if xs == [] {
      assert |multiset(ys)| == 0;
    } else {
      var n := |xs| - 1;
      assert xs[n] in multiset(xs);
      var k :| 0 <= k < |ys| && ys[k] == xs[n];
      RemoveBag(ys, k);
      RemoveBag(xs, n);
      RemoveLast(xs);
      BagPermutes(xs[..n], Remove(ys, k));
      BagWithout(ys, k);
    }
  }

  /** No identity is claimed twice, or claimed again. */
  ghost predicate Claimable(items: seq<Option<Item>>, owners: set<string>) {
    && (forall o | o in items :: o.Some?)
    && (forall x | x in Bag(items) :: x !in owners && Bag(items)[x] == 1)
  }

  lemma ClaimableClaims(before: seq<Option<Item>>, item: Item, owners: set<string>)
    requires Claimable(before + [Some(item)], owners)
    ensures Claim(owners + (set x | x in Bag(before)), item.identities).Ok?
  {
    var items, ids := before + [Some(item)], item.identities;
    var claimed := owners + set x | x in Bag(before);
    BagAppend(before, Some(item));
    ClaimExactly(claimed, ids);
    DistinctIsOnce(ids);
    forall i | 0 <= i < |ids| ensures ids[i] !in claimed {
      assert ids[i] in multiset(ids);
      assert ids[i] in Bag(items);
    }
    forall x | x in multiset(ids) ensures multiset(ids)[x] == 1 {
      assert x in Bag(items);
    }
  }

  /** A claim for one item succeeds exactly if the bag stays without repetition. */
  lemma ClaimStep(before: seq<Option<Item>>, item: Item, owners: set<string>)
    requires Claimable(before, owners)
    ensures var claimed := owners + (set x | x in Bag(before));
      Claim(claimed, item.identities).Ok? <==> Claimable(before + [Some(item)], owners)
  {
    var items, ids := before + [Some(item)], item.identities;
    var claimed := owners + set x | x in Bag(before);
    assert items[..|before|] == before && Bag(items) == Bag(before) + multiset(ids);
    ClaimExactly(claimed, ids);
    DistinctIsOnce(ids);
    assert forall o | o in items :: o in before || o == Some(item);
    if Claim(claimed, ids).Ok? {
      forall x | x in Bag(items) ensures x !in owners && Bag(items)[x] == 1 {
        if x in multiset(ids) {
          assert x in ids;
        }
      }
    }
    if Claimable(items, owners) {
      ClaimableClaims(before, item, owners);
    }
  }

  lemma {:induction false} DistinctIsOnce(xs: seq<string>)
    ensures Distinct(xs) <==> forall x | x in multiset(xs) :: multiset(xs)[x] == 1
  {
    if xs != [] {
      var n := |xs| - 1;
      DistinctIsOnce(xs[..n]);
      assert xs == xs[..n] + [xs[n]];
      assert multiset(xs) == multiset(xs[..n]) + multiset{xs[n]};
      if Distinct(xs) {
        assert xs[n] !in xs[..n];
      } else if forall x | x in multiset(xs) :: multiset(xs)[x] == 1 {
        assert multiset(xs)[xs[n]] == 1;
        assert xs[n] !in multiset(xs[..n]);
        assert xs[n] !in xs[..n];
        forall x | x in multiset(xs[..n]) ensures multiset(xs[..n])[x] == 1 {
          assert x in multiset(xs);
        }
      }
    }
  }

  ghost predicate HasSlot(items: seq<Option<Item>>, s: Slot) {
    exists o | o in items :: o.Some? && o.value.slot == s
  }

  ghost predicate HasChosen(items: seq<Option<Item>>, s: Slot) {
    exists o | o in items :: o.Some? && o.value.slot == s && o.value.chosen
  }

  ghost predicate Principled(items: seq<Option<Item>>) {
    forall o | o in items && o.Some? :: o.value.slot.principal in o.value.identities
  }

  /** The state that these items lead to, whatever their order. */
  ghost predicate Gathers(items: seq<Option<Item>>, start: State, st: State) {
    && st.owners == start.owners + (set x | x in Bag(items))
    && (forall s :: s in st.slots <==> s in start.slots || HasSlot(items, s))
    && (forall s :: s in st.chosen <==> s in start.chosen || HasChosen(items, s))
    && (forall s :: s in st.authorities <==> s in start.authorities || HasSlot(items, s))
    && (forall s | s in start.authorities :: s in st.authorities && st.authorities[s] == start.authorities[s])
    && (forall o | o in items && o.Some? ::
          o.value.slot in st.authorities && st.authorities[o.value.slot] == o.value.authority)
  }

  lemma HasSlotStep(before: seq<Option<Item>>, item: Item, s: Slot)
    ensures HasSlot(before + [Some(item)], s) <==> HasSlot(before, s) || s == item.slot
    ensures HasChosen(before + [Some(item)], s) <==> HasChosen(before, s) || (s == item.slot && item.chosen)
  {
    var items := before + [Some(item)];
    assert items[|before|] == Some(item);
    assert forall o | o in before :: o in items;
  }

  /** Principals known to the state are claimed, so no later item can bring the same slot. */
  ghost predicate Guarded(start: State) {
    forall s | s in start.authorities :: s.principal in start.owners
  }

  lemma EarlierPrincipals(before: seq<Option<Item>>, o: Option<Item>, x: string)
    requires o in before && o.Some? && x in o.value.identities
    ensures x in Bag(before)
  {
    var k :| 0 <= k < |before| && before[k] == o;
    BagWithout(before, k);
    assert x in multiset(o.value.identities);
  }

  lemma GatherAuthorities(before: seq<Option<Item>>, item: Item, start: State, st: State)
    requires Gathers(before, start, st) && Guarded(start) && Principled(before)
    requires Absorb(st, item).Some? && item.slot.principal !in st.owners
    ensures var items, st' := before + [Some(item)], Absorb(st, item).value;
      && (forall s | s in start.authorities :: s in st'.authorities && st'.authorities[s] == start.authorities[s])
      && (forall o | o in items && o.Some? ::
            o.value.slot in st'.authorities && st'.authorities[o.value.slot] == o.value.authority)
  {
    var items, st' := before + [Some(item)], Absorb(st, item).value;
    forall o | o in items && o.Some?
      ensures o.value.slot in st'.authorities && st'.authorities[o.value.slot] == o.value.authority
    {
      if o in before {
        EarlierPrincipals(before, o, o.value.slot.principal);
      } else {
        assert o == Some(item);
      }
    }
  }

  lemma GatherStep(before: seq<Option<Item>>, item: Item, start: State, st: State)
    requires Gathers(before, start, st) && Guarded(start) && Principled(before) && item.slot.principal in item.identities
    requires Absorb(st, item).Some?
    ensures Gathers(before + [Some(item)], start, Absorb(st, item).value)
  {
    var items, st' := before + [Some(item)], Absorb(st, item).value;
    ClaimExactly(st.owners, item.identities);
    BagAppend(before, Some(item));
    GatherAuthorities(before, item, start, st);
    forall s ensures (s in st'.slots <==> s in start.slots || HasSlot(items, s))
      && (s in st'.chosen <==> s in start.chosen || HasChosen(items, s))
      && (s in st'.authorities <==> s in start.authorities || HasSlot(items, s))
    {
      HasSlotStep(before, item, s);
    }
  }

  lemma {:induction false} AbsorbExactly(items: seq<Option<Item>>, start: State)
    requires Guarded(start) && Principled(items)
    ensures AbsorbAll(items, start).Some? <==> Claimable(items, start.owners)
    ensures AbsorbAll(items, start).Some? ==> Gathers(items, start, AbsorbAll(items, start).value)
  {
    if items != [] {
      hide Claimable, Gathers, Absorb;
      var before, last := items[..|items| - 1], items[|items| - 1];
      assert items == before + [last];
      AbsorbExactly(before, start);
      ClaimableBefore(before, last, start.owners);
      if AbsorbAll(before, start).Some? && last.Some? {
        var st := AbsorbAll(before, start).value;
        ClaimStep(before, last.value, start.owners);
        AbsorbsIfClaimed(before, start, st, last.value);
        if Absorb(st, last.value).Some? {
          GatherStep(before, last.value, start, st);
        }
      }
    } else {
      NothingGathers(start);
    }
  }

  lemma NothingGathers(start: State)
    ensures Claimable([], start.owners) && Gathers([], start, start)
  {
  }

  lemma ClaimableBefore(before: seq<Option<Item>>, last: Option<Item>, owners: set<string>)
    ensures Claimable(before + [last], owners) ==> Claimable(before, owners) && last.Some?
  {
    BagAppend(before, last);
    assert (before + [last])[|before|] == last;
    if Claimable(before + [last], owners) {
      forall x | x in Bag(before) ensures x !in owners && Bag(before)[x] == 1 {
        assert x in Bag(before + [last]);
      }
    }
  }

  lemma AbsorbsIfClaimed(before: seq<Option<Item>>, start: State, st: State, item: Item)
    requires Gathers(before, start, st)
    ensures Absorb(st, item).Some? <==> Claim(start.owners + (set x | x in Bag(before)), item.identities).Ok?
  {
  }

  /** Two states that differ at most in the order of their lists. */
  ghost predicate SameState(a: State, b: State) {
    && a.owners == b.owners && a.authorities == b.authorities
    && (forall s :: s in a.slots <==> s in b.slots)
    && (forall s :: s in a.chosen <==> s in b.chosen)
  }

  lemma SameMembers<T>(xs: seq<T>, ys: seq<T>)
    requires multiset(xs) == multiset(ys)
    ensures forall x :: x in xs <==> x in ys
  {
    forall x ensures x in xs <==> x in ys {
      assert x in xs <==> x in multiset(xs);
      assert x in ys <==> x in multiset(ys);
    }
  }

  lemma AbsorbPermutes(xs: seq<Option<Item>>, ys: seq<Option<Item>>, a: State, b: State)
    requires multiset(xs) == multiset(ys) && SameState(a, b) && Guarded(a) && Principled(xs)
    ensures AbsorbAll(xs, a).Some? <==> AbsorbAll(ys, b).Some?
    ensures AbsorbAll(xs, a).Some? ==> SameState(AbsorbAll(xs, a).value, AbsorbAll(ys, b).value)
  {
    SameMembers(xs, ys);
    BagPermutes(xs, ys);
    AbsorbExactly(xs, a);
    AbsorbExactly(ys, b);
    if AbsorbAll(xs, a).Some? {
      GatheredStatesAgree(xs, ys, a, b, AbsorbAll(xs, a).value, AbsorbAll(ys, b).value);
    }
  }

  lemma SameHas(xs: seq<Option<Item>>, ys: seq<Option<Item>>, s: Slot)
    requires forall o :: o in xs <==> o in ys
    ensures HasSlot(xs, s) <==> HasSlot(ys, s)
    ensures HasChosen(xs, s) <==> HasChosen(ys, s)
  {
  }

  lemma AuthoritiesAgree(xs: seq<Option<Item>>, ys: seq<Option<Item>>, a: State, b: State, st: State, st': State)
    requires a.authorities == b.authorities && Gathers(xs, a, st) && Gathers(ys, b, st')
    requires forall o :: o in xs <==> o in ys
    ensures st.authorities == st'.authorities
  {
    forall s ensures s in st.authorities <==> s in st'.authorities {
      SameHas(xs, ys, s);
    }
    forall s | s in st.authorities ensures st.authorities[s] == st'.authorities[s] {
      if s !in a.authorities {
        assert HasSlot(xs, s);
        var o :| o in xs && o.Some? && o.value.slot == s;
        assert o in ys;
      }
    }
  }

  lemma GatheredStatesAgree(xs: seq<Option<Item>>, ys: seq<Option<Item>>, a: State, b: State, st: State, st': State)
    requires SameState(a, b) && Gathers(xs, a, st) && Gathers(ys, b, st')
    requires Bag(xs) == Bag(ys) && forall o :: o in xs <==> o in ys
    ensures SameState(st, st')
  {
    hide HasSlot, HasChosen;
    AuthoritiesAgree(xs, ys, a, b, st, st');
    forall s ensures (HasSlot(xs, s) <==> HasSlot(ys, s)) && (HasChosen(xs, s) <==> HasChosen(ys, s)) {
      SameHas(xs, ys, s);
    }
  }

  /******* Rearranged input *******/

  lemma {:induction false} ItemsPermute(xs: seq<Json>, ys: seq<Json>, f: Json -> Option<Item>)
    requires multiset(xs) == multiset(ys)
    ensures multiset(Items(xs, f)) == multiset(Items(ys, f))
    decreases |xs|
  {
    hide Remove;
    if xs == [] {
      assert |multiset(ys)| == 0;
    } else {
      var n := |xs| - 1;
      assert xs[n] in multiset(xs);
      var k :| 0 <= k < |ys| && ys[k] == xs[n];
      RemoveBag(ys, k);
      RemoveBag(xs, n);
      RemoveLast(xs);
      ItemsPermute(xs[..n], Remove(ys, k), f);
      ItemsRemove(ys, k, f);
      ItemsRemove(xs, n, f);
      RemoveBag(Items(ys, f), k);
      RemoveBag(Items(xs, f), n);
      SameRest(multiset(Items(xs, f)), multiset(Items(ys, f)), f(xs[n]));
    }
  }

  lemma SameRest<T>(a: multiset<T>, b: multiset<T>, x: T)
    requires x in a && x in b && a - multiset{x} == b - multiset{x}
    ensures a == b
  {
    assert a == (a - multiset{x}) + multiset{x};
    assert b == (b - multiset{x}) + multiset{x};
  }

  lemma ItemsRemove(xs: seq<Json>, k: nat, f: Json -> Option<Item>)
    requires k < |xs|
    ensures Items(Remove(xs, k), f) == Remove(Items(xs, f), k)
    ensures Items(xs, f)[k] == f(xs[k]) && f(xs[k]) in multiset(Items(xs, f))
  {
  }

  lemma ItemsArePrincipled(values: seq<Json>, profile: string)
    ensures Principled(Items(values, BaseItem)) && Principled(Items(values, ForProfile(profile)))
  {
    forall i | 0 <= i < |values| && BaseItem(values[i]).Some?
      ensures BaseItem(values[i]).value.identities[0] == BaseItem(values[i]).value.slot.principal
    {
    }
    forall i | 0 <= i < |values| && ComponentItem(values[i], profile).Some?
      ensures ComponentItem(values[i], profile).value.identities[0] == ComponentItem(values[i], profile).value.slot.principal
    {
    }
  }

  /** The same component with its profiles in another order. */
  ghost predicate Respelled(v: Json, w: Json) {
    || v == w
    || exists ps: seq<Json>, qs: seq<Json> ::
         && multiset(ps) == multiset(qs) && v.Object? && w.Object?
         && Get(v.fields, "requiredForProfiles") == Some(Array(ps))
         && w.fields == v.fields["requiredForProfiles" := Array(qs)]
  }

  lemma {:induction false} ProfilesAreNames(values: seq<Json>)
    ensures ReadProfiles(values).Ok? <==> forall v | v in values :: v.Str? && v.text in PROFILES
    ensures ReadProfiles(values).Ok? ==>
              |ReadProfiles(values).value| == |values|
              && forall i | 0 <= i < |values| :: Str(ReadProfiles(values).value[i]) == values[i]
  {
    if values != [] {
      ProfilesAreNames(values[1..]);
      assert values == [values[0]] + values[1..];
    }
  }

  lemma DistinctPermutes<T>(xs: seq<T>, ys: seq<T>)
    requires multiset(xs) == multiset(ys) && Distinct(xs)
    ensures Distinct(ys)
  {
    forall i, j | 0 <= i < j < |ys| ensures ys[i] != ys[j] {
      if ys[i] == ys[j] {
        Twice(ys, i, j);
        OnceIfDistinct(xs, ys[i]);
      }
    }
  }

  lemma Twice<T>(xs: seq<T>, i: nat, j: nat)
    requires i < j < |xs| && xs[i] == xs[j]
    ensures multiset(xs)[xs[i]] >= 2
  {
    assert xs == xs[..i] + [xs[i]] + xs[i + 1..j] + [xs[j]] + xs[j + 1..];
  }

  lemma {:induction false} OnceIfDistinct<T>(xs: seq<T>, x: T)
    requires Distinct(xs)
    ensures multiset(xs)[x] <= 1
  {
    if xs != [] {
      var n := |xs| - 1;
      OnceIfDistinct(xs[..n], x);
      assert xs == xs[..n] + [xs[n]];
      if x == xs[n] {
        assert x !in xs[..n];
        assert x !in multiset(xs[..n]);
      }
    }
  }

  lemma ProfilesPermute(ps: seq<Json>, qs: seq<Json>, profile: string)
    requires multiset(ps) == multiset(qs)
    ensures var r, r' := ReadProfiles(ps), ReadProfiles(qs);
      (r.Ok? <==> r'.Ok?) && (r.Ok? ==> (Distinct(r.value) <==> Distinct(r'.value))
                                        && (profile in r.value <==> profile in r'.value))
  {
    SameMembers(ps, qs);
    ProfilesAreNames(ps);
    ProfilesAreNames(qs);
    if ReadProfiles(ps).Ok? {
      var r, r' := ReadProfiles(ps).value, ReadProfiles(qs).value;
      NamesAreDistinctTogether(ps, r);
      NamesAreDistinctTogether(qs, r');
      if Distinct(ps) {
        DistinctPermutes(ps, qs);
      }
      if Distinct(qs) {
        DistinctPermutes(qs, ps);
      }
      assert profile in r <==> Str(profile) in ps;
      assert profile in r' <==> Str(profile) in qs;
    }
  }

  lemma NamesAreDistinctTogether(values: seq<Json>, names: seq<string>)
    requires |values| == |names| && forall i | 0 <= i < |values| :: Str(names[i]) == values[i]
    ensures Distinct(values) <==> Distinct(names)
  {
    if Distinct(names) {
      forall i, j | 0 <= i < j < |values| ensures values[i] != values[j] {
        assert names[i] != names[j];
      }
    }
    if Distinct(values) {
      forall i, j | 0 <= i < j < |names| ensures names[i] != names[j] {
        assert values[i] != values[j];
      }
    }
  }

  lemma ProfilesApart(m: Fields, v: Json)
    ensures var m' := m["requiredForProfiles" := v];
      && ReadSlot(m') == ReadSlot(m) && ReadAuthority(m') == ReadAuthority(m)
      && StableText(Get(m', "nkeySelector")) == StableText(Get(m, "nkeySelector"))
      && Get(m', "requiredForProfiles") == Some(v)
  {
    hide Stable, IsLowerSha256;
  }

  lemma RespelledFields(m: Fields, ps: seq<Json>, qs: seq<Json>, profile: string)
    requires multiset(ps) == multiset(qs) && Get(m, "requiredForProfiles") == Some(Array(ps))
    ensures ComponentItem(Object(m), profile) == ComponentItem(Object(m["requiredForProfiles" := Array(qs)]), profile)
  {
    hide ReadSlot, ReadAuthority, StableText, ReadProfiles, Distinct;
    ProfilesPermute(ps, qs, profile);
    ProfilesApart(m, Array(qs));
  }

  lemma RespelledItem(v: Json, w: Json, profile: string)
    requires Respelled(v, w)
    ensures ComponentItem(v, profile) == ComponentItem(w, profile)
  {
    hide ComponentItem;
    if v != w {
      var ps: seq<Json>, qs: seq<Json> :| multiset(ps) == multiset(qs) && v.Object? && w.Object?
        && Get(v.fields, "requiredForProfiles") == Some(Array(ps)) && w.fields == v.fields["requiredForProfiles" := Array(qs)];
      RespelledFields(v.fields, ps, qs, profile);
    }
  }

  /** Permuted, with the profiles of each component permuted too. */
  ghost predicate SameComponents(xs: seq<Json>, ys: seq<Json>) {
    exists middle: seq<Json> :: multiset(middle) == multiset(xs) && Respells(middle, ys)
  }

  ghost predicate Respells(xs: seq<Json>, ys: seq<Json>) {
    |xs| == |ys| && forall i | 0 <= i < |xs| :: Respelled(xs[i], ys[i])
  }

  lemma ComponentItemsPermute(xs: seq<Json>, ys: seq<Json>, profile: string)
    requires SameComponents(xs, ys)
    ensures multiset(Items(xs, ForProfile(profile))) == multiset(Items(ys, ForProfile(profile)))
  {
    var middle: seq<Json> :| multiset(middle) == multiset(xs) && Respells(middle, ys);
    ItemsPermute(xs, middle, ForProfile(profile));
    forall i | 0 <= i < |middle| ensures ComponentItem(middle[i], profile) == ComponentItem(ys[i], profile) {
      RespelledItem(middle[i], ys[i], profile);
    }
    assert Items(middle, ForProfile(profile)) == Items(ys, ForProfile(profile));
  }

  /******* Explicit slots *******/

  ghost predicate IsExplicit(v: Json, known: set<Slot>) {
    var r := ReadExactSlot(v);
    r.Ok? && r.value.componentType != "merge-broker" && r.value in known
  }

  lemma ExplicitStep(before: seq<Json>, last: Json, known: set<Slot>)
    ensures var r, r' := ReadExplicit(before, known), ReadExplicit(before + [last], known);
      && (r'.Ok? <==> r.Ok? && IsExplicit(last, known) && ReadExactSlot(last).value !in r.value)
      && (r'.Ok? ==> r'.value == r.value + [ReadExactSlot(last).value])
  {
    hide ReadExactSlot;
    assert (before + [last])[..|before|] == before && (before + [last])[|before|] == last;
  }

  /** The slots whose projections these are. */
  ghost predicate AreSlotsOf(slots: seq<Slot>, values: seq<Json>) {
    forall s :: s in slots <==> SlotJson(s) in values && StableSlot(s)
  }

  lemma SlotJsonInjective(a: Slot, b: Slot)
    requires SlotJson(a) == SlotJson(b)
    ensures a == b
  {
    var m := SlotJson(a).fields;
    assert m["componentType"] == Str(b.componentType) && m["componentPrincipal"] == Str(b.principal) && m["nodeId"] == Str(b.nodeId);
  }

  ghost predicate AllExplicit(values: seq<Json>, known: set<Slot>) {
    forall v | v in values :: IsExplicit(v, known)
  }

  lemma AllExplicitStep(before: seq<Json>, last: Json, known: set<Slot>)
    ensures AllExplicit(before + [last], known) <==> AllExplicit(before, known) && IsExplicit(last, known)
  {
    hide IsExplicit;
    assert forall v :: v in before + [last] <==> v in before || v == last;
  }

  lemma SlotsOfStep(slots: seq<Slot>, values: seq<Json>, s: Slot)
    requires AreSlotsOf(slots, values) && StableSlot(s)
    ensures AreSlotsOf(slots + [s], values + [SlotJson(s)])
    ensures s in slots <==> SlotJson(s) in values
  {
    hide StableSlot;
    forall x ensures x in slots + [s] <==> SlotJson(x) in values + [SlotJson(s)] && StableSlot(x) {
      if SlotJson(x) == SlotJson(s) {
        SlotJsonInjective(x, s);
      }
    }
  }

  lemma DistinctStep<T>(xs: seq<T>, x: T)
    ensures Distinct(xs + [x]) <==> Distinct(xs) && x !in xs
  {
    var all := xs + [x];
    assert all[|xs|] == x && forall i | 0 <= i < |xs| :: all[i] == xs[i];
    if x in xs {
      var i :| 0 <= i < |xs| && xs[i] == x;
      assert all[i] == all[|xs|];
    }
    if Distinct(all) {
      forall i, j | 0 <= i < j < |xs| ensures xs[i] != xs[j] {
        assert all[i] != all[j];
      }
    }
  }

  /** Explicit slots are accepted exactly if each one is known and none is repeated. */
  lemma {:induction false} ExplicitExactly(values: seq<Json>, known: set<Slot>)
    ensures ReadExplicit(values, known).Ok? <==> Distinct(values) && AllExplicit(values, known)
    ensures ReadExplicit(values, known).Ok? ==> AreSlotsOf(ReadExplicit(values, known).value, values)
  {
    if values == [] {
      assert AreSlotsOf([], []);
    } else {
      hide StableSlot, SlotJson, ReadExactSlot, AreSlotsOf, Distinct, AllExplicit;
      var before, last := values[..|values| - 1], values[|values| - 1];
      assert values == before + [last];
      ExplicitExactly(before, known);
      ExplicitStep(before, last, known);
      AllExplicitStep(before, last, known);
      DistinctStep(before, last);
      if ReadExplicit(before, known).Ok? && ReadExactSlot(last).Ok? {
        var s := ReadExactSlot(last).value;
        ExactSlot(last, s);
        SlotsOfStep(ReadExplicit(before, known).value, before, s);
      }
    }
  }

  lemma ExplicitPermutes(xs: seq<Json>, ys: seq<Json>, known: set<Slot>)
    requires multiset(xs) == multiset(ys)
    ensures ReadExplicit(xs, known).Ok? <==> ReadExplicit(ys, known).Ok?
    ensures ReadExplicit(xs, known).Ok? ==>
              forall s :: s in ReadExplicit(xs, known).value <==> s in ReadExplicit(ys, known).value
  {
    SameMembers(xs, ys);
    ExplicitExactly(xs, known);
    ExplicitExactly(ys, known);
    if Distinct(xs) {
      DistinctPermutes(xs, ys);
    }
    if Distinct(ys) {
      DistinctPermutes(ys, xs);
    }
  }

  /******* The whole computation *******/

  lemma BasePermutes(xs: seq<Json>, ys: seq<Json>)
    requires multiset(xs) == multiset(ys)
    ensures ReadBase(xs).Ok? <==> ReadBase(ys).Ok?
    ensures ReadBase(xs).Ok? ==> SameState(ReadBase(xs).value, ReadBase(ys).value)
  {
    hide AbsorbAll, SameState;
    ItemsPermute(xs, ys, BaseItem);
    BaseAbsorbs(xs);
    BaseAbsorbs(ys);
    ItemsArePrincipled(xs, "");
    StartIsSame();
    AbsorbPermutes(Items(xs, BaseItem), Items(ys, BaseItem), START, START);
  }

  lemma StartIsSame()
    ensures SameState(START, START) && Guarded(START)
  {
  }

  lemma ComponentsPermute(xs: seq<Json>, ys: seq<Json>, a: State, b: State, profile: string)
    requires SameComponents(xs, ys) && SameState(a, b) && StateInv(a)
    ensures var r, r' := ReadComponents(xs, a, profile), ReadComponents(ys, b, profile);
      (r.Ok? <==> r'.Ok?) && (r.Ok? ==> SameState(r.value, r'.value))
  {
    hide AbsorbAll, SameState, SameComponents;
    ComponentItemsPermute(xs, ys, profile);
    ComponentsAbsorb(xs, a, profile);
    ComponentsAbsorb(ys, b, profile);
    ItemsArePrincipled(xs, profile);
    InvIsGuarded(a);
    AbsorbPermutes(Items(xs, ForProfile(profile)), Items(ys, ForProfile(profile)), a, b);
  }

  lemma InvIsGuarded(st: State)
    requires StateInv(st)
    ensures Guarded(st)
  {
    forall s | s in st.authorities ensures s.principal in st.owners {
      assert s in SetOf(st.slots);
    }
  }

  /** The two inputs list the same things, in whatever order. */
  ghost predicate Rearranged(bundle: Fields, descriptor: Fields, bundle': Fields, descriptor': Fields) {
    && SameArray(Get(descriptor, "fixedBaseSlots"), Get(descriptor', "fixedBaseSlots"))
    && SameComponentArray(Get(bundle, "components"), Get(bundle', "components"))
    && (Mapping(Get(bundle, "deliveryProfile")).Ok? <==> Mapping(Get(bundle', "deliveryProfile")).Ok?)
    && (Mapping(Get(bundle, "deliveryProfile")).Ok? ==>
          SameArray(Some(ExplicitValue(Mapping(Get(bundle, "deliveryProfile")).value)),
                    Some(ExplicitValue(Mapping(Get(bundle', "deliveryProfile")).value))))
  }

  ghost predicate SameArray(v: Option<Json>, w: Option<Json>) {
    && (Sequence(v).Ok? <==> Sequence(w).Ok?)
    && (Sequence(v).Ok? ==> multiset(Sequence(v).value) == multiset(Sequence(w).value))
  }

  ghost predicate SameComponentArray(v: Option<Json>, w: Option<Json>) {
    && (Sequence(v).Ok? <==> Sequence(w).Ok?)
    && (Sequence(v).Ok? ==> SameComponents(Sequence(v).value, Sequence(w).value))
  }

  lemma SameTypes(a: State, b: State)
    requires SameState(a, b)
    ensures HasTypes(a.slots) && OnlyTypes(a.slots) <==> HasTypes(b.slots) && OnlyTypes(b.slots)
  {
    SameTypesOneWay(a, b);
    SameTypesOneWay(b, a);
  }

  lemma SameTypesOneWay(a: State, b: State)
    requires forall s :: s in a.slots <==> s in b.slots
    ensures HasTypes(a.slots) ==> HasTypes(b.slots)
    ensures OnlyTypes(a.slots) ==> OnlyTypes(b.slots)
  {
    if HasTypes(a.slots) {
      forall t | t in BASE_TYPES ensures exists i | 0 <= i < |b.slots| :: b.slots[i].componentType == t {
        var i :| 0 <= i < |a.slots| && a.slots[i].componentType == t;
        assert a.slots[i] in b.slots;
      }
    }
    if OnlyTypes(a.slots) {
      forall i | 0 <= i < |b.slots| ensures b.slots[i].componentType in BASE_TYPES {
        assert b.slots[i] in a.slots;
      }
    }
  }

  lemma SameOutput(base: State, base': State, st: State, st': State, explicits: seq<Slot>, explicits': seq<Slot>)
    requires SameState(base, base') && SameState(st, st') && forall s :: s in explicits <==> s in explicits'
    ensures Sort(Unique(base.slots + st.chosen + explicits)) == Sort(Unique(base'.slots + st'.chosen + explicits'))
  {
    hide Less;
    var xs, ys := base.slots + st.chosen + explicits, base'.slots + st'.chosen + explicits';
    UniqueMembers(xs);
    UniqueMembers(ys);
    SortMembers(Unique(xs));
    SortMembers(Unique(ys));
    SortSorts(Unique(xs));
    SortSorts(Unique(ys));
    SortedIsCanonical(Sort(Unique(xs)), Sort(Unique(ys)));
  }

  /** The readers' part of the computation, before the explicit slots. */
  lemma ReadersPermute(baseValues: seq<Json>, baseValues': seq<Json>, components: seq<Json>, components': seq<Json>, profile: string)
    requires multiset(baseValues) == multiset(baseValues') && SameComponents(components, components')
    requires ReadBase(baseValues).Ok?
    ensures ReadBase(baseValues').Ok?
    ensures var base, base' := ReadBase(baseValues).value, ReadBase(baseValues').value;
      var r, r' := ReadComponents(components, base, profile), ReadComponents(components', base', profile);
      && SameState(base, base')
      && (HasTypes(base.slots) && OnlyTypes(base.slots) <==> HasTypes(base'.slots) && OnlyTypes(base'.slots))
      && (r.Ok? <==> r'.Ok?)
      && (r.Ok? ==> SameState(r.value, r'.value) && Distinct(r.value.slots) && Distinct(r'.value.slots))
  {
    hide SameState, StateInv, HasTypes, OnlyTypes, SameComponents, Distinct;
    BasePermutes(baseValues, baseValues');
    var base, base' := ReadBase(baseValues).value, ReadBase(baseValues').value;
    BaseKeeps(baseValues);
    BaseKeeps(baseValues');
    SameTypes(base, base');
    ComponentsPermute(components, components', base, base', profile);
    if ReadComponents(components, base, profile).Ok? {
      ComponentsKeep(components, base, profile);
      ComponentsKeep(components', base', profile);
      PrincipalsMakeSlotsDistinct(ReadComponents(components, base, profile).value);
      PrincipalsMakeSlotsDistinct(ReadComponents(components', base', profile).value);
    }
  }

  /** From the explicit slots on. */
  lemma ExplicitStage(base: State, base': State, st: State, st': State, xs: seq<Json>, ys: seq<Json>)
    requires SameState(base, base') && SameState(st, st') && multiset(xs) == multiset(ys)
    ensures var e, e' := ReadExplicit(xs, SetOf(st.slots)), ReadExplicit(ys, SetOf(st'.slots));
      && (e.Ok? <==> e'.Ok?)
      && (e.Ok? ==>
            && Sort(Unique(base.slots + st.chosen + e.value)) == Sort(Unique(base'.slots + st'.chosen + e'.value))
            && st.authorities == st'.authorities)
  {
    hide Less;
    assert SetOf(st.slots) == SetOf(st'.slots);
    ExplicitPermutes(xs, ys, SetOf(st.slots));
    if ReadExplicit(xs, SetOf(st.slots)).Ok? {
      SameOutput(base, base', st, st', ReadExplicit(xs, SetOf(st.slots)).value, ReadExplicit(ys, SetOf(st.slots)).value);
    }
  }

  /** Rearranging the input changes neither whether it is accepted nor what is generated from it. */
  lemma OrderDoesNotMatter(profile: string, bundle: Fields, descriptor: Fields, bundle': Fields, descriptor': Fields)
    requires Rearranged(bundle, descriptor, bundle', descriptor')
    ensures var r, r' := Compute(profile, bundle, descriptor), Compute(profile, bundle', descriptor');
      (r.Ok? <==> r'.Ok?) && (r.Ok? ==> r == r')
  {
    hide SameState, HasTypes, OnlyTypes, SameComponents, Distinct, Sort, Unique, SetOf, ExplicitValue;
    var baseValues, baseValues' := Sequence(Get(descriptor, "fixedBaseSlots")), Sequence(Get(descriptor', "fixedBaseSlots"));
    var components, components' := Sequence(Get(bundle, "components")), Sequence(Get(bundle', "components"));
    if baseValues.Ok? {
      BasePermutes(baseValues.value, baseValues'.value);
      if ReadBase(baseValues.value).Ok? {
        var base, base' := ReadBase(baseValues.value).value, ReadBase(baseValues'.value).value;
        SameTypes(base, base');
        if components.Ok? {
          ReadersPermute(baseValues.value, baseValues'.value, components.value, components'.value, profile);
          var st, st' := ReadComponents(components.value, base, profile), ReadComponents(components'.value, base', profile);
          if st.Ok? && Mapping(Get(bundle, "deliveryProfile")).Ok? {
            var explicits := Sequence(Some(ExplicitValue(Mapping(Get(bundle, "deliveryProfile")).value)));
            var explicits' := Sequence(Some(ExplicitValue(Mapping(Get(bundle', "deliveryProfile")).value)));
            if explicits.Ok? {
              ExplicitStage(base, base', st.value, st'.value, explicits.value, explicits'.value);
            }
          }
        }
      }
    }
  }
}
