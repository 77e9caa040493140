/** The collection of configured profiles, and what polling several of them at
    once amounts to. */
module ProfileCollections {
  import opened Wrappers
  import opened Strings
  import opened Varbinds
  import opened ProfileNames
  import opened Profiles

  datatype Body = Body(isWalk: bool, varbinds: seq<Varbind>)

  datatype Stored = Stored(plan: Plan, body: Body)

  // The result of processing one configured profile.
  ghost predicate ProcessedFrom(name: string, body: Body, stored: Stored) {
    && stored.body == body
    && DivideAll(StartOf(map[], map[], body.isWalk),
                 SortBySize(body.varbinds)) == Some(Halves(stored.plan.bulk, stored.plan.get))
    && stored.plan.bulkMapping == (if body.isWalk then map[] else ProfileMapping(stored.plan.bulk, name))
    && stored.plan.getMapping == (if body.isWalk then map[] else ProfileMapping(stored.plan.get, name))
  }

  predicate Processable(body: Body) {
    forall v :: v in body.varbinds ==> Divisible(v)
  }

  // With proper varbinds the containers hold the minimal keys.
  lemma ProcessedIsDivided(name: string, body: Body, stored: Stored)
    requires ProcessedFrom(name, body, stored) && AllWellFormed(body.varbinds)
    ensures AllWellFormed(Asked(body.varbinds, body.isWalk))
    ensures Divided(Asked(body.varbinds, body.isWalk), stored.plan.bulk, stored.plan.get)
  {
    hide Divided, AllWellFormed, Asked, DivideAll, SortBySize, StartOf, ProfileMapping;
    ProcessedDivides(body.varbinds, body.isWalk);
  }

  method ProcessOne(name: string, body: Body) returns (stored: Option<Stored>)
    ensures stored.Some? <==> Processable(body)
    ensures stored.Some? ==> ProcessedFrom(name, body, stored.value)
  {
    hide DivideAll, SortBySize, ProfileMapping, Inserted, Divisible;
    var profile := new Profile(name, body.isWalk, body.varbinds);
    SortBySizeSorts(body.varbinds);
    DividesExactly(StartOf(map[], map[], body.isWalk), SortBySize(body.varbinds));
    var ok := profile.Process();
    stored := if ok then Some(Stored(profile.Value(), body)) else None;
  }

  class ProfileCollection {
    var raw: map<string, Body>
    var profiles: map<string, Stored>

    constructor (raw: map<string, Body>)
      ensures this.raw == raw && profiles == map[]
    {
      this.raw, profiles := raw, map[];
    }

    // Every configured profile is processed and stored under its name, unless
    // one of them fails; what is stored under other names stays.
    method ProcessProfiles() returns (ok: bool)
      modifies this`profiles
      ensures ok <==> forall name :: name in raw ==> Processable(raw[name])
      ensures ok ==> profiles.Keys == old(profiles.Keys) + raw.Keys
      ensures ok ==> forall name :: name in raw ==> ProcessedFrom(name, raw[name], profiles[name])
      ensures forall name :: name in old(profiles) && name !in raw ==>
                name in profiles && profiles[name] == old(profiles)[name]
    {
      hide ProcessedFrom, Processable;
      var rest := raw.Keys;
      while rest != {}
        invariant rest <= raw.Keys && profiles.Keys == old(profiles.Keys) + (raw.Keys - rest)
        invariant forall name :: name in raw && name !in rest ==>
                    Processable(raw[name]) && ProcessedFrom(name, raw[name], profiles[name])
        invariant forall name :: name in old(profiles) && name !in raw ==> profiles[name] == old(profiles)[name]
        decreases rest
      {
        var name :| name in rest;
        var stored := ProcessOne(name, raw[name]);
        if stored.None? {
          return false;
        }
        profiles := profiles[name := stored.value];
        rest := rest - {name};
      }
      ok := true;
    }

    // A changed configuration is processed on top of what is stored, so the
    // names held afterwards are the configured ones, as they should be,
    // exactly when no stored name was removed from the configuration.
    method Update(config: map<string, Body>) returns (ok: bool)
      modifies this
      ensures raw == config
      ensures config == old(raw) ==> ok && profiles == old(profiles)
      ensures config != old(raw) ==> (ok <==> forall name :: name in config ==> Processable(config[name]))
      ensures config != old(raw) && ok ==>
                forall name :: name in config ==> name in profiles && ProcessedFrom(name, config[name], profiles[name])
      ensures config != old(raw) && ok ==> (profiles.Keys == config.Keys <==> old(profiles.Keys) <= config.Keys)
      ensures config != old(raw) ==> forall name :: name in old(profiles) && name !in config ==>
                name in profiles && profiles[name] == old(profiles)[name]
    {
      hide ProcessedFrom, Processable;
      ok := true;
      if raw != config {
        raw := config;
        ok := ProcessProfiles();
      }
    }
  }

  // A profile taken out of the configuration is still there to be polled.
  method RemovedProfileStays() returns (collection: ProfileCollection)
    ensures fresh(collection) && collection.raw == map[] && "removed" in collection.profiles
    ensures GetProfile(collection.profiles, "removed").Some?
  {
    var body := Body(false, [["IF-MIB"]]);
    collection := new ProfileCollection(map["removed" := body]);
    assert Processable(body);
    var loaded := collection.ProcessProfiles();
    assert ProcessedFrom("removed", body, collection.profiles["removed"]);
    var updated := collection.Update(map[]);
  }

  // A name that carries "__" belongs to a conditional profile.
  predicate UnderscoresAt(name: string, i: nat)
    requires i + 1 < |name|
  {
    name[i] == '_' && name[i + 1] == '_'
  }

  predicate Conditional(name: string) {
    exists i :: 0 <= i < |name| - 1 && UnderscoresAt(name, i)
  }

  // A profile that is missing, or has nothing to poll, gives nothing.
  function GetProfile(profiles: map<string, Stored>, name: string): Option<Plan> {
    if name !in profiles then None
    else
      var p := profiles[name];
      if p.body.varbinds == [] && !p.body.isWalk && !Conditional(name) then None else Some(p.plan)
  }

  function Combine(a: Option<Plan>, b: Option<Plan>): (c: Option<Plan>)
    requires (a.Some? ==> KeyedPlan(a.value)) && (b.Some? ==> KeyedPlan(b.value))
    ensures c.Some? ==> KeyedPlan(c.value)
  {
    if a.Some? && b.Some? then Some(Combined(a.value, b.value))
    else if a.Some? then a
    else b
  }

  ghost predicate KeyedPlans(ps: seq<Option<Plan>>) {
    forall p :: p in ps && p.Some? ==> KeyedPlan(p.value)
  }

  // The left fold over the requested profiles.
  ghost function Reduce(ps: seq<Option<Plan>>): (r: Option<Plan>)
    requires ps != [] && KeyedPlans(ps)
    ensures r.Some? ==> KeyedPlan(r.value)
  {
    if |ps| == 1 then ps[0]
    else Combine(Reduce(ps[..|ps| - 1]), ps[|ps| - 1])
  }

  datatype Polling = Fails | Polls(plan: Option<Plan>)

  function Requested(profiles: map<string, Stored>, names: seq<string>): (ps: seq<Option<Plan>>)
    ensures |ps| == |names|
  {
    seq(|names|, i requires 0 <= i < |names| => GetProfile(profiles, names[i]))
  }

  // No name at all is an error, one name or a walk takes the first profile,
  // and otherwise the profiles are added up.
  ghost function PollingInfo(profiles: map<string, Stored>, names: seq<string>, isWalk: bool): Polling
    requires KeyedPlans(Requested(profiles, names))
  {
    if names == [] then Fails
    else if |names| == 1 || isWalk then Polls(GetProfile(profiles, names[0]))
    else Polls(Reduce(Requested(profiles, names)))
  }

  function EntriesOf(p: Plan, ofGet: bool): Entries {
    if ofGet then p.get else p.bulk
  }

  function MappingOf(p: Plan, ofGet: bool): Mapping {
    if ofGet then p.getMapping else p.bulkMapping
  }

  // Each profile present maps the keys of its own containers to its own name.
  ghost predicate OwnNames(ps: seq<Option<Plan>>, names: seq<string>) {
    && |ps| == |names| && KeyedPlans(ps)
    && forall i, ofGet :: 0 <= i < |ps| && ps[i].Some? ==>
         MappingOf(ps[i].value, ofGet) == ProfileMapping(EntriesOf(ps[i].value, ofGet), names[i])
  }

  // The names, in request order, of the profiles whose own container holds `k`.
  function Holders(ps: seq<Option<Plan>>, names: seq<string>, ofGet: bool, k: string): seq<string>
    requires |ps| == |names|
  {
    if ps == [] then []
    else
      var n := |ps| - 1;
      Holders(ps[..n], names[..n], ofGet, k)
      + (if ps[n].Some? && k in EntriesOf(ps[n].value, ofGet) then [names[n]] else [])
  }

  lemma {:induction false} HoldersAreNames(ps: seq<Option<Plan>>, names: seq<string>, ofGet: bool, k: string)
    requires |ps| == |names| && Names(names)
    ensures Names(Holders(ps, names, ofGet, k))
    ensures forall h :: h in Holders(ps, names, ofGet, k) ==> h in names
  {
    if ps != [] {
      var n := |ps| - 1;
      NamesPrefix(names);
      HoldersAreNames(ps[..n], names[..n], ofGet, k);
      LastIsNew(names);
      assert forall h :: h in names[..n] ==> h in names;
    }
  }

  // What the mapping of a fold says about one key.
  ghost predicate MapsToHolders(m: Mapping, holders: seq<string>, k: string) {
    && (k in m <==> holders != [])
    && (k in m ==> m[k] == Join(holders, ','))
  }

  lemma NamesOfHolders(m: Mapping, holders: seq<string>, k: string)
    requires MapsToHolders(m, holders, k) && Names(holders)
    ensures NamesAt(m, k) == holders
  {
    NamesRoundTrip(holders);
  }

  lemma MergedHolders(a: Mapping, b: Mapping, ha: seq<string>, hb: seq<string>, k: string)
    requires MapsToHolders(a, ha, k) && MapsToHolders(b, hb, k) && Names(ha) && Names(hb)
    requires hb == [] || (|hb| == 1 && hb[0] !in ha)
    ensures MapsToHolders(Merged(a, b), ha + hb, k)
  {
    hide Merged, Merge, Names, NamesAt, Join;
    NamesOfHolders(a, ha, k);
    NamesOfHolders(b, hb, k);
    MergedAt(a, b, k);
    MergeOfHolders(ha, hb);
  }

  lemma MergeOfHolders(ha: seq<string>, hb: seq<string>)
    requires hb == [] || (|hb| == 1 && hb[0] !in ha)
    ensures Merge(ha, hb) == ha + hb
  {
    if hb == [] {
      MergeNothing(ha);
    } else {
      WithoutOne(hb[0], ha);
      assert hb == [hb[0]];
    }
  }

  lemma LastOwn(ps: seq<Option<Plan>>, names: seq<string>)
    requires OwnNames(ps, names) && ps != []
    ensures OwnNames(ps[..|ps| - 1], names[..|ps| - 1])
    ensures ps[|ps| - 1] in ps
  {
    assert forall p :: p in ps[..|ps| - 1] ==> p in ps;
  }

  ghost predicate AnyPresent(ps: seq<Option<Plan>>) {
    exists p :: p in ps && p.Some?
  }

  // What an optional plan says about one key, when `holders` hold it.
  ghost predicate Says(p: Option<Plan>, ofGet: bool, holders: seq<string>, k: string) {
    && (p.Some? ==> MapsToHolders(MappingOf(p.value, ofGet), holders, k))
    && (p.None? ==> holders == [])
  }

  lemma CombineSays(a: Option<Plan>, b: Option<Plan>, ofGet: bool, ha: seq<string>, hb: seq<string>, k: string)
    requires (a.Some? ==> KeyedPlan(a.value)) && (b.Some? ==> KeyedPlan(b.value))
    requires Says(a, ofGet, ha, k) && Says(b, ofGet, hb, k) && Names(ha) && Names(hb)
    requires hb == [] || (|hb| == 1 && hb[0] !in ha)
    ensures Says(Combine(a, b), ofGet, ha + hb, k)
  {
    hide Merged, MapsToHolders, Names, Keyed;
    assert ha + [] == ha && [] + hb == hb;
    if a.Some? && b.Some? {
      assert MappingOf(Combined(a.value, b.value), ofGet) ==
             Merged(MappingOf(a.value, ofGet), MappingOf(b.value, ofGet));
      MergedHolders(MappingOf(a.value, ofGet), MappingOf(b.value, ofGet), ha, hb, k);
    }
  }

  function OwnHolder(p: Option<Plan>, name: string, ofGet: bool, k: string): seq<string> {
    if p.Some? && k in EntriesOf(p.value, ofGet) then [name] else []
  }

  lemma LastSays(ps: seq<Option<Plan>>, names: seq<string>, ofGet: bool, k: string)
    requires OwnNames(ps, names) && ps != [] && Names(names)
    ensures var n := |ps| - 1;
            var own := OwnHolder(ps[n], names[n], ofGet, k);
            && Says(ps[n], ofGet, own, k) && Names(own)
            && (own == [] || (|own| == 1 && own[0] == names[n]))
  {
    var n := |ps| - 1;
    LastIsNew(names);
    assert [] + [names[n]] == [names[n]];
  }

  lemma ByLast(ps: seq<Option<Plan>>, names: seq<string>, ofGet: bool, k: string)
    requires OwnNames(ps, names) && ps != []
    ensures var n := |ps| - 1;
            && Holders(ps, names, ofGet, k) ==
                 Holders(ps[..n], names[..n], ofGet, k) + OwnHolder(ps[n], names[n], ofGet, k)
            && (n == 0 ==> Reduce(ps) == ps[0] && Holders(ps, names, ofGet, k) == OwnHolder(ps[n], names[n], ofGet, k))
            && KeyedPlans(ps[..n]) && (ps[n].Some? ==> KeyedPlan(ps[n].value))
            && (n > 0 ==> Reduce(ps) == Combine(Reduce(ps[..n]), ps[n]))
  {
    LastOwn(ps, names);
  }

  // Polling several profiles maps each key to the names of exactly the
  // profiles whose own container holds it, once each and in request order;
  // missing profiles are passed over.
  lemma {:induction false} ReducedMapping(ps: seq<Option<Plan>>, names: seq<string>, ofGet: bool, k: string)
    requires ps != [] && OwnNames(ps, names) && |ps| == |names| && KeyedPlans(ps) && Names(names)
    ensures Says(Reduce(ps), ofGet, Holders(ps, names, ofGet, k), k)
  {
    hide *;
    var n := |ps| - 1;
    LastOwn(ps, names);
    LastSays(ps, names, ofGet, k);
    ByLast(ps, names, ofGet, k);
    if n > 0 {
      var front := Holders(ps[..n], names[..n], ofGet, k);
      NamesPrefix(names);
      LastIsNew(names);
      ReducedMapping(ps[..n], names[..n], ofGet, k);
      HoldersAreNames(ps[..n], names[..n], ofGet, k);
      CombineSays(Reduce(ps[..n]), ps[n], ofGet, front, OwnHolder(ps[n], names[n], ofGet, k), k);
    }
  }

  lemma {:induction false} ReducedPresent(ps: seq<Option<Plan>>)
    requires ps != [] && KeyedPlans(ps)
    ensures Reduce(ps).Some? <==> AnyPresent(ps)
  {
    if |ps| > 1 {
      ReducedPresent(ps[..|ps| - 1]);
    } else {
      assert ps[..0] == [];
    }
  }

  // Polling several profiles covers exactly what any of those present covers.
  lemma {:induction false} ReducedCovers(ps: seq<Option<Plan>>, o: Varbind)
    requires ps != [] && KeyedPlans(ps) && WellFormed(o)
    ensures (Reduce(ps).Some? && Covers(Reduce(ps).value.bulk.Keys + Reduce(ps).value.get.Keys, o))
            <==> exists p :: p in ps && p.Some? && Covers(p.value.bulk.Keys + p.value.get.Keys, o)
  {
    var n := |ps| - 1;
    assert ps == ps[..n] + [ps[n]];
    assert ps[n] in ps && forall p :: p in ps <==> p in ps[..n] || p == ps[n];
    if n > 0 {
      ReducedCovers(ps[..n], o);
      if Reduce(ps[..n]).Some? && ps[n].Some? {
        CombinedCovers(Reduce(ps[..n]).value, ps[n].value, o);
      }
    }
  }

  // A requested profile is missing, or processed from what its configuration
  // says and no walk profile.
  ghost predicate Pollable(profiles: map<string, Stored>, name: string) {
    name in profiles ==>
      && ProcessedFrom(name, profiles[name].body, profiles[name]) && AllWellFormed(profiles[name].body.varbinds)
      && !profiles[name].body.isWalk
  }

  // The same for the profiles of a collection, asked for by different names.
  lemma PolledMapping(profiles: map<string, Stored>, names: seq<string>, ofGet: bool, k: string)
    requires names != [] && Names(names) && forall name :: name in names ==> Pollable(profiles, name)
    ensures OwnNames(Requested(profiles, names), names)
    ensures var polling := PollingInfo(profiles, names, false);
            var holders := Holders(Requested(profiles, names), names, ofGet, k);
            && polling.Polls?
            && (polling.plan.Some? <==> AnyPresent(Requested(profiles, names)))
            && (polling.plan.Some? ==> MapsToHolders(MappingOf(polling.plan.value, ofGet), holders, k))
            && (polling.plan.None? ==> holders == [])
  {
    RequestedOwnNames(profiles, names);
    ReducedMapping(Requested(profiles, names), names, ofGet, k);
    ReducedPresent(Requested(profiles, names));
  }

  lemma RequestedOwnNames(profiles: map<string, Stored>, names: seq<string>)
    requires forall name :: name in names ==> Pollable(profiles, name)
    ensures OwnNames(Requested(profiles, names), names)
  {
    hide AllWellFormed, DivideAll, SortBySize, StartOf, Keyed;
    forall name | name in names && name in profiles
      ensures KeyedPlan(profiles[name].plan)
    {
      ProcessedIsDivided(name, profiles[name].body, profiles[name]);
    }
    forall i | 0 <= i < |names|
      ensures names[i] in names
    {
    }
  }

  // ---- What is polled, in the terms of the configuration ----

  // A processed profile polls exactly what it lists: whatever begins with a
  // listed family or field, the listed instances, and for a walk all of
  // SNMPv2-MIB.
  lemma PolledIsListed(name: string, stored: Stored, o: Varbind)
    requires ProcessedFrom(name, stored.body, stored) && AllWellFormed(stored.body.varbinds) && WellFormed(o)
    ensures Covers(stored.plan.bulk.Keys + stored.plan.get.Keys, o) <==>
              (stored.body.isWalk && o[0] == "SNMPv2-MIB") || exists v :: v in stored.body.varbinds && Takes(v, o)
  {
    hide Divided, DivideAll, SortBySize, StartOf, ProfileMapping, Key, General, Takes, ProcessedFrom;
    var asked := Asked(stored.body.varbinds, stored.body.isWalk);
    ProcessedIsDivided(name, stored.body, stored);
    DividedCovers(asked, stored.plan.bulk, stored.plan.get, o);
    CoversByTaking(asked, o);
    SystemTakes(o);
    assert forall v :: v in asked <==> v in stored.body.varbinds || (stored.body.isWalk && v == SYSTEM_FAMILY);
  }

  lemma CoversByTaking(vs: seq<Varbind>, o: Varbind)
    requires AllWellFormed(vs) && WellFormed(o)
    ensures Covers(KeysOf(vs), o) <==> exists v :: v in vs && Takes(v, o)
  {
    hide Key, General, Takes;
    forall v | v in vs
      ensures Takes(v, o) <==> Key(v) == Key(o) || Key(v) in General(o)
    {
      TakesByKey(v, o);
    }
    assert General(o) * KeysOf(vs) != {} <==> exists v :: v in vs && Key(v) in General(o) by {
      if k :| k in General(o) * KeysOf(vs) {
        assert exists v :: v in vs && Key(v) == k;
      }
      if v :| v in vs && Key(v) in General(o) {
        assert Key(v) in General(o) * KeysOf(vs);
      }
    }
  }

  lemma SystemTakes(o: Varbind)
    requires WellFormed(o)
    ensures Takes(SYSTEM_FAMILY, o) <==> o[0] == "SNMPv2-MIB"
  {
    assert o == [o[0]] + o[1..];
  }

  lemma ConditionalIs(name: string)
    ensures Conditional(name) <==> exists i :: 0 <= i < |name| - 1 && name[i] == '_' && name[i + 1] == '_'
  {
    if i :| 0 <= i < |name| - 1 && name[i] == '_' && name[i + 1] == '_' {
      assert UnderscoresAt(name, i);
    }
  }

  // A walk polls its first profile and no other, whatever further names there
  // are; a profile gives nothing exactly when it is missing or has nothing to
  // poll, is no walk profile and has no "__" in its name; no name is an error.
  lemma WalkPollsFirst(profiles: map<string, Stored>, names: seq<string>)
    requires KeyedPlans(Requested(profiles, names))
    requires names != [] && names[0] in profiles ==>
               ProcessedFrom(names[0], profiles[names[0]].body, profiles[names[0]])
               && AllWellFormed(profiles[names[0]].body.varbinds)
    ensures names == [] ==> PollingInfo(profiles, names, true) == Fails
    ensures names != [] ==>
              var polling, first := PollingInfo(profiles, names, true), names[0];
              && polling.Polls?
              && (polling.plan.None? <==>
                    first !in profiles
                    || (profiles[first].body == Body(false, [])
                        && forall i :: 0 <= i < |first| - 1 ==> !(first[i] == '_' && first[i + 1] == '_')))
              && (polling.plan.Some? ==>
                    forall o :: WellFormed(o) ==>
                      (Covers(polling.plan.value.bulk.Keys + polling.plan.value.get.Keys, o) <==>
                         (profiles[first].body.isWalk && o[0] == "SNMPv2-MIB")
                         || exists v :: v in profiles[first].body.varbinds && Takes(v, o)))
  {
    hide DivideAll, SortBySize, StartOf, ProfileMapping, Key, General, Takes, ProcessedFrom, AllWellFormed;
    if names != [] {
      var first := names[0];
      assert Requested(profiles, names)[0] == GetProfile(profiles, first);
      ConditionalIs(first);
      if first in profiles {
        forall o | WellFormed(o)
          ensures Covers(profiles[first].plan.bulk.Keys + profiles[first].plan.get.Keys, o) <==>
                    (profiles[first].body.isWalk && o[0] == "SNMPv2-MIB")
                    || exists v :: v in profiles[first].body.varbinds && Takes(v, o)
        {
          PolledIsListed(first, profiles[first], o);
        }
      }
    }
  }
}
