/** What happens when a walk of a host has finished: its profiles are assigned
    to polling periods, and its poll schedules are made to agree. */
module Polls {
  import opened Wrappers
  import opened HostKeys
  import opened TaskManager
  import Enrichment

  // ---- Profiles ----

  datatype Kind =
    | Base
    | FieldCondition(field: Option<string>, patterns: Option<seq<string>>)
    | WalkProfile
    | Mandatory
    | OtherKind

  datatype Conditions = NoConditions | Condition(kind: Option<Kind>) | ConditionList

  datatype Profile = Profile(frequency: Option<nat>, disabled: bool, conditions: Conditions)

  // What is known of a host: the profiles its record names, whether smart
  // profiles are wanted, and the stored values of its tracked fields.
  datatype Known = Known(profiles: seq<string>, smart: bool, state: map<string, Option<string>>)

  predicate IsSmartProfileValid(profile: Profile) {
    && !profile.disabled && profile.frequency.Some?
    && profile.conditions.Condition? && profile.conditions.kind.Some?
    && match profile.conditions.kind.value
       case Base => true
       case FieldCondition(field, patterns) => field.Some? && patterns.Some?
       case _ => false
  }

  function FieldValue(profile: Profile, known: Known): Option<string>
    requires IsSmartProfileValid(profile) && profile.conditions.kind.value.FieldCondition?
  {
    var key := Enrichment.HashKey(profile.conditions.kind.value.field.value);
    if key in known.state then known.state[key] else None
  }

  ghost predicate SomeMatch(patterns: seq<string>, value: string, matches: (string, string) -> bool) {
    exists i :: 0 <= i < |patterns| && matches(patterns[i], value)
  }

  ghost predicate AssignedAsSmart(name: string, profiles: map<string, Profile>, known: Known, pollBase: bool,
                                  matches: (string, string) -> bool) {
    && known.smart && name in profiles && IsSmartProfileValid(profiles[name])
    && match profiles[name].conditions.kind.value
       case Base => pollBase
       case FieldCondition(_, patterns) =>
         FieldValue(profiles[name], known).Some?
             && SomeMatch(patterns.value, FieldValue(profiles[name], known).value, matches)
       case _ => false
  }

  predicate IsWalk(profile: Profile) {
    profile.conditions.Condition? && profile.conditions.kind == Some(WalkProfile)
  }

  predicate AssignedAsStatic(name: string, profiles: map<string, Profile>, known: Known) {
    && name in known.profiles && name in profiles && profiles[name].frequency.Some?
    && !IsWalk(profiles[name]) && !profiles[name].conditions.ConditionList?
  }

  predicate IsMandatory(name: string, profiles: map<string, Profile>) {
    name in profiles && profiles[name].conditions.Condition? && profiles[name].conditions.kind == Some(Mandatory)
  }

  predicate IsComputed(name: string, profiles: map<string, Profile>, known: Known) {
    name in known.profiles && name in profiles && profiles[name].conditions.ConditionList?
  }

  // ---- Assignments ----

  type Assigned = map<nat, seq<string>>

  predicate In(plan: Assigned, period: nat, name: string) {
    period in plan && name in plan[period]
  }

  predicate NoEmptyPeriod(plan: Assigned) {
    forall period :: period in plan ==> plan[period] != []
  }

  // The list of one period has got one name more, if anything.
  ghost predicate Extends(before: Assigned, after: Assigned, more: bool, frequency: nat, name: string) {
    forall p: nat, n: string :: In(after, p, n) <==> In(before, p, n) || (more && p == frequency && n == name)
  }

  method AddProfileToAssignedList(plan: Assigned, frequency: nat, name: string) returns (after: Assigned)
    ensures after == plan[frequency := (if frequency in plan then plan[frequency] else []) + [name]]
    ensures Extends(plan, after, true, frequency, name)
    ensures NoEmptyPeriod(plan) ==> NoEmptyPeriod(after)
  {
    after := plan;
    if frequency !in after {
      after := after[frequency := []];
    }
    after := after[frequency := after[frequency] + [name]];
  }

  method AssignFieldSmartProfile(plan: Assigned, profile: Profile, name: string, known: Known,
                                 matches: (string, string) -> bool)
    returns (after: Assigned)
    requires IsSmartProfileValid(profile) && profile.conditions.kind.value.FieldCondition? && NoEmptyPeriod(plan)
    ensures Extends(plan, after,
              FieldValue(profile, known).Some?
                  && SomeMatch(profile.conditions.kind.value.patterns.value, FieldValue(profile, known).value, matches),
              profile.frequency.value, name)
    ensures NoEmptyPeriod(after)
  {
    hide FieldValue, NoEmptyPeriod;
    after := plan;
    var value := FieldValue(profile, known);
    if value.None? {
      return;
    }
    var patterns := profile.conditions.kind.value.patterns.value;
    for i := 0 to |patterns|
      invariant Extends(plan, after, SomeMatch(patterns[..i], value.value, matches), profile.frequency.value, name)
      invariant NoEmptyPeriod(after)
    {
      assert patterns[..i + 1][i] == patterns[i];
      assert SomeMatch(patterns[..i + 1], value.value, matches) <==>
             SomeMatch(patterns[..i], value.value, matches) || matches(patterns[i], value.value) by {
        assert forall j :: 0 <= j < i ==> patterns[..i + 1][j] == patterns[..i][j];
      }
      if matches(patterns[i], value.value) {
        after := AddProfileToAssignedList(after, profile.frequency.value, name);
      }
    }
    assert patterns[..|patterns|] == patterns;
  }

  ghost predicate SmartIn(period: nat, name: string, names: set<string>, profiles: map<string, Profile>, known: Known,
                          pollBase: bool, matches: (string, string) -> bool)
  {
    name in names && AssignedAsSmart(name, profiles, known, pollBase, matches)
        && profiles[name].frequency == Some(period)
  }

  method AssignSmartProfiles(profiles: map<string, Profile>, known: Known, pollBase: bool,
                             matches: (string, string) -> bool) returns (plan: Assigned)
    ensures NoEmptyPeriod(plan)
    ensures forall period: nat, name: string :: In(plan, period, name) <==>
            SmartIn(period, name, profiles.Keys, profiles, known, pollBase, matches)
  {
    hide FieldValue, SomeMatch, NoEmptyPeriod;
    plan := map[];
    NothingAssigned();
    if !known.smart {
      return;
    }
    var todo := profiles.Keys;
    while todo != {}
      invariant todo <= profiles.Keys && NoEmptyPeriod(plan)
      invariant forall period: nat, name: string :: In(plan, period, name) <==>
                SmartIn(period, name, profiles.Keys - todo, profiles, known, pollBase, matches)
      decreases todo
    {
      var name :| name in todo;
      var profile := profiles[name];
      if IsSmartProfileValid(profile) {
        if profile.conditions.kind.value.Base? {
          if pollBase {
            plan := AddProfileToAssignedList(plan, profile.frequency.value, name);
          }
        } else {
          plan := AssignFieldSmartProfile(plan, profile, name, known, matches);
        }
      }
      todo := todo - {name};
    }
    assert profiles.Keys - todo == profiles.Keys;
  }

  lemma NothingAssigned()
    ensures NoEmptyPeriod(map[])
  {
  }

  ghost predicate StaticIn(period: nat, name: string, names: seq<string>, profiles: map<string, Profile>) {
    && name in names && name in profiles && profiles[name].frequency == Some(period)
    && !IsWalk(profiles[name]) && !profiles[name].conditions.ConditionList?
  }

  // The profiles the record names, except the walk profiles among them; those
  // with a list of conditions are set aside.
  method CheckProfilesType(plan: Assigned, known: Known, profiles: map<string, Profile>)
    returns (after: Assigned, computed: seq<string>)
    requires NoEmptyPeriod(plan)
    ensures NoEmptyPeriod(after)
    ensures forall period: nat, name: string :: In(after, period, name) <==>
            In(plan, period, name) || StaticIn(period, name, known.profiles, profiles)
    ensures forall name :: name in computed <==> IsComputed(name, profiles, known)
  {
    hide NoEmptyPeriod;
    after, computed := plan, [];
    var names := known.profiles;
    for i := 0 to |names|
      invariant NoEmptyPeriod(after)
      invariant forall period: nat, name: string :: In(after, period, name) <==>
                In(plan, period, name) || StaticIn(period, name, names[..i], profiles)
      invariant forall name :: name in computed <==>
                name in names[..i] && name in profiles && profiles[name].conditions.ConditionList?
    {
      var name := names[i];
      assert names[..i + 1] == names[..i] + [name];
      if name in profiles {
        var profile := profiles[name];
        if IsWalk(profile) {
        } else if profile.conditions.ConditionList? {
          computed := computed + [name];
        } else if profile.frequency.Some? {
          after := AddProfileToAssignedList(after, profile.frequency.value, name);
        }
      }
    }
    assert names[..|names|] == names;
  }

  ghost predicate MandatoryIn(period: nat, name: string, names: set<string>, profiles: map<string, Profile>) {
    name in names && IsMandatory(name, profiles) && profiles[name].frequency == Some(period)
  }

  // All three ways a profile of the configuration is assigned to a period,
  // which is its own frequency in each of them.
  ghost predicate ToBePolled(period: nat, name: string, profiles: map<string, Profile>, known: Known, pollBase: bool,
                             matches: (string, string) -> bool) {
    && name in profiles && profiles[name].frequency == Some(period)
    && (AssignedAsSmart(name, profiles, known, pollBase, matches) || AssignedAsStatic(name, profiles, known)
        || IsMandatory(name, profiles))
  }

  // Mandatory profiles are assigned whether they have a frequency or not; those
  // without one come under no period.
  predicate IsEndless(name: string, profiles: map<string, Profile>) {
    IsMandatory(name, profiles) && profiles[name].frequency.None?
  }

  method AssignProfiles(profiles: map<string, Profile>, known: Known, pollBase: bool, matches: (string, string) -> bool)
    returns (plan: Assigned, endless: seq<string>, computed: seq<string>)
    ensures NoEmptyPeriod(plan)
    ensures forall period: nat, name: string :: In(plan, period, name) <==>
            ToBePolled(period, name, profiles, known, pollBase, matches)
    ensures forall name :: name in endless <==> IsEndless(name, profiles)
    ensures forall name :: name in computed <==> IsComputed(name, profiles, known)
  {
    hide NoEmptyPeriod, IsMandatory, AssignedAsSmart, IsWalk;
    plan := AssignSmartProfiles(profiles, known, pollBase, matches);
    plan, computed := CheckProfilesType(plan, known, profiles);
    endless := [];
    ghost var before := plan;
    var todo := profiles.Keys;
    while todo != {}
      invariant todo <= profiles.Keys && NoEmptyPeriod(plan)
      invariant forall period: nat, name: string :: In(plan, period, name) <==>
                In(before, period, name) || MandatoryIn(period, name, profiles.Keys - todo, profiles)
      invariant forall name :: name in endless <==> name in profiles.Keys - todo && IsEndless(name, profiles)
      decreases todo
    {
      var name :| name in todo;
      if IsMandatory(name, profiles) {
        var frequency := profiles[name].frequency;
        if frequency.Some? {
          plan := AddProfileToAssignedList(plan, frequency.value, name);
        } else {
          endless := endless + [name];
        }
      }
      todo := todo - {name};
    }
    assert profiles.Keys - todo == profiles.Keys;
    EndlessIsConfigured(profiles);
  }

  // One mandatory profile without a frequency is enough.
  lemma EndlessHappens()
    ensures IsEndless("uptime", map["uptime" := Profile(None, false, Condition(Some(Mandatory)))])
  {
  }

  lemma EndlessIsConfigured(profiles: map<string, Profile>)
    ensures forall name :: IsEndless(name, profiles) ==> name in profiles
  {
  }

  // ---- Poll schedules ----

  function PollDefinition(t: string, period: nat, names: seq<string>, expiry: Option<nat>,
                          group: Option<string>): TaskData {
    TaskData(PollKey(t, period), Some(PollTask), Some(t),
             Some(Kwargs(t, group, PollDetails((set name | name in names), period))),
             expiry, Some(period), Some(period > 300), Some(true), true)
  }

  function AfterPeriods(store: Schedules, t: string, plan: Assigned, periods: seq<nat>, expiry: Option<nat>,
                        group: Option<string>): Schedules
    requires forall p :: p in periods ==> p in plan
  {
    if periods == [] then store
    else
      var last := periods[|periods| - 1];
      Managed(AfterPeriods(store, t, plan, periods[..|periods| - 1], expiry, group),
              PollDefinition(t, last, plan[last], expiry, group))
  }

  function Names(t: string, periods: seq<nat>): (names: seq<string>)
    ensures |names| == |periods| && forall i :: 0 <= i < |names| ==> names[i] == PollKey(t, periods[i])
  {
    seq(|periods|, i requires 0 <= i < |periods| => PollKey(t, periods[i]))
  }

  ghost predicate Lists(periods: seq<nat>, among: set<nat>) {
    && (forall p :: p in periods <==> p in among)
    && forall i, j :: 0 <= i < j < |periods| ==> periods[i] != periods[j]
  }

  function Reconciled(store: Schedules, t: string, plan: Assigned, periods: seq<nat>, expiry: Option<nat>,
                      group: Option<string>): Schedules
    requires forall p :: p in periods ==> p in plan
  {
    var scheduled := AfterPeriods(store, t, plan, periods, expiry, group);
    Without(scheduled, Unused(scheduled, t, Names(t, periods)))
  }

  // The name a generated profile is stored and polled under.
  function Tag(name: string, t: string): string {
    name + "__" + Enrichment.HashKey(t)
  }

  lemma TagsApart(a: string, b: string, t: string)
    requires Tag(a, t) == Tag(b, t)
    ensures a == b
  {
    var end := "__" + Enrichment.HashKey(t);
    assert Tag(a, t) == a + end && Tag(b, t) == b + end;
    assert a == (a + end)[..|Tag(a, t)| - |end|] && b == (b + end)[..|Tag(b, t)| - |end|];
  }

  // A profile with a list of conditions comes out of its generation, if that
  // succeeds, as the body stored for it.
  type Generate = string -> Option<string>

  ghost predicate ConditionalIn(period: nat, tag: string, computed: seq<string>, profiles: map<string, Profile>,
                                t: string, generate: Generate)
  {
    exists i :: 0 <= i < |computed| && ConditionalAt(period, tag, computed[i], profiles, t, generate)
  }

  ghost predicate ConditionalAt(period: nat, tag: string, name: string, profiles: map<string, Profile>, t: string,
                                generate: Generate) {
    name in profiles && profiles[name].frequency == Some(period) && generate(name).Some? && Tag(name, t) == tag
  }

  // What is stored once the profiles have been generated: every body under its
  // own tag, everything else as it was.
  ghost predicate StoresGenerated(before: map<string, string>, after: map<string, string>, computed: seq<string>,
                                  t: string, generate: Generate)
  {
    && (forall name :: name in computed && generate(name).Some? ==>
          Tag(name, t) in after && after[Tag(name, t)] == generate(name).value)
    && (forall tag :: NotGenerated(tag, computed, t, generate) ==> Agree(before, after, tag))
  }

  ghost predicate NotGenerated(tag: string, computed: seq<string>, t: string, generate: Generate) {
    forall name :: name in computed && generate(name).Some? ==> Tag(name, t) != tag
  }

  lemma OneMorePeriod(store: Schedules, t: string, plan: Assigned, periods: seq<nat>, period: nat, expiry: Option<nat>,
                      group: Option<string>)
    requires period in plan && forall p :: p in periods ==> p in plan
    ensures AfterPeriods(store, t, plan, periods + [period], expiry, group)
            == Managed(AfterPeriods(store, t, plan, periods, expiry, group),
                       PollDefinition(t, period, plan[period], expiry, group))
    ensures Names(t, periods + [period]) == Names(t, periods) + [PollKey(t, period)]
  {
    assert (periods + [period])[..|periods|] == periods;
  }

  // Each period's schedule is set up or brought up to date, in any order. A
  // schedule without a period cannot be made: when the endless profiles come up
  // the task fails with the periods before them done.
  method SchedulePolls(manager: CustomPeriodicTaskManager, t: string, plan: Assigned, endless: bool,
                       expiry: Option<nat>, group: Option<string>)
    returns (active: seq<string>, ok: bool, ghost periods: seq<nat>)
    requires Keyed(manager.store)
    modifies manager
    ensures ok <==> !endless
    ensures ok ==> Lists(periods, plan.Keys)
    ensures (exists some :: some <= plan.Keys && Lists(periods, some)) && active == Names(t, periods)
    ensures Keyed(manager.store) && manager.store == AfterPeriods(old(manager.store), t, plan, periods, expiry, group)
  {
    hide PollDefinition, Managed, PollKey, Keyed, AfterPeriods;
    active, periods := [], [];
    NoPeriods(manager.store, t, plan, expiry, group);
    var todo: set<Option<nat>> := (set p | p in plan :: Some(p)) + if endless then {None} else {};
    ghost var done: set<nat> := {};
    while todo != {}
      invariant todo == (set p | p in plan && p !in done :: Some(p)) + if endless then {None} else {}
      invariant done <= plan.Keys && Lists(periods, done) && active == Names(t, periods)
      invariant Keyed(manager.store)
                && manager.store == AfterPeriods(old(manager.store), t, plan, periods, expiry, group)
      decreases todo
    {
      var key :| key in todo;
      if key.None? {
        return active, false, periods;
      }
      var period := key.value;
      OneMorePeriod(old(manager.store), t, plan, periods, period, expiry, group);
      DefinitionNamed(t, period, plan[period], expiry, group);
      var data := PollDefinition(t, period, plan[period], expiry, group);
      StaysKeyed(manager.store, data);
      active := active + [data.name];
      manager.ManageTask(data);
      periods := periods + [period];
      done := done + {period};
      todo := todo - {key};
    }
    assert done == plan.Keys by {
      assert forall p :: p in plan && p !in done ==> Some(p) in todo;
    }
    ok := true;
  }

  lemma NoPeriods(store: Schedules, t: string, plan: Assigned, expiry: Option<nat>, group: Option<string>)
    ensures AfterPeriods(store, t, plan, [], expiry, group) == store
  {
  }

  lemma DefinitionNamed(t: string, period: nat, names: seq<string>, expiry: Option<nat>, group: Option<string>)
    ensures var data := PollDefinition(t, period, names, expiry, group);
            && data.name == PollKey(t, period) && Complete(data) && data.task == Some(PollTask)
                && data.expires == expiry
  {
  }

  lemma StaysKeyed(store: Schedules, data: TaskData)
    requires Keyed(store)
    ensures Keyed(Managed(store, data))
  {
  }

  lemma OneMoreConditional(period: nat, tag: string, computed: seq<string>, name: string,
                           profiles: map<string, Profile>, t: string, generate: Generate)
    ensures ConditionalIn(period, tag, computed + [name], profiles, t, generate) <==>
            ConditionalIn(period, tag, computed, profiles, t, generate)
                || ConditionalAt(period, tag, name, profiles, t, generate)
  {
    hide ConditionalAt;
    assert (computed + [name])[|computed|] == name;
    assert forall i :: 0 <= i < |computed| ==> (computed + [name])[i] == computed[i];
  }

  lemma ConditionalIs(name: string, profiles: map<string, Profile>, t: string, generate: Generate)
    ensures forall period: nat, tag: string :: ConditionalAt(period, tag, name, profiles, t, generate) <==>
              name in profiles && profiles[name].frequency == Some(period) && generate(name).Some?
                  && Tag(name, t) == tag
  {
  }

  lemma OneMoreStored(before: map<string, string>, now: map<string, string>, computed: seq<string>, name: string,
                      t: string, generate: Generate)
    requires StoresGenerated(before, now, computed, t, generate)
    ensures StoresGenerated(before, if generate(name).Some? then now[Tag(name, t) := generate(name).value] else now,
                            computed + [name], t, generate)
  {
    hide Tag;
    forall other | other in computed && Tag(other, t) == Tag(name, t)
      ensures other == name
    {
      TagsApart(other, name, t);
    }
    assert name in computed + [name] && forall other :: other in computed ==> other in computed + [name];
    forall tag | NotGenerated(tag, computed + [name], t, generate)
      ensures NotGenerated(tag, computed, t, generate) && (generate(name).Some? ==> Tag(name, t) != tag)
    {
    }
  }

  // A profile that could be generated but has no period to be polled at.
  predicate IsStuck(name: string, profiles: map<string, Profile>, known: Known, generate: Generate) {
    IsComputed(name, profiles, known) && profiles[name].frequency.None? && generate(name).Some?
  }

  // A profile without a frequency that is in the way of the setup.
  predicate Blocks(name: string, profile: Profile, known: Known, generate: Generate) {
    && profile.frequency.None?
    && (profile.conditions == Condition(Some(Mandatory))
        || (name in known.profiles && profile.conditions == ConditionList && generate(name).Some?))
  }

  lemma BlocksIs(profiles: map<string, Profile>, known: Known, generate: Generate)
    ensures forall name :: name in profiles ==>
              (Blocks(name, profiles[name], known, generate) <==>
                 IsEndless(name, profiles) || IsStuck(name, profiles, known, generate))
    ensures forall name :: IsEndless(name, profiles) || IsStuck(name, profiles, known, generate) ==> name in profiles
  {
  }

  // The finished walk of a host: its profiles are assigned anew, those with a
  // list of conditions under a tag of their own once they could be generated,
  // every period gets its poll schedule, and the host's other polls go.
  // It fails, with nothing deleted, exactly when a profile it comes to assign
  // is mandatory or has been generated and has no frequency.
  method InventorySetupPoller(manager: CustomPeriodicTaskManager, t: string, group: Option<string>, expiry: Option<nat>,
                              profiles: map<string, Profile>, known: Known, pollBase: bool,
                              matches: (string, string) -> bool, generate: Generate, stored: map<string, string>)
    returns (ok: bool, plan: Assigned, newStored: map<string, string>, ghost computed: seq<string>,
             ghost reached: nat, ghost periods: seq<nat>)
    requires Keyed(manager.store)
    modifies manager
    ensures ok <==> forall name :: name in profiles ==> !Blocks(name, profiles[name], known, generate)
    ensures NoEmptyPeriod(plan) && reached <= |computed|
    ensures forall name :: name in computed <==>
              name in known.profiles && name in profiles && profiles[name].conditions == ConditionList
    ensures forall period: nat, name: string :: In(plan, period, name) <==>
              ToBePolled(period, name, profiles, known, pollBase, matches)
                  || ConditionalIn(period, name, computed[..reached], profiles, t, generate)
    ensures StoresGenerated(stored, newStored, computed[..reached], t, generate)
    ensures ok ==> reached == |computed| && Lists(periods, plan.Keys)
                   && manager.store == Reconciled(old(manager.store), t, plan, periods, expiry, group)
    ensures !ok ==> (exists some :: some <= plan.Keys && Lists(periods, some))
                    && manager.store == AfterPeriods(old(manager.store), t, plan, periods, expiry, group)
    ensures (exists name :: IsStuck(name, profiles, known, generate)) ==> manager.store == old(manager.store)
  {
    hide NoEmptyPeriod, IsMandatory, AssignedAsSmart, IsWalk, PollDefinition, Managed, Unused, PollKey, ConditionalAt,
      ConditionalIn, ToBePolled, Tag, StoresGenerated, Blocks;
    var endless, candidates: seq<string>;
    plan, endless, candidates := AssignProfiles(profiles, known, pollBase, matches);
    ok, computed, newStored, reached, periods := false, candidates, stored, 0, [];
    NothingGenerated(stored, profiles, t, generate);
    BlocksIs(profiles, known, generate);
    NoPeriods(manager.store, t, plan, expiry, group);
    assert candidates[..0] == [];
    for i := 0 to |candidates|
      invariant NoEmptyPeriod(plan) && manager.store == old(manager.store) && reached == i
      invariant forall j :: 0 <= j < i ==> !IsStuck(candidates[j], profiles, known, generate)
      invariant StoresGenerated(stored, newStored, candidates[..i], t, generate)
      invariant forall period: nat, name: string :: In(plan, period, name) <==>
                  ToBePolled(period, name, profiles, known, pollBase, matches)
                  || ConditionalIn(period, name, candidates[..i], profiles, t, generate)
    {
      var name := candidates[i];
      assert IsComputed(name, profiles, known);
      assert candidates[..i + 1] == candidates[..i] + [name];
      forall period: nat, tag: string
        ensures ConditionalIn(period, tag, candidates[..i + 1], profiles, t, generate) <==>
                ConditionalIn(period, tag, candidates[..i], profiles, t, generate)
                    || ConditionalAt(period, tag, name, profiles, t, generate)
      {
        OneMoreConditional(period, tag, candidates[..i], name, profiles, t, generate);
      }
      ConditionalIs(name, profiles, t, generate);
      OneMoreStored(stored, newStored, candidates[..i], name, t, generate);
      reached := i + 1;
      var body := generate(name);
      if body.Some? {
        newStored := newStored[Tag(name, t) := body.value];
        if profiles[name].frequency.None? {
          assert IsStuck(name, profiles, known, generate);
          NoPeriods(manager.store, t, plan, expiry, group);
          assert Lists(periods, {});
          return;
        }
        plan := AddProfileToAssignedList(plan, profiles[name].frequency.value, Tag(name, t));
      }
    }
    assert candidates[..|candidates|] == candidates;
    assert endless != [] <==> exists name :: IsEndless(name, profiles) by {
      assert endless != [] ==> endless[0] in endless;
    }
    forall name | IsComputed(name, profiles, known)
      ensures !IsStuck(name, profiles, known, generate)
    {
      assert name in candidates;
    }
    var activeSchedules: seq<string>;
    activeSchedules, ok, periods := SchedulePolls(manager, t, plan, endless != [], expiry, group);
    if ok {
      manager.DeleteUnusedPollTasks(t, activeSchedules);
    }
  }

  lemma NothingGenerated(stored: map<string, string>, profiles: map<string, Profile>, t: string, generate: Generate)
    ensures StoresGenerated(stored, stored, [], t, generate)
    ensures forall period: nat, tag: string :: !ConditionalIn(period, tag, [], profiles, t, generate)
  {
  }
}
