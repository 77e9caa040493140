/** After a finished walk the readable poll schedules of the host are exactly
    those of its assigned periods, and nothing else has changed, provided no
    other host's key ends in this host's. */
module PollReconciliation {
  import opened Wrappers
  import opened HostKeys
  import opened TaskManager
  import opened Polls

  ghost predicate IsWalkKey(key: string) {
    exists t :: IsTarget(t) && key == WalkKey(t)
  }

  ghost predicate IsPollKey(key: string) {
    exists t, p: nat :: IsTarget(t) && key == PollKey(t, p)
  }

  // Entries are kept where the generators put them: walks under walk names,
  // polls under poll names, others under neither.
  ghost predicate ShapedAt(store: Schedules, key: string) {
    Readable(store, key) ==>
      var entry := store[key].entry;
      && entry.name == key
      && match entry.task
         case WalkTask => IsWalkKey(key) && !IsPollKey(key)
         case PollTask => IsPollKey(key) && !IsWalkKey(key)
         case DiscoveryTask => !IsWalkKey(key) && !IsPollKey(key)
  }

  ghost predicate Shaped(store: Schedules) {
    forall key :: key in store ==> ShapedAt(store, key)
  }

  lemma ShapedFacts(store: Schedules, t: string, p: nat)
    requires Shaped(store) && IsTarget(t)
    ensures Readable(store, PollKey(t, p)) ==> Holds(store, PollKey(t, p), PollTask)
    ensures Readable(store, WalkKey(t)) ==> Holds(store, WalkKey(t), WalkTask)
    ensures Keyed(store)
  {
    hide PollKey, WalkKey, IsTarget;
    assert IsPollKey(PollKey(t, p)) && IsWalkKey(WalkKey(t));
    forall key | Readable(store, key)
      ensures store[key].entry.name == key
    {
      assert ShapedAt(store, key);
    }
    assert Readable(store, PollKey(t, p)) ==> ShapedAt(store, PollKey(t, p));
    assert Readable(store, WalkKey(t)) ==> ShapedAt(store, WalkKey(t));
  }

  // A poll schedule as a period asks for it.
  ghost predicate PollsWith(store: Schedules, t: string, p: nat, names: seq<string>, group: Option<string>) {
    && Holds(store, PollKey(t, p), PollTask)
    && var entry := store[PollKey(t, p)].entry;
       && entry.kwargs == Kwargs(t, group, PollDetails((set name | name in names), p))
       && entry.target == t && entry.period == p && entry.enabled && (entry.runImmediately <==> p > 300)
  }

  lemma ManagedAt(store: Schedules, t: string, p: nat, names: seq<string>, expiry: Option<nat>, group: Option<string>,
                  key: string)
    requires Readable(store, PollKey(t, p)) ==> Holds(store, PollKey(t, p), PollTask)
    ensures PollsWith(Managed(store, PollDefinition(t, p, names, expiry, group)), t, p, names, group)
    ensures key != PollKey(t, p) ==> Agree(store, Managed(store, PollDefinition(t, p, names, expiry, group)), key)
  {
    hide PollKey;
  }

  ghost predicate NotOneOf(key: string, t: string, periods: seq<nat>) {
    forall p :: p in periods ==> key != PollKey(t, p)
  }

  lemma {:induction false} OtherKeysKept(store: Schedules, t: string, plan: Assigned, periods: seq<nat>,
                                         expiry: Option<nat>, group: Option<string>, key: string)
    requires forall p :: p in periods ==>
             p in plan && (Readable(store, PollKey(t, p)) ==> Holds(store, PollKey(t, p), PollTask))
    requires NotOneOf(key, t, periods)
    ensures Agree(store, AfterPeriods(store, t, plan, periods, expiry, group), key)
  {
    hide PollKey, Managed, PollDefinition, Holds, Readable;
    if periods != [] {
      var last := periods[|periods| - 1];
      OtherKeysKept(store, t, plan, periods[..|periods| - 1], expiry, group, key);
      ManagedElsewhere(AfterPeriods(store, t, plan, periods[..|periods| - 1], expiry, group), t, last, plan[last],
                       expiry, group, key);
    }
  }

  lemma ManagedElsewhere(store: Schedules, t: string, p: nat, names: seq<string>, expiry: Option<nat>,
                         group: Option<string>, key: string)
    ensures key != PollKey(t, p) ==> Agree(store, Managed(store, PollDefinition(t, p, names, expiry, group)), key)
  {
    hide PollKey;
  }

  // The periods that were set up have their polls, one that was not keeps what
  // it had: also what a setup that fails midway leaves.
  lemma {:induction false} OwnPollsSet(store: Schedules, t: string, plan: Assigned, periods: seq<nat>,
                                       expiry: Option<nat>, group: Option<string>, p: nat)
    requires IsTarget(t) && forall q :: q in periods ==> q in plan
    requires Readable(store, PollKey(t, p)) ==> Holds(store, PollKey(t, p), PollTask)
    ensures var after := AfterPeriods(store, t, plan, periods, expiry, group);
            && (Readable(after, PollKey(t, p)) ==> Holds(after, PollKey(t, p), PollTask))
            && (p in periods ==> PollsWith(after, t, p, plan[p], group))
            && (p !in periods ==> Agree(store, after, PollKey(t, p)))
  {
    hide PollKey, Managed, PollDefinition, IsTarget;
    if periods != [] {
      var n := |periods| - 1;
      var last := periods[n];
      assert periods == periods[..n] + [last];
      var before := AfterPeriods(store, t, plan, periods[..n], expiry, group);
      OwnPollsSet(store, t, plan, periods[..n], expiry, group, p);
      KeysTellApart(t, t, p, last);
      ManagedElsewhere(before, t, last, plan[last], expiry, group, PollKey(t, p));
      if p == last {
        ManagedAt(before, t, p, plan[p], expiry, group, PollKey(t, p));
      }
    }
  }

  // ---- The result ----

  lemma UnusedIs(store: Schedules, t: string, active: seq<string>, key: string)
    ensures key in Unused(store, t, active) <==> Holds(store, key, PollTask) && Mentions(key, t) && key !in active
  {
  }

  // The host's own polls: one for every period, with exactly the names
  // assigned to it, and no other.
  lemma OwnPollsExactly(store: Schedules, t: string, plan: Assigned, periods: seq<nat>, expiry: Option<nat>,
                        group: Option<string>, p: nat)
    requires Shaped(store) && IsTarget(t) && Lists(periods, plan.Keys)
    ensures p in plan ==> PollsWith(Reconciled(store, t, plan, periods, expiry, group), t, p, plan[p], group)
    ensures p !in plan ==> !Readable(Reconciled(store, t, plan, periods, expiry, group), PollKey(t, p))
  {
    hide PollKey, Mentions, Shaped, IsTarget, Unused, AfterPeriods, Suffix;
    var key := PollKey(t, p);
    var scheduled := AfterPeriods(store, t, plan, periods, expiry, group);
    ShapedFacts(store, t, p);
    OwnPollsSet(store, t, plan, periods, expiry, group, p);
    UnusedIs(scheduled, t, Names(t, periods), key);
    SearchFindsSuffixes(t, t, p);
    SelfSuffix(t);
    if p !in plan {
      NotAmong(t, periods, p);
    }
  }

  lemma SelfSuffix(t: string)
    ensures Suffix(t, t)
  {
  }

  lemma NotAmong(t: string, periods: seq<nat>, p: nat)
    requires IsTarget(t) && p !in periods
    ensures NotOneOf(PollKey(t, p), t, periods)
  {
    hide PollKey, IsTarget;
    forall q | q in periods
      ensures PollKey(t, p) != PollKey(t, q)
    {
      KeysTellApart(t, t, p, q);
    }
  }

  lemma NoneOf(key: string, t: string, other: string, p: nat, periods: seq<nat>)
    requires IsTarget(t) && IsTarget(other)
    ensures NotOneOf(WalkKey(other), t, periods)
    ensures other != t ==> NotOneOf(PollKey(other, p), t, periods)
  {
    hide PollKey, WalkKey, IsTarget;
    forall q | q in periods
      ensures WalkKey(other) != PollKey(t, q) && (other != t ==> PollKey(other, p) != PollKey(t, q))
    {
      KeysTellApart(other, t, p, q);
      KeysTellApart(t, other, q, p);
    }
  }

  lemma WalksKeptMidway(store: Schedules, t: string, plan: Assigned, periods: seq<nat>, expiry: Option<nat>,
                        group: Option<string>, other: string)
    requires Shaped(store) && IsTarget(t) && IsTarget(other) && forall p :: p in periods ==> p in plan
    ensures Agree(store, AfterPeriods(store, t, plan, periods, expiry, group), WalkKey(other))
  {
    hide PollKey, WalkKey, Shaped, IsTarget, AfterPeriods;
    AllOwnShaped(store, t, periods);
    NoneOf("", t, other, 0, periods);
    OtherKeysKept(store, t, plan, periods, expiry, group, WalkKey(other));
  }

  // Every walk schedule is as it was, the host's own included.
  lemma WalksUntouched(store: Schedules, t: string, plan: Assigned, periods: seq<nat>, expiry: Option<nat>,
                       group: Option<string>, other: string)
    requires Shaped(store) && IsTarget(t) && IsTarget(other) && Lists(periods, plan.Keys)
    ensures Agree(store, Reconciled(store, t, plan, periods, expiry, group), WalkKey(other))
  {
    hide PollKey, WalkKey, Mentions, Shaped, IsTarget, Unused, AfterPeriods;
    var scheduled := AfterPeriods(store, t, plan, periods, expiry, group);
    AllOwnShaped(store, t, periods);
    NoneOf("", t, other, 0, periods);
    OtherKeysKept(store, t, plan, periods, expiry, group, WalkKey(other));
    UnusedIs(scheduled, t, Names(t, periods), WalkKey(other));
    ShapedFacts(store, other, 0);
  }

  lemma AllOwnShaped(store: Schedules, t: string, periods: seq<nat>)
    requires Shaped(store) && IsTarget(t)
    ensures forall p :: p in periods ==> (Readable(store, PollKey(t, p)) ==> Holds(store, PollKey(t, p), PollTask))
  {
    hide *;
    forall p | p in periods
      ensures Readable(store, PollKey(t, p)) ==> Holds(store, PollKey(t, p), PollTask)
    {
      ShapedFacts(store, t, p);
    }
  }

  // A poll schedule of another host survives exactly when that host's key does
  // not end in this host's key.
  lemma OtherPollsKeptExactly(store: Schedules, t: string, plan: Assigned, periods: seq<nat>, expiry: Option<nat>,
                              group: Option<string>, other: string, p: nat)
    requires Shaped(store) && IsTarget(t) && IsTarget(other) && other != t && Lists(periods, plan.Keys)
    ensures !Suffix(t, other) ==> Agree(store, Reconciled(store, t, plan, periods, expiry, group), PollKey(other, p))
    ensures Readable(store, PollKey(other, p)) ==>
              (Readable(Reconciled(store, t, plan, periods, expiry, group), PollKey(other, p)) <==> !Suffix(t, other))
  {
    hide PollKey, WalkKey, Mentions, Shaped, IsTarget, Unused, AfterPeriods, Suffix;
    var scheduled := AfterPeriods(store, t, plan, periods, expiry, group);
    AllOwnShaped(store, t, periods);
    NoneOf("", t, other, p, periods);
    OtherKeysKept(store, t, plan, periods, expiry, group, PollKey(other, p));
    UnusedIs(scheduled, t, Names(t, periods), PollKey(other, p));
    ShapedFacts(store, other, p);
    SearchFindsSuffixes(t, other, p);
  }

  ghost predicate PollsProfile(store: Schedules, key: string, name: string) {
    && Holds(store, key, PollTask)
    && store[key].entry.kwargs.details.PollDetails? && name in store[key].entry.kwargs.details.profiles
  }

  // Every name, configured or generated, is polled at a period exactly when it
  // was assigned to it in one of the four ways.
  lemma PolledExactly(store: Schedules, t: string, plan: Assigned, periods: seq<nat>, expiry: Option<nat>,
                      group: Option<string>, profiles: map<string, Profile>, known: Known, pollBase: bool,
                      matches: (string, string) -> bool, computed: seq<string>, generate: Generate, name: string,
                      p: nat)
    requires Shaped(store) && IsTarget(t) && Lists(periods, plan.Keys)
    requires AssignedSo(plan, t, profiles, known, pollBase, matches, computed, generate)
    ensures PollsProfile(Reconciled(store, t, plan, periods, expiry, group), PollKey(t, p), name)
            <==> (ToBePolled(p, name, profiles, known, pollBase, matches)
                  || ConditionalIn(p, name, computed, profiles, t, generate))
  {
    hide PollKey, Shaped, IsTarget, Reconciled, ToBePolled, ConditionalIn;
    OwnPollsExactly(store, t, plan, periods, expiry, group, p);
    assert In(plan, p, name) <==>
           ToBePolled(p, name, profiles, known, pollBase, matches)
               || ConditionalIn(p, name, computed, profiles, t, generate);
  }

  // What the finished walk assigns.
  ghost predicate AssignedSo(plan: Assigned, t: string, profiles: map<string, Profile>, known: Known, pollBase: bool,
                             matches: (string, string) -> bool, computed: seq<string>, generate: Generate)
  {
    forall period: nat, n: string :: In(plan, period, n) <==>
      ToBePolled(period, n, profiles, known, pollBase, matches)
          || ConditionalIn(period, n, computed, profiles, t, generate)
  }

  // A configured profile that is not the tag of a generated one is polled by
  // the schedule of its own frequency, and by no other, exactly when it is
  // assigned.
  lemma PolledByItsOwnFrequency(store: Schedules, t: string, plan: Assigned, periods: seq<nat>, expiry: Option<nat>,
                                group: Option<string>, profiles: map<string, Profile>, known: Known, pollBase: bool,
                                matches: (string, string) -> bool, computed: seq<string>, generate: Generate,
                                name: string, p: nat)
    requires Shaped(store) && IsTarget(t) && Lists(periods, plan.Keys) && name in profiles
    requires AssignedSo(plan, t, profiles, known, pollBase, matches, computed, generate)
    requires forall i :: 0 <= i < |computed| && generate(computed[i]).Some? ==> Tag(computed[i], t) != name
    ensures PollsProfile(Reconciled(store, t, plan, periods, expiry, group), PollKey(t, p), name)
            <==> profiles[name].frequency == Some(p) && ToBePolled(p, name, profiles, known, pollBase, matches)
  {
    hide PollKey, Shaped, IsTarget, Reconciled, AssignedSo, Tag;
    PolledExactly(store, t, plan, periods, expiry, group, profiles, known, pollBase, matches, computed, generate, name,
                  p);
  }

  // And a generated profile, unless its tag is itself an assigned profile, by
  // the schedule of the frequency it was configured with.
  lemma GeneratedPolledByItsOwnFrequency(store: Schedules, t: string, plan: Assigned, periods: seq<nat>,
                                         expiry: Option<nat>, group: Option<string>, profiles: map<string, Profile>,
                                         known: Known, pollBase: bool, matches: (string, string) -> bool,
                                         computed: seq<string>, generate: Generate, name: string, p: nat)
    requires Shaped(store) && IsTarget(t) && Lists(periods, plan.Keys) && name in profiles && name in computed
    requires AssignedSo(plan, t, profiles, known, pollBase, matches, computed, generate)
    requires !ToBePolled(p, Tag(name, t), profiles, known, pollBase, matches)
    ensures PollsProfile(Reconciled(store, t, plan, periods, expiry, group), PollKey(t, p), Tag(name, t))
            <==> generate(name).Some? && profiles[name].frequency == Some(p)
  {
    hide PollKey, Shaped, IsTarget, Reconciled, AssignedSo, Tag, ToBePolled;
    PolledExactly(store, t, plan, periods, expiry, group, profiles, known, pollBase, matches, computed, generate,
                  Tag(name, t), p);
    if i :| 0 <= i < |computed| && ConditionalAt(p, Tag(name, t), computed[i], profiles, t, generate) {
      TagsApart(computed[i], name, t);
    }
  }

  // So a name is in two polls only when it is both: an assigned profile and the
  // tag of a generated one with another frequency.
  lemma TwoPollsOnlyWhenBoth(store: Schedules, t: string, plan: Assigned, periods: seq<nat>, expiry: Option<nat>,
                             group: Option<string>, profiles: map<string, Profile>, known: Known, pollBase: bool,
                             matches: (string, string) -> bool, computed: seq<string>, generate: Generate, name: string,
                             p: nat, q: nat)
    requires Shaped(store) && IsTarget(t) && Lists(periods, plan.Keys) && p != q
    requires AssignedSo(plan, t, profiles, known, pollBase, matches, computed, generate)
    ensures var after := Reconciled(store, t, plan, periods, expiry, group);
            PollsProfile(after, PollKey(t, p), name) && PollsProfile(after, PollKey(t, q), name) <==>
              (ToBePolled(p, name, profiles, known, pollBase, matches)
               && ConditionalIn(q, name, computed, profiles, t, generate))
              || (ToBePolled(q, name, profiles, known, pollBase, matches)
                  && ConditionalIn(p, name, computed, profiles, t, generate))
  {
    hide PollKey, Shaped, IsTarget, Reconciled, AssignedSo, Tag, AssignedAsSmart, AssignedAsStatic, IsMandatory;
    PolledExactly(store, t, plan, periods, expiry, group, profiles, known, pollBase, matches, computed, generate, name,
                  p);
    PolledExactly(store, t, plan, periods, expiry, group, profiles, known, pollBase, matches, computed, generate, name,
                  q);
    if ConditionalIn(p, name, computed, profiles, t, generate)
        && ConditionalIn(q, name, computed, profiles, t, generate) {
      var i :| 0 <= i < |computed| && ConditionalAt(p, name, computed[i], profiles, t, generate);
      var j :| 0 <= j < |computed| && ConditionalAt(q, name, computed[j], profiles, t, generate);
      TagsApart(computed[i], computed[j], t);
    }
  }

  // ---- What a profile is polled for, in its own terms ----

  // A finished walk of a host has set up its polls.
  ghost predicate SetsUp(store: Schedules, after: Schedules, t: string, plan: Assigned, profiles: map<string, Profile>,
                         known: Known, pollBase: bool, matches: (string, string) -> bool, computed: seq<string>,
                         generate: Generate)
  {
    && Shaped(store) && IsTarget(t) && AssignedSo(plan, t, profiles, known, pollBase, matches, computed, generate)
    && (forall name :: name in computed <==>
          name in known.profiles && name in profiles && profiles[name].conditions == ConditionList)
    && exists periods, expiry, group ::
         Lists(periods, plan.Keys) && after == Reconciled(store, t, plan, periods, expiry, group)
  }

  ghost predicate IsGeneratedTag(name: string, t: string, computed: seq<string>, generate: Generate) {
    exists i :: 0 <= i < |computed| && generate(computed[i]).Some? && Tag(computed[i], t) == name
  }

  // The key a field's value is stored under: dots read as bars.
  predicate Barred(field: string, key: string) {
    |key| == |field| && forall i :: 0 <= i < |key| ==> key[i] == if field[i] == '.' then '|' else field[i]
  }

  // The value stored under the field matches one of the patterns.
  ghost predicate StoredMatches(field: string, patterns: seq<string>, state: map<string, Option<string>>,
                                matches: (string, string) -> bool) {
    exists key, i :: Barred(field, key) && key in state && state[key].Some?
        && 0 <= i < |patterns| && matches(patterns[i], state[key].value)
  }

  // Why a configured profile is polled: as an enabled base or matching field
  // profile of a host that takes smart profiles, because the host's record names
  // it and it is neither a walk nor a conditional profile, or as a mandatory one.
  ghost predicate HasReason(name: string, profile: Profile, known: Known, pollBase: bool,
                            matches: (string, string) -> bool) {
    || (known.smart && !profile.disabled && pollBase && profile.conditions == Condition(Some(Base)))
    || (known.smart && !profile.disabled
        && exists field, patterns ::
             profile.conditions == Condition(Some(FieldCondition(Some(field), Some(patterns))))
                 && StoredMatches(field, patterns, known.state, matches))
    || (name in known.profiles && profile.conditions != Condition(Some(WalkProfile))
        && profile.conditions != ConditionList)
    || profile.conditions == Condition(Some(Mandatory))
  }

  lemma BarredIsHashed(field: string, key: string)
    ensures Barred(field, key) <==> key == Enrichment.HashKey(field)
  {
  }

  lemma StoredMatchesIs(profile: Profile, known: Known, matches: (string, string) -> bool)
    requires IsSmartProfileValid(profile) && profile.conditions.kind.value.FieldCondition?
    ensures var kind := profile.conditions.kind.value;
            StoredMatches(kind.field.value, kind.patterns.value, known.state, matches) <==>
              FieldValue(profile, known).Some?
              && SomeMatch(kind.patterns.value, FieldValue(profile, known).value, matches)
  {
    hide Barred;
    var field := profile.conditions.kind.value.field.value;
    forall key
      ensures Barred(field, key) <==> key == Enrichment.HashKey(field)
    {
      BarredIsHashed(field, key);
    }
  }

  lemma SmartReason(name: string, profiles: map<string, Profile>, known: Known, pollBase: bool,
                    matches: (string, string) -> bool)
    requires name in profiles && profiles[name].frequency.Some?
    ensures AssignedAsSmart(name, profiles, known, pollBase, matches) <==>
            var profile := profiles[name];
            || (known.smart && !profile.disabled && pollBase && profile.conditions == Condition(Some(Base)))
            || (known.smart && !profile.disabled
                && exists field, patterns ::
                     profile.conditions == Condition(Some(FieldCondition(Some(field), Some(patterns))))
                         && StoredMatches(field, patterns, known.state, matches))
  {
    hide StoredMatches, SomeMatch, FieldValue;
    if IsSmartProfileValid(profiles[name]) && profiles[name].conditions.kind.value.FieldCondition? {
      StoredMatchesIs(profiles[name], known, matches);
    }
  }

  lemma ReasonIs(name: string, profiles: map<string, Profile>, known: Known, pollBase: bool,
                 matches: (string, string) -> bool, p: nat)
    requires name in profiles
    ensures ToBePolled(p, name, profiles, known, pollBase, matches) <==>
            profiles[name].frequency == Some(p) && HasReason(name, profiles[name], known, pollBase, matches)
  {
    hide StoredMatches, AssignedAsSmart;
    if profiles[name].frequency.Some? {
      SmartReason(name, profiles, known, pollBase, matches);
    }
  }

  // After a finished walk a configured profile is polled at a period exactly
  // when that is its frequency and it has a reason.
  lemma PolledWithReason(store: Schedules, after: Schedules, t: string, plan: Assigned, profiles: map<string, Profile>,
                         known: Known, pollBase: bool, matches: (string, string) -> bool, computed: seq<string>,
                         generate: Generate, name: string, p: nat)
    requires SetsUp(store, after, t, plan, profiles, known, pollBase, matches, computed, generate)
    requires name in profiles && !IsGeneratedTag(name, t, computed, generate)
    ensures PollsProfile(after, PollKey(t, p), name) <==>
            profiles[name].frequency == Some(p) && HasReason(name, profiles[name], known, pollBase, matches)
  {
    hide PollKey, Shaped, IsTarget, Reconciled, AssignedSo, Tag, ToBePolled, HasReason, PollsProfile;
    var periods, expiry, group :|
      Lists(periods, plan.Keys) && after == Reconciled(store, t, plan, periods, expiry, group);
    PolledByItsOwnFrequency(store, t, plan, periods, expiry, group, profiles, known, pollBase, matches, computed,
                            generate, name, p);
    ReasonIs(name, profiles, known, pollBase, matches, p);
  }

  // A disabled base or field profile that the host's record does not name is in
  // no poll ...
  lemma DisabledIsNotPolled(store: Schedules, after: Schedules, t: string, plan: Assigned,
                            profiles: map<string, Profile>, known: Known, pollBase: bool,
                            matches: (string, string) -> bool, computed: seq<string>, generate: Generate, name: string,
                            p: nat)
    requires SetsUp(store, after, t, plan, profiles, known, pollBase, matches, computed, generate)
    requires name in profiles && !IsGeneratedTag(name, t, computed, generate) && name !in known.profiles
    requires profiles[name].disabled && profiles[name].conditions.Condition? && profiles[name].conditions.kind.Some?
             && (profiles[name].conditions.kind.value.Base? || profiles[name].conditions.kind.value.FieldCondition?)
    ensures !PollsProfile(after, PollKey(t, p), name)
  {
    hide PollKey, SetsUp, PollsProfile, StoredMatches, IsGeneratedTag;
    PolledWithReason(store, after, t, plan, profiles, known, pollBase, matches, computed, generate, name, p);
  }

  // ... an enabled base profile is polled at its frequency ...
  lemma BaseIsPolled(store: Schedules, after: Schedules, t: string, plan: Assigned, profiles: map<string, Profile>,
                     known: Known, pollBase: bool, matches: (string, string) -> bool, computed: seq<string>,
                     generate: Generate, name: string, p: nat)
    requires SetsUp(store, after, t, plan, profiles, known, pollBase, matches, computed, generate)
    requires name in profiles && !IsGeneratedTag(name, t, computed, generate)
    requires profiles[name] == Profile(Some(p), false, Condition(Some(Base))) && known.smart && pollBase
    ensures PollsProfile(after, PollKey(t, p), name)
  {
    hide PollKey, SetsUp, PollsProfile, StoredMatches, IsGeneratedTag;
    PolledWithReason(store, after, t, plan, profiles, known, pollBase, matches, computed, generate, name, p);
  }

  // ... and an enabled field profile that is not named either exactly when the
  // value stored under its field matches.
  lemma FieldIsPolled(store: Schedules, after: Schedules, t: string, plan: Assigned, profiles: map<string, Profile>,
                      known: Known, pollBase: bool, matches: (string, string) -> bool, computed: seq<string>,
                      generate: Generate, name: string, p: nat, field: string, patterns: seq<string>)
    requires SetsUp(store, after, t, plan, profiles, known, pollBase, matches, computed, generate)
    requires name in profiles && !IsGeneratedTag(name, t, computed, generate) && name !in known.profiles
    requires profiles[name] == Profile(Some(p), false, Condition(Some(FieldCondition(Some(field), Some(patterns)))))
    requires known.smart
    ensures PollsProfile(after, PollKey(t, p), name) <==> StoredMatches(field, patterns, known.state, matches)
  {
    hide PollKey, SetsUp, PollsProfile, StoredMatches, IsGeneratedTag;
    PolledWithReason(store, after, t, plan, profiles, known, pollBase, matches, computed, generate, name, p);
  }

  // A conditional profile that the host's record names is polled under its tag,
  // when its generation succeeded, at the frequency it was configured with.
  lemma ConditionalIsPolled(store: Schedules, after: Schedules, t: string, plan: Assigned,
                            profiles: map<string, Profile>, known: Known, pollBase: bool,
                            matches: (string, string) -> bool, computed: seq<string>, generate: Generate, name: string,
                            p: nat)
    requires SetsUp(store, after, t, plan, profiles, known, pollBase, matches, computed, generate)
    requires name in profiles && profiles[name].conditions == ConditionList && Tag(name, t) !in profiles
    ensures PollsProfile(after, PollKey(t, p), Tag(name, t)) <==>
            name in known.profiles && generate(name).Some? && profiles[name].frequency == Some(p)
  {
    hide PollKey, Shaped, IsTarget, Reconciled, AssignedSo, Tag, PollsProfile, AssignedAsSmart, AssignedAsStatic;
    var periods, expiry, group :|
      Lists(periods, plan.Keys) && after == Reconciled(store, t, plan, periods, expiry, group);
    PolledExactly(store, t, plan, periods, expiry, group, profiles, known, pollBase, matches, computed, generate,
                  Tag(name, t), p);
    if i :| 0 <= i < |computed| && ConditionalAt(p, Tag(name, t), computed[i], profiles, t, generate) {
      TagsApart(computed[i], name, t);
    }
    if name in computed {
      var i :| 0 <= i < |computed| && computed[i] == name;
      assert ConditionalAt(p, Tag(name, t), computed[i], profiles, t, generate) <==>
             generate(name).Some? && profiles[name].frequency == Some(p);
    }
  }
}
