/** Any sequence of loads, finished walks, failed setups and restarts: the
    expiry a walk hands on is the expiry of its own schedule, and after a load
    every walk and poll schedule carries the configured expiry until the next
    one, although updating a schedule never changes it. */
module ScheduleRuns {
  import opened Wrappers
  import opened HostKeys
  import opened TaskManager
  import opened InventoryRecords
  import opened InventoryConvergence
  import opened WalkSchedules
  import opened Polls
  import opened PollReconciliation

  datatype Event =
    | Load(left: seq<string>, lines: seq<Line>, expiry: nat)
    | WalkFinished(target: string, plan: Assigned, periods: seq<nat>)
    | SetupFailed(target: string, plan: Assigned, periods: seq<nat>)
    | Restart(target: string)

  ghost predicate GoodEvent(event: Event) {
    match event
    case Load(left, lines, _) => (forall name :: name in left ==> Parses(name)) && forall line :: line in lines ==>
        GoodLine(line)
    case WalkFinished(target, plan, periods) => IsTarget(target) && Lists(periods, plan.Keys)
    case SetupFailed(target, plan, periods) => IsTarget(target) && forall p :: p in periods ==> p in plan
    case Restart(target) => IsTarget(target)
  }

  predicate RunsWalk(store: Schedules, target: string) {
    Holds(store, WalkKey(target), WalkTask) && store[WalkKey(target)].entry.kwargs.details.WalkDetails?
  }

  function RestartData(target: string): TaskData {
    TaskData(WalkKey(target), None, None, None, None, None, Some(true), None, false)
  }

  // Only an existing schedule can be hurried.
  method TriggerWalkAfterRestart(manager: CustomPeriodicTaskManager, target: string)
    modifies manager
    ensures manager.store == AfterRestart(old(manager.store), target)
    ensures manager.store.Keys == old(manager.store).Keys
    ensures forall key :: key != WalkKey(target) ==> Agree(old(manager.store), manager.store, key)
    ensures Readable(old(manager.store), WalkKey(target)) ==>
              manager.store[WalkKey(target)] ==
                Valid(old(manager.store)[WalkKey(target)].entry.(runImmediately := true))
    ensures !Readable(old(manager.store), WalkKey(target)) ==> manager.store == old(manager.store)
  {
    hide WalkKey;
    var found := manager.WalkTaskExists(target);
    if !found {
      return;
    }
    manager.ManageTask(RestartData(target));
  }

  function AfterRestart(store: Schedules, target: string): Schedules {
    if Readable(store, WalkKey(target)) then Managed(store, RestartData(target)) else store
  }

  // A walk runs with the arguments its schedule holds and hands its expiry on.
  ghost function AfterWalk(store: Schedules, target: string, plan: Assigned, periods: seq<nat>): Schedules
    requires Lists(periods, plan.Keys)
  {
    if RunsWalk(store, target) then
      var kwargs := store[WalkKey(target)].entry.kwargs;
      Reconciled(store, target, plan, periods, Some(kwargs.details.expiry), kwargs.group)
    else store
  }

  // A setup that fails has done some of the periods and deleted nothing.
  ghost function AfterFailure(store: Schedules, target: string, plan: Assigned, periods: seq<nat>): Schedules
    requires forall p :: p in periods ==> p in plan
  {
    if RunsWalk(store, target) then
      var kwargs := store[WalkKey(target)].entry.kwargs;
      AfterPeriods(store, target, plan, periods, Some(kwargs.details.expiry), kwargs.group)
    else store
  }

  ghost function Next(state: State, event: Event): State
    requires GoodEvent(event)
  {
    match event
    case Load(left, lines, expiry) => Loaded(state, left, lines, expiry)
    case WalkFinished(target, plan, periods) => state.(store := AfterWalk(state.store, target, plan, periods))
    case SetupFailed(target, plan, periods) => state.(store := AfterFailure(state.store, target, plan, periods))
    case Restart(target) => state.(store := AfterRestart(state.store, target))
  }

  ghost predicate GoodEvents(events: seq<Event>) {
    forall event :: event in events ==> GoodEvent(event)
  }

  ghost function After(state: State, events: seq<Event>): State
    requires GoodEvents(events)
  {
    if events == [] then state else Next(After(state, events[..|events| - 1]), events[|events| - 1])
  }

  function LastExpiry(events: seq<Event>): Option<nat> {
    if events == [] then None
    else if events[|events| - 1].Load? then Some(events[|events| - 1].expiry)
    else LastExpiry(events[..|events| - 1])
  }

  // ---- The invariant ----

  ghost predicate CoherentAt(store: Schedules, key: string) {
    && ShapedAt(store, key)
    && (Holds(store, key, WalkTask) ==>
          var entry := store[key].entry;
          entry.expires.Some? && entry.kwargs.details.WalkDetails?
              && entry.kwargs.details.expiry == entry.expires.value)
    && (Holds(store, key, PollTask) ==> store[key].entry.expires.Some?)
  }

  ghost predicate Coherent(store: Schedules) {
    forall key :: key in store ==> CoherentAt(store, key)
  }

  ghost predicate CarriesAt(store: Schedules, key: string, expiry: nat) {
    Holds(store, key, WalkTask) || Holds(store, key, PollTask) ==> store[key].entry.expires == Some(expiry)
  }

  ghost predicate Carries(store: Schedules, expiry: nat) {
    forall key :: key in store ==> CarriesAt(store, key, expiry)
  }

  lemma WithoutKeeps(store: Schedules, keys: set<string>, expiry: nat)
    requires Coherent(store)
    ensures Coherent(Without(store, keys))
    ensures Carries(store, expiry) ==> Carries(Without(store, keys), expiry)
  {
    hide IsWalkKey, IsPollKey;
    forall key | key in Without(store, keys)
      ensures CoherentAt(Without(store, keys), key)
              && (Carries(store, expiry) ==> CarriesAt(Without(store, keys), key, expiry))
    {
      assert CoherentAt(store, key);
      assert Carries(store, expiry) ==> CarriesAt(store, key, expiry);
    }
  }

  lemma CoherentIsShaped(store: Schedules)
    requires Coherent(store)
    ensures Shaped(store)
  {
    hide ShapedAt;
    forall key | key in store
      ensures ShapedAt(store, key)
    {
      assert CoherentAt(store, key);
    }
  }

  lemma Kinds(t: string, p: nat)
    requires IsTarget(t)
    ensures IsWalkKey(WalkKey(t)) && !IsPollKey(WalkKey(t))
    ensures IsPollKey(PollKey(t, p)) && !IsWalkKey(PollKey(t, p))
  {
    hide PollKey, WalkKey, IsTarget;
    forall other, q: nat | IsTarget(other)
      ensures WalkKey(t) != PollKey(other, q)
    {
      KeysTellApart(t, other, p, q);
    }
    forall other | IsTarget(other)
      ensures WalkKey(other) != PollKey(t, p)
    {
      KeysTellApart(other, t, p, p);
    }
  }

  // A definition under its own name changes nothing else.
  lemma ManagedKeeps(store: Schedules, data: TaskData, expiry: nat)
    requires Coherent(store) && (Carries(store, expiry) ==> CarriesAt(Managed(store, data), data.name, expiry))
    requires data.name in Managed(store, data) ==> CoherentAt(Managed(store, data), data.name)
    ensures Coherent(Managed(store, data)) && (Carries(store, expiry) ==> Carries(Managed(store, data), expiry))
  {
    hide IsWalkKey, IsPollKey, Updated, Created;
    var after := Managed(store, data);
    forall key | key in after && key != data.name
      ensures CoherentAt(after, key) && (Carries(store, expiry) ==> CarriesAt(after, key, expiry))
    {
      assert CoherentAt(store, key);
      assert Carries(store, expiry) ==> CarriesAt(store, key, expiry);
    }
  }

  // With the expiry its own entry carries, a walk definition is coherent with
  // the options it cannot change.
  lemma WalkManaged(store: Schedules, line: Line, expiry: nat)
    requires Coherent(store) && Carries(store, expiry) && line.Line? && GoodLine(line)
    ensures Coherent(Managed(store, WalkDefinition(line, expiry)))
            && Carries(Managed(store, WalkDefinition(line, expiry)), expiry)
  {
    hide IsWalkKey, IsPollKey, WalkKey, IsTarget, HostKey;
    var data := WalkDefinition(line, expiry);
    GoodHostFacts((line.address, line.port));
    DefinitionIs(line, expiry);
    Kinds(KeyOf(line), 0);
    assert Readable(store, data.name) ==> CoherentAt(store, data.name) && CarriesAt(store, data.name, expiry);
    ManagedKeeps(store, data, expiry);
  }

  lemma PollManaged(store: Schedules, t: string, p: nat, names: seq<string>, expiry: nat, group: Option<string>)
    requires Coherent(store) && IsTarget(t)
    ensures var after := Managed(store, PollDefinition(t, p, names, Some(expiry), group));
            Coherent(after) && (Carries(store, expiry) ==> Carries(after, expiry))
  {
    hide IsWalkKey, IsPollKey, PollKey, IsTarget;
    var data := PollDefinition(t, p, names, Some(expiry), group);
    Kinds(t, p);
    assert Readable(store, data.name) ==> CoherentAt(store, data.name);
    assert Carries(store, expiry) && Readable(store, data.name) ==> CarriesAt(store, data.name, expiry);
    ManagedKeeps(store, data, expiry);
  }

  lemma {:induction false} PeriodsKeep(store: Schedules, t: string, plan: Assigned, periods: seq<nat>, expiry: nat,
                                       group: Option<string>)
    requires Coherent(store) && IsTarget(t) && forall p :: p in periods ==> p in plan
    ensures var after := AfterPeriods(store, t, plan, periods, Some(expiry), group);
            Coherent(after) && (Carries(store, expiry) ==> Carries(after, expiry))
  {
    hide Coherent, Carries, IsTarget, Managed, PollDefinition;
    if periods != [] {
      var n := |periods| - 1;
      PeriodsKeep(store, t, plan, periods[..n], expiry, group);
      PollManaged(AfterPeriods(store, t, plan, periods[..n], Some(expiry), group), t, periods[n], plan[periods[n]],
                  expiry, group);
    }
  }

  lemma WalkKeeps(store: Schedules, t: string, plan: Assigned, periods: seq<nat>, expiry: nat)
    requires Coherent(store) && IsTarget(t) && Lists(periods, plan.Keys)
    ensures Coherent(AfterWalk(store, t, plan, periods))
    ensures Carries(store, expiry) ==> Carries(AfterWalk(store, t, plan, periods), expiry)
  {
    hide IsWalkKey, IsPollKey, WalkKey, IsTarget, AfterPeriods, Unused;
    if RunsWalk(store, t) {
      var kwargs := store[WalkKey(t)].entry.kwargs;
      var handed := kwargs.details.expiry;
      assert CoherentAt(store, WalkKey(t));
      assert Carries(store, expiry) ==> CarriesAt(store, WalkKey(t), expiry);
      PeriodsKeep(store, t, plan, periods, handed, kwargs.group);
      var scheduled := AfterPeriods(store, t, plan, periods, Some(handed), kwargs.group);
      WithoutKeeps(scheduled, Unused(scheduled, t, Names(t, periods)), expiry);
    }
  }

  lemma FailureKeeps(store: Schedules, t: string, plan: Assigned, periods: seq<nat>, expiry: nat)
    requires Coherent(store) && IsTarget(t) && forall p :: p in periods ==> p in plan
    ensures Coherent(AfterFailure(store, t, plan, periods))
    ensures Carries(store, expiry) ==> Carries(AfterFailure(store, t, plan, periods), expiry)
  {
    hide IsWalkKey, IsPollKey, WalkKey, IsTarget, AfterPeriods;
    if RunsWalk(store, t) {
      var kwargs := store[WalkKey(t)].entry.kwargs;
      assert CoherentAt(store, WalkKey(t));
      assert Carries(store, expiry) ==> CarriesAt(store, WalkKey(t), expiry);
      PeriodsKeep(store, t, plan, periods, kwargs.details.expiry, kwargs.group);
    }
  }

  lemma RestartKeeps(store: Schedules, t: string, expiry: nat)
    requires Coherent(store) && IsTarget(t)
    ensures Coherent(AfterRestart(store, t))
    ensures Carries(store, expiry) ==> Carries(AfterRestart(store, t), expiry)
  {
    hide IsWalkKey, IsPollKey, WalkKey, IsTarget;
    if Readable(store, WalkKey(t)) {
      assert CoherentAt(store, WalkKey(t));
      assert Carries(store, expiry) ==> CarriesAt(store, WalkKey(t), expiry);
      ManagedKeeps(store, RestartData(t), expiry);
    }
  }

  // ---- Loads ----

  lemma ListedKinds(key: string)
    requires IsWalkKey(key) || IsPollKey(key)
    ensures Listed(key)
  {
    hide Store, Dec;
  }

  // Every walk and poll is found when the expiries are collected, so either
  // all of them carry the configured one or all of them go.
  lemma CheckedCarries(store: Schedules, expiry: nat)
    requires Coherent(store)
    ensures Coherent(ExpiryChecked(store, expiry)) && Carries(ExpiryChecked(store, expiry), expiry)
  {
    hide IsWalkKey, IsPollKey, Listed;
    var expiries := Expiries(store, {WalkTask, PollTask});
    forall key | key in store && (Holds(store, key, WalkTask) || Holds(store, key, PollTask))
      ensures Listed(key) && store[key].entry.expires.Some? && store[key].entry.expires.value in expiries
    {
      assert CoherentAt(store, key);
      ListedKinds(key);
    }
    if expiries != {} && expiries != {expiry} {
      WithoutKeeps(store, OfTask(store, WalkTask), expiry);
      var fewer := Without(store, OfTask(store, WalkTask));
      WithoutKeeps(fewer, OfTask(store, PollTask), expiry);
    }
  }

  lemma {:induction false} DeletesKeep(state: State, left: seq<string>, expiry: nat)
    requires Coherent(state.store) && Carries(state.store, expiry) && forall name :: name in left ==> Parses(name)
    ensures Coherent(AfterDeletes(state, left).store) && Carries(AfterDeletes(state, left).store, expiry)
  {
    hide Coherent, Carries, Parses, OfHost, Without;
    if left != [] {
      DeletesKeep(state, left[..|left| - 1], expiry);
      var before := AfterDeletes(state, left[..|left| - 1]).store;
      WithoutKeeps(before, OfHost(before, left[|left| - 1]), expiry);
    }
  }

  lemma LineKeeps(state: State, line: Line, expiry: nat, expiryChanged: bool)
    requires Coherent(state.store) && Carries(state.store, expiry) && GoodLine(line)
    ensures Coherent(AfterLine(state, line, expiry, expiryChanged).store)
            && Carries(AfterLine(state, line, expiry, expiryChanged).store, expiry)
  {
    hide Coherent, Carries, Parses, OfHost, Without, Managed, WalkDefinition, KeyOf;
    if line.Line? {
      KeyParses(line);
      WithoutKeeps(state.store, OfHost(state.store, KeyOf(line)), expiry);
      WalkManaged(state.store, line, expiry);
    }
  }

  lemma {:induction false} LinesKeep(state: State, lines: seq<Line>, expiry: nat, expiryChanged: bool)
    requires Coherent(state.store) && Carries(state.store, expiry) && forall line :: line in lines ==> GoodLine(line)
    ensures Coherent(AfterLines(state, lines, expiry, expiryChanged).store)
            && Carries(AfterLines(state, lines, expiry, expiryChanged).store, expiry)
  {
    hide Coherent, Carries, AfterLine, GoodLine;
    if lines != [] {
      LinesKeep(state, lines[..|lines| - 1], expiry, expiryChanged);
      LineKeeps(AfterLines(state, lines[..|lines| - 1], expiry, expiryChanged), lines[|lines| - 1], expiry,
                expiryChanged);
    }
  }

  lemma LoadCarries(state: State, left: seq<string>, lines: seq<Line>, expiry: nat)
    requires Coherent(state.store) && GoodEvent(Load(left, lines, expiry))
    ensures Coherent(Loaded(state, left, lines, expiry).store)
            && Carries(Loaded(state, left, lines, expiry).store, expiry)
  {
    hide Coherent, Carries, AfterLines, AfterDeletes, ExpiryChecked, ExpiryChanged, Parses, GoodLine;
    CheckedCarries(state.store, expiry);
    var checked := state.(store := ExpiryChecked(state.store, expiry));
    DeletesKeep(checked, left, expiry);
    LinesKeep(AfterDeletes(checked, left), lines, expiry, ExpiryChanged(state.store, expiry));
  }

  // ---- Loads of any shaped store ----

  // A walk or poll carries the configured expiry, or never had one.
  ghost predicate CarriesOrLacksAt(before: Schedules, store: Schedules, key: string, expiry: nat) {
    Holds(store, key, WalkTask) || Holds(store, key, PollTask) ==>
      store[key].entry.expires == Some(expiry) || LacksAt(before, store, key, expiry)
  }

  ghost predicate LacksAt(before: Schedules, store: Schedules, key: string, expiry: nat) {
    && Readable(before, key) && before[key].entry.expires.None?
    && Readable(store, key) && store[key].entry.expires.None? && !ExpiryChanged(before, expiry)
  }

  ghost predicate CarriesOrLacks(before: Schedules, store: Schedules, expiry: nat) {
    forall key :: key in store ==> CarriesOrLacksAt(before, store, key, expiry)
  }

  lemma CheckedOrLacks(store: Schedules, expiry: nat)
    requires Shaped(store)
    ensures CarriesOrLacks(store, ExpiryChecked(store, expiry), expiry)
  {
    hide IsWalkKey, IsPollKey, Listed;
    var expiries := Expiries(store, {WalkTask, PollTask});
    forall key | key in store && (Holds(store, key, WalkTask) || Holds(store, key, PollTask))
      ensures Listed(key) && (store[key].entry.expires.Some? ==> store[key].entry.expires.value in expiries)
    {
      assert ShapedAt(store, key);
      ListedKinds(key);
    }
  }

  lemma WithoutOrLacks(before: Schedules, store: Schedules, keys: set<string>, expiry: nat)
    requires CarriesOrLacks(before, store, expiry)
    ensures CarriesOrLacks(before, Without(store, keys), expiry)
  {
    hide ExpiryChanged;
    forall key | key in Without(store, keys)
      ensures CarriesOrLacksAt(before, Without(store, keys), key, expiry)
    {
      assert CarriesOrLacksAt(before, store, key, expiry);
    }
  }

  lemma ManagedOrLacks(before: Schedules, store: Schedules, line: Line, expiry: nat)
    requires CarriesOrLacks(before, store, expiry) && line.Line?
    ensures CarriesOrLacks(before, Managed(store, WalkDefinition(line, expiry)), expiry)
  {
    hide ExpiryChanged, WalkKey, KeyOf;
    var after := Managed(store, WalkDefinition(line, expiry));
    forall key | key in after
      ensures CarriesOrLacksAt(before, after, key, expiry)
    {
      assert key in store ==> CarriesOrLacksAt(before, store, key, expiry);
    }
  }

  lemma {:induction false} DeletesOrLack(before: Schedules, state: State, left: seq<string>, expiry: nat)
    requires CarriesOrLacks(before, state.store, expiry) && forall name :: name in left ==> Parses(name)
    ensures CarriesOrLacks(before, AfterDeletes(state, left).store, expiry)
  {
    hide CarriesOrLacks, Parses, OfHost, Without;
    if left != [] {
      var earlier := AfterDeletes(state, left[..|left| - 1]).store;
      DeletesOrLack(before, state, left[..|left| - 1], expiry);
      WithoutOrLacks(before, earlier, OfHost(earlier, left[|left| - 1]), expiry);
    }
  }

  lemma {:induction false} LinesOrLack(before: Schedules, state: State, lines: seq<Line>, expiry: nat,
                                       expiryChanged: bool)
    requires CarriesOrLacks(before, state.store, expiry)
    ensures CarriesOrLacks(before, AfterLines(state, lines, expiry, expiryChanged).store, expiry)
  {
    hide CarriesOrLacks, AfterLine;
    if lines != [] {
      LinesOrLack(before, state, lines[..|lines| - 1], expiry, expiryChanged);
      LineOrLacks(before, AfterLines(state, lines[..|lines| - 1], expiry, expiryChanged), lines[|lines| - 1], expiry,
                  expiryChanged);
    }
  }

  lemma LineOrLacks(before: Schedules, state: State, line: Line, expiry: nat, expiryChanged: bool)
    requires CarriesOrLacks(before, state.store, expiry)
    ensures CarriesOrLacks(before, AfterLine(state, line, expiry, expiryChanged).store, expiry)
  {
    hide CarriesOrLacks, Parses, OfHost, Without, Managed, WalkDefinition, KeyOf;
    if line.Line? {
      KeyParses(line);
      WithoutOrLacks(before, state.store, OfHost(state.store, KeyOf(line)), expiry);
      ManagedOrLacks(before, state.store, line, expiry);
    }
  }

  // After a load every walk and poll schedule carries the configured expiry,
  // except those that carried none before it and were not recreated because no
  // stored expiry differed.
  lemma LoadSetsExpiry(state: State, left: seq<string>, lines: seq<Line>, expiry: nat)
    requires Shaped(state.store) && forall name :: name in left ==> Parses(name)
    ensures CarriesOrLacks(state.store, Loaded(state, left, lines, expiry).store, expiry)
  {
    hide CarriesOrLacks, AfterLines, AfterDeletes, ExpiryChecked, ExpiryChanged, Parses, Shaped;
    CheckedOrLacks(state.store, expiry);
    var checked := state.(store := ExpiryChecked(state.store, expiry));
    DeletesOrLack(state.store, checked, left, expiry);
    LinesOrLack(state.store, AfterDeletes(checked, left), lines, expiry, ExpiryChanged(state.store, expiry));
  }

  // ---- Whole runs ----

  // Over any run, from any coherent store: every walk hands on the expiry its
  // own schedule has, and the last configured expiry is the one all carry.
  lemma {:induction false} ExpiryInvariant(state: State, events: seq<Event>)
    requires Coherent(state.store) && GoodEvents(events)
    ensures Coherent(After(state, events).store)
    ensures LastExpiry(events).Some? ==> Carries(After(state, events).store, LastExpiry(events).value)
  {
    hide Coherent, Carries, GoodEvent, Next;
    if events != [] {
      var n := |events| - 1;
      ExpiryInvariant(state, events[..n]);
      EventKeeps(After(state, events[..n]), events[n],
                 if LastExpiry(events[..n]).Some? then LastExpiry(events[..n]).value else 0);
    }
  }

  lemma EventKeeps(state: State, event: Event, expiry: nat)
    requires Coherent(state.store) && GoodEvent(event)
    ensures Coherent(Next(state, event).store)
    ensures if event.Load? then Carries(Next(state, event).store, event.expiry)
            else Carries(state.store, expiry) ==> Carries(Next(state, event).store, expiry)
  {
    hide Coherent, Carries, Loaded, AfterWalk, AfterFailure, AfterRestart, IsTarget, Parses, GoodLine;
    match event
    case Load(left, lines, e) => LoadCarries(state, left, lines, e);
    case WalkFinished(target, plan, periods) => WalkKeeps(state.store, target, plan, periods, expiry);
    case SetupFailed(target, plan, periods) => FailureKeeps(state.store, target, plan, periods, expiry);
    case Restart(target) => RestartKeeps(state.store, target, expiry);
  }

  // Over any run, too, the interval stored for a host is the period of its walk.
  lemma {:induction false} PeriodsMatch(state: State, events: seq<Event>)
    requires Coherent(state.store) && AllMatch(state) && GoodEvents(events)
    ensures AllMatch(After(state, events))
  {
    hide Coherent, AllMatch, GoodEvent, Next;
    if events != [] {
      var n := |events| - 1;
      PeriodsMatch(state, events[..n]);
      ExpiryInvariant(state, events[..n]);
      EventMatches(After(state, events[..n]), events[n]);
    }
  }

  lemma EventMatches(state: State, event: Event)
    requires Coherent(state.store) && AllMatch(state) && GoodEvent(event)
    ensures AllMatch(Next(state, event))
  {
    hide *;
    GoodEventIs(event);
    NextIs(state, event);
    if event.Load? {
      LoadMatches(state, event.left, event.lines, event.expiry);
    } else {
      WalkPeriodsStay(state, event);
      StoreMatches(state, Next(state, event));
    }
  }

  lemma GoodEventIs(event: Event)
    requires GoodEvent(event)
    ensures event.Load? ==> (forall name :: name in event.left ==> Parses(name))
                            && forall line :: line in event.lines ==> GoodLine(line)
  {
  }

  lemma NextIs(state: State, event: Event)
    requires GoodEvent(event)
    ensures event.Load? ==> (forall name :: name in event.left ==> Parses(name))
                            && Next(state, event) == Loaded(state, event.left, event.lines, event.expiry)
    ensures !event.Load? ==> Next(state, event).inventory == state.inventory
  {
  }

  ghost predicate SameWalks(before: Schedules, after: Schedules) {
    forall t :: IsTarget(t) && Readable(after, WalkKey(t)) ==>
      Readable(before, WalkKey(t)) && after[WalkKey(t)].entry.period == before[WalkKey(t)].entry.period
  }

  lemma WalkPeriodsStay(state: State, event: Event)
    requires Coherent(state.store) && GoodEvent(event) && !event.Load?
    ensures SameWalks(state.store, Next(state, event).store)
  {
    hide Coherent, Shaped, IsTarget, WalkKey, Lists, Reconciled, AfterPeriods;
    var store := state.store;
    CoherentIsShaped(store);
    forall t | IsTarget(t) && Readable(Next(state, event).store, WalkKey(t))
      ensures Readable(store, WalkKey(t))
              && Next(state, event).store[WalkKey(t)].entry.period == store[WalkKey(t)].entry.period
    {
      if RunsWalk(store, event.target) {
        var kwargs := store[WalkKey(event.target)].entry.kwargs;
        if event.WalkFinished? {
          WalksUntouched(store, event.target, event.plan, event.periods, Some(kwargs.details.expiry), kwargs.group, t);
        } else if event.SetupFailed? {
          WalksKeptMidway(store, event.target, event.plan, event.periods, Some(kwargs.details.expiry), kwargs.group, t);
        }
      }
    }
  }

  lemma StoreMatches(state: State, after: State)
    requires AllMatch(state) && after.inventory == state.inventory && SameWalks(state.store, after.store)
    ensures AllMatch(after)
  {
    hide WalkKey, HostKey, IsTarget, GoodHost;
    forall host | GoodHost(host)
      ensures Matches(after, host)
    {
      GoodHostFacts(host);
      assert Matches(state, host);
    }
  }

  // At every state of a run, a walk that finishes leaves exactly its host's own
  // polls, one for every assigned period, and touches no walk schedule.
  lemma PollsAfterRun(state: State, events: seq<Event>, t: string, plan: Assigned, periods: seq<nat>, p: nat,
                      other: string)
    requires Coherent(state.store) && GoodEvents(events) && IsTarget(t) && IsTarget(other) && Lists(periods, plan.Keys)
    requires RunsWalk(After(state, events).store, t)
    ensures var store, after := After(state, events).store, AfterWalk(After(state, events).store, t, plan, periods);
            && (p in plan ==> PollsWith(after, t, p, plan[p], store[WalkKey(t)].entry.kwargs.group))
            && (p !in plan ==> !Readable(after, PollKey(t, p)))
            && Agree(store, after, WalkKey(other))
  {
    hide After, Coherent, Shaped, IsTarget, Lists, PollsWith, Reconciled, WalkKey, PollKey;
    var store := After(state, events).store;
    ExpiryInvariant(state, events);
    CoherentIsShaped(store);
    var kwargs := store[WalkKey(t)].entry.kwargs;
    OwnPollsExactly(store, t, plan, periods, Some(kwargs.details.expiry), kwargs.group, p);
    WalksUntouched(store, t, plan, periods, Some(kwargs.details.expiry), kwargs.group, other);
  }
}
