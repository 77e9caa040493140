/** The store of periodic tasks and the operations on it. A key of the store may
    hold a readable entry, or be an orphan without a definition, which every
    scan skips. */
module TaskManager {
  import opened Wrappers
  import opened HostKeys

  datatype Task = WalkTask | PollTask | DiscoveryTask

  datatype Details =
    | WalkDetails(profile: Option<string>, expiry: nat)
    | PollDetails(profiles: set<string>, frequency: nat)
    | OtherDetails

  datatype Kwargs = Kwargs(address: string, group: Option<string>, details: Details)

  datatype Entry = Entry(name: string, task: Task, target: string, kwargs: Kwargs, expires: Option<nat>, period: nat,
                         runImmediately: bool, enabled: bool)

  datatype Slot = Orphan | Valid(entry: Entry)

  type Schedules = map<string, Slot>

  // A task definition, complete or partial.
  datatype TaskData = TaskData(name: string, task: Option<Task>, target: Option<string>, kwargs: Option<Kwargs>,
                               expires: Option<nat>, period: Option<nat>, runImmediately: Option<bool>,
                               enabled: Option<bool>, app: bool)

  // Every readable entry is stored under its name.
  ghost predicate Keyed(store: Schedules) {
    forall key :: Readable(store, key) ==> store[key].entry.name == key
  }

  predicate Readable(store: Schedules, key: string) {
    key in store && store[key].Valid?
  }

  predicate Holds(store: Schedules, key: string, task: Task) {
    Readable(store, key) && store[key].entry.task == task
  }

  // What the pattern "redbeat:sc4snmp;*" finds.
  predicate Listed(key: string) {
    Store() + ";" <= key
  }

  function Without(store: Schedules, keys: set<string>): Schedules {
    map key | key in store && key !in keys :: store[key]
  }

  function Unused(store: Schedules, target: string, active: seq<string>): set<string> {
    set key | key in store && Holds(store, key, PollTask) && Mentions(key, target) && key !in active
  }

  function OfHost(store: Schedules, target: string): set<string> {
    set key | key in store && Readable(store, key) && Mentions(key, target)
  }

  function OfTask(store: Schedules, task: Task): set<string> {
    set key | key in store && Holds(store, key, task) && Listed(key)
  }

  function Expiries(store: Schedules, tasks: set<Task>): set<nat> {
    set key | key in store && Readable(store, key) && Listed(key) && store[key].entry.task in tasks
        && store[key].entry.expires.Some?
      :: store[key].entry.expires.value
  }

  // A definition that is given changes these fields of an entry and never its
  // task or its options; the positional arguments are empty in all of them.
  function Updated(entry: Entry, data: TaskData): Entry {
    entry.(
      target := if data.target.Some? then data.target.value else entry.target,
      kwargs := if data.kwargs.Some? then data.kwargs.value else entry.kwargs,
      runImmediately := if data.runImmediately.Some? then data.runImmediately.value else entry.runImmediately,
      period := if data.period.Some? then data.period.value else entry.period,
      enabled := if data.enabled.Some? then data.enabled.value else entry.enabled)
  }

  predicate Complete(data: TaskData) {
    data.task.Some? && data.period.Some? && data.app
  }

  function Created(data: TaskData): Entry
    requires Complete(data)
  {
    var target := if data.target.Some? then data.target.value else "";
    var kwargs := if data.kwargs.Some? then data.kwargs.value else Kwargs("", None, OtherDetails);
    Entry(data.name, data.task.value, target, kwargs, data.expires, data.period.value,
          data.runImmediately == Some(true), data.enabled != Some(false))
  }

  function Managed(store: Schedules, data: TaskData): Schedules {
    if Readable(store, data.name) then store[data.name := Valid(Updated(store[data.name].entry, data))]
    else if Complete(data) then store[data.name := Valid(Created(data))]
    else store
  }

  ghost predicate TakesOver(before: Schedules, after: Schedules, data: TaskData)
    requires Readable(before, data.name)
  {
    && Readable(after, data.name)
    && var was, now := before[data.name].entry, after[data.name].entry;
       && now.name == was.name && now.task == was.task && now.expires == was.expires
       && now.target == (if data.target.Some? then data.target.value else was.target)
       && now.kwargs == (if data.kwargs.Some? then data.kwargs.value else was.kwargs)
       && now.period == (if data.period.Some? then data.period.value else was.period)
       && now.enabled == (if data.enabled.Some? then data.enabled.value else was.enabled)
       && now.runImmediately == (if data.runImmediately.Some? then data.runImmediately.value else was.runImmediately)
  }

  ghost predicate Makes(after: Schedules, data: TaskData)
    requires data.task.Some? && data.period.Some?
  {
    && Readable(after, data.name)
    && var now := after[data.name].entry;
       && now.name == data.name && now.task == data.task.value && now.period == data.period.value
       && now.expires == data.expires && (data.target.Some? ==> now.target == data.target.value)
       && (data.kwargs.Some? ==> now.kwargs == data.kwargs.value)
       && (now.enabled <==> data.enabled != Some(false)) && (now.runImmediately <==> data.runImmediately == Some(true))
  }

  // An existing entry takes over what is given of the definition; a missing or
  // unreadable one is made when task, schedule and app are given.
  lemma ManagedExactly(store: Schedules, data: TaskData)
    ensures forall key :: key != data.name ==> Agree(store, Managed(store, data), key)
    ensures Readable(store, data.name) ==> TakesOver(store, Managed(store, data), data)
    ensures !Readable(store, data.name) ==>
              if data.task.Some? && data.period.Some? && data.app then Makes(Managed(store, data), data)
              else Managed(store, data) == store
  {
  }

  function ExpiryChecked(store: Schedules, expiry: nat): Schedules {
    var expiries := Expiries(store, {WalkTask, PollTask});
    if expiries == {} || expiries == {expiry} then store
    else Without(Without(store, OfTask(store, WalkTask)), OfTask(store, PollTask))
  }

  class CustomPeriodicTaskManager {
    var store: Schedules

    constructor (store: Schedules)
      ensures this.store == store
    {
      this.store := store;
    }

    // Deletes the entries found under some keys, one after another.
    method DeleteAll(keys: set<string>)
      modifies this
      ensures store == Without(old(store), keys)
    {
      var todo := keys;
      assert Without(store, {}) == store;
      while todo != {}
        invariant todo <= keys && store == Without(old(store), keys - todo)
        decreases todo
      {
        var key :| key in todo;
        store := store - {key};
        todo := todo - {key};
      }
      assert keys - todo == keys;
    }

    method DeleteUnusedPollTasks(target: string, active: seq<string>)
      requires Keyed(store)
      modifies this
      ensures store == Without(old(store), Unused(old(store), target, active))
    {
      hide Mentions;
      var todo := OfHost(store, target);
      ghost var gone: set<string> := {};
      assert Without(store, {}) == store;
      while todo != {}
        invariant todo <= OfHost(old(store), target)
        invariant gone == Unused(old(store), target, active) - todo && store == Without(old(store), gone)
        invariant forall key :: key in todo ==> key in store
        decreases todo
      {
        var key :| key in todo;
        var entry := store[key].entry;
        if entry.task == PollTask && entry.name !in active {
          store := store - {key};
          gone := gone + {key};
        }
        todo := todo - {key};
      }
    }

    // Stands for the scheduler's own deletion by target.
    method DeleteAllTasksOfHost(target: string)
      modifies this
      ensures store == Without(old(store), OfHost(old(store), target))
    {
      DeleteAll(OfHost(store, target));
    }

    method DeleteAllTasksOfType(task: Task)
      modifies this
      ensures store == Without(old(store), OfTask(old(store), task))
    {
      DeleteAll(OfTask(store, task));
    }

    // A stored expiry that differs from the configured one is only ever
    // mended by recreating the tasks, so all of them are deleted.
    method DidExpiryTimeChange(expiry: nat) returns (changed: bool)
      modifies this
      ensures store == ExpiryChecked(old(store), expiry)
      ensures changed <==> exists e :: e in Expiries(old(store), {WalkTask, PollTask}) && e != expiry
    {
      hide Listed, Holds, Readable;
      var expiries := Expiries(store, {WalkTask, PollTask});
      if expiries == {} || expiries == {expiry} {
        return false;
      }
      assert expiries - {expiry} != {} ==> exists e :: e in expiries - {expiry};
      assert expiries - {expiry} == {} ==> expiries <= {expiry};
      ghost var before := store;
      DeleteAllTasksOfType(WalkTask);
      PollsStay(before);
      DeleteAllTasksOfType(PollTask);
      changed := true;
    }

    method ManageTask(data: TaskData)
      modifies this
      ensures store == Managed(old(store), data)
    {
      if Readable(store, data.name) {
        var entry := store[data.name].entry;
        if data.target.Some? { entry := entry.(target := data.target.value); }
        if data.kwargs.Some? { entry := entry.(kwargs := data.kwargs.value); }
        if data.runImmediately.Some? { entry := entry.(runImmediately := data.runImmediately.value); }
        if data.period.Some? { entry := entry.(period := data.period.value); }
        if data.enabled.Some? { entry := entry.(enabled := data.enabled.value); }
        store := store[data.name := Valid(entry)];
        return;
      }
      if data.task.None? || data.period.None? || !data.app {
        return;
      }
      store := store[data.name := Valid(Created(data))];
    }

    method WalkTaskExists(target: string) returns (found: bool)
      ensures found == Readable(store, WalkKey(target))
    {
      found := Readable(store, WalkKey(target));
    }
  }

  // A walk or poll of this program that carries an expiry.
  ghost predicate CarriesExpiry(store: Schedules, key: string, expiry: nat) {
    && "redbeat:sc4snmp;" <= key && Readable(store, key)
    && store[key].entry.task in {WalkTask, PollTask} && store[key].entry.expires == Some(expiry)
  }

  // When some walk or poll carries another expiry than the configured one all
  // walks and polls go, those without an expiry included; otherwise, and for
  // everything else in the store, nothing changes.
  lemma CheckedExactly(store: Schedules, expiry: nat)
    ensures if exists key, other :: CarriesExpiry(store, key, other) && other != expiry then
              forall key :: key in ExpiryChecked(store, expiry) <==>
                key in store && !("redbeat:sc4snmp;" <= key && Readable(store, key)
                                  && store[key].entry.task in {WalkTask, PollTask})
            else ExpiryChecked(store, expiry) == store
    ensures forall key :: key in ExpiryChecked(store, expiry) ==> Agree(store, ExpiryChecked(store, expiry), key)
  {
    var expiries := Expiries(store, {WalkTask, PollTask});
    if expiries == {} || expiries == {expiry} {
      forall key, other | CarriesExpiry(store, key, other)
        ensures other == expiry
      {
        assert other in expiries;
      }
    } else {
      assert !(expiries <= {expiry});
      var other :| other in expiries && other != expiry;
      var key :| key in store && Readable(store, key) && Listed(key)
          && store[key].entry.task in {WalkTask, PollTask} && store[key].entry.expires == Some(other);
      assert CarriesExpiry(store, key, other);
    }
  }

  // Deleting one kind of task leaves the other kind to be found.
  lemma PollsStay(store: Schedules)
    ensures OfTask(Without(store, OfTask(store, WalkTask)), PollTask) == OfTask(store, PollTask)
  {
    hide Listed;
  }
}
