/** Loading the inventory: hosts dropped from groups are deleted, then every
    line updates or deletes its host's record and walk schedule. */
module InventoryRecords {
  import opened Wrappers
  import opened HostKeys
  import opened TaskManager

  type Host = (string, nat)

  datatype Record = Record(settings: string, walkInterval: nat)

  // A line that cannot be made into a record raises an error and is skipped.
  datatype Line =
    | Malformed
    | Line(address: string, port: nat, delete: bool, record: Record, walkInterval: nat, walkProfile: Option<string>,
           group: Option<string>)

  // The records, the targets and attributes documents kept by host key, and
  // the schedules.
  datatype State = State(inventory: map<Host, Record>, targets: set<string>, attributes: set<string>, store: Schedules)

  // ---- Hosts that left their group ----

  datatype Element = Element(address: string, port: Option<nat>)

  function GroupsKeys(elements: seq<Element>, groupPort: nat): (keys: seq<string>)
    ensures |keys| == |elements|
  {
    seq(|elements|, i requires 0 <= i < |elements| =>
      TransformAddressToKey(elements[i].address, if elements[i].port.Some? then elements[i].port.value else groupPort))
  }

  function GroupPort(ports: map<string, nat>, group: string): nat {
    if group in ports then ports[group] else DEFAULT_PORT
  }

  predicate LeftGroup(previous: map<string, seq<Element>>, current: map<string, seq<Element>>, ports: map<string, nat>,
                      group: string, host: string) {
    && group in previous && host in GroupsKeys(previous[group], GroupPort(ports, group))
    && (group in current ==> host !in GroupsKeys(current[group], GroupPort(ports, group)))
  }

  // An element with its own port, or else the group's, or else the default one.
  predicate ListedAt(elements: seq<Element>, ports: map<string, nat>, group: string, address: string, port: nat) {
    exists i :: 0 <= i < |elements| && elements[i].address == address
        && (var own := if elements[i].port.Some? then elements[i].port.value
                       else if group in ports then ports[group] else 161;
            port == if own == 0 then 161 else own)
  }

  lemma ListedByKey(elements: seq<Element>, ports: map<string, nat>, group: string, address: string, port: nat)
    requires port != 0
    ensures TransformAddressToKey(address, port) in GroupsKeys(elements, GroupPort(ports, group)) <==>
            ListedAt(elements, ports, group, address, port)
  {
    hide TransformAddressToKey, TransformKeyToAddress, LastColon, Digits;
    var key, keys := TransformAddressToKey(address, port), GroupsKeys(elements, GroupPort(ports, group));
    KeyRoundTrip(address, port);
    forall i | 0 <= i < |elements|
      ensures keys[i] == key <==>
                elements[i].address == address
                && (var own := if elements[i].port.Some? then elements[i].port.value
                               else if group in ports then ports[group] else 161;
                    port == if own == 0 then 161 else own)
    {
      var own := if elements[i].port.Some? then elements[i].port.value else GroupPort(ports, group);
      KeyRoundTrip(elements[i].address, own);
      SameKeys(elements[i].address, own, address, port);
    }
  }

  lemma SameKeys(a: string, p: nat, b: string, q: nat)
    ensures a == b && (if p == 0 then DEFAULT_PORT else p) == (if q == 0 then DEFAULT_PORT else q) ==>
              TransformAddressToKey(a, p) == TransformAddressToKey(b, q)
  {
  }

  // A host left a group exactly when the group listed it before and, if the
  // group is still there, does not now.
  lemma LeftGroupMeans(previous: map<string, seq<Element>>, current: map<string, seq<Element>>,
                       ports: map<string, nat>, group: string, address: string, port: nat)
    requires port != 0
    ensures LeftGroup(previous, current, ports, group, TransformAddressToKey(address, port)) <==>
            && group in previous && ListedAt(previous[group], ports, group, address, port)
            && (group in current ==> !ListedAt(current[group], ports, group, address, port))
  {
    hide TransformAddressToKey, ListedAt, GroupsKeys;
    if group in previous {
      ListedByKey(previous[group], ports, group, address, port);
    }
    if group in current {
      ListedByKey(current[group], ports, group, address, port);
    }
  }

  ghost predicate LeftSomeGroup(previous: map<string, seq<Element>>, current: map<string, seq<Element>>,
                                ports: map<string, nat>, groups: set<string>, host: string) {
    exists group :: group in groups && LeftGroup(previous, current, ports, group, host)
  }

  method AppendAll(list: seq<string>, keys: set<string>) returns (longer: seq<string>)
    ensures forall key :: key in longer <==> key in list || key in keys
  {
    longer := list;
    var todo := keys;
    while todo != {}
      invariant todo <= keys
      invariant forall key :: key in longer <==> key in list || key in keys - todo
      decreases todo
    {
      var key :| key in todo;
      longer := longer + [key];
      todo := todo - {key};
    }
  }

  // Exactly the hosts some previous group lists and that group, if it is still
  // there, no longer does.
  method ReturnHostsFromDeletedGroups(previous: map<string, seq<Element>>, current: map<string, seq<Element>>,
                                      ports: map<string, nat>)
    returns (hosts: seq<string>)
    ensures forall host :: host in hosts <==> LeftSomeGroup(previous, current, ports, previous.Keys, host)
  {
    hide GroupsKeys;
    hosts := [];
    var todo := previous.Keys;
    while todo != {}
      invariant todo <= previous.Keys
      invariant forall host :: host in hosts <==> LeftSomeGroup(previous, current, ports, previous.Keys - todo, host)
      decreases todo
    {
      var group :| group in todo;
      var groupPort := GroupPort(ports, group);
      var previousKeys := GroupsKeys(previous[group], groupPort);
      ghost var before, done := hosts, previous.Keys - todo;
      if group !in current {
        hosts := hosts + previousKeys;
      } else {
        var currentKeys := GroupsKeys(current[group], groupPort);
        var gone := set key | key in previousKeys && key !in currentKeys;
        hosts := AppendAll(hosts, gone);
      }
      forall host
        ensures host in hosts <==> LeftSomeGroup(previous, current, ports, done + {group}, host)
      {
        OneMoreGroup(previous, current, ports, done, group, host);
      }
      todo := todo - {group};
      assert previous.Keys - todo == done + {group};
    }
    assert previous.Keys - todo == previous.Keys;
  }

  lemma OneMoreGroup(previous: map<string, seq<Element>>, current: map<string, seq<Element>>, ports: map<string, nat>,
                     done: set<string>, group: string, host: string)
    ensures LeftSomeGroup(previous, current, ports, done + {group}, host)
            <==> LeftSomeGroup(previous, current, ports, done, host) || LeftGroup(previous, current, ports, group, host)
  {
    hide LeftGroup;
    assert group in done + {group};
    if g :| g in done && LeftGroup(previous, current, ports, g, host) {
      assert g in done + {group};
    }
  }

  // ---- One line, one host ----

  // The target must read as an address and a number.
  predicate Parses(target: string) {
    ':' in target ==> Digits(target[LastColon(target) + 1..])
  }

  function KeyOf(line: Line): string
    requires line.Line?
  {
    TransformAddressToKey(line.address, line.port)
  }

  // With a walk profile, the interval is the one written in the line.
  function RecordOf(line: Line): Record
    requires line.Line?
  {
    if line.walkProfile.Some? then line.record.(walkInterval := line.walkInterval) else line.record
  }

  function WalkDefinition(line: Line, expiry: nat): TaskData
    requires line.Line?
  {
    var target := KeyOf(line);
    TaskData(WalkKey(target), Some(WalkTask), Some(target),
             Some(Kwargs(target, line.group, WalkDetails(line.walkProfile, expiry))),
             Some(expiry), Some(RecordOf(line).walkInterval), Some(true), Some(true), true)
  }

  function Deleted(state: State, target: string): State
    requires Parses(target)
  {
    State(state.inventory - {TransformKeyToAddress(target)}, state.targets - {target}, state.attributes - {target},
          Without(state.store, OfHost(state.store, target)))
  }

  // An unchanged record still gets its walk scheduled again when the expiry
  // changed or the schedule is missing.
  predicate Reschedules(state: State, line: Line, expiryChanged: bool)
    requires line.Line?
  {
    var host := (line.address, line.port);
    host !in state.inventory || state.inventory[host] != RecordOf(line) || expiryChanged
        || !Readable(state.store, WalkKey(KeyOf(line)))
  }

  function UpdatedBy(state: State, line: Line, expiry: nat, expiryChanged: bool): State
    requires line.Line?
  {
    state.(inventory := state.inventory[(line.address, line.port) := RecordOf(line)],
           store := if Reschedules(state, line, expiryChanged) then Managed(state.store, WalkDefinition(line, expiry))
               else state.store)
  }

  function AfterLine(state: State, line: Line, expiry: nat, expiryChanged: bool): State {
    match line
    case Malformed => state
    case Line(_, _, delete, _, _, _, _) =>
      KeyParses(line);
      if delete then Deleted(state, KeyOf(line)) else UpdatedBy(state, line, expiry, expiryChanged)
  }

  lemma KeyParses(line: Line)
    requires line.Line?
    ensures Parses(KeyOf(line))
    ensures TransformKeyToAddress(KeyOf(line)) == (line.address, if line.port == 0 then DEFAULT_PORT else line.port)
  {
    hide TransformAddressToKey, TransformKeyToAddress, LastColon, Digits;
    KeyRoundTrip(line.address, line.port);
  }

  function AfterLines(state: State, lines: seq<Line>, expiry: nat, expiryChanged: bool): State {
    if lines == [] then state
    else AfterLine(AfterLines(state, lines[..|lines| - 1], expiry, expiryChanged), lines[|lines| - 1], expiry,
                   expiryChanged)
  }

  function AfterDeletes(state: State, hosts: seq<string>): State
    requires forall host :: host in hosts ==> Parses(host)
  {
    if hosts == [] then state else Deleted(AfterDeletes(state, hosts[..|hosts| - 1]), hosts[|hosts| - 1])
  }

  function ExpiryChanged(store: Schedules, expiry: nat): bool {
    var expiries := Expiries(store, {WalkTask, PollTask});
    expiries != {} && expiries != {expiry}
  }

  // A whole load.
  function Loaded(state: State, hosts: seq<string>, lines: seq<Line>, expiry: nat): State
    requires forall host :: host in hosts ==> Parses(host)
  {
    AfterLines(AfterDeletes(state.(store := ExpiryChecked(state.store, expiry)), hosts), lines, expiry,
               ExpiryChanged(state.store, expiry))
  }

  class InventoryRecordManager {
    var inventory: map<Host, Record>
    var targets: set<string>
    var attributes: set<string>
    const periodic: CustomPeriodicTaskManager

    constructor (periodic: CustomPeriodicTaskManager)
      ensures this.periodic == periodic && inventory == map[] && targets == {} && attributes == {}
    {
      this.periodic := periodic;
      inventory, targets, attributes := map[], {}, {};
    }

    ghost function Now(): State
      reads this, periodic
    {
      State(inventory, targets, attributes, periodic.store)
    }

    method Delete(target: string)
      requires Parses(target)
      modifies this, periodic
      ensures Now() == Deleted(old(Now()), target)
    {
      var host := TransformKeyToAddress(target);
      periodic.DeleteAllTasksOfHost(target);
      inventory := inventory - {host};
      targets := targets - {target};
      attributes := attributes - {target};
    }

    method Update(line: Line, expiry: nat, expiryChanged: bool)
      requires line.Line?
      modifies this, periodic
      ensures Now() == UpdatedBy(old(Now()), line, expiry, expiryChanged)
    {
      hide Managed, WalkDefinition, RecordOf, KeyOf, Readable, WalkKey;
      var record := RecordOf(line);
      var host := (line.address, line.port);
      var known := host in inventory;
      var same := known && inventory[host] == record;
      inventory := inventory[host := record];
      if same && !expiryChanged {
        var scheduled := periodic.WalkTaskExists(KeyOf(line));
        if scheduled {
          return;
        }
      }
      periodic.ManageTask(WalkDefinition(line, expiry));
    }

    // Reports whether any line was malformed.
    method ManageInventoryRecords(hosts: seq<string>, lines: seq<Line>, expiry: nat, expiryChanged: bool)
      returns (errors: bool)
      requires forall host :: host in hosts ==> Parses(host)
      modifies this, periodic
      ensures Now() == AfterLines(AfterDeletes(old(Now()), hosts), lines, expiry, expiryChanged)
      ensures errors <==> exists i :: 0 <= i < |lines| && lines[i].Malformed?
    {
      hide Deleted, UpdatedBy, Parses, KeyOf;
      errors := false;
      for i := 0 to |hosts|
        invariant Now() == AfterDeletes(old(Now()), hosts[..i])
      {
        assert hosts[..i + 1][..i] == hosts[..i];
        Delete(hosts[i]);
      }
      assert hosts[..|hosts|] == hosts;
      for i := 0 to |lines|
        invariant Now() == AfterLines(AfterDeletes(old(Now()), hosts), lines[..i], expiry, expiryChanged)
        invariant errors <==> exists j :: 0 <= j < i && lines[j].Malformed?
      {
        assert lines[..i + 1][..i] == lines[..i];
        var line := lines[i];
        if line.Line? {
          KeyParses(line);
          if line.delete {
            Delete(KeyOf(line));
          } else {
            Update(line, expiry, expiryChanged);
          }
        } else {
          errors := true;
        }
      }
      assert lines[..|lines|] == lines;
    }

    method Load(previous: map<string, seq<Element>>, current: map<string, seq<Element>>, ports: map<string, nat>,
                lines: seq<Line>, expiry: nat)
      returns (errors: bool, ghost left: seq<string>)
      modifies this, periodic
      ensures forall host :: host in left <==> LeftSomeGroup(previous, current, ports, previous.Keys, host)
      ensures forall host :: host in left ==> Parses(host)
      ensures Now() == Loaded(old(Now()), left, lines, expiry)
      ensures errors <==> exists i :: 0 <= i < |lines| && lines[i].Malformed?
    {
      hide LeftSomeGroup, Parses, AfterLines, AfterDeletes, Expiries;
      ghost var before := Now();
      var changed := periodic.DidExpiryTimeChange(expiry);
      var hosts := ReturnHostsFromDeletedGroups(previous, current, ports);
      forall host | host in hosts
        ensures Parses(host)
      {
        GroupHostParses(previous, current, ports, host);
      }
      left := hosts;
      errors := ManageInventoryRecords(hosts, lines, expiry, changed);
      assert Now() == Loaded(before, hosts, lines, expiry);
    }
  }

  lemma GroupHostParses(previous: map<string, seq<Element>>, current: map<string, seq<Element>>,
                        ports: map<string, nat>, host: string)
    requires LeftSomeGroup(previous, current, ports, previous.Keys, host)
    ensures Parses(host)
  {
    hide TransformAddressToKey, TransformKeyToAddress, LastColon, Digits;
    var group :| group in previous.Keys && LeftGroup(previous, current, ports, group, host);
    var keys := GroupsKeys(previous[group], GroupPort(ports, group));
    var i :| 0 <= i < |keys| && keys[i] == host;
    var element := previous[group][i];
    KeyRoundTrip(element.address, if element.port.Some? then element.port.value else GroupPort(ports, group));
  }
}
