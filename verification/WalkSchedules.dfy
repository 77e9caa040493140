/** What inventory lines make of walk schedules: a changed line reaches an
    existing schedule, an unchanged one leaves it alone, and a host's stored
    interval stays the period its walk is scheduled with. */
module WalkSchedules {
  import opened Wrappers
  import opened HostKeys
  import opened TaskManager
  import opened InventoryRecords
  import opened InventoryConvergence

  // The interval a line asks for: with a walk profile the one written in the
  // line, otherwise the record's own.
  predicate AsksInterval(line: Line, interval: nat) {
    line.Line? && interval == match line.walkProfile
                              case Some(_) => line.walkInterval
                              case None => line.record.walkInterval
  }

  // The walk schedule of a line's host does what the line says.
  ghost predicate WalksAs(store: Schedules, key: string, line: Line, interval: nat, expiry: nat)
    requires line.Line?
  {
    && Readable(store, key)
    && var entry, target := store[key].entry, TransformAddressToKey(line.address, line.port);
       && entry.period == interval && entry.target == target && entry.runImmediately && entry.enabled
       && entry.kwargs == Kwargs(target, line.group, WalkDetails(line.walkProfile, expiry))
  }

  // What a line that is no deletion does, for any state before it: when the
  // record is new or differs, the expiry changed or there is no readable
  // schedule, the schedule does what the line says; otherwise nothing changes.
  lemma LineSetsWalk(state: State, line: Line, expiry: nat, expiryChanged: bool, interval: nat)
    requires line.Line? && !line.delete && AsksInterval(line, interval)
    ensures var host, key := (line.address, line.port), WalkKey(TransformAddressToKey(line.address, line.port));
            var stored, after := Record(line.record.settings, interval), AfterLine(state, line, expiry, expiryChanged);
            var changed := host !in state.inventory || state.inventory[host] != stored || expiryChanged
                           || !Readable(state.store, key);
            && after.inventory == state.inventory[host := stored]
            && (forall other :: other != key ==> Agree(state.store, after.store, other))
            && (changed ==> WalksAs(after.store, key, line, interval, expiry))
            && (!changed ==> after == state)
  {
    hide TransformAddressToKey, WalkKey, Parses;
    var host := (line.address, line.port);
    if host in state.inventory && state.inventory[host] == RecordOf(line) {
      assert state.inventory[host := RecordOf(line)] == state.inventory;
    }
  }

  // An entry that was there keeps its task, its name and the expiry in its
  // options; a new one gets the line's.
  lemma LineKeepsOptions(state: State, line: Line, expiry: nat, expiryChanged: bool)
    requires line.Line? && !line.delete
    ensures var key := WalkKey(TransformAddressToKey(line.address, line.port));
            var after := AfterLine(state, line, expiry, expiryChanged);
            && Readable(after.store, key)
            && var entry := after.store[key].entry;
               && (Readable(state.store, key) ==>
                     var before := state.store[key].entry;
                     entry.task == before.task && entry.name == before.name && entry.expires == before.expires)
               && (!Readable(state.store, key) ==>
                     entry.task == WalkTask && entry.name == key && entry.expires == Some(expiry))
  {
    hide TransformAddressToKey, WalkKey, Parses, RecordOf;
  }

  // A deletion passes over entries it cannot read, and over other names.
  lemma DeletionPassesOver(state: State, line: Line, expiry: nat, expiryChanged: bool, key: string)
    requires line.Line? && line.delete
    requires !Readable(state.store, key) || !Mentions(key, TransformAddressToKey(line.address, line.port))
    ensures Agree(state.store, AfterLine(state, line, expiry, expiryChanged).store, key)
    ensures AfterLine(state, line, expiry, expiryChanged).inventory ==
              state.inventory - {(line.address, if line.port == 0 then 161 else line.port)}
  {
    hide TransformAddressToKey, Mentions, Parses, TransformKeyToAddress;
    KeyParses(line);
  }

  // ---- The stored interval is the period of the walk ----

  ghost predicate Matches(state: State, host: Host) {
    var key := WalkKey(HostKey(host));
    host in state.inventory && Readable(state.store, key) ==>
      state.store[key].entry.period == state.inventory[host].walkInterval
  }

  ghost predicate AllMatch(state: State) {
    forall host :: GoodHost(host) ==> Matches(state, host)
  }

  lemma LineMatches(state: State, line: Line, expiry: nat, expiryChanged: bool, host: Host)
    requires AllMatch(state) && GoodLine(line) && GoodHost(host)
    ensures Matches(AfterLine(state, line, expiry, expiryChanged), host)
  {
    hide HostKey, TransformAddressToKey, WalkKey, Parses, OfHost, GoodHost, TransformKeyToAddress;
    assert Matches(state, host);
    if line.Line? {
      KeyParses(line);
      if line.delete {
        DeletionMatches(state, KeyOf(line), host);
      } else {
        DefinitionIs(line, expiry);
        HostsApart((line.address, line.port), host);
        LineSetsWalk(state, line, expiry, expiryChanged, RecordOf(line).walkInterval);
      }
    }
  }

  lemma DeletionMatches(state: State, target: string, host: Host)
    requires Matches(state, host) && Parses(target)
    ensures Matches(Deleted(state, target), host)
  {
    hide HostKey, WalkKey, Parses, OfHost, TransformKeyToAddress;
  }

  // Lines keep it, whatever they change and in whatever order ...
  lemma {:induction false} LinesMatch(state: State, lines: seq<Line>, expiry: nat, expiryChanged: bool)
    requires AllMatch(state) && forall line :: line in lines ==> GoodLine(line)
    ensures AllMatch(AfterLines(state, lines, expiry, expiryChanged))
  {
    hide Matches, GoodLine, GoodHost, AfterLine;
    if lines != [] {
      var init, last := lines[..|lines| - 1], lines[|lines| - 1];
      LinesMatch(state, init, expiry, expiryChanged);
      forall host | GoodHost(host)
        ensures Matches(AfterLine(AfterLines(state, init, expiry, expiryChanged), last, expiry, expiryChanged), host)
      {
        LineMatches(AfterLines(state, init, expiry, expiryChanged), last, expiry, expiryChanged, host);
      }
    }
  }

  lemma {:induction false} DeletesMatch(state: State, left: seq<string>)
    requires AllMatch(state) && forall name :: name in left ==> Parses(name)
    ensures AllMatch(AfterDeletes(state, left))
  {
    hide Matches, GoodHost, Deleted, Parses;
    if left != [] {
      var n := |left| - 1;
      DeletesMatch(state, left[..n]);
      forall host | GoodHost(host)
        ensures Matches(Deleted(AfterDeletes(state, left[..n]), left[n]), host)
      {
        DeletionMatches(AfterDeletes(state, left[..n]), left[n], host);
      }
    }
  }

  lemma CheckMatches(state: State, expiry: nat)
    requires AllMatch(state)
    ensures AllMatch(state.(store := ExpiryChecked(state.store, expiry)))
  {
    hide HostKey, WalkKey, OfTask, Expiries, GoodHost;
    forall host | GoodHost(host)
      ensures Matches(state.(store := ExpiryChecked(state.store, expiry)), host)
    {
      assert Matches(state, host);
    }
  }

  // ... and so do whole loads.
  lemma LoadMatches(state: State, left: seq<string>, lines: seq<Line>, expiry: nat)
    requires AllMatch(state) && forall name :: name in left ==> Parses(name)
    requires forall line :: line in lines ==> GoodLine(line)
    ensures AllMatch(Loaded(state, left, lines, expiry))
  {
    hide *;
    var checked := state.(store := ExpiryChecked(state.store, expiry));
    CheckMatches(state, expiry);
    DeletesMatch(checked, left);
    LinesMatch(AfterDeletes(checked, left), lines, expiry, ExpiryChanged(state.store, expiry));
    LoadedIs(state, left, lines, expiry);
  }

  lemma LoadedIs(state: State, left: seq<string>, lines: seq<Line>, expiry: nat)
    requires forall name :: name in left ==> Parses(name)
    ensures Loaded(state, left, lines, expiry) ==
              AfterLines(AfterDeletes(state.(store := ExpiryChecked(state.store, expiry)), left), lines, expiry,
                         ExpiryChanged(state.store, expiry))
  {
  }
}
