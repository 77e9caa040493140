/** What a load leads to, from any inventory and any schedule store: for every
    host, its last line decides, except that a deletion also takes the walk
    schedules of hosts whose keys end in the deleted one. */
module InventoryConvergence {
  import opened Wrappers
  import opened Strings
  import opened HostKeys
  import opened TaskManager
  import opened InventoryRecords

  ghost predicate GoodHost(host: Host) {
    Free(host.0, ';') && host.1 != 0
  }

  ghost predicate GoodLine(line: Line) {
    line.Line? ==> GoodHost((line.address, line.port))
  }

  function HostKey(host: Host): string {
    TransformAddressToKey(host.0, host.1)
  }

  // The lines say, last one first, whether a host's record is there.
  function RecordVerdict(lines: seq<Line>, host: Host): Option<bool> {
    if lines == [] then None
    else
      var last := lines[|lines| - 1];
      if last.Line? && (last.address, last.port) == host then Some(!last.delete)
      else RecordVerdict(lines[..|lines| - 1], host)
  }

  // And whether its walk schedule is: any deletion that finds it takes it.
  function WalkVerdict(lines: seq<Line>, host: Host): Option<bool> {
    if lines == [] then None
    else
      var last := lines[|lines| - 1];
      if last.Line? && !last.delete && (last.address, last.port) == host then Some(true)
      else if last.Line? && last.delete && Suffix(KeyOf(last), HostKey(host)) then Some(false)
      else WalkVerdict(lines[..|lines| - 1], host)
  }

  function Decide(verdict: Option<bool>, before: bool): bool {
    if verdict.Some? then verdict.value else before
  }

  predicate HasWalk(state: State, host: Host) {
    Readable(state.store, WalkKey(HostKey(host)))
  }

  lemma GoodHostFacts(host: Host)
    requires GoodHost(host)
    ensures IsTarget(HostKey(host)) && Parses(HostKey(host)) && TransformKeyToAddress(HostKey(host)) == host
  {
    hide TransformAddressToKey, TransformKeyToAddress, LastColon, Digits;
    KeyRoundTrip(host.0, host.1);
  }

  lemma HostsApart(host: Host, other: Host)
    requires GoodHost(host) && GoodHost(other)
    ensures HostKey(host) == HostKey(other) <==> host == other
    ensures WalkKey(HostKey(host)) == WalkKey(HostKey(other)) <==> host == other
  {
    hide TransformAddressToKey, TransformKeyToAddress, Digits, LastColon, WalkKey, PollKey;
    GoodHostFacts(host);
    GoodHostFacts(other);
    KeysTellApart(HostKey(host), HostKey(other), 0, 0);
  }

  lemma ManagedIsReadable(store: Schedules, data: TaskData, key: string)
    requires Complete(data)
    ensures Readable(Managed(store, data), key) <==> key == data.name || Readable(store, key)
  {
  }

  // One update or deletion, seen by any one host.
  lemma DeletedAt(state: State, deleted: Host, host: Host)
    requires GoodHost(deleted) && GoodHost(host) && Parses(HostKey(deleted))
    ensures host in Deleted(state, HostKey(deleted)).inventory <==> host in state.inventory && host != deleted
    ensures HasWalk(Deleted(state, HostKey(deleted)), host) <==>
            HasWalk(state, host) && !Suffix(HostKey(deleted), HostKey(host))
  {
    hide HostKey, WalkKey, Mentions, Suffix, IsTarget, Parses, TransformKeyToAddress;
    GoodHostFacts(deleted);
    GoodHostFacts(host);
    SearchFindsSuffixes(HostKey(deleted), HostKey(host), 0);
  }

  lemma UpdatedAt(state: State, line: Line, expiry: nat, expiryChanged: bool, host: Host)
    requires line.Line? && GoodLine(line) && GoodHost(host)
    ensures var after := UpdatedBy(state, line, expiry, expiryChanged);
            && (host in after.inventory <==> host in state.inventory || host == (line.address, line.port))
            && (HasWalk(after, host) <==> HasWalk(state, host) || host == (line.address, line.port))
  {
    hide HostKey, WalkKey, Managed, TransformAddressToKey, Readable;
    HostsApart((line.address, line.port), host);
    DefinitionIs(line, expiry);
    ManagedIsReadable(state.store, WalkDefinition(line, expiry), WalkKey(HostKey(host)));
  }

  lemma DefinitionIs(line: Line, expiry: nat)
    requires line.Line?
    ensures KeyOf(line) == HostKey((line.address, line.port))
    ensures Complete(WalkDefinition(line, expiry)) && WalkDefinition(line, expiry).name == WalkKey(KeyOf(line))
  {
  }

  lemma LineAt(state: State, line: Line, expiry: nat, expiryChanged: bool, host: Host)
    requires GoodLine(line) && GoodHost(host)
    ensures var after := AfterLine(state, line, expiry, expiryChanged);
            && (host in after.inventory <==> Decide(RecordVerdict([line], host), host in state.inventory))
            && (HasWalk(after, host) <==> Decide(WalkVerdict([line], host), HasWalk(state, host)))
  {
    hide HostKey, WalkKey, Suffix, HasWalk, Deleted, UpdatedBy, TransformAddressToKey, Parses;
    if line.Line? {
      DefinitionIs(line, expiry);
      KeyParses(line);
      HostsApart((line.address, line.port), host);
      SuffixOfItself(HostKey(host));
      if line.delete {
        DeletedAt(state, (line.address, line.port), host);
      } else {
        UpdatedAt(state, line, expiry, expiryChanged, host);
      }
    }
  }

  // A line about a host whose walk schedule is an orphan, or missing, sets it up
  // anew: an orphan does not count as a schedule.
  lemma OrphanIsRecreated(state: State, line: Line, expiry: nat, expiryChanged: bool)
    requires line.Line? && !line.delete && !Readable(state.store, WalkKey(KeyOf(line)))
    ensures var after, target := AfterLine(state, line, expiry, expiryChanged), KeyOf(line);
            && Holds(after.store, WalkKey(target), WalkTask)
            && var entry := after.store[WalkKey(target)].entry;
               && entry.target == target && entry.expires == Some(expiry) && entry.runImmediately
               && entry.kwargs == Kwargs(target, line.group, WalkDetails(line.walkProfile, expiry))
               && entry.period == RecordOf(line).walkInterval
  {
    hide WalkKey, TransformAddressToKey;
  }

  lemma SuffixOfItself(s: string)
    ensures Suffix(s, s)
  {
  }

  // The lines of a load decide, for every host and from any state.
  lemma {:induction false} LinesDecide(state: State, lines: seq<Line>, expiry: nat, expiryChanged: bool, host: Host)
    requires (forall line :: line in lines ==> GoodLine(line)) && GoodHost(host)
    ensures var after := AfterLines(state, lines, expiry, expiryChanged);
            && (host in after.inventory <==> Decide(RecordVerdict(lines, host), host in state.inventory))
            && (HasWalk(after, host) <==> Decide(WalkVerdict(lines, host), HasWalk(state, host)))
  {
    hide GoodLine, GoodHost, HostKey, HasWalk, Suffix, KeyOf, AfterLine;
    if lines != [] {
      var init, last := lines[..|lines| - 1], lines[|lines| - 1];
      LinesDecide(state, init, expiry, expiryChanged, host);
      LineAt(AfterLines(state, init, expiry, expiryChanged), last, expiry, expiryChanged, host);
      assert [last][..0] == [];
    }
  }

  // Deletions of hosts that left their groups.
  lemma {:induction false} DeletesDecide(state: State, left: seq<string>, hosts: seq<Host>, host: Host)
    requires |left| == |hosts| && GoodHost(host) && forall name :: name in left ==> Parses(name)
    requires forall i :: 0 <= i < |left| ==> GoodHost(hosts[i]) && left[i] == HostKey(hosts[i])
    ensures host in AfterDeletes(state, left).inventory <==> host in state.inventory && host !in hosts
    ensures HasWalk(AfterDeletes(state, left), host) <==>
            HasWalk(state, host) && forall name :: name in left ==> !Suffix(name, HostKey(host))
    decreases |left|
  {
    hide GoodHost, HostKey, HasWalk, Suffix, Parses, Deleted;
    if left != [] {
      var n := |left| - 1;
      DeletesDecide(state, left[..n], hosts[..n], host);
      DeletedAt(AfterDeletes(state, left[..n]), hosts[n], host);
      assert left == left[..n] + [left[n]] && hosts == hosts[..n] + [hosts[n]];
    }
  }

  // ---- Convergence ----

  ghost predicate SuffixFree(hosts: set<Host>) {
    forall a, b :: a in hosts && b in hosts && Suffix(HostKey(a), HostKey(b)) ==> a == b
  }

  ghost predicate LinesAbout(lines: seq<Line>, hosts: set<Host>) {
    forall line :: line in lines && line.Line? ==> (line.address, line.port) in hosts
  }

  lemma {:induction false} VerdictsAgree(lines: seq<Line>, hosts: set<Host>, host: Host)
    requires SuffixFree(hosts) && LinesAbout(lines, hosts) && host in hosts && (forall h :: h in hosts ==> GoodHost(h))
    ensures WalkVerdict(lines, host) == RecordVerdict(lines, host)
  {
    hide HostKey, Suffix, GoodHost;
    if lines != [] {
      var last := lines[|lines| - 1];
      VerdictsAgree(lines[..|lines| - 1], hosts, host);
      if last.Line? {
        DefinitionIs(last, 0);
        HostsApart((last.address, last.port), host);
        SuffixOfItself(HostKey(host));
      }
    }
  }

  // With suffix-free host keys, a load makes exactly what the lines ask for:
  // a host whose last line is active has its record and its walk schedule, one
  // whose last line deletes it has neither, whatever was stored before and
  // whatever groups it left. For stores with orphans this rests on deletion by
  // target passing over them, as the scans of this repository do; the deletion
  // itself belongs to the scheduler.
  lemma LoadConverges(state: State, left: seq<string>, lines: seq<Line>, expiry: nat, hosts: set<Host>, host: Host)
    requires SuffixFree(hosts) && LinesAbout(lines, hosts) && host in hosts && (forall h :: h in hosts ==> GoodHost(h))
    requires forall name :: name in left ==> Parses(name)
    ensures RecordVerdict(lines, host) == Some(true) ==>
              host in Loaded(state, left, lines, expiry).inventory && HasWalk(Loaded(state, left, lines, expiry), host)
    ensures RecordVerdict(lines, host) == Some(false) ==>
              host !in Loaded(state, left, lines, expiry).inventory
                  && !HasWalk(Loaded(state, left, lines, expiry), host)
  {
    hide HostKey, Suffix, GoodHost, HasWalk, RecordVerdict, WalkVerdict, AfterLines, AfterDeletes, ExpiryChecked,
        ExpiryChanged, SuffixFree, Parses;
    assert forall line :: line in lines ==> GoodLine(line);
    VerdictsAgree(lines, hosts, host);
    LinesDecide(AfterDeletes(state.(store := ExpiryChecked(state.store, expiry)), left), lines, expiry,
                ExpiryChanged(state.store, expiry), host);
  }

  // Hosts without a line lose what leaving a group takes from them, and keep
  // the rest.
  lemma LoadKeepsOthers(state: State, left: seq<string>, leftHosts: seq<Host>, lines: seq<Line>, expiry: nat,
                        hosts: set<Host>, host: Host)
    requires SuffixFree(hosts) && LinesAbout(lines, hosts) && host in hosts && (forall h :: h in hosts ==> GoodHost(h))
    requires |left| == |leftHosts| && (forall name :: name in left ==> Parses(name))
    requires forall i :: 0 <= i < |left| ==> leftHosts[i] in hosts && left[i] == HostKey(leftHosts[i])
    requires RecordVerdict(lines, host) == None
    ensures host in Loaded(state, left, lines, expiry).inventory <==> host in state.inventory && host !in leftHosts
    ensures HasWalk(Loaded(state, left, lines, expiry), host) <==>
            HasWalk(state.(store := ExpiryChecked(state.store, expiry)), host) && host !in leftHosts
  {
    hide HostKey, Suffix, GoodHost, HasWalk, RecordVerdict, WalkVerdict, AfterLines, AfterDeletes, ExpiryChecked,
        ExpiryChanged, Parses;
    assert forall line :: line in lines ==> GoodLine(line);
    var checked := state.(store := ExpiryChecked(state.store, expiry));
    VerdictsAgree(lines, hosts, host);
    LinesDecide(AfterDeletes(checked, left), lines, expiry, ExpiryChanged(state.store, expiry), host);
    DeletesDecide(checked, left, leftHosts, host);
    SuffixOfItself(HostKey(host));
    assert host in leftHosts ==> exists i :: 0 <= i < |left| && leftHosts[i] == host;
  }

  // Without that premise the walk schedule is there exactly when no deletion
  // that finds it follows the host's last active line: deleting a host takes
  // the walk schedule of every host whose key ends in its key ...
  lemma DeletionTakesSuffixes(state: State, expiry: nat, active: Line, delete: Line)
    requires active.Line? && !active.delete && delete.Line? && delete.delete && GoodLine(active) && GoodLine(delete)
    requires (delete.address, delete.port) != (active.address, active.port) && Suffix(KeyOf(delete), KeyOf(active))
    ensures var host, after := (active.address, active.port), Loaded(state, [], [active, delete], expiry);
            RecordVerdict([active, delete], host) == Some(true) && host in after.inventory && !HasWalk(after, host)
  {
    hide HasWalk, AfterLines, ExpiryChecked, ExpiryChanged, Suffix, KeyOf, HostKey, GoodHost;
    var lines := [active, delete];
    assert lines[..1] == [active] && lines[..1][..0] == [];
    DefinitionIs(active, expiry);
    LinesDecide(state.(store := ExpiryChecked(state.store, expiry)), lines, expiry, ExpiryChanged(state.store, expiry),
                (active.address, active.port));
  }

  // ... as that of 11.1.1.1 when 1.1.1.1 is deleted.
  lemma DeletionTakesNeighbour(state: State, expiry: nat, record: Record)
    ensures var active, delete := Line("11.1.1.1", 161, false, record, 0, None, None),
            Line("1.1.1.1", 161, true, record, 0, None, None);
            var after := Loaded(state, [], [active, delete], expiry);
            ("11.1.1.1", 161) in after.inventory && !HasWalk(after, ("11.1.1.1", 161))
  {
    hide *;
    var active, delete := Line("11.1.1.1", 161, false, record, 0, None, None),
        Line("1.1.1.1", 161, true, record, 0, None, None);
    NeighbourLines(active, delete);
    DeletionTakesSuffixes(state, expiry, active, delete);
  }

  lemma NeighbourLines(active: Line, delete: Line)
    requires active.Line? && active.address == "11.1.1.1" && active.port == 161
    requires delete.Line? && delete.address == "1.1.1.1" && delete.port == 161
    ensures GoodLine(active) && GoodLine(delete) && Suffix(KeyOf(delete), KeyOf(active))
    ensures (delete.address, delete.port) != (active.address, active.port)
  {
    hide Suffix, TransformAddressToKey, Free;
    SuffixesHappen();
  }
}
