/** The worker that translates traps, one after another. It remembers which MIB
    modules it has tried, so that each is asked for once in its life. */
module TrapWorkers {
  import opened Wrappers
  import opened MibIndex
  import opened Traps
  import opened TrapTranslations

  // All that was ever asked to be loaded: different modules each time.
  ghost predicate Requests(requests: seq<set<string>>, attempted: set<string>) {
    && (forall i, j :: 0 <= i < j < |requests| ==> requests[i] !! requests[j])
    && (forall i :: 0 <= i < |requests| ==> requests[i] != {} && requests[i] <= attempted)
  }

  // How many of the requests contain a module.
  ghost function TimesRequested(requests: seq<set<string>>, mib: string): nat {
    if requests == [] then 0
    else TimesRequested(requests[..|requests| - 1], mib) + if mib in requests[|requests| - 1] then 1 else 0
  }

  lemma {:induction false} RequestedAtMostOnce(requests: seq<set<string>>, attempted: set<string>, mib: string)
    requires Requests(requests, attempted)
    ensures TimesRequested(requests, mib) <= 1
    ensures TimesRequested(requests, mib) == 1 <==> exists i :: 0 <= i < |requests| && mib in requests[i]
  {
    if requests != [] {
      var n := |requests| - 1;
      RequestedAtMostOnce(requests[..n], attempted, mib);
      assert requests[..n] + [requests[n]] == requests;
      if mib in requests[n] {
        forall i | 0 <= i < n
          ensures mib !in requests[..n][i]
        {
          assert requests[i] !! requests[n];
        }
      }
    }
  }

  lemma OneMoreRequest(requests: seq<set<string>>, attempted: set<string>, more: set<string>)
    requires Requests(requests, attempted) && more != {} && more !! attempted
    ensures Requests(requests + [more], attempted + more)
  {
  }

  // Passes over a trap beyond the first each follow a request, in this trap,
  // that loaded something.
  ghost predicate Paid(requests: seq<set<string>>, from: nat, passes: nat, loadable: set<string>) {
    && passes >= 1 && from + passes - 1 <= |requests|
    && forall i :: from <= i < from + passes - 1 ==> requests[i] * loadable != {}
  }

  class TrapWorker {
    const mibs: Mibs
    const includeUnresolved: bool
    var attempted: set<string>
    var loaded: set<string>
    ghost var requests: seq<set<string>>

    ghost predicate Valid()
      reads this
    {
      Requests(requests, attempted)
    }

    ghost function Remembered(): Memory
      reads this
    {
      Memory(attempted, loaded)
    }

    constructor (mibs: Mibs, includeUnresolved: bool, loaded: set<string>)
      ensures Valid() && requests == [] && attempted == {} && this.loaded == loaded
      ensures this.mibs == mibs && this.includeUnresolved == includeUnresolved
    {
      this.mibs, this.includeUnresolved, this.loaded := mibs, includeUnresolved, loaded;
      attempted, requests := {}, [];
    }

    method ResolveWorkVarbinds(work: seq<Pair>) returns (table: seq<Bound>, unresolved: seq<Pair>)
      ensures table == Table(mibs, loaded, work) && unresolved == Failed(mibs, loaded, work)
    {
      table, unresolved := [], [];
      for i := 0 to |work|
        invariant table == Table(mibs, loaded, work[..i]) && unresolved == Failed(mibs, loaded, work[..i])
      {
        assert work[..i + 1][..i] == work[..i];
        var r := mibs.resolve(loaded, work[i]);
        if r.Some? {
          table := table + [r.value];
        } else {
          unresolved := unresolved + [work[i]];
        }
      }
      assert work[..|work|] == work;
    }

    // Modules never tried before are asked for, all at once.
    method LoadNewTrapMibs(names: set<string>) returns (any: bool)
      requires Valid()
      modifies this
      ensures Valid() && Remembered() == Asked(mibs, old(Remembered()), names)
      ensures any == Loads(mibs, old(Remembered()), names)
      ensures requests == if names <= old(attempted) then old(requests) else old(requests) + [names - old(attempted)]
    {
      hide Requests;
      var newMibs := names - attempted;
      assert attempted + newMibs == attempted + names;
      if newMibs == {} {
        assert attempted + names == attempted && loaded + newMibs * mibs.loadable == loaded;
        return false;
      }
      OneMoreRequest(requests, attempted, newMibs);
      attempted := attempted + newMibs;
      requests := requests + [newMibs];
      var now := newMibs * mibs.loadable;
      loaded := loaded + now;
      any := now != {};
    }

    method ModuleFor(isOid: string -> bool, s: string) returns (names: set<string>)
      ensures names == ModuleOfOid(mibs, isOid, s)
    {
      hide KnownMib;
      names := {};
      if isOid(s) && ENTERPRISES <= s {
        var found, mib := IsMibKnown(mibs.index, s);
        if found {
          names := {mib};
        }
      }
    }

    // The modules of enterprise OIDs in names and values are asked for before
    // anything is resolved.
    method PreloadTrapMibs(work: seq<Pair>, isOid: string -> bool) returns (any: bool)
      requires Valid()
      modifies this
      ensures Valid() && old(requests) <= requests
      ensures Remembered() == Asked(mibs, old(Remembered()), Preloads(mibs, isOid, work))
      ensures any == Loads(mibs, old(Remembered()), Preloads(mibs, isOid, work))
    {
      hide Requests, ModuleOfOid, Asked, Loads;
      var names: set<string> := {};
      for i := 0 to |work|
        invariant Valid() && requests == old(requests) && Remembered() == old(Remembered())
        invariant names == Preloads(mibs, isOid, work[..i])
      {
        assert work[..i + 1][..i] == work[..i];
        var ofName := ModuleFor(isOid, work[i].name);
        var ofValue := ModuleFor(isOid, work[i].value);
        names := names + ofName + ofValue;
      }
      assert work[..|work|] == work;
      any := LoadNewTrapMibs(names);
    }

    // The bindings that failed are tried again, all of the trap's if a module
    // could be loaded for one of them.
    method RetryTrapVarbindsAfterMibLoad(work: seq<Pair>, notTranslated: seq<Pair>, table: seq<Bound>)
      returns (newTable: seq<Bound>, unresolved: seq<Pair>)
      requires Valid()
      modifies this
      ensures Valid() && old(requests) <= requests
      ensures Translation(Remembered(), newTable, unresolved) ==
                Retried(mibs, old(Remembered()), work, notTranslated, table)
    {
      hide Requests, KnownMib, Table, Failed;
      unresolved := [];
      var names: set<string>, retried: seq<Pair> := {}, [];
      for i := 0 to |notTranslated|
        invariant Valid() && requests == old(requests) && Remembered() == old(Remembered())
        invariant names == ModulesOf(mibs, notTranslated[..i])
        invariant retried == Retriable(mibs, notTranslated[..i]) && unresolved == Hopeless(mibs, notTranslated[..i])
      {
        assert notTranslated[..i + 1][..i] == notTranslated[..i];
        var found, mib := IsMibKnown(mibs.index, notTranslated[i].name);
        if found {
          names := names + {mib};
          retried := retried + [notTranslated[i]];
        } else {
          unresolved := unresolved + [notTranslated[i]];
        }
      }
      assert notTranslated[..|notTranslated|] == notTranslated;
      NothingAsked(mibs, Remembered());
      if names != {} {
        var any := LoadNewTrapMibs(names);
        if any {
          newTable, unresolved := ResolveWorkVarbinds(work);
          return;
        }
      }
      var more, failed := ResolveWorkVarbinds(retried);
      newTable, unresolved := table + more, unresolved + failed;
    }

    // Resolved bindings that still go by a placeholder have the whole trap
    // resolved anew.
    method ReResolveTrapWorkIfNeeded(work: seq<Pair>, table: seq<Bound>, unresolved: seq<Pair>)
      returns (newTable: seq<Bound>, newUnresolved: seq<Pair>)
      ensures Translation(Remembered(), newTable, newUnresolved) ==
                Settled(mibs, Translation(Remembered(), table, unresolved), work)
    {
      hide Table, Failed;
      newTable, newUnresolved := table, unresolved;
      for i := 0 to |table|
        invariant newTable == table && newUnresolved == unresolved
        invariant forall j :: 0 <= j < i ==> !mibs.placeholder(table[j])
      {
        if mibs.placeholder(table[i]) {
          newTable, newUnresolved := ResolveWorkVarbinds(work);
          return;
        }
      }
    }

    // Passes over the trap until nothing more is asked for, at most five, each
    // but the last of which had a module loaded that was never tried before.
    method ProcessTrapMetrics(work: seq<Pair>, table: seq<Bound>)
      returns (result: Metrics, ghost passes: nat, ghost f: Filing)
      requires Valid()
      modifies this
      ensures Valid() && old(requests) <= requests
      ensures passes <= 5 && Paid(requests, |old(requests)|, passes, mibs.loadable)
      ensures "" in attempted ==> "" in old(attempted)
      ensures (Remembered(), result) == Passed(mibs, work, old(Remembered()), table, map[], RETRY_MAX)
      ensures LeavesFiled(mibs, work, table, old(loaded), loaded, f, passes, result)
    {
      hide Requests, KnownMib, Stops, FiledAll, Table, Failed, HoldsFiled, Resolves, LeavesFiled, Asked, Loads;
      var now := table;
      result, passes, f := map[], 0, Filing([], table, 0);
      ghost var earlier: seq<Bound> := [];
      NothingFiled(mibs);
      for pass := 0 to RETRY_MAX
        invariant Valid() && old(requests) <= requests
        invariant passes == pass && |requests| == |old(requests)| + pass
                  && Paid(requests, |old(requests)|, pass + 1, mibs.loadable)
        invariant Passed(mibs, work, Remembered(), now, result, RETRY_MAX - pass) ==
                  Passed(mibs, work, old(Remembered()), table, map[], RETRY_MAX)
        invariant result == FiledAll(mibs, map[], earlier)
        invariant "" in attempted ==> "" in old(attempted)
        invariant pass == 0 ==> earlier == [] && now == table
        invariant pass > 0 ==> now == Table(mibs, loaded, work)
        invariant forall b :: b in earlier || b in now ==> b in table || Resolves(mibs, work, b)
        invariant pass == 5 ==> LeavesFiled(mibs, work, table, old(loaded), loaded, f, 5, result)
        invariant pass == 0 ==> loaded == old(loaded)
      {
        passes := passes + 1;
        ghost var before := Remembered();
        var retry, remote, stop;
        retry, remote, result, stop := ProcessSnmpData(mibs, now, result);
        FiledInTurn(mibs, map[], earlier, now[..stop]);
        f, earlier := Filing(earlier, now, stop), earlier + now[..stop];
        if retry {
          StopKnows(mibs, now[stop]);
        }
        if !retry || remote == [] {
          FiledLeaves(mibs, work, table, old(loaded), loaded, f, passes, result);
          return;
        }
        var names := set mib | mib in remote;
        OnlyOne(remote, KnownMib(mibs.index, now[stop].oid).value);
        AskedIs(mibs, before, names);
        var any := LoadNewTrapMibs(names);
        if !any {
          FiledLeaves(mibs, work, table, old(loaded), loaded, f, passes, result);
          return;
        }
        var failed;
        now, failed := ResolveWorkVarbinds(work);
        forall b | b in now
          ensures Resolves(mibs, work, b)
        {
          TableResolves(mibs, loaded, work, work, b);
        }
        if passes == 5 {
          FiledLeaves(mibs, work, table, old(loaded), loaded, f, passes, result);
        }
      }
    }

    // One trap, phase by phase. With the untranslated bindings included, every
    // OID it carried is in what it becomes.
    method Trap(work: seq<Pair>, isOid: string -> bool)
      returns (result: Metrics, ghost filed: Metrics, ghost passes: nat, ghost f: Filing)
      requires Valid() && Preserving(mibs) && Separate(mibs)
      modifies this
      ensures Valid() && old(requests) <= requests && passes <= 5
      ensures exists from :: |old(requests)| <= from && Paid(requests, from, passes, mibs.loadable)
      ensures var tr := Translated(mibs, isOid, old(Remembered()), work);
              && Partition(work, tr.table, tr.unresolved)
              && (Remembered(), filed) == Passed(mibs, work, tr.memory, tr.table, map[], RETRY_MAX)
      ensures var tr := Translated(mibs, isOid, old(Remembered()), work);
              LeavesFiled(mibs, work, tr.table, tr.memory.loaded, loaded, f, passes, filed)
      ensures !includeUnresolved ==> result == filed
      ensures var tr := Translated(mibs, isOid, old(Remembered()), work);
              includeUnresolved ==> result == Carried(filed, FirstSeen(tr.unresolved + Unprocessed(tr.table, filed)))
      ensures UNRESOLVED !in filed && forall group :: group != UNRESOLVED ==> Agree(filed, result, group)
      ensures includeUnresolved ==> forall pair :: pair in work ==> Occurs(result, pair.name)
    {
      hide Requests, KnownMib, Partition, UNRESOLVED, Appended, Paid, Occurs, Retried, Settled, Passed, Preloads, Asked,
          Loads, Table, Failed;
      TranslatedPartitions(mibs, isOid, Remembered(), work);
      ghost var tr := Translated(mibs, isOid, Remembered(), work);
      var mibsLoaded := PreloadTrapMibs(work, isOid);
      var table, unresolved := ResolveWorkVarbinds(work);
      if !mibsLoaded && unresolved != [] {
        table, unresolved := RetryTrapVarbindsAfterMibLoad(work, unresolved, table);
      }
      table, unresolved := ReResolveTrapWorkIfNeeded(work, table, unresolved);
      assert Translation(Remembered(), table, unresolved) == tr;
      ghost var from := |requests|;
      PassesAreSeparate(mibs, work, tr.memory, table, map[], RETRY_MAX);
      result, passes, f := ProcessTrapMetrics(work, table);
      filed := result;
      assert Paid(requests, from, passes, mibs.loadable);
      if includeUnresolved {
        var unprocessed := UnprocessedTrapVarbinds(table, result);
        var combined := MergeUnresolvedTrapVarbinds(unresolved, unprocessed);
        result := AppendUnresolvedTrapVarbinds(combined, result);
        forall pair | pair in work
          ensures Occurs(result, pair.name)
        {
          NothingIsLost(work, table, unresolved, filed, pair);
        }
      }
    }

    // Any number of traps: over all of them each module is asked for at most
    // once.
    method Traps(traps: seq<seq<Pair>>, isOid: string -> bool) returns (results: seq<Metrics>)
      requires Valid() && Preserving(mibs) && Separate(mibs)
      modifies this
      ensures Valid() && |results| == |traps|
      ensures forall mib :: TimesRequested(requests, mib) <= 1
      ensures includeUnresolved ==> forall i, pair :: 0 <= i < |traps| && pair in traps[i] ==>
              Occurs(results[i], pair.name)
    {
      hide *;
      results := [];
      for i := 0 to |traps|
        invariant Valid() && |results| == i
        invariant includeUnresolved ==> forall j, pair :: 0 <= j < i && pair in traps[j] ==>
                  Occurs(results[j], pair.name)
      {
        ghost var filed, passes, f;
        var result;
        result, filed, passes, f := Trap(traps[i], isOid);
        results := results + [result];
      }
      ValidIs();
      forall mib
        ensures TimesRequested(requests, mib) <= 1
      {
        RequestedAtMostOnce(requests, attempted, mib);
      }
    }

    lemma ValidIs()
      requires Valid()
      ensures Requests(requests, attempted)
    {
    }
  }

  lemma StopKnows(mibs: Mibs, b: Bound)
    requires Stops(mibs, b)
    ensures KnownMib(mibs.index, b.oid).Some?
  {
  }

  lemma NothingAsked(mibs: Mibs, m: Memory)
    ensures Asked(mibs, m, {}) == m && !Loads(mibs, m, {})
  {
    assert m.attempted + {} == m.attempted;
    assert m.loaded + ({} - m.attempted) * mibs.loadable == m.loaded;
  }

  lemma AskedIs(mibs: Mibs, m: Memory, names: set<string>)
    ensures Asked(mibs, m, names).attempted == m.attempted + names
    ensures Loads(mibs, m, names) <==> (names - m.attempted) * mibs.loadable != {}
    ensures !Loads(mibs, m, names) ==> Asked(mibs, m, names).loaded == m.loaded
  {
  }

  lemma OnlyOne(remote: seq<string>, mib: string)
    requires remote != [] && forall name :: name in remote ==> name == mib
    ensures (set name | name in remote) == {mib}
  {
    assert remote[0] in remote;
  }

  lemma NothingFiled(mibs: Mibs)
    ensures FiledAll(mibs, map[], []) == map[]
  {
  }
}
