/** Any number of reports for one address, one after another: what is stored is
    the latest value of every field, whatever the buffering did, and it is what
    the last report's groups carry on. */
module EnrichmentRuns {
  import opened Wrappers
  import opened Enrichment

  // The stores before, between and after the reports, beginning with nothing.
  ghost predicate Run(stores: seq<map<string, Document>>, reports: seq<map<string, Group>>, universe: set<string>) {
    && |stores| == |reports| + 1 && stores[0] == map[]
    && forall i :: 0 <= i < |reports| ==> Within(reports[i], universe) && Absorbed(stores[i], reports[i], stores[i + 1])
  }

  // The value a field of a group had in the last report that gave it one.
  function Latest(reports: seq<map<string, Group>>, key: string, f: string): Option<Field> {
    if reports == [] then None
    else
      var last := reports[|reports| - 1];
      if key in last && f in last[key].fields then Some(Field(f, last[key].fields[f].payload))
      else Latest(reports[..|reports| - 1], key, f)
  }

  function StoredField(attributes: map<string, Document>, key: string, f: string): Option<Field> {
    if HashKey(key) in attributes && HashKey(f) in attributes[HashKey(key)].fields
    then Some(attributes[HashKey(key)].fields[HashKey(f)]) else None
  }

  lemma {:induction false} RunIsSound(stores: seq<map<string, Document>>, reports: seq<map<string, Group>>,
                                      universe: set<string>)
    requires Injective(universe) && Run(stores, reports, universe)
    ensures Sound(stores[|reports|], universe)
    decreases |reports|
  {
    hide Absorbed, Within, HashKey, Injective, SoundDocument;
    if reports != [] {
      RunIsSound(stores[..|reports|], reports[..|reports| - 1], universe);
      StaysSound(stores[|reports| - 1], reports[|reports| - 1], stores[|reports|], universe);
    }
  }

  // One field of one group, over one report.
  lemma FieldAfter(before: map<string, Document>, report: map<string, Group>, after: map<string, Document>,
                   universe: set<string>, key: string, f: string)
    requires Absorbed(before, report, after) && Injective(universe) && Within(report, universe)
    requires key in universe && f in universe
    ensures StoredField(after, key, f) ==
            if key in report && f in report[key].fields then Some(Field(f, report[key].fields[f].payload))
                else StoredField(before, key, f)
  {
    hide HashKey, Sound, Tracked;
    var h := HashKey(key);
    if key in report {
      assert At(after, h) == Reported(At(before, h), key, report[key]);
    } else {
      assert Apart(report.Keys, h);
      assert At(after, h) == At(before, h);
    }
  }

  // After any reports, a group's stored fields are the latest reported ones:
  // every one of them, and nothing else.
  lemma {:induction false} StoredIsLatest(stores: seq<map<string, Document>>, reports: seq<map<string, Group>>,
                                          universe: set<string>, key: string, f: string)
    requires Injective(universe) && Run(stores, reports, universe) && key in universe && f in universe
    ensures StoredField(stores[|reports|], key, f) == Latest(reports, key, f)
    ensures Sound(stores[|reports|], universe)
    decreases |reports|
  {
    hide Absorbed, Within, HashKey, Injective, Sound;
    RunIsSound(stores, reports, universe);
    if reports != [] {
      StoredIsLatest(stores[..|reports|], reports[..|reports| - 1], universe, key, f);
      FieldAfter(stores[|reports| - 1], reports[|reports| - 1], stores[|reports|], universe, key, f);
    }
  }

  lemma RenamedField(fields: map<string, Field>, universe: set<string>, f: string)
    requires SoundFields(fields) && KnownNames(fields, universe) && Injective(universe) && f in universe
    ensures f in Renamed(fields) <==> HashKey(f) in fields
    ensures f in Renamed(fields) ==> Renamed(fields)[f] == fields[HashKey(f)]
  {
    hide HashKey;
    if HashKey(f) in fields {
      assert fields[HashKey(f)].name == f;
    }
  }

  lemma SoundAt(attributes: map<string, Document>, universe: set<string>, h: string)
    requires Sound(attributes, universe)
    ensures SoundFields(FieldsOf(At(attributes, h))) && KnownNames(FieldsOf(At(attributes, h)), universe)
  {
  }

  // A group with metrics in the last report is passed on with exactly the
  // latest values of all the fields ever reported for it.
  lemma PassedOnIsLatest(stores: seq<map<string, Document>>, reports: seq<map<string, Group>>, universe: set<string>,
                         key: string, passed: Group, f: string)
    requires Injective(universe) && Run(stores, reports, universe) && reports != [] && f in universe
    requires key in reports[|reports| - 1] && reports[|reports| - 1][key].metrics != map[]
    requires PassedOn(stores[|reports| - 1], reports[|reports| - 1][key], key, passed)
    ensures (if f in passed.fields then Some(passed.fields[f]) else None) == Latest(reports, key, f)
  {
    hide Absorbed, Within, HashKey, Injective, Sound, Latest, SoundFields, KnownNames, Renamed, Enriched, Reported, At;
    var last, before, after := reports[|reports| - 1], stores[|reports| - 1], stores[|reports|];
    KnownKey(last, key, universe);
    AbsorbedAt(before, last, after, universe, key);
    RunIsSound(stores[..|reports|], reports[..|reports| - 1], universe);
    RunIsSound(stores, reports, universe);
    var h := HashKey(key);
    SoundAt(before, universe, h);
    SoundAt(after, universe, h);
    EnrichedAgreesWithStored(At(before, h), key, last[key], universe);
    RenamedField(FieldsOf(At(after, h)), universe, f);
    FieldIs(after, key, f);
    StoredIsLatest(stores, reports, universe, key, f);
  }

  lemma AbsorbedAt(before: map<string, Document>, report: map<string, Group>, after: map<string, Document>,
                   universe: set<string>, key: string)
    requires Absorbed(before, report, after) && Within(report, universe) && key in report
    ensures Injective(report[key].fields.Keys) && report[key].fields.Keys <= universe
    ensures At(after, HashKey(key)) == Reported(At(before, HashKey(key)), key, report[key])
  {
  }

  lemma FieldIs(attributes: map<string, Document>, key: string, f: string)
    ensures var fields := FieldsOf(At(attributes, HashKey(key)));
            StoredField(attributes, key, f) == if HashKey(f) in fields then Some(fields[HashKey(f)]) else None
  {
  }

  // The up-times stored before, between and after the reports.
  ghost predicate UpTimes(upTimes: seq<Option<int>>, reports: seq<map<string, Group>>) {
    && |upTimes| == |reports| + 1 && upTimes[0] == None
    && forall i :: 0 <= i < |reports| ==> UpTimeTold(upTimes[i], reports[i], upTimes[i + 1])
  }

  ghost predicate UpTimeTold(before: Option<int>, report: map<string, Group>, after: Option<int>) {
    if NoUpTime(report, report.Keys) then after == before else UpTimeAmong(after, report, report.Keys)
  }

  // What looking at a report's groups in any order leaves.
  lemma {:induction false} LastUpTimeTold(uptime: Option<int>, report: map<string, Group>, keys: seq<string>)
    requires forall key :: key in keys ==> key in report
    ensures (forall key :: key in keys ==> !TellsUpTime(report[key])) ==> LastUpTime(uptime, report, keys) == uptime
    ensures (exists key :: key in keys && TellsUpTime(report[key])) ==>
            UpTimeAmong(LastUpTime(uptime, report, keys), report, report.Keys)
  {
    hide TellsUpTime, UpTime;
    if keys != [] {
      var init, last := keys[..|keys| - 1], keys[|keys| - 1];
      LastUpTimeTold(uptime, report, init);
      assert keys == init + [last];
    }
  }

  lemma UpTimeIsTold(uptime: Option<int>, report: map<string, Group>, keys: seq<string>)
    requires Enumerates(keys, report.Keys)
    ensures UpTimeTold(uptime, report, LastUpTime(uptime, report, keys))
  {
    hide TellsUpTime, UpTime, Enumerates, LastUpTime;
    KeysAre(keys, report.Keys);
    LastUpTimeTold(uptime, report, keys);
  }

  // The up-time a report is compared with is one of the latest report before it
  // that told any.
  lemma {:induction false} RestartSeen(upTimes: seq<Option<int>>, reports: seq<map<string, Group>>,
                                       report: map<string, Group>)
    requires UpTimes(upTimes, reports)
    ensures upTimes[|reports|].None? ==> Restarts(upTimes[|reports|], report) == {}
    ensures upTimes[|reports|].None? ==> forall i :: 0 <= i < |reports| ==> NoUpTime(reports[i], reports[i].Keys)
    ensures upTimes[|reports|].Some? ==>
            exists i :: 0 <= i < |reports| && ToldLast(reports, i)
                && UpTimeAmong(upTimes[|reports|], reports[i], reports[i].Keys)
    decreases |reports|
  {
    hide NoUpTime, UpTimeAmong, Restarted;
    assert upTimes[|reports|].None? ==> forall key :: key in report ==>
           !Restarted(upTimes[|reports|], report[key]) by { NoRestart(report); }
    if reports != [] {
      var n := |reports| - 1;
      RestartSeen(upTimes[..|reports|], reports[..n], report);
      assert UpTimeTold(upTimes[n], reports[n], upTimes[n + 1]);
      if NoUpTime(reports[n], reports[n].Keys) {
        if upTimes[n].Some? {
          var i :| 0 <= i < n && ToldLast(reports[..n], i)
              && UpTimeAmong(upTimes[n], reports[..n][i], reports[..n][i].Keys);
          assert ToldLast(reports, i);
        }
      } else {
        assert ToldLast(reports, n);
        AmongIsSome(upTimes[n + 1], reports[n]);
      }
    }
  }

  // The stored up-time over reports whose groups are looked at in their orders.
  ghost predicate StoredUpTimes(upTimes: seq<Option<int>>, reports: seq<map<string, Group>>,
                                orders: seq<seq<string>>) {
    && |upTimes| == |reports| + 1 && |orders| == |reports| && upTimes[0] == None
    && forall i :: 0 <= i < |reports| ==>
         Enumerates(orders[i], reports[i].Keys) && upTimes[i + 1] == LastUpTime(upTimes[i], reports[i], orders[i])
  }

  // Report `i` was the latest to tell an up-time, and told this one last.
  ghost predicate ToldBefore(reports: seq<map<string, Group>>, orders: seq<seq<string>>, i: nat, value: int) {
    && i < |reports| == |orders| && TellsLast(reports[i], orders[i], value)
    && forall j :: i < j < |reports| ==> TellsNothing(reports[j])
  }

  ghost predicate SomeToldBefore(reports: seq<map<string, Group>>, orders: seq<seq<string>>, value: int) {
    exists i: nat :: ToldBefore(reports, orders, i, value)
  }

  lemma SomethingTold(report: map<string, Group>, order: seq<string>) returns (value: int)
    requires Enumerates(order, report.Keys) && !TellsNothing(report)
    ensures TellsLast(report, order, value)
  {
    hide Enumerates;
    var key, v :| Tells(report, key, v);
    KeysAre(order, report.Keys);
    value := LastFrom(report, order, |order|, key, v);
  }

  lemma LastFrom(report: map<string, Group>, order: seq<string>, from: nat, key: string, v: int) returns (value: int)
    requires from <= |order| && QuietFrom(report, order, from) && key in order && Tells(report, key, v)
    ensures TellsLast(report, order, value)
    decreases from
  {
    var last := order[from - 1];
    if last in report && TellsUpTime(report[last]) {
      value := UpTime(report[last]);
      assert Tells(report, last, value);
    } else {
      value := LastFrom(report, order, from - 1, key, v);
    }
  }

  lemma {:induction false} LatestTold(upTimes: seq<Option<int>>, reports: seq<map<string, Group>>,
                                      orders: seq<seq<string>>, value: int)
    requires StoredUpTimes(upTimes, reports, orders)
    ensures upTimes[|reports|] == Some(value) <==> SomeToldBefore(reports, orders, value)
  {
    hide Enumerates, LastUpTime, TellsLast, TellsNothing;
    if reports != [] {
      var n := |reports| - 1;
      LatestTold(upTimes[..n + 1], reports[..n], orders[..n], value);
      LastUpTimeIs(upTimes[n], reports[n], orders[n]);
      NothingToLast(reports[n], orders[n]);
      if TellsNothing(reports[n]) {
        if i: nat :| ToldBefore(reports, orders, i, value) {
          assert ToldBefore(reports[..n], orders[..n], i, value);
        }
        if i: nat :| ToldBefore(reports[..n], orders[..n], i, value) {
          assert ToldBefore(reports, orders, i, value);
        }
      } else {
        var told := SomethingTold(reports[n], orders[n]);
        assert ToldBefore(reports, orders, n, told);
        assert forall i: nat :: ToldBefore(reports, orders, i, value) ==> i == n;
      }
    }
  }

  lemma NothingToLast(report: map<string, Group>, order: seq<string>)
    ensures TellsNothing(report) ==> forall i, value :: 0 <= i < |order| ==> !Tells(report, order[i], value)
    ensures TellsNothing(report) ==> forall value :: !TellsLast(report, order, value)
  {
  }

  // Over any run of reports, one triggers a walk exactly when it tells an
  // up-time below the one told last by the latest report before it that told any.
  lemma WalkTriggeredExactly(upTimes: seq<Option<int>>, reports: seq<map<string, Group>>, orders: seq<seq<string>>,
                             report: map<string, Group>)
    requires StoredUpTimes(upTimes, reports, orders)
    ensures Restarts(upTimes[|reports|], report) != {} <==>
            exists was, key, now :: SomeToldBefore(reports, orders, was) && Tells(report, key, now) && now < was
  {
    hide ToldBefore, Tells, Restarts, SomeToldBefore, LastUpTime, Enumerates;
    var stored := upTimes[|reports|];
    forall value
      ensures stored == Some(value) <==> SomeToldBefore(reports, orders, value)
    {
      LatestTold(upTimes, reports, orders, value);
    }
    RestartsFall(stored, report);
    if FallsBelow(stored, report) {
      var key, now :| Tells(report, key, now) && stored.Some? && now < stored.value;
      assert SomeToldBefore(reports, orders, stored.value);
    }
  }

  ghost predicate ToldLast(reports: seq<map<string, Group>>, i: nat) {
    forall j :: i < j < |reports| ==> NoUpTime(reports[j], reports[j].Keys)
  }

  lemma NoRestart(report: map<string, Group>)
    ensures forall key :: key in report ==> !Restarted(None, report[key])
  {
  }

  lemma AmongIsSome(upTime: Option<int>, report: map<string, Group>)
    requires UpTimeAmong(upTime, report, report.Keys)
    ensures upTime.Some?
  {
  }

  // ---- The tracked fields of the target ----

  predicate IsTrackedName(f: string) {
    f in {"SNMPv2-MIB.sysDescr", "SNMPv2-MIB.sysObjectID", "SNMPv2-MIB.sysContact", "SNMPv2-MIB.sysName",
          "SNMPv2-MIB.sysLocation"}
  }

  predicate Gives(report: map<string, Group>, key: string, f: string) {
    key in report && f in report[key].fields
  }

  lemma TrackedApart(f: string, g: string)
    requires IsTrackedName(f) && IsTrackedName(g) && HashKey(f) == HashKey(g)
    ensures f == g
  {
    hide HashKey;
    assert '|' !in f && '|' !in g;
    BarFreeIsInjective({f, g});
  }

  lemma TrackedOf(fields: map<string, Field>, f: string)
    requires Injective(TrackedOnly(fields).Keys) && IsTrackedName(f)
    ensures var hashed := Hashed(TrackedOnly(fields));
            && (HashKey(f) in hashed <==> f in fields)
            && (f in fields ==> hashed[HashKey(f)] == Field(f, fields[f].payload))
    ensures forall h :: h in Hashed(TrackedOnly(fields)) ==> exists g :: IsTrackedName(g) && h == HashKey(g)
  {
    hide HashKey;
    forall g | g in TrackedOnly(fields) && HashKey(g) == HashKey(f)
      ensures g == f
    {
      TrackedApart(f, g);
    }
    forall h | h in Hashed(TrackedOnly(fields))
      ensures exists g :: IsTrackedName(g) && h == HashKey(g)
    {
      var g :| g in TrackedOnly(fields) && HashKey(g) == h;
      assert IsTrackedName(g);
    }
  }

  ghost predicate GivesLast(report: map<string, Group>, order: seq<string>, i: nat, f: string) {
    i < |order| && Gives(report, order[i], f) && forall j :: i < j < |order| ==> !Gives(report, order[j], f)
  }

  ghost predicate GivesNever(report: map<string, Group>, order: seq<string>, f: string) {
    forall i :: 0 <= i < |order| ==> !Gives(report, order[i], f)
  }

  lemma GivesNext(report: map<string, Group>, init: seq<string>, last: string, f: string)
    ensures forall i: nat :: GivesLast(report, init + [last], i, f) <==>
              if Gives(report, last, f) then i == |init| else GivesLast(report, init, i, f)
    ensures GivesNever(report, init + [last], f) <==> GivesNever(report, init, f) && !Gives(report, last, f)
  {
    hide Gives;
    assert (init + [last])[|init|] == last && forall i :: 0 <= i < |init| ==> (init + [last])[i] == init[i];
  }

  // What the state holds afterwards for one field, and for anything else.
  ghost predicate HoldsTracked(state: map<string, Field>, report: map<string, Group>, order: seq<string>,
                               after: map<string, Field>, f: string) {
    && (forall i: nat :: GivesLast(report, order, i, f) ==>
          HashKey(f) in after && after[HashKey(f)] == Field(f, report[order[i]].fields[f].payload))
    && (GivesNever(report, order, f) ==> Agree(state, after, HashKey(f)))
    && forall h :: Foreign(h) ==> Agree(state, after, h)
  }

  // A key that no tracked field is stored under.
  ghost predicate Foreign(h: string) {
    forall g :: IsTrackedName(g) ==> h != HashKey(g)
  }

  lemma HoldsNext(state: map<string, Field>, report: map<string, Group>, init: seq<string>, last: string,
                  earlier: map<string, Field>, f: string)
    requires HoldsTracked(state, report, init, earlier, f) && IsTrackedName(f)
    requires last in report && Injective(TrackedOnly(report[last].fields).Keys)
    ensures HoldsTracked(state, report, init + [last], earlier + Hashed(TrackedOnly(report[last].fields)), f)
  {
    hide HashKey, TrackedOnly, Injective, IsTrackedName, GivesLast, GivesNever;
    var hashed, order := Hashed(TrackedOnly(report[last].fields)), init + [last];
    var after := earlier + hashed;
    TrackedOf(report[last].fields, f);
    GivesNext(report, init, last, f);
    LastIsWithin(report, init, f);
    forall h | Foreign(h)
      ensures Agree(state, after, h)
    {
      assert h !in hashed;
    }
    forall i: nat | GivesLast(report, order, i, f)
      ensures HashKey(f) in after && after[HashKey(f)] == Field(f, report[order[i]].fields[f].payload)
    {
      assert i < |init| ==> order[i] == init[i];
    }
  }

  lemma LastIsWithin(report: map<string, Group>, order: seq<string>, f: string)
    ensures forall i: nat :: GivesLast(report, order, i, f) ==> i < |order| && Gives(report, order[i], f)
  {
  }

  // After a report the state of a target holds, for each of the five tracked
  // fields, the value of the last group that gives it, or what it held before;
  // and nothing else has changed in it.
  lemma {:induction false} StateHoldsTracked(state: map<string, Field>, report: map<string, Group>, order: seq<string>,
                                             after: map<string, Field>, f: string)
    requires StateAfter(state, report, order) == Some(after) && IsTrackedName(f)
    ensures HoldsTracked(state, report, order, after, f)
  {
    hide HashKey, TrackedOnly, Injective, IsTrackedName, HoldsTracked;
    if order == [] {
      HoldsAtFirst(state, report, f);
    } else {
      var init, last := order[..|order| - 1], order[|order| - 1];
      var earlier := StateAfter(state, report, init).value;
      StateHoldsTracked(state, report, init, earlier, f);
      HoldsNext(state, report, init, last, earlier, f);
      assert order == init + [last];
    }
  }

  lemma HoldsAtFirst(state: map<string, Field>, report: map<string, Group>, f: string)
    ensures HoldsTracked(state, report, [], state, f)
  {
  }
}
