/** Translating a trap: its bindings are resolved, MIB modules are loaded and
    the bindings resolved again, and what cannot be translated is carried along.
    How a binding resolves and where its value is filed depends on the modules
    loaded, and is otherwise left open. */
module Traps {
  import opened Wrappers
  import opened MibIndex

  datatype Pair = Pair(name: string, value: string)

  // A resolved binding; its symbol may still be a placeholder.
  datatype Bound = Bound(oid: string, symbol: string, value: string)

  datatype Item = Item(oid: string, value: string)

  datatype Group = Group(metrics: map<string, Item>, fields: map<string, Item>)

  type Metrics = map<string, Group>

  // Where a binding is filed: under metrics, under fields, or nowhere.
  datatype Place = AsMetric(key: string) | AsField(key: string) | Nowhere

  datatype Mibs = Mibs(
    index: map<string, string>,
    loadable: set<string>,
    resolve: (set<string>, Pair) -> Option<Bound>,
    placeholder: Bound -> bool,
    group: Bound -> string,
    place: Bound -> Place)

  const UNRESOLVED := "sc4snmp::unresolved"
  const RETRY_MAX: nat := 5

  function FieldName(name: string): string {
    "unresolved::" + name
  }

  // Resolving keeps the OID.
  ghost predicate Preserving(mibs: Mibs) {
    forall loaded, pair :: mibs.resolve(loaded, pair).Some? ==> mibs.resolve(loaded, pair).value.oid == pair.name
  }

  // No translated binding is filed with the untranslated ones.
  ghost predicate Separate(mibs: Mibs) {
    forall b :: mibs.group(b) != UNRESOLVED
  }

  // ---- Resolving ----

  function Table(mibs: Mibs, loaded: set<string>, pairs: seq<Pair>): seq<Bound> {
    if pairs == [] then []
    else
      var r := mibs.resolve(loaded, pairs[|pairs| - 1]);
      Table(mibs, loaded, pairs[..|pairs| - 1]) + if r.Some? then [r.value] else []
  }

  function Failed(mibs: Mibs, loaded: set<string>, pairs: seq<Pair>): seq<Pair> {
    if pairs == [] then []
    else
      var last := pairs[|pairs| - 1];
      Failed(mibs, loaded, pairs[..|pairs| - 1]) + if mibs.resolve(loaded, last).Some? then [] else [last]
  }

  function Names(pairs: seq<Pair>): (names: seq<string>)
    ensures |names| == |pairs|
  {
    seq(|pairs|, i requires 0 <= i < |pairs| => pairs[i].name)
  }

  function Oids(table: seq<Bound>): (oids: seq<string>)
    ensures |oids| == |table|
  {
    seq(|table|, i requires 0 <= i < |table| => table[i].oid)
  }

  // The bindings of a trap, each either translated or not: none is lost, none
  // is counted twice.
  ghost predicate Partition(work: seq<Pair>, table: seq<Bound>, unresolved: seq<Pair>) {
    && multiset(Names(work)) == multiset(Oids(table)) + multiset(Names(unresolved))
    && forall pair :: pair in unresolved ==> pair in work
  }

  lemma NamesConcat(a: seq<Pair>, b: seq<Pair>)
    ensures multiset(Names(a + b)) == multiset(Names(a)) + multiset(Names(b))
  {
    assert Names(a + b) == Names(a) + Names(b);
  }

  lemma OidsConcat(a: seq<Bound>, b: seq<Bound>)
    ensures multiset(Oids(a + b)) == multiset(Oids(a)) + multiset(Oids(b))
  {
    assert Oids(a + b) == Oids(a) + Oids(b);
  }

  lemma {:induction false} ResolvingPartitions(mibs: Mibs, loaded: set<string>, pairs: seq<Pair>)
    requires Preserving(mibs)
    ensures Partition(pairs, Table(mibs, loaded, pairs), Failed(mibs, loaded, pairs))
  {
    hide Names, Oids;
    if pairs == [] {
    } else {
      var init, last := pairs[..|pairs| - 1], pairs[|pairs| - 1];
      ResolvingPartitions(mibs, loaded, init);
      assert pairs == init + [last];
      NamesConcat(init, [last]);
      var r := mibs.resolve(loaded, last);
      Single(last);
      if r.Some? {
        SingleOid(r.value);
        OidsConcat(Table(mibs, loaded, init), [r.value]);
        assert Failed(mibs, loaded, init) + [] == Failed(mibs, loaded, init);
      } else {
        NamesConcat(Failed(mibs, loaded, init), [last]);
        assert Table(mibs, loaded, init) + [] == Table(mibs, loaded, init);
      }
    }
  }

  lemma Single(pair: Pair)
    ensures multiset(Names([pair])) == multiset{pair.name}
  {
    assert Names([pair]) == [pair.name];
  }

  lemma SingleOid(b: Bound)
    ensures multiset(Oids([b])) == multiset{b.oid}
  {
    assert Oids([b]) == [b.oid];
  }

  // Resolving some of the untranslated bindings once more, and keeping the
  // others.
  lemma RetryPartitions(work: seq<Pair>, table: seq<Bound>, retried: seq<Pair>, kept: seq<Pair>, more: seq<Bound>,
                        failed: seq<Pair>)
    requires multiset(Names(work)) == multiset(Oids(table)) + (multiset(Names(kept)) + multiset(Names(retried)))
    requires Partition(retried, more, failed) && forall pair :: pair in kept || pair in retried ==> pair in work
    ensures Partition(work, table + more, kept + failed)
  {
    hide Names, Oids;
    OidsConcat(table, more);
    NamesConcat(kept, failed);
  }

  // ---- Filing ----

  function Filed(mibs: Mibs, metrics: Metrics, b: Bound): Metrics {
    var key := mibs.group(b);
    var group := if key in metrics then metrics[key] else Group(map[], map[]);
    match mibs.place(b)
    case AsMetric(k) => metrics[key := group.(metrics := group.metrics[k := Item(b.oid, b.value)])]
    case AsField(k) => metrics[key := group.(fields := group.fields[k := Item(b.oid, b.value)])]
    case Nowhere => metrics[key := group]
  }

  // A placeholder whose module is known stops the pass; other placeholders are
  // passed over.
  predicate Stops(mibs: Mibs, b: Bound) {
    mibs.placeholder(b) && KnownMib(mibs.index, b.oid).Some?
  }

  function FiledAll(mibs: Mibs, metrics: Metrics, table: seq<Bound>): Metrics {
    if table == [] then metrics
    else
      var before, last := FiledAll(mibs, metrics, table[..|table| - 1]), table[|table| - 1];
      if mibs.placeholder(last) then before else Filed(mibs, before, last)
  }

  // ---- What is filed, binding by binding ----

  predicate GoesTo(mibs: Mibs, b: Bound, group: string, place: Place) {
    !mibs.placeholder(b) && mibs.group(b) == group && mibs.place(b) == place
  }

  // What is stored under a key of a group's metrics, or of its fields.
  function ItemAt(metrics: Metrics, group: string, place: Place): Option<Item> {
    if group !in metrics then None
    else
      match place
      case AsMetric(k) => if k in metrics[group].metrics then Some(metrics[group].metrics[k]) else None
      case AsField(k) => if k in metrics[group].fields then Some(metrics[group].fields[k]) else None
      case Nowhere => None
  }

  ghost predicate LastTo(mibs: Mibs, table: seq<Bound>, i: nat, group: string, place: Place) {
    && i < |table| && GoesTo(mibs, table[i], group, place)
    && forall j :: i < j < |table| ==> !GoesTo(mibs, table[j], group, place)
  }

  ghost predicate NoneTo(mibs: Mibs, table: seq<Bound>, group: string, place: Place) {
    forall i :: 0 <= i < |table| ==> !GoesTo(mibs, table[i], group, place)
  }

  // Of the bindings that go to one place the last is there with its OID and
  // value, a place no binding goes to is as it was, and the groups are those
  // there were and those of the bindings.
  ghost predicate HoldsFiled(mibs: Mibs, before: Metrics, table: seq<Bound>, after: Metrics) {
    && (forall i: nat, group, place :: place != Nowhere && LastTo(mibs, table, i, group, place) ==>
          ItemAt(after, group, place) == Some(Item(table[i].oid, table[i].value)))
    && (forall group, place :: NoneTo(mibs, table, group, place) ==>
          ItemAt(after, group, place) == ItemAt(before, group, place))
    && (forall group :: group in after <==> group in before || SomeIn(mibs, table, group))
  }

  ghost predicate SomeIn(mibs: Mibs, table: seq<Bound>, group: string) {
    exists i :: 0 <= i < |table| && !mibs.placeholder(table[i]) && mibs.group(table[i]) == group
  }

  lemma OneFiled(mibs: Mibs, metrics: Metrics, b: Bound, group: string, place: Place)
    requires !mibs.placeholder(b)
    ensures place != Nowhere ==>
              ItemAt(Filed(mibs, metrics, b), group, place) ==
                if GoesTo(mibs, b, group, place) then Some(Item(b.oid, b.value)) else ItemAt(metrics, group, place)
    ensures group in Filed(mibs, metrics, b) <==> group in metrics || mibs.group(b) == group
  {
  }

  lemma LastNext(mibs: Mibs, init: seq<Bound>, last: Bound, group: string, place: Place)
    ensures forall i: nat :: LastTo(mibs, init + [last], i, group, place) <==>
              if GoesTo(mibs, last, group, place) then i == |init| else LastTo(mibs, init, i, group, place)
    ensures NoneTo(mibs, init + [last], group, place) <==>
            NoneTo(mibs, init, group, place) && !GoesTo(mibs, last, group, place)
  {
    hide GoesTo;
    assert (init + [last])[|init|] == last && forall i :: 0 <= i < |init| ==> (init + [last])[i] == init[i];
  }

  lemma {:induction false} ItemFiled(mibs: Mibs, metrics: Metrics, table: seq<Bound>, group: string, place: Place)
    ensures place != Nowhere ==> forall i: nat :: i < |table| && LastTo(mibs, table, i, group, place) ==>
              ItemAt(FiledAll(mibs, metrics, table), group, place) == Some(Item(table[i].oid, table[i].value))
    ensures NoneTo(mibs, table, group, place) ==>
              ItemAt(FiledAll(mibs, metrics, table), group, place) == ItemAt(metrics, group, place)
    ensures group in FiledAll(mibs, metrics, table) <==> group in metrics || SomeIn(mibs, table, group)
  {
    hide Filed, ItemAt, GoesTo, LastTo, NoneTo, SomeIn;
    if table == [] {
      NothingTo(mibs, group);
    } else {
      var init, last := table[..|table| - 1], table[|table| - 1];
      ItemFiled(mibs, metrics, init, group, place);
      assert table == init + [last];
      NothingNowhere(FiledAll(mibs, metrics, table), group);
      NothingNowhere(metrics, group);
      SomeInNext(mibs, init, last, group);
      LastNext(mibs, init, last, group, place);
      GoesSomewhere(mibs, last, group, place);
      LastIsWithin(mibs, init, group, place);
      if !mibs.placeholder(last) {
        OneFiled(mibs, FiledAll(mibs, metrics, init), last, group, place);
      }
    }
  }

  lemma NothingTo(mibs: Mibs, group: string)
    ensures !SomeIn(mibs, [], group)
  {
  }

  lemma LastIsWithin(mibs: Mibs, table: seq<Bound>, group: string, place: Place)
    ensures forall i: nat :: LastTo(mibs, table, i, group, place) ==> i < |table|
  {
  }

  lemma NothingNowhere(metrics: Metrics, group: string)
    ensures ItemAt(metrics, group, Nowhere) == None
  {
  }

  lemma GoesSomewhere(mibs: Mibs, b: Bound, group: string, place: Place)
    ensures mibs.placeholder(b) ==> !GoesTo(mibs, b, group, place)
  {
  }

  lemma SomeInNext(mibs: Mibs, init: seq<Bound>, last: Bound, group: string)
    ensures SomeIn(mibs, init + [last], group) <==>
            SomeIn(mibs, init, group) || (!mibs.placeholder(last) && mibs.group(last) == group)
  {
    assert (init + [last])[|init|] == last && forall i :: 0 <= i < |init| ==> (init + [last])[i] == init[i];
  }

  lemma FilingHolds(mibs: Mibs, metrics: Metrics, table: seq<Bound>)
    ensures HoldsFiled(mibs, metrics, table, FiledAll(mibs, metrics, table))
  {
    hide FiledAll, ItemAt, GoesTo, SomeIn;
    forall i: nat, group, place | place != Nowhere && LastTo(mibs, table, i, group, place)
      ensures ItemAt(FiledAll(mibs, metrics, table), group, place) == Some(Item(table[i].oid, table[i].value))
    {
      ItemFiled(mibs, metrics, table, group, place);
    }
    forall group, place | NoneTo(mibs, table, group, place)
      ensures ItemAt(FiledAll(mibs, metrics, table), group, place) == ItemAt(metrics, group, place)
    {
      ItemFiled(mibs, metrics, table, group, place);
    }
    forall group
      ensures group in FiledAll(mibs, metrics, table) <==> group in metrics || SomeIn(mibs, table, group)
    {
      ItemFiled(mibs, metrics, table, group, Nowhere);
    }
  }

  lemma {:induction false} SomeLast(mibs: Mibs, table: seq<Bound>, group: string, place: Place) returns (i: nat)
    requires !NoneTo(mibs, table, group, place)
    ensures LastTo(mibs, table, i, group, place)
  {
    var n := |table| - 1;
    if GoesTo(mibs, table[n], group, place) {
      i := n;
    } else {
      assert !NoneTo(mibs, table[..n], group, place);
      i := SomeLast(mibs, table[..n], group, place);
    }
  }

  // Whatever was not there before comes from a binding.
  lemma ItemComesFrom(mibs: Mibs, table: seq<Bound>, after: Metrics, group: string, place: Place) returns (i: nat)
    requires HoldsFiled(mibs, map[], table, after) && ItemAt(after, group, place).Some?
    ensures LastTo(mibs, table, i, group, place)
    ensures ItemAt(after, group, place) == Some(Item(table[i].oid, table[i].value))
  {
    hide LastTo, GoesTo;
    assert place != Nowhere;
    i := SomeLast(mibs, table, group, place);
    LastIsWithin(mibs, table, group, place);
  }

  lemma {:induction false} FiledInTurn(mibs: Mibs, metrics: Metrics, a: seq<Bound>, b: seq<Bound>)
    ensures FiledAll(mibs, metrics, a + b) == FiledAll(mibs, FiledAll(mibs, metrics, a), b)
  {
    hide Filed;
    if b == [] {
      assert a + b == a;
    } else {
      var n := |b| - 1;
      FiledInTurn(mibs, metrics, a, b[..n]);
      assert (a + b)[..|a + b| - 1] == a + b[..n];
    }
  }

  ghost predicate Occurs(metrics: Metrics, oid: string) {
    exists group, key :: OccursAt(metrics, group, key, oid)
  }

  predicate OccursAt(metrics: Metrics, group: string, key: string, oid: string) {
    && group in metrics
    && ((key in metrics[group].metrics && metrics[group].metrics[key].oid == oid)
        || (key in metrics[group].fields && metrics[group].fields[key].oid == oid))
  }

  // One pass over the bindings, up to the one it stops at.
  method ProcessSnmpData(mibs: Mibs, table: seq<Bound>, metrics: Metrics)
    returns (retry: bool, remote: seq<string>, result: Metrics, stop: nat)
    ensures stop <= |table| && result == FiledAll(mibs, metrics, table[..stop])
    ensures HoldsFiled(mibs, metrics, table[..stop], result)
    ensures (forall i :: 0 <= i < stop ==> !Stops(mibs, table[i])) && (stop < |table| ==> Stops(mibs, table[stop]))
    ensures retry <==> stop < |table|
    ensures forall mib :: mib in remote <==> retry && mib != "" && KnownMib(mibs.index, table[stop].oid) == Some(mib)
  {
    hide Filed, KnownMib, HoldsFiled;
    retry, remote, result, stop := false, [], metrics, 0;
    for i := 0 to |table|
      invariant stop == i && result == FiledAll(mibs, metrics, table[..i])
      invariant forall j :: 0 <= j < i ==> !Stops(mibs, table[j])
      invariant !retry && remote == []
    {
      var b := table[i];
      assert table[..i + 1][..i] == table[..i];
      if !mibs.placeholder(b) {
        result := Filed(mibs, result, b);
      } else {
        var found, mib := IsMibKnown(mibs.index, b.oid);
        if mib != "" && mib !in remote {
          remote := remote + [mib];
        }
        if found {
          retry := true;
          FilingHolds(mibs, metrics, table[..stop]);
          return;
        }
      }
      stop := stop + 1;
    }
    FilingHolds(mibs, metrics, table[..stop]);
  }

  // ---- What occurs in the result ----

  method CollectProcessedTrapOids(metrics: Metrics) returns (processed: set<string>)
    ensures forall oid :: oid in processed <==> oid != "" && Occurs(metrics, oid)
  {
    hide OccursAt;
    processed := {};
    forall group, key, oid | OccursAt(metrics, group, key, oid)
      ensures group in metrics
    {
      OccursInGroup(metrics, group, key, oid);
    }
    var todo := metrics.Keys;
    while todo != {}
      invariant todo <= metrics.Keys
      invariant forall oid :: oid in processed <==>
                oid != "" && exists group, key :: group !in todo && OccursAt(metrics, group, key, oid)
      decreases todo
    {
      var group :| group in todo;
      GroupOids(metrics, group);
      processed := processed + OidsOf(metrics[group]);
      todo := todo - {group};
    }
  }

  lemma OccursInGroup(metrics: Metrics, group: string, key: string, oid: string)
    requires OccursAt(metrics, group, key, oid)
    ensures group in metrics
  {
  }

  // The non-empty OIDs of one group's fields and metrics.
  function OidsOf(group: Group): set<string> {
    set item | item in group.fields.Values + group.metrics.Values && item.oid != "" :: item.oid
  }

  lemma GroupOids(metrics: Metrics, group: string)
    requires group in metrics
    ensures forall oid :: oid in OidsOf(metrics[group]) <==>
              oid != "" && exists key :: OccursAt(metrics, group, key, oid)
  {
    forall oid | oid != "" && exists key :: OccursAt(metrics, group, key, oid)
      ensures oid in OidsOf(metrics[group])
    {
      var key :| OccursAt(metrics, group, key, oid);
      if key in metrics[group].metrics && metrics[group].metrics[key].oid == oid {
        assert metrics[group].metrics[key] in metrics[group].metrics.Values;
      } else {
        assert metrics[group].fields[key] in metrics[group].fields.Values;
      }
    }
    forall oid | oid in OidsOf(metrics[group])
      ensures exists key :: OccursAt(metrics, group, key, oid)
    {
      var item :| item in metrics[group].fields.Values + metrics[group].metrics.Values && item.oid == oid;
      if item in metrics[group].fields.Values {
        var key :| key in metrics[group].fields && metrics[group].fields[key] == item;
        assert OccursAt(metrics, group, key, oid);
      } else {
        var key :| key in metrics[group].metrics && metrics[group].metrics[key] == item;
        assert OccursAt(metrics, group, key, oid);
      }
    }
  }

  // Translated bindings whose OID is not in the result, in their order.
  ghost function Unprocessed(table: seq<Bound>, metrics: Metrics): seq<Pair> {
    if table == [] then []
    else
      var last := table[|table| - 1];
      Unprocessed(table[..|table| - 1], metrics)
      + if last.oid == "" || !Occurs(metrics, last.oid) then [Pair(last.oid, last.value)] else []
  }

  method UnprocessedTrapVarbinds(table: seq<Bound>, metrics: Metrics) returns (unprocessed: seq<Pair>)
    ensures unprocessed == Unprocessed(table, metrics)
  {
    hide Occurs;
    var processed := CollectProcessedTrapOids(metrics);
    unprocessed := [];
    for i := 0 to |table|
      invariant unprocessed == Unprocessed(table[..i], metrics)
    {
      assert table[..i + 1][..i] == table[..i];
      if table[i].oid !in processed {
        unprocessed := unprocessed + [Pair(table[i].oid, table[i].value)];
      }
    }
    assert table[..|table|] == table;
  }

  lemma {:induction false} UnprocessedHas(table: seq<Bound>, metrics: Metrics, b: Bound)
    requires b in table && (b.oid == "" || !Occurs(metrics, b.oid))
    ensures Pair(b.oid, b.value) in Unprocessed(table, metrics)
  {
    hide Occurs;
    var n := |table| - 1;
    if b != table[n] {
      assert b in table[..n];
      UnprocessedHas(table[..n], metrics, b);
    }
  }

  // Each pair once, in order of first appearance.
  function FirstSeen(pairs: seq<Pair>): seq<Pair> {
    if pairs == [] then []
    else
      var before, last := FirstSeen(pairs[..|pairs| - 1]), pairs[|pairs| - 1];
      if last in before then before else before + [last]
  }

  lemma {:induction false} FirstSeenHasAll(pairs: seq<Pair>)
    ensures forall pair :: pair in FirstSeen(pairs) <==> pair in pairs
    ensures forall i, j :: 0 <= i < j < |FirstSeen(pairs)| ==> FirstSeen(pairs)[i] != FirstSeen(pairs)[j]
  {
    if pairs != [] {
      var init, last := pairs[..|pairs| - 1], pairs[|pairs| - 1];
      FirstSeenHasAll(init);
      assert pairs == init + [last];
    }
  }

  // The pairs of both lists, one list after the other.
  method MergeUnresolvedTrapVarbinds(first: seq<Pair>, second: seq<Pair>) returns (merged: seq<Pair>)
    ensures merged == FirstSeen(first + second)
    ensures forall pair :: pair in merged <==> pair in first || pair in second
    ensures forall i, j :: 0 <= i < j < |merged| ==> merged[i] != merged[j]
  {
    merged := [];
    var all := first + second;
    for i := 0 to |all|
      invariant merged == FirstSeen(all[..i])
    {
      assert all[..i + 1][..i] == all[..i];
      if all[i] !in merged {
        merged := merged + [all[i]];
      }
    }
    assert all[..|all|] == all;
    FirstSeenHasAll(all);
  }

  function Appended(fields: map<string, Item>, pairs: seq<Pair>): map<string, Item> {
    if pairs == [] then fields
    else
      var last := pairs[|pairs| - 1];
      Appended(fields, pairs[..|pairs| - 1])[FieldName(last.name) := Item(last.name, last.value)]
  }

  method AppendUnresolvedTrapVarbinds(unresolved: seq<Pair>, metrics: Metrics) returns (result: Metrics)
    ensures unresolved == [] ==> result == metrics
    ensures unresolved != [] ==>
              var group := if UNRESOLVED in metrics then metrics[UNRESOLVED] else Group(map[], map[]);
              result == metrics[UNRESOLVED := group.(fields := Appended(group.fields, unresolved))]
  {
    hide FieldName, UNRESOLVED;
    result := metrics;
    if unresolved == [] {
      return;
    }
    if UNRESOLVED !in result {
      result := result[UNRESOLVED := Group(map[], map[])];
    }
    var group := result[UNRESOLVED];
    var fields := group.fields;
    for i := 0 to |unresolved|
      invariant fields == Appended(group.fields, unresolved[..i])
    {
      assert unresolved[..i + 1][..i] == unresolved[..i];
      fields := fields[FieldName(unresolved[i].name) := Item(unresolved[i].name, unresolved[i].value)];
    }
    assert unresolved[..|unresolved|] == unresolved;
    result := result[UNRESOLVED := group.(fields := fields)];
  }

  lemma FieldNameIs(name: string)
    ensures FieldName(name) == "unresolved::" + name
  {
  }

  lemma FieldNamesDiffer(a: string, b: string)
    requires FieldName(a) == FieldName(b)
    ensures a == b
  {
    assert FieldName(a)[12..] == a && FieldName(b)[12..] == b;
  }

  ghost predicate GivenIn(pairs: seq<Pair>, name: string) {
    exists i :: 0 <= i < |pairs| && pairs[i].name == name
  }

  // The last value given under a name.
  function LastValue(pairs: seq<Pair>, name: string): string
    requires GivenIn(pairs, name)
  {
    if pairs[|pairs| - 1].name == name then pairs[|pairs| - 1].value else LastValue(pairs[..|pairs| - 1], name)
  }

  // Each appended name has one field with its OID, holding the last of its
  // values in the appended list.
  lemma {:induction false} AppendedHasName(fields: map<string, Item>, pairs: seq<Pair>, pair: Pair)
    requires pair in pairs
    ensures var after := Appended(fields, pairs);
            FieldName(pair.name) in after && after[FieldName(pair.name)] == Item(pair.name, LastValue(pairs, pair.name))
  {
    hide FieldName;
    var last := pairs[|pairs| - 1];
    if FieldName(last.name) == FieldName(pair.name) {
      FieldNamesDiffer(last.name, pair.name);
    } else {
      assert pair in pairs[..|pairs| - 1];
      AppendedHasName(fields, pairs[..|pairs| - 1], pair);
    }
  }

  // ---- Which value of a repeated OID is kept ----

  // Where a pair occurs for the first time.
  function FirstAt(pairs: seq<Pair>, pair: Pair): (i: nat)
    requires pair in pairs
    ensures i < |pairs| && pairs[i] == pair && pair !in pairs[..i]
  {
    if pairs[0] == pair then 0
    else
      var i := FirstAt(pairs[1..], pair);
      assert pairs[..i + 1] == [pairs[0]] + pairs[1..][..i];
      i + 1
  }

  lemma FirstAtIs(pairs: seq<Pair>, pair: Pair, i: nat)
    requires i < |pairs| && pairs[i] == pair && pair !in pairs[..i]
    ensures FirstAt(pairs, pair) == i
  {
  }

  lemma FirstAtPrefix(init: seq<Pair>, last: Pair, pair: Pair)
    requires pair in init + [last]
    ensures FirstAt(init + [last], pair) == if pair in init then FirstAt(init, pair) else |init|
  {
    if pair in init {
      assert (init + [last])[..FirstAt(init, pair)] == init[..FirstAt(init, pair)];
      FirstAtIs(init + [last], pair, FirstAt(init, pair));
    } else {
      assert (init + [last])[..|init|] == init;
      FirstAtIs(init + [last], pair, |init|);
    }
  }

  // Of the values given under one name, the one that turned up last as a new pair.
  ghost predicate NewestOf(pairs: seq<Pair>, pair: Pair) {
    && pair in pairs
    && forall other :: other in pairs && other.name == pair.name ==> FirstAt(pairs, other) <= FirstAt(pairs, pair)
  }

  lemma FirstSeenNext(init: seq<Pair>, last: Pair)
    ensures FirstSeen(init + [last]) == if last in init then FirstSeen(init) else FirstSeen(init) + [last]
  {
    FirstSeenHasAll(init);
    assert (init + [last])[..|init|] == init;
  }

  lemma LastValueNext(init: seq<Pair>, last: Pair, name: string)
    ensures GivenIn(init + [last], name) <==> last.name == name || GivenIn(init, name)
    ensures last.name == name || GivenIn(init, name) ==>
              LastValue(init + [last], name) == if last.name == name then last.value else LastValue(init, name)
  {
    assert (init + [last])[..|init|] == init;
    assert last.name == name ==> (init + [last])[|init|].name == name;
    assert forall i :: 0 <= i < |init| ==> (init + [last])[i] == init[i];
  }

  lemma NewestNext(init: seq<Pair>, last: Pair, pair: Pair)
    ensures NewestOf(init, pair) && (last in init || last.name != pair.name) ==> NewestOf(init + [last], pair)
    ensures last !in init ==> NewestOf(init + [last], last)
  {
    hide FirstAt;
    forall other | other in init + [last]
      ensures FirstAt(init + [last], other) == if other in init then FirstAt(init, other) else |init|
    {
      FirstAtPrefix(init, last, other);
    }
  }

  lemma {:induction false} LastIsNewest(pairs: seq<Pair>, pair: Pair)
    requires pair in pairs
    ensures GivenIn(FirstSeen(pairs), pair.name)
    ensures NewestOf(pairs, Pair(pair.name, LastValue(FirstSeen(pairs), pair.name)))
  {
    hide FirstAt, FirstSeen, LastValue, NewestOf, GivenIn;
    var init, last := pairs[..|pairs| - 1], pairs[|pairs| - 1];
    assert pairs == init + [last];
    FirstSeenNext(init, last);
    LastValueNext(FirstSeen(init), last, pair.name);
    if pair in init {
      LastIsNewest(init, pair);
      NewestNext(init, last, Pair(pair.name, LastValue(FirstSeen(init), pair.name)));
    }
    NewestNext(init, last, last);
  }

  // What the reserved group holds for a name: the value of its newest pair.
  // A repeated pair does not count again, so this need not be the last value sent.
  lemma KeptIsNewest(pairs: seq<Pair>, pair: Pair)
    requires pair in pairs
    ensures var after := Appended(map[], FirstSeen(pairs));
            && FieldName(pair.name) in after
            && (after[FieldName(pair.name)] == Item(pair.name, pair.value) <==> NewestOf(pairs, pair))
  {
    hide FieldName, FirstAt;
    FirstSeenHasAll(pairs);
    AppendedHasName(map[], FirstSeen(pairs), pair);
    LastIsNewest(pairs, pair);
    var kept := Pair(pair.name, LastValue(FirstSeen(pairs), pair.name));
    if NewestOf(pairs, pair) {
      assert FirstAt(pairs, pair) == FirstAt(pairs, kept);
      assert pairs[FirstAt(pairs, pair)] == pair && pairs[FirstAt(pairs, kept)] == kept;
    }
  }

  ghost predicate OneValueEach(pairs: seq<Pair>) {
    forall p, q :: p in pairs && q in pairs && p.name == q.name ==> p.value == q.value
  }

  ghost predicate HoldsAll(fields: map<string, Item>, pairs: seq<Pair>) {
    forall pair :: pair in pairs ==>
      FieldName(pair.name) in fields && fields[FieldName(pair.name)] == Item(pair.name, pair.value)
  }

  // So no value is lost exactly when no OID comes with two different ones.
  lemma AllValuesKeptExactly(pairs: seq<Pair>)
    ensures HoldsAll(Appended(map[], FirstSeen(pairs)), pairs) <==> OneValueEach(pairs)
  {
    hide FieldName, FirstAt, FirstSeen, Appended;
    if OneValueEach(pairs) {
      forall pair | pair in pairs
        ensures NewestOf(pairs, pair)
      {
        assert forall other :: other in pairs && other.name == pair.name ==> other == pair;
      }
    }
    forall pair | pair in pairs
      ensures FieldName(pair.name) in Appended(map[], FirstSeen(pairs))
      ensures Appended(map[], FirstSeen(pairs))[FieldName(pair.name)] == Item(pair.name, pair.value) <==>
              NewestOf(pairs, pair)
    {
      KeptIsNewest(pairs, pair);
    }
  }

  // A name sent with the values 1, 2 and 1 again keeps neither both nor the last.
  lemma RepeatedValueIsLost()
    ensures var pairs := [Pair("1.3", "1"), Pair("1.3", "2"), Pair("1.3", "1")];
            && FirstSeen(pairs) == pairs[..2]
            && Appended(map[], FirstSeen(pairs)) == map["unresolved::1.3" := Item("1.3", "2")]
  {
    hide FieldName;
    FieldNameIs("1.3");
    assert "unresolved::" + "1.3" == "unresolved::1.3";
    var a, b := Pair("1.3", "1"), Pair("1.3", "2");
    assert [a, b, a][..2] == [a, b] && [a, b][..1] == [a] && [a][..0] == [];
    assert FirstSeen([a]) == [a] && FirstSeen([a, b]) == [a, b];
    assert Appended(map[], [a]) == map[FieldName("1.3") := Item("1.3", "1")];
  }

  // ---- Filing keeps the reserved group free ----

  lemma {:induction false} FilingIsSeparate(mibs: Mibs, metrics: Metrics, table: seq<Bound>)
    requires Separate(mibs) && UNRESOLVED !in metrics
    ensures UNRESOLVED !in FiledAll(mibs, metrics, table)
  {
    hide UNRESOLVED;
    if table != [] {
      FilingIsSeparate(mibs, metrics, table[..|table| - 1]);
    }
  }

  // What is sent on: the filed values, and in the reserved group every pair that
  // was not translated or not filed.
  ghost function Carried(filed: Metrics, combined: seq<Pair>): Metrics {
    if combined == [] then filed else filed[UNRESOLVED := Group(map[], Appended(map[], combined))]
  }

  // The group is one no translated binding is filed in, and everything else
  // stays as it was filed.
  lemma CarriedApart(filed: Metrics, combined: seq<Pair>)
    requires UNRESOLVED !in filed
    ensures "sc4snmp::unresolved" in Carried(filed, combined) <==> combined != []
    ensures combined != [] ==>
              Carried(filed, combined)["sc4snmp::unresolved"] == Group(map[], Appended(map[], combined))
    ensures forall group :: group != "sc4snmp::unresolved" ==> Agree(filed, Carried(filed, combined), group)
  {
  }

  // With every untranslated and every unfiled binding appended, each OID of
  // the trap is somewhere in the result.
  lemma NothingIsLost(work: seq<Pair>, table: seq<Bound>, unresolved: seq<Pair>, filed: Metrics, pair: Pair)
    requires Partition(work, table, unresolved) && pair in work && UNRESOLVED !in filed
    ensures Occurs(Carried(filed, FirstSeen(unresolved + Unprocessed(table, filed))), pair.name)
  {
    hide UNRESOLVED, Partition, Occurs, FieldName;
    var combined := FirstSeen(unresolved + Unprocessed(table, filed));
    FirstSeenHasAll(unresolved + Unprocessed(table, filed));
    NameIsSomewhere(work, table, unresolved, pair);
    if b :| b in table && b.oid == pair.name && (b.oid == "" || !Occurs(filed, b.oid)) {
      UnprocessedHas(table, filed, b);
    }
    if p :| p in combined && p.name == pair.name {
      AppendedHasName(map[], combined, p);
      OccursIn(Carried(filed, combined), UNRESOLVED, FieldName(p.name), pair.name);
    } else {
      StaysInResult(filed, Group(map[], Appended(map[], combined)), Carried(filed, combined), pair.name);
    }
  }

  lemma OccursIn(metrics: Metrics, group: string, key: string, oid: string)
    requires group in metrics && key in metrics[group].fields && metrics[group].fields[key].oid == oid
    ensures Occurs(metrics, oid)
  {
    assert OccursAt(metrics, group, key, oid);
  }

  lemma StaysInResult(filed: Metrics, more: Group, result: Metrics, oid: string)
    requires UNRESOLVED !in filed && Occurs(filed, oid)
    requires result == filed || result == filed[UNRESOLVED := more]
    ensures Occurs(result, oid)
  {
    hide UNRESOLVED;
    var group, key :| OccursAt(filed, group, key, oid);
    assert OccursAt(result, group, key, oid);
  }

  lemma NameIsSomewhere(work: seq<Pair>, table: seq<Bound>, unresolved: seq<Pair>, pair: Pair)
    requires Partition(work, table, unresolved) && pair in work
    ensures (exists b :: b in table && b.oid == pair.name) || (exists p :: p in unresolved && p.name == pair.name)
  {
    var i :| 0 <= i < |work| && work[i] == pair;
    assert Names(work)[i] in multiset(Names(work));
    if pair.name in multiset(Oids(table)) {
      var j :| 0 <= j < |table| && Oids(table)[j] == pair.name;
      assert table[j] in table;
    } else {
      assert pair.name in multiset(Names(unresolved));
      var j :| 0 <= j < |unresolved| && Names(unresolved)[j] == pair.name;
      assert unresolved[j] in unresolved;
    }
  }
}
