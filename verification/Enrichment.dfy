/** Storing the descriptive fields of a device and enriching its metrics with
    them: writes are buffered, batched and partly deferred, and still the store
    ends up holding the latest value of every field. All of it is for one
    address. */
module Enrichment {
  import opened Wrappers

  datatype Field = Field(name: string, payload: string)

  datatype Metric = Metric(value: int, kind: string, oid: string)

  datatype Group = Group(metrics: map<string, Metric>, fields: map<string, Field>, indexes: seq<string>)

  datatype Document = Document(id: Option<string>, indexes: seq<string>, fields: map<string, Field>)

  // One stage of an update pipeline, and a pipeline bound for one document.
  datatype Stage = Stage(key: string, value: Field)

  datatype Write = Write(target: string, stages: seq<Stage>)

  const TRACKED: set<string> :=
    {"SNMPv2-MIB.sysDescr", "SNMPv2-MIB.sysObjectID", "SNMPv2-MIB.sysContact", "SNMPv2-MIB.sysName",
     "SNMPv2-MIB.sysLocation"}

  const SYS_UP_TIME := "SNMPv2-MIB.sysUpTime"

  // Dots are not allowed inside stored keys, so every one becomes a bar.
  function HashKey(key: string): string {
    seq(|key|, i requires 0 <= i < |key| => if key[i] == '.' then '|' else key[i])
  }

  ghost predicate Injective(keys: set<string>) {
    forall a, b :: a in keys && b in keys && HashKey(a) == HashKey(b) ==> a == b
  }

  // Keys without bars are told apart by their hashes.
  lemma BarFreeIsInjective(keys: set<string>)
    requires forall key :: key in keys ==> '|' !in key
    ensures Injective(keys)
  {
    forall a, b | a in keys && b in keys && HashKey(a) == HashKey(b)
      ensures a == b
    {
      assert |a| == |HashKey(a)| == |HashKey(b)| == |b|;
      forall i | 0 <= i < |a|
        ensures a[i] == b[i]
      {
        assert HashKey(a)[i] == HashKey(b)[i];
        assert a[i] in a && b[i] in b;
      }
    }
  }

  // Without a premise they are not.
  lemma HashesCollide()
    ensures HashKey("IF-MIB.1") == HashKey("IF-MIB|1")
    ensures !Injective({"IF-MIB.1", "IF-MIB|1"})
  {
    assert HashKey("IF-MIB.1") == HashKey("IF-MIB|1");
    assert "IF-MIB.1"[6] != "IF-MIB|1"[6];
  }

  // ---- Pipelines ----

  function Apply(fields: map<string, Field>, stages: seq<Stage>): map<string, Field> {
    if stages == [] then fields
    else
      var last := stages[|stages| - 1];
      Apply(fields, stages[..|stages| - 1])[last.key := last.value]
  }

  lemma ApplyOneMore(fields: map<string, Field>, stages: seq<Stage>, stage: Stage)
    ensures Apply(fields, stages + [stage]) == Apply(fields, stages)[stage.key := stage.value]
  {
    assert (stages + [stage])[..|stages|] == stages;
  }

  lemma {:induction false} ApplyOverrides(fields: map<string, Field>, stages: seq<Stage>)
    ensures Apply(fields, stages) == fields + Apply(map[], stages)
  {
    if stages != [] {
      ApplyOverrides(fields, stages[..|stages| - 1]);
    }
  }

  // ---- What should be stored ----

  function Hashed(fields: map<string, Field>): (m: map<string, Field>)
    requires Injective(fields.Keys)
    ensures forall key :: key in fields ==> HashKey(key) in m && m[HashKey(key)] == Field(key, fields[key].payload)
    ensures forall h :: h in m ==> exists key :: key in fields && HashKey(key) == h
  {
    map key | key in fields :: HashKey(key) := Field(key, fields[key].payload)
  }

  predicate Tracked(key: string) {
    key in TRACKED
  }

  function TrackedOnly(fields: map<string, Field>): map<string, Field> {
    map key | key in fields && Tracked(key) :: fields[key]
  }

  // The document of a group after a report about it.
  function Reported(doc: Option<Document>, key: string, group: Group): Option<Document>
    requires Injective(group.fields.Keys)
  {
    match doc
    case Some(d) => Some(d.(fields := d.fields + Hashed(group.fields)))
    case None => if group.fields == map[] then None else Some(Document(Some(key), group.indexes, Hashed(group.fields)))
  }

  function At(attributes: map<string, Document>, h: string): Option<Document> {
    if h in attributes then Some(attributes[h]) else None
  }

  function FieldsOf(doc: Option<Document>): map<string, Field> {
    if doc.Some? then doc.value.fields else map[]
  }

  // Every document was made for the group it is stored under, and every field
  // is stored under the hash of its own name.
  ghost predicate Sound(attributes: map<string, Document>, universe: set<string>) {
    forall h :: h in attributes ==> SoundDocument(attributes[h], h, universe)
  }

  ghost predicate SoundDocument(doc: Document, h: string, universe: set<string>) {
    && doc.id.Some? && doc.id.value in universe && HashKey(doc.id.value) == h
    && SoundFields(doc.fields) && KnownNames(doc.fields, universe)
  }

  ghost predicate SoundFields(fields: map<string, Field>) {
    forall f :: f in fields ==> HashKey(fields[f].name) == f
  }

  ghost predicate KnownNames(fields: map<string, Field>, universe: set<string>) {
    forall f :: f in fields ==> fields[f].name in universe
  }

  // All keys a report uses.
  ghost predicate Within(report: map<string, Group>, universe: set<string>) {
    && report.Keys <= universe
    && forall key :: key in report ==> report[key].fields.Keys <= universe
  }

  // ---- What a group carries on ----

  // Each reported field is given its own key as its name.
  function Named(fields: map<string, Field>): map<string, Field> {
    map key | key in fields :: Field(key, fields[key].payload)
  }

  function Renamed(stored: map<string, Field>): (m: map<string, Field>)
    requires SoundFields(stored)
    ensures forall h :: h in stored ==> stored[h].name in m && m[stored[h].name] == stored[h]
    ensures forall name :: name in m ==> HashKey(name) in stored && stored[HashKey(name)].name == name
  {
    map f: Field | f in stored.Values :: f.name := f
  }

  // With metrics, a group also carries the stored fields it does not give
  // itself.
  function WithStored(group: Group, stored: map<string, Field>): Group
    requires SoundFields(stored)
  {
    if group.metrics == map[] then group else group.(fields := Renamed(stored) + group.fields)
  }

  // The group as it is passed on: its own fields under their names, and what
  // was stored for it before the report.
  function Enriched(doc: Option<Document>, group: Group): Group
    requires SoundFields(FieldsOf(doc))
  {
    WithStored(group.(fields := Named(group.fields)), FieldsOf(doc))
  }

  method EnrichMetricWithFieldsFromDb(group: Group, stored: map<string, Field>) returns (enriched: Group)
    requires SoundFields(stored)
    ensures enriched == WithStored(group, stored)
  {
    hide HashKey;
    enriched := group;
    if group.metrics == map[] {
      return;
    }
    var todo := stored.Keys;
    while todo != {}
      invariant todo <= stored.Keys
      invariant enriched == group.(fields := enriched.fields)
      invariant forall name :: name in group.fields ==>
                name in enriched.fields && enriched.fields[name] == group.fields[name]
      invariant forall h :: h in stored && h !in todo ==> stored[h].name in enriched.fields
      invariant forall name :: name in enriched.fields && name !in group.fields ==>
        HashKey(name) in stored && stored[HashKey(name)].name == name && enriched.fields[name] == stored[HashKey(name)]
      decreases todo
    {
      var h :| h in todo;
      if stored[h].name !in enriched.fields {
        enriched := enriched.(fields := enriched.fields[stored[h].name := stored[h]]);
      }
      todo := todo - {h};
    }
    assert enriched.fields == Renamed(stored) + group.fields;
  }

  lemma SoundAfter(stored: map<string, Field>, fields: map<string, Field>, universe: set<string>)
    requires SoundFields(stored) && KnownNames(stored, universe) && fields.Keys <= universe && Injective(fields.Keys)
    ensures SoundFields(stored + Hashed(fields)) && KnownNames(stored + Hashed(fields), universe)
  {
    hide HashKey;
  }

  // Under one name, before and after.
  lemma RenamedAt(stored: map<string, Field>, fields: map<string, Field>, universe: set<string>, name: string)
    requires SoundFields(stored) && KnownNames(stored, universe) && fields.Keys <= universe
    requires Injective(fields.Keys) && Injective(universe) && SoundFields(stored + Hashed(fields))
    ensures name in Renamed(stored + Hashed(fields)) <==> name in Renamed(stored) + Named(fields)
    ensures name in Named(fields) || name in Renamed(stored) ==>
      name in Renamed(stored + Hashed(fields))
          && Renamed(stored + Hashed(fields))[name] == (Renamed(stored) + Named(fields))[name]
  {
    hide HashKey;
    var after, h := stored + Hashed(fields), HashKey(name);
    if name in fields {
      assert after[h].name == name;
    } else {
      assert name in universe ==> h !in Hashed(fields);
      assert h in Hashed(fields) ==> after[h].name != name;
    }
  }

  // Passing on what was stored before, under what is reported now, is passing
  // on exactly what is stored afterwards.
  lemma EnrichedAgreesWithStored(doc: Option<Document>, key: string, group: Group, universe: set<string>)
    requires Injective(universe) && SoundFields(FieldsOf(doc)) && KnownNames(FieldsOf(doc), universe)
    requires group.fields.Keys <= universe && Injective(group.fields.Keys) && group.metrics != map[]
    ensures SoundFields(FieldsOf(Reported(doc, key, group)))
    ensures Enriched(doc, group).fields == Renamed(FieldsOf(Reported(doc, key, group)))
  {
    hide HashKey, Injective, Renamed, SoundFields, KnownNames, Named, Hashed;
    var stored := FieldsOf(doc);
    assert FieldsOf(Reported(doc, key, group)) == stored + Hashed(group.fields);
    SoundAfter(stored, group.fields, universe);
    forall name
      ensures name in Renamed(stored + Hashed(group.fields)) <==> name in Renamed(stored) + Named(group.fields)
      ensures name in Named(group.fields) || name in Renamed(stored) ==>
        name in Renamed(stored + Hashed(group.fields)) &&
        Renamed(stored + Hashed(group.fields))[name] == (Renamed(stored) + Named(group.fields))[name]
    {
      RenamedAt(stored, group.fields, universe, name);
    }
  }

  // ---- Deferred writes ----

  function PendingFor(writes: seq<Write>, h: string): seq<Stage> {
    if writes == [] then []
    else if writes[|writes| - 1].target == h then writes[|writes| - 1].stages
    else PendingFor(writes[..|writes| - 1], h)
  }

  // What a document will be once the deferred writes have reached it.
  // An upsert makes a document that is missing.
  function Eventually(attributes: map<string, Document>, writes: seq<Write>, h: string): Option<Document> {
    if h in attributes || h in Targets(writes) then Some(Updated(Base(attributes, h), PendingFor(writes, h))) else None
  }

  function Base(attributes: map<string, Document>, h: string): Document {
    if h in attributes then attributes[h] else Document(None, [], map[])
  }

  function Targets(writes: seq<Write>): set<string> {
    set write | write in writes :: write.target
  }

  function Updated(doc: Document, stages: seq<Stage>): Document {
    doc.(fields := Apply(doc.fields, stages))
  }

  ghost predicate Untargeted(writes: seq<Write>, h: string) {
    forall i :: 0 <= i < |writes| ==> writes[i].target != h
  }

  function Below(n: nat): (indices: set<nat>)
    ensures forall i :: i in indices <==> 0 <= i < n
  {
    if n == 0 then {} else Below(n - 1) + {n - 1}
  }

  ghost predicate OnePerTarget(writes: seq<Write>) {
    forall i, j :: 0 <= i < j < |writes| ==> writes[i].target != writes[j].target
  }

  lemma PendingOneMore(writes: seq<Write>, write: Write, h: string)
    ensures PendingFor(writes + [write], h) == if write.target == h then write.stages else PendingFor(writes, h)
  {
    assert (writes + [write])[..|writes|] == writes;
  }

  lemma {:induction false} PendingIs(writes: seq<Write>, i: nat)
    requires i < |writes| && OnePerTarget(writes)
    ensures PendingFor(writes, writes[i].target) == writes[i].stages
  {
    if i < |writes| - 1 {
      PendingIs(writes[..|writes| - 1], i);
    }
  }

  lemma {:induction false} NothingPending(writes: seq<Write>, h: string)
    requires Untargeted(writes, h)
    ensures PendingFor(writes, h) == []
  {
    if writes != [] {
      NothingPending(writes[..|writes| - 1], h);
    }
  }

  ghost predicate WrittenBy(before: map<string, Document>, after: map<string, Document>, write: Write) {
    write.target in after && after[write.target] == Updated(Base(before, write.target), write.stages)
  }

  lemma TargetsAre(writes: seq<Write>)
    ensures forall i :: 0 <= i < |writes| ==> writes[i].target in Targets(writes)
  {
  }

  lemma DistinctTargets(writes: seq<Write>, i: nat)
    requires OnePerTarget(writes) && i < |writes|
    ensures forall j :: 0 <= j < |writes| && j != i ==> writes[j].target != writes[i].target
  {
  }

  lemma WrittenNow(before: map<string, Document>, after: map<string, Document>, write: Write)
    requires write.target in after && after[write.target] == Updated(Base(before, write.target), write.stages)
    ensures WrittenBy(before, after, write)
  {
  }

  lemma Elsewhere(was: map<string, Document>, now: map<string, Document>, h: string, other: string)
    requires h in now && now == was[h := now[h]] && other != h
    ensures Base(now, other) == Base(was, other) && At(now, other) == At(was, other)
  {
  }

  lemma StillWritten(before: map<string, Document>, was: map<string, Document>, now: map<string, Document>,
                     write: Write)
    requires WrittenBy(before, was, write) && At(now, write.target) == At(was, write.target)
    ensures WrittenBy(before, now, write)
  {
  }

  lemma AllWritten(before: map<string, Document>, after: map<string, Document>, writes: seq<Write>, h: string)
    requires OnePerTarget(writes) && (h !in Targets(writes) ==> At(after, h) == At(before, h))
    requires forall i :: 0 <= i < |writes| ==> WrittenBy(before, after, writes[i])
    ensures At(after, h) == Eventually(before, writes, h)
  {
    hide Apply, PendingFor;
    if h in Targets(writes) {
      var i :| 0 <= i < |writes| && writes[i].target == h;
      PendingIs(writes, i);
    } else {
      TargetsAre(writes);
      NothingPending(writes, h);
      ApplyNothing();
    }
  }

  lemma ApplyNothing()
    ensures forall fields :: Apply(fields, []) == fields
  {
  }

  // ---- Buffers ----

  lemma Buffered(stored: map<string, Field>, buffer: seq<Stage>, base: map<string, Field>, part: map<string, Field>,
                 stage: Stage)
    requires Apply(stored, buffer) == base + part
    ensures Apply(stored, buffer + [stage]) == base + part[stage.key := stage.value]
  {
    hide Apply;
    ApplyOneMore(stored, buffer, stage);
  }

  // Fields that need no write, fields changed in place and fields added.
  ghost predicate Sorted(base: map<string, Field>, all: map<string, Field>, changed: map<string, Field>,
                         added: map<string, Field>) {
    && (forall f :: f in changed ==> f in base && f in all && changed[f] == all[f])
    && (forall f :: f in added ==> f !in base && f in all && added[f] == all[f])
  }

  ghost predicate Handled(base: map<string, Field>, all: map<string, Field>, changed: map<string, Field>,
                          added: map<string, Field>, f: string) {
    f in all && (f in added || (f in base && (base + changed)[f] == all[f]))
  }

  ghost predicate AllHandled(done: set<string>, base: map<string, Field>, all: map<string, Field>,
                             changed: map<string, Field>, added: map<string, Field>) {
    forall key :: key in done ==> Handled(base, all, changed, added, HashKey(key))
  }

  lemma OneChanged(done: set<string>, key: string, base: map<string, Field>, all: map<string, Field>,
                   changed: map<string, Field>, added: map<string, Field>)
    requires Sorted(base, all, changed, added) && AllHandled(done, base, all, changed, added)
    requires HashKey(key) in base && HashKey(key) in all
    ensures Sorted(base, all, changed[HashKey(key) := all[HashKey(key)]], added)
    ensures AllHandled(done + {key}, base, all, changed[HashKey(key) := all[HashKey(key)]], added)
  {
    hide HashKey;
  }

  lemma OneUnchanged(done: set<string>, key: string, base: map<string, Field>, all: map<string, Field>,
                     changed: map<string, Field>, added: map<string, Field>)
    requires Sorted(base, all, changed, added) && AllHandled(done, base, all, changed, added)
    requires HashKey(key) in base && HashKey(key) in all && base[HashKey(key)] == all[HashKey(key)]
    ensures AllHandled(done + {key}, base, all, changed, added)
  {
    hide HashKey;
  }

  lemma OneAdded(done: set<string>, key: string, base: map<string, Field>, all: map<string, Field>,
                 changed: map<string, Field>, added: map<string, Field>)
    requires Sorted(base, all, changed, added) && AllHandled(done, base, all, changed, added)
    requires HashKey(key) !in base && HashKey(key) in all
    ensures Sorted(base, all, changed, added[HashKey(key) := all[HashKey(key)]])
    ensures AllHandled(done + {key}, base, all, changed, added[HashKey(key) := all[HashKey(key)]])
  {
    hide HashKey;
  }

  lemma EverythingHandled(base: map<string, Field>, fields: map<string, Field>, changed: map<string, Field>,
                          added: map<string, Field>)
    requires Injective(fields.Keys) && Sorted(base, Hashed(fields), changed, added)
    requires AllHandled(fields.Keys, base, Hashed(fields), changed, added)
    ensures base + changed + added == base + Hashed(fields)
  {
    hide HashKey;
  }

  ghost predicate IsTracked(fields: map<string, Field>, done: set<string>, tracked: map<string, Field>)
    requires Injective(fields.Keys)
  {
    && (forall f :: f in tracked ==> f in Hashed(fields) && tracked[f] == Hashed(fields)[f])
    && (forall f :: f in tracked ==> exists key :: key in done && Tracked(key) && HashKey(key) == f)
    && (forall key :: key in done && Tracked(key) ==> HashKey(key) in tracked)
  }

  lemma OneTracked(fields: map<string, Field>, done: set<string>, tracked: map<string, Field>, key: string)
    requires Injective(fields.Keys) && IsTracked(fields, done, tracked) && key in fields
    ensures IsTracked(fields, done + {key}, if Tracked(key) then tracked[HashKey(key) := Hashed(fields)[HashKey(key)]]
                      else tracked)
  {
    hide HashKey, Tracked, Hashed;
    assert key in done + {key};
    HashedIs(fields, key);
  }

  lemma EverythingTracked(fields: map<string, Field>, tracked: map<string, Field>)
    requires Injective(fields.Keys) && IsTracked(fields, fields.Keys, tracked)
    ensures Injective(TrackedOnly(fields).Keys) && tracked == Hashed(TrackedOnly(fields))
  {
    hide HashKey, Tracked, Hashed;
    var some := TrackedOnly(fields);
    assert Injective(some.Keys);
    forall f | f in tracked
      ensures f in Hashed(some) && Hashed(some)[f] == tracked[f]
    {
      var key :| key in fields && Tracked(key) && HashKey(key) == f;
      assert key in some;
    }
    forall f | f in Hashed(some)
      ensures f in tracked
    {
      var key :| key in some && HashKey(key) == f;
    }
  }

  lemma NothingGathered(fields: map<string, Field>, base: map<string, Field>)
    requires Injective(fields.Keys)
    ensures Sorted(base, Hashed(fields), map[], map[]) && AllHandled({}, base, Hashed(fields), map[], map[])
    ensures IsTracked(fields, {}, map[])
    ensures base == base + map[]
  {
  }

  lemma FieldsOfCases(doc: Option<Document>)
    ensures doc.None? ==> FieldsOf(doc) == map[]
    ensures doc.Some? ==> FieldsOf(doc) == doc.value.fields
  {
  }

  ghost predicate SameButFields(before: map<string, Document>, after: map<string, Document>, h: string) {
    h in before && h in after && after == before[h := before[h].(fields := after[h].fields)]
  }

  lemma UpdateKeeps(before: map<string, Document>, now: map<string, Document>, h: string, stages: seq<Stage>)
    requires SameButFields(before, now, h)
    ensures SameButFields(before, now[h := Updated(now[h], stages)], h)
    ensures Updated(now[h], stages).fields == Apply(now[h].fields, stages)
  {
    hide Apply;
  }

  lemma NoUpdateKeeps(before: map<string, Document>, h: string)
    requires h in before
    ensures SameButFields(before, before, h)
  {
  }

  lemma HashedIs(fields: map<string, Field>, key: string)
    requires Injective(fields.Keys) && key in fields
    ensures HashKey(key) in Hashed(fields) && Hashed(fields)[HashKey(key)] == Field(key, fields[key].payload)
  {
  }

  // A document made or updated in place, together with the new fields deferred
  // for it, is the document the report asks for.
  lemma GroupStored(doc: Option<Document>, base: Document, attributes: map<string, Document>, writes: seq<Write>,
                    newFields: seq<Stage>, key: string, group: Group)
    requires Injective(group.fields.Keys) && Untargeted(writes, HashKey(key))
    requires base == if doc.Some? then doc.value else Document(Some(key), group.indexes, map[])
    requires group.fields == map[] ==> newFields == [] && At(attributes, HashKey(key)) == doc
    requires group.fields != map[] ==>
      HashKey(key) in attributes && attributes[HashKey(key)] == base.(fields := attributes[HashKey(key)].fields)
      && Apply(attributes[HashKey(key)].fields, newFields) == FieldsOf(doc) + Hashed(group.fields)
    ensures Eventually(attributes, if newFields == [] then writes
                       else writes + [Write(HashKey(key), newFields)], HashKey(key)) == Reported(doc, key, group)
  {
    hide Apply, PendingFor, Hashed, HashKey, Injective;
    var h := HashKey(key);
    NothingPending(writes, h);
    PendingOneMore(writes, Write(h, newFields), h);
    ApplyNothing();
    if group.fields == map[] {
      HashedNothing(group.fields);
    }
    assert map[] + Hashed(group.fields) == Hashed(group.fields);
  }

  lemma HashedNothing(fields: map<string, Field>)
    requires Injective(fields.Keys) && fields == map[]
    ensures Hashed(fields) == map[] && forall m: map<string, Field> :: m + Hashed(fields) == m
  {
  }

  // ---- Whole reports ----

  predicate TellsUpTime(group: Group) {
    SYS_UP_TIME in group.metrics
  }

  function UpTime(group: Group): int
    requires TellsUpTime(group)
  {
    group.metrics[SYS_UP_TIME].value
  }

  predicate Restarted(uptime: Option<int>, group: Group) {
    TellsUpTime(group) && uptime.Some? && UpTime(group) < uptime.value
  }

  // How many groups of a report show a restart.
  function Restarts(uptime: Option<int>, report: map<string, Group>): set<string> {
    set key | key in report && Restarted(uptime, report[key])
  }

  ghost predicate UpTimeAmong(uptime: Option<int>, report: map<string, Group>, keys: set<string>) {
    exists key :: key in keys && key in report && TellsUpTime(report[key]) && uptime == Some(UpTime(report[key]))
  }

  ghost predicate NoUpTime(report: map<string, Group>, keys: set<string>) {
    forall key :: key in keys && key in report ==> !TellsUpTime(report[key])
  }

  // The report tells this up-time in one of its groups.
  predicate Tells(report: map<string, Group>, key: string, value: int) {
    && key in report && "SNMPv2-MIB.sysUpTime" in report[key].metrics
    && report[key].metrics["SNMPv2-MIB.sysUpTime"].value == value
  }

  ghost predicate QuietFrom(report: map<string, Group>, order: seq<string>, from: nat) {
    forall j, value :: from <= j < |order| ==> !Tells(report, order[j], value)
  }

  // The last up-time told, looking at the groups in an order.
  ghost predicate TellsLast(report: map<string, Group>, order: seq<string>, value: int) {
    exists i :: 0 <= i < |order| && Tells(report, order[i], value) && QuietFrom(report, order, i + 1)
  }

  ghost predicate TellsNothing(report: map<string, Group>) {
    forall key, value :: !Tells(report, key, value)
  }

  // A walk is triggered by a report exactly when it tells an up-time below the
  // one stored before.
  ghost predicate FallsBelow(uptime: Option<int>, report: map<string, Group>) {
    exists key, value :: Tells(report, key, value) && uptime.Some? && value < uptime.value
  }

  lemma RestartsFall(uptime: Option<int>, report: map<string, Group>)
    ensures Restarts(uptime, report) != {} <==> FallsBelow(uptime, report)
    ensures forall key :: key in Restarts(uptime, report) <==>
              exists value :: Tells(report, key, value) && uptime.Some? && value < uptime.value
  {
    forall key
      ensures key in Restarts(uptime, report) <==>
              exists value :: Tells(report, key, value) && uptime.Some? && value < uptime.value
    {
      if key in Restarts(uptime, report) {
        assert Tells(report, key, UpTime(report[key]));
      }
    }
    if FallsBelow(uptime, report) {
      var key, value :| Tells(report, key, value) && uptime.Some? && value < uptime.value;
      assert key in Restarts(uptime, report);
    }
    if Restarts(uptime, report) != {} {
      var key :| key in Restarts(uptime, report);
    }
  }

  lemma {:induction false} LastUpTimeIs(uptime: Option<int>, report: map<string, Group>, order: seq<string>)
    ensures forall value :: TellsLast(report, order, value) ==> LastUpTime(uptime, report, order) == Some(value)
    ensures (forall i, value :: 0 <= i < |order| ==> !Tells(report, order[i], value)) ==>
              LastUpTime(uptime, report, order) == uptime
  {
    if order != [] {
      var n := |order| - 1;
      LastUpTimeIs(uptime, report, order[..n]);
      if order[n] in report && TellsUpTime(report[order[n]]) {
        assert Tells(report, order[n], UpTime(report[order[n]]));
      } else {
        forall value | TellsLast(report, order, value)
          ensures TellsLast(report, order[..n], value)
        {
          var i :| 0 <= i < |order| && Tells(report, order[i], value) && QuietFrom(report, order, i + 1);
          assert order[..n][i] == order[i] && QuietFrom(report, order[..n], i + 1);
        }
      }
    }
  }

  // The up-time after the groups have been looked at in the given order.
  function LastUpTime(uptime: Option<int>, report: map<string, Group>, keys: seq<string>): Option<int> {
    if keys == [] then uptime
    else
      var last := keys[|keys| - 1];
      if last in report && TellsUpTime(report[last]) then Some(UpTime(report[last]))
      else LastUpTime(uptime, report, keys[..|keys| - 1])
  }

  function RestartCount(uptime: Option<int>, report: map<string, Group>, keys: seq<string>): nat {
    if keys == [] then 0
    else
      var last := keys[|keys| - 1];
      RestartCount(uptime, report, keys[..|keys| - 1])
      + if last in report && Restarted(uptime, report[last]) then 1 else 0
  }

  ghost predicate Enumerates(order: seq<string>, keys: set<string>) {
    multiset(order) == multiset(keys)
  }

  lemma KeysAre(order: seq<string>, keys: set<string>)
    requires Enumerates(order, keys)
    ensures forall key :: key in order <==> key in keys
  {
    assert forall key :: key in order <==> key in multiset(order);
  }

  lemma NextKey(order: seq<string>, i: nat, keys: set<string>, done: set<string>)
    requires i < |order| && Enumerates(order, keys) && Enumerates(order[..i], done)
    ensures order[i] in keys && order[i] !in done && Enumerates(order[..i + 1], done + {order[i]})
  {
    assert order[..i + 1] == order[..i] + [order[i]];
    assert order == order[..i + 1] + order[i + 1..];
    assert multiset(order) == multiset(order[..i]) + multiset{order[i]} + multiset(order[i + 1..]);
    assert multiset(order)[order[i]] <= 1;
  }

  lemma SameKeys(order: seq<string>, keys: set<string>, done: set<string>)
    requires Enumerates(order, keys) && Enumerates(order, done)
    ensures keys == done
  {
    assert forall key :: key in keys <==> key in multiset(keys);
    assert forall key :: key in done <==> key in multiset(done);
  }

  function RestartsAmong(uptime: Option<int>, report: map<string, Group>, keys: set<string>): set<string>
    requires keys <= report.Keys
  {
    set key | key in keys && Restarted(uptime, report[key])
  }

  lemma OneMoreRestart(uptime: Option<int>, report: map<string, Group>, keys: set<string>, last: string)
    requires keys <= report.Keys && last in keys
    ensures |RestartsAmong(uptime, report, keys)| ==
              |RestartsAmong(uptime, report, keys - {last})| + if Restarted(uptime, report[last]) then 1 else 0
  {
    hide Restarted;
    var but := RestartsAmong(uptime, report, keys - {last});
    assert RestartsAmong(uptime, report, keys) == but + if Restarted(uptime, report[last]) then {last} else {};
  }

  lemma {:induction false} CountRestarts(uptime: Option<int>, report: map<string, Group>, order: seq<string>,
                                         keys: set<string>)
    requires Enumerates(order, keys) && keys <= report.Keys
    ensures RestartCount(uptime, report, order) == |RestartsAmong(uptime, report, keys)|
    ensures keys == report.Keys ==> RestartCount(uptime, report, order) == |Restarts(uptime, report)|
  {
    hide Restarted, Enumerates;
    if order == [] {
      SameKeys(order, keys, {});
      assert RestartsAmong(uptime, report, {}) == {};
    } else {
      var n := |order| - 1;
      LastKey(order, keys);
      CountRestarts(uptime, report, order[..n], keys - {order[n]});
      OneMoreRestart(uptime, report, keys, order[n]);
    }
    assert keys == report.Keys ==> Restarts(uptime, report) == RestartsAmong(uptime, report, keys);
  }

  lemma LastKey(order: seq<string>, keys: set<string>)
    requires order != [] && Enumerates(order, keys)
    ensures order[|order| - 1] in keys && Enumerates(order[..|order| - 1], keys - {order[|order| - 1]})
  {
    var last := order[|order| - 1];
    assert order == order[..|order| - 1] + [last];
    assert multiset(order) == multiset(order[..|order| - 1]) + multiset{last};
    assert last in multiset(keys);
    assert multiset(keys - {last}) == multiset(keys) - multiset{last};
  }

  // The tracked fields of the groups, taken in the given order.
  ghost function StateAfter(state: map<string, Field>, report: map<string, Group>,
                            order: seq<string>): Option<map<string, Field>> {
    if order == [] then Some(state)
    else
      var key := order[|order| - 1];
      var earlier := StateAfter(state, report, order[..|order| - 1]);
      if earlier.Some? && key in report && Injective(TrackedOnly(report[key].fields).Keys)
      then Some(earlier.value + Hashed(TrackedOnly(report[key].fields))) else None
  }

  ghost predicate Absorbed(before: map<string, Document>, report: map<string, Group>, after: map<string, Document>) {
    && (forall key :: key in report ==>
          Injective(report[key].fields.Keys)
              && At(after, HashKey(key)) == Reported(At(before, HashKey(key)), key, report[key]))
    && (forall h :: Apart(report.Keys, h) ==> At(after, h) == At(before, h))
  }

  ghost predicate Apart(keys: set<string>, h: string) {
    forall key :: key in keys ==> HashKey(key) != h
  }

  ghost predicate PassedOn(before: map<string, Document>, group: Group, key: string, passed: Group) {
    && SoundFields(FieldsOf(At(before, HashKey(key))))
    && passed == Enriched(At(before, HashKey(key)), group)
  }

  // Some groups of the report are done, apart from their deferred writes.
  ghost predicate Progress(before: map<string, Document>, report: map<string, Group>, done: set<string>,
                           attributes: map<string, Document>, writes: seq<Write>) {
    && done <= report.Keys
    && OnePerTarget(writes) && (forall i :: 0 <= i < |writes| ==> writes[i].target in attributes)
    && (forall key :: key in done ==>
          Injective(report[key].fields.Keys)
          && Eventually(attributes, writes, HashKey(key)) == Reported(At(before, HashKey(key)), key, report[key]))
    && (forall h :: Apart(done, h) ==> At(attributes, h) == At(before, h) && Untargeted(writes, h))
  }

  lemma NothingDone(before: map<string, Document>, report: map<string, Group>, state: map<string, Field>)
    ensures Progress(before, report, {}, before, [])
    ensures StateAfter(state, report, []) == Some(state) && Enumerates([], {})
  {
  }

  lemma AtNothing(attributes: map<string, Document>, h: string)
    ensures attributes == map[] ==> At(attributes, h) == None
    ensures At(attributes, h) == None <==> h !in attributes
  {
  }

  lemma NotYetTouched(before: map<string, Document>, report: map<string, Group>, done: set<string>,
                      attributes: map<string, Document>, writes: seq<Write>, key: string, universe: set<string>)
    requires Progress(before, report, done, attributes, writes) && Injective(universe) && Within(report, universe)
    requires key in report && key !in done
    ensures At(attributes, HashKey(key)) == At(before, HashKey(key)) && Untargeted(writes, HashKey(key))
    ensures HashKey(key) in attributes <==> HashKey(key) in before
    ensures Injective(report[key].fields.Keys) && Apart(done, HashKey(key))
  {
    hide HashKey, At, Untargeted, Reported, Eventually, OnePerTarget;
    assert Apart(done, HashKey(key));
    AtNothing(attributes, HashKey(key));
    AtNothing(before, HashKey(key));
  }

  lemma OneMoreGroup(before: map<string, Document>, report: map<string, Group>, done: set<string>,
                     was: map<string, Document>, earlier: seq<Write>, now: map<string, Document>, writes: seq<Write>,
                     key: string)
    requires Progress(before, report, done, was, earlier) && key in report && key !in done
    requires Untargeted(earlier, HashKey(key)) && Injective(report[key].fields.Keys)
    requires Eventually(now, writes, HashKey(key)) == Reported(At(before, HashKey(key)), key, report[key])
    requires forall h :: h != HashKey(key) ==> At(now, h) == At(was, h)
    requires writes == earlier
             || (HashKey(key) in now && exists stages :: writes == earlier + [Write(HashKey(key), stages)])
    requires Apart(done, HashKey(key))
    ensures Progress(before, report, done + {key}, now, writes)
  {
    hide HashKey, Reported, Eventually, At, Injective;
    var h := HashKey(key);
    forall other
      ensures other != h ==> Eventually(now, writes, other) == Eventually(was, earlier, other)
      ensures other != h && Untargeted(earlier, other) ==> Untargeted(writes, other)
      ensures other != h ==> (other in now <==> other in was)
    {
      EventuallyOther(was, earlier, now, writes, other, h);
    }
    assert forall other :: Apart(done + {key}, other) ==> Apart(done, other) && other != h by {
      assert key in done + {key};
    }
  }

  lemma EventuallyOther(was: map<string, Document>, earlier: seq<Write>, now: map<string, Document>, writes: seq<Write>,
                        other: string, h: string)
    requires writes == earlier || exists stages :: writes == earlier + [Write(h, stages)]
    requires other != h ==> At(now, other) == At(was, other)
    ensures other != h ==> Eventually(now, writes, other) == Eventually(was, earlier, other)
    ensures other != h && Untargeted(earlier, other) ==> Untargeted(writes, other)
    ensures other != h ==> (other in now <==> other in was)
  {
    if writes != earlier {
      var stages :| writes == earlier + [Write(h, stages)];
      PendingOneMore(earlier, Write(h, stages), other);
    }
  }

  lemma KnownKey(report: map<string, Group>, key: string, universe: set<string>)
    requires Injective(universe) && Within(report, universe) && key in report
    ensures key in universe && Injective(TrackedOnly(report[key].fields).Keys)
  {
    hide HashKey, Tracked;
  }

  lemma OneMoreState(state: map<string, Field>, report: map<string, Group>, order: seq<string>, key: string)
    requires key in report && Injective(TrackedOnly(report[key].fields).Keys)
    ensures StateAfter(state, report, order).Some? ==>
      var fields := Hashed(TrackedOnly(report[key].fields));
      StateAfter(state, report, order + [key]) == Some(StateAfter(state, report, order).value + fields)
  {
    assert (order + [key])[..|order|] == order;
  }

  // The document found under a key's hash was made for that key.
  lemma OwnDocument(attributes: map<string, Document>, key: string, universe: set<string>)
    requires Injective(universe) && Sound(attributes, universe) && key in universe
    ensures SoundFields(FieldsOf(At(attributes, HashKey(key))))
    ensures At(attributes, HashKey(key)).Some? ==> At(attributes, HashKey(key)).value.id == Some(key)
  {
    hide HashKey;
  }

  lemma PassedOnNow(before: map<string, Document>, group: Group, key: string)
    requires SoundFields(FieldsOf(At(before, HashKey(key))))
    ensures PassedOn(before, group, key,
                     WithStored(group.(fields := Named(group.fields)), FieldsOf(At(before, HashKey(key)))))
    ensures At(before, HashKey(key)).None? ==> PassedOn(before, group, key, group.(fields := Named(group.fields)))
  {
    hide HashKey, Named, SoundFields;
    if At(before, HashKey(key)).None? {
      assert Renamed(map[]) == map[];
      assert map[] + Named(group.fields) == Named(group.fields);
    }
  }

  lemma ProgressWrites(before: map<string, Document>, report: map<string, Group>, done: set<string>,
                       attributes: map<string, Document>, writes: seq<Write>)
    requires Progress(before, report, done, attributes, writes)
    ensures OnePerTarget(writes) && (forall i :: 0 <= i < |writes| ==> writes[i].target in attributes)
  {
  }

  lemma EverythingWritten(before: map<string, Document>, report: map<string, Group>, pending: map<string, Document>,
                          writes: seq<Write>, after: map<string, Document>, universe: set<string>)
    requires Progress(before, report, report.Keys, pending, writes)
    requires forall h :: At(after, h) == Eventually(pending, writes, h)
    requires Injective(universe) && Within(report, universe) && Sound(before, universe)
    ensures Absorbed(before, report, after) && Sound(after, universe)
  {
    hide HashKey, Reported, Eventually, At, Injective, Sound;
    forall h | Apart(report.Keys, h)
      ensures At(after, h) == At(before, h)
    {
      NothingEventually(pending, writes, h);
    }
    StaysSound(before, report, after, universe);
  }

  lemma NothingEventually(attributes: map<string, Document>, writes: seq<Write>, h: string)
    requires Untargeted(writes, h)
    ensures Eventually(attributes, writes, h) == At(attributes, h)
  {
    hide Apply, PendingFor;
    NothingPending(writes, h);
    ApplyNothing();
  }

  lemma StaysSound(before: map<string, Document>, report: map<string, Group>, after: map<string, Document>,
                   universe: set<string>)
    requires Absorbed(before, report, after)
    requires Injective(universe) && Within(report, universe) && Sound(before, universe)
    ensures Sound(after, universe)
  {
    hide HashKey, Reported, Injective, SoundDocument;
    forall h | h in after
      ensures SoundDocument(after[h], h, universe)
    {
      if !Apart(report.Keys, h) {
        var key :| key in report && HashKey(key) == h;
        StaysSoundAt(At(before, h), key, report[key], universe);
      }
    }
  }

  lemma StaysSoundAt(doc: Option<Document>, key: string, group: Group, universe: set<string>)
    requires doc.Some? ==> SoundDocument(doc.value, HashKey(key), universe)
    requires key in universe && group.fields.Keys <= universe && Injective(group.fields.Keys)
    ensures Reported(doc, key, group).Some? ==> SoundDocument(Reported(doc, key, group).value, HashKey(key), universe)
  {
    hide HashKey, Injective, SoundFields, KnownNames, Hashed;
    var stored := FieldsOf(doc);
    if doc.None? {
      NothingSound(universe);
    }
    SoundAfter(stored, group.fields, universe);
    assert map[] + Hashed(group.fields) == Hashed(group.fields);
  }

  lemma NothingSound(universe: set<string>)
    ensures SoundFields(map[]) && KnownNames(map[], universe)
  {
  }

  class Collections {
    const threshold: nat
    var attributes: map<string, Document>
    var state: map<string, Field>
    var uptime: Option<int>
    // Buffers of one call.
    var updates: seq<Stage>
    var attributeUpdates: seq<Stage>

    constructor (threshold: nat)
      requires threshold >= 1
      ensures this.threshold == threshold && attributes == map[] && state == map[] && uptime == None
      ensures updates == [] && attributeUpdates == []
    {
      this.threshold := threshold;
      attributes, state, uptime, updates, attributeUpdates := map[], map[], None, [], [];
    }

    // Pipelines for different documents commute, so they may be run in any
    // order.
    method BulkWriteAttributes(writes: seq<Write>)
      requires OnePerTarget(writes)
      modifies this`attributes
      ensures forall h :: At(attributes, h) == Eventually(old(attributes), writes, h)
    {
      hide *;
      ghost var before := attributes;
      var rest := Below(|writes|);
      while rest != {}
        invariant rest <= Below(|writes|)
        invariant forall i :: i in rest ==> Base(attributes, writes[i].target) == Base(before, writes[i].target)
        invariant forall i :: 0 <= i < |writes| && i !in rest ==> WrittenBy(before, attributes, writes[i])
        invariant forall h :: h !in Targets(writes) ==> At(attributes, h) == At(before, h)
        decreases rest
      {
        var i :| i in rest;
        var h := writes[i].target;
        TargetsAre(writes);
        DistinctTargets(writes, i);
        ghost var was := attributes;
        attributes := attributes[h := Updated(Base(attributes, h), writes[i].stages)];
        WrittenNow(before, attributes, writes[i]);
        forall other | other != h
          ensures Base(attributes, other) == Base(was, other) && At(attributes, other) == At(was, other)
        {
          Elsewhere(was, attributes, h, other);
        }
        forall j | 0 <= j < |writes| && j !in rest
          ensures WrittenBy(before, attributes, writes[j])
        {
          StillWritten(before, was, attributes, writes[j]);
        }
        rest := rest - {i};
      }
      forall h
        ensures At(attributes, h) == Eventually(before, writes, h)
      {
        AllWritten(before, attributes, writes, h);
      }
    }

    method UpdateTargets()
      modifies this`state, this`updates
      ensures updates == [] && state == Apply(old(state), old(updates))
    {
      state := Apply(state, updates);
      updates := [];
    }

    // One pipeline for one document, which an upsert makes when it is missing.
    method UpdateDocument(h: string, upsert: bool)
      modifies this`attributes, this`attributeUpdates
      ensures attributeUpdates == []
      ensures h in old(attributes) ==>
              attributes == old(attributes)[h := Updated(old(attributes)[h], old(attributeUpdates))]
      ensures h !in old(attributes) && !upsert ==> attributes == old(attributes)
      ensures h !in old(attributes) && upsert ==>
                attributes == old(attributes)[h := Updated(Document(None, [], map[]), old(attributeUpdates))]
    {
      if h in attributes || upsert {
        attributes := attributes[h := Updated(Base(attributes, h), attributeUpdates)];
      }
      attributeUpdates := [];
    }

    // Sorts the reported fields by what storing them takes. Changes are flushed
    // whenever a buffer is full; what is left is in the buffers, and new fields
    // are handed back.
    method SetAttributeUpdates(current: Option<Document>, fields: map<string, Field>, h: string)
      returns (newFields: seq<Stage>)
      requires threshold >= 1 && updates == [] && attributeUpdates == [] && Injective(fields.Keys)
      requires fields != map[] ==> h in attributes && attributes[h].fields == FieldsOf(current)
      requires current.Some? ==> h in attributes
      modifies this`attributes, this`state, this`updates, this`attributeUpdates
      ensures |updates| < threshold && |attributeUpdates| < threshold
      ensures Injective(TrackedOnly(fields).Keys) && Apply(state, updates) == old(state) + Hashed(TrackedOnly(fields))
      ensures fields == map[] ==> newFields == [] && attributeUpdates == [] && attributes == old(attributes)
      ensures fields != map[] ==>
        h in attributes && SameButFields(old(attributes), attributes, h)
        && Apply(Apply(attributes[h].fields, attributeUpdates), newFields) == FieldsOf(current) + Hashed(fields)
    {
      hide *;
      newFields := [];
      ghost var base, all, before := FieldsOf(current), Hashed(fields), attributes;
      ghost var changed: map<string, Field>, added: map<string, Field>, tracked: map<string, Field> := map[], map[],
          map[];
      NothingGathered(fields, base);
      NothingGathered(fields, state);
      ApplyNothing();
      if fields != map[] {
        NoUpdateKeeps(attributes, h);
      }
      var todo := fields.Keys;
      assert fields.Keys - todo == {};
      while todo != {}
        invariant todo <= fields.Keys
        invariant |updates| < threshold && |attributeUpdates| < threshold
        invariant fields == map[] ==> newFields == [] && attributeUpdates == [] && attributes == before
        invariant fields != map[] ==> h in attributes && SameButFields(before, attributes, h)
        invariant fields != map[] ==> Apply(attributes[h].fields, attributeUpdates) == base + changed
        invariant Apply(map[], newFields) == added
        invariant Apply(state, updates) == old(state) + tracked
        invariant Sorted(base, all, changed, added) && AllHandled(fields.Keys - todo, base, all, changed, added)
        invariant IsTracked(fields, fields.Keys - todo, tracked)
        decreases todo
      {
        var key :| key in todo;
        var keyHash, value := HashKey(key), Field(key, fields[key].payload);
        HashedIs(fields, key);
        ghost var done := fields.Keys - todo;
        if current.Some? && keyHash in current.value.fields {
          FieldsOfCases(current);
          if current.value.fields[keyHash] != value {
            Buffered(attributes[h].fields, attributeUpdates, base, changed, Stage(keyHash, value));
            attributeUpdates := attributeUpdates + [Stage(keyHash, value)];
            OneChanged(done, key, base, all, changed, added);
            changed := changed[keyHash := value];
          } else {
            OneUnchanged(done, key, base, all, changed, added);
          }
        } else {
          FieldsOfCases(current);
          ApplyOneMore(map[], newFields, Stage(keyHash, value));
          newFields := newFields + [Stage(keyHash, value)];
          OneAdded(done, key, base, all, changed, added);
          added := added[keyHash := value];
        }
        OneTracked(fields, done, tracked, key);
        if Tracked(key) {
          Buffered(state, updates, old(state), tracked, Stage(keyHash, value));
          updates := updates + [Stage(keyHash, value)];
          tracked := tracked[keyHash := value];
        }
        if |updates| >= threshold {
          ApplyNothing();
          UpdateTargets();
        }
        if |attributeUpdates| >= threshold {
          UpdateKeeps(before, attributes, h, attributeUpdates);
          UpdateDocument(h, true);
        }
        todo := todo - {key};
        assert fields.Keys - todo == done + {key};
      }
      assert fields.Keys - todo == fields.Keys;
      EverythingHandled(base, fields, changed, added);
      EverythingTracked(fields, tracked);
      if fields != map[] {
        ApplyOverrides(Apply(attributes[h].fields, attributeUpdates), newFields);
      }
    }

    // What the buffers still hold is written at the end of every group.
    method UpdateCollections(h: string)
      requires attributeUpdates != [] ==> h in attributes
      modifies this`attributes, this`state, this`updates, this`attributeUpdates
      ensures updates == [] && attributeUpdates == []
      ensures state == Apply(old(state), old(updates))
      ensures h in old(attributes) ==>
              attributes == old(attributes)[h := Updated(old(attributes)[h], old(attributeUpdates))]
      ensures h !in old(attributes) || old(attributeUpdates) == [] ==> attributes == old(attributes)
    {
      ApplyNothing();
      if updates != [] {
        UpdateTargets();
      }
      if attributeUpdates != [] {
        UpdateDocument(h, false);
      }
    }

    // One group of a report: everything but its new fields is written at once,
    // those are deferred.
    method EnrichGroup(key: string, group: Group, anyDocument: bool, writes: seq<Write>)
      returns (deferred: seq<Write>, current: Option<Document>)
      requires threshold >= 1 && updates == [] && attributeUpdates == [] && Injective(group.fields.Keys)
      requires !anyDocument ==> HashKey(key) !in attributes
      requires Untargeted(writes, HashKey(key))
      modifies this`attributes, this`state, this`updates, this`attributeUpdates
      ensures updates == [] && attributeUpdates == []
      ensures Injective(TrackedOnly(group.fields).Keys) && state == old(state) + Hashed(TrackedOnly(group.fields))
      ensures Eventually(attributes, deferred, HashKey(key)) == Reported(At(old(attributes), HashKey(key)), key, group)
      ensures forall h :: h != HashKey(key) ==> At(attributes, h) == At(old(attributes), h)
      ensures deferred == writes
              || (HashKey(key) in attributes && exists stages :: deferred == writes + [Write(HashKey(key), stages)])
      ensures current == At(old(attributes), HashKey(key))
    {
      hide Apply, PendingFor, Hashed, HashKey, SoundFields, Renamed, Enriched, Injective, TrackedOnly, Untargeted,
          Reported, Eventually;
      var h := HashKey(key);
      ghost var doc := At(attributes, h);
      current := if anyDocument then At(attributes, h) else None;
      assert current == doc;
      if current.None? && group.fields != map[] {
        attributes := attributes[h := Document(Some(key), group.indexes, map[])];
      }
      ghost var base := if doc.Some? then doc.value else Document(Some(key), group.indexes, map[]);
      var newFields := SetAttributeUpdates(current, group.fields, h);
      deferred := writes;
      if newFields != [] {
        deferred := deferred + [Write(h, newFields)];
      }
      UpdateCollections(h);
      GroupStored(doc, base, attributes, writes, newFields, key, group);
    }

    // Stores the reported up-time, the last one if several groups tell one, and
    // counts the walks a restart triggers: one for every reported up-time below
    // the one stored before the report.
    method CheckRestart(report: map<string, Group>, keys: seq<string>) returns (triggered: nat)
      requires Enumerates(keys, report.Keys)
      modifies this`uptime
      ensures uptime == LastUpTime(old(uptime), report, keys)
      ensures forall value :: TellsLast(report, keys, value) ==> uptime == Some(value)
      ensures TellsNothing(report) ==> uptime == old(uptime)
      ensures triggered == |Restarts(old(uptime), report)|
      ensures triggered > 0 <==> FallsBelow(old(uptime), report)
    {
      hide TellsUpTime, UpTime, Enumerates;
      triggered := 0;
      var current := uptime;
      KeysAre(keys, report.Keys);
      for i := 0 to |keys|
        invariant uptime == LastUpTime(current, report, keys[..i])
        invariant triggered == RestartCount(current, report, keys[..i])
      {
        assert keys[..i + 1][..i] == keys[..i];
        if TellsUpTime(report[keys[i]]) {
          uptime := Some(UpTime(report[keys[i]]));
          if current.Some? && UpTime(report[keys[i]]) < current.value {
            triggered := triggered + 1;
          }
        }
      }
      assert keys[..|keys|] == keys;
      CountRestarts(current, report, keys, report.Keys);
      RestartsFall(current, report);
      LastUpTimeIs(current, report, keys);
    }

    // The next group of a report of which some groups are done.
    method EnrichNext(report: map<string, Group>, key: string, anyDocument: bool, writes: seq<Write>,
                      ghost before: map<string, Document>, ghost done: set<string>, ghost universe: set<string>)
      returns (deferred: seq<Write>, current: Option<Document>)
      requires threshold >= 1 && updates == [] && attributeUpdates == []
      requires Injective(universe) && Within(report, universe) && key in report && key !in done
      requires Progress(before, report, done, attributes, writes) && (anyDocument <==> before != map[])
      modifies this`attributes, this`state, this`updates, this`attributeUpdates
      ensures updates == [] && attributeUpdates == []
      ensures Progress(before, report, done + {key}, attributes, deferred)
      ensures current == At(before, HashKey(key))
      ensures Injective(TrackedOnly(report[key].fields).Keys)
              && state == old(state) + Hashed(TrackedOnly(report[key].fields))
    {
      hide *;
      ghost var was := attributes;
      NotYetTouched(before, report, done, attributes, writes, key, universe);
      AtNothing(before, HashKey(key));
      deferred, current := EnrichGroup(key, report[key], anyDocument, writes);
      OneMoreGroup(before, report, done, was, writes, attributes, deferred, key);
    }

    // The group that was read is the group its stored fields are for.
    method PassOn(result: map<string, Group>, key: string, current: Option<Document>,
                  ghost before: map<string, Document>, ghost universe: set<string>)
      returns (passed: map<string, Group>)
      requires key in result && key in universe && Injective(universe) && Sound(before, universe)
               && current == At(before, HashKey(key))
      ensures passed.Keys == result.Keys && forall other :: other in result && other != key ==>
              passed[other] == result[other]
      ensures PassedOn(before, result[key], key, passed[key])
    {
      hide *;
      OwnDocument(before, key, universe);
      PassedOnNow(before, result[key], key);
      FieldsOfCases(current);
      passed := result[key := result[key].(fields := Named(result[key].fields))];
      if current.Some? {
        var id := current.value.id.value;
        if id in passed {
          var enriched := EnrichMetricWithFieldsFromDb(passed[id], current.value.fields);
          passed := passed[id := enriched];
        }
      }
    }

    // A whole report, group by group in its own order: afterwards the store
    // holds it, on top of what it held, and every group is passed on with what
    // is stored for it.
    method Enrich(report: map<string, Group>, keys: seq<string>, ghost universe: set<string>)
      returns (result: map<string, Group>, restarts: nat)
      requires threshold >= 1 && updates == [] && attributeUpdates == [] && Enumerates(keys, report.Keys)
      requires Injective(universe) && Within(report, universe) && Sound(attributes, universe)
      modifies this
      ensures updates == [] && attributeUpdates == []
      ensures Absorbed(old(attributes), report, attributes) && Sound(attributes, universe)
      ensures result.Keys == report.Keys
      ensures forall key :: key in report ==> PassedOn(old(attributes), report[key], key, result[key])
      ensures uptime == LastUpTime(old(uptime), report, keys)
      ensures forall value :: TellsLast(report, keys, value) ==> uptime == Some(value)
      ensures TellsNothing(report) ==> uptime == old(uptime)
      ensures restarts == |Restarts(old(uptime), report)|
      ensures restarts > 0 <==> FallsBelow(old(uptime), report)
      ensures StateAfter(old(state), report, keys) == Some(state)
    {
      hide *;
      restarts := CheckRestart(report, keys);
      ghost var checked := uptime;
      var anyDocument := attributes != map[];
      ghost var before := attributes;
      var writes: seq<Write> := [];
      result := report;
      ghost var done: set<string> := {};
      NothingDone(before, report, state);
      assert keys[..0] == [];
      for i := 0 to |keys|
        invariant done <= report.Keys == result.Keys && uptime == checked
        invariant updates == [] && attributeUpdates == []
        invariant Progress(before, report, done, attributes, writes)
        invariant forall key :: key in report && key !in done ==> result[key] == report[key]
        invariant forall key :: key in done ==> PassedOn(before, report[key], key, result[key])
        invariant Enumerates(keys[..i], done) && StateAfter(old(state), report, keys[..i]) == Some(state)
      {
        var key := keys[i];
        NextKey(keys, i, report.Keys, done);
        KnownKey(report, key, universe);
        OneMoreState(old(state), report, keys[..i], key);
        assert keys[..i + 1] == keys[..i] + [key];
        var current: Option<Document>;
        writes, current := EnrichNext(report, key, anyDocument, writes, before, done, universe);
        result := PassOn(result, key, current, before, universe);
        done := done + {key};
      }
      assert keys[..|keys|] == keys;
      SameKeys(keys, report.Keys, done);
      ghost var pending := attributes;
      ProgressWrites(before, report, report.Keys, attributes, writes);
      BulkWriteAttributes(writes);
      EverythingWritten(before, report, pending, writes, attributes, universe);
    }
  }
}
