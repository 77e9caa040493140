/** Splitting a profile's varbinds into those fetched by bulk walk and those
    fetched by GET, and adding profiles up. */
module Profiles {
  import opened Wrappers
  import opened Strings
  import opened Varbinds
  import opened ProfileNames

  const SYSTEM_FAMILY: Varbind := ["SNMPv2-MIB"]

  ghost predicate AllWellFormed(listed: seq<Varbind>) {
    forall v :: v in listed ==> WellFormed(v)
  }

  // What a profile asks for: the listed varbinds, and the system family for a walk.
  function Asked(listed: seq<Varbind>, isWalk: bool): seq<Varbind> {
    if isWalk then [SYSTEM_FAMILY] + listed else listed
  }

  function KeysOf(vs: seq<Varbind>): set<string>
    requires AllWellFormed(vs)
  {
    set v | v in vs :: Key(v)
  }

  // The keys with nothing more general asked for, by kind.
  function MinimalKeys(vs: seq<Varbind>, instances: bool): set<string>
    requires AllWellFormed(vs)
  {
    set v | v in vs && (|v| >= 3 <==> instances) && General(v) !! KeysOf(vs) :: Key(v)
  }

  ghost predicate SortedBySize(vs: seq<Varbind>) {
    forall i, j :: 0 <= i < j < |vs| ==> |vs[i]| <= |vs[j]|
  }

  // A profile holds exactly the minimal keys of what has been asked for.
  ghost predicate Divided(asked: seq<Varbind>, bulk: Entries, get: Entries)
    requires AllWellFormed(asked)
  {
    && Keyed(bulk) && Keyed(get)
    && bulk.Keys == MinimalKeys(asked, false)
    && get.Keys == MinimalKeys(asked, true)
    && (forall k :: k in bulk ==> |bulk[k]| < 3)
    && (forall k :: k in get ==> |get[k]| >= 3)
  }

  lemma GeneralIsSmaller(v: Varbind, w: Varbind)
    requires WellFormed(v) && WellFormed(w) && Key(w) in General(v)
    ensures |w| < |v| && |w| < 3
  {
    FamilyOfKey(w);
    if Key(w) == v[0] {
    } else {
      KeyDetermines(w, v[..2]);
    }
  }

  // Asking for one more, no smaller than anything before it, leaves the
  // minimal keys minimal, and adds its own when nothing above it was asked for.
  lemma OneMoreAsked(asked: seq<Varbind>, v: Varbind, instances: bool)
    requires AllWellFormed(asked + [v]) && forall w :: w in asked ==> |w| <= |v|
    ensures AllWellFormed(asked) && WellFormed(v)
    ensures MinimalKeys(asked + [v], instances) ==
              MinimalKeys(asked, instances)
              + (if (|v| >= 3 <==> instances) && General(v) !! KeysOf(asked) then {Key(v)} else {})
  {
    assert v in asked + [v] && forall w :: w in asked ==> w in asked + [v];
    forall w | w in asked + [v]
      ensures General(w) !! KeysOf(asked + [v]) <==> General(w) !! KeysOf(asked)
    {
      if Key(v) in General(w) {
        GeneralIsSmaller(w, v);
      }
    }
  }

  // Above an instance or a field, the bulk part shows whatever was asked for.
  lemma BulkShowsGeneral(asked: seq<Varbind>, bulk: Entries, v: Varbind)
    requires AllWellFormed(asked) && WellFormed(v) && bulk.Keys == MinimalKeys(asked, false)
    ensures General(v) !! bulk.Keys <==> General(v) !! KeysOf(asked)
  {
    if g :| g in General(v) && g in KeysOf(asked) {
      ShowsGeneral(asked, bulk, v, g);
    }
  }

  lemma ShowsGeneral(asked: seq<Varbind>, bulk: Entries, v: Varbind, g: string)
    requires AllWellFormed(asked) && WellFormed(v) && bulk.Keys == MinimalKeys(asked, false)
    requires g in General(v) && g in KeysOf(asked)
    ensures General(v) * bulk.Keys != {}
  {
    var w :| w in asked && Key(w) == g;
    GeneralIsSmaller(v, w);
    if h :| h in General(w) && h in KeysOf(asked) {
      var u :| u in asked && Key(u) == h;
      GeneralIsSmaller(w, u);
      FamilyOfKey(u);
      GeneralOfGeneral(v, w, h);
      assert u in asked && General(u) == {};
      assert h in bulk.Keys;
    } else {
      assert g in bulk.Keys;
    }
  }

  lemma GeneralOfGeneral(v: Varbind, w: Varbind, h: string)
    requires WellFormed(v) && WellFormed(w) && Key(w) in General(v) && h in General(w)
    ensures h in General(v)
  {
    FamilyOfKey(w);
    if Key(w) != v[0] {
      KeyDetermines(w, v[..2]);
    }
  }

  // Sorting by the number of components, stable as Python's sort is.
  function InsertBySize(sorted: seq<Varbind>, v: Varbind): seq<Varbind> {
    if sorted == [] || |sorted[|sorted| - 1]| <= |v| then sorted + [v]
    else InsertBySize(sorted[..|sorted| - 1], v) + [sorted[|sorted| - 1]]
  }

  function SortBySize(listed: seq<Varbind>): seq<Varbind> {
    if listed == [] then [] else InsertBySize(SortBySize(listed[..|listed| - 1]), listed[|listed| - 1])
  }

  lemma SortedSnoc(vs: seq<Varbind>, v: Varbind)
    requires SortedBySize(vs) && forall w :: w in vs ==> |w| <= |v|
    ensures SortedBySize(vs + [v])
  {
  }

  lemma SortedLast(vs: seq<Varbind>, v: Varbind)
    requires SortedBySize(vs) && vs != []
    ensures SortedBySize(vs[..|vs| - 1]) && vs == vs[..|vs| - 1] + [vs[|vs| - 1]]
    ensures forall w :: w in vs ==> |w| <= |vs[|vs| - 1]|
  {
  }

  lemma {:induction false} InsertBySizeSorts(sorted: seq<Varbind>, v: Varbind)
    requires SortedBySize(sorted)
    ensures SortedBySize(InsertBySize(sorted, v))
    ensures forall w :: w in InsertBySize(sorted, v) <==> w in sorted || w == v
  {
    hide SortedBySize;
    if sorted == [] {
      SortedSnoc(sorted, v);
    } else {
      var front, last := sorted[..|sorted| - 1], sorted[|sorted| - 1];
      SortedLast(sorted, v);
      if |last| <= |v| {
        SortedSnoc(sorted, v);
      } else {
        InsertBySizeSorts(front, v);
        assert forall w :: w in sorted <==> w in front || w == last;
        SortedSnoc(InsertBySize(front, v), last);
      }
    }
  }

  lemma {:induction false} SortBySizeSorts(listed: seq<Varbind>)
    ensures SortedBySize(SortBySize(listed))
    ensures forall w :: w in SortBySize(listed) <==> w in listed
  {
    if listed != [] {
      var n := |listed| - 1;
      SortBySizeSorts(listed[..n]);
      InsertBySizeSorts(SortBySize(listed[..n]), listed[n]);
      assert listed == listed[..n] + [listed[n]];
    }
  }

  // The minimal keys depend on what is asked for, not on its order or repetition.
  lemma MinimalKeysOfSet(a: seq<Varbind>, b: seq<Varbind>, instances: bool)
    requires AllWellFormed(a) && forall v :: v in a <==> v in b
    ensures AllWellFormed(b) && MinimalKeys(a, instances) == MinimalKeys(b, instances)
  {
    assert KeysOf(a) == KeysOf(b);
  }

  // Each key of a container with the name of the profile that asked for it.
  function ProfileMapping(entries: Entries, name: string): Mapping {
    map k | k in entries :: name
  }

  // What a profile amounts to for polling.
  datatype Plan = Plan(bulk: Entries, get: Entries, bulkMapping: Mapping, getMapping: Mapping)

  ghost predicate KeyedPlan(p: Plan) {
    Keyed(p.bulk) && Keyed(p.get)
  }

  function Combined(a: Plan, b: Plan): (c: Plan)
    requires KeyedPlan(a) && KeyedPlan(b)
    ensures KeyedPlan(c)
  {
    Plan(Sum(a.bulk, b.bulk), Sum(a.get, b.get), Merged(a.bulkMapping, b.bulkMapping),
         Merged(a.getMapping, b.getMapping))
  }

  lemma BulkInsertion(asked: seq<Varbind>, bulk: Entries, get: Entries, v: Varbind)
    requires AllWellFormed(asked + [v]) && AllWellFormed(asked) && (forall w :: w in asked ==> |w| <= |v|)
             && WellFormed(v)
    requires |v| < 3 && Divided(asked, bulk, get)
    ensures Divided(asked + [v], Inserted(bulk, v), get)
  {
    hide General, Key, KeysOf, MinimalKeys, WellFormed;
    OneMoreAsked(asked, v, false);
    OneMoreAsked(asked, v, true);
    BulkShowsGeneral(asked, bulk, v);
  }

  lemma GetInsertion(asked: seq<Varbind>, bulk: Entries, get: Entries, v: Varbind)
    requires AllWellFormed(asked + [v]) && AllWellFormed(asked) && (forall w :: w in asked ==> |w| <= |v|)
             && WellFormed(v)
    requires |v| >= 3 && Divided(asked, bulk, get)
    ensures Divided(asked + [v], bulk, if General(v) !! bulk.Keys then Inserted(get, v) else get)
  {
    hide General, Key, KeysOf, MinimalKeys, WellFormed;
    OneMoreAsked(asked, v, false);
    OneMoreAsked(asked, v, true);
    BulkShowsGeneral(asked, bulk, v);
    NothingAboveInGet(get, v);
  }

  lemma NothingAboveInGet(get: Entries, v: Varbind)
    requires Keyed(get) && WellFormed(v) && forall k :: k in get ==> |get[k]| >= 3
    ensures General(v) !! get.Keys
  {
    forall g | g in General(v) && g in get
      ensures false
    {
      GeneralIsSmaller(v, get[g]);
    }
  }

  lemma ParentsOfKey(entries: Entries, v: Varbind)
    requires WellFormed(v) && |v| >= 3
    ensures Parents(entries, Key(v)) == Some(!(General(v) !! entries.Keys))
  {
    SplitOfKey(v);
    FieldOfKey(v);
    assert Key(v[..2]) == v[0] + "::" + v[1];
    assert General(v) == {v[0], v[0] + "::" + v[1]};
  }

  lemma AskedByOne(sorted: seq<Varbind>, i: nat, isWalk: bool)
    requires AllWellFormed(sorted) && SortedBySize(sorted) && i < |sorted|
    ensures WellFormed(sorted[i])
    ensures Asked(sorted[..i + 1], isWalk) == Asked(sorted[..i], isWalk) + [sorted[i]]
    ensures AllWellFormed(Asked(sorted[..i], isWalk)) && AllWellFormed(Asked(sorted[..i + 1], isWalk))
    ensures forall w :: w in Asked(sorted[..i], isWalk) ==> |w| <= |sorted[i]|
  {
    assert sorted[..i + 1] == sorted[..i] + [sorted[i]];
    assert WellFormed(sorted[i]) && WellFormed(SYSTEM_FAMILY);
  }

  lemma NothingDivided(isWalk: bool)
    ensures AllWellFormed(Asked([], isWalk))
    ensures Divided(Asked([], isWalk), if isWalk then map["SNMPv2-MIB" := SYSTEM_FAMILY] else map[], map[])
  {
    var asked := Asked([], isWalk);
    if isWalk {
      assert asked == [SYSTEM_FAMILY] && General(SYSTEM_FAMILY) == {};
      assert SYSTEM_FAMILY in asked;
    }
  }

  class Profile {
    const name: string
    const isWalk: bool
    const varbinds: seq<Varbind>
    var varbindsBulk: VarBindContainer
    var varbindsGet: VarBindContainer
    var bulkMapping: Mapping
    var getMapping: Mapping

    function Value(): Plan
      reads this, varbindsBulk, varbindsGet
    {
      Plan(varbindsBulk.entries, varbindsGet.entries, bulkMapping, getMapping)
    }

    constructor (name: string, isWalk: bool, varbinds: seq<Varbind>)
      ensures this.name == name && this.isWalk == isWalk && this.varbinds == varbinds
      ensures varbindsBulk != varbindsGet && fresh(varbindsBulk) && fresh(varbindsGet)
      ensures varbindsBulk.entries == map[] && varbindsGet.entries == map[]
      ensures bulkMapping == map[] && getMapping == map[]
    {
      this.name, this.isWalk, this.varbinds := name, isWalk, varbinds;
      varbindsBulk := new VarBindContainer();
      varbindsGet := new VarBindContainer();
      bulkMapping, getMapping := map[], map[];
    }

    // Fails when some varbind has no key or its key cannot be split; then only
    // the containers may have been touched.
    method Process() returns (ok: bool)
      requires varbindsBulk != varbindsGet
      modifies this, varbindsBulk, varbindsGet
      ensures varbindsBulk == old(varbindsBulk) && varbindsGet == old(varbindsGet)
      ensures var halves := DivideAll(StartOf(old(varbindsBulk.entries), old(varbindsGet.entries), isWalk),
                                      SortBySize(varbinds));
              && ok == halves.Some?
              && (ok ==> halves.value == Halves(varbindsBulk.entries, varbindsGet.entries))
      ensures !ok ==> bulkMapping == old(bulkMapping) && getMapping == old(getMapping)
      ensures ok ==> bulkMapping == if isWalk then old(bulkMapping) else ProfileMapping(varbindsBulk.entries, name)
      ensures ok ==> getMapping == if isWalk then old(getMapping) else ProfileMapping(varbindsGet.entries, name)
    {
      hide DivideAll, SortBySize, ProfileMapping, Inserted;
      if isWalk {
        varbindsBulk.InsertVarbind(SYSTEM_FAMILY);
      }
      ok := DivideOnBulkAndGet();
      if ok && !isWalk {
        bulkMapping := ProfileMapping(varbindsBulk.entries, name);
        getMapping := ProfileMapping(varbindsGet.entries, name);
      }
    }

    method DivideOnBulkAndGet() returns (ok: bool)
      requires varbindsBulk != varbindsGet
      modifies varbindsBulk, varbindsGet
      ensures var halves := DivideAll(Halves(old(varbindsBulk.entries), old(varbindsGet.entries)),
                                      SortBySize(varbinds));
              && ok == halves.Some?
              && (ok ==> halves.value == Halves(varbindsBulk.entries, varbindsGet.entries))
    {
      hide Key, Inserted, Parents, SortBySize;
      var sorted := SortBySize(varbinds);
      ghost var start := Halves(varbindsBulk.entries, varbindsGet.entries);
      for i := 0 to |sorted|
        invariant DivideAll(start, sorted[..i]) == Some(Halves(varbindsBulk.entries, varbindsGet.entries))
      {
        var v := sorted[i];
        assert sorted[..i + 1] == sorted[..i] + [v];
        DivideOneMore(start, sorted[..i], v);
        if |v| == 0 {
          DivideFails(start, sorted, i);
          return false;
        }
        if |v| < 3 {
          varbindsBulk.InsertVarbind(v);
        } else {
          var found := varbindsBulk.AreParentsInMap(Key(v));
          if found.None? {
            DivideFails(start, sorted, i);
            return false;
          }
          if !found.value {
            varbindsGet.InsertVarbind(v);
          }
        }
      }
      assert sorted[..|sorted|] == sorted;
      ok := true;
    }

    // A new profile with both operands' containers added up and their mappings
    // merged. It carries both names and is no walk.
    method Add(other: Profile) returns (sum: Profile)
      requires KeyedPlan(Value()) && KeyedPlan(other.Value())
      ensures fresh(sum) && fresh(sum.varbindsBulk) && fresh(sum.varbindsGet)
      ensures sum.Value() == Combined(Value(), other.Value())
      ensures sum.name == name + ":" + other.name && !sum.isWalk && sum.varbinds == []
    {
      sum := new Profile(name + ":" + other.name, false, []);
      sum.varbindsBulk := varbindsBulk.Add(other.varbindsBulk);
      sum.varbindsGet := varbindsGet.Add(other.varbindsGet);
      sum.bulkMapping := AddMappings(bulkMapping, other.bulkMapping);
      sum.getMapping := AddMappings(getMapping, other.getMapping);
    }
  }

  // ---- Processing any varbinds at all ----

  datatype Halves = Halves(bulk: Entries, get: Entries)

  function StartOf(bulk: Entries, get: Entries, isWalk: bool): Halves {
    Halves(if isWalk then Inserted(bulk, SYSTEM_FAMILY) else bulk, get)
  }

  // One varbind. None stands for an error: an empty varbind has no key, and the
  // key of an instance must split in two.
  function DivideOne(h: Halves, v: Varbind): Option<Halves> {
    if |v| == 0 then None
    else if |v| < 3 then Some(h.(bulk := Inserted(h.bulk, v)))
    else
      match Parents(h.bulk, Key(v))
      case None => None
      case Some(true) => Some(h)
      case Some(false) => Some(h.(get := Inserted(h.get, v)))
  }

  function DivideAll(h: Halves, vs: seq<Varbind>): Option<Halves> {
    if vs == [] then Some(h)
    else
      var before := DivideAll(h, vs[..|vs| - 1]);
      if before.None? then None else DivideOne(before.value, vs[|vs| - 1])
  }

  lemma DivideOneMore(h: Halves, vs: seq<Varbind>, v: Varbind)
    ensures DivideAll(h, vs + [v]) ==
            if DivideAll(h, vs).None? then None else DivideOne(DivideAll(h, vs).value, v)
  {
    hide DivideOne;
    assert (vs + [v])[..|vs|] == vs;
  }

  lemma {:induction false} DivideFails(h: Halves, vs: seq<Varbind>, i: nat)
    requires i < |vs| && DivideAll(h, vs[..i + 1]).None?
    ensures DivideAll(h, vs).None?
    decreases |vs|
  {
    hide DivideOne;
    var n := |vs| - 1;
    if i < n {
      assert vs[..n][..i + 1] == vs[..i + 1];
      DivideFails(h, vs[..n], i);
    } else {
      assert vs[..i + 1] == vs;
    }
  }

  predicate Divisible(v: Varbind) {
    |v| >= 1 && (|v| >= 3 ==> |SplitDouble(Key(v))| == 2)
  }

  // Processing fails exactly when some varbind is empty or is an instance whose
  // key does not split in two.
  lemma {:induction false} DividesExactly(h: Halves, vs: seq<Varbind>)
    ensures DivideAll(h, vs).Some? <==> forall v :: v in vs ==> Divisible(v)
  {
    hide Key, SplitDouble, Inserted;
    if vs != [] {
      var init, last := vs[..|vs| - 1], vs[|vs| - 1];
      DividesExactly(h, init);
      assert vs == init + [last];
      forall g: Halves
        ensures DivideOne(g, last).Some? <==> Divisible(last)
      {
      }
    }
  }

  // With names that keep the separators apart, processing succeeds and leaves
  // the minimal keys of what is asked for: families and fields in bulk,
  // instances in get.
  lemma ProcessedDivides(listed: seq<Varbind>, isWalk: bool)
    requires AllWellFormed(listed)
    ensures AllWellFormed(Asked(listed, isWalk))
    ensures var halves := DivideAll(StartOf(map[], map[], isWalk), SortBySize(listed));
            halves.Some? && Divided(Asked(listed, isWalk), halves.value.bulk, halves.value.get)
  {
    hide *;
    var sorted := SortBySize(listed);
    SortBySizeSorts(listed);
    SortedAsks(listed, sorted, isWalk);
    SortedDivides(sorted, isWalk, |sorted|);
    var halves := DivideAll(StartOf(map[], map[], isWalk), sorted);
    DividedSorted(listed, sorted, isWalk, halves.value.bulk, halves.value.get);
  }

  lemma {:induction false} SortedDivides(sorted: seq<Varbind>, isWalk: bool, n: nat)
    requires AllWellFormed(sorted) && SortedBySize(sorted) && n <= |sorted|
    ensures AllWellFormed(Asked(sorted[..n], isWalk))
    ensures var halves := DivideAll(StartOf(map[], map[], isWalk), sorted[..n]);
            halves.Some? && Divided(Asked(sorted[..n], isWalk), halves.value.bulk, halves.value.get)
  {
    hide *;
    var start := StartOf(map[], map[], isWalk);
    if n == 0 {
      assert sorted[..0] == [];
      NothingDivided(isWalk);
      StartIs(isWalk);
    } else {
      SortedDivides(sorted, isWalk, n - 1);
      AskedByOne(sorted, n - 1, isWalk);
      var before := DivideAll(start, sorted[..n - 1]).value;
      assert sorted[..n] == sorted[..n - 1] + [sorted[n - 1]];
      DivideOneMore(start, sorted[..n - 1], sorted[n - 1]);
      DivideStep(Asked(sorted[..n - 1], isWalk), before, sorted[n - 1]);
    }
  }

  lemma StartIs(isWalk: bool)
    ensures StartOf(map[], map[], isWalk) == Halves(if isWalk then map["SNMPv2-MIB" := SYSTEM_FAMILY] else map[], map[])
    ensures DivideAll(StartOf(map[], map[], isWalk), []) == Some(StartOf(map[], map[], isWalk))
  {
  }

  lemma DivideStep(asked: seq<Varbind>, h: Halves, v: Varbind)
    requires AllWellFormed(asked + [v]) && AllWellFormed(asked) && (forall w :: w in asked ==> |w| <= |v|)
             && WellFormed(v)
    requires Divided(asked, h.bulk, h.get)
    ensures var after := DivideOne(h, v);
            after.Some? && Divided(asked + [v], after.value.bulk, after.value.get)
  {
    hide General, Key, KeysOf, MinimalKeys, WellFormed, Divided, Parents, Inserted, AllWellFormed;
    AtLeastOne(v);
    if |v| < 3 {
      BulkInsertion(asked, h.bulk, h.get, v);
    } else {
      GetInsertion(asked, h.bulk, h.get, v);
      ParentsOfKey(h.bulk, v);
    }
  }

  lemma DividedSorted(listed: seq<Varbind>, sorted: seq<Varbind>, isWalk: bool, bulk: Entries, get: Entries)
    requires AllWellFormed(Asked(listed, isWalk)) && AllWellFormed(Asked(sorted, isWalk))
    requires forall instances ::
               MinimalKeys(Asked(listed, isWalk), instances) == MinimalKeys(Asked(sorted, isWalk), instances)
    requires Divided(Asked(sorted, isWalk), bulk, get)
    ensures Divided(Asked(listed, isWalk), bulk, get)
  {
  }

  lemma SortedAsks(listed: seq<Varbind>, sorted: seq<Varbind>, isWalk: bool)
    requires AllWellFormed(listed) && forall v :: v in listed <==> v in sorted
    ensures AllWellFormed(sorted) && sorted[..|sorted|] == sorted
    ensures AllWellFormed(Asked(listed, isWalk)) && AllWellFormed(Asked(sorted, isWalk))
    ensures forall instances ::
               MinimalKeys(Asked(listed, isWalk), instances) == MinimalKeys(Asked(sorted, isWalk), instances)
  {
    assert WellFormed(SYSTEM_FAMILY);
    MinimalKeysOfSet(Asked(listed, isWalk), Asked(sorted, isWalk), false);
    MinimalKeysOfSet(Asked(listed, isWalk), Asked(sorted, isWalk), true);
  }

  // Nothing asked for is lost and nothing is added: what bulk and get cover
  // together is what the listed varbinds cover.
  lemma DividedCovers(asked: seq<Varbind>, bulk: Entries, get: Entries, o: Varbind)
    requires AllWellFormed(asked) && Divided(asked, bulk, get) && WellFormed(o)
    ensures Covers(bulk.Keys + get.Keys, o) <==> Covers(KeysOf(asked), o)
  {
    if Covers(KeysOf(asked), o) {
      var v: Varbind :| v in asked && (Key(v) == Key(o) || Key(v) in General(o));
      AskedIsCovered(asked, bulk, get, v);
      AboveCovered(bulk.Keys + get.Keys, v, o);
    }
  }

  lemma AskedIsCovered(asked: seq<Varbind>, bulk: Entries, get: Entries, v: Varbind)
    requires AllWellFormed(asked) && Divided(asked, bulk, get) && v in asked
    ensures WellFormed(v) && Covers(bulk.Keys + get.Keys, v)
  {
    BulkShowsGeneral(asked, bulk, v);
    if General(v) !! KeysOf(asked) {
      assert Key(v) in MinimalKeys(asked, |v| >= 3);
    }
  }

  // Covering a varbind covers everything below it.
  lemma AboveCovered(keys: set<string>, v: Varbind, o: Varbind)
    requires WellFormed(v) && WellFormed(o) && (Key(v) == Key(o) || Key(v) in General(o)) && Covers(keys, v)
    ensures Covers(keys, o)
  {
    if Key(v) == Key(o) {
      KeyDetermines(v, o);
    } else if Key(v) !in keys {
      var h :| h in General(v) * keys;
      GeneralOfGeneral(o, v, h);
      assert h in General(o) * keys;
    }
  }

  // No key of the profile is covered by another of its keys, bulk or get.
  lemma DividedIsAntichain(asked: seq<Varbind>, bulk: Entries, get: Entries, k: string)
    requires AllWellFormed(asked) && Divided(asked, bulk, get) && (k in bulk || k in get)
    ensures General(if k in bulk then bulk[k] else get[k]) !! bulk.Keys + get.Keys
  {
    hide General, Key;
    var e := if k in bulk then bulk[k] else get[k];
    var v :| v in asked && WellFormed(v) && General(v) !! KeysOf(asked) && Key(v) == k;
    KeyDetermines(e, v);
  }

  // The order in which a profile lists its varbinds does not matter.
  lemma OrderDoesNotMatter(a: seq<Varbind>, b: seq<Varbind>, isWalk: bool, bulkA: Entries, getA: Entries,
                           bulkB: Entries, getB: Entries)
    requires AllWellFormed(a) && AllWellFormed(b) && forall v :: v in a <==> v in b
    requires AllWellFormed(Asked(a, isWalk)) && AllWellFormed(Asked(b, isWalk))
    requires Divided(Asked(a, isWalk), bulkA, getA) && Divided(Asked(b, isWalk), bulkB, getB)
    ensures bulkA.Keys == bulkB.Keys && getA.Keys == getB.Keys
  {
    MinimalKeysOfSet(Asked(a, isWalk), Asked(b, isWalk), false);
    MinimalKeysOfSet(Asked(a, isWalk), Asked(b, isWalk), true);
  }

  // Adding profiles keeps the union of what they cover.
  lemma CombinedCovers(a: Plan, b: Plan, o: Varbind)
    requires KeyedPlan(a) && KeyedPlan(b) && WellFormed(o)
    ensures Covers(Combined(a, b).bulk.Keys + Combined(a, b).get.Keys, o)
            <==> Covers(a.bulk.Keys + a.get.Keys, o) || Covers(b.bulk.Keys + b.get.Keys, o)
  {
    SumCovers(a.bulk, b.bulk, o);
    SumCovers(a.get, b.get, o);
    CoversUnion(a.bulk.Keys, a.get.Keys, o);
    CoversUnion(b.bulk.Keys, b.get.Keys, o);
    CoversUnion(Combined(a, b).bulk.Keys, Combined(a, b).get.Keys, o);
  }

  lemma CoversUnion(x: set<string>, y: set<string>, o: Varbind)
    requires |o| >= 1
    ensures Covers(x + y, o) <==> Covers(x, o) || Covers(y, o)
  {
  }

  // Every GET entry is an instance, and nothing in the bulk part stands above it.
  ghost predicate Unshadowed(bulk: Entries, get: Entries) {
    && Keyed(bulk) && Keyed(get)
    && (forall k :: k in get ==> |get[k]| >= 3)
    && (forall k :: !Shadowed(bulk, get, k))
  }

  ghost predicate Shadowed(bulk: Entries, get: Entries, k: string)
    requires Keyed(get)
  {
    k in get && !(General(get[k]) !! bulk.Keys)
  }

  lemma InstancesStay(a: Entries, b: Entries, k: string)
    requires Keyed(a) && Keyed(b) && (forall j :: j in a ==> |a[j]| >= 3) && (forall j :: j in b ==> |b[j]| >= 3)
    ensures k in Sum(a, b) <==> k in a || k in b
    ensures k in Sum(a, b) ==> Sum(a, b)[k] == if k in b then b[k] else a[k]
  {
    if k in a || k in b {
      var u := Union(a, b);
      NothingAboveInGet(u, u[k]);
    }
  }

  lemma ShadowOfSum(a: Entries, b: Entries, v: Varbind)
    requires Keyed(a) && Keyed(b) && WellFormed(v)
    ensures General(v) !! Sum(a, b).Keys <==> General(v) !! a.Keys && General(v) !! b.Keys
  {
    SomethingMinimalAbove(Union(a, b), v);
    assert Union(a, b).Keys == a.Keys + b.Keys;
  }

  lemma ShadowedInSum(a: Plan, b: Plan, k: string)
    requires Unshadowed(a.bulk, a.get) && Unshadowed(b.bulk, b.get)
    ensures Shadowed(Combined(a, b).bulk, Combined(a, b).get, k)
            <==> Shadowed(b.bulk, a.get, k) || Shadowed(a.bulk, b.get, k)
  {
    hide General, Key, WellFormed;
    InstancesStay(a.get, b.get, k);
    assert !Shadowed(a.bulk, a.get, k) && !Shadowed(b.bulk, b.get, k);
    if k in b.get {
      ShadowOfSum(a.bulk, b.bulk, b.get[k]);
      if k in a.get {
        KeyDetermines(a.get[k], b.get[k]);
      }
    } else if k in a.get {
      ShadowOfSum(a.bulk, b.bulk, a.get[k]);
    }
  }

  lemma SumHasInstances(a: Plan, b: Plan)
    requires Unshadowed(a.bulk, a.get) && Unshadowed(b.bulk, b.get)
    ensures KeyedPlan(Combined(a, b)) && forall k :: k in Combined(a, b).get ==> |Combined(a, b).get[k]| >= 3
  {
    forall k | k in Combined(a, b).get
      ensures |Combined(a, b).get[k]| >= 3
    {
      InstancesStay(a.get, b.get, k);
    }
  }

  // The sum of two profiles does not check its GET entries against its bulk
  // entries again. It is free of shadowed GET entries exactly when neither
  // operand's bulk part stands above a GET entry of the other.
  lemma SumUnshadowedExactly(a: Plan, b: Plan)
    requires Unshadowed(a.bulk, a.get) && Unshadowed(b.bulk, b.get)
    ensures Unshadowed(Combined(a, b).bulk, Combined(a, b).get)
            <==> Unshadowed(b.bulk, a.get) && Unshadowed(a.bulk, b.get)
  {
    hide Combined, Shadowed, Keyed;
    SumHasInstances(a, b);
    forall k
      ensures Shadowed(Combined(a, b).bulk, Combined(a, b).get, k)
              <==> Shadowed(b.bulk, a.get, k) || Shadowed(a.bulk, b.get, k)
    {
      ShadowedInSum(a, b, k);
    }
  }

  const FIELD: Varbind := ["IF-MIB", "ifDescr"]
  const INSTANCE: Varbind := ["IF-MIB", "ifDescr", "1"]

  lemma InstanceBelowField()
    ensures WellFormed(FIELD) && WellFormed(INSTANCE) && Key(FIELD) in General(INSTANCE)
  {
    assert INSTANCE[..2] == FIELD && INSTANCE[2..] == ["1"];
    assert Join(["1"], '.') == "1";
  }

  // And it does happen: a field in one profile above an instance in the other.
  lemma SumCanShadow() returns (a: Plan, b: Plan)
    ensures AllWellFormed([FIELD]) && Divided([FIELD], a.bulk, a.get)
    ensures AllWellFormed([INSTANCE]) && Divided([INSTANCE], b.bulk, b.get)
    ensures Unshadowed(a.bulk, a.get) && Unshadowed(b.bulk, b.get)
    ensures !Unshadowed(Combined(a, b).bulk, Combined(a, b).get)
  {
    hide General, Key, WellFormed, Combined;
    InstanceBelowField();
    a := Plan(map[Key(FIELD) := FIELD], map[], map[], map[]);
    b := Plan(map[], map[Key(INSTANCE) := INSTANCE], map[], map[]);
    assert Shadowed(a.bulk, b.get, Key(INSTANCE));
    SumUnshadowedExactly(a, b);
    DividedAlone(FIELD);
    DividedAlone(INSTANCE);
  }

  lemma DividedAlone(v: Varbind)
    requires WellFormed(v)
    ensures AllWellFormed([v])
    ensures |v| < 3 ==> Divided([v], map[Key(v) := v], map[])
    ensures |v| >= 3 ==> Divided([v], map[], map[Key(v) := v])
  {
    hide Key, WellFormed;
    AtLeastOne(v);
    OwnKeyNotAbove(v);
    assert v in [v] && KeysOf([v]) == {Key(v)};
  }

  lemma OwnKeyNotAbove(v: Varbind)
    requires WellFormed(v)
    ensures Key(v) !in General(v)
  {
    hide *;
    AtLeastOne(v);
    if Key(v) in General(v) {
      GeneralIsShorter(v, Key(v));
    }
  }
}
