/** What becomes of one trap, as a function of what the worker remembers: which
    modules are asked for, what is resolved when, and what the passes file. */
module TrapTranslations {
  import opened Wrappers
  import opened MibIndex
  import opened Traps

  // The modules ever asked for, and those loaded.
  datatype Memory = Memory(attempted: set<string>, loaded: set<string>)

  datatype Translation = Translation(memory: Memory, table: seq<Bound>, unresolved: seq<Pair>)

  function Asked(mibs: Mibs, m: Memory, names: set<string>): Memory {
    Memory(m.attempted + names, m.loaded + (names - m.attempted) * mibs.loadable)
  }

  predicate Loads(mibs: Mibs, m: Memory, names: set<string>) {
    (names - m.attempted) * mibs.loadable != {}
  }

  // Only private-enterprise OIDs are looked up before resolving.
  function ModuleOfOid(mibs: Mibs, isOid: string -> bool, s: string): set<string> {
    if isOid(s) && ENTERPRISES <= s && KnownMib(mibs.index, s).Some? then {KnownMib(mibs.index, s).value} else {}
  }

  function Preloads(mibs: Mibs, isOid: string -> bool, work: seq<Pair>): set<string> {
    if work == [] then {}
    else
      var last := work[|work| - 1];
      Preloads(mibs, isOid, work[..|work| - 1])
      + ModuleOfOid(mibs, isOid, last.name) + ModuleOfOid(mibs, isOid, last.value)
  }

  // Bindings that failed, by whether their module is known.
  function Retriable(mibs: Mibs, pairs: seq<Pair>): seq<Pair> {
    if pairs == [] then []
    else
      var last := pairs[|pairs| - 1];
      Retriable(mibs, pairs[..|pairs| - 1]) + if KnownMib(mibs.index, last.name).Some? then [last] else []
  }

  function Hopeless(mibs: Mibs, pairs: seq<Pair>): seq<Pair> {
    if pairs == [] then []
    else
      var last := pairs[|pairs| - 1];
      Hopeless(mibs, pairs[..|pairs| - 1]) + if KnownMib(mibs.index, last.name).Some? then [] else [last]
  }

  function ModulesOf(mibs: Mibs, pairs: seq<Pair>): set<string> {
    if pairs == [] then {}
    else
            var mib := KnownMib(mibs.index, pairs[|pairs| - 1].name);
      ModulesOf(mibs, pairs[..|pairs| - 1]) + if mib.Some? then {mib.value} else {}
  }

  function Resolved(mibs: Mibs, m: Memory, work: seq<Pair>): Translation {
    Translation(m, Table(mibs, m.loaded, work), Failed(mibs, m.loaded, work))
  }

  // A module that could be loaded for a failed binding has the whole trap
  // resolved again; otherwise only the retriable bindings are.
  function Retried(mibs: Mibs, m: Memory, work: seq<Pair>, failed: seq<Pair>, table: seq<Bound>): Translation {
    var names := ModulesOf(mibs, failed);
    var m' := Asked(mibs, m, names);
    if Loads(mibs, m, names) then Resolved(mibs, m', work)
    else
      var again := Resolved(mibs, m', Retriable(mibs, failed));
      Translation(m', table + again.table, Hopeless(mibs, failed) + again.unresolved)
  }

  predicate HasPlaceholder(mibs: Mibs, table: seq<Bound>) {
    exists i :: 0 <= i < |table| && mibs.placeholder(table[i])
  }

  function Settled(mibs: Mibs, tr: Translation, work: seq<Pair>): Translation {
    if HasPlaceholder(mibs, tr.table) then Resolved(mibs, tr.memory, work) else tr
  }

  // All the phases before the passes.
  function Translated(mibs: Mibs, isOid: string -> bool, m: Memory, work: seq<Pair>): Translation {
    var names := Preloads(mibs, isOid, work);
    var first := Resolved(mibs, Asked(mibs, m, names), work);
    var tr :=
      if Loads(mibs, m, names) || first.unresolved == [] then first
      else Retried(mibs, first.memory, work, first.unresolved, first.table);
    Settled(mibs, tr, work)
  }

  // ---- At every hand-off the trap's OIDs are divided, none lost ----

  lemma {:induction false} RetriableOrHopeless(mibs: Mibs, pairs: seq<Pair>)
    ensures multiset(Names(pairs)) == multiset(Names(Hopeless(mibs, pairs))) + multiset(Names(Retriable(mibs, pairs)))
    ensures forall pair :: pair in Hopeless(mibs, pairs) || pair in Retriable(mibs, pairs) ==> pair in pairs
  {
    hide Names, KnownMib;
    if pairs == [] {
    } else {
      var n := |pairs| - 1;
      var init, last := pairs[..n], pairs[n];
      RetriableOrHopeless(mibs, init);
      assert pairs == init + [last];
      NamesConcat(init, [last]);
      if KnownMib(mibs.index, last.name).Some? {
        NamesConcat(Retriable(mibs, init), [last]);
        assert Hopeless(mibs, init) + [] == Hopeless(mibs, init);
      } else {
        NamesConcat(Hopeless(mibs, init), [last]);
        assert Retriable(mibs, init) + [] == Retriable(mibs, init);
      }
    }
  }

  lemma RetriedPartitions(mibs: Mibs, m: Memory, work: seq<Pair>, failed: seq<Pair>, table: seq<Bound>)
    requires Preserving(mibs) && Partition(work, table, failed)
    ensures var tr := Retried(mibs, m, work, failed, table); Partition(work, tr.table, tr.unresolved)
  {
    hide Names, Oids, Preserving, Table, Failed, Hopeless, Retriable, ModulesOf;
    var m' := Asked(mibs, m, ModulesOf(mibs, failed));
    ResolvingPartitions(mibs, m'.loaded, work);
    ResolvingPartitions(mibs, m'.loaded, Retriable(mibs, failed));
    RetriableOrHopeless(mibs, failed);
    var again := Resolved(mibs, m', Retriable(mibs, failed));
    RetryPartitions(work, table, Retriable(mibs, failed), Hopeless(mibs, failed), again.table, again.unresolved);
  }

  // Whatever is loaded on the way, the bindings of the trap are in the end
  // divided into translated and untranslated ones.
  lemma TranslatedPartitions(mibs: Mibs, isOid: string -> bool, m: Memory, work: seq<Pair>)
    requires Preserving(mibs)
    ensures var tr := Translated(mibs, isOid, m, work); Partition(work, tr.table, tr.unresolved)
  {
    hide Partition, Preserving, Retried, Preloads, Table, Failed, HasPlaceholder, Asked, Loads;
    var first := Resolved(mibs, Asked(mibs, m, Preloads(mibs, isOid, work)), work);
    ResolvingPartitions(mibs, first.memory.loaded, work);
    RetriedPartitions(mibs, first.memory, work, first.unresolved, first.table);
    var retried := Retried(mibs, first.memory, work, first.unresolved, first.table);
    ResolvingPartitions(mibs, retried.memory.loaded, work);
  }

  // ---- Nothing that can be translated is left, and what is tried ----

  lemma {:induction false} TableMembers(mibs: Mibs, loaded: set<string>, pairs: seq<Pair>)
    ensures forall b :: b in Table(mibs, loaded, pairs) <==>
              exists pair :: pair in pairs && mibs.resolve(loaded, pair) == Some(b)
    ensures forall pair :: pair in Failed(mibs, loaded, pairs) <==> pair in pairs && mibs.resolve(loaded, pair).None?
  {
    if pairs != [] {
      var init, last := pairs[..|pairs| - 1], pairs[|pairs| - 1];
      TableMembers(mibs, loaded, init);
      assert pairs == init + [last];
      assert forall pair :: pair in pairs <==> pair in init || pair == last;
    }
  }

  lemma {:induction false} RetriableMembers(mibs: Mibs, pairs: seq<Pair>)
    ensures forall pair :: pair in Retriable(mibs, pairs) <==> pair in pairs && KnownMib(mibs.index, pair.name).Some?
    ensures forall pair :: pair in Hopeless(mibs, pairs) <==> pair in pairs && KnownMib(mibs.index, pair.name).None?
    ensures forall mib :: mib in ModulesOf(mibs, pairs) <==>
              exists pair :: pair in pairs && KnownMib(mibs.index, pair.name) == Some(mib)
  {
    hide KnownMib;
    if pairs != [] {
      var init, last := pairs[..|pairs| - 1], pairs[|pairs| - 1];
      RetriableMembers(mibs, init);
      assert pairs == init + [last];
      assert forall pair :: pair in pairs <==> pair in init || pair == last;
    }
  }

  // A translation that leaves exactly the bindings that the modules loaded so
  // far cannot resolve.
  ghost predicate TranslatesAll(mibs: Mibs, work: seq<Pair>, tr: Translation) {
    && (forall pair :: pair in tr.unresolved <==> pair in work && mibs.resolve(tr.memory.loaded, pair).None?)
    && (forall b :: b in tr.table <==> exists pair :: pair in work && mibs.resolve(tr.memory.loaded, pair) == Some(b))
  }

  lemma ResolvedAll(mibs: Mibs, m: Memory, work: seq<Pair>)
    ensures TranslatesAll(mibs, work, Resolved(mibs, m, work))
  {
    hide Table, Failed;
    TableMembers(mibs, m.loaded, work);
  }

  lemma RetriedAll(mibs: Mibs, m: Memory, work: seq<Pair>, first: Translation)
    requires TranslatesAll(mibs, work, first) && first.memory == m
    ensures TranslatesAll(mibs, work, Retried(mibs, m, work, first.unresolved, first.table))
  {
    hide Table, Failed, KnownMib, Retriable, Hopeless, ModulesOf;
    var names := ModulesOf(mibs, first.unresolved);
    var m' := Asked(mibs, m, names);
    if Loads(mibs, m, names) {
      ResolvedAll(mibs, m', work);
    } else {
      assert m'.loaded == m.loaded;
      RetriableMembers(mibs, first.unresolved);
      TableMembers(mibs, m.loaded, Retriable(mibs, first.unresolved));
    }
  }

  // However the phases go, in the end exactly those bindings are untranslated
  // that the modules then loaded cannot resolve, and with a placeholder left the
  // table is the whole trap resolved anew, in its order.
  lemma NothingResolvableIsLeft(mibs: Mibs, isOid: string -> bool, m: Memory, work: seq<Pair>)
    ensures var tr := Translated(mibs, isOid, m, work);
            && TranslatesAll(mibs, work, tr)
            && ((exists b :: b in tr.table && mibs.placeholder(b)) ==>
                  && tr.table == Table(mibs, tr.memory.loaded, work)
                  && tr.unresolved == Failed(mibs, tr.memory.loaded, work))
  {
    hide Table, Failed, Retried, Asked, Loads, Preloads, TranslatesAll;
    var first := Resolved(mibs, Asked(mibs, m, Preloads(mibs, isOid, work)), work);
    ResolvedAll(mibs, first.memory, work);
    RetriedAll(mibs, first.memory, work, first);
    ResolvedAll(mibs, Retried(mibs, first.memory, work, first.unresolved, first.table).memory, work);
  }

  // A module is preloaded for an enterprise OID in a name or a value.
  ghost predicate NamedEarly(mibs: Mibs, isOid: string -> bool, work: seq<Pair>, mib: string) {
    exists pair, s :: pair in work && (s == pair.name || s == pair.value) && NamesModule(mibs, isOid, s, mib)
  }

  predicate NamesModule(mibs: Mibs, isOid: string -> bool, s: string, mib: string) {
    isOid(s) && "1.3.6.1.4.1" <= s && KnownMib(mibs.index, s) == Some(mib)
  }

  lemma {:induction false} PreloadsMembers(mibs: Mibs, isOid: string -> bool, work: seq<Pair>)
    ensures forall mib :: mib in Preloads(mibs, isOid, work) <==> NamedEarly(mibs, isOid, work, mib)
  {
    hide KnownMib;
    if work != [] {
      var init, last := work[..|work| - 1], work[|work| - 1];
      PreloadsMembers(mibs, isOid, init);
      assert work == init + [last];
      forall mib
        ensures NamedEarly(mibs, isOid, work, mib) <==>
                NamedEarly(mibs, isOid, init, mib) || NamesModule(mibs, isOid, last.name, mib)
                    || NamesModule(mibs, isOid, last.value, mib)
      {
        EarlyNext(mibs, isOid, init, last, mib);
      }
    }
  }

  lemma EarlyNext(mibs: Mibs, isOid: string -> bool, init: seq<Pair>, last: Pair, mib: string)
    ensures NamedEarly(mibs, isOid, init + [last], mib) <==>
            NamedEarly(mibs, isOid, init, mib) || NamesModule(mibs, isOid, last.name, mib)
                || NamesModule(mibs, isOid, last.value, mib)
  {
    hide NamesModule;
    assert forall pair :: pair in init + [last] <==> pair in init || pair == last;
  }

  // Some preloaded module was new and could be loaded.
  ghost predicate LoadsEarly(mibs: Mibs, isOid: string -> bool, m: Memory, work: seq<Pair>) {
    exists mib :: NamedEarly(mibs, isOid, work, mib) && mib !in m.attempted && mib in mibs.loadable
  }

  ghost predicate NamedLate(mibs: Mibs, m: Memory, work: seq<Pair>, mib: string) {
    exists pair :: pair in work && mibs.resolve(m.loaded, pair).None? && KnownMib(mibs.index, pair.name) == Some(mib)
  }

  // Which modules have been tried after a trap: those preloaded and, unless that
  // loaded any, those of the bindings that do not resolve. Of the new ones those
  // that can be are loaded.
  lemma TriedExactly(mibs: Mibs, isOid: string -> bool, m: Memory, work: seq<Pair>)
    ensures var now := Translated(mibs, isOid, m, work).memory;
            && (forall mib :: mib in now.attempted <==>
                  mib in m.attempted || NamedEarly(mibs, isOid, work, mib)
                  || (!LoadsEarly(mibs, isOid, m, work) && NamedLate(mibs, m, work, mib)))
            && (forall mib :: mib in now.loaded <==>
                  mib in m.loaded || (mib in now.attempted && mib !in m.attempted && mib in mibs.loadable))
  {
    hide Table, KnownMib, Preloads, ModulesOf, Failed, NamedEarly;
    var names := Preloads(mibs, isOid, work);
    var first := Resolved(mibs, Asked(mibs, m, names), work);
    PreloadsMembers(mibs, isOid, work);
    LoadsMembers(mibs, m, names);
    if !Loads(mibs, m, names) {
      assert first.memory.loaded == m.loaded;
      TableMembers(mibs, m.loaded, work);
      RetriableMembers(mibs, first.unresolved);
      assert forall mib :: NamedLate(mibs, m, work, mib) <==> mib in ModulesOf(mibs, first.unresolved);
    }
  }

  lemma LoadsMembers(mibs: Mibs, m: Memory, names: set<string>)
    ensures Loads(mibs, m, names) <==> exists mib :: mib in names && mib !in m.attempted && mib in mibs.loadable
  {
    assert forall mib :: mib in (names - m.attempted) * mibs.loadable <==>
             mib in names && mib !in m.attempted && mib in mibs.loadable;
    if Loads(mibs, m, names) {
      var mib :| mib in (names - m.attempted) * mibs.loadable;
    }
  }

  // ---- The passes ----

  // Where a pass stops.
  function StopOf(mibs: Mibs, table: seq<Bound>): (stop: nat)
    ensures stop <= |table|
    ensures forall i :: 0 <= i < stop ==> !Stops(mibs, table[i])
    ensures stop < |table| ==> Stops(mibs, table[stop])
  {
    if table == [] then 0
    else
      var n := |table| - 1;
      var stop := StopOf(mibs, table[..n]);
      if stop < n then stop else if Stops(mibs, table[n]) then n else n + 1
  }

  // What at most `budget` passes file, and what is remembered then. A pass that
  // stops asks for one module and is followed by another pass only when that
  // module was never tried before and could be loaded.
  function Passed(mibs: Mibs, work: seq<Pair>, m: Memory, table: seq<Bound>, metrics: Metrics,
                  budget: nat): (Memory, Metrics)
    decreases budget
  {
    if budget == 0 then (m, metrics)
    else
      var stop := StopOf(mibs, table);
      var filed := FiledAll(mibs, metrics, table[..stop]);
      if stop == |table| then (m, filed)
      else
        var mib := KnownMib(mibs.index, table[stop].oid).value;
        if mib == "" then (m, filed)
        else
          var m' := Asked(mibs, m, {mib});
          if !Loads(mibs, m, {mib}) then (m', filed)
          else Passed(mibs, work, m', Table(mibs, m'.loaded, work), filed, budget - 1)
  }

  lemma {:induction false} PassesAreSeparate(mibs: Mibs, work: seq<Pair>, m: Memory, table: seq<Bound>,
                                             metrics: Metrics, budget: nat)
    requires Separate(mibs) && UNRESOLVED !in metrics
    ensures UNRESOLVED !in Passed(mibs, work, m, table, metrics, budget).1
    decreases budget
  {
    hide UNRESOLVED, FiledAll, Asked, Loads, Table;
    if budget > 0 {
      var stop := StopOf(mibs, table);
      FilingIsSeparate(mibs, metrics, table[..stop]);
      if stop < |table| {
        var mib := KnownMib(mibs.index, table[stop].oid).value;
        var m' := Asked(mibs, m, {mib});
        PassesAreSeparate(mibs, work, m', Table(mibs, m'.loaded, work), FiledAll(mibs, metrics, table[..stop]),
                          budget - 1);
      }
    }
  }

  // ---- What the passes leave, binding by binding ----

  // The bindings filed by all passes but the last, the table of the last pass
  // and where that pass stopped.
  datatype Filing = Filing(earlier: seq<Bound>, last: seq<Bound>, stop: nat)

  ghost predicate Resolves(mibs: Mibs, work: seq<Pair>, b: Bound) {
    exists loaded, pair :: pair in work && mibs.resolve(loaded, pair) == Some(b)
  }

  lemma {:induction false} TableResolves(mibs: Mibs, loaded: set<string>, work: seq<Pair>, pairs: seq<Pair>, b: Bound)
    requires b in Table(mibs, loaded, pairs) && forall pair :: pair in pairs ==> pair in work
    ensures Resolves(mibs, work, b)
  {
    var n := |pairs| - 1;
    if b in Table(mibs, loaded, pairs[..n]) {
      TableResolves(mibs, loaded, work, pairs[..n], b);
    } else {
      assert mibs.resolve(loaded, pairs[n]) == Some(b);
    }
  }

  // The last pass files its table up to the first placeholder of a known module;
  // its bindings win over those of earlier passes, and all of them translate
  // bindings of the trap. With passes to spare, the last table is what the
  // modules loaded in the end make of the trap.
  ghost predicate LeavesFiled(mibs: Mibs, work: seq<Pair>, table: seq<Bound>, was: set<string>, loaded: set<string>,
                              f: Filing, passes: nat, result: Metrics) {
    && f.stop <= |f.last| && HoldsFiled(mibs, map[], f.earlier + f.last[..f.stop], result)
    && (forall i :: 0 <= i < f.stop ==> !Stops(mibs, f.last[i])) && (f.stop < |f.last| ==> Stops(mibs, f.last[f.stop]))
    && (passes == 1 ==> f.earlier == [] && f.last == table && loaded == was)
    && (1 < passes < 5 ==> f.last == Table(mibs, loaded, work))
    && (forall b :: b in f.earlier || b in f.last ==> b in table || Resolves(mibs, work, b))
  }

  lemma FiledLeaves(mibs: Mibs, work: seq<Pair>, table: seq<Bound>, was: set<string>, loaded: set<string>, f: Filing,
                    passes: nat, result: Metrics)
    requires f.stop <= |f.last| && result == FiledAll(mibs, map[], f.earlier + f.last[..f.stop])
    requires (forall i :: 0 <= i < f.stop ==> !Stops(mibs, f.last[i]))
             && (f.stop < |f.last| ==> Stops(mibs, f.last[f.stop]))
    requires passes == 1 ==> f.earlier == [] && f.last == table && loaded == was
    requires 1 < passes < 5 ==> f.last == Table(mibs, loaded, work)
    requires forall b :: b in f.earlier || b in f.last ==> b in table || Resolves(mibs, work, b)
    ensures LeavesFiled(mibs, work, table, was, loaded, f, passes, result)
  {
    hide HoldsFiled, FiledAll, Stops, Table, Resolves;
    FilingHolds(mibs, map[], f.earlier + f.last[..f.stop]);
  }

  // So a binding of the last table is stored where it goes, unless a later one
  // goes there too.
  lemma LastTableIsStored(mibs: Mibs, work: seq<Pair>, table: seq<Bound>, was: set<string>, loaded: set<string>,
                          f: Filing, passes: nat, result: Metrics, i: nat, group: string, place: Place)
    requires LeavesFiled(mibs, work, table, was, loaded, f, passes, result) && place != Nowhere
    requires LastTo(mibs, f.last[..f.stop], i, group, place)
    ensures ItemAt(result, group, place) == Some(Item(f.last[i].oid, f.last[i].value))
  {
    hide GoesTo, ItemAt, Stops, Resolves;
    var all := f.earlier + f.last[..f.stop];
    assert forall j :: 0 <= j < f.stop ==> all[|f.earlier| + j] == f.last[j];
    assert forall j :: |f.earlier| + i < j < |all| ==> all[j] == f.last[j - |f.earlier|];
    assert LastTo(mibs, all, |f.earlier| + i, group, place);
  }
}
