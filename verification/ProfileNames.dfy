/** Comma-separated profile names, and the merge of two mappings from a key to
    such names. */
module ProfileNames {
  import opened Wrappers
  import opened Strings

  type Mapping = map<string, string>

  function NonEmpty(names: seq<string>): seq<string> {
    if names == [] then []
    else
      var n := names[|names| - 1];
      NonEmpty(names[..|names| - 1]) + (if n == "" then [] else [n])
  }

  // Keep the first of equal names.
  function Dedupe(names: seq<string>): seq<string> {
    if names == [] then []
    else
      var front, n := Dedupe(names[..|names| - 1]), names[|names| - 1];
      if n in front then front else front + [n]
  }

  function UniqueProfileNames(value: string): seq<string> {
    Dedupe(NonEmpty(Split(value, ',')))
  }

  // Non-empty, comma-free and pairwise different: what a name list should be.
  ghost predicate Names(names: seq<string>) {
    && (forall n :: n in names ==> n != "" && Free(n, ','))
    && (forall i, j :: 0 <= i < j < |names| ==> names[i] != names[j])
  }

  function Without(names: seq<string>, taken: seq<string>): seq<string> {
    if names == [] then []
    else
      var n := names[|names| - 1];
      Without(names[..|names| - 1], taken) + (if n in taken then [] else [n])
  }

  function Merge(base: seq<string>, incoming: seq<string>): seq<string> {
    base + Without(incoming, base)
  }

  lemma {:induction false} NonEmptyKeeps(names: seq<string>)
    ensures forall n :: n in NonEmpty(names) <==> n in names && n != ""
  {
    if names != [] {
      var front := names[..|names| - 1];
      NonEmptyKeeps(front);
      assert forall n :: n in names <==> n in front || n == names[|names| - 1];
    }
  }

  lemma {:induction false} DedupeKeeps(names: seq<string>)
    ensures forall n :: n in Dedupe(names) <==> n in names
    ensures forall i, j :: 0 <= i < j < |Dedupe(names)| ==> Dedupe(names)[i] != Dedupe(names)[j]
  {
    if names != [] {
      var front := names[..|names| - 1];
      DedupeKeeps(front);
      assert forall n :: n in names <==> n in front || n == names[|names| - 1];
    }
  }

  lemma UniqueNamesAreNames(value: string)
    ensures Names(UniqueProfileNames(value))
  {
    SplitIsFree(value, ',');
    NonEmptyKeeps(Split(value, ','));
    DedupeKeeps(NonEmpty(Split(value, ',')));
  }

  lemma {:induction false} NonEmptyIdentity(names: seq<string>)
    requires forall n :: n in names ==> n != ""
    ensures NonEmpty(names) == names
  {
    if names != [] {
      var front := names[..|names| - 1];
      assert names[|names| - 1] in names;
      forall n | n in front
        ensures n != ""
      {
        assert n in names;
      }
      NonEmptyIdentity(front);
      assert names == names[..|names| - 1] + [names[|names| - 1]];
    }
  }

  lemma {:induction false} DedupeIdentity(names: seq<string>)
    requires forall i, j :: 0 <= i < j < |names| ==> names[i] != names[j]
    ensures Dedupe(names) == names
  {
    if names != [] {
      DedupeIdentity(names[..|names| - 1]);
      assert names == names[..|names| - 1] + [names[|names| - 1]];
    }
  }

  // The round trip: reading a joined name list gives the list back.
  lemma NamesRoundTrip(names: seq<string>)
    requires Names(names)
    ensures UniqueProfileNames(Join(names, ',')) == names
  {
    if names == [] {
      assert Split("", ',') == [""];
      assert NonEmpty([""]) == NonEmpty([]) == [];
    } else {
      SplitJoin(names, ',');
      NonEmptyIdentity(names);
      DedupeIdentity(names);
    }
  }

  lemma {:induction false} WithoutKeeps(names: seq<string>, taken: seq<string>)
    ensures forall n :: n in Without(names, taken) <==> n in names && n !in taken
  {
    if names != [] {
      var front := names[..|names| - 1];
      WithoutKeeps(front, taken);
      assert forall n :: n in names <==> n in front || n == names[|names| - 1];
    }
  }

  lemma {:induction false} WithoutDistinct(names: seq<string>, taken: seq<string>)
    requires Names(names)
    ensures Names(Without(names, taken))
  {
    WithoutKeeps(names, taken);
    if names != [] {
      var front := names[..|names| - 1];
      assert Names(front) by { NamesPrefix(names); }
      WithoutDistinct(front, taken);
      WithoutKeeps(front, taken);
      LastIsNew(names);
    }
  }

  lemma NamesPrefix(names: seq<string>)
    requires Names(names) && names != []
    ensures Names(names[..|names| - 1])
  {
    var front := names[..|names| - 1];
    assert forall n :: n in front ==> n in names;
    forall i, j | 0 <= i < j < |front|
      ensures front[i] != front[j]
    {
      assert front[i] == names[i] && front[j] == names[j];
    }
  }

  lemma LastIsNew(names: seq<string>)
    requires Names(names) && names != []
    ensures names[|names| - 1] !in names[..|names| - 1] && names[|names| - 1] in names
  {
  }

  lemma MergeIsNames(base: seq<string>, incoming: seq<string>)
    requires Names(base) && Names(incoming)
    ensures Names(Merge(base, incoming))
  {
    var added := Without(incoming, base);
    WithoutDistinct(incoming, base);
    WithoutKeeps(incoming, base);
    forall i, j | 0 <= i < |base| && 0 <= j < |added|
      ensures base[i] != added[j]
    {
      assert added[j] in added;
    }
  }

  lemma {:induction false} WithoutConcat(a: seq<string>, b: seq<string>, taken: seq<string>)
    ensures Without(a + b, taken) == Without(a, taken) + Without(b, taken)
  {
    if b == [] {
      assert a + b == a;
    } else {
      WithoutConcat(a, b[..|b| - 1], taken);
      assert (a + b)[..|a + b| - 1] == a + b[..|b| - 1];
    }
  }

  lemma {:induction false} WithoutTwice(names: seq<string>, x: seq<string>, y: seq<string>)
    ensures Without(Without(names, y), x) == Without(names, Merge(x, y))
  {
    WithoutKeeps(y, x);
    if names != [] {
      var front, n := names[..|names| - 1], names[|names| - 1];
      WithoutTwice(front, x, y);
      WithoutConcat(Without(front, y), if n in y then [] else [n], x);
      WithoutOne(n, x);
    }
  }

  lemma WithoutOne(n: string, x: seq<string>)
    ensures Without([n], x) == if n in x then [] else [n]
    ensures Without([], x) == []
  {
    assert [n][..0] == [];
  }

  lemma MergeAssociative(x: seq<string>, y: seq<string>, z: seq<string>)
    ensures Merge(Merge(x, y), z) == Merge(x, Merge(y, z))
  {
    WithoutConcat(y, Without(z, y), x);
    WithoutTwice(z, x, y);
  }

  // The names a mapping gives to a key; none for a key it does not have.
  function NamesAt(m: Mapping, k: string): seq<string> {
    if k in m then UniqueProfileNames(m[k]) else []
  }

  // The merged mapping.
  function Merged(base: Mapping, incoming: Mapping): Mapping {
    map k | k in base.Keys + incoming.Keys :: Join(Merge(NamesAt(base, k), NamesAt(incoming, k)), ',')
  }

  lemma NamesAtAreNames(m: Mapping, k: string)
    ensures Names(NamesAt(m, k))
  {
    if k in m {
      UniqueNamesAreNames(m[k]);
    }
  }

  // Read back, a merge holds the base's names and then the new ones, each once.
  lemma NamesOfMerged(base: Mapping, incoming: Mapping, k: string)
    ensures NamesAt(Merged(base, incoming), k) == Merge(NamesAt(base, k), NamesAt(incoming, k))
  {
    NamesAtAreNames(base, k);
    NamesAtAreNames(incoming, k);
    MergeIsNames(NamesAt(base, k), NamesAt(incoming, k));
    if k in base.Keys + incoming.Keys {
      NamesRoundTrip(Merge(NamesAt(base, k), NamesAt(incoming, k)));
    } else {
      assert Merge([], []) == [];
    }
  }

  lemma MergedAt(base: Mapping, incoming: Mapping, k: string)
    ensures k in Merged(base, incoming) <==> k in base || k in incoming
    ensures k in Merged(base, incoming) ==>
              Merged(base, incoming)[k] == Join(Merge(NamesAt(base, k), NamesAt(incoming, k)), ',')
  {
  }

  lemma MergedAgree(a: Mapping, b: Mapping, c: Mapping, k: string)
    ensures Agree(Merged(Merged(a, b), c), Merged(a, Merged(b, c)), k)
  {
    hide Merged, Merge, Join, NamesAt;
    MergedAt(Merged(a, b), c, k);
    MergedAt(a, Merged(b, c), k);
    MergedAt(a, b, k);
    MergedAt(b, c, k);
    NamesOfMerged(a, b, k);
    NamesOfMerged(b, c, k);
    MergeAssociative(NamesAt(a, k), NamesAt(b, k), NamesAt(c, k));
  }

  // Merging is associative as a function on strings.
  lemma MergedAssociative(a: Mapping, b: Mapping, c: Mapping)
    ensures Merged(Merged(a, b), c) == Merged(a, Merged(b, c))
  {
    hide *;
    forall k
      ensures Agree(Merged(Merged(a, b), c), Merged(a, Merged(b, c)), k)
    {
      MergedAgree(a, b, c, k);
    }
    SameMap(Merged(Merged(a, b), c), Merged(a, Merged(b, c)));
  }

  // The list kept for `k` while the incoming keys in `rest` are still to come.
  function ListAt(base: Mapping, incoming: Mapping, rest: set<string>, k: string): seq<string> {
    if k in incoming && k !in rest then Merge(NamesAt(base, k), NamesAt(incoming, k)) else NamesAt(base, k)
  }

  lemma NextList(base: Mapping, incoming: Mapping, rest: set<string>, k: string, list: seq<string>)
    requires k in incoming && k in rest
    requires list == if k in base then ListAt(base, incoming, rest, k) else []
    ensures list + Without(UniqueProfileNames(incoming[k]), list) == ListAt(base, incoming, rest - {k}, k)
    ensures forall j :: j != k ==> ListAt(base, incoming, rest - {k}, j) == ListAt(base, incoming, rest, j)
  {
  }

  lemma Joined(base: Mapping, incoming: Mapping, k: string)
    requires k in base || k in incoming
    ensures Join(ListAt(base, incoming, {}, k), ',') == Merged(base, incoming)[k]
  {
    hide UniqueProfileNames, Join, Without;
    MergeNothing(NamesAt(base, k));
  }

  lemma MergeNothing(names: seq<string>)
    ensures Merge(names, []) == names
  {
  }

  // The merge as the source performs it: lists for the base, then each
  // incoming key in turn, then back to strings.
  method AddMappings(base: Mapping, incoming: Mapping) returns (merged: Mapping)
    ensures merged == Merged(base, incoming)
  {
    hide Join, Merge, Without, UniqueProfileNames;
    var lists: map<string, seq<string>> := map k | k in base :: UniqueProfileNames(base[k]);
    var rest := incoming.Keys;
    while rest != {}
      invariant rest <= incoming.Keys
      invariant lists.Keys == base.Keys + (incoming.Keys - rest)
      invariant forall k :: k in lists ==> lists[k] == ListAt(base, incoming, rest, k)
      decreases rest
    {
      var k :| k in rest;
      var baseProfiles := if k in lists then lists[k] else [];
      var incomingProfiles := UniqueProfileNames(incoming[k]);
      var added := Without(incomingProfiles, baseProfiles);
      NextList(base, incoming, rest, k, baseProfiles);
      lists := lists[k := baseProfiles + added];
      rest := rest - {k};
    }
    forall k | k in lists
      ensures Join(lists[k], ',') == Merged(base, incoming)[k]
    {
      Joined(base, incoming, k);
    }
    merged := map k | k in lists :: Join(lists[k], ',');
  }
}
