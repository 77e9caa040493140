/** Varbinds and the container that keeps only the most general ones. A varbind
    names a MIB family, a field of it, or an instance of a field:
    ["IF-MIB"], ["IF-MIB", "ifDescr"], ["IF-MIB", "ifDescr", "1"]. */
module Varbinds {
  import opened Wrappers
  import opened Strings

  type Varbind = seq<string>

  // What the keys of the container rely on: a family name has no ':', a field
  // name neither ':' nor '.', and an index no "::".
  predicate WellFormed(v: Varbind) {
    && |v| >= 1 && Free(v[0], ':')
    && (|v| >= 2 ==> Free(v[1], ':') && Free(v[1], '.'))
    && (|v| >= 3 ==> !HasDouble(Join(v[2..], '.')))
  }

  predicate DoubleAt(s: string, i: nat)
    requires i + 1 < |s|
  {
    s[i] == ':' && s[i + 1] == ':'
  }

  predicate HasDouble(s: string) {
    exists i :: 0 <= i < |s| - 1 && DoubleAt(s, i)
  }

  function Key(v: Varbind): string
    requires |v| >= 1
  {
    if |v| == 1 then v[0]
    else if |v| == 2 then v[0] + "::" + v[1]
    else v[0] + "::" + v[1] + "." + Join(v[2..], '.')
  }

  // The keys that stand for something more general than `v`.
  function General(v: Varbind): set<string>
    requires |v| >= 1
  {
    (if |v| > 1 then {v[0]} else {}) + (if |v| > 2 then {Key(v[..2])} else {})
  }

  lemma GeneralIsShorter(v: Varbind, g: string)
    requires |v| >= 1 && g in General(v)
    ensures |g| < |Key(v)|
  {
  }

  lemma FamilyOfKey(v: Varbind)
    requires WellFormed(v)
    ensures UpTo(Key(v), ':') == v[0]
    ensures |v| == 1 <==> Key(v) == v[0]
    ensures |v| == 1 <==> Free(Key(v), ':')
  {
    if |v| == 1 {
    } else {
      var tail := if |v| == 2 then ":" + v[1] else ":" + v[1] + "." + Join(v[2..], '.');
      assert Key(v) == v[0] + [':'] + tail;
      UpToAppend(v[0], ':', tail);
      assert Key(v)[|v[0]|] == ':';
    }
  }

  // What follows the family and the "::" in a key.
  function Tail(v: Varbind): string
    requires |v| >= 2
  {
    if |v| == 2 then v[1] else v[1] + "." + Join(v[2..], '.')
  }

  lemma FieldOfKey(v: Varbind)
    requires WellFormed(v) && |v| >= 2
    ensures Key(v) == v[0] + "::" + Tail(v)
    ensures UpTo(Tail(v), '.') == v[1]
    ensures |v| == 2 <==> Free(Tail(v), '.')
  {
    if |v| == 2 {
    } else {
      assert Tail(v) == v[1] + ['.'] + Join(v[2..], '.');
      UpToAppend(v[1], '.', Join(v[2..], '.'));
      assert Tail(v)[|v[1]|] == '.';
    }
  }

  lemma GeneralByParts(v: Varbind, w: Varbind)
    requires |v| >= 1 && |w| >= 1 && v[0] == w[0]
    requires |v| == 1 <==> |w| == 1
    requires |v| == 2 <==> |w| == 2
    requires |v| > 2 ==> v[1] == w[1]
    ensures General(v) == General(w)
  {
    if |v| > 2 {
      assert v[..2] == w[..2];
    }
  }

  lemma TailOfKey(v: Varbind, w: Varbind)
    requires |v| >= 2 && |w| >= 2 && v[0] == w[0]
    requires v[0] + "::" + Tail(v) == w[0] + "::" + Tail(w)
    ensures Tail(v) == Tail(w)
  {
    assert Tail(v) == (v[0] + "::" + Tail(v))[|v[0]| + 2..];
    assert Tail(w) == (w[0] + "::" + Tail(w))[|w[0]| + 2..];
  }

  // A key says which of the three kinds its varbind is, and what lies above it.
  lemma KeyDetermines(v: Varbind, w: Varbind)
    requires WellFormed(v) && WellFormed(w) && Key(v) == Key(w)
    ensures General(v) == General(w)
    ensures |v| < 3 ==> v == w
    ensures |v| >= 3 <==> |w| >= 3
  {
    hide *;
    AtLeastOne(v);
    AtLeastOne(w);
    FamilyOfKey(v);
    FamilyOfKey(w);
    if |v| >= 2 {
      FieldOfKey(v);
      FieldOfKey(w);
      TailOfKey(v, w);
    }
    GeneralByParts(v, w);
  }

  lemma AtLeastOne(v: Varbind)
    requires WellFormed(v)
    ensures |v| >= 1
  {
  }

  // Python's split on "::".
  function SplitDouble(s: string): (parts: seq<string>)
    ensures |parts| >= 1
  {
    if |s| < 2 then [s]
    else if s[0] == ':' && s[1] == ':' then [""] + SplitDouble(s[2..])
    else
      var rest := SplitDouble(s[1..]);
      [[s[0]] + rest[0]] + rest[1..]
  }

  lemma {:induction false} SplitDoubleNone(s: string)
    requires !HasDouble(s)
    ensures SplitDouble(s) == [s]
  {
    if |s| >= 2 {
      assert !DoubleAt(s, 0);
      forall i | 0 <= i < |s[1..]| - 1
        ensures !DoubleAt(s[1..], i)
      {
        assert !DoubleAt(s, i + 1);
      }
      SplitDoubleNone(s[1..]);
      assert [s[0]] + s[1..] == s;
    }
  }

  lemma {:induction false} SplitDoublePrepend(p: string, rest: string)
    requires Free(p, ':')
    ensures SplitDouble(p + "::" + rest) == [p] + SplitDouble(rest)
  {
    if p == "" {
      assert (p + "::" + rest)[2..] == rest;
    } else {
      SplitDoublePrepend(p[1..], rest);
      assert (p + "::" + rest)[1..] == p[1..] + "::" + rest;
      assert [p[0]] + p[1..] == p;
    }
  }

  lemma TailHasNoDouble(v: Varbind)
    requires WellFormed(v) && |v| >= 2
    ensures !HasDouble(Tail(v))
  {
    if |v| > 2 {
      var t, j := Tail(v), Join(v[2..], '.');
      assert t == v[1] + ['.'] + j;
      forall i | 0 <= i < |t| - 1
        ensures !DoubleAt(t, i)
      {
        if i > |v[1]| {
          assert !DoubleAt(j, i - |v[1]| - 1);
        }
      }
    }
  }

  lemma SplitOfKey(v: Varbind)
    requires WellFormed(v) && |v| >= 2
    ensures SplitDouble(Key(v)) == [v[0], Tail(v)]
  {
    FieldOfKey(v);
    TailHasNoDouble(v);
    SplitDoubleNone(Tail(v));
    SplitDoublePrepend(v[0], Tail(v));
  }

  type Entries = map<string, Varbind>

  ghost predicate Keyed(m: Entries) {
    forall k :: k in m ==> WellFormed(m[k]) && Key(m[k]) == k
  }

  // A varbind is covered when its own key or a more general one is there.
  ghost predicate Covers(keys: set<string>, v: Varbind)
    requires |v| >= 1
  {
    Key(v) in keys || General(v) * keys != {}
  }

  // In terms of the lists themselves: a family or a field covers what begins
  // with it, an instance covers the instance with the same index.
  predicate Takes(v: Varbind, o: Varbind) {
    || (|v| <= 2 && v <= o)
    || (|v| >= 3 && |o| >= 3 && v[..2] == o[..2] && Join(v[2..], '.') == Join(o[2..], '.'))
  }

  lemma TakesByKey(v: Varbind, o: Varbind)
    requires WellFormed(v) && WellFormed(o)
    ensures Takes(v, o) <==> Key(v) == Key(o) || Key(v) in General(o)
  {
    hide WellFormed, UpTo, Join, Free;
    AtLeastOne(v);
    AtLeastOne(o);
    if Key(v) == Key(o) {
      KeyDetermines(v, o);
      if |v| >= 3 {
        SameIndex(v, o);
      }
    } else if Key(v) in General(o) {
      BeginningWellFormed(o);
      var general := if Key(v) == o[0] then o[..1] else o[..2];
      KeyDetermines(v, general);
    }
    if Takes(v, o) && |v| <= 2 {
      assert |v| < |o| ==> v == o[..|v|];
      assert |v| == |o| ==> v == o;
    } else if Takes(v, o) {
      SameKey(v, o);
    }
  }

  lemma SameKey(v: Varbind, o: Varbind)
    requires |v| >= 3 && |o| >= 3 && v[..2] == o[..2] && Join(v[2..], '.') == Join(o[2..], '.')
    ensures Key(v) == Key(o)
  {
    assert v[0] == v[..2][0] == o[0] && v[1] == v[..2][1] == o[1];
  }

  lemma BeginningWellFormed(v: Varbind)
    requires WellFormed(v)
    ensures WellFormed(v[..1]) && (|v| >= 2 ==> WellFormed(v[..2]))
  {
  }

  lemma SameIndex(v: Varbind, w: Varbind)
    requires WellFormed(v) && WellFormed(w) && |v| >= 3 && |w| >= 3 && Key(v) == Key(w)
    ensures v[..2] == w[..2] && Join(v[2..], '.') == Join(w[2..], '.')
  {
    hide WellFormed, UpTo, Join, Free;
    FamilyOfKey(v);
    FamilyOfKey(w);
    FieldOfKey(v);
    FieldOfKey(w);
    TailOfKey(v, w);
    assert Join(v[2..], '.') == Tail(v)[|v[1]| + 1..] && Join(w[2..], '.') == Tail(w)[|w[1]| + 1..];
  }

  // The entries with nothing more general beside them.
  function Minimal(m: Entries): (r: Entries)
    requires Keyed(m)
    ensures Keyed(r) && r.Keys <= m.Keys
    ensures forall k :: k in r <==> k in m && General(m[k]) !! m.Keys
    ensures forall k :: k in r ==> r[k] == m[k]
  {
    map k | k in m && General(m[k]) !! m.Keys :: m[k]
  }

  // What one insertion does.
  function Inserted(m: Entries, v: Varbind): Entries
    requires |v| >= 1
  {
    if Key(v) in m || General(v) * m.Keys != {} then m else m[Key(v) := v]
  }

  // The topmost key above `v` that is in `m` is minimal there.
  lemma SomethingMinimalAbove(m: Entries, v: Varbind)
    requires Keyed(m) && WellFormed(v)
    ensures General(v) !! m.Keys <==> General(v) !! Minimal(m).Keys
  {
    if |v| > 1 && v[0] in m {
      FamilyOfKey(m[v[0]]);
      assert v[0] in Minimal(m) && v[0] in General(v);
    } else if |v| > 2 && Key(v[..2]) in m {
      KeyDetermines(m[Key(v[..2])], v[..2]);
      assert Key(v[..2]) in Minimal(m) && Key(v[..2]) in General(v);
    }
  }

  // Pruning loses no coverage.
  lemma MinimalCovers(m: Entries, v: Varbind)
    requires Keyed(m) && WellFormed(v)
    ensures Covers(Minimal(m).Keys, v) <==> Covers(m.Keys, v)
  {
    SomethingMinimalAbove(m, v);
    if Key(v) in m {
      KeyDetermines(m[Key(v)], v);
    }
  }

  // Nothing that is kept is covered by something else that is kept.
  lemma MinimalIsAntichain(m: Entries, k: string)
    requires Keyed(m) && k in Minimal(m)
    ensures General(m[k]) !! Minimal(m).Keys
  {
  }

  function Union(a: Entries, b: Entries): (r: Entries)
    requires Keyed(a) && Keyed(b)
    ensures Keyed(r)
  {
    a + b
  }

  function Sum(a: Entries, b: Entries): (r: Entries)
    requires Keyed(a) && Keyed(b)
    ensures Keyed(r)
  {
    Minimal(Union(a, b))
  }

  lemma AbsorbPresent(m: Entries, n: Entries, k: string)
    requires Keyed(m) && Keyed(n) && (k in m || k in n)
    ensures k in Minimal(Union(Minimal(m), n)) <==> k in Minimal(Union(m, n))
    ensures k in Minimal(Union(n, Minimal(m))) <==> k in Minimal(Union(n, m))
  {
    hide General, Key, WellFormed;
    var v := if k in n then n[k] else m[k];
    SomethingMinimalAbove(m, v);
    if k in m {
      KeyDetermines(m[k], v);
      SomethingMinimalAbove(m, m[k]);
    }
  }

  lemma AbsorbAbsent(m: Entries, n: Entries, k: string)
    requires Keyed(m) && Keyed(n) && k !in m && k !in n
    ensures k !in Minimal(Union(Minimal(m), n)) && k !in Minimal(Union(m, n))
    ensures k !in Minimal(Union(n, Minimal(m))) && k !in Minimal(Union(n, m))
  {
    hide General, Key, WellFormed, Keyed;
  }

  lemma AbsorbValue(m: Entries, n: Entries, k: string)
    requires Keyed(m) && Keyed(n)
    ensures k in Minimal(Union(Minimal(m), n)) && k in Minimal(Union(m, n)) ==>
              Minimal(Union(Minimal(m), n))[k] == Minimal(Union(m, n))[k]
    ensures k in Minimal(Union(n, Minimal(m))) && k in Minimal(Union(n, m)) ==>
              Minimal(Union(n, Minimal(m)))[k] == Minimal(Union(n, m))[k]
  {
    hide General, Key, WellFormed, Keyed;
  }

  lemma AbsorbKey(m: Entries, n: Entries, k: string)
    requires Keyed(m) && Keyed(n)
    ensures Agree(Minimal(Union(Minimal(m), n)), Minimal(Union(m, n)), k)
    ensures Agree(Minimal(Union(n, Minimal(m))), Minimal(Union(n, m)), k)
  {
    hide Minimal, Union, Keyed;
    AbsorbValue(m, n, k);
    if k in m || k in n {
      AbsorbPresent(m, n, k);
    } else {
      AbsorbAbsent(m, n, k);
    }
  }

  // Pruning one operand first makes no difference.
  lemma MinimalAbsorbs(m: Entries, n: Entries)
    requires Keyed(m) && Keyed(n)
    ensures Minimal(Union(Minimal(m), n)) == Minimal(Union(m, n))
    ensures Minimal(Union(n, Minimal(m))) == Minimal(Union(n, m))
  {
    hide *;
    forall k
      ensures Agree(Minimal(Union(Minimal(m), n)), Minimal(Union(m, n)), k)
      ensures Agree(Minimal(Union(n, Minimal(m))), Minimal(Union(n, m)), k)
    {
      AbsorbKey(m, n, k);
    }
    SameMap(Minimal(Union(Minimal(m), n)), Minimal(Union(m, n)));
    SameMap(Minimal(Union(n, Minimal(m))), Minimal(Union(n, m)));
  }

  lemma UnionAssociative(a: Entries, b: Entries, c: Entries)
    requires Keyed(a) && Keyed(b) && Keyed(c)
    ensures Union(Union(a, b), c) == Union(a, Union(b, c))
  {
    hide Keyed, General, Key, WellFormed;
    assert (a + b) + c == a + (b + c);
  }

  // The semilattice laws. Associativity holds for the stored varbinds too;
  // commutativity is about the keys, and idempotence about pruned operands.
  lemma SumAssociative(a: Entries, b: Entries, c: Entries)
    requires Keyed(a) && Keyed(b) && Keyed(c)
    ensures Sum(Sum(a, b), c) == Sum(a, Sum(b, c))
  {
    hide Minimal, Union, Keyed, General, Key, WellFormed;
    MinimalAbsorbs(Union(a, b), c);
    MinimalAbsorbs(Union(b, c), a);
    UnionAssociative(a, b, c);
  }

  lemma SumCommutative(a: Entries, b: Entries)
    requires Keyed(a) && Keyed(b)
    ensures Sum(a, b).Keys == Sum(b, a).Keys
  {
    var ab, ba := Union(a, b), Union(b, a);
    assert ab.Keys == ba.Keys;
    forall k | k in ab
      ensures k in Sum(a, b) <==> k in Sum(b, a)
    {
      KeyDetermines(ab[k], ba[k]);
    }
  }

  lemma SumIdempotent(a: Entries)
    requires Keyed(a)
    ensures Sum(Minimal(a), Minimal(a)) == Minimal(a)
  {
    assert Union(Minimal(a), Minimal(a)) == Minimal(a);
  }

  // The sum covers exactly what either operand covered.
  lemma SumCovers(a: Entries, b: Entries, v: Varbind)
    requires Keyed(a) && Keyed(b) && WellFormed(v)
    ensures Covers(Sum(a, b).Keys, v) <==> Covers(a.Keys, v) || Covers(b.Keys, v)
  {
    MinimalCovers(Union(a, b), v);
    assert Union(a, b).Keys == a.Keys + b.Keys;
  }

  // Whether the family or the field above a key is held. None stands for the
  // error of unpacking a key that does not split in two.
  function Parents(m: Entries, key: string): Option<bool> {
    var parts := SplitDouble(key);
    if |parts| != 2 then None else Some(parts[0] in m || parts[0] + "::" + UpTo(parts[1], '.') in m)
  }

  class VarBindContainer {
    var entries: Entries

    constructor ()
      ensures entries == map[]
    {
      entries := map[];
    }

    method InsertVarbind(v: Varbind)
      requires |v| >= 1
      modifies this
      ensures entries == Inserted(old(entries), v)
    {
      var key := Key(v);
      if key in entries {
        return;
      }
      if |v| > 1 && v[0] in entries {
        return;
      }
      if |v| > 2 {
        var keyForTwo := Key(v[..2]);
        if keyForTwo in entries {
          return;
        }
      }
      entries := entries[key := v];
    }

    method AreParentsInMap(key: string) returns (found: Option<bool>)
      ensures found == Parents(entries, key)
    {
      var parts := SplitDouble(key);
      if |parts| != 2 {
        return None;
      }
      var field := Split(parts[1], '.')[0];
      SplitHead(parts[1], '.');
      return Some(parts[0] in entries || parts[0] + "::" + field in entries);
    }

    // A new container with the union of both, pruned in one pass over the keys
    // in order of their length.
    method Add(other: VarBindContainer) returns (sum: VarBindContainer)
      requires Keyed(entries) && Keyed(other.entries)
      ensures fresh(sum)
      ensures sum.entries == Sum(entries, other.entries)
    {
      var joined := Union(entries, other.entries);
      sum := new VarBindContainer();
      var keyList := SortByLength(joined.Keys);
      for i := 0 to |keyList|
        invariant sum.entries == MinimalAmong(joined, keyList[..i])
      {
        InsertNext(joined, keyList, i);
        sum.InsertVarbind(joined[keyList[i]]);
      }
      assert keyList[..|keyList|] == keyList;
    }
  }

  lemma {:induction false} SplitHead(s: string, c: char)
    ensures Split(s, c)[0] == UpTo(s, c)
  {
    if s != "" {
      SplitHead(s[1..], c);
    }
  }

  // Sorting by length; keys of equal length may come in any order.
  ghost predicate SortedByLength(s: seq<string>) {
    forall i, j :: 0 <= i < j < |s| ==> |s[i]| <= |s[j]| && s[i] != s[j]
  }

  method Shortest(keys: set<string>) returns (k: string)
    requires keys != {}
    ensures k in keys && forall j :: j in keys ==> |k| <= |j|
  {
    k :| k in keys;
    var rest := keys - {k};
    while rest != {}
      invariant k in keys && rest <= keys
      invariant forall j :: j in keys && j !in rest ==> |k| <= |j|
      decreases rest
    {
      var j :| j in rest;
      if |j| < |k| {
        k := j;
      }
      rest := rest - {j};
    }
  }

  method SortByLength(keys: set<string>) returns (s: seq<string>)
    ensures SortedByLength(s) && forall k :: k in s <==> k in keys
  {
    s := [];
    var rest := keys;
    while rest != {}
      invariant rest <= keys && SortedByLength(s)
      invariant forall k :: k in s <==> k in keys && k !in rest
      invariant forall k, j :: k in s && j in rest ==> |k| <= |j|
      decreases rest
    {
      var k := Shortest(rest);
      s := s + [k];
      rest := rest - {k};
    }
  }

  // The minimal entries of `m` among the given keys.
  function MinimalAmong(m: Entries, keys: seq<string>): Entries
    requires Keyed(m)
  {
    map k | k in keys && k in m && General(m[k]) !! m.Keys :: m[k]
  }

  lemma GeneralDealtWith(m: Entries, keyList: seq<string>, i: nat, g: string)
    requires Keyed(m) && SortedByLength(keyList) && (forall k :: k in keyList <==> k in m) && i < |keyList|
    requires |m[keyList[i]]| >= 1 && g in General(m[keyList[i]])
    ensures g in MinimalAmong(m, keyList[..i]) <==> g in Minimal(m)
  {
    if g in m {
      GeneralIsShorter(m[keyList[i]], g);
    }
  }

  // Why the order by length is enough: everything more general than the next
  // key has been dealt with.
  lemma InsertNext(m: Entries, keyList: seq<string>, i: nat)
    requires Keyed(m) && SortedByLength(keyList) && (forall k :: k in keyList <==> k in m) && i < |keyList|
    requires |m[keyList[i]]| >= 1 && Key(m[keyList[i]]) == keyList[i]
    ensures Inserted(MinimalAmong(m, keyList[..i]), m[keyList[i]]) == MinimalAmong(m, keyList[..i + 1])
  {
    var v, before := m[keyList[i]], MinimalAmong(m, keyList[..i]);
    SomethingMinimalAbove(m, v);
    forall g | g in General(v)
      ensures g in before <==> g in Minimal(m)
    {
      GeneralDealtWith(m, keyList, i, g);
    }
    assert General(v) !! before.Keys <==> General(v) !! m.Keys;
    OneMoreKey(m, keyList, i);
  }

  lemma OneMoreKey(m: Entries, keyList: seq<string>, i: nat)
    requires Keyed(m) && SortedByLength(keyList) && (forall k :: k in keyList <==> k in m) && i < |keyList|
    ensures var before, after := MinimalAmong(m, keyList[..i]), MinimalAmong(m, keyList[..i + 1]);
            && keyList[i] !in before
            && after == if General(m[keyList[i]]) !! m.Keys then before[keyList[i] := m[keyList[i]]] else before
  {
    hide General, Key, WellFormed;
    assert keyList[..i + 1] == keyList[..i] + [keyList[i]];
    forall k | k in keyList[..i]
      ensures k != keyList[i]
    {
      var j :| 0 <= j < i && keyList[j] == k;
    }
  }
}
