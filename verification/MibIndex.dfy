/** Finding the MIB module of an OID: the module indexed under the longest
    prefix of the OID, as long as that is not too short. */
module MibIndex {
  import opened Wrappers
  import opened Strings

  const ENTERPRISES := "1.3.6.1.4.1"

  // Shorter prefixes are not looked up; the test for enterprise OIDs is one on
  // characters.
  function ShortestLength(oid: string): nat {
    if ENTERPRISES <= oid then 7 else 6
  }

  function PrefixName(parts: seq<string>, n: nat): string
    requires n <= |parts|
  {
    Join(parts[..n], '.')
  }

  // What the search finds among the prefixes of at most n components.
  function Longest(index: map<string, string>, parts: seq<string>, n: nat, shortest: nat): Option<string>
    requires n <= |parts|
  {
    if n < shortest || n == 0 then None
    else if PrefixName(parts, n) in index then Some(index[PrefixName(parts, n)])
    else Longest(index, parts, n - 1, shortest)
  }

  function KnownMib(index: map<string, string>, oid: string): Option<string> {
    Longest(index, Split(oid, '.'), |Split(oid, '.')|, ShortestLength(oid))
  }

  method IsMibKnown(index: map<string, string>, oid: string) returns (found: bool, mib: string)
    ensures found == KnownMib(index, oid).Some? && mib == if found then KnownMib(index, oid).value else ""
  {
    hide Split, Join;
    var parts := Split(oid, '.');
    var shortest := ShortestLength(oid);
    var i := |parts|;
    while i >= shortest
      invariant i <= |parts| && (i >= shortest || i == shortest - 1 || i == |parts|)
      invariant KnownMib(index, oid) == Longest(index, parts, i, shortest)
      decreases i
    {
      var name := Join(parts[..i], '.');
      if name in index {
        return true, index[name];
      }
      i := i - 1;
    }
    return false, "";
  }

  // ---- What that means ----

  // An indexed name that covers the OID component by component, with at least
  // seven components for an enterprise OID and six for another.
  predicate Covers(name: string, oid: string) {
    Split(name, '.') <= Split(oid, '.') && |Split(name, '.')| >= if "1.3.6.1.4.1" <= oid then 7 else 6
  }

  lemma CoversIs(name: string, oid: string)
    ensures Covers(name, oid) <==>
            Split(name, '.') <= Split(oid, '.') && |Split(name, '.')| >= ShortestLength(oid)
  {
  }

  lemma {:induction false} JoinOfSplit(s: string, c: char)
    ensures Join(Split(s, c), c) == s
  {
    if s != "" {
      JoinOfSplit(s[1..], c);
      var rest := Split(s[1..], c);
      if s[0] != c {
        assert Split(s, c)[1..] == rest[1..];
        assert [s[0]] + s[1..] == s;
      } else {
        assert Split(s, c)[1..] == rest;
        assert "" + [c] + s[1..] == s;
      }
    }
  }

  lemma PrefixNameIs(parts: seq<string>, n: nat, name: string)
    requires 0 < n <= |parts| && forall p :: p in parts ==> Free(p, '.')
    ensures PrefixName(parts, n) == name <==> Split(name, '.') == parts[..n]
  {
    hide Split, Join, Free;
    JoinOfSplit(name, '.');
    assert forall p :: p in parts[..n] ==> p in parts;
    SplitJoin(parts[..n], '.');
  }

  // The longest covering name of at most n components.
  ghost predicate IsLongest(index: map<string, string>, oid: string, n: nat, name: string) {
    && name in index && Covers(name, oid) && |Split(name, '.')| <= n
    && forall other :: other in index && Covers(other, oid) && |Split(other, '.')| <= n ==>
        |Split(other, '.')| <= |Split(name, '.')|
  }

  lemma {:induction false} LongestIs(index: map<string, string>, oid: string, n: nat)
    requires n <= |Split(oid, '.')|
    ensures var parts := Split(oid, '.');
            var result := Longest(index, parts, n, ShortestLength(oid));
            && (result.None? ==> forall name :: name in index && Covers(name, oid) ==> |Split(name, '.')| > n)
            && (result.Some? ==> exists name :: IsLongest(index, oid, n, name) && index[name] == result.value)
    decreases n
  {
    hide Split, Join, Free, ShortestLength, Covers;
    AtLeastOne(oid);
    forall name
      ensures Covers(name, oid) <==>
              Split(name, '.') <= Split(oid, '.') && |Split(name, '.')| >= ShortestLength(oid)
    {
      CoversIs(name, oid);
    }
    var parts := Split(oid, '.');
    SplitIsFree(oid, '.');
    if n >= ShortestLength(oid) {
      if PrefixName(parts, n) in index {
        var name := PrefixName(parts, n);
        PrefixNameIs(parts, n, name);
        assert Covers(name, oid);
      } else {
        forall name | name in index && Covers(name, oid)
          ensures |Split(name, '.')| != n
        {
          PrefixNameIs(parts, n, name);
        }
        LongestIs(index, oid, n - 1);
      }
    }
  }

  lemma AtLeastOne(oid: string)
    ensures ShortestLength(oid) >= 6
  {
  }

  // The module found is that of the longest name in the index that covers the
  // OID; none is found exactly when no name does.
  lemma FindsLongestPrefix(index: map<string, string>, oid: string)
    ensures KnownMib(index, oid).None? <==> forall name :: name in index ==> !Covers(name, oid)
    ensures forall name :: name in index && Covers(name, oid)
              && (forall other :: other in index && Covers(other, oid) ==> |Split(other, '.')| <= |Split(name, '.')|)
              ==> KnownMib(index, oid) == Some(index[name])
  {
    hide Split, Join, Free, ShortestLength, Longest;
    LongestIs(index, oid, |Split(oid, '.')|);
    forall name | name in index && Covers(name, oid)
        && (forall other :: other in index && Covers(other, oid) ==> |Split(other, '.')| <= |Split(name, '.')|)
      ensures KnownMib(index, oid) == Some(index[name])
    {
      var found :| IsLongest(index, oid, |Split(oid, '.')|, found) && index[found] == KnownMib(index, oid).value;
      SameLengthSameName(found, name, oid);
    }
  }

  lemma SameLengthSameName(a: string, b: string, oid: string)
    requires Covers(a, oid) && Covers(b, oid) && |Split(a, '.')| == |Split(b, '.')|
    ensures a == b
  {
    hide Split, Join;
    JoinOfSplit(a, '.');
    JoinOfSplit(b, '.');
    assert Split(a, '.') == Split(oid, '.')[..|Split(a, '.')|] == Split(b, '.');
  }
}
