/** Splitting and joining strings. */
module Strings {

  predicate Free(s: string, c: char) {
    c !in s
  }

  // Split at every occurrence of a character; never empty.
  function Split(s: string, c: char): (parts: seq<string>)
    ensures |parts| >= 1
  {
    if s == "" then [""]
    else
      var rest := Split(s[1..], c);
      if s[0] == c then [""] + rest else [[s[0]] + rest[0]] + rest[1..]
  }

  function Join(parts: seq<string>, c: char): string {
    if parts == [] then ""
    else if |parts| == 1 then parts[0]
    else parts[0] + [c] + Join(parts[1..], c)
  }

  // The part of a string before the first occurrence of a character.
  function UpTo(s: string, c: char): (p: string)
    ensures p <= s && Free(p, c)
    ensures |p| < |s| ==> s[|p|] == c
  {
    if s == "" || s[0] == c then "" else [s[0]] + UpTo(s[1..], c)
  }

  lemma {:induction false} UpToAppend(p: string, c: char, rest: string)
    requires Free(p, c)
    ensures UpTo(p + [c] + rest, c) == p
  {
    if p != "" {
      UpToAppend(p[1..], c, rest);
      assert (p + [c] + rest)[1..] == p[1..] + [c] + rest;
    }
  }

  lemma {:induction false} SplitFree(p: string, c: char)
    requires Free(p, c)
    ensures Split(p, c) == [p]
  {
    if p != "" {
      SplitFree(p[1..], c);
      assert [p[0]] + p[1..] == p;
    }
  }

  lemma {:induction false} SplitPrepend(p: string, c: char, rest: string)
    requires Free(p, c)
    ensures Split(p + [c] + rest, c) == [p] + Split(rest, c)
  {
    if p == "" {
      assert (p + [c] + rest)[1..] == rest;
    } else {
      SplitPrepend(p[1..], c, rest);
      assert (p + [c] + rest)[1..] == p[1..] + [c] + rest;
      assert [p[0]] + p[1..] == p;
    }
  }

  // Splitting undoes joining, for separator-free parts.
  lemma {:induction false} SplitJoin(parts: seq<string>, c: char)
    requires parts != [] && forall p :: p in parts ==> Free(p, c)
    ensures Split(Join(parts, c), c) == parts
  {
    if |parts| == 1 {
      SplitFree(parts[0], c);
    } else {
      SplitJoin(parts[1..], c);
      SplitPrepend(parts[0], c, Join(parts[1..], c));
    }
  }

  lemma {:induction false} SplitIsFree(s: string, c: char)
    ensures forall p :: p in Split(s, c) ==> Free(p, c)
  {
    if s != "" {
      SplitIsFree(s[1..], c);
      var rest := Split(s[1..], c);
      assert rest[0] in rest && forall p :: p in rest[1..] ==> p in rest;
    }
  }
}
