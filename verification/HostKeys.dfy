/** The names hosts and their schedules go by: "address:port" for a host, and
    for its schedules the names the store is searched by. */
module HostKeys {
  import opened Strings

  const DEFAULT_PORT: nat := 161

  // ---- Decimal numbers ----

  function Digit(d: nat): char
    requires d < 10
  {
    '0' + d as char
  }

  function Dec(n: nat): (s: string)
    ensures s != ""
  {
    if n < 10 then [Digit(n)] else Dec(n / 10) + [Digit(n % 10)]
  }

  predicate IsDigit(c: char) {
    '0' <= c <= '9'
  }

  predicate Digits(s: string) {
    forall c :: c in s ==> IsDigit(c)
  }

  function Number(s: string): nat
    requires Digits(s)
  {
    if s == "" then 0
    else
      assert IsDigit(s[|s| - 1]);
      Number(s[..|s| - 1]) * 10 + (s[|s| - 1] - '0') as nat
  }

  lemma {:induction false} DecIsDigits(n: nat)
    ensures Digits(Dec(n))
  {
    if n >= 10 {
      DecIsDigits(n / 10);
    }
  }

  lemma {:induction false} NumberOfDec(n: nat)
    ensures Digits(Dec(n)) && Number(Dec(n)) == n
  {
    DecIsDigits(n);
    if n >= 10 {
      NumberOfDec(n / 10);
      assert Dec(n)[..|Dec(n)| - 1] == Dec(n / 10);
    } else {
      assert Dec(n)[..0] == "";
    }
  }

  // ---- Host keys ----

  // A missing port, written 0, is the default one.
  function TransformAddressToKey(address: string, port: nat): string {
    if port == 0 || port == DEFAULT_PORT then address + ":161" else address + ":" + Dec(port)
  }

  // Where the last colon of a string is.
  function LastColon(s: string): (i: nat)
    requires ':' in s
    ensures i < |s| && s[i] == ':' && ':' !in s[i + 1..]
  {
    if s[|s| - 1] == ':' then |s| - 1
    else
      assert ':' in s[..|s| - 1];
      var i := LastColon(s[..|s| - 1]);
      assert s[i + 1..] == s[..|s| - 1][i + 1..] + [s[|s| - 1]];
      i
  }

  // Split at the last colon, if there is one; what follows it must be a
  // number.
  function TransformKeyToAddress(target: string): (string, nat)
    requires ':' in target ==> Digits(target[LastColon(target) + 1..])
  {
    if ':' in target then (target[..LastColon(target)], Number(target[LastColon(target) + 1..]))
        else (target, DEFAULT_PORT)
  }

  lemma LastColonIs(address: string, port: string)
    requires ':' !in port
    ensures ':' in address + ":" + port && LastColon(address + ":" + port) == |address|
  {
    hide *;
    var s := address + ":" + port;
    assert s[|address|] == ':';
    var i := LastColon(s);
    assert forall j :: |address| < j < |s| ==> s[j] == port[j - |address| - 1];
    assert forall j :: i < j < |s| ==> s[j] == s[i + 1..][j - i - 1];
  }

  lemma KeyIs(address: string, port: nat)
    ensures TransformAddressToKey(address, port) == address + ":" + Dec(if port == 0 then DEFAULT_PORT else port)
  {
    assert ":161" == ":" + "161";
  }

  // Every address, colons included, and every port come back from their key.
  lemma KeyRoundTrip(address: string, port: nat)
    ensures var key := TransformAddressToKey(address, port);
            ':' in key && Digits(key[LastColon(key) + 1..])
            && TransformKeyToAddress(key) == (address, if port == 0 then DEFAULT_PORT else port)
  {
    var known := if port == 0 then DEFAULT_PORT else port;
    var key := TransformAddressToKey(address, port);
    hide TransformAddressToKey;
    KeyIs(address, port);
    NumberOfDec(known);
    LastColonIs(address, Dec(known));
    assert key[..|address|] == address && key[|address| + 1..] == Dec(known);
  }

  // So two hosts never share a key.
  lemma KeysAreInjective(address: string, port: nat, address': string, port': nat)
    requires port != 0 && port' != 0 && TransformAddressToKey(address, port) == TransformAddressToKey(address', port')
    ensures address == address' && port == port'
  {
    hide TransformAddressToKey, TransformKeyToAddress;
    KeyRoundTrip(address, port);
    KeyRoundTrip(address', port');
  }

  // ---- Schedule names and the search for a host's schedules ----

  ghost predicate IsTarget(t: string) {
    exists address, port :: Free(address, ';') && t == TransformAddressToKey(address, port)
  }

  function Store(): string {
    "redbeat:sc4snmp"
  }

  function WalkKey(t: string): string {
    Store() + ";" + (t + ";" + "walk")
  }

  function PollKey(t: string, period: nat): string {
    Store() + ";" + (t + ";" + (Dec(period) + ";" + "poll"))
  }

  // How the keys look.
  lemma HostKeysLookLike()
    ensures TransformAddressToKey("10.0.0.1", 161) == "10.0.0.1:161"
    ensures TransformAddressToKey("10.0.0.1", 0) == "10.0.0.1:161"
    ensures TransformAddressToKey("10.0.0.1", 7) == "10.0.0.1:7"
  {
  }

  lemma KeysLookLike(t: string, period: nat)
    ensures WalkKey(t) == "redbeat:sc4snmp;" + t + ";walk"
    ensures PollKey(t, period) == "redbeat:sc4snmp;" + t + ";" + Dec(period) + ";poll"
    ensures Dec(60) == "60"
  {
    hide Digit;
    DecSixty();
    assert Store() + ";" == "redbeat:sc4snmp;" && ";" + "walk" == ";walk" && ";" + "poll" == ";poll";
  }

  lemma DecSixty()
    ensures Dec(60) == "60"
  {
    assert Dec(6) == "6";
  }

  // What the pattern "*target;*" finds.
  predicate Mentions(key: string, t: string) {
    exists i :: 0 <= i < |key| && MentionsAt(key, t, i)
  }

  predicate MentionsAt(key: string, t: string, i: int) {
    0 <= i <= |key| - |t| - 1 && key[i..i + |t|] == t && key[i + |t|] == ';'
  }

  predicate Suffix(t: string, s: string) {
    |t| <= |s| && s[|s| - |t|..] == t
  }

  lemma NoSeparatorNoMention(s: string, t: string)
    requires Free(s, ';')
    ensures !Mentions(s, t)
  {
    forall i | 0 <= i < |s|
      ensures !MentionsAt(s, t, i)
    {
      assert 0 <= i + |t| < |s| ==> s[i + |t|] in s;
    }
  }

  // A search hits the part before the first separator, or the rest.
  lemma MentionsParts(p: string, rest: string, t: string)
    requires Free(p, ';') && Free(t, ';')
    ensures Mentions(p + ";" + rest, t) <==> Suffix(t, p) || Mentions(rest, t)
  {
    hide MentionsAt, Suffix;
    var s := p + ";" + rest;
    if Mentions(s, t) {
      var i :| 0 <= i < |s| && MentionsAt(s, t, i);
      MentionIsInOnePart(p, rest, t, i);
    }
    if Suffix(t, p) {
      SuffixIsMentioned(p, rest, t);
    }
    if Mentions(rest, t) {
      var i :| 0 <= i < |rest| && MentionsAt(rest, t, i);
      RestIsMentioned(p, rest, t, i);
    }
  }

  lemma SuffixIsMentioned(p: string, rest: string, t: string)
    requires Suffix(t, p)
    ensures MentionsAt(p + ";" + rest, t, |p| - |t|)
  {
    assert (p + ";" + rest)[|p| - |t|..|p|] == p[|p| - |t|..];
  }

  lemma RestIsMentioned(p: string, rest: string, t: string, i: int)
    requires MentionsAt(rest, t, i)
    ensures MentionsAt(p + ";" + rest, t, |p| + 1 + i)
  {
    assert (p + ";" + rest)[|p| + 1 + i..|p| + 1 + i + |t|] == rest[i..i + |t|];
  }

  lemma MentionIsInOnePart(p: string, rest: string, t: string, i: int)
    requires Free(p, ';') && Free(t, ';') && MentionsAt(p + ";" + rest, t, i)
    ensures Suffix(t, p) || Mentions(rest, t)
  {
    var s := p + ";" + rest;
    assert forall j :: 0 <= j < |t| ==> t[j] == s[i + j];
    assert forall j :: 0 <= j < |p| ==> s[j] == p[j];
    assert s[|p|] == ';' && i + |t| >= |p|;
    assert forall j :: i <= j < i + |t| ==> s[j] == t[j - i];
    assert i + |t| == |p| || i > |p|;
    if i + |t| == |p| {
      assert p[i..] == s[i..i + |t|];
    } else {
      var j := i - |p| - 1;
      assert rest[j..j + |t|] == s[i..i + |t|];
      assert MentionsAt(rest, t, j);
    }
  }

  lemma TargetFacts(t: string)
    requires IsTarget(t)
    ensures Free(t, ';') && ':' in t && IsDigit(t[|t| - 1])
  {
    var address, port :| Free(address, ';') && t == TransformAddressToKey(address, port);
    KeyIs(address, port);
    var digits := Dec(if port == 0 then DEFAULT_PORT else port);
    DecIsDigits(if port == 0 then DEFAULT_PORT else port);
    assert t[|address|] == ':';
    assert t[|t| - 1] == digits[|digits| - 1];
    forall c | c in t
      ensures c != ';'
    {
      assert c in address || c == ':' || c in digits;
    }
  }

  lemma FixedParts()
    ensures Free(Store(), ';') && Free("walk", ';') && Free("poll", ';')
    ensures Store() != "" && !IsDigit(Store()[|Store()| - 1])
  {
  }

  lemma NotInStoreName(t: string)
    requires IsTarget(t)
    ensures !Suffix(t, Store())
  {
    hide Store;
    TargetFacts(t);
    FixedParts();
    assert |t| <= |Store()| ==>
             Store()[|Store()| - |t|..] != "" && Store()[|Store()| - |t|..][|t| - 1] == Store()[|Store()| - 1];
  }

  lemma NotInPeriod(t: string, period: nat)
    requires IsTarget(t)
    ensures !Suffix(t, Dec(period)) && Free(Dec(period), ';')
  {
    TargetFacts(t);
    DecIsDigits(period);
    assert forall i :: 0 <= i <= |Dec(period)| ==> ':' !in Dec(period)[i..];
  }

  // The search for one host's schedules also finds those of every host whose
  // key ends in its key, and only those.
  lemma SearchFindsSuffixes(t: string, t': string, period: nat)
    requires IsTarget(t) && IsTarget(t')
    ensures Mentions(WalkKey(t'), t) <==> Suffix(t, t')
    ensures Mentions(PollKey(t', period), t) <==> Suffix(t, t')
  {
    hide Mentions, Suffix, Store, Dec;
    TargetFacts(t);
    TargetFacts(t');
    FixedParts();
    NotInStoreName(t);
    NotInPeriod(t, period);
    NoSeparatorNoMention("walk", t);
    NoSeparatorNoMention("poll", t);
    MentionsParts(Store(), t' + ";" + "walk", t);
    MentionsParts(t', "walk", t);
    MentionsParts(Store(), t' + ";" + (Dec(period) + ";" + "poll"), t);
    MentionsParts(t', Dec(period) + ";" + "poll", t);
    MentionsParts(Dec(period), "poll", t);
  }

  // Whenever one address ends in another, so do the keys.
  lemma KeySuffix(prefix: string, address: string, port: nat)
    ensures Suffix(TransformAddressToKey(address, port), TransformAddressToKey(prefix + address, port))
  {
    hide TransformAddressToKey, Dec;
    KeyIs(address, port);
    KeyIs(prefix + address, port);
    var end := ":" + Dec(if port == 0 then DEFAULT_PORT else port);
    assert address + end == TransformAddressToKey(address, port);
    assert (prefix + address) + end == prefix + (address + end);
    assert (prefix + (address + end))[|prefix|..] == address + end;
  }

  // Two hosts where one's key ends in the other's.
  lemma SuffixesHappen()
    ensures Free("1.1.1.1", ';') && Free("11.1.1.1", ';') && "1.1.1.1" != "11.1.1.1"
    ensures Suffix(TransformAddressToKey("1.1.1.1", 161), TransformAddressToKey("11.1.1.1", 161))
  {
    hide TransformAddressToKey, Suffix;
    assert "1" + "1.1.1.1" == "11.1.1.1";
    KeySuffix("1", "1.1.1.1", 161);
    assert |"1.1.1.1"| != |"11.1.1.1"|;
  }

  // ---- Keys tell hosts, kinds and periods apart ----

  lemma DecIsFree(n: nat)
    ensures Free(Dec(n), ';')
  {
    DecIsDigits(n);
  }

  lemma KeyParts(t: string, period: nat)
    requires Free(t, ';')
    ensures Split(WalkKey(t), ';') == [Store(), t, "walk"]
    ensures Split(PollKey(t, period), ';') == [Store(), t, Dec(period), "poll"]
  {
    hide Store, Dec, Split, IsDigit;
    FixedParts();
    DecIsFree(period);
    SplitFree("walk", ';');
    SplitFree("poll", ';');
    SplitPrepend(Store(), ';', t + ";" + "walk");
    SplitPrepend(t, ';', "walk");
    SplitPrepend(Store(), ';', t + ";" + (Dec(period) + ";" + "poll"));
    SplitPrepend(t, ';', Dec(period) + ";" + "poll");
    SplitPrepend(Dec(period), ';', "poll");
  }

  lemma KeysTellApart(t: string, t': string, p: nat, p': nat)
    requires IsTarget(t) && IsTarget(t')
    ensures WalkKey(t) == WalkKey(t') <==> t == t'
    ensures PollKey(t, p) == PollKey(t', p') <==> t == t' && p == p'
    ensures WalkKey(t) != PollKey(t', p')
  {
    hide Store, Dec, WalkKey, PollKey;
    TargetFacts(t);
    TargetFacts(t');
    KeyParts(t, p);
    KeyParts(t', p');
    NumberOfDec(p);
    NumberOfDec(p');
    assert [Store(), t, "walk"][1] == t && [Store(), t', "walk"][1] == t';
    assert [Store(), t, Dec(p), "poll"][1] == t && [Store(), t', Dec(p'), "poll"][1] == t';
    assert [Store(), t, Dec(p), "poll"][2] == Dec(p) && [Store(), t', Dec(p'), "poll"][2] == Dec(p');
    assert |[Store(), t, "walk"]| == 3 && |[Store(), t', Dec(p'), "poll"]| == 4;
  }
}
