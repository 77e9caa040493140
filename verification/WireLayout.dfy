/** The flat layout of a GetBulk response (section 4.2.3 of RFC 3416) and the
    proof that the walk's index arithmetic reads it back. */
module WireLayout {
  import opened Wrappers
  import opened Mib
  import opened BulkWalk

  // The k-th successors of the given names, in request order.
  function Repetition(mib: seq<Row>, oids: seq<Oid>, k: nat): (rows: seq<Row>)
    requires k >= 1
    ensures |rows| == |oids|
  {
    seq(|oids|, r requires 0 <= r < |oids| => Successor(mib, oids[r], k))
  }

  // `m` repetitions, one after the other.
  function AllRepetitions(mib: seq<Row>, oids: seq<Oid>, m: nat): seq<Row> {
    if m == 0 then [] else AllRepetitions(mib, oids, m - 1) + Repetition(mib, oids, m)
  }

  // One successor for each non-repeater, then `m` repetitions of the others.
  function Layout(mib: seq<Row>, request: Request, m: nat): seq<Row> {
    var n := NonRepeaterCount(request.nonRepeaters, |request.oids|);
    Repetition(mib, request.oids[..n], 1) + AllRepetitions(mib, request.oids[n..], m)
  }

  // How many of the first `n` bindings are credited to `slot`.
  function Seen(nonRepeaters: int, numActive: nat, slot: nat, n: nat): nat
    requires numActive > 0
  {
    if n == 0 then 0
    else
      Seen(nonRepeaters, numActive, slot, n - 1)
      + (if Slot(nonRepeaters, numActive, n - 1) == Some(slot) then 1 else 0)
  }

  lemma MulOrder(d: nat, a: int, b: int)
    ensures a <= b ==> d * a <= d * b
  {
  }

  lemma DivModUnique(q: nat, d: nat, r: nat)
    requires r < d
    ensures (q * d + r) / d == q && (q * d + r) % d == r
  {
    var x := q * d + r;
    assert x == d * (x / d) + x % d;
    MulOrder(d, x / d, q - 1);
    MulOrder(d, q + 1, x / d);
  }

  lemma DivModNext(x: nat, d: nat)
    requires d > 0
    ensures x % d == d - 1 ==> (x + 1) / d == x / d + 1 && (x + 1) % d == 0
    ensures x % d < d - 1 ==> (x + 1) / d == x / d && (x + 1) % d == x % d + 1
  {
    var q, r := x / d, x % d;
    assert x == q * d + r;
    if r == d - 1 {
      assert x + 1 == (q + 1) * d + 0;
      DivModUnique(q + 1, d, 0);
    } else {
      DivModUnique(q, d, r + 1);
    }
  }

  lemma {:induction false} AllRepetitionsLength(mib: seq<Row>, oids: seq<Oid>, m: nat)
    ensures |AllRepetitions(mib, oids, m)| == m * |oids|
  {
    if m > 0 {
      AllRepetitionsLength(mib, oids, m - 1);
      assert m * |oids| == (m - 1) * |oids| + |oids|;
    }
  }

  lemma LastRepetition(m: nat, n: nat, idx: nat)
    requires m > 0 && (m - 1) * n <= idx < m * n
    ensures idx / n == m - 1 && idx % n == idx - (m - 1) * n < n
  {
    assert m * n == (m - 1) * n + n;
    DivModUnique(m - 1, n, idx - (m - 1) * n);
  }

  lemma {:induction false} AllRepetitionsAt(mib: seq<Row>, oids: seq<Oid>, m: nat, idx: nat)
    requires idx < |AllRepetitions(mib, oids, m)| && oids != []
    ensures AllRepetitions(mib, oids, m)[idx] == Successor(mib, oids[idx % |oids|], idx / |oids| + 1)
  {
    AllRepetitionsLength(mib, oids, m);
    AllRepetitionsLength(mib, oids, m - 1);
    var before := (m - 1) * |oids|;
    if idx < before {
      AllRepetitionsAt(mib, oids, m - 1, idx);
    } else {
      LastRepetition(m, |oids|, idx);
    }
  }

  lemma {:induction false} SeenClosedForm(nonRepeaters: int, numActive: nat, slot: nat, n: nat)
    requires slot < numActive
    ensures var c := NonRepeaterCount(nonRepeaters, numActive);
            Seen(nonRepeaters, numActive, slot, n) ==
              if slot < c then (if slot < n then 1 else 0)
              else if n <= c then 0
              else (n - c) / (numActive - c) + (if slot - c < (n - c) % (numActive - c) then 1 else 0)
  {
    if n > 0 {
      SeenClosedForm(nonRepeaters, numActive, slot, n - 1);
      var c := NonRepeaterCount(nonRepeaters, numActive);
      if slot >= c && n > c {
        var d := numActive - c;
        if n - 1 == c {
          DivModUnique(0, d, 0);
        }
        DivModNext(n - 1 - c, d);
      }
    }
  }

  // Where the layout puts binding `idx`: which name, and which successor of it.
  function NameOf(c: nat, numActive: nat, idx: nat): (slot: nat)
    requires c <= numActive && (idx < c || c < numActive)
    ensures slot < numActive
  {
    if idx < c then idx else c + (idx - c) % (numActive - c)
  }

  function TurnOf(c: nat, numActive: nat, idx: nat): nat
    requires c <= numActive && (idx < c || c < numActive)
  {
    if idx < c then 1 else (idx - c) / (numActive - c) + 1
  }

  lemma SeenAtOwnSlot(nonRepeaters: int, numActive: nat, idx: nat)
    requires numActive > 0
    requires var c := NonRepeaterCount(nonRepeaters, numActive); idx < c || c < numActive
    ensures var c := NonRepeaterCount(nonRepeaters, numActive);
            && Slot(nonRepeaters, numActive, idx) == Some(NameOf(c, numActive, idx))
            && Seen(nonRepeaters, numActive, NameOf(c, numActive, idx), idx) + 1 == TurnOf(c, numActive, idx)
  {
    hide Seen;
    var c := NonRepeaterCount(nonRepeaters, numActive);
    SeenClosedForm(nonRepeaters, numActive, NameOf(c, numActive, idx), idx);
    if idx == c {
      DivModUnique(0, numActive - c, 0);
    }
  }

  lemma LayoutAt(mib: seq<Row>, request: Request, m: nat, idx: nat)
    requires idx < |Layout(mib, request, m)|
    ensures var c := NonRepeaterCount(request.nonRepeaters, |request.oids|);
            && (idx < c || c < |request.oids|)
            && Layout(mib, request, m)[idx] ==
                 Successor(mib, request.oids[NameOf(c, |request.oids|, idx)], TurnOf(c, |request.oids|, idx))
  {
    var c := NonRepeaterCount(request.nonRepeaters, |request.oids|);
    var repeaters := request.oids[c..];
    AllRepetitionsLength(mib, repeaters, m);
    if idx >= c {
      assert |repeaters| == 0 ==> m * |repeaters| == 0;
      AllRepetitionsAt(mib, repeaters, m, idx - c);
      assert repeaters[(idx - c) % |repeaters|] == request.oids[c + (idx - c) % |repeaters|];
    }
  }

  lemma LayoutLength(mib: seq<Row>, request: Request, m: nat)
    ensures var c := NonRepeaterCount(request.nonRepeaters, |request.oids|);
            |Layout(mib, request, m)| == c + m * (|request.oids| - c)
  {
    var c := NonRepeaterCount(request.nonRepeaters, |request.oids|);
    AllRepetitionsLength(mib, request.oids[c..], m);
  }

  // The inverse: binding `idx` of a layout is the next successor, not yet
  // seen, of the root that the walk credits it to.
  lemma DemultiplexingInvertsLayout(mib: seq<Row>, request: Request, m: nat, idx: nat)
    requires idx < |Layout(mib, request, m)| && request.oids != []
    ensures var slot := Slot(request.nonRepeaters, |request.oids|, idx);
            && slot.Some?
            && Layout(mib, request, m)[idx] ==
                 Successor(mib, request.oids[slot.value],
                           Seen(request.nonRepeaters, |request.oids|, slot.value, idx) + 1)
  {
    hide *;
    LayoutAt(mib, request, m, idx);
    SeenAtOwnSlot(request.nonRepeaters, |request.oids|, idx);
  }
}
