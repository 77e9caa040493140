/** Batch independence: without non-repeaters, a walk delivers the round-robin
    interleaving of its roots' listings, one row per root and round, however
    many repetitions the agent packs into a response. */
module RoundRobin {
  import opened Wrappers
  import opened Mib
  import opened BulkWalk
  import opened WalkSafety
  import opened WireLayout
  import opened WalkRefinement

  // Round `t`: row `t` of each of the first `upto` listings that has one.
  function Round(ls: seq<seq<Row>>, t: nat, upto: nat): seq<Found>
    requires upto <= |ls|
  {
    if upto == 0 then []
    else Round(ls, t, upto - 1) + (if t < |ls[upto - 1]| then [Found(upto - 1, ls[upto - 1][t])] else [])
  }

  function Rounds(ls: seq<seq<Row>>, t: nat): seq<Found> {
    if t == 0 then [] else Rounds(ls, t - 1) + Round(ls, t - 1, |ls|)
  }

  function Longest(ls: seq<seq<Row>>): (n: nat)
    ensures forall i :: 0 <= i < |ls| ==> |ls[i]| <= n
    ensures ls != [] ==> exists i :: 0 <= i < |ls| && |ls[i]| == n
  {
    if ls == [] then 0
    else
      var n := Longest(ls[..|ls| - 1]);
      var last := |ls[|ls| - 1]|;
      assert forall i :: 0 <= i < |ls| - 1 ==> ls[i] == ls[..|ls| - 1][i];
      if last > n || |ls| == 1 then last
      else
        var i :| 0 <= i < |ls| - 1 && |ls[..|ls| - 1][i]| == n;
        assert |ls[i]| == n;
        n
  }

  function Interleaving(ls: seq<seq<Row>>): seq<Found> {
    Rounds(ls, Longest(ls))
  }

  lemma {:induction false} RoundGap(ls: seq<seq<Row>>, t: nat, a: nat, b: nat)
    requires a <= b <= |ls| && forall i :: a <= i < b ==> |ls[i]| <= t
    ensures Round(ls, t, b) == Round(ls, t, a)
  {
    if a < b {
      RoundGap(ls, t, a, b - 1);
    }
  }

  lemma {:induction false} RoundsSettle(ls: seq<seq<Row>>, s: nat, t: nat)
    requires s <= t && forall i :: 0 <= i < |ls| ==> |ls[i]| <= s
    ensures Rounds(ls, t) == Rounds(ls, s)
  {
    if s < t {
      RoundsSettle(ls, s, t - 1);
      RoundGap(ls, t - 1, 0, |ls|);
    }
  }

  lemma {:induction false} RoundsPrefix(ls: seq<seq<Row>>, s: nat, t: nat)
    requires s <= t
    ensures Rounds(ls, s) <= Rounds(ls, t)
  {
    if s < t {
      RoundsPrefix(ls, s, t - 1);
    }
  }

  lemma RoundsInInterleaving(ls: seq<seq<Row>>, t: nat)
    ensures Rounds(ls, t) <= Interleaving(ls)
    ensures t >= Longest(ls) ==> Rounds(ls, t) == Interleaving(ls)
  {
    if t <= Longest(ls) {
      RoundsPrefix(ls, t, Longest(ls));
    } else {
      RoundsSettle(ls, Longest(ls), t);
    }
  }

  lemma {:induction false} ProjectRound(ls: seq<seq<Row>>, t: nat, upto: nat, root: nat)
    requires upto <= |ls| && root < |ls|
    ensures Project(Round(ls, t, upto), root) == if root < upto && t < |ls[root]| then [ls[root][t]] else []
  {
    hide *;
    RoundByOne(ls, t, upto);
    if upto == 0 {
      ProjectNothing([], root);
    } else {
      ProjectRound(ls, t, upto - 1, root);
      ProjectConcat(Round(ls, t, upto - 1), RowAt(ls, upto - 1, t), root);
      ProjectRowAt(ls, upto - 1, t, root);
    }
  }

  lemma RoundByOne(ls: seq<seq<Row>>, t: nat, upto: nat)
    requires upto <= |ls|
    ensures upto == 0 ==> Round(ls, t, upto) == []
    ensures upto > 0 ==> Round(ls, t, upto) == Round(ls, t, upto - 1) + RowAt(ls, upto - 1, t)
  {
  }

  lemma ProjectRowAt(ls: seq<seq<Row>>, i: nat, t: nat, root: nat)
    requires i < |ls|
    ensures Project(RowAt(ls, i, t), root) == if i == root && t < |ls[i]| then [ls[i][t]] else []
  {
  }

  lemma RoundsByOne(ls: seq<seq<Row>>, t: nat)
    ensures Rounds(ls, 0) == []
    ensures t > 0 ==> Rounds(ls, t) == Rounds(ls, t - 1) + Round(ls, t - 1, |ls|)
  {
  }

  lemma ProjectNothing(rows: seq<Row>, root: nat)
    ensures Project([], root) == rows[..Min(0, |rows|)]
  {
  }

  // Taken apart by root, the interleaving is the listings again.
  lemma {:induction false} ProjectRounds(ls: seq<seq<Row>>, t: nat, root: nat)
    requires root < |ls|
    ensures Project(Rounds(ls, t), root) == ls[root][..Min(t, |ls[root]|)]
  {
    hide *;
    RoundsByOne(ls, t);
    if t == 0 {
      ProjectNothing(ls[root], root);
    } else {
      var before, now := Rounds(ls, t - 1), Round(ls, t - 1, |ls|);
      ProjectRounds(ls, t - 1, root);
      ProjectRound(ls, t - 1, |ls|, root);
      ProjectConcat(before, now, root);
      PrefixByOne(ls[root], t, Project(before, root), Project(now, root));
    }
  }

  lemma PrefixByOne(rows: seq<Row>, t: nat, before: seq<Row>, now: seq<Row>)
    requires t > 0
    requires before == rows[..Min(t - 1, |rows|)]
    requires now == if t - 1 < |rows| then [rows[t - 1]] else []
    ensures rows[..Min(t, |rows|)] == before + now
  {
  }

  lemma ActiveGap(completed: seq<bool>, slot: nat, i: nat)
    requires slot <= |Active(completed)| && i < |completed|
    requires slot > 0 ==> Active(completed)[slot - 1] < i
    requires slot < |Active(completed)| ==> i < Active(completed)[slot]
    ensures completed[i]
  {
    var active := Active(completed);
    forall a, b | 0 <= a < b < |active|
      ensures active[a] < active[b]
    {
      ActiveIncreasing(completed, a, b);
    }
    if !completed[i] {
      var s := ActiveSlot(completed, i);
    }
  }

  // The first index not covered by the first `slot` active roots.
  function Covered(active: seq<nat>, slot: nat): nat
    requires slot <= |active|
  {
    if slot == 0 then 0 else active[slot - 1] + 1
  }

  // Before round `t`: finished roots have fewer rows, the others stand at `t`.
  ghost predicate InStep(cfg: Config, ls: seq<seq<Row>>, completed: seq<bool>, last: seq<Oid>, t: nat)
    requires Fits(cfg, completed, last) && |ls| == |cfg.roots|
  {
    forall root :: 0 <= root < |cfg.roots| ==>
      && (completed[root] <==> |ls[root]| < t)
      && (!completed[root] ==> last[root] == NameAt(cfg.roots[root], ls[root], t))
  }

  lemma RoundUpToSlot(cfg: Config, ls: seq<seq<Row>>, completed: seq<bool>, last: seq<Oid>, t: nat, u: nat, slot: nat)
    requires Fits(cfg, completed, last) && |ls| == |cfg.roots| && InStep(cfg, ls, completed, last, t) && t <= u
    requires slot <= |Active(completed)|
    ensures var active := Active(completed);
            var next := if slot < |active| then active[slot] else |ls|;
            Covered(active, slot) <= next && Round(ls, u, next) == Round(ls, u, Covered(active, slot))
  {
    var active := Active(completed);
    var next := if slot < |active| then active[slot] else |ls|;
    if 0 < slot < |active| {
      ActiveIncreasing(completed, slot - 1, slot);
    }
    forall i | Covered(active, slot) <= i < next
      ensures |ls[i]| <= u
    {
      ActiveGap(completed, slot, i);
    }
    RoundGap(ls, u, Covered(active, slot), next);
  }

  function RowAt(ls: seq<seq<Row>>, root: nat, t: nat): seq<Found>
    requires root < |ls|
  {
    if t < |ls[root]| then [Found(root, ls[root][t])] else []
  }

  // What one binding adds to the rows found.
  lemma CreditFinds(cfg: Config, ls: seq<seq<Row>>, root: nat, pos: nat, seen: nat, d: Demuxed, row: Row)
    requires Fits(cfg, d.completed, d.last) && |ls| == |cfg.roots| && root < |cfg.roots| && pos <= |ls[root]|
    requires Advanced(cfg, root, ls[root], pos, seen, d) && IsRow(cfg, root, ls[root], pos + seen, row)
    ensures Credit(cfg, d, root, row).found == d.found + RowAt(ls, root, pos + seen)
  {
  }

  // The rows found when `q` whole rounds after `t`, and `r` roots of the next, are through.
  function Progress(ls: seq<seq<Row>>, t: nat, active: seq<nat>, q: nat, r: nat): seq<Found>
    requires r <= |active| && forall j :: 0 <= j < |active| ==> active[j] < |ls|
  {
    Rounds(ls, t + q) + Round(ls, t + q, Covered(active, r))
  }

  lemma ProgressInRound(ls: seq<seq<Row>>, t: nat, active: seq<nat>, q: nat, r: nat)
    requires r < |active| && forall j :: 0 <= j < |active| ==> active[j] < |ls|
    requires Round(ls, t + q, active[r]) == Round(ls, t + q, Covered(active, r))
    ensures Progress(ls, t, active, q, r) + RowAt(ls, active[r], t + q) == Progress(ls, t, active, q, r + 1)
  {
    assert Round(ls, t + q, active[r] + 1) == Round(ls, t + q, active[r]) + RowAt(ls, active[r], t + q);
  }

  lemma ProgressNextRound(ls: seq<seq<Row>>, t: nat, active: seq<nat>, q: nat)
    requires forall j :: 0 <= j < |active| ==> active[j] < |ls|
    requires Round(ls, t + q, |ls|) == Round(ls, t + q, Covered(active, |active|))
    ensures Progress(ls, t, active, q, |active|) == Progress(ls, t, active, q + 1, 0)
  {
    assert Round(ls, t + q + 1, 0) == [];
    assert t + (q + 1) == t + q + 1;
  }

  // Which slot binding `x` belongs to, and how many repetitions came before it.
  function SlotAt(x: nat, width: nat): (r: nat)
    requires width > 0
    ensures r < width
  {
    if x < width then x else SlotAt(x - width, width)
  }

  function RepetitionAt(x: nat, width: nat): (q: nat)
    requires width > 0
  {
    if x < width then 0 else 1 + RepetitionAt(x - width, width)
  }

  lemma {:induction false} SlotAndRepetition(x: nat, width: nat)
    requires width > 0
    ensures x == RepetitionAt(x, width) * width + SlotAt(x, width)
  {
    if x >= width {
      SlotAndRepetition(x - width, width);
    }
  }

  lemma DivModAt(x: nat, width: nat)
    requires width > 0
    ensures x % width == SlotAt(x, width) && x / width == RepetitionAt(x, width)
  {
    SlotAndRepetition(x, width);
    DivModUnique(RepetitionAt(x, width), width, SlotAt(x, width));
  }

  lemma {:induction false} SlotNext(x: nat, width: nat)
    requires width > 0
    ensures SlotAt(x, width) == width - 1 ==>
            SlotAt(x + 1, width) == 0 && RepetitionAt(x + 1, width) == RepetitionAt(x, width) + 1
    ensures SlotAt(x, width) < width - 1 ==>
            SlotAt(x + 1, width) == SlotAt(x, width) + 1 && RepetitionAt(x + 1, width) == RepetitionAt(x, width)
  {
    if x >= width {
      SlotNext(x - width, width);
    }
  }

  // What the response has brought after each number of bindings.
  function Trace(cfg: Config, d: Demuxed, table: seq<Row>): (trace: seq<seq<Found>>)
    requires Fits(cfg, d.completed, d.last) && Active(d.completed) != []
    ensures |trace| == |table| + 1
  {
    seq(|table| + 1, n requires 0 <= n <= |table| => Demux(cfg, Active(d.completed), d, table, n).found)
  }

  ghost predicate BringsNext(ls: seq<seq<Row>>, active: seq<nat>, trace: seq<seq<Found>>, x: nat, t: nat)
    requires active != [] && (forall j :: 0 <= j < |active| ==> active[j] < |ls|) && x + 1 < |trace|
  {
    trace[x + 1] == trace[x] + RowAt(ls, active[SlotAt(x, |active|)], t + RepetitionAt(x, |active|))
  }

  lemma SlotOfBinding(nonRepeaters: int, numActive: nat, x: nat)
    requires nonRepeaters <= 0 && numActive > 0
    ensures Slot(nonRepeaters, numActive, x) == Some(SlotAt(x, numActive))
    ensures Seen(nonRepeaters, numActive, SlotAt(x, numActive), x) == RepetitionAt(x, numActive)
  {
    hide Seen, SlotAt, RepetitionAt, NameOf, TurnOf;
    DivModAt(x, numActive);
    WithoutNonRepeaters(numActive, x);
    SeenAtOwnSlot(nonRepeaters, numActive, x);
  }

  lemma WithoutNonRepeaters(numActive: nat, x: nat)
    requires numActive > 0
    ensures NameOf(0, numActive, x) == x % numActive && TurnOf(0, numActive, x) == x / numActive + 1
  {
  }

  lemma CreditBringsNext(cfg: Config, ls: seq<seq<Row>>, pos: seq<nat>, active: seq<nat>, table: seq<Row>, x: nat,
                         t: nat, before: Demuxed)
    requires Positions(cfg, ls, pos) && Fits(cfg, before.completed, before.last) && active != [] && x < |table|
    requires cfg.nonRepeaters <= 0 && forall j :: 0 <= j < |active| ==> active[j] < |cfg.roots|
    requires PlacedAt(cfg, ls, pos, active, table, x) && pos[active[SlotAt(x, |active|)]] == t
    requires var root := active[SlotAt(x, |active|)];
             Advanced(cfg, root, ls[root], t, Seen(cfg.nonRepeaters, |active|, SlotAt(x, |active|), x), before)
    ensures var slot := SlotAt(x, |active|);
            && Slot(cfg.nonRepeaters, |active|, x) == Some(slot)
            && Credit(cfg, before, active[slot], table[x]).found ==
                 before.found + RowAt(ls, active[slot], t + RepetitionAt(x, |active|))
  {
    hide *;
    SlotOfBinding(cfg.nonRepeaters, |active|, x);
    var root := active[SlotAt(x, |active|)];
    PlacedRow(cfg, ls, pos, active, table, x, SlotAt(x, |active|));
    CreditFinds(cfg, ls, root, t, RepetitionAt(x, |active|), before, table[x]);
  }

  lemma PlacedRow(cfg: Config, ls: seq<seq<Row>>, pos: seq<nat>, active: seq<nat>, table: seq<Row>, idx: nat, slot: nat)
    requires Positions(cfg, ls, pos) && active != [] && idx < |table|
    requires forall j :: 0 <= j < |active| ==> active[j] < |cfg.roots|
    requires PlacedAt(cfg, ls, pos, active, table, idx) && Slot(cfg.nonRepeaters, |active|, idx) == Some(slot)
    ensures var root := active[slot];
            |ls| == |cfg.roots| && pos[root] <= |ls[root]| &&
            IsRow(cfg, root, ls[root], pos[root] + Seen(cfg.nonRepeaters, |active|, slot, idx), table[idx])
  {
  }

  // Each binding brings the row that the round robin has next.
  lemma BindingBringsNext(cfg: Config, ls: seq<seq<Row>>, pos: seq<nat>, d: Demuxed, table: seq<Row>, x: nat, t: nat)
    requires cfg.nonRepeaters <= 0 && Fits(cfg, d.completed, d.last) && d.found == [] && x < |table|
    requires Positions(cfg, ls, pos) && Active(d.completed) != []
    requires var root := Active(d.completed)[SlotAt(x, |Active(d.completed)|)];
             pos[root] == t && d.last[root] == NameAt(cfg.roots[root], ls[root], t)
    requires Placed(cfg, ls, pos, Active(d.completed), table)
    ensures var active := Active(d.completed);
            Demux(cfg, active, d, table, x + 1).found ==
              Demux(cfg, active, d, table, x).found
              + RowAt(ls, active[SlotAt(x, |active|)], t + RepetitionAt(x, |active|))
  {
    hide Credit, RowAt, SlotAt, RepetitionAt, Seen, Slot, Advanced, NameAt, Positions, PlacedAt;
    var active, slot := Active(d.completed), SlotAt(x, |Active(d.completed)|);
    assert PlacedAt(cfg, ls, pos, active, table, x);
    SlotAdvances(cfg, ls, pos, d, table, x, slot);
    CreditBringsNext(cfg, ls, pos, active, table, x, t, Demux(cfg, active, d, table, x));
  }

  lemma NoProgress(ls: seq<seq<Row>>, t: nat, active: seq<nat>)
    requires active != [] && forall j :: 0 <= j < |active| ==> active[j] < |ls|
    ensures Progress(ls, t, active, RepetitionAt(0, |active|), SlotAt(0, |active|)) == Rounds(ls, t)
    ensures Rounds(ls, t) + [] == Rounds(ls, t)
  {
    assert Progress(ls, t, active, 0, 0) == Rounds(ls, t);
  }

  // The order of the credits within one response.
  lemma {:induction false} BatchInOrder(cfg: Config, ls: seq<seq<Row>>, completed: seq<bool>, last: seq<Oid>,
                                        trace: seq<seq<Found>>, n: nat, t: nat)
    requires Fits(cfg, completed, last) && |ls| == |cfg.roots| && n < |trace| && trace[0] == []
    requires Active(completed) != [] && InStep(cfg, ls, completed, last, t)
    requires var active := Active(completed);
             forall x :: 0 <= x < n ==> BringsNext(ls, active, trace, x, t)
    ensures var active := Active(completed);
            Rounds(ls, t) + trace[n] == Progress(ls, t, active, RepetitionAt(n, |active|), SlotAt(n, |active|))
  {
    hide Rounds, Progress, InStep, RowAt, SlotAt, RepetitionAt;
    var active := Active(completed);
    if n == 0 {
      NoProgress(ls, t, active);
    } else {
      BatchInOrder(cfg, ls, completed, last, trace, n - 1, t);
      SlotNext(n - 1, |active|);
      assert BringsNext(ls, active, trace, n - 1, t);
      OneMore(cfg, ls, completed, last, t, RepetitionAt(n - 1, |active|), SlotAt(n - 1, |active|), trace[n - 1],
              trace[n]);
    }
  }

  lemma OneMore(cfg: Config, ls: seq<seq<Row>>, completed: seq<bool>, last: seq<Oid>, t: nat, q: nat, r: nat,
                before: seq<Found>, after: seq<Found>)
    requires Fits(cfg, completed, last) && |ls| == |cfg.roots| && InStep(cfg, ls, completed, last, t)
             && r < |Active(completed)|
    requires Rounds(ls, t) + before == Progress(ls, t, Active(completed), q, r)
    requires after == before + RowAt(ls, Active(completed)[r], t + q)
    ensures Rounds(ls, t) + after ==
              if r == |Active(completed)| - 1 then Progress(ls, t, Active(completed), q + 1, 0)
              else Progress(ls, t, Active(completed), q, r + 1)
  {
    hide Rounds, Round, Progress, RowAt, InStep;
    var active := Active(completed);
    RoundUpToSlot(cfg, ls, completed, last, t, t + q, r);
    ProgressInRound(ls, t, active, q, r);
    assert Rounds(ls, t) + after == Rounds(ls, t) + before + RowAt(ls, active[r], t + q);
    if r == |active| - 1 {
      RoundUpToSlot(cfg, ls, completed, last, t, t + q, |active|);
      ProgressNextRound(ls, t, active, q);
    }
  }

  // Between requests: all rounds before `t` are through, and no other row.
  ghost predicate Lockstep(cfg: Config, ls: seq<seq<Row>>, run: Run, t: nat)
    requires Fits(cfg, run.walk.completed, run.walk.last) && |ls| == |cfg.roots|
  {
    run.found == Rounds(ls, t) && InStep(cfg, ls, run.walk.completed, run.walk.last, t)
  }

  lemma DoneInStep(cfg: Config, ls: seq<seq<Row>>, run: Run, t: nat, root: nat)
    requires Fits(cfg, run.walk.completed, run.walk.last) && |ls| == |cfg.roots| && root < |cfg.roots|
    requires Lockstep(cfg, ls, run, t) && !run.walk.completed[root]
    ensures Done(cfg, run.found)[root] == t <= |ls[root]| && run.walk.last[root] == NameAt(cfg.roots[root], ls[root], t)
  {
    ProjectRounds(ls, t, root);
  }

  lemma TraceAt(cfg: Config, d: Demuxed, table: seq<Row>, x: nat)
    requires Fits(cfg, d.completed, d.last) && Active(d.completed) != [] && x <= |table|
    ensures Trace(cfg, d, table)[x] == Demux(cfg, Active(d.completed), d, table, x).found
  {
  }

  lemma FitsRoots(cfg: Config, run: Run)
    requires Fits(cfg, run.walk.completed, run.walk.last)
    ensures |run.walk.completed| == |run.walk.last| == |cfg.roots|
  {
  }

  lemma BatchBringsNext(cfg: Config, ls: seq<seq<Row>>, run: Run, table: seq<Row>, t: nat, x: nat)
    requires Fits(cfg, run.walk.completed, run.walk.last) && |ls| == |cfg.roots| && cfg.nonRepeaters <= 0
    requires Active(run.walk.completed) != [] && Lockstep(cfg, ls, run, t) && x < |table|
    requires Positions(cfg, ls, Done(cfg, run.found))
    requires Placed(cfg, ls, Done(cfg, run.found), Active(run.walk.completed), table)
    ensures var active, start := Active(run.walk.completed), Demuxed(run.walk.completed, run.walk.last, []);
            Demux(cfg, active, start, table, x + 1).found ==
              Demux(cfg, active, start, table, x).found
              + RowAt(ls, active[SlotAt(x, |active|)], t + RepetitionAt(x, |active|))
  {
    hide *;
    FitsRoots(cfg, run);
    var active := Active(run.walk.completed);
    DoneInStep(cfg, ls, run, t, active[SlotAt(x, |active|)]);
    BindingBringsNext(cfg, ls, Done(cfg, run.found), Demuxed(run.walk.completed, run.walk.last, []), table, x, t);
  }

  lemma BatchTrace(cfg: Config, ls: seq<seq<Row>>, run: Run, table: seq<Row>, t: nat, x: nat)
    requires Fits(cfg, run.walk.completed, run.walk.last) && |ls| == |cfg.roots| && cfg.nonRepeaters <= 0
    requires Active(run.walk.completed) != [] && Lockstep(cfg, ls, run, t) && x < |table|
    requires Positions(cfg, ls, Done(cfg, run.found))
    requires Placed(cfg, ls, Done(cfg, run.found), Active(run.walk.completed), table)
    ensures BringsNext(ls, Active(run.walk.completed),
                       Trace(cfg, Demuxed(run.walk.completed, run.walk.last, []), table), x, t)
  {
    var start := Demuxed(run.walk.completed, run.walk.last, []);
    BatchBringsNext(cfg, ls, run, table, t, x);
    TraceAt(cfg, start, table, x);
    TraceAt(cfg, start, table, x + 1);
  }

  lemma WholeRounds(m: nat, width: nat)
    requires width > 0
    ensures SlotAt(m * width, width) == 0 && RepetitionAt(m * width, width) == m
  {
    assert m * width + 0 == m * width;
    DivModUnique(m, width, 0);
    DivModAt(m * width, width);
  }

  // A response of `m` whole repetitions brings exactly the next `m` rounds.
  lemma BatchIsRounds(cfg: Config, ls: seq<seq<Row>>, run: Run, d: Demuxed, table: seq<Row>, t: nat, m: nat)
    requires Fits(cfg, run.walk.completed, run.walk.last) && |ls| == |cfg.roots| && cfg.nonRepeaters <= 0
    requires Active(run.walk.completed) != [] && Lockstep(cfg, ls, run, t)
    requires Positions(cfg, ls, Done(cfg, run.found))
    requires Placed(cfg, ls, Done(cfg, run.found), Active(run.walk.completed), table)
    requires |table| == m * |Active(run.walk.completed)|
    requires d == Demux(cfg, Active(run.walk.completed), Demuxed(run.walk.completed, run.walk.last, []), table, |table|)
    ensures run.found + d.found == Rounds(ls, t + m)
  {
    var active, start := Active(run.walk.completed), Demuxed(run.walk.completed, run.walk.last, []);
    var trace := Trace(cfg, start, table);
    forall x | 0 <= x < |table|
      ensures BringsNext(ls, active, trace, x, t)
    {
      BatchTrace(cfg, ls, run, table, t, x);
    }
    TraceAt(cfg, start, table, 0);
    TraceAt(cfg, start, table, |table|);
    TraceIsRounds(cfg, ls, run.walk.completed, run.walk.last, trace, t, m);
  }

  lemma TraceIsRounds(cfg: Config, ls: seq<seq<Row>>, completed: seq<bool>, last: seq<Oid>, trace: seq<seq<Found>>,
                      t: nat, m: nat)
    requires Fits(cfg, completed, last) && |ls| == |cfg.roots| && Active(completed) != []
    requires |trace| == m * |Active(completed)| + 1 && trace[0] == []
    requires InStep(cfg, ls, completed, last, t)
    requires forall x :: 0 <= x < |trace| - 1 ==> BringsNext(ls, Active(completed), trace, x, t)
    ensures Rounds(ls, t) + trace[|trace| - 1] == Rounds(ls, t + m)
  {
    hide InStep, BringsNext, SlotAt, RepetitionAt, Active, Rounds, Progress;
    BatchInOrder(cfg, ls, completed, last, trace, |trace| - 1, t);
    WholeRounds(m, |Active(completed)|);
    ProgressAtRound(ls, t, Active(completed), m);
  }

  lemma ProgressAtRound(ls: seq<seq<Row>>, t: nat, active: seq<nat>, m: nat)
    requires forall j :: 0 <= j < |active| ==> active[j] < |ls|
    ensures Progress(ls, t, active, m, 0) == Rounds(ls, t + m)
  {
    assert Round(ls, t + m, 0) == [];
  }

  lemma SeenInWholeRounds(nonRepeaters: int, numActive: nat, slot: nat, m: nat)
    requires nonRepeaters <= 0 && slot < numActive
    ensures Seen(nonRepeaters, numActive, slot, m * numActive) == m
  {
    SeenClosedForm(nonRepeaters, numActive, slot, m * numActive);
    assert m * numActive + 0 == m * numActive;
    DivModUnique(m, numActive, 0);
  }

  // ... and leaves every root in step.
  lemma RootInStep(cfg: Config, ls: seq<seq<Row>>, run: Run, table: seq<Row>, t: nat, m: nat, root: nat)
    requires Fits(cfg, run.walk.completed, run.walk.last) && |ls| == |cfg.roots| && cfg.nonRepeaters <= 0
    requires Active(run.walk.completed) != [] && Lockstep(cfg, ls, run, t) && root < |cfg.roots|
    requires Positions(cfg, ls, Done(cfg, run.found))
    requires Placed(cfg, ls, Done(cfg, run.found), Active(run.walk.completed), table)
    requires |table| == m * |Active(run.walk.completed)|
    ensures var d := Demux(cfg, Active(run.walk.completed), Demuxed(run.walk.completed, run.walk.last, []), table,
                           |table|);
            && (d.completed[root] <==> |ls[root]| < t + m)
            && (!d.completed[root] ==> d.last[root] == NameAt(cfg.roots[root], ls[root], t + m))
  {
    var active, start := Active(run.walk.completed), Demuxed(run.walk.completed, run.walk.last, []);
    if run.walk.completed[root] {
      CompletedUnchanged(cfg, start, table, |table|, root);
    } else {
      ActiveRootInStep(cfg, ls, run, table, t, m, root);
    }
  }

  lemma ActiveRootInStep(cfg: Config, ls: seq<seq<Row>>, run: Run, table: seq<Row>, t: nat, m: nat, root: nat)
    requires Fits(cfg, run.walk.completed, run.walk.last) && |ls| == |cfg.roots| && cfg.nonRepeaters <= 0
    requires Active(run.walk.completed) != [] && Lockstep(cfg, ls, run, t) && root < |cfg.roots|
    requires Positions(cfg, ls, Done(cfg, run.found)) && !run.walk.completed[root]
    requires Placed(cfg, ls, Done(cfg, run.found), Active(run.walk.completed), table)
    requires |table| == m * |Active(run.walk.completed)|
    ensures t <= |ls[root]|
    ensures Advanced(cfg, root, ls[root], t, m,
                     Demux(cfg, Active(run.walk.completed), Demuxed(run.walk.completed, run.walk.last, []), table,
                           |table|))
  {
    hide *;
    FitsRoots(cfg, run);
    var active, start := Active(run.walk.completed), Demuxed(run.walk.completed, run.walk.last, []);
    var slot := ActiveSlot(run.walk.completed, root);
    DoneInStep(cfg, ls, run, t, root);
    SlotAdvances(cfg, ls, Done(cfg, run.found), start, table, |table|, slot);
    SeenInWholeRounds(cfg.nonRepeaters, |active|, slot, m);
  }

  // How a run stands to the interleaving after `t` rounds of it have been asked for.
  ghost predicate Interleaved(cfg: Config, ls: seq<seq<Row>>, run: Run, t: nat)
    requires Fits(cfg, run.walk.completed, run.walk.last) && |ls| == |cfg.roots|
  {
    && run.found <= Rounds(ls, t)
    && (run.ending == Running ==> Lockstep(cfg, ls, run, t))
    && (run.ending == AllCompleted || run.ending == NothingValid ==>
          run.found == Rounds(ls, t) && forall i :: 0 <= i < |ls| ==> |ls[i]| < t)
    && (run.ending == RowLimit && cfg.maxRows > 0 ==> |run.found| == cfg.maxRows)
  }

  lemma BatchInStep(cfg: Config, ls: seq<seq<Row>>, run: Run, d: Demuxed, table: seq<Row>, t: nat, m: nat)
    requires Fits(cfg, run.walk.completed, run.walk.last) && |ls| == |cfg.roots| && cfg.nonRepeaters <= 0
    requires Active(run.walk.completed) != [] && Lockstep(cfg, ls, run, t)
    requires Positions(cfg, ls, Done(cfg, run.found))
    requires Placed(cfg, ls, Done(cfg, run.found), Active(run.walk.completed), table)
    requires |table| == m * |Active(run.walk.completed)|
    requires d == Demux(cfg, Active(run.walk.completed), Demuxed(run.walk.completed, run.walk.last, []), table, |table|)
    ensures Fits(cfg, d.completed, d.last) && InStep(cfg, ls, d.completed, d.last, t + m)
  {
    forall root | 0 <= root < |cfg.roots|
      ensures d.completed[root] <==> |ls[root]| < t + m
      ensures !d.completed[root] ==> d.last[root] == NameAt(cfg.roots[root], ls[root], t + m)
    {
      RootInStep(cfg, ls, run, table, t, m, root);
    }
  }

  // An empty batch means that no listing reaches round `t`.
  lemma NothingLeft(ls: seq<seq<Row>>, t: nat, u: nat, root: nat)
    requires t < u && root < |ls| && Rounds(ls, u) == Rounds(ls, t)
    ensures |ls[root]| < u
  {
    ProjectRounds(ls, t, root);
    ProjectRounds(ls, u, root);
  }

  lemma KeptInterleaved(cfg: Config, ls: seq<seq<Row>>, run: Run, d: Demuxed, run': Run, n: nat, t: nat, u: nat)
    requires Keeps(cfg, run, d, run', n) && |ls| == |cfg.roots| && t < u
    requires run.found == Rounds(ls, t) && run.found + d.found == Rounds(ls, u)
    requires InStep(cfg, ls, d.completed, d.last, u) && run.walk.totalRows == |run.found|
    requires cfg.maxRows > 0 ==> |run'.found| <= cfg.maxRows
    ensures Interleaved(cfg, ls, run', u)
  {
    assert d.found == d.found[..n] + d.found[n..];
    assert run.found + d.found == run'.found + d.found[n..];
    if n == |d.found| {
      assert d.found[..n] == d.found;
    }
    if run'.ending == NothingValid {
      forall root | 0 <= root < |ls|
        ensures |ls[root]| < u
      {
        NothingLeft(ls, t, u, root);
      }
    }
  }

  lemma KeepsSafely(cfg: Config, run: Run, response: Response) returns (d: Demuxed, n: nat)
    requires Fits(cfg, run.walk.completed, run.walk.last) && Active(run.walk.completed) != []
    requires WithinLimit(cfg, run)
    ensures d == Demux(cfg, Active(run.walk.completed), Demuxed(run.walk.completed, run.walk.last, []), response.table,
                       |response.table|)
    ensures Keeps(cfg, run, d, AbsorbTable(cfg, run, response), n)
    ensures cfg.maxRows > 0 ==> |AbsorbTable(cfg, run, response).found| <= cfg.maxRows
  {
    d, n := TableKeeps(cfg, run, response);
  }

  lemma BatchAdvances(cfg: Config, ls: seq<seq<Row>>, run: Run, d: Demuxed, table: seq<Row>, t: nat, m: nat)
    requires Fits(cfg, run.walk.completed, run.walk.last) && |ls| == |cfg.roots| && cfg.nonRepeaters <= 0
    requires Active(run.walk.completed) != [] && Lockstep(cfg, ls, run, t)
    requires Positions(cfg, ls, Done(cfg, run.found))
    requires Placed(cfg, ls, Done(cfg, run.found), Active(run.walk.completed), table)
    requires |table| == m * |Active(run.walk.completed)|
    requires d == Demux(cfg, Active(run.walk.completed), Demuxed(run.walk.completed, run.walk.last, []), table, |table|)
    ensures Fits(cfg, d.completed, d.last) && InStep(cfg, ls, d.completed, d.last, t + m)
    ensures run.found + d.found == Rounds(ls, t + m)
  {
    BatchIsRounds(cfg, ls, run, d, table, t, m);
    BatchInStep(cfg, ls, run, d, table, t, m);
  }

  lemma TableAdvances(cfg: Config, ls: seq<seq<Row>>, run: Run, response: Response, t: nat, m: nat)
    returns (d: Demuxed, n: nat)
    requires Fits(cfg, run.walk.completed, run.walk.last) && |ls| == |cfg.roots| && cfg.nonRepeaters <= 0
    requires Active(run.walk.completed) != [] && Lockstep(cfg, ls, run, t)
    requires Positions(cfg, ls, Done(cfg, run.found))
    requires Placed(cfg, ls, Done(cfg, run.found), Active(run.walk.completed), response.table)
    requires |response.table| == m * |Active(run.walk.completed)|
    requires WithinLimit(cfg, run)
    ensures Keeps(cfg, run, d, AbsorbTable(cfg, run, response), n)
    ensures cfg.maxRows > 0 ==> |AbsorbTable(cfg, run, response).found| <= cfg.maxRows
    ensures InStep(cfg, ls, d.completed, d.last, t + m) && run.found + d.found == Rounds(ls, t + m)
  {
    hide *;
    d, n := KeepsSafely(cfg, run, response);
    BatchAdvances(cfg, ls, run, d, response.table, t, m);
  }

  lemma RunningRows(cfg: Config, ls: seq<seq<Row>>, run: Run, t: nat)
    requires Fits(cfg, run.walk.completed, run.walk.last) && |ls| == |cfg.roots|
    requires WithinLimit(cfg, run) && Lockstep(cfg, ls, run, t)
    ensures run.found == Rounds(ls, t) && run.walk.totalRows == |run.found|
  {
  }

  lemma TableInterleaved(cfg: Config, ls: seq<seq<Row>>, run: Run, response: Response, t: nat, m: nat)
    requires Fits(cfg, run.walk.completed, run.walk.last) && |ls| == |cfg.roots| && cfg.nonRepeaters <= 0
    requires Active(run.walk.completed) != [] && Lockstep(cfg, ls, run, t)
    requires Positions(cfg, ls, Done(cfg, run.found))
    requires Placed(cfg, ls, Done(cfg, run.found), Active(run.walk.completed), response.table)
    requires |response.table| == m * |Active(run.walk.completed)|
    requires WithinLimit(cfg, run)
    requires m >= 1
    ensures Interleaved(cfg, ls, AbsorbTable(cfg, run, response), t + m)
  {
    hide *;
    RunningRows(cfg, ls, run, t);
    var d, n := TableAdvances(cfg, ls, run, response, t, m);
    KeptInterleaved(cfg, ls, run, d, AbsorbTable(cfg, run, response), n, t, t + m);
  }

  // The agent's answer holds exactly `m` whole repetitions.
  ghost predicate AnswersWhole(mib: seq<Row>, request: Request, response: Response, m: nat) {
    && response.indication.None? && response.status == 0
    && 1 <= m <= request.maxRepetitions
    && response.table == Layout(mib, request, m)
  }

  ghost predicate AnswersSomeWhole(mib: seq<Row>, request: Request, response: Response) {
    exists m: nat :: AnswersWhole(mib, request, response, m)
  }

  // Every answer is whole, of any number of repetitions up to the number asked for.
  ghost predicate WholeFaithful(mib: seq<Row>, agent: Agent) {
    forall k: nat, request: Request ::
      request.oids != [] && request.maxRepetitions >= 1 ==> AnswersSomeWhole(mib, request, agent(k, request))
  }

  // Every answer has all the repetitions asked for.
  ghost predicate FullFaithful(mib: seq<Row>, agent: Agent) {
    forall k: nat, request: Request ::
      request.oids != [] && request.maxRepetitions >= 1 ==>
        AnswersWhole(mib, request, agent(k, request), request.maxRepetitions)
  }

  // Every answer has `cap` repetitions, or as many as were asked for when that is less.
  ghost predicate CappedFaithful(mib: seq<Row>, agent: Agent, cap: nat) {
    forall k: nat, request: Request ::
      request.oids != [] && request.maxRepetitions >= 1 ==>
        AnswersWhole(mib, request, agent(k, request), Min(cap, request.maxRepetitions))
  }

  // Answers are whole, and a request for `asked` repetitions brings `m` each time.
  ghost predicate SendsEachTime(mib: seq<Row>, agent: Agent, asked: int, m: nat) {
    && WholeFaithful(mib, agent) && m >= 1
    && forall k: nat, request: Request ::
         request.oids != [] && request.maxRepetitions == asked ==> AnswersWhole(mib, request, agent(k, request), m)
  }

  lemma WholeIsFaithful(mib: seq<Row>, agent: Agent)
    requires WholeFaithful(mib, agent)
    ensures Faithful(mib, agent)
  {
    forall k: nat, request: Request | request.oids != [] && request.maxRepetitions >= 1
      ensures Answers(mib, request, agent(k, request))
    {
      assert AnswersSomeWhole(mib, request, agent(k, request));
      var m: nat :| AnswersWhole(mib, request, agent(k, request), m);
    }
  }

  lemma FullSends(mib: seq<Row>, agent: Agent, asked: nat)
    requires FullFaithful(mib, agent) && asked >= 1
    ensures SendsEachTime(mib, agent, asked, asked)
  {
    hide AnswersWhole;
    forall k: nat, request: Request | request.oids != [] && request.maxRepetitions >= 1
      ensures AnswersSomeWhole(mib, request, agent(k, request))
    {
      var m: nat := request.maxRepetitions;
      assert AnswersWhole(mib, request, agent(k, request), m);
    }
  }

  lemma CappedSends(mib: seq<Row>, agent: Agent, cap: nat, asked: nat)
    requires CappedFaithful(mib, agent, cap) && cap >= 1 && asked >= 1
    ensures SendsEachTime(mib, agent, asked, Min(cap, asked))
  {
    hide AnswersWhole;
    forall k: nat, request: Request | request.oids != [] && request.maxRepetitions >= 1
      ensures AnswersSomeWhole(mib, request, agent(k, request))
    {
      var m: nat := Min(cap, request.maxRepetitions);
      assert AnswersWhole(mib, request, agent(k, request), m);
    }
  }

  lemma WholeIsClean(mib: seq<Row>, request: Request, response: Response, m: nat)
    requires AnswersWhole(mib, request, response, m)
    ensures m >= 1 && response.indication.None? && response.status == 0
  {
  }

  lemma AnswerPlaced(mib: seq<Row>, cfg: Config, run: Run, response: Response, m: nat)
    requires Sorted(mib) && cfg.nonRepeaters <= 0 && Fits(cfg, run.walk.completed, run.walk.last)
    requires Active(run.walk.completed) != [] && AllTracked(cfg, Listings(mib, cfg), run)
    requires AnswersWhole(mib, NextRequest(cfg, run.walk), response, m)
    ensures Positions(cfg, Listings(mib, cfg), Done(cfg, run.found))
    ensures Placed(cfg, Listings(mib, cfg), Done(cfg, run.found), Active(run.walk.completed), response.table)
    ensures |response.table| == m * |Active(run.walk.completed)| > 0
  {
    LaidOut(mib, cfg, run, m, response.table);
    WholeLength(mib, NextRequest(cfg, run.walk), m);
  }

  lemma AskedInterleaved(cfg: Config, ls: seq<seq<Row>>, run: Run, response: Response, t: nat, m: nat, next: Run)
    requires Fits(cfg, run.walk.completed, run.walk.last) && |ls| == |cfg.roots| && cfg.nonRepeaters <= 0 && m >= 1
    requires Active(run.walk.completed) != [] && WithinLimit(cfg, run) && Lockstep(cfg, ls, run, t)
    requires Positions(cfg, ls, Done(cfg, run.found))
    requires Placed(cfg, ls, Done(cfg, run.found), Active(run.walk.completed), response.table)
    requires |response.table| == m * |Active(run.walk.completed)|
    requires next == AbsorbTable(cfg, Sent(run), response)
    ensures Fits(cfg, next.walk.completed, next.walk.last) && Interleaved(cfg, ls, next, t + m)
  {
    hide Positions, Placed, Active, Rounds, InStep, Demux;
    TableInterleaved(cfg, ls, Sent(run), response, t, m);
  }

  // A waiting walk in lockstep whose reply is `m` whole repetitions.
  ghost predicate RepliesWhole(mib: seq<Row>, agent: Agent, cfg: Config, run: Run, t: nat, m: nat) {
    && Waits(cfg, Listings(mib, cfg), run) && Lockstep(cfg, Listings(mib, cfg), run, t)
    && AnswersWhole(mib, NextRequest(cfg, run.walk), Reply(agent, cfg, run), m)
  }

  lemma RepliesWholeIs(mib: seq<Row>, agent: Agent, cfg: Config, run: Run, t: nat, m: nat)
    requires RepliesWhole(mib, agent, cfg, run, t, m)
    ensures Waits(cfg, Listings(mib, cfg), run) && Fits(cfg, run.walk.completed, run.walk.last)
            && Active(run.walk.completed) != []
    ensures run.ending == Running && WithinLimit(cfg, run) && Lockstep(cfg, Listings(mib, cfg), run, t)
    ensures AnswersWhole(mib, NextRequest(cfg, run.walk), Reply(agent, cfg, run), m)
  {
    hide AnswersWhole, Lockstep, Refined, NextRequest, Listings;
  }

  // One request adds as many rounds as its answer has repetitions.
  lemma StepInterleaved(mib: seq<Row>, agent: Agent, cfg: Config, maxRepetitions: int, k: nat, t: nat, m: nat)
    requires Sorted(mib) && cfg.nonRepeaters <= 0
    requires RepliesWhole(mib, agent, cfg, After(agent, cfg, maxRepetitions, k), t, m)
    ensures Interleaved(cfg, Listings(mib, cfg), After(agent, cfg, maxRepetitions, k + 1), t + m)
  {
    hide *;
    var run, ls := After(agent, cfg, maxRepetitions, k), Listings(mib, cfg);
    RepliesWholeIs(mib, agent, cfg, run, t, m);
    WholeIsClean(mib, NextRequest(cfg, run.walk), Reply(agent, cfg, run), m);
    AskingTracked(cfg, ls, run);
    AskingInStep(cfg, ls, run, t);
    AnswerPlaced(mib, cfg, Asking(cfg, run), Reply(agent, cfg, run), m);
    AfterTable(agent, cfg, maxRepetitions, k);
    AskedInterleaved(cfg, ls, Asking(cfg, run), Reply(agent, cfg, run), t, m, After(agent, cfg, maxRepetitions, k + 1));
  }

  lemma AskingInStep(cfg: Config, ls: seq<seq<Row>>, run: Run, t: nat)
    requires Fits(cfg, run.walk.completed, run.walk.last) && |ls| == |cfg.roots|
    requires WithinLimit(cfg, run) && Lockstep(cfg, ls, run, t)
    ensures var asking := Asking(cfg, run);
            && asking.walk.completed == run.walk.completed && asking.walk.last == run.walk.last
            && asking.found == run.found && asking.requests == run.requests
            && WithinLimit(cfg, asking) && Lockstep(cfg, ls, asking, t)
  {
  }

  lemma WholeLength(mib: seq<Row>, request: Request, m: nat)
    requires request.nonRepeaters <= 0 && request.oids != [] && m >= 1
    ensures |Layout(mib, request, m)| == m * |request.oids| > 0
  {
    LayoutLength(mib, request, m);
    assert m * |request.oids| >= |request.oids|;
  }
}
