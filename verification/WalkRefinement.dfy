/** The walk against an agent that lays out its answers as RFC 3416 says, for
    any number of non-repeaters and for answers cut short anywhere: whatever is
    delivered for a root is the beginning of its listing. */
module WalkRefinement {
  import opened Mib
  import opened BulkWalk
  import opened WalkSafety
  import opened WireLayout

  // `response` answers `request` from `mib`: the beginning of the layout of some
  // number of repetitions, cut after any number of bindings but the first.
  ghost predicate AnswersInPart(mib: seq<Row>, request: Request, response: Response) {
    && response.indication.None? && response.status == 0 && response.table != []
    && exists m: nat :: 1 <= m <= request.maxRepetitions && response.table <= Layout(mib, request, m)
  }

  // The answer has at least one binding for every name asked for.
  ghost predicate Answers(mib: seq<Row>, request: Request, response: Response) {
    AnswersInPart(mib, request, response) && |response.table| >= |request.oids|
  }

  ghost predicate PartlyFaithful(mib: seq<Row>, agent: Agent) {
    forall k: nat, request: Request ::
      request.oids != [] && request.maxRepetitions >= 1 ==> AnswersInPart(mib, request, agent(k, request))
  }

  ghost predicate Faithful(mib: seq<Row>, agent: Agent) {
    forall k: nat, request: Request ::
      request.oids != [] && request.maxRepetitions >= 1 ==> Answers(mib, request, agent(k, request))
  }

  lemma FaithfulInPart(mib: seq<Row>, agent: Agent)
    requires Faithful(mib, agent)
    ensures PartlyFaithful(mib, agent)
  {
    hide AnswersInPart;
    forall k: nat, request: Request | request.oids != [] && request.maxRepetitions >= 1
      ensures AnswersInPart(mib, request, agent(k, request))
    {
      assert Answers(mib, request, agent(k, request));
    }
  }

  // The rows each root should deliver.
  function Listings(mib: seq<Row>, cfg: Config): (ls: seq<seq<Row>>)
    ensures |ls| == |cfg.roots|
  {
    seq(|cfg.roots|, i requires 0 <= i < |cfg.roots| => Listing(mib, cfg.roots[i], cfg.lexicographicMode))
  }

  // One position per root, each within its listing.
  ghost predicate Positions(cfg: Config, ls: seq<seq<Row>>, pos: seq<nat>) {
    |ls| == |pos| == |cfg.roots| && forall i :: 0 <= i < |pos| ==> pos[i] <= |ls[i]|
  }

  // `row` is row `i` of the root's listing, or a row that ends the root when `i` is its length.
  ghost predicate IsRow(cfg: Config, root: nat, rows: seq<Row>, i: nat, row: Row)
    requires root < |cfg.roots|
  {
    && (i < |rows| ==> row == rows[i] && row.val.Data? && InScope(cfg.roots[root], cfg.lexicographicMode, row.name))
    && (i == |rows| ==> row.val.Terminal() || !InScope(cfg.roots[root], cfg.lexicographicMode, row.name))
  }

  lemma {:induction false} ActiveIncreasing(completed: seq<bool>, j: nat, k: nat)
    requires j < k < |Active(completed)|
    ensures Active(completed)[j] < Active(completed)[k]
  {
    var n := |completed| - 1;
    if k < |Active(completed[..n])| {
      ActiveIncreasing(completed[..n], j, k);
    }
  }

  lemma {:induction false} ActiveSlot(completed: seq<bool>, root: nat) returns (slot: nat)
    requires root < |completed| && !completed[root]
    ensures slot < |Active(completed)| && Active(completed)[slot] == root
  {
    var n := |completed| - 1;
    if root == n {
      slot := |Active(completed)| - 1;
    } else {
      slot := ActiveSlot(completed[..n], root);
    }
  }

  lemma ActiveDistinct(completed: seq<bool>, j: nat, k: nat)
    requires j < |Active(completed)| && k < |Active(completed)| && j != k
    ensures Active(completed)[j] != Active(completed)[k]
  {
    if j < k {
      ActiveIncreasing(completed, j, k);
    } else {
      ActiveIncreasing(completed, k, j);
    }
  }

  // Binding `idx` is the next row, not yet seen, of the root it is credited to.
  ghost predicate PlacedAt(cfg: Config, ls: seq<seq<Row>>, pos: seq<nat>, active: seq<nat>, table: seq<Row>, idx: nat)
    requires Positions(cfg, ls, pos) && active != [] && idx < |table|
    requires forall j :: 0 <= j < |active| ==> active[j] < |cfg.roots|
  {
    var slot := Slot(cfg.nonRepeaters, |active|, idx);
    && slot.Some?
    && var root := active[slot.value];
       IsRow(cfg, root, ls[root], pos[root] + Seen(cfg.nonRepeaters, |active|, slot.value, idx), table[idx])
  }

  ghost predicate Placed(cfg: Config, ls: seq<seq<Row>>, pos: seq<nat>, active: seq<nat>, table: seq<Row>)
    requires Positions(cfg, ls, pos) && active != []
    requires forall j :: 0 <= j < |active| ==> active[j] < |cfg.roots|
  {
    forall idx :: 0 <= idx < |table| ==> PlacedAt(cfg, ls, pos, active, table, idx)
  }

  // What one root with these rows has become after `seen` of its bindings.
  ghost predicate Advanced(cfg: Config, root: nat, rows: seq<Row>, pos: nat, seen: nat, d: Demuxed)
    requires Fits(cfg, d.completed, d.last) && root < |cfg.roots| && pos <= |rows|
  {
    var end := Min(pos + seen, |rows|);
    && d.completed[root] == (pos + seen > |rows|)
    && d.last[root] == NameAt(cfg.roots[root], rows, end)
    && Project(d.found, root) == rows[pos..end]
  }

  lemma CreditOther(cfg: Config, d: Demuxed, root: nat, row: Row, other: nat)
    requires Fits(cfg, d.completed, d.last) && root < |cfg.roots| && other < |cfg.roots| && root != other
    ensures var d' := Credit(cfg, d, root, row);
            && d'.completed[other] == d.completed[other] && d'.last[other] == d.last[other]
            && Project(d'.found, other) == Project(d.found, other)
  {
    var f := Found(root, row);
    assert (d.found + [f])[..|d.found|] == d.found;
  }

  lemma CreditData(cfg: Config, root: nat, rows: seq<Row>, pos: nat, seen: nat, d: Demuxed, row: Row)
    requires Fits(cfg, d.completed, d.last) && root < |cfg.roots| && pos + seen < |rows|
    requires Advanced(cfg, root, rows, pos, seen, d)
    requires row == rows[pos + seen] && row.val.Data? && InScope(cfg.roots[root], cfg.lexicographicMode, row.name)
    ensures Advanced(cfg, root, rows, pos, seen + 1, Credit(cfg, d, root, row))
  {
    hide Project, InScope;
    ProjectNext(d.found, Found(root, row), root);
    assert rows[pos..pos + seen + 1] == rows[pos..pos + seen] + [row];
  }

  lemma ProjectNext(found: seq<Found>, f: Found, root: nat)
    ensures Project(found + [f], root) == Project(found, root) + if f.root == root then [f.row] else []
  {
    assert (found + [f])[..|found|] == found;
  }

  lemma CreditBeyond(cfg: Config, root: nat, rows: seq<Row>, pos: nat, seen: nat, d: Demuxed, row: Row)
    requires Fits(cfg, d.completed, d.last) && root < |cfg.roots| && pos <= |rows| <= pos + seen
    requires Advanced(cfg, root, rows, pos, seen, d)
    requires pos + seen == |rows| ==> row.val.Terminal() || !InScope(cfg.roots[root], cfg.lexicographicMode, row.name)
    ensures Advanced(cfg, root, rows, pos, seen + 1, Credit(cfg, d, root, row))
  {
    hide Project, InScope;
  }

  lemma RowIs(cfg: Config, root: nat, rows: seq<Row>, i: nat, row: Row)
    requires root < |cfg.roots| && IsRow(cfg, root, rows, i, row)
    ensures i < |rows| ==>
              row == rows[i] && row.val.Data? && InScope(cfg.roots[root], cfg.lexicographicMode, row.name)
    ensures i == |rows| ==> row.val.Terminal() || !InScope(cfg.roots[root], cfg.lexicographicMode, row.name)
  {
    hide InScope;
  }

  // The binding of a root's next successor moves it one row on, or completes it.
  lemma CreditOwn(cfg: Config, root: nat, rows: seq<Row>, pos: nat, seen: nat, d: Demuxed, row: Row)
    requires Fits(cfg, d.completed, d.last) && root < |cfg.roots| && pos <= |rows|
    requires Advanced(cfg, root, rows, pos, seen, d) && IsRow(cfg, root, rows, pos + seen, row)
    ensures Advanced(cfg, root, rows, pos, seen + 1, Credit(cfg, d, root, row))
  {
    hide Advanced, IsRow, InScope, Credit;
    RowIs(cfg, root, rows, pos + seen, row);
    if pos + seen < |rows| {
      CreditData(cfg, root, rows, pos, seen, d, row);
    } else {
      CreditBeyond(cfg, root, rows, pos, seen, d, row);
    }
  }

  lemma SlotStep(cfg: Config, ls: seq<seq<Row>>, pos: seq<nat>, active: seq<nat>, table: seq<Row>, idx: nat, slot: nat,
                 before: Demuxed)
    requires Positions(cfg, ls, pos) && Fits(cfg, before.completed, before.last) && idx < |table|
    requires slot < |active| && forall j :: 0 <= j < |active| ==> active[j] < |cfg.roots|
    requires forall j :: 0 <= j < |active| && j != slot ==> active[j] != active[slot]
    requires PlacedAt(cfg, ls, pos, active, table, idx)
    requires var root := active[slot];
             Advanced(cfg, root, ls[root], pos[root], Seen(cfg.nonRepeaters, |active|, slot, idx), before)
    ensures var root := active[slot];
            Advanced(cfg, root, ls[root], pos[root], Seen(cfg.nonRepeaters, |active|, slot, idx + 1),
                     Credit(cfg, before, active[Slot(cfg.nonRepeaters, |active|, idx).value], table[idx]))
  {
    hide Credit, NameAt, IsRow;
    var s, root := Slot(cfg.nonRepeaters, |active|, idx).value, active[slot];
    if s == slot {
      CreditOwn(cfg, root, ls[root], pos[root], Seen(cfg.nonRepeaters, |active|, slot, idx), before, table[idx]);
    } else {
      CreditOther(cfg, before, active[s], table[idx], root);
    }
  }

  // One root's share of a response.
  lemma {:induction false} SlotAdvances(cfg: Config, ls: seq<seq<Row>>, pos: seq<nat>, d: Demuxed, table: seq<Row>,
                                        n: nat, slot: nat)
    requires Positions(cfg, ls, pos) && Fits(cfg, d.completed, d.last) && d.found == [] && n <= |table|
    requires slot < |Active(d.completed)| && Placed(cfg, ls, pos, Active(d.completed), table)
    requires var root := Active(d.completed)[slot]; d.last[root] == NameAt(cfg.roots[root], ls[root], pos[root])
    ensures var active := Active(d.completed);
            var root := active[slot];
            Advanced(cfg, root, ls[root], pos[root], Seen(cfg.nonRepeaters, |active|, slot, n),
                     Demux(cfg, active, d, table, n))
  {
    hide Active, Demux, Slot, Seen, Advanced, Placed, PlacedAt, Positions, NameAt, Credit;
    var active := Active(d.completed);
    if n == 0 {
      SlotAtStart(cfg, ls, pos, d, table, slot);
    } else {
      SlotAdvances(cfg, ls, pos, d, table, n - 1, slot);
      NextCredited(cfg, ls, pos, active, d, table, n - 1);
      forall j | 0 <= j < |active| && j != slot
        ensures active[j] != active[slot]
      {
        ActiveDistinct(d.completed, j, slot);
      }
      SlotStep(cfg, ls, pos, active, table, n - 1, slot, Demux(cfg, active, d, table, n - 1));
    }
  }

  lemma SlotAtStart(cfg: Config, ls: seq<seq<Row>>, pos: seq<nat>, d: Demuxed, table: seq<Row>, slot: nat)
    requires Positions(cfg, ls, pos) && Fits(cfg, d.completed, d.last) && d.found == []
    requires slot < |Active(d.completed)|
    requires var root := Active(d.completed)[slot]; d.last[root] == NameAt(cfg.roots[root], ls[root], pos[root])
    ensures var active := Active(d.completed);
            var root := active[slot];
            Advanced(cfg, root, ls[root], pos[root], Seen(cfg.nonRepeaters, |active|, slot, 0),
                     Demux(cfg, active, d, table, 0))
  {
    hide Active, NameAt;
  }

  lemma NextCredited(cfg: Config, ls: seq<seq<Row>>, pos: seq<nat>, active: seq<nat>, d: Demuxed, table: seq<Row>,
                     n: nat)
    requires Positions(cfg, ls, pos) && Fits(cfg, d.completed, d.last) && active != [] && n < |table|
    requires forall j :: 0 <= j < |active| ==> active[j] < |cfg.roots|
    requires Placed(cfg, ls, pos, active, table)
    ensures PlacedAt(cfg, ls, pos, active, table, n) && Slot(cfg.nonRepeaters, |active|, n).Some?
    ensures Demux(cfg, active, d, table, n + 1) ==
              Credit(cfg, Demux(cfg, active, d, table, n), active[Slot(cfg.nonRepeaters, |active|, n).value], table[n])
  {
    hide Credit, Slot, IsRow, Seen;
    assert PlacedAt(cfg, ls, pos, active, table, n);
  }

  // A root that was completed takes no part.
  lemma {:induction false} CompletedUnchanged(cfg: Config, d: Demuxed, table: seq<Row>, n: nat, root: nat)
    requires Fits(cfg, d.completed, d.last) && d.found == [] && n <= |table| && Active(d.completed) != []
    requires root < |cfg.roots| && d.completed[root]
    ensures var d' := Demux(cfg, Active(d.completed), d, table, n);
            d'.completed[root] && d'.last[root] == d.last[root] && Project(d'.found, root) == []
  {
    if n > 0 {
      CompletedUnchanged(cfg, d, table, n - 1, root);
      var active := Active(d.completed);
      var slot := Slot(cfg.nonRepeaters, |active|, n - 1);
      if slot.Some? {
        CreditOther(cfg, Demux(cfg, active, d, table, n - 1), active[slot.value], table[n - 1], root);
      }
    }
  }

  // Every name asked for has a binding among the first |active| of the layout.
  lemma EverySlotSeen(nonRepeaters: int, numActive: nat, slot: nat, n: nat)
    requires slot < numActive <= n
    ensures Seen(nonRepeaters, numActive, slot, n) >= 1
  {
    var c := NonRepeaterCount(nonRepeaters, numActive);
    SeenClosedForm(nonRepeaters, numActive, slot, n);
  }

  // The invariant between requests: each root has delivered exactly its
  // listing up to its own position.
  ghost predicate RootTracked(cfg: Config, ls: seq<seq<Row>>, run: Run, root: nat)
    requires Fits(cfg, run.walk.completed, run.walk.last) && |ls| == |cfg.roots| && root < |cfg.roots|
  {
    var done := Project(run.found, root);
    && done <= ls[root]
    && run.walk.last[root] == NameAt(cfg.roots[root], ls[root], |done|)
    && (run.walk.completed[root] ==> done == ls[root])
  }

  ghost predicate AllTracked(cfg: Config, ls: seq<seq<Row>>, run: Run)
    requires Fits(cfg, run.walk.completed, run.walk.last) && |ls| == |cfg.roots|
  {
    forall root :: 0 <= root < |cfg.roots| ==> RootTracked(cfg, ls, run, root)
  }

  // How far each root has got.
  function Done(cfg: Config, found: seq<Found>): (pos: seq<nat>)
    ensures |pos| == |cfg.roots|
  {
    seq(|cfg.roots|, i requires 0 <= i < |cfg.roots| => |Project(found, i)|)
  }

  lemma DonePositions(cfg: Config, ls: seq<seq<Row>>, run: Run)
    requires Fits(cfg, run.walk.completed, run.walk.last) && |ls| == |cfg.roots| && AllTracked(cfg, ls, run)
    ensures Positions(cfg, ls, Done(cfg, run.found))
  {
    forall i | 0 <= i < |cfg.roots|
      ensures |Project(run.found, i)| <= |ls[i]|
    {
      assert RootTracked(cfg, ls, run, i);
    }
  }

  // A prefix of a layout for the names of the next request holds, binding by
  // binding, the next rows of the roots.
  lemma LaidOut(mib: seq<Row>, cfg: Config, run: Run, m: nat, table: seq<Row>)
    requires Sorted(mib) && Fits(cfg, run.walk.completed, run.walk.last) && Active(run.walk.completed) != []
    requires AllTracked(cfg, Listings(mib, cfg), run) && table <= Layout(mib, NextRequest(cfg, run.walk), m)
    ensures Positions(cfg, Listings(mib, cfg), Done(cfg, run.found))
    ensures Placed(cfg, Listings(mib, cfg), Done(cfg, run.found), Active(run.walk.completed), table)
  {
    hide Layout, NextRequest, Listings, AllTracked, Positions, PlacedAt;
    var ls := Listings(mib, cfg);
    DonePositions(cfg, ls, run);
    forall idx | 0 <= idx < |table|
      ensures PlacedAt(cfg, ls, Done(cfg, run.found), Active(run.walk.completed), table, idx)
    {
      BindingLaidOut(mib, cfg, run, m, table, idx);
    }
  }

  lemma BindingLaidOut(mib: seq<Row>, cfg: Config, run: Run, m: nat, table: seq<Row>, idx: nat)
    requires Sorted(mib) && Fits(cfg, run.walk.completed, run.walk.last) && Active(run.walk.completed) != []
    requires AllTracked(cfg, Listings(mib, cfg), run) && table <= Layout(mib, NextRequest(cfg, run.walk), m)
             && idx < |table|
    requires Positions(cfg, Listings(mib, cfg), Done(cfg, run.found))
    ensures PlacedAt(cfg, Listings(mib, cfg), Done(cfg, run.found), Active(run.walk.completed), table, idx)
  {
    hide Layout, Sorted, Seen, Slot;
    var request, active := NextRequest(cfg, run.walk), Active(run.walk.completed);
    DemultiplexingInvertsLayout(mib, request, m, idx);
    assert table[idx] == Layout(mib, request, m)[idx];
    var slot := Slot(cfg.nonRepeaters, |active|, idx).value;
    var root := active[slot];
    assert RootTracked(cfg, Listings(mib, cfg), run, root);
    SuccessorInListing(mib, cfg.roots[root], cfg.lexicographicMode, |Project(run.found, root)|,
                       Seen(cfg.nonRepeaters, |active|, slot, idx) + 1);
  }

  // The credits of a response, before the row limit is applied.
  function Credits(cfg: Config, run: Run, table: seq<Row>): (d: Demuxed)
    requires Fits(cfg, run.walk.completed, run.walk.last) && Active(run.walk.completed) != []
    ensures Fits(cfg, d.completed, d.last)
  {
    Demux(cfg, Active(run.walk.completed), Demuxed(run.walk.completed, run.walk.last, []), table, |table|)
  }

  // One root's part of a response, before the row limit is applied.
  ghost predicate Progressed(cfg: Config, ls: seq<seq<Row>>, run: Run, d: Demuxed, root: nat)
    requires Fits(cfg, d.completed, d.last) && |ls| == |cfg.roots| && root < |cfg.roots|
  {
    var done := Project(run.found, root) + Project(d.found, root);
    && done <= ls[root]
    && d.last[root] == NameAt(cfg.roots[root], ls[root], |done|)
    && (d.completed[root] ==> done == ls[root])
  }

  lemma ProgressedBy(cfg: Config, ls: seq<seq<Row>>, run: Run, d: Demuxed, root: nat, seen: nat)
    requires Fits(cfg, d.completed, d.last) && |ls| == |cfg.roots| && root < |cfg.roots|
    requires Project(run.found, root) <= ls[root]
    requires Advanced(cfg, root, ls[root], |Project(run.found, root)|, seen, d)
    ensures Progressed(cfg, ls, run, d, root)
    ensures !d.completed[root] ==>
            |Project(run.found, root)| + |Project(d.found, root)| == |Project(run.found, root)| + seen
  {
    hide Project, NameAt;
    var pos := |Project(run.found, root)|;
    assert Project(run.found, root) == ls[root][..pos];
  }

  // One root over one response. A root that stays unfinished has got one row
  // for every binding it was credited with, so at least one if every name
  // asked for had a binding.
  lemma RootOverTable(cfg: Config, ls: seq<seq<Row>>, run: Run, table: seq<Row>, root: nat)
    requires Fits(cfg, run.walk.completed, run.walk.last) && Active(run.walk.completed) != []
    requires root < |cfg.roots| == |ls| && Positions(cfg, ls, Done(cfg, run.found)) && RootTracked(cfg, ls, run, root)
    requires Placed(cfg, ls, Done(cfg, run.found), Active(run.walk.completed), table)
    ensures Progressed(cfg, ls, run, Credits(cfg, run, table), root)
    ensures |table| >= |Active(run.walk.completed)| && !Credits(cfg, run, table).completed[root] ==>
              !run.walk.completed[root] && Project(Credits(cfg, run, table).found, root) != []
  {
    hide Demux, Placed, Project, Active, Seen, Positions, Advanced, NameAt;
    var active, start := Active(run.walk.completed), Demuxed(run.walk.completed, run.walk.last, []);
    if run.walk.completed[root] {
      CompletedUnchanged(cfg, start, table, |table|, root);
      assert Project(run.found, root) + [] == Project(run.found, root);
    } else {
      var slot := ActiveSlot(run.walk.completed, root);
      SlotAdvances(cfg, ls, Done(cfg, run.found), start, table, |table|, slot);
      if |table| >= |active| {
        EverySlotSeen(cfg.nonRepeaters, |active|, slot, |table|);
      }
      ProgressedBy(cfg, ls, run, Credits(cfg, run, table), root, Seen(cfg.nonRepeaters, |active|, slot, |table|));
    }
  }

  lemma ProjectPrefix(found: seq<Found>, n: nat, root: nat)
    requires n <= |found|
    ensures Project(found[..n], root) <= Project(found, root)
  {
    ProjectConcat(found[..n], found[n..], root);
    assert found[..n] + found[n..] == found;
  }

  // The state of one root when the response has been dealt with.
  ghost predicate RootRefined(cfg: Config, ls: seq<seq<Row>>, run: Run, root: nat)
    requires Fits(cfg, run.walk.completed, run.walk.last) && |ls| == |cfg.roots| && root < |cfg.roots|
  {
    && Project(run.found, root) <= ls[root]
    && (run.ending == Running ==> RootTracked(cfg, ls, run, root))
    && (run.ending == AllCompleted ==> Project(run.found, root) == ls[root])
  }

  // What AbsorbTable does with the credits of a response: keep the first `n`.
  ghost predicate Keeps(cfg: Config, run: Run, d: Demuxed, run': Run, n: nat) {
    && Fits(cfg, d.completed, d.last)
    && run'.walk.completed == d.completed && run'.walk.last == d.last && run'.requests == run.requests
    && run'.walk.maxRepetitions == run.walk.maxRepetitions
    && n <= |d.found| && run'.found == run.found + d.found[..n]
    && (run'.ending == Running || run'.ending == AllCompleted || run'.ending == CallLimit ==> n == |d.found|)
    && (run'.ending == NothingValid <==> d.found == [])
    && (run'.ending == AllCompleted ==> forall i :: 0 <= i < |d.completed| ==> d.completed[i])
    && run'.ending !in {Failed, PduError, NoSuchName, EmptyTable, NoRoots}
    && (run'.ending == RowLimit || run'.ending == OverLimit ==> cfg.maxRows != 0)
    && (run'.ending == CallLimit ==> cfg.maxCalls != 0)
    && (run'.ending == RowLimit && run.walk.totalRows == |run.found| ==>
        |run'.found| == run'.walk.totalRows >= cfg.maxRows)
  }

  lemma TableKeeps(cfg: Config, run: Run, response: Response) returns (d: Demuxed, n: nat)
    requires Fits(cfg, run.walk.completed, run.walk.last) && Active(run.walk.completed) != []
    ensures var start := Demuxed(run.walk.completed, run.walk.last, []);
            d == Credits(cfg, run, response.table) ==
              Demux(cfg, Active(run.walk.completed), start, response.table, |response.table|)
    ensures Keeps(cfg, run, d, AbsorbTable(cfg, run, response), n)
  {
    hide Demux, Active;
    d := Credits(cfg, run, response.table);
    var run' := AbsorbTable(cfg, run, response);
    n := |run'.found| - |run.found|;
    if n == 0 {
      assert run.found + d.found[..0] == run.found;
    } else if n == |d.found| {
      assert d.found[..n] == d.found;
    }
  }

  lemma RefinedByCredits(cfg: Config, ls: seq<seq<Row>>, run: Run, d: Demuxed, run': Run, n: nat, root: nat)
    requires Keeps(cfg, run, d, run', n) && |ls| == |cfg.roots| && root < |cfg.roots|
    requires Progressed(cfg, ls, run, d, root)
    ensures RootRefined(cfg, ls, run', root)
  {
    hide Project, NameAt;
    ProjectConcat(run.found, d.found[..n], root);
    ProjectPrefix(d.found, n, root);
    if n == |d.found| {
      assert d.found[..n] == d.found;
    }
  }

  ghost predicate Refined(cfg: Config, ls: seq<seq<Row>>, run: Run)
    requires Fits(cfg, run.walk.completed, run.walk.last) && |ls| == |cfg.roots|
  {
    && (forall root :: 0 <= root < |cfg.roots| ==> RootRefined(cfg, ls, run, root))
    && (run.ending == Running ==> run.walk.maxRepetitions >= 1)
    && run.ending !in {Failed, PduError, NoSuchName, EmptyTable}
    && (run.ending == RowLimit || run.ending == OverLimit ==> cfg.maxRows != 0)
    && (run.ending == CallLimit ==> cfg.maxCalls != 0)
  }

  lemma TableRefined(cfg: Config, ls: seq<seq<Row>>, run: Run, response: Response, next: Run)
    requires Fits(cfg, run.walk.completed, run.walk.last) && Active(run.walk.completed) != [] && |ls| == |cfg.roots|
    requires run.walk.maxRepetitions >= 1 && AllTracked(cfg, ls, run)
    requires Positions(cfg, ls, Done(cfg, run.found))
    requires Placed(cfg, ls, Done(cfg, run.found), Active(run.walk.completed), response.table)
    requires next == AbsorbTable(cfg, Sent(run), response)
    ensures Fits(cfg, next.walk.completed, next.walk.last) && Refined(cfg, ls, next)
  {
    hide AbsorbTable, Positions, Placed, RootTracked, RootRefined, Demux, Active, Progressed;
    var d, n := TableKeeps(cfg, Sent(run), response);
    forall root | 0 <= root < |cfg.roots|
      ensures RootRefined(cfg, ls, next, root)
    {
      RootOverTable(cfg, ls, run, response.table, root);
      ProgressedSent(cfg, ls, run, d, root);
      RefinedByCredits(cfg, ls, Sent(run), d, next, n, root);
    }
  }

  // A run that has sent its request.
  function Sent(run: Run): Run {
    run.(requests := run.requests + 1)
  }

  lemma ProgressedSent(cfg: Config, ls: seq<seq<Row>>, run: Run, d: Demuxed, root: nat)
    requires Fits(cfg, d.completed, d.last) && |ls| == |cfg.roots| && root < |cfg.roots|
    ensures Progressed(cfg, ls, run, d, root) <==> Progressed(cfg, ls, Sent(run), d, root)
  {
  }

  // The state in which a request is sent, and what comes back for it.
  function Asking(cfg: Config, run: Run): Run {
    run.(walk := run.walk.(maxRepetitions := Repetitions(cfg, run.walk)))
  }

  // A running walk between two requests.
  ghost predicate Waits(cfg: Config, ls: seq<seq<Row>>, run: Run) {
    && Fits(cfg, run.walk.completed, run.walk.last) && |ls| == |cfg.roots| && Active(run.walk.completed) != []
    && run.ending == Running && Refined(cfg, ls, run) && WithinLimit(cfg, run)
  }

  lemma AskingTracked(cfg: Config, ls: seq<seq<Row>>, run: Run)
    requires Waits(cfg, ls, run)
    ensures Fits(cfg, run.walk.completed, run.walk.last) && |ls| == |cfg.roots| && Active(run.walk.completed) != []
    ensures AllTracked(cfg, ls, Asking(cfg, run))
    ensures Asking(cfg, run).walk.maxRepetitions >= 1 && NextRequest(cfg, run.walk).maxRepetitions >= 1
    ensures NextRequest(cfg, run.walk).oids != [] && |NextRequest(cfg, run.walk).oids| == |Active(run.walk.completed)|
    ensures NextRequest(cfg, Asking(cfg, run).walk) == NextRequest(cfg, run.walk)
  {
    hide Active, Project, NameAt;
    forall root | 0 <= root < |cfg.roots|
      ensures RootTracked(cfg, ls, Asking(cfg, run), root)
    {
      assert RootRefined(cfg, ls, run, root);
    }
  }

  lemma AskingKeeps(cfg: Config, run: Run)
    ensures Asking(cfg, run).walk.completed == run.walk.completed && Asking(cfg, run).walk.last == run.walk.last
    ensures Asking(cfg, run).found == run.found && Asking(cfg, run).requests == run.requests
  {
  }

  // The response to the next request of a run.
  function Reply(agent: Agent, cfg: Config, run: Run): Response
    requires Fits(cfg, run.walk.completed, run.walk.last)
  {
    agent(run.requests, NextRequest(cfg, run.walk))
  }

  // The loop on an answer that carries bindings.
  lemma AfterTable(agent: Agent, cfg: Config, maxRepetitions: int, k: nat)
    requires var run := After(agent, cfg, maxRepetitions, k);
             && run.ending == Running
             && var response := Reply(agent, cfg, run);
                response.indication.None? && response.status == 0 && response.table != []
    ensures var run := After(agent, cfg, maxRepetitions, k);
            After(agent, cfg, maxRepetitions, k + 1) == AbsorbTable(cfg, Sent(Asking(cfg, run)), Reply(agent, cfg, run))
  {
    hide After, AbsorbTable, Active;
    var run := After(agent, cfg, maxRepetitions, k);
    AfterAbsorbs(agent, cfg, maxRepetitions, k, Sent(Asking(cfg, run)), Reply(agent, cfg, run));
  }

  // What any partly faithful agent replies to a waiting run.
  lemma ReplyInPart(mib: seq<Row>, agent: Agent, cfg: Config, run: Run) returns (m: nat)
    requires PartlyFaithful(mib, agent) && Waits(cfg, Listings(mib, cfg), run)
    ensures Fits(cfg, run.walk.completed, run.walk.last)
    ensures AnswersInPart(mib, NextRequest(cfg, run.walk), Reply(agent, cfg, run))
    ensures var response := Reply(agent, cfg, run);
            && response.indication.None? && response.status == 0 && response.table != []
            && response.table <= Layout(mib, NextRequest(cfg, run.walk), m)
  {
    hide Waits, Layout, NextRequest, Listings;
    AskingTracked(cfg, Listings(mib, cfg), run);
    var request := NextRequest(cfg, run.walk);
    assert AnswersInPart(mib, request, agent(run.requests, request));
    m :| 1 <= m <= request.maxRepetitions && agent(run.requests, request).table <= Layout(mib, request, m);
  }

  // A response finds the next rows of the roots where they are credited.
  lemma ReplyPlaced(mib: seq<Row>, agent: Agent, cfg: Config, run: Run)
    requires Sorted(mib) && PartlyFaithful(mib, agent) && Waits(cfg, Listings(mib, cfg), run)
    ensures Fits(cfg, run.walk.completed, run.walk.last) && Active(run.walk.completed) != []
    ensures AllTracked(cfg, Listings(mib, cfg), Asking(cfg, run))
    ensures Positions(cfg, Listings(mib, cfg), Done(cfg, run.found))
    ensures Placed(cfg, Listings(mib, cfg), Done(cfg, run.found), Active(run.walk.completed),
                   Reply(agent, cfg, run).table)
  {
    hide *;
    AskingTracked(cfg, Listings(mib, cfg), run);
    var m := ReplyInPart(mib, agent, cfg, run);
    AskingKeeps(cfg, run);
    LaidOut(mib, cfg, Asking(cfg, run), m, Reply(agent, cfg, run).table);
  }

  lemma ReplyRefined(mib: seq<Row>, agent: Agent, cfg: Config, run: Run, next: Run)
    requires Sorted(mib) && PartlyFaithful(mib, agent) && Waits(cfg, Listings(mib, cfg), run)
    requires Fits(cfg, run.walk.completed, run.walk.last) && Active(run.walk.completed) != []
    requires next == AbsorbTable(cfg, Sent(Asking(cfg, run)), Reply(agent, cfg, run))
    ensures Fits(cfg, next.walk.completed, next.walk.last) && Refined(cfg, Listings(mib, cfg), next)
  {
    hide *;
    ReplyPlaced(mib, agent, cfg, run);
    AskingTracked(cfg, Listings(mib, cfg), run);
    AskingKeeps(cfg, run);
    TableRefined(cfg, Listings(mib, cfg), Asking(cfg, run), Reply(agent, cfg, run), next);
  }

  // A running walk that is refined waits.
  lemma RunningWaits(agent: Agent, cfg: Config, ls: seq<seq<Row>>, maxRepetitions: int, k: nat)
    requires |ls| == |cfg.roots| && Refined(cfg, ls, After(agent, cfg, maxRepetitions, k))
    requires After(agent, cfg, maxRepetitions, k).ending == Running
    ensures Waits(cfg, ls, After(agent, cfg, maxRepetitions, k))
  {
    hide After, Refined, WithinLimit;
    RunningWithinLimit(agent, cfg, maxRepetitions, k);
  }

  lemma NextRefined(mib: seq<Row>, agent: Agent, cfg: Config, maxRepetitions: int, k: nat)
    requires Sorted(mib) && PartlyFaithful(mib, agent)
    requires Refined(cfg, Listings(mib, cfg), After(agent, cfg, maxRepetitions, k))
    ensures Refined(cfg, Listings(mib, cfg), After(agent, cfg, maxRepetitions, k + 1))
  {
    hide *;
    if After(agent, cfg, maxRepetitions, k).ending == Running {
      RunningWaits(agent, cfg, Listings(mib, cfg), maxRepetitions, k);
      var _ := ReplyInPart(mib, agent, cfg, After(agent, cfg, maxRepetitions, k));
      AfterTable(agent, cfg, maxRepetitions, k);
      ReplyRefined(mib, agent, cfg, After(agent, cfg, maxRepetitions, k), After(agent, cfg, maxRepetitions, k + 1));
    } else {
      NothingAfterTheEnd(agent, cfg, maxRepetitions, k, k + 1);
    }
  }

  lemma StartRefined(agent: Agent, cfg: Config, ls: seq<seq<Row>>, maxRepetitions: int)
    requires maxRepetitions >= 1 && |ls| == |cfg.roots|
    ensures Refined(cfg, ls, After(agent, cfg, maxRepetitions, 0))
  {
  }

  // Every reachable state, whatever the responses were cut to.
  lemma {:induction false} AlwaysRefined(mib: seq<Row>, agent: Agent, cfg: Config, maxRepetitions: int, k: nat)
    requires Sorted(mib) && PartlyFaithful(mib, agent) && maxRepetitions >= 1
    ensures Refined(cfg, Listings(mib, cfg), After(agent, cfg, maxRepetitions, k))
  {
    hide *;
    if k == 0 {
      StartRefined(agent, cfg, Listings(mib, cfg), maxRepetitions);
    } else {
      AlwaysRefined(mib, agent, cfg, maxRepetitions, k - 1);
      NextRefined(mib, agent, cfg, maxRepetitions, k - 1);
    }
  }
}
