/** Termination and completeness: when a walk ends, what it costs at most, and
    exactly when it has delivered everything. */
module WalkCompleteness {
  import opened Wrappers
  import opened Mib
  import opened BulkWalk
  import opened WalkSafety
  import opened WireLayout
  import opened WalkRefinement

  // ---- Progress: unseen rows and unfinished roots ----

  function TotalRows(ls: seq<seq<Row>>): nat {
    if ls == [] then 0 else TotalRows(ls[..|ls| - 1]) + |ls[|ls| - 1]|
  }

  // The rows found, counted root by root.
  function CountByRoot(found: seq<Found>, n: nat): nat {
    if n == 0 then 0 else CountByRoot(found, n - 1) + |Project(found, n - 1)|
  }

  lemma {:induction false} CountOneMore(found: seq<Found>, f: Found, n: nat)
    ensures CountByRoot(found + [f], n) == CountByRoot(found, n) + if f.root < n then 1 else 0
  {
    if n > 0 {
      CountOneMore(found, f, n - 1);
      assert (found + [f])[..|found|] == found;
    }
  }

  lemma {:induction false} CountNothing(n: nat)
    ensures CountByRoot([], n) == 0
  {
    if n > 0 {
      CountNothing(n - 1);
    }
  }

  lemma {:induction false} CountIsAll(found: seq<Found>, n: nat)
    requires forall f :: f in found ==> f.root < n
    ensures CountByRoot(found, n) == |found|
  {
    hide CountByRoot;
    if found == [] {
      CountNothing(n);
    } else {
      var init, last := found[..|found| - 1], found[|found| - 1];
      CountIsAll(init, n);
      CountOneMore(init, last, n);
      assert found == init + [last];
    }
  }

  lemma {:induction false} CountWithin(found: seq<Found>, ls: seq<seq<Row>>)
    requires forall root :: 0 <= root < |ls| ==> Project(found, root) <= ls[root]
    ensures CountByRoot(found, |ls|) <= TotalRows(ls)
  {
    hide Project;
    if ls != [] {
      var n := |ls| - 1;
      CountWithin(found, ls[..n]);
      assert Project(found, n) <= ls[n];
    }
  }

  // What is left to do: rows not seen yet, and roots not finished.
  function Remaining(ls: seq<seq<Row>>, run: Run): int {
    TotalRows(ls) - |run.found| + |Active(run.walk.completed)|
  }

  lemma FoundWithin(mib: seq<Row>, agent: Agent, cfg: Config, maxRepetitions: int, k: nat)
    requires Sorted(mib) && PartlyFaithful(mib, agent) && maxRepetitions >= 1
    ensures |After(agent, cfg, maxRepetitions, k).found| <= TotalRows(Listings(mib, cfg))
  {
    hide After, Listings, PartlyFaithful, Sorted, Project, CountByRoot, TotalRows;
    var run, ls := After(agent, cfg, maxRepetitions, k), Listings(mib, cfg);
    AlwaysRefined(mib, agent, cfg, maxRepetitions, k);
    AlwaysSafe(agent, cfg, maxRepetitions, k);
    forall root | 0 <= root < |ls|
      ensures Project(run.found, root) <= ls[root]
    {
      assert RootRefined(cfg, ls, run, root);
    }
    forall f | f in run.found
      ensures f.root < |ls|
    {
      assert GoodCredit(cfg, f);
    }
    CountIsAll(run.found, |ls|);
    CountWithin(run.found, ls);
  }

  lemma {:induction false} ActiveShrinks(before: seq<bool>, after: seq<bool>)
    requires |before| == |after| && forall i :: 0 <= i < |before| && before[i] ==> after[i]
    ensures |Active(after)| <= |Active(before)|
  {
    if before != [] {
      ActiveShrinks(before[..|before| - 1], after[..|after| - 1]);
    }
  }

  lemma StepCredits(cfg: Config, run: Run, response: Response)
    requires Fits(cfg, run.walk.completed, run.walk.last) && Active(run.walk.completed) != []
    ensures var next := AbsorbTable(cfg, run, response);
            && |next.walk.completed| == |run.walk.completed|
                && |Active(next.walk.completed)| <= |Active(run.walk.completed)|
            && (next.ending == Running ==> |next.found| > |run.found|)
            && (next.ending == NothingValid ==> next.found == run.found)
  {
    var start := Demuxed(run.walk.completed, run.walk.last, []);
    DemuxIsSafe(cfg, Active(run.walk.completed), start, response.table, |response.table|);
    var d, _ := TableKeeps(cfg, run, response);
    hide Demux, Active;
    ActiveShrinks(run.walk.completed, d.completed);
  }

  // Every request of a walk that goes on leaves strictly less to do.
  lemma RemainingDecreases(mib: seq<Row>, agent: Agent, cfg: Config, maxRepetitions: int, k: nat)
    requires Sorted(mib) && PartlyFaithful(mib, agent) && maxRepetitions >= 1
    requires After(agent, cfg, maxRepetitions, k + 1).ending == Running
    ensures var ls := Listings(mib, cfg);
            && 0 <= Remaining(ls, After(agent, cfg, maxRepetitions, k + 1))
            && Remaining(ls, After(agent, cfg, maxRepetitions, k + 1)) <
                 Remaining(ls, After(agent, cfg, maxRepetitions, k))
    ensures |After(agent, cfg, maxRepetitions, k + 1).found| > |After(agent, cfg, maxRepetitions, k).found|
  {
    hide After, Listings, PartlyFaithful, Sorted, AbsorbTable, Active, TotalRows, Refined;
    var run, ls := After(agent, cfg, maxRepetitions, k), Listings(mib, cfg);
    if run.ending != Running {
      NothingAfterTheEnd(agent, cfg, maxRepetitions, k, k + 1);
    }
    AlwaysRefined(mib, agent, cfg, maxRepetitions, k);
    RunningWaits(agent, cfg, ls, maxRepetitions, k);
    var _ := ReplyInPart(mib, agent, cfg, run);
    AfterTable(agent, cfg, maxRepetitions, k);
    AskingKeeps(cfg, run);
    StepCredits(cfg, Sent(Asking(cfg, run)), Reply(agent, cfg, run));
    FoundWithin(mib, agent, cfg, maxRepetitions, k + 1);
  }

  lemma {:induction false} RunningDelivers(mib: seq<Row>, agent: Agent, cfg: Config, maxRepetitions: int, k: nat)
    requires Sorted(mib) && PartlyFaithful(mib, agent) && maxRepetitions >= 1
    requires After(agent, cfg, maxRepetitions, k).ending == Running
    ensures k <= |After(agent, cfg, maxRepetitions, k).found|
  {
    hide *;
    if k > 0 {
      if After(agent, cfg, maxRepetitions, k - 1).ending != Running {
        NothingAfterTheEnd(agent, cfg, maxRepetitions, k - 1, k);
      }
      RunningDelivers(mib, agent, cfg, maxRepetitions, k - 1);
      RemainingDecreases(mib, agent, cfg, maxRepetitions, k - 1);
    }
  }

  // However its answers are cut, a walk ends within one request more than there
  // are rows to deliver.
  lemma CutWalkEnds(mib: seq<Row>, agent: Agent, cfg: Config, maxRepetitions: int, k: nat)
    requires Sorted(mib) && PartlyFaithful(mib, agent) && maxRepetitions >= 1 && k > TotalRows(Listings(mib, cfg))
    ensures After(agent, cfg, maxRepetitions, k).ending != Running
  {
    hide *;
    if After(agent, cfg, maxRepetitions, k).ending == Running {
      RunningDelivers(mib, agent, cfg, maxRepetitions, k);
      FoundWithin(mib, agent, cfg, maxRepetitions, k);
    }
  }

  // ---- Pace: with a binding for every name asked for, every root moves ----

  ghost predicate Paced(run: Run) {
    run.ending == Running ==>
      forall root :: 0 <= root < |run.walk.completed| && !run.walk.completed[root] ==>
          |Project(run.found, root)| >= run.requests
  }

  lemma PacedOver(mib: seq<Row>, agent: Agent, cfg: Config, run: Run, next: Run)
    requires Sorted(mib) && Faithful(mib, agent) && Waits(cfg, Listings(mib, cfg), run) && Paced(run)
    requires Fits(cfg, run.walk.completed, run.walk.last) && Active(run.walk.completed) != []
    requires next == AbsorbTable(cfg, Sent(Asking(cfg, run)), Reply(agent, cfg, run))
    ensures Paced(next)
  {
    hide Listings, Sorted, AbsorbTable, Active, Project, Refined, Placed, Positions, Demux, NextRequest;
    var ls, asking, table := Listings(mib, cfg), Asking(cfg, run), Reply(agent, cfg, run).table;
    FaithfulInPart(mib, agent);
    ReplyPlaced(mib, agent, cfg, run);
    AskingTracked(cfg, ls, run);
    AskingKeeps(cfg, run);
    ReplyIsFull(mib, agent, cfg, run);
    var d, n := TableKeeps(cfg, Sent(asking), Reply(agent, cfg, run));
    forall root | next.ending == Running && 0 <= root < |next.walk.completed| && !next.walk.completed[root]
      ensures |Project(next.found, root)| >= next.requests
    {
      assert RootTracked(cfg, ls, asking, root);
      RootOverTable(cfg, ls, asking, table, root);
      ProjectConcat(run.found, d.found, root);
      assert d.found[..n] == d.found && next.found == run.found + d.found;
      assert !run.walk.completed[root] && |Project(run.found, root)| >= run.requests;
      assert |Project(d.found, root)| >= 1 && next.requests == run.requests + 1;
    }
  }

  lemma ReplyIsFull(mib: seq<Row>, agent: Agent, cfg: Config, run: Run)
    requires Faithful(mib, agent) && Waits(cfg, Listings(mib, cfg), run)
    ensures Fits(cfg, run.walk.completed, run.walk.last)
    ensures |Reply(agent, cfg, run).table| >= |Active(run.walk.completed)|
  {
    hide Waits, NextRequest, Listings, AnswersInPart;
    AskingTracked(cfg, Listings(mib, cfg), run);
    var request := NextRequest(cfg, run.walk);
    assert Answers(mib, request, agent(run.requests, request));
  }

  lemma StartPaced(agent: Agent, cfg: Config, maxRepetitions: int)
    ensures Paced(After(agent, cfg, maxRepetitions, 0))
  {
  }

  lemma EndedPaced(run: Run)
    requires run.ending != Running
    ensures Paced(run)
  {
  }

  lemma {:induction false} AlwaysPaced(mib: seq<Row>, agent: Agent, cfg: Config, maxRepetitions: int, k: nat)
    requires Sorted(mib) && Faithful(mib, agent) && maxRepetitions >= 1
    ensures Paced(After(agent, cfg, maxRepetitions, k))
  {
    hide *;
    FaithfulInPart(mib, agent);
    if k == 0 {
      StartPaced(agent, cfg, maxRepetitions);
    } else if After(agent, cfg, maxRepetitions, k - 1).ending != Running {
      NothingAfterTheEnd(agent, cfg, maxRepetitions, k - 1, k);
      EndedPaced(After(agent, cfg, maxRepetitions, k));
    } else {
      var run := After(agent, cfg, maxRepetitions, k - 1);
      AlwaysPaced(mib, agent, cfg, maxRepetitions, k - 1);
      AlwaysRefined(mib, agent, cfg, maxRepetitions, k - 1);
      RunningWaits(agent, cfg, Listings(mib, cfg), maxRepetitions, k - 1);
      var _ := ReplyInPart(mib, agent, cfg, run);
      AfterTable(agent, cfg, maxRepetitions, k - 1);
      PacedOver(mib, agent, cfg, run, After(agent, cfg, maxRepetitions, k));
    }
  }

  // A walk that goes on has not yet sent more requests than any of its
  // unfinished roots has rows.
  lemma RunningIsEarly(mib: seq<Row>, agent: Agent, cfg: Config, maxRepetitions: int, k: nat, root: nat)
    requires Sorted(mib) && Faithful(mib, agent) && maxRepetitions >= 1 && root < |cfg.roots|
    requires var run := After(agent, cfg, maxRepetitions, k); run.ending == Running && !run.walk.completed[root]
    ensures k <= |Listings(mib, cfg)[root]|
  {
    hide After, Listings, Sorted, Faithful, Project;
    var run := After(agent, cfg, maxRepetitions, k);
    FaithfulInPart(mib, agent);
    AlwaysRefined(mib, agent, cfg, maxRepetitions, k);
    AlwaysPaced(mib, agent, cfg, maxRepetitions, k);
    RequestsCounted(agent, cfg, maxRepetitions, k);
    assert RootRefined(cfg, Listings(mib, cfg), run, root);
  }

  // Every request moves or completes every unfinished root, so a walk ends
  // within one request more than its longest listing, whatever its limits.
  lemma WalkEndsByLongest(mib: seq<Row>, agent: Agent, cfg: Config, maxRepetitions: int, k: nat)
    requires Sorted(mib) && Faithful(mib, agent) && maxRepetitions >= 1
    requires forall root :: 0 <= root < |cfg.roots| ==> |Listings(mib, cfg)[root]| < k
    ensures After(agent, cfg, maxRepetitions, k).ending != Running
  {
    hide After, Listings, Sorted, Faithful, Active;
    var run := After(agent, cfg, maxRepetitions, k);
    if run.ending == Running {
      RunningIsEarly(mib, agent, cfg, maxRepetitions, k, Active(run.walk.completed)[0]);
    }
  }

  lemma WalkEnds(mib: seq<Row>, agent: Agent, cfg: Config, maxRepetitions: int, k: nat)
    requires Sorted(mib) && Faithful(mib, agent) && maxRepetitions >= 1 && k > |mib|
    ensures After(agent, cfg, maxRepetitions, k).ending != Running
  {
    hide After, Sorted, Faithful;
    forall root | 0 <= root < |cfg.roots|
      ensures |Listings(mib, cfg)[root]| < k
    {
      assert |Listing(mib, cfg.roots[root], cfg.lexicographicMode)| <= |mib|;
    }
    WalkEndsByLongest(mib, agent, cfg, maxRepetitions, k);
  }

  // ---- The stop rule, and whole runs ----

  // A root is exhausted when it has delivered its whole listing, completed or not.
  ghost predicate Exhausted(ls: seq<seq<Row>>, run: Run, root: nat)
    requires root < |ls|
  {
    |Project(run.found, root)| >= |ls[root]|
  }

  lemma SlotUnseen(nonRepeaters: int, numActive: nat, slot: nat, n: nat)
    requires n <= slot < numActive
    ensures Seen(nonRepeaters, numActive, slot, n) == 0
  {
    var c := NonRepeaterCount(nonRepeaters, numActive);
    SeenClosedForm(nonRepeaters, numActive, slot, n);
    if n > c {
      DivModUnique(0, numActive - c, n - c);
    }
  }

  lemma SlotSeen(nonRepeaters: int, numActive: nat, slot: nat, n: nat)
    requires slot < n && slot < numActive
    ensures Seen(nonRepeaters, numActive, slot, n) >= 1
  {
    var c := NonRepeaterCount(nonRepeaters, numActive);
    SeenClosedForm(nonRepeaters, numActive, slot, n);
    if slot >= c && n < numActive {
      DivModUnique(0, numActive - c, n - c);
    } else if slot >= c {
      EverySlotSeen(nonRepeaters, numActive, slot, n);
    }
  }

  lemma {:induction false} ProjectPresent(found: seq<Found>, f: Found)
    requires f in found
    ensures Project(found, f.root) != []
  {
    var n := |found| - 1;
    if f != found[n] {
      assert f in found[..n];
      ProjectPresent(found[..n], f);
    }
  }

  // Which of one root's rows a response of any length brings.
  lemma SlotBrings(cfg: Config, ls: seq<seq<Row>>, run: Run, table: seq<Row>, slot: nat)
    requires Fits(cfg, run.walk.completed, run.walk.last) && |ls| == |cfg.roots|
    requires slot < |Active(run.walk.completed)|
    requires AllTracked(cfg, ls, run) && Positions(cfg, ls, Done(cfg, run.found))
    requires Placed(cfg, ls, Done(cfg, run.found), Active(run.walk.completed), table)
    ensures Project(Credits(cfg, run, table).found, Active(run.walk.completed)[slot]) == []
            <==> slot >= |table| || Exhausted(ls, run, Active(run.walk.completed)[slot])
  {
    hide Demux, Active, Seen, Placed, Positions, NameAt, Project;
    var active := Active(run.walk.completed);
    var root, start := active[slot], Demuxed(run.walk.completed, run.walk.last, []);
    assert RootTracked(cfg, ls, run, root);
    SlotAdvances(cfg, ls, Done(cfg, run.found), start, table, |table|, slot);
    if slot < |table| {
      SlotSeen(cfg.nonRepeaters, |active|, slot, |table|);
    } else {
      SlotUnseen(cfg.nonRepeaters, |active|, slot, |table|);
    }
  }

  ghost predicate BoundRootsExhausted(ls: seq<seq<Row>>, run: Run, active: seq<nat>, bindings: nat)
    requires forall j :: 0 <= j < |active| ==> active[j] < |ls|
  {
    forall slot :: 0 <= slot < |active| && slot < bindings ==> Exhausted(ls, run, active[slot])
  }

  // The stop rule, for a response cut after any number of bindings: the walk
  // takes it for the end exactly when every root that did get a binding is
  // exhausted.
  lemma StopsExactlyWhen(cfg: Config, ls: seq<seq<Row>>, run: Run, response: Response)
    requires Fits(cfg, run.walk.completed, run.walk.last) && Active(run.walk.completed) != [] && |ls| == |cfg.roots|
    requires AllTracked(cfg, ls, run) && Positions(cfg, ls, Done(cfg, run.found))
    requires Placed(cfg, ls, Done(cfg, run.found), Active(run.walk.completed), response.table)
    ensures AbsorbTable(cfg, run, response).ending == NothingValid <==>
              BoundRootsExhausted(ls, run, Active(run.walk.completed), |response.table|)
  {
    hide Demux, Active, Placed, Positions, AbsorbTable, Exhausted, AllTracked;
    var active, start := Active(run.walk.completed), Demuxed(run.walk.completed, run.walk.last, []);
    var d, _ := TableKeeps(cfg, run, response);
    if d.found == [] {
      forall slot | 0 <= slot < |active| && slot < |response.table|
        ensures Exhausted(ls, run, active[slot])
      {
        SlotBrings(cfg, ls, run, response.table, slot);
      }
    } else {
      var f := d.found[0];
      DemuxIsSafe(cfg, active, start, response.table, |response.table|);
      ProjectPresent(d.found, f);
      var slot := ActiveSlot(run.walk.completed, f.root);
      SlotBrings(cfg, ls, run, response.table, slot);
    }
  }

  // Request `j` came back with bindings for exhausted roots only, while a root
  // that got none still had rows.
  ghost predicate LosesRootAt(mib: seq<Row>, agent: Agent, cfg: Config, maxRepetitions: int, j: nat) {
    LosesRoot(Listings(mib, cfg), agent, cfg, After(agent, cfg, maxRepetitions, j))
  }

  ghost predicate LosesRoot(ls: seq<seq<Row>>, agent: Agent, cfg: Config, run: Run)
    requires Fits(cfg, run.walk.completed, run.walk.last) && |ls| == |cfg.roots|
  {
    var active, bindings := Active(run.walk.completed), |Reply(agent, cfg, run).table|;
    && run.ending == Running && BoundRootsExhausted(ls, run, active, bindings)
    && exists slot :: bindings <= slot < |active| && !Exhausted(ls, run, active[slot])
  }

  // What the stop rule means in a run.
  lemma StopInRun(mib: seq<Row>, agent: Agent, cfg: Config, maxRepetitions: int, k: nat)
    requires Sorted(mib) && PartlyFaithful(mib, agent) && maxRepetitions >= 1
    requires After(agent, cfg, maxRepetitions, k).ending == Running
    ensures var run, next := After(agent, cfg, maxRepetitions, k), After(agent, cfg, maxRepetitions, k + 1);
            && (next.ending == NothingValid <==>
                  BoundRootsExhausted(Listings(mib, cfg), run, Active(run.walk.completed),
                                      |Reply(agent, cfg, run).table|))
            && (next.ending == NothingValid ==> next.found == run.found)
            && AllTracked(cfg, Listings(mib, cfg), run)
  {
    hide *;
    var run, ls := After(agent, cfg, maxRepetitions, k), Listings(mib, cfg);
    AlwaysRefined(mib, agent, cfg, maxRepetitions, k);
    RunningWaits(agent, cfg, ls, maxRepetitions, k);
    var _ := ReplyInPart(mib, agent, cfg, run);
    AfterTable(agent, cfg, maxRepetitions, k);
    ReplyPlaced(mib, agent, cfg, run);
    StopInReply(cfg, ls, run, Reply(agent, cfg, run), After(agent, cfg, maxRepetitions, k + 1));
  }

  lemma StopInReply(cfg: Config, ls: seq<seq<Row>>, run: Run, response: Response, next: Run)
    requires Fits(cfg, run.walk.completed, run.walk.last) && Active(run.walk.completed) != [] && |ls| == |cfg.roots|
    requires AllTracked(cfg, ls, Asking(cfg, run)) && Positions(cfg, ls, Done(cfg, run.found))
    requires Placed(cfg, ls, Done(cfg, run.found), Active(run.walk.completed), response.table)
    requires next == AbsorbTable(cfg, Sent(Asking(cfg, run)), response)
    ensures next.ending == NothingValid <==> BoundRootsExhausted(ls, run, Active(run.walk.completed), |response.table|)
    ensures next.ending == NothingValid ==> next.found == run.found
    ensures AllTracked(cfg, ls, run)
  {
    hide Active, Placed, Positions, AbsorbTable, Project, NameAt;
    AskingKeeps(cfg, run);
    TrackedAlike(cfg, ls, Asking(cfg, run), run);
    TrackedAlike(cfg, ls, Asking(cfg, run), Sent(Asking(cfg, run)));
    StopsExactlyWhen(cfg, ls, Sent(Asking(cfg, run)), response);
    StepCredits(cfg, Sent(Asking(cfg, run)), response);
    assert forall root :: 0 <= root < |ls| ==>
           (Exhausted(ls, run, root) <==> Exhausted(ls, Sent(Asking(cfg, run)), root));
  }

  lemma TrackedAlike(cfg: Config, ls: seq<seq<Row>>, a: Run, b: Run)
    requires Fits(cfg, a.walk.completed, a.walk.last) && |ls| == |cfg.roots| && AllTracked(cfg, ls, a)
    requires a.walk.completed == b.walk.completed && a.walk.last == b.walk.last && a.found == b.found
    ensures AllTracked(cfg, ls, b)
  {
    hide Project, NameAt;
    forall root | 0 <= root < |cfg.roots|
      ensures RootTracked(cfg, ls, b, root)
    {
      assert RootTracked(cfg, ls, a, root);
    }
  }

  ghost predicate Complete(ls: seq<seq<Row>>, run: Run) {
    forall root :: 0 <= root < |ls| ==> Project(run.found, root) == ls[root]
  }

  // The last request of a run that has ended.
  lemma {:induction false} LastRequest(agent: Agent, cfg: Config, maxRepetitions: int, k: nat) returns (j: nat)
    requires cfg.roots != [] && After(agent, cfg, maxRepetitions, k).ending != Running
    ensures j < k && After(agent, cfg, maxRepetitions, j).ending == Running
    ensures After(agent, cfg, maxRepetitions, j + 1) == After(agent, cfg, maxRepetitions, k)
  {
    hide *;
    StartRuns(agent, cfg, maxRepetitions);
    j := k - 1;
    if After(agent, cfg, maxRepetitions, j).ending != Running {
      NothingAfterTheEnd(agent, cfg, maxRepetitions, j, k);
      j := LastRequest(agent, cfg, maxRepetitions, j);
    }
  }

  // A request that loses a root is the last one.
  lemma LosingIsLast(mib: seq<Row>, agent: Agent, cfg: Config, maxRepetitions: int, i: nat, j: nat)
    requires Sorted(mib) && PartlyFaithful(mib, agent) && maxRepetitions >= 1
    requires LosesRootAt(mib, agent, cfg, maxRepetitions, i)
    requires After(agent, cfg, maxRepetitions, j).ending == Running
             && After(agent, cfg, maxRepetitions, j + 1).ending != Running
    ensures i == j && After(agent, cfg, maxRepetitions, j + 1).ending == NothingValid
  {
    hide *;
    LosesIs(mib, agent, cfg, maxRepetitions, i);
    StopInRun(mib, agent, cfg, maxRepetitions, i);
    if i < j {
      NothingAfterTheEnd(agent, cfg, maxRepetitions, i + 1, j);
    } else if j < i {
      NothingAfterTheEnd(agent, cfg, maxRepetitions, j + 1, i);
    }
  }

  lemma LosesIs(mib: seq<Row>, agent: Agent, cfg: Config, maxRepetitions: int, j: nat)
    requires LosesRootAt(mib, agent, cfg, maxRepetitions, j)
    ensures var run := After(agent, cfg, maxRepetitions, j);
            run.ending == Running
            && BoundRootsExhausted(Listings(mib, cfg), run, Active(run.walk.completed), |Reply(agent, cfg, run).table|)
  {
    hide After, Listings, BoundRootsExhausted;
  }

  // Of a state whose finished roots are complete: it is complete exactly when
  // no unfinished root has rows left.
  lemma CompleteIffExhausted(cfg: Config, ls: seq<seq<Row>>, run: Run, agent: Agent)
    requires Fits(cfg, run.walk.completed, run.walk.last) && |ls| == |cfg.roots| && AllTracked(cfg, ls, run)
    requires run.ending == Running
    requires BoundRootsExhausted(ls, run, Active(run.walk.completed), |Reply(agent, cfg, run).table|)
    ensures Complete(ls, run) <==> !LosesRoot(ls, agent, cfg, run)
  {
    hide Active, Project, NameAt;
    var active := Active(run.walk.completed);
    if !LosesRoot(ls, agent, cfg, run) {
      forall root | 0 <= root < |ls|
        ensures Project(run.found, root) == ls[root]
      {
        assert RootTracked(cfg, ls, run, root);
        if !run.walk.completed[root] {
          var slot := ActiveSlot(run.walk.completed, root);
          assert Exhausted(ls, run, active[slot]);
        }
      }
    }
  }

  // Whole runs without limits, against any agent that lays out its answers as
  // it should and cuts them where it likes: every root has delivered its whole
  // listing exactly when no request lost a root.
  lemma CompleteExactly(mib: seq<Row>, agent: Agent, cfg: Config, maxRepetitions: int, k: nat)
    requires Sorted(mib) && PartlyFaithful(mib, agent) && maxRepetitions >= 1
    requires cfg.maxRows == 0 && cfg.maxCalls == 0 && After(agent, cfg, maxRepetitions, k).ending != Running
    ensures Complete(Listings(mib, cfg), After(agent, cfg, maxRepetitions, k))
            <==> forall j :: 0 <= j < k ==> !LosesRootAt(mib, agent, cfg, maxRepetitions, j)
  {
    hide *;
    if cfg.roots == [] {
      NoRootsComplete(mib, agent, cfg, maxRepetitions, k);
    } else {
      var j := LastRequest(agent, cfg, maxRepetitions, k);
      forall i | 0 <= i < k && LosesRootAt(mib, agent, cfg, maxRepetitions, i)
        ensures i == j
      {
        LosingIsLast(mib, agent, cfg, maxRepetitions, i, j);
      }
      CompleteAtLast(mib, agent, cfg, maxRepetitions, j);
    }
  }

  lemma NoRootsComplete(mib: seq<Row>, agent: Agent, cfg: Config, maxRepetitions: int, k: nat)
    requires cfg.roots == []
    ensures Complete(Listings(mib, cfg), After(agent, cfg, maxRepetitions, k))
    ensures forall j :: 0 <= j < k ==> !LosesRootAt(mib, agent, cfg, maxRepetitions, j)
  {
    hide After, BoundRootsExhausted;
    StartRuns(agent, cfg, maxRepetitions);
    forall j | 0 <= j < k
      ensures !LosesRootAt(mib, agent, cfg, maxRepetitions, j)
    {
      NothingAfterTheEnd(agent, cfg, maxRepetitions, 0, j);
    }
  }

  lemma CompleteAtLast(mib: seq<Row>, agent: Agent, cfg: Config, maxRepetitions: int, j: nat)
    requires Sorted(mib) && PartlyFaithful(mib, agent) && maxRepetitions >= 1 && cfg.maxRows == 0 && cfg.maxCalls == 0
    requires After(agent, cfg, maxRepetitions, j).ending == Running
             && After(agent, cfg, maxRepetitions, j + 1).ending != Running
    ensures Complete(Listings(mib, cfg), After(agent, cfg, maxRepetitions, j + 1)) <==>
            !LosesRootAt(mib, agent, cfg, maxRepetitions, j)
  {
    hide After, Listings, PartlyFaithful, Sorted, LosesRoot, BoundRootsExhausted, AllTracked;
    var run, next, ls := After(agent, cfg, maxRepetitions, j), After(agent, cfg, maxRepetitions, j + 1),
        Listings(mib, cfg);
    StopInRun(mib, agent, cfg, maxRepetitions, j);
    if next.ending == NothingValid {
      CompleteIffExhausted(cfg, ls, run, agent);
    } else {
      if LosesRootAt(mib, agent, cfg, maxRepetitions, j) {
        LosingIsLast(mib, agent, cfg, maxRepetitions, j, j);
      }
      AlwaysRefined(mib, agent, cfg, maxRepetitions, j + 1);
      EndedComplete(agent, cfg, ls, maxRepetitions, j + 1);
    }
  }

  lemma EndedComplete(agent: Agent, cfg: Config, ls: seq<seq<Row>>, maxRepetitions: int, k: nat)
    requires cfg.maxRows == 0 && cfg.maxCalls == 0 && cfg.roots != [] && |ls| == |cfg.roots|
    requires Refined(cfg, ls, After(agent, cfg, maxRepetitions, k))
    requires After(agent, cfg, maxRepetitions, k).ending !in {Running, NothingValid}
    ensures Complete(ls, After(agent, cfg, maxRepetitions, k))
  {
    hide After, Project;
    var run := After(agent, cfg, maxRepetitions, k);
    AlwaysSafe(agent, cfg, maxRepetitions, k);
    assert run.ending == AllCompleted;
    forall root | 0 <= root < |ls|
      ensures Project(run.found, root) == ls[root]
    {
      assert RootRefined(cfg, ls, run, root);
    }
  }

  // An agent that answers for every name asked for never loses a root.
  lemma FaithfulLosesNothing(mib: seq<Row>, agent: Agent, cfg: Config, maxRepetitions: int, j: nat)
    requires Sorted(mib) && Faithful(mib, agent) && maxRepetitions >= 1
    ensures !LosesRootAt(mib, agent, cfg, maxRepetitions, j)
  {
    hide After, Listings, Sorted, Faithful, BoundRootsExhausted, Refined;
    if After(agent, cfg, maxRepetitions, j).ending == Running {
      FaithfulInPart(mib, agent);
      AlwaysRefined(mib, agent, cfg, maxRepetitions, j);
      RunningWaits(agent, cfg, Listings(mib, cfg), maxRepetitions, j);
      ReplyIsFull(mib, agent, cfg, After(agent, cfg, maxRepetitions, j));
    }
  }

  // So without limits every root delivers exactly its listing, in order, for
  // any number of non-repeaters and any `maxRepetitions`.
  lemma EachRootIsComplete(mib: seq<Row>, agent: Agent, cfg: Config, maxRepetitions: int, k: nat, root: nat)
    requires Sorted(mib) && Faithful(mib, agent) && maxRepetitions >= 1 && k > |mib|
    requires cfg.maxRows == 0 && cfg.maxCalls == 0 && root < |cfg.roots|
    ensures var run := After(agent, cfg, maxRepetitions, k);
            && Project(run.found, root) == Listing(mib, cfg.roots[root], cfg.lexicographicMode)
            && Delivered(run.emitted) == Rows(run.found)
  {
    hide After, Sorted, Faithful, PartlyFaithful, LosesRootAt, Refined, Listing, Project;
    WalkEnds(mib, agent, cfg, maxRepetitions, k);
    FaithfulInPart(mib, agent);
    AlwaysSafe(agent, cfg, maxRepetitions, k);
    AlwaysRefined(mib, agent, cfg, maxRepetitions, k);
    RefinedEnding(cfg, Listings(mib, cfg), After(agent, cfg, maxRepetitions, k));
    forall j | 0 <= j < k
      ensures !LosesRootAt(mib, agent, cfg, maxRepetitions, j)
    {
      FaithfulLosesNothing(mib, agent, cfg, maxRepetitions, j);
    }
    CompleteExactly(mib, agent, cfg, maxRepetitions, k);
    assert Listings(mib, cfg)[root] == Listing(mib, cfg.roots[root], cfg.lexicographicMode);
  }

  lemma RefinedEnding(cfg: Config, ls: seq<seq<Row>>, run: Run)
    requires Fits(cfg, run.walk.completed, run.walk.last) && |ls| == |cfg.roots| && Refined(cfg, ls, run)
    ensures run.ending != NoSuchName
  {
  }

  // ---- What a consumer sees ----

  // The rows of a list that lie below a root.
  function Below(rows: seq<Row>, root: Oid): seq<Row> {
    if rows == [] then []
    else
      var r := rows[|rows| - 1];
      Below(rows[..|rows| - 1], root) + (if root <= r.name then [r] else [])
  }

  ghost predicate NonNested(roots: seq<Oid>) {
    forall i, j :: 0 <= i < |roots| && 0 <= j < |roots| && i != j ==> !(roots[i] <= roots[j])
  }

  lemma {:induction false} BelowIsProject(cfg: Config, found: seq<Found>, root: nat)
    requires NonNested(cfg.roots) && !cfg.lexicographicMode && root < |cfg.roots|
    requires forall f :: f in found ==> GoodCredit(cfg, f)
    ensures Below(Rows(found), cfg.roots[root]) == Project(found, root)
  {
    if found != [] {
      var n := |found| - 1;
      var f := found[n];
      assert f in found;
      BelowIsProject(cfg, found[..n], root);
      assert Rows(found)[..n] == Rows(found[..n]);
    }
  }

  // The same without attribution: what a consumer sees below each of several
  // non-nested roots is that root's listing.
  lemma EachSubtreeIsDelivered(mib: seq<Row>, agent: Agent, cfg: Config, maxRepetitions: int, k: nat, root: nat)
    requires Sorted(mib) && Faithful(mib, agent) && maxRepetitions >= 1 && k > |mib|
    requires cfg.maxRows == 0 && cfg.maxCalls == 0 && root < |cfg.roots|
    requires !cfg.lexicographicMode && NonNested(cfg.roots)
    ensures Below(Delivered(After(agent, cfg, maxRepetitions, k).emitted), cfg.roots[root]) ==
              Listing(mib, cfg.roots[root], false)
  {
    AlwaysSafe(agent, cfg, maxRepetitions, k);
    EachRootIsComplete(mib, agent, cfg, maxRepetitions, k, root);
    BelowIsProject(cfg, After(agent, cfg, maxRepetitions, k).found, root);
  }

  lemma {:induction false} ProjectPosition(found: seq<Found>, root: nat, a: nat)
    requires a < |found| && found[a].root == root
    ensures |Project(found[..a], root)| < |Project(found, root)|
    ensures Project(found, root)[|Project(found[..a], root)|] == found[a].row
  {
    var n := |found| - 1;
    if a < n {
      ProjectPosition(found[..n], root, a);
      assert found[..n][..a] == found[..a];
    }
  }

  lemma ListingDistinct(mib: seq<Row>, root: Oid, lexicographic: bool, i: nat, j: nat)
    requires Sorted(mib) && i < j < |Listing(mib, root, lexicographic)|
    ensures Listing(mib, root, lexicographic)[i].name != Listing(mib, root, lexicographic)[j].name
  {
    ListingIsSlice(mib, root, lexicographic);
    var p, rows := FirstAfter(mib, root), Listing(mib, root, lexicographic);
    assert rows[i] == mib[p + i] && rows[j] == mib[p + j];
    assert LexLess(mib[p + i].name, mib[p + j].name);
    LexIrreflexive(rows[i].name);
  }

  lemma PrefixedDistinct(found: seq<Found>, rows: seq<Row>, root: nat, a: nat, b: nat)
    requires a < b < |found| && found[a].root == root == found[b].root
    requires Project(found, root) <= rows
    requires forall i, j :: 0 <= i < j < |rows| ==> rows[i].name != rows[j].name
    ensures found[a].row.name != found[b].row.name
  {
    ProjectPosition(found, root, a);
    ProjectPosition(found, root, b);
    ProjectPosition(found[..b], root, a);
    assert found[..b][..a] == found[..a];
  }

  // No name is delivered twice, at any time, under any limits and wherever the
  // answers are cut, when no root lies below another.
  lemma NoDuplicates(mib: seq<Row>, agent: Agent, cfg: Config, maxRepetitions: int, k: nat, a: nat, b: nat)
    requires Sorted(mib) && PartlyFaithful(mib, agent) && maxRepetitions >= 1
    requires !cfg.lexicographicMode && NonNested(cfg.roots)
    requires a < b < |Delivered(After(agent, cfg, maxRepetitions, k).emitted)|
    ensures var rows := Delivered(After(agent, cfg, maxRepetitions, k).emitted); rows[a].name != rows[b].name
  {
    var run := After(agent, cfg, maxRepetitions, k);
    AlwaysRefined(mib, agent, cfg, maxRepetitions, k);
    AlwaysSafe(agent, cfg, maxRepetitions, k);
    var f, g := run.found[a], run.found[b];
    assert GoodCredit(cfg, f) && GoodCredit(cfg, g);
    if f.row.name == g.row.name {
      assert RootRefined(cfg, Listings(mib, cfg), run, f.root);
      var rows := Listings(mib, cfg)[f.root];
      forall i, j | 0 <= i < j < |rows|
        ensures rows[i].name != rows[j].name
      {
        ListingDistinct(mib, cfg.roots[f.root], cfg.lexicographicMode, i, j);
      }
      PrefixedDistinct(run.found, rows, f.root, a, b);
    }
  }

  const CUT_MIB: seq<Row> := [Row([2, 1], Data("x"))]
  const CUT_CONFIG := Config([[1], [2]], 0, false, false, 0, 0)
  const CUT_RESPONSE := Response(None, 0, 0, [Row([2, 1], Data("x"))])

  // The premise of completeness is needed. Two roots, and a view with one row
  // below the second: an agent whose first response has room for one binding
  // only makes the walk stop at once, with the row never delivered.
  lemma CutResponseLosesRoot(agent: Agent)
    requires agent(0, NextRequest(CUT_CONFIG, Start(CUT_CONFIG, 10).walk)) == CUT_RESPONSE
    ensures Sorted(CUT_MIB)
            && CUT_RESPONSE.table <= Layout(CUT_MIB, NextRequest(CUT_CONFIG, Start(CUT_CONFIG, 10).walk), 10)
    ensures var run := After(agent, CUT_CONFIG, 10, 1);
            run.ending == NothingValid && Delivered(run.emitted) == []
    ensures Listing(CUT_MIB, CUT_CONFIG.roots[1], CUT_CONFIG.lexicographicMode) == CUT_MIB
  {
    hide *;
    CutRequest();
    CutAnswer();
    CutFirstRequest(agent);
    CutListing();
  }

  lemma CutFirstRequest(agent: Agent)
    requires agent(0, NextRequest(CUT_CONFIG, Start(CUT_CONFIG, 10).walk)) == CUT_RESPONSE
    requires Active(Start(CUT_CONFIG, 10).walk.completed) == [0, 1]
    ensures After(agent, CUT_CONFIG, 10, 1) ==
              AbsorbTable(CUT_CONFIG, Start(CUT_CONFIG, 10).(requests := 1), CUT_RESPONSE)
  {
    hide AbsorbTable, Active, Asked, Demux;
    AfterAbsorbs(agent, CUT_CONFIG, 10, 0, Start(CUT_CONFIG, 10).(requests := 1), CUT_RESPONSE);
  }

  lemma CutListing()
    ensures Sorted(CUT_MIB) && Listing(CUT_MIB, CUT_CONFIG.roots[1], CUT_CONFIG.lexicographicMode) == CUT_MIB
  {
    assert CUT_MIB[1..] == [];
    assert LexLess([2], [2, 1]);
  }

  lemma CutRequest()
    ensures NextRequest(CUT_CONFIG, Start(CUT_CONFIG, 10).walk) == Request(0, 10, [[1], [2]])
    ensures Active(Start(CUT_CONFIG, 10).walk.completed) == [0, 1]
    ensures CUT_RESPONSE.table <= Layout(CUT_MIB, Request(0, 10, [[1], [2]]), 10)
  {
    assert Start(CUT_CONFIG, 10).walk.completed == [false, false];
    assert Active([false]) == [0] by { assert [false][..0] == []; }
    assert Active([false, false]) == [0, 1] by { assert [false, false][..1] == [false]; }
    assert Asked([false, false], CUT_CONFIG.roots) == [[1], [2]];
    FirstBinding(CUT_MIB, Request(0, 10, [[1], [2]]));
  }

  lemma CutAnswer()
    requires Active(Start(CUT_CONFIG, 10).walk.completed) == [0, 1]
    ensures var next := AbsorbTable(CUT_CONFIG, Start(CUT_CONFIG, 10).(requests := 1), CUT_RESPONSE);
            next.ending == NothingValid && Delivered(next.emitted) == []
  {
    var start := Start(CUT_CONFIG, 10);
    var d := Demuxed(start.walk.completed, start.walk.last, []);
    assert !InScope([1], false, [2, 1]) by { assert [2, 1][0] != [1][0]; }
    assert Demux(CUT_CONFIG, [0, 1], d, CUT_RESPONSE.table, 1) == Credit(CUT_CONFIG, d, 0, CUT_RESPONSE.table[0]);
  }

  lemma FirstBinding(mib: seq<Row>, request: Request)
    requires mib == [Row([2, 1], Data("x"))] && request.nonRepeaters == 0 && request.oids == [[1], [2]]
    ensures mib <= Layout(mib, request, 10)
  {
    LayoutLength(mib, request, 10);
    LayoutAt(mib, request, 10, 0);
    assert LexLess([1], [2, 1]);
    assert Successor(mib, [1], 1) == mib[0];
  }
}
