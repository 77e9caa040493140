/** Whole runs against an agent that answers in whole repetitions: what is
    delivered does not depend on how the repetitions are batched, and the
    number of requests is known exactly. */
module BatchIndependence {
  import opened Mib
  import opened BulkWalk
  import opened WalkSafety
  import opened WireLayout
  import opened WalkRefinement
  import opened WalkCompleteness
  import opened RoundRobin

  lemma LockstepOf(cfg: Config, ls: seq<seq<Row>>, run: Run, t: nat)
    requires Fits(cfg, run.walk.completed, run.walk.last) && |ls| == |cfg.roots|
    requires Interleaved(cfg, ls, run, t) && run.ending == Running
    ensures Lockstep(cfg, ls, run, t)
  {
  }

  lemma NextInterleaved(mib: seq<Row>, agent: Agent, cfg: Config, maxRepetitions: int, k: nat, t: nat) returns (u: nat)
    requires Sorted(mib) && WholeFaithful(mib, agent) && cfg.nonRepeaters <= 0 && maxRepetitions >= 1
    requires Interleaved(cfg, Listings(mib, cfg), After(agent, cfg, maxRepetitions, k), t)
    ensures Interleaved(cfg, Listings(mib, cfg), After(agent, cfg, maxRepetitions, k + 1), u)
  {
    hide *;
    u := t;
    if After(agent, cfg, maxRepetitions, k).ending != Running {
      NothingAfterTheEnd(agent, cfg, maxRepetitions, k, k + 1);
    } else {
      var m := RunningAnswer(mib, agent, cfg, maxRepetitions, k);
      LockstepOf(cfg, Listings(mib, cfg), After(agent, cfg, maxRepetitions, k), t);
      u := t + m;
      WholeReply(mib, agent, cfg, After(agent, cfg, maxRepetitions, k), t, m);
      StepInterleaved(mib, agent, cfg, maxRepetitions, k, t, m);
    }
  }

  lemma RunningAnswer(mib: seq<Row>, agent: Agent, cfg: Config, maxRepetitions: int, k: nat) returns (m: nat)
    requires Sorted(mib) && WholeFaithful(mib, agent) && maxRepetitions >= 1
    requires After(agent, cfg, maxRepetitions, k).ending == Running
    ensures var run := After(agent, cfg, maxRepetitions, k);
            Waits(cfg, Listings(mib, cfg), run)
                && AnswersWhole(mib, NextRequest(cfg, run.walk), Reply(agent, cfg, run), m)
  {
    hide *;
    var run := After(agent, cfg, maxRepetitions, k);
    WholeIsFaithful(mib, agent);
    FaithfulInPart(mib, agent);
    AlwaysRefined(mib, agent, cfg, maxRepetitions, k);
    RunningWaits(agent, cfg, Listings(mib, cfg), maxRepetitions, k);
    AskingTracked(cfg, Listings(mib, cfg), run);
    m := WholeAnswerOf(mib, agent, run.requests, NextRequest(cfg, run.walk));
    ReplyIs(agent, cfg, run);
  }

  lemma ReplyIs(agent: Agent, cfg: Config, run: Run)
    requires Fits(cfg, run.walk.completed, run.walk.last)
    ensures Reply(agent, cfg, run) == agent(run.requests, NextRequest(cfg, run.walk))
  {
  }

  lemma WholeReply(mib: seq<Row>, agent: Agent, cfg: Config, run: Run, t: nat, m: nat)
    requires Waits(cfg, Listings(mib, cfg), run) && Fits(cfg, run.walk.completed, run.walk.last)
    requires Lockstep(cfg, Listings(mib, cfg), run, t)
    requires AnswersWhole(mib, NextRequest(cfg, run.walk), Reply(agent, cfg, run), m)
    ensures RepliesWhole(mib, agent, cfg, run, t, m)
  {
    hide Waits, Lockstep, AnswersWhole, Listings, NextRequest;
  }

  lemma WholeAnswerOf(mib: seq<Row>, agent: Agent, k: nat, request: Request) returns (m: nat)
    requires WholeFaithful(mib, agent) && request.oids != [] && request.maxRepetitions >= 1
    ensures AnswersWhole(mib, request, agent(k, request), m)
  {
    assert AnswersSomeWhole(mib, request, agent(k, request));
    m :| AnswersWhole(mib, request, agent(k, request), m);
  }

  lemma {:induction false} AlwaysInterleaved(mib: seq<Row>, agent: Agent, cfg: Config, maxRepetitions: int, k: nat)
    returns (t: nat)
    requires Sorted(mib) && WholeFaithful(mib, agent) && cfg.nonRepeaters <= 0 && maxRepetitions >= 1
    ensures Interleaved(cfg, Listings(mib, cfg), After(agent, cfg, maxRepetitions, k), t)
  {
    if k == 0 {
      t := 0;
    } else {
      t := AlwaysInterleaved(mib, agent, cfg, maxRepetitions, k - 1);
      t := NextInterleaved(mib, agent, cfg, maxRepetitions, k - 1, t);
    }
  }

  // How much of the interleaving a row limit lets through.
  function Limited(cfg: Config, rows: seq<Row>): seq<Row> {
    if cfg.maxRows > 0 then rows[..Min(cfg.maxRows, |rows|)] else rows
  }

  lemma DeliveredInInterleaving(cfg: Config, ls: seq<seq<Row>>, run: Run, t: nat)
    requires Fits(cfg, run.walk.completed, run.walk.last) && |ls| == |cfg.roots|
    requires Interleaved(cfg, ls, run, t) && Safe(cfg, run) && run.ending != NoSuchName
    ensures Delivered(run.emitted) <= Rows(Interleaving(ls))
    ensures run.ending == AllCompleted || run.ending == NothingValid ==>
            Delivered(run.emitted) == Rows(Interleaving(ls))
  {
    RoundsInInterleaving(ls, t);
  }

  lemma NoRootsNothing(ls: seq<seq<Row>>)
    ensures ls == [] ==> Interleaving(ls) == []
  {
  }

  // Batch independence. Whatever `maxRepetitions` is and however many whole
  // repetitions the agent chooses to send each time, the rows delivered are
  // always a prefix of the interleaving; without a call limit the walk ends
  // with all of it, or with exactly its first `maxRows` rows.
  lemma BatchIndependent(mib: seq<Row>, agent: Agent, cfg: Config, maxRepetitions: int, k: nat)
    requires Sorted(mib) && WholeFaithful(mib, agent) && cfg.nonRepeaters <= 0 && maxRepetitions >= 1
    ensures var delivered := Delivered(After(agent, cfg, maxRepetitions, k).emitted);
            var all := Rows(Interleaving(Listings(mib, cfg)));
            && delivered <= all
            && (k > |mib| && cfg.maxRows >= 0 && cfg.maxCalls == 0 ==> delivered == Limited(cfg, all))
  {
    hide After, Listings, Sorted, WholeFaithful, PartlyFaithful, Interleaved, Interleaving, Delivered;
    var ls, run := Listings(mib, cfg), After(agent, cfg, maxRepetitions, k);
    var t := AlwaysInterleaved(mib, agent, cfg, maxRepetitions, k);
    WholeIsFaithful(mib, agent);
    FaithfulInPart(mib, agent);
    AlwaysSafe(agent, cfg, maxRepetitions, k);
    AlwaysRefined(mib, agent, cfg, maxRepetitions, k);
    DeliveredInInterleaving(cfg, ls, run, t);
    NoRootsNothing(ls);
    if k > |mib| && cfg.maxRows >= 0 && cfg.maxCalls == 0 {
      WalkEnds(mib, agent, cfg, maxRepetitions, k);
    }
  }

  // In particular a batched walk delivers what a walk by single successors,
  // one GETNEXT per root and request, delivers.
  lemma SameAsGetNext(mib: seq<Row>, agent: Agent, getNext: Agent, cfg: Config, maxRepetitions: int, k: nat)
    requires Sorted(mib) && WholeFaithful(mib, agent) && WholeFaithful(mib, getNext)
    requires cfg.nonRepeaters <= 0 && maxRepetitions >= 1 && k > |mib| && cfg.maxRows >= 0 && cfg.maxCalls == 0
    ensures Delivered(After(agent, cfg, maxRepetitions, k).emitted) == Delivered(After(getNext, cfg, 1, k).emitted)
  {
    BatchIndependent(mib, agent, cfg, maxRepetitions, k);
    BatchIndependent(mib, getNext, cfg, 1, k);
  }

  // Without a row limit `maxRepetitions` stays as it was given.
  lemma {:induction false} RepetitionsStay(agent: Agent, cfg: Config, maxRepetitions: int, k: nat)
    requires cfg.maxRows == 0
    ensures After(agent, cfg, maxRepetitions, k).walk.maxRepetitions == maxRepetitions
  {
    if k > 0 {
      RepetitionsStay(agent, cfg, maxRepetitions, k - 1);
    }
  }

  // Where the walk stands against an agent that sends `repetitions` each time.
  ghost predicate FullProgress(cfg: Config, ls: seq<seq<Row>>, run: Run, repetitions: nat)
    requires Fits(cfg, run.walk.completed, run.walk.last) && |ls| == |cfg.roots|
  {
    && run.ending in {Running, NothingValid, AllCompleted}
    && Interleaved(cfg, ls, run, run.requests * repetitions)
    && (run.ending != Running ==> run.requests >= 1 && (run.requests - 1) * repetitions <= Longest(ls))
  }

  lemma FullAnswer(mib: seq<Row>, agent: Agent, cfg: Config, maxRepetitions: nat, m: nat, k: nat)
    requires SendsEachTime(mib, agent, maxRepetitions, m) && maxRepetitions >= 1 && cfg.maxRows == 0
    requires After(agent, cfg, maxRepetitions, k).ending == Running
    ensures var run := After(agent, cfg, maxRepetitions, k);
            AnswersWhole(mib, NextRequest(cfg, run.walk), Reply(agent, cfg, run), m)
  {
    hide After, AnswersWhole, Active;
    RepetitionsStay(agent, cfg, maxRepetitions, k);
    var run := After(agent, cfg, maxRepetitions, k);
    var request := NextRequest(cfg, run.walk);
    assert request.maxRepetitions == maxRepetitions && request.oids != [];
  }

  // An unfinished root shows that its listing goes at least this far.
  lemma RunningReaches(cfg: Config, ls: seq<seq<Row>>, run: Run, t: nat)
    requires Fits(cfg, run.walk.completed, run.walk.last) && |ls| == |cfg.roots|
    requires Active(run.walk.completed) != [] && Lockstep(cfg, ls, run, t)
    ensures t <= Longest(ls)
  {
    var root := Active(run.walk.completed)[0];
    assert !run.walk.completed[root] && t <= |ls[root]|;
  }

  // No limit, no limit reached.
  lemma {:induction false} EndsWithoutLimits(mib: seq<Row>, agent: Agent, cfg: Config, maxRepetitions: nat, m: nat,
                                             k: nat)
    requires Sorted(mib) && SendsEachTime(mib, agent, maxRepetitions, m) && maxRepetitions >= 1
    requires cfg.roots != [] && cfg.maxRows == 0 && cfg.maxCalls == 0
    ensures After(agent, cfg, maxRepetitions, k).ending in {Running, NothingValid, AllCompleted}
  {
    hide After, Listings, WholeFaithful, PartlyFaithful, Sorted, Delivered;
    WholeIsFaithful(mib, agent);
    FaithfulInPart(mib, agent);
    AlwaysRefined(mib, agent, cfg, maxRepetitions, k);
    AlwaysSafe(agent, cfg, maxRepetitions, k);
  }

  lemma FullStep(mib: seq<Row>, agent: Agent, cfg: Config, maxRepetitions: nat, m: nat, k: nat, t: nat)
    requires Sorted(mib) && SendsEachTime(mib, agent, maxRepetitions, m) && cfg.nonRepeaters <= 0
             && maxRepetitions >= 1
    requires cfg.roots != [] && cfg.maxRows == 0 && cfg.maxCalls == 0
    requires After(agent, cfg, maxRepetitions, k).ending == Running
    requires Lockstep(cfg, Listings(mib, cfg), After(agent, cfg, maxRepetitions, k), t)
    ensures After(agent, cfg, maxRepetitions, k + 1).requests == k + 1
    ensures Interleaved(cfg, Listings(mib, cfg), After(agent, cfg, maxRepetitions, k + 1), t + m)
  {
    hide *;
    SendsWhole(mib, agent, maxRepetitions, m);
    RequestsCounted(agent, cfg, maxRepetitions, k);
    RequestCounted(agent, cfg, maxRepetitions, k);
    var _ := RunningAnswer(mib, agent, cfg, maxRepetitions, k);
    FullAnswer(mib, agent, cfg, maxRepetitions, m, k);
    WholeReply(mib, agent, cfg, After(agent, cfg, maxRepetitions, k), t, m);
    StepInterleaved(mib, agent, cfg, maxRepetitions, k, t, m);
  }

  lemma RequestCounted(agent: Agent, cfg: Config, maxRepetitions: int, k: nat)
    requires After(agent, cfg, maxRepetitions, k).ending == Running
    ensures After(agent, cfg, maxRepetitions, k + 1).requests == After(agent, cfg, maxRepetitions, k).requests + 1
  {
    hide After, Absorb, Active;
    var run := After(agent, cfg, maxRepetitions, k);
    AfterAbsorbs(agent, cfg, maxRepetitions, k, Sent(Asking(cfg, run)), Reply(agent, cfg, run));
  }

  lemma StartFullProgress(cfg: Config, ls: seq<seq<Row>>, maxRepetitions: nat, m: nat)
    requires |ls| == |cfg.roots| > 0
    ensures FullProgress(cfg, ls, Start(cfg, maxRepetitions), m)
  {
  }

  lemma ProgressInStep(cfg: Config, ls: seq<seq<Row>>, run: Run, repetitions: nat)
    requires Fits(cfg, run.walk.completed, run.walk.last) && |ls| == |cfg.roots|
    requires FullProgress(cfg, ls, run, repetitions) && run.ending == Running && Active(run.walk.completed) != []
    ensures Lockstep(cfg, ls, run, run.requests * repetitions)
    ensures run.requests * repetitions <= Longest(ls)
  {
    hide *;
    ProgressInterleaved(cfg, ls, run, repetitions);
    LockstepOf(cfg, ls, run, run.requests * repetitions);
    RunningReaches(cfg, ls, run, run.requests * repetitions);
  }

  lemma ProgressInterleaved(cfg: Config, ls: seq<seq<Row>>, run: Run, repetitions: nat)
    requires Fits(cfg, run.walk.completed, run.walk.last) && |ls| == |cfg.roots|
    requires FullProgress(cfg, ls, run, repetitions)
    ensures Interleaved(cfg, ls, run, run.requests * repetitions)
  {
  }

  lemma ProgressMade(cfg: Config, ls: seq<seq<Row>>, run: Run, repetitions: nat)
    requires Fits(cfg, run.walk.completed, run.walk.last) && |ls| == |cfg.roots|
    requires run.ending in {Running, NothingValid, AllCompleted} && run.requests >= 1
    requires Interleaved(cfg, ls, run, run.requests * repetitions)
    requires (run.requests - 1) * repetitions <= Longest(ls)
    ensures FullProgress(cfg, ls, run, repetitions)
  {
  }

  lemma {:induction false} AlwaysFullProgress(mib: seq<Row>, agent: Agent, cfg: Config, maxRepetitions: nat, m: nat,
                                              k: nat)
    requires Sorted(mib) && SendsEachTime(mib, agent, maxRepetitions, m) && cfg.nonRepeaters <= 0
             && maxRepetitions >= 1
    requires cfg.roots != [] && cfg.maxRows == 0 && cfg.maxCalls == 0
    ensures FullProgress(cfg, Listings(mib, cfg), After(agent, cfg, maxRepetitions, k), m)
  {
    hide FullProgress, Listings, SendsEachTime, Sorted, Step;
    if k == 0 {
      StartFullProgress(cfg, Listings(mib, cfg), maxRepetitions, m);
    } else {
      AlwaysFullProgress(mib, agent, cfg, maxRepetitions, m, k - 1);
      NextFullProgress(mib, agent, cfg, maxRepetitions, m, k - 1);
    }
  }

  lemma NextFullProgress(mib: seq<Row>, agent: Agent, cfg: Config, maxRepetitions: nat, m: nat, k: nat)
    requires Sorted(mib) && SendsEachTime(mib, agent, maxRepetitions, m) && cfg.nonRepeaters <= 0
             && maxRepetitions >= 1
    requires cfg.roots != [] && cfg.maxRows == 0 && cfg.maxCalls == 0
    requires FullProgress(cfg, Listings(mib, cfg), After(agent, cfg, maxRepetitions, k), m)
    ensures FullProgress(cfg, Listings(mib, cfg), After(agent, cfg, maxRepetitions, k + 1), m)
  {
    hide *;
    if After(agent, cfg, maxRepetitions, k).ending != Running {
      NothingAfterTheEnd(agent, cfg, maxRepetitions, k, k + 1);
    } else {
      RequestsCounted(agent, cfg, maxRepetitions, k);
      EndsWithoutLimits(mib, agent, cfg, maxRepetitions, m, k + 1);
      ProgressInStep(cfg, Listings(mib, cfg), After(agent, cfg, maxRepetitions, k), m);
      FullStep(mib, agent, cfg, maxRepetitions, m, k, k * m);
      ProgressMade(cfg, Listings(mib, cfg), After(agent, cfg, maxRepetitions, k + 1), m);
    }
  }

  lemma Quotient(n: nat, d: nat, q: nat)
    requires d > 0 && q >= 1 && (q - 1) * d <= n < q * d
    ensures q == n / d + 1
  {
    DivModUnique(q - 1, d, n - (q - 1) * d);
  }

  lemma SendsWhole(mib: seq<Row>, agent: Agent, asked: int, m: nat)
    requires SendsEachTime(mib, agent, asked, m)
    ensures WholeFaithful(mib, agent) && m >= 1
  {
  }

  // The exact cost: an agent that sends `m` repetitions each time is sent one
  // request more than the longest listing has whole batches of `m`.
  lemma ExactCost(mib: seq<Row>, agent: Agent, cfg: Config, maxRepetitions: nat, m: nat, k: nat)
    requires Sorted(mib) && SendsEachTime(mib, agent, maxRepetitions, m) && cfg.nonRepeaters <= 0
             && maxRepetitions >= 1
    requires cfg.roots != [] && cfg.maxRows == 0 && cfg.maxCalls == 0 && k > |mib|
    ensures After(agent, cfg, maxRepetitions, k).requests == Longest(Listings(mib, cfg)) / m + 1
  {
    hide *;
    SendsWhole(mib, agent, maxRepetitions, m);
    WholeIsFaithful(mib, agent);
    WalkEnds(mib, agent, cfg, maxRepetitions, k);
    AlwaysFullProgress(mib, agent, cfg, maxRepetitions, m, k);
    CostOfEnded(cfg, Listings(mib, cfg), After(agent, cfg, maxRepetitions, k), m);
  }

  // For an agent whose responses have room for `cap` repetitions ...
  lemma CappedCost(mib: seq<Row>, agent: Agent, cfg: Config, maxRepetitions: nat, cap: nat, k: nat)
    requires Sorted(mib) && CappedFaithful(mib, agent, cap) && cap >= 1 && cfg.nonRepeaters <= 0
             && maxRepetitions >= 1
    requires cfg.roots != [] && cfg.maxRows == 0 && cfg.maxCalls == 0 && k > |mib|
    ensures After(agent, cfg, maxRepetitions, k).requests ==
              Longest(Listings(mib, cfg)) / Min(cap, maxRepetitions) + 1
  {
    hide After, Listings, Longest, Sorted, CappedFaithful, SendsEachTime;
    CappedSends(mib, agent, cap, maxRepetitions);
    ExactCost(mib, agent, cfg, maxRepetitions, Min(cap, maxRepetitions), k);
  }

  // ... and for one that always sends as many as it is asked for.
  lemma FullCost(mib: seq<Row>, agent: Agent, cfg: Config, maxRepetitions: nat, k: nat)
    requires Sorted(mib) && FullFaithful(mib, agent) && cfg.nonRepeaters <= 0 && maxRepetitions >= 1
    requires cfg.roots != [] && cfg.maxRows == 0 && cfg.maxCalls == 0 && k > |mib|
    ensures After(agent, cfg, maxRepetitions, k).requests == Longest(Listings(mib, cfg)) / maxRepetitions + 1
  {
    hide *;
    FullSends(mib, agent, maxRepetitions);
    ExactCost(mib, agent, cfg, maxRepetitions, maxRepetitions, k);
  }

  lemma CostOfEnded(cfg: Config, ls: seq<seq<Row>>, run: Run, repetitions: nat)
    requires Fits(cfg, run.walk.completed, run.walk.last) && |ls| == |cfg.roots| > 0 && repetitions >= 1
    requires FullProgress(cfg, ls, run, repetitions) && run.ending != Running
    ensures run.requests == Longest(ls) / repetitions + 1
  {
    hide Longest;
    var i :| 0 <= i < |ls| && |ls[i]| == Longest(ls);
    assert |ls[i]| < run.requests * repetitions;
    Quotient(Longest(ls), repetitions, run.requests);
  }
}
