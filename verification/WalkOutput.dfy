/** What a consumer of the walk sees of each request: one yield for an answer
    with rows, and no error that is not told. */
module WalkOutput {
  import opened Wrappers
  import opened Mib
  import opened BulkWalk
  import opened WalkSafety

  // The reply to request `k` of a run that is still going.
  function ReplyAt(agent: Agent, cfg: Config, maxRepetitions: int, k: nat): Response {
    var run := After(agent, cfg, maxRepetitions, k);
    agent(run.requests, NextRequest(cfg, run.walk))
  }

  // An indication counts unless it is the one the caller asked to be ignored.
  predicate Indicates(cfg: Config, response: Response) {
    response.indication.Some? && !(cfg.ignoreNonIncreasingOid && response.indication == Some(OidNotIncreasing))
  }

  // The errors a consumer is told of. Status 2 is the noSuchName that is hidden.
  predicate Fails(cfg: Config, response: Response) {
    Indicates(cfg, response) || (response.status != 0 && response.status != 2)
  }

  // The names the unfinished roots have got to, without values.
  ghost predicate NamesPending(walk: Walk, rows: seq<Row>) {
    && |walk.last| == |walk.completed| && |rows| == |Active(walk.completed)|
    && forall j :: 0 <= j < |rows| ==> rows[j] == Row(walk.last[Active(walk.completed)[j]], Null)
  }

  lemma NextIs(agent: Agent, cfg: Config, maxRepetitions: int, k: nat) returns (sent: Run)
    requires After(agent, cfg, maxRepetitions, k).ending == Running
    ensures var run := After(agent, cfg, maxRepetitions, k);
            && sent == run.(walk := run.walk.(maxRepetitions := Repetitions(cfg, run.walk)),
                            requests := run.requests + 1)
            && After(agent, cfg, maxRepetitions, k + 1) == Absorb(cfg, sent, ReplyAt(agent, cfg, maxRepetitions, k))
  {
    hide After, Absorb, Repetitions, NextRequest;
    var run := After(agent, cfg, maxRepetitions, k);
    sent := run.(walk := run.walk.(maxRepetitions := Repetitions(cfg, run.walk)), requests := run.requests + 1);
    AfterAbsorbs(agent, cfg, maxRepetitions, k, sent, ReplyAt(agent, cfg, maxRepetitions, k));
  }

  // An indication is yielded as it came, with whatever rows came with it. A
  // timeout adds an empty yield and changes nothing; any other ends the run.
  lemma IndicationIsYielded(agent: Agent, cfg: Config, maxRepetitions: int, k: nat)
    requires After(agent, cfg, maxRepetitions, k).ending == Running
    requires Indicates(cfg, ReplyAt(agent, cfg, maxRepetitions, k))
    ensures var run, next := After(agent, cfg, maxRepetitions, k), After(agent, cfg, maxRepetitions, k + 1);
            var reply := ReplyAt(agent, cfg, maxRepetitions, k);
            var y := Yield(reply.indication, reply.status, reply.index, reply.table);
            && next.found == run.found
            && (reply.indication != Some(RequestTimedOut) ==>
                  next.ending != Running && next.emitted == run.emitted + [y])
            && (reply.indication == Some(RequestTimedOut) ==> next.emitted == run.emitted + [y, y.(rows := [])])
  {
    hide After, Active, AbsorbTable, AbsorbPduError, ReplyAt;
    var _ := NextIs(agent, cfg, maxRepetitions, k);
  }

  // An error status is yielded with its index and the names being asked for,
  // and ends the run; a noSuchName does so as if it were a success.
  lemma ErrorStatusIsYielded(agent: Agent, cfg: Config, maxRepetitions: int, k: nat) returns (pending: seq<Row>)
    requires After(agent, cfg, maxRepetitions, k).ending == Running
    requires !Indicates(cfg, ReplyAt(agent, cfg, maxRepetitions, k))
             && ReplyAt(agent, cfg, maxRepetitions, k).status != 0
    ensures var run, next := After(agent, cfg, maxRepetitions, k), After(agent, cfg, maxRepetitions, k + 1);
            var reply := ReplyAt(agent, cfg, maxRepetitions, k);
            && NamesPending(run.walk, pending) && next.found == run.found && next.ending != Running
            && next.emitted == run.emitted + [if reply.status == 2 then Yield(None, 0, 0, pending)
                                              else Yield(None, reply.status, reply.index, pending)]
  {
    hide After, Active, AbsorbTable, AbsorbIndication, ReplyAt;
    var run := After(agent, cfg, maxRepetitions, k);
    pending := Pending(Asked(run.walk.completed, run.walk.last));
    var _ := NextIs(agent, cfg, maxRepetitions, k);
  }

  // An answer without error yields its new rows at once, or nothing and ends
  // the run when it brings none.
  lemma RowsAreYielded(agent: Agent, cfg: Config, maxRepetitions: int, k: nat) returns (more: seq<Found>)
    requires After(agent, cfg, maxRepetitions, k).ending == Running
    requires !Indicates(cfg, ReplyAt(agent, cfg, maxRepetitions, k))
             && ReplyAt(agent, cfg, maxRepetitions, k).status == 0
    ensures var run, next := After(agent, cfg, maxRepetitions, k), After(agent, cfg, maxRepetitions, k + 1);
            && next.found == run.found + more
            && (more != [] ==>
                  next.emitted ==
                    run.emitted + [Yield(None, 0, ReplyAt(agent, cfg, maxRepetitions, k).index, Rows(more))])
            && (more == [] ==> next.emitted == run.emitted && next.ending != Running)
  {
    hide After, Active, Demux, AbsorbPduError, AbsorbIndication, ReplyAt, AfterYield;
    var _ := NextIs(agent, cfg, maxRepetitions, k);
    more := After(agent, cfg, maxRepetitions, k + 1).found[|After(agent, cfg, maxRepetitions, k).found|..];
  }

  // Without roots there is one empty success yield and no request.
  lemma NoRootsYieldsOnce(agent: Agent, cfg: Config, maxRepetitions: int, k: nat)
    requires cfg.roots == []
    ensures var run := After(agent, cfg, maxRepetitions, k);
            run.emitted == [Yield(None, 0, 0, [])] && run.found == [] && run.requests == 0 && run.ending != Running
  {
    hide Step;
    NothingAfterTheEnd(agent, cfg, maxRepetitions, 0, k);
  }

  // ---- Whole runs ----

  ghost predicate TellsError(emitted: seq<Yield>) {
    exists i :: 0 <= i < |emitted| && !emitted[i].Success()
  }

  ghost predicate FailsAt(agent: Agent, cfg: Config, maxRepetitions: int, j: nat) {
    After(agent, cfg, maxRepetitions, j).ending == Running && Fails(cfg, ReplyAt(agent, cfg, maxRepetitions, j))
  }

  lemma TellsMore(emitted: seq<Yield>, more: seq<Yield>)
    ensures TellsError(emitted + more) <==> TellsError(emitted) || TellsError(more)
  {
    if i :| 0 <= i < |emitted + more| && !(emitted + more)[i].Success() {
      assert i >= |emitted| ==> more[i - |emitted|] == (emitted + more)[i];
    }
    assert forall i :: 0 <= i < |emitted| ==> (emitted + more)[i] == emitted[i];
    assert forall i :: 0 <= i < |more| ==> (emitted + more)[|emitted| + i] == more[i];
  }

  // A request adds a yield that is no success exactly when it fails.
  lemma RequestTells(agent: Agent, cfg: Config, maxRepetitions: int, k: nat)
    requires After(agent, cfg, maxRepetitions, k).ending == Running
    ensures TellsError(After(agent, cfg, maxRepetitions, k + 1).emitted) <==>
            TellsError(After(agent, cfg, maxRepetitions, k).emitted)
                || Fails(cfg, ReplyAt(agent, cfg, maxRepetitions, k))
  {
    hide After, ReplyAt, TellsError;
    var run, reply := After(agent, cfg, maxRepetitions, k), ReplyAt(agent, cfg, maxRepetitions, k);
    var next := After(agent, cfg, maxRepetitions, k + 1);
    var more: seq<Yield>;
    if Indicates(cfg, reply) {
      IndicationIsYielded(agent, cfg, maxRepetitions, k);
      more := next.emitted[|run.emitted|..];
      FirstTells(more);
    } else if reply.status != 0 {
      var pending := ErrorStatusIsYielded(agent, cfg, maxRepetitions, k);
      more := next.emitted[|run.emitted|..];
      OneTells(more);
    } else {
      var found := RowsAreYielded(agent, cfg, maxRepetitions, k);
      more := next.emitted[|run.emitted|..];
      OneTells(more);
    }
    TellsMore(run.emitted, more);
    assert next.emitted == run.emitted + more;
  }

  lemma FirstTells(emitted: seq<Yield>)
    requires emitted != [] && !emitted[0].Success()
    ensures TellsError(emitted)
  {
  }

  lemma OneTells(emitted: seq<Yield>)
    requires |emitted| <= 1
    ensures TellsError(emitted) <==> emitted != [] && !emitted[0].Success()
  {
  }

  // No error goes untold, and none is made up: over any run there is a yield
  // that is no success exactly when some request was answered with an
  // indication that counts or with a status other than "no error" and the
  // hidden noSuchName.
  lemma {:induction false} ErrorsAreTold(agent: Agent, cfg: Config, maxRepetitions: int, k: nat)
    ensures TellsError(After(agent, cfg, maxRepetitions, k).emitted)
            <==> exists j :: 0 <= j < k && FailsAt(agent, cfg, maxRepetitions, j)
  {
    hide Step, TellsError, ReplyAt, Fails;
    if k == 0 {
      OneTells(After(agent, cfg, maxRepetitions, 0).emitted);
    } else {
      ErrorsAreTold(agent, cfg, maxRepetitions, k - 1);
      if After(agent, cfg, maxRepetitions, k - 1).ending == Running {
        RequestTells(agent, cfg, maxRepetitions, k - 1);
        assert Fails(cfg, ReplyAt(agent, cfg, maxRepetitions, k - 1)) ==> FailsAt(agent, cfg, maxRepetitions, k - 1);
      }
      assert forall j :: 0 <= j < k && FailsAt(agent, cfg, maxRepetitions, j) ==>
               j < k - 1 || (After(agent, cfg, maxRepetitions, k - 1).ending == Running
                             && Fails(cfg, ReplyAt(agent, cfg, maxRepetitions, k - 1)));
    }
  }

  // ---- Limits ----

  ghost predicate AtLimit(cfg: Config, run: Run) {
    && (run.ending == RowLimit && cfg.maxRows > 0 ==> |run.found| == cfg.maxRows)
    && (run.ending == CallLimit && cfg.maxCalls > 0 ==> Successes(run.emitted) == cfg.maxCalls)
    && (run.ending == AllCompleted ==> forall i :: 0 <= i < |run.walk.completed| ==> run.walk.completed[i])
  }

  lemma SuccessesNext(emitted: seq<Yield>, y: Yield)
    ensures Successes(emitted + [y]) == Successes(emitted) + if y.Success() then 1 else 0
  {
    assert (emitted + [y])[..|emitted|] == emitted;
  }

  lemma LimitStep(cfg: Config, run: Run, response: Response)
    requires Fits(cfg, run.walk.completed, run.walk.last) && Active(run.walk.completed) != []
    requires Safe(cfg, run) && run.ending == Running
    ensures AtLimit(cfg, Absorb(cfg, run, response))
  {
    hide Active, Demux, Delivered, Successes, Asked;
    var next := Absorb(cfg, run, response);
    if |next.emitted| == |run.emitted| + 1 {
      SuccessesNext(run.emitted, next.emitted[|run.emitted|]);
    }
  }

  // A run stops at a positive limit with exactly as many rows, or answers with
  // rows, as the limit allows, and for completion only when every root is complete.
  lemma {:induction false} StopsAtLimit(agent: Agent, cfg: Config, maxRepetitions: int, k: nat)
    ensures AtLimit(cfg, After(agent, cfg, maxRepetitions, k))
  {
    hide Step, AtLimit, Absorb, Safe;
    if k == 0 {
      StartAtLimit(cfg, maxRepetitions);
    } else {
      StopsAtLimit(agent, cfg, maxRepetitions, k - 1);
      if After(agent, cfg, maxRepetitions, k - 1).ending == Running {
        var sent := NextIs(agent, cfg, maxRepetitions, k - 1);
        AlwaysSafe(agent, cfg, maxRepetitions, k - 1);
        SentIsSafe(cfg, After(agent, cfg, maxRepetitions, k - 1), sent);
        LimitStep(cfg, sent, ReplyAt(agent, cfg, maxRepetitions, k - 1));
      }
    }
  }

  lemma StartAtLimit(cfg: Config, maxRepetitions: int)
    ensures AtLimit(cfg, Start(cfg, maxRepetitions))
  {
  }

  lemma SentIsSafe(cfg: Config, run: Run, sent: Run)
    requires Safe(cfg, run) && run.ending == Running
    requires sent.found == run.found && sent.emitted == run.emitted && sent.ending == run.ending
    requires sent.walk.totalRows == run.walk.totalRows && sent.walk.totalCalls == run.walk.totalCalls
    ensures Safe(cfg, sent)
  {
    hide Delivered, Successes, GoodCredit;
  }

  // What the next request will ask for.
  ghost predicate AsksFor(cfg: Config, run: Run, repetitions: int) {
    Repetitions(cfg, run.walk) == if cfg.maxRows > 0 && cfg.maxRows - |run.found| < repetitions
                                  then cfg.maxRows - |run.found| else repetitions
  }

  lemma RepetitionsStep(cfg: Config, run: Run, response: Response, repetitions: int)
    requires Fits(cfg, run.walk.completed, run.walk.last) && Active(run.walk.completed) != []
    requires Safe(cfg, run) && run.ending == Running && AsksFor(cfg, run, repetitions)
    requires run.walk.maxRepetitions == Repetitions(cfg, run.walk)
    requires Safe(cfg, Absorb(cfg, run, response)) && Absorb(cfg, run, response).ending == Running
    ensures AsksFor(cfg, Absorb(cfg, run, response), repetitions)
  {
    hide Active, Demux, Delivered, Successes, Asked;
  }

  // A request asks for the given number of repetitions or, when that is less,
  // for as many as there are rows left to the limit.
  lemma {:induction false} AsksWhatIsLeft(agent: Agent, cfg: Config, maxRepetitions: int, k: nat)
    requires After(agent, cfg, maxRepetitions, k).ending == Running
    ensures var run := After(agent, cfg, maxRepetitions, k);
            var request := NextRequest(cfg, run.walk);
            && request.nonRepeaters == cfg.nonRepeaters
            && request.maxRepetitions == if cfg.maxRows > 0 && cfg.maxRows - |run.found| < maxRepetitions
                                         then cfg.maxRows - |run.found| else maxRepetitions
  {
    AlwaysAsksFor(agent, cfg, maxRepetitions, k);
  }

  lemma {:induction false} AlwaysAsksFor(agent: Agent, cfg: Config, maxRepetitions: int, k: nat)
    requires After(agent, cfg, maxRepetitions, k).ending == Running
    ensures AsksFor(cfg, After(agent, cfg, maxRepetitions, k), maxRepetitions)
  {
    hide Step, Absorb, Safe;
    if k > 0 {
      AlwaysAsksFor(agent, cfg, maxRepetitions, k - 1);
      var run := After(agent, cfg, maxRepetitions, k - 1);
      var sent := NextIs(agent, cfg, maxRepetitions, k - 1);
      AlwaysSafe(agent, cfg, maxRepetitions, k - 1);
      AlwaysSafe(agent, cfg, maxRepetitions, k);
      SentIsSafe(cfg, run, sent);
      RepetitionsStep(cfg, sent, ReplyAt(agent, cfg, maxRepetitions, k - 1), maxRepetitions);
    }
  }
}
