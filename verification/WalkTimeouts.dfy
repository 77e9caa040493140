/** Timeouts: the walk repeats a request that got no answer. A walk some of
    whose requests time out does what the walk without those requests does. */
module WalkTimeouts {
  import opened Wrappers
  import opened Mib
  import opened BulkWalk
  import opened WalkSafety
  import opened WalkRefinement
  import opened WalkCompleteness
  import opened RoundRobin
  import opened BatchIndependence

  // How many of the first `k` requests are answered.
  function Heard(silent: nat -> bool, k: nat): (n: nat)
    ensures n <= k
  {
    if k == 0 then 0 else Heard(silent, k - 1) + if silent(k - 1) then 0 else 1
  }

  // `agent` answers as `inner` does, except that the requests with a silent
  // number time out.
  ghost predicate TimesOut(agent: Agent, inner: Agent, silent: nat -> bool) {
    forall k: nat, request: Request ::
      if silent(k) then agent(k, request).indication == Some(RequestTimedOut)
      else agent(k, request) == inner(Heard(silent, k), request)
  }

  // All that a consumer and the next request can tell of a run.
  ghost predicate Alike(cfg: Config, a: Run, b: Run) {
    && a.found == b.found && a.ending == b.ending && Delivered(a.emitted) == Delivered(b.emitted)
    && a.walk.completed == b.walk.completed && a.walk.last == b.walk.last
    && a.walk.totalRows == b.walk.totalRows && a.walk.totalCalls == b.walk.totalCalls
    && Repetitions(cfg, a.walk) == Repetitions(cfg, b.walk)
  }

  lemma DeliveredNext(emitted: seq<Yield>, y: Yield)
    ensures Delivered(emitted + [y]) == Delivered(emitted) + if y.Success() then y.rows else []
  {
    assert (emitted + [y])[..|emitted|] == emitted;
  }

  // The same response does the same to runs that differ in their history only.
  lemma AbsorbsAlike(cfg: Config, a: Run, b: Run, response: Response)
    requires Fits(cfg, a.walk.completed, a.walk.last) && Active(a.walk.completed) != []
    requires a.walk == b.walk && a.found == b.found && a.ending == b.ending
    requires Delivered(a.emitted) == Delivered(b.emitted)
    ensures Alike(cfg, Absorb(cfg, a, response), Absorb(cfg, b, response))
    ensures Absorb(cfg, a, response).requests == a.requests && Absorb(cfg, b, response).requests == b.requests
  {
    hide Delivered, Demux, Active, Repetitions, AfterYield;
    forall y
      ensures Delivered(a.emitted + [y]) == Delivered(b.emitted + [y])
    {
      DeliveredNext(a.emitted, y);
      DeliveredNext(b.emitted, y);
    }
    forall y, z
      ensures a.emitted + [y, z] == a.emitted + [y] + [z] && b.emitted + [y, z] == b.emitted + [y] + [z]
      ensures Delivered(a.emitted + [y, z]) == Delivered(b.emitted + [y, z])
    {
      DeliveredNext(a.emitted + [y], z);
      DeliveredNext(b.emitted + [y], z);
    }
  }

  // A timeout leaves a run as it was.
  lemma TimeoutChangesNothing(cfg: Config, run: Run, sent: Run, response: Response)
    requires Safe(cfg, run) && run.ending == Running && cfg.maxRows >= 0 && cfg.maxCalls >= 0
    requires Fits(cfg, run.walk.completed, run.walk.last) && Active(run.walk.completed) != []
    requires sent == run.(walk := run.walk.(maxRepetitions := Repetitions(cfg, run.walk)),
                          requests := run.requests + 1)
    requires response.indication == Some(RequestTimedOut)
    ensures Alike(cfg, Absorb(cfg, sent, response), run)
    ensures Absorb(cfg, sent, response).requests == run.requests + 1
  {
    hide Delivered, Active;
    var y := Yield(response.indication, response.status, response.index, response.table);
    DeliveredNext(run.emitted, y);
    DeliveredNext(run.emitted + [y], y.(rows := []));
    assert run.emitted + [y, y.(rows := [])] == run.emitted + [y] + [y.(rows := [])];
    var active := Active(run.walk.completed);
    assert !run.walk.completed[active[0]];
  }

  // The walk after `k` requests, some of them silent, and the walk after the
  // answered ones of them, which are also all that it counts.
  ghost predicate Together(agent: Agent, inner: Agent, silent: nat -> bool, cfg: Config, maxRepetitions: int, k: nat) {
    var a, b := After(agent, cfg, maxRepetitions, k), After(inner, cfg, maxRepetitions, Heard(silent, k));
    Alike(cfg, a, b) && Heard(silent, a.requests) == b.requests
  }

  lemma {:induction false} TimeoutsOnlyDelay(agent: Agent, inner: Agent, silent: nat -> bool, cfg: Config,
                                             maxRepetitions: int, k: nat)
    requires TimesOut(agent, inner, silent) && cfg.maxRows >= 0 && cfg.maxCalls >= 0
    ensures Together(agent, inner, silent, cfg, maxRepetitions, k)
  {
    hide After, TimesOut, Alike;
    if k == 0 {
      TogetherAtStart(agent, inner, silent, cfg, maxRepetitions);
    } else {
      TimeoutsOnlyDelay(agent, inner, silent, cfg, maxRepetitions, k - 1);
      if After(agent, cfg, maxRepetitions, k - 1).ending != Running {
        TogetherEnded(agent, inner, silent, cfg, maxRepetitions, k - 1);
      } else if silent(k - 1) {
        TogetherSilent(agent, inner, silent, cfg, maxRepetitions, k - 1);
      } else {
        TogetherHeard(agent, inner, silent, cfg, maxRepetitions, k - 1);
      }
    }
  }

  lemma TogetherAtStart(agent: Agent, inner: Agent, silent: nat -> bool, cfg: Config, maxRepetitions: int)
    ensures Together(agent, inner, silent, cfg, maxRepetitions, 0)
  {
  }

  lemma TogetherEnded(agent: Agent, inner: Agent, silent: nat -> bool, cfg: Config, maxRepetitions: int, k: nat)
    requires Together(agent, inner, silent, cfg, maxRepetitions, k)
    requires After(agent, cfg, maxRepetitions, k).ending != Running
    ensures Together(agent, inner, silent, cfg, maxRepetitions, k + 1)
  {
    hide After;
    NothingAfterTheEnd(agent, cfg, maxRepetitions, k, k + 1);
    NothingAfterTheEnd(inner, cfg, maxRepetitions, Heard(silent, k), Heard(silent, k + 1));
  }

  lemma TogetherSilent(agent: Agent, inner: Agent, silent: nat -> bool, cfg: Config, maxRepetitions: int, k: nat)
    requires TimesOut(agent, inner, silent) && cfg.maxRows >= 0 && cfg.maxCalls >= 0 && silent(k)
    requires Together(agent, inner, silent, cfg, maxRepetitions, k)
    requires After(agent, cfg, maxRepetitions, k).ending == Running
    ensures Together(agent, inner, silent, cfg, maxRepetitions, k + 1)
  {
    hide After, Absorb, Safe, Active, Delivered, Repetitions, NextRequest;
    var run := After(agent, cfg, maxRepetitions, k);
    var sent := run.(walk := run.walk.(maxRepetitions := Repetitions(cfg, run.walk)), requests := run.requests + 1);
    var response := agent(run.requests, NextRequest(cfg, run.walk));
    RequestsCounted(agent, cfg, maxRepetitions, k);
    AlwaysSafe(agent, cfg, maxRepetitions, k);
    AfterAbsorbs(agent, cfg, maxRepetitions, k, sent, response);
    TimeoutChangesNothing(cfg, run, sent, response);
  }

  lemma TogetherHeard(agent: Agent, inner: Agent, silent: nat -> bool, cfg: Config, maxRepetitions: int, k: nat)
    requires TimesOut(agent, inner, silent) && !silent(k)
    requires Together(agent, inner, silent, cfg, maxRepetitions, k)
    requires After(agent, cfg, maxRepetitions, k).ending == Running
    ensures Together(agent, inner, silent, cfg, maxRepetitions, k + 1)
  {
    hide After, Absorb, Active, Delivered, Repetitions, Asked;
    var h := Heard(silent, k);
    var a, b := After(agent, cfg, maxRepetitions, k), After(inner, cfg, maxRepetitions, h);
    RequestsCounted(agent, cfg, maxRepetitions, k);
    RequestsCounted(inner, cfg, maxRepetitions, h);
    var response := agent(a.requests, NextRequest(cfg, a.walk));
    assert response == inner(b.requests, NextRequest(cfg, b.walk));
    var sentA := a.(walk := a.walk.(maxRepetitions := Repetitions(cfg, a.walk)), requests := a.requests + 1);
    var sentB := b.(walk := b.walk.(maxRepetitions := Repetitions(cfg, b.walk)), requests := b.requests + 1);
    AfterAbsorbs(agent, cfg, maxRepetitions, k, sentA, response);
    AfterAbsorbs(inner, cfg, maxRepetitions, h, sentB, response);
    AbsorbsAlike(cfg, sentA, sentB, response);
  }

  // So timeouts lose nothing: once enough requests have been answered every
  // root has delivered its listing ...
  lemma CompleteDespiteTimeouts(mib: seq<Row>, agent: Agent, inner: Agent, silent: nat -> bool, cfg: Config,
                                maxRepetitions: int, k: nat, root: nat)
    requires Sorted(mib) && Faithful(mib, inner) && TimesOut(agent, inner, silent) && maxRepetitions >= 1
    requires cfg.maxRows == 0 && cfg.maxCalls == 0 && root < |cfg.roots| && Heard(silent, k) > |mib|
    ensures var run := After(agent, cfg, maxRepetitions, k);
            && Project(run.found, root) == Listing(mib, cfg.roots[root], cfg.lexicographicMode)
            && Delivered(run.emitted) == Rows(run.found)
  {
    hide After, Listing, Sorted, Faithful, TimesOut, Heard, Delivered, Project, Repetitions;
    TimeoutsOnlyDelay(agent, inner, silent, cfg, maxRepetitions, k);
    EachRootIsComplete(mib, inner, cfg, maxRepetitions, Heard(silent, k), root);
  }

  // ... the rows and their order are those of the round robin ...
  lemma BatchIndependentDespiteTimeouts(mib: seq<Row>, agent: Agent, inner: Agent, silent: nat -> bool, cfg: Config,
                                        maxRepetitions: int, k: nat)
    requires Sorted(mib) && WholeFaithful(mib, inner) && TimesOut(agent, inner, silent)
    requires cfg.nonRepeaters <= 0 && maxRepetitions >= 1 && cfg.maxRows >= 0 && cfg.maxCalls >= 0
    ensures var delivered := Delivered(After(agent, cfg, maxRepetitions, k).emitted);
            var all := Rows(Interleaving(Listings(mib, cfg)));
            && delivered <= all
            && (Heard(silent, k) > |mib| && cfg.maxCalls == 0 ==> delivered == Limited(cfg, all))
  {
    hide After, Listings, Sorted, WholeFaithful, TimesOut, Heard, Delivered, Interleaving, Repetitions;
    TimeoutsOnlyDelay(agent, inner, silent, cfg, maxRepetitions, k);
    BatchIndependent(mib, inner, cfg, maxRepetitions, Heard(silent, k));
  }

  // ... and the answered requests are as many as without them.
  lemma CostDespiteTimeouts(mib: seq<Row>, agent: Agent, inner: Agent, silent: nat -> bool, cfg: Config,
                            maxRepetitions: nat, m: nat, k: nat)
    requires Sorted(mib) && SendsEachTime(mib, inner, maxRepetitions, m) && TimesOut(agent, inner, silent)
    requires cfg.nonRepeaters <= 0 && maxRepetitions >= 1 && cfg.roots != [] && cfg.maxRows == 0 && cfg.maxCalls == 0
    requires Heard(silent, k) > |mib|
    ensures Heard(silent, After(agent, cfg, maxRepetitions, k).requests) == Longest(Listings(mib, cfg)) / m + 1
  {
    hide After, Listings, Sorted, SendsEachTime, TimesOut, Heard, Delivered, Longest, Repetitions;
    TimeoutsOnlyDelay(agent, inner, silent, cfg, maxRepetitions, k);
    ExactCost(mib, inner, cfg, maxRepetitions, m, Heard(silent, k));
  }
}
