/** The multi-root GETBULK walk as a state machine, one transition per request,
    and the loop that performs it.

    A run is described by the requests its consumer has drawn so far, so every
    prefix of every run is covered, including one that is abandoned. The agent
    is any function of the request number and the request: it may time out, fail,
    truncate or answer nonsense. */
module BulkWalk {
  import opened Wrappers
  import opened Mib

  datatype Indication = RequestTimedOut | OidNotIncreasing | OtherIndication(code: nat)

  datatype Request = Request(nonRepeaters: int, maxRepetitions: int, oids: seq<Oid>)

  // What one request brings back. Status 0 stands for "no error".
  datatype Response = Response(indication: Option<Indication>, status: nat, index: nat, table: seq<Row>)

  // What the generator hands to its consumer.
  datatype Yield = Yield(indication: Option<Indication>, status: nat, index: nat, rows: seq<Row>)
  {
    predicate Success() {
      indication.None? && status == 0
    }
  }

  type Agent = (nat, Request) -> Response

  datatype Config = Config(
    roots: seq<Oid>,
    nonRepeaters: int,
    lexicographicMode: bool,
    ignoreNonIncreasingOid: bool,
    maxRows: int,
    maxCalls: int)

  const NO_SUCH_NAME := 2

  // Why a run stopped, one constructor for each way out of the loop.
  datatype Ending =
    | Running
    | NoRoots
    | Failed
    | PduError
    | NoSuchName
    | EmptyTable
    | NothingValid
    | OverLimit
    | RowLimit
    | CallLimit
    | AllCompleted

  // A delivered row with the root it was credited to.
  datatype Found = Found(root: nat, row: Row)

  datatype Walk = Walk(
    completed: seq<bool>,
    last: seq<Oid>,
    totalRows: nat,
    totalCalls: nat,
    maxRepetitions: int)

  datatype Run = Run(walk: Walk, emitted: seq<Yield>, found: seq<Found>, requests: nat, ending: Ending)

  function Min(a: int, b: int): int {
    if a < b then a else b
  }

  function Max(a: int, b: int): int {
    if a < b then b else a
  }

  function Rows(found: seq<Found>): (rows: seq<Row>)
    ensures |rows| == |found|
  {
    seq(|found|, i requires 0 <= i < |found| => found[i].row)
  }

  // The indices of the roots still being walked, in order.
  function Active(completed: seq<bool>): (active: seq<nat>)
    ensures |active| <= |completed|
    ensures forall j :: 0 <= j < |active| ==> active[j] < |completed| && !completed[active[j]]
  {
    if completed == [] then []
    else
      var n := |completed| - 1;
      Active(completed[..n]) + (if completed[n] then [] else [n])
  }

  function NonRepeaterCount(nonRepeaters: int, numActive: nat): (n: nat)
    ensures n <= numActive
  {
    Min(Max(nonRepeaters, 0), numActive)
  }

  // Which active root the binding at `idx` of a flat response is credited to.
  function Slot(nonRepeaters: int, numActive: nat, idx: nat): (slot: Option<nat>)
    requires numActive > 0
    ensures slot.Some? ==> slot.value < numActive
  {
    var n := NonRepeaterCount(nonRepeaters, numActive);
    var repeaters := numActive - n;
    if n == 0 then Some(idx % numActive)
    else if idx < n then Some(idx)
    else if repeaters > 0 then Some(n + (idx - n) % repeaters)
    else None
  }

  // The part of the state that one response updates.
  datatype Demuxed = Demuxed(completed: seq<bool>, last: seq<Oid>, found: seq<Found>)

  ghost predicate Fits(cfg: Config, completed: seq<bool>, last: seq<Oid>) {
    |completed| == |last| == |cfg.roots|
  }

  function Credit(cfg: Config, d: Demuxed, root: nat, row: Row): (d': Demuxed)
    requires Fits(cfg, d.completed, d.last) && root < |cfg.roots|
    ensures Fits(cfg, d'.completed, d'.last)
  {
    if d.completed[root] then d
    else if row.val.Terminal() || !InScope(cfg.roots[root], cfg.lexicographicMode, row.name) then
      d.(completed := d.completed[root := true])
    else
      Demuxed(d.completed, d.last[root := row.name], d.found + [Found(root, row)])
  }

  // The effect of the first `n` bindings of a response.
  function Demux(cfg: Config, active: seq<nat>, d: Demuxed, table: seq<Row>, n: nat): (d': Demuxed)
    requires Fits(cfg, d.completed, d.last) && active != [] && n <= |table|
    requires forall j :: 0 <= j < |active| ==> active[j] < |cfg.roots|
    ensures Fits(cfg, d'.completed, d'.last)
  {
    if n == 0 then d
    else
      var before := Demux(cfg, active, d, table, n - 1);
      match Slot(cfg.nonRepeaters, |active|, n - 1)
      case None => before
      case Some(slot) => Credit(cfg, before, active[slot], table[n - 1])
  }

  // `maxRepetitions` shrinks towards the rows that may still be delivered.
  function Repetitions(cfg: Config, walk: Walk): int {
    if cfg.maxRows != 0 && walk.totalRows < cfg.maxRows
    then Min(walk.maxRepetitions, cfg.maxRows - walk.totalRows)
    else walk.maxRepetitions
  }

  // Where each active root has got to: the names of the next request.
  function Asked(completed: seq<bool>, last: seq<Oid>): (oids: seq<Oid>)
    requires |completed| == |last|
    ensures |oids| == |Active(completed)|
  {
    var active := Active(completed);
    seq(|active|, j requires 0 <= j < |active| => last[active[j]])
  }

  // The rows of a PDU error: the names asked for, without values.
  function Pending(oids: seq<Oid>): (rows: seq<Row>)
    ensures |rows| == |oids|
  {
    seq(|oids|, j requires 0 <= j < |oids| => Row(oids[j], Null))
  }

  function NextRequest(cfg: Config, walk: Walk): Request
    requires Fits(cfg, walk.completed, walk.last)
  {
    Request(cfg.nonRepeaters, Repetitions(cfg, walk), Asked(walk.completed, walk.last))
  }

  // The checks that follow a yield, in their order.
  function AfterYield(cfg: Config, walk: Walk): Ending {
    if cfg.maxRows != 0 && walk.totalRows >= cfg.maxRows then RowLimit
    else if cfg.maxCalls != 0 && walk.totalCalls >= cfg.maxCalls then CallLimit
    else if forall i :: 0 <= i < |walk.completed| ==> walk.completed[i] then AllCompleted
    else Running
  }

  function EffectiveIndication(cfg: Config, response: Response): Option<Indication> {
    if cfg.ignoreNonIncreasingOid && response.indication == Some(OidNotIncreasing) then None
    else response.indication
  }

  function AbsorbIndication(cfg: Config, run: Run, indication: Indication, response: Response): Run {
    var y := Yield(Some(indication), response.status, response.index, response.table);
    if indication != RequestTimedOut then
      run.(emitted := run.emitted + [y], ending := Failed)
    else
      run.(emitted := run.emitted + [y, y.(rows := [])], ending := AfterYield(cfg, run.walk))
  }

  function AbsorbPduError(cfg: Config, run: Run, response: Response): Run
    requires Fits(cfg, run.walk.completed, run.walk.last)
  {
    var rows := Pending(Asked(run.walk.completed, run.walk.last));
    if response.status == NO_SUCH_NAME then
      run.(emitted := run.emitted + [Yield(None, 0, 0, rows)], ending := NoSuchName)
    else
      run.(emitted := run.emitted + [Yield(None, response.status, response.index, rows)], ending := PduError)
  }

  function AbsorbTable(cfg: Config, run: Run, response: Response): Run
    requires Fits(cfg, run.walk.completed, run.walk.last) && Active(run.walk.completed) != []
  {
    var start := Demuxed(run.walk.completed, run.walk.last, []);
    var d := Demux(cfg, Active(run.walk.completed), start, response.table, |response.table|);
    var walk := Walk(d.completed, d.last, run.walk.totalRows + |d.found|, run.walk.totalCalls + 1,
                     run.walk.maxRepetitions);
    if d.found == [] then run.(walk := walk, ending := NothingValid)
    else
      var keep := |d.found| - (walk.totalRows - cfg.maxRows);
      if cfg.maxRows != 0 && walk.totalRows > cfg.maxRows && keep <= 0 then run.(walk := walk, ending := OverLimit)
      else
        var over := cfg.maxRows != 0 && walk.totalRows > cfg.maxRows;
        var kept := if over then d.found[..keep] else d.found;
        var walk' := if over then walk.(totalRows := cfg.maxRows) else walk;
        run.(walk := walk',
             emitted := run.emitted + [Yield(None, 0, response.index, Rows(kept))],
             found := run.found + kept,
             ending := AfterYield(cfg, walk'))
  }

  function Absorb(cfg: Config, run: Run, response: Response): (run': Run)
    requires Fits(cfg, run.walk.completed, run.walk.last) && Active(run.walk.completed) != []
    ensures Fits(cfg, run'.walk.completed, run'.walk.last)
  {
    var indication := EffectiveIndication(cfg, response);
    if indication.Some? then AbsorbIndication(cfg, run, indication.value, response)
    else if response.status != 0 then AbsorbPduError(cfg, run, response)
    else if response.table == [] then run.(ending := EmptyTable)
    else AbsorbTable(cfg, run, response)
  }

  // One turn of the loop: a request, its response, and what follows from it.
  function Step(agent: Agent, cfg: Config, run: Run): (run': Run)
    requires Fits(cfg, run.walk.completed, run.walk.last) && Active(run.walk.completed) != []
    ensures Fits(cfg, run'.walk.completed, run'.walk.last)
  {
    var request := NextRequest(cfg, run.walk);
    var sent := run.(walk := run.walk.(maxRepetitions := request.maxRepetitions), requests := run.requests + 1);
    Absorb(cfg, sent, agent(run.requests, request))
  }

  function Start(cfg: Config, maxRepetitions: int): (run: Run)
    ensures Fits(cfg, run.walk.completed, run.walk.last)
  {
    var walk := Walk(seq(|cfg.roots|, _ => false), cfg.roots, 0, 0, maxRepetitions);
    if cfg.roots == [] then Run(walk, [Yield(None, 0, 0, [])], [], 0, NoRoots)
    else Run(walk, [], [], 0, Running)
  }

  // The run after at most `k` requests.
  function After(agent: Agent, cfg: Config, maxRepetitions: int, k: nat): (run: Run)
    ensures Fits(cfg, run.walk.completed, run.walk.last)
    ensures run.ending == Running ==> Active(run.walk.completed) != []
  {
    if k == 0 then
      AllActive(Start(cfg, maxRepetitions).walk.completed);
      Start(cfg, maxRepetitions)
    else
      var run := After(agent, cfg, maxRepetitions, k - 1);
      if run.ending != Running then run
      else
        RunningHasActive(agent, cfg, run);
        Step(agent, cfg, run)
  }

  lemma {:induction false} AllActive(completed: seq<bool>)
    ensures (exists i :: 0 <= i < |completed| && !completed[i]) ==> Active(completed) != []
  {
    if completed != [] {
      var n := |completed| - 1;
      AllActive(completed[..n]);
      if exists i :: 0 <= i < |completed| && !completed[i] {
        var i :| 0 <= i < |completed| && !completed[i];
        if i < n {
          assert !completed[..n][i];
        }
      }
    }
  }

  lemma RunningHasActive(agent: Agent, cfg: Config, run: Run)
    requires Fits(cfg, run.walk.completed, run.walk.last) && Active(run.walk.completed) != []
    ensures var run' := Step(agent, cfg, run);
            run'.ending == Running ==> Active(run'.walk.completed) != []
  {
    hide Demux, Active, NextRequest, EffectiveIndication;
    var run' := Step(agent, cfg, run);
    if run'.ending == Running {
      AllActive(run'.walk.completed);
    }
  }

  // The indices of `completed` that are still false, by the loop's comprehension.
  method ActiveIndices(completed: array<bool>) returns (active: seq<nat>)
    ensures active == Active(completed[..])
  {
    active := [];
    for i := 0 to completed.Length
      invariant active == Active(completed[..i])
    {
      assert completed[..i + 1][..i] == completed[..i];
      if !completed[i] {
        active := active + [i];
      }
    }
    assert completed[..completed.Length] == completed[..];
  }

  // The inner loop: credit each binding of the response to its root.
  method Demultiplex(cfg: Config, active: seq<nat>, table: seq<Row>, completed: array<bool>, lastOids: array<Oid>)
    returns (validResults: seq<Row>, ghost found: seq<Found>)
    requires Fits(cfg, completed[..], lastOids[..]) && active != []
    requires forall j :: 0 <= j < |active| ==> active[j] < |cfg.roots|
    modifies completed, lastOids
    ensures var d := Demux(cfg, active, Demuxed(old(completed[..]), old(lastOids[..]), []), table, |table|);
            completed[..] == d.completed && lastOids[..] == d.last && found == d.found && validResults == Rows(d.found)
  {
    validResults, found := [], [];
    ghost var start := Demuxed(completed[..], lastOids[..], []);
    var nonRepeaterCount := Min(Max(cfg.nonRepeaters, 0), |active|);
    var repeaterCount := |active| - nonRepeaterCount;
    var idx := 0;
    while idx < |table|
      invariant 0 <= idx <= |table|
      invariant Demux(cfg, active, start, table, idx) == Demuxed(completed[..], lastOids[..], found)
      invariant validResults == Rows(found)
    {
      var slot;
      if nonRepeaterCount == 0 {
        slot := idx % |active|;
      } else if idx < nonRepeaterCount {
        slot := idx;
      } else if repeaterCount != 0 {
        slot := nonRepeaterCount + (idx - nonRepeaterCount) % repeaterCount;
      } else {
        NothingPastNonRepeaters(cfg, active, start, table, idx, |table|);
        break;
      }
      assert Slot(cfg.nonRepeaters, |active|, idx) == Some(slot);
      var originalIdx := active[slot];
      idx := idx + 1;
      if completed[originalIdx] {
        continue;
      }
      var row := table[idx - 1];
      if row.val.Terminal() || !InScope(cfg.roots[originalIdx], cfg.lexicographicMode, row.name) {
        completed[originalIdx] := true;
        continue;
      }
      validResults := validResults + [row];
      found := found + [Found(originalIdx, row)];
      lastOids[originalIdx] := row.name;
    }
  }

  lemma {:induction false} NothingPastNonRepeaters(cfg: Config, active: seq<nat>, d: Demuxed, table: seq<Row>, m: nat,
                                                   n: nat)
    requires Fits(cfg, d.completed, d.last) && active != [] && m <= n <= |table|
    requires forall j :: 0 <= j < |active| ==> active[j] < |cfg.roots|
    requires NonRepeaterCount(cfg.nonRepeaters, |active|) == |active| <= m
    ensures Demux(cfg, active, d, table, n) == Demux(cfg, active, d, table, m)
  {
    if m < n {
      NothingPastNonRepeaters(cfg, active, d, table, m, n - 1);
      assert Slot(cfg.nonRepeaters, |active|, n - 1) == None;
    }
  }

  // The names of the next request: where each active root has got to.
  method RequestOids(active: seq<nat>, lastOids: array<Oid>) returns (oids: seq<Oid>)
    requires forall j :: 0 <= j < |active| ==> active[j] < lastOids.Length
    ensures |oids| == |active| && forall j :: 0 <= j < |active| ==> oids[j] == lastOids[active[j]]
  {
    oids := [];
    for j := 0 to |active|
      invariant |oids| == j && forall i :: 0 <= i < j ==> oids[i] == lastOids[active[i]]
    {
      oids := oids + [lastOids[active[j]]];
    }
  }

  // A response that carries bindings: credit them, count them and cut the
  // batch at the row limit. `stop` says that the generator returns without a yield.
  method TakeTable(cfg: Config, active: seq<nat>, response: Response, completed: array<bool>, lastOids: array<Oid>,
                   totalRows: nat, totalCalls: nat, ghost run: Run)
    returns (validResults: seq<Row>, totalRows': nat, totalCalls': nat, stop: bool)
    requires Fits(cfg, run.walk.completed, run.walk.last) && active == Active(run.walk.completed) != []
    requires run.walk == Walk(completed[..], lastOids[..], totalRows, totalCalls, run.walk.maxRepetitions)
    modifies completed, lastOids
    ensures var run' := AbsorbTable(cfg, run, response);
            && (stop ==> run'.emitted == run.emitted && run'.ending != Running)
            && (!stop ==>
                  && run'.walk == Walk(completed[..], lastOids[..], totalRows', totalCalls', run.walk.maxRepetitions)
                  && run'.emitted == run.emitted + [Yield(None, 0, response.index, validResults)]
                  && run'.ending == AfterYield(cfg, run'.walk))
  {
    ghost var found;
    validResults, found := Demultiplex(cfg, active, response.table, completed, lastOids);
    totalRows' := totalRows + |validResults|;
    totalCalls' := totalCalls + 1;
    stop := true;
    if validResults == [] {
      return;
    }
    if cfg.maxRows != 0 && totalRows' > cfg.maxRows {
      var excess := totalRows' - cfg.maxRows;
      var keepCount := |validResults| - excess;
      if keepCount <= 0 {
        return;
      }
      assert validResults[..keepCount] == Rows(found[..keepCount]);
      validResults := validResults[..keepCount];
      totalRows' := cfg.maxRows;
    }
    stop := false;
  }

  // The checks at the bottom of the loop.
  method Ended(cfg: Config, completed: array<bool>, totalRows: nat, totalCalls: nat, ghost walk: Walk)
    returns (ended: bool)
    requires walk.completed == completed[..] && walk.totalRows == totalRows && walk.totalCalls == totalCalls
    ensures ended <==> AfterYield(cfg, walk) != Running
  {
    if cfg.maxRows != 0 && totalRows >= cfg.maxRows {
      return true;
    }
    if cfg.maxCalls != 0 && totalCalls >= cfg.maxCalls {
      return true;
    }
    return forall i :: 0 <= i < completed.Length ==> completed[i];
  }

  // What the generator does with one response.
  method Receive(cfg: Config, response: Response, active: seq<nat>, oids: seq<Oid>, completed: array<bool>,
                 lastOids: array<Oid>, rows: nat, calls: nat, ghost run: Run, ghost run': Run)
    returns (emitted: seq<Yield>, totalRows: nat, totalCalls: nat, finished: bool)
    requires Fits(cfg, run.walk.completed, run.walk.last) && active == Active(run.walk.completed) != []
    requires oids == Asked(run.walk.completed, run.walk.last) && run.ending == Running
    requires run.walk == Walk(completed[..], lastOids[..], rows, calls, run.walk.maxRepetitions)
    requires run' == Absorb(cfg, run, response)
    modifies completed, lastOids
    ensures run'.emitted == run.emitted + emitted
    ensures finished <==> run'.ending != Running
    ensures !finished ==> run'.walk == Walk(completed[..], lastOids[..], totalRows, totalCalls, run.walk.maxRepetitions)
  {
    emitted, totalRows, totalCalls, finished := [], rows, calls, true;
    var indication := response.indication;
    if cfg.ignoreNonIncreasingOid && indication == Some(OidNotIncreasing) {
      indication := None;
    }
    if indication.Some? {
      emitted := emitted + [Yield(indication, response.status, response.index, response.table)];
      if indication.value != RequestTimedOut {
        finished := true;
      } else {
        emitted := emitted + [Yield(indication, response.status, response.index, [])];
        finished := Ended(cfg, completed, totalRows, totalCalls, run'.walk);
      }
    } else if response.status != 0 {
      var status, index := response.status, response.index;
      if status == NO_SUCH_NAME {
        status, index := 0, 0;
      }
      emitted := emitted + [Yield(None, status, index, Pending(oids))];
      finished := true;
    } else if response.table == [] {
      finished := true;
    } else {
      var validResults, stop;
      validResults, totalRows, totalCalls,
          stop := TakeTable(cfg, active, response, completed, lastOids, totalRows, totalCalls, run);
      if stop {
        finished := true;
      } else {
        emitted := emitted + [Yield(None, 0, response.index, validResults)];
        finished := Ended(cfg, completed, totalRows, totalCalls, run'.walk);
      }
    }
  }

  // One turn of the loop, from the request to the checks at its bottom.
  method Turn(agent: Agent, cfg: Config, ghost initialRepetitions: int, requests: nat, completed: array<bool>,
              lastOids: array<Oid>, rows: nat, calls: nat, repetitions: int)
    returns (batch: seq<Yield>, totalRows: nat, totalCalls: nat, maxRepetitions: int, finished: bool)
    requires var run := After(agent, cfg, initialRepetitions, requests);
             && run.ending == Running && run.requests == requests
             && run.walk == Walk(completed[..], lastOids[..], rows, calls, repetitions)
    modifies completed, lastOids
    ensures var run := After(agent, cfg, initialRepetitions, requests);
            var run' := After(agent, cfg, initialRepetitions, requests + 1);
            && run'.emitted == run.emitted + batch && run'.requests == requests + 1
            && (finished <==> run'.ending != Running)
            && (!finished ==> run'.walk == Walk(completed[..], lastOids[..], totalRows, totalCalls, maxRepetitions))
  {
    ghost var run := After(agent, cfg, initialRepetitions, requests);
    maxRepetitions := repetitions;
    if cfg.maxRows != 0 && rows < cfg.maxRows {
      maxRepetitions := Min(maxRepetitions, cfg.maxRows - rows);
    }
    var active := ActiveIndices(completed);
    var oids := RequestOids(active, lastOids);
    assert oids == Asked(run.walk.completed, run.walk.last);
    var response := agent(requests, Request(cfg.nonRepeaters, maxRepetitions, oids));
    ghost var sent := run.(walk := run.walk.(maxRepetitions := maxRepetitions), requests := requests + 1);
    ghost var next := After(agent, cfg, initialRepetitions, requests + 1);
    AfterAbsorbs(agent, cfg, initialRepetitions, requests, sent, response);
    batch, totalRows, totalCalls, finished :=
      Receive(cfg, response, active, oids, completed, lastOids, rows, calls, sent, next);
  }

  lemma AfterAbsorbs(agent: Agent, cfg: Config, initialRepetitions: int, k: nat, sent: Run, response: Response)
    requires var run := After(agent, cfg, initialRepetitions, k);
             && run.ending == Running
             && sent == run.(walk := run.walk.(maxRepetitions := Repetitions(cfg, run.walk)),
                             requests := run.requests + 1)
             && response == agent(run.requests, NextRequest(cfg, run.walk))
    ensures After(agent, cfg, initialRepetitions, k + 1) == Absorb(cfg, sent, response)
    ensures After(agent, cfg, initialRepetitions, k + 1).requests ==
              After(agent, cfg, initialRepetitions, k).requests + 1
  {
  }

  // The generator, drawn for at most `budget` requests.
  method MultiBulkWalk(agent: Agent, cfg: Config, initialRepetitions: int, budget: nat)
    returns (emitted: seq<Yield>, requests: nat, finished: bool)
    ensures var run := After(agent, cfg, initialRepetitions, budget);
            emitted == run.emitted && requests == run.requests && (finished <==> run.ending != Running)
  {
    emitted, requests, finished := [], 0, false;
    if cfg.roots == [] {
      NothingAfterTheEnd(agent, cfg, initialRepetitions, 0, budget);
      return [Yield(None, 0, 0, [])], 0, true;
    }
    var completed := new bool[|cfg.roots|](_ => false);
    var lastOids := new Oid[|cfg.roots|](i requires 0 <= i < |cfg.roots| => cfg.roots[i]);
    var totalRows: nat, totalCalls: nat, maxRepetitions := 0, 0, initialRepetitions;
    assert completed[..] == Start(cfg, initialRepetitions).walk.completed;
    assert lastOids[..] == Start(cfg, initialRepetitions).walk.last;

    while requests < budget && !finished
      invariant requests <= budget && fresh(completed) && fresh(lastOids)
      invariant var run := After(agent, cfg, initialRepetitions, requests);
                && run.requests == requests && run.emitted == emitted && (finished <==> run.ending != Running)
                && (!finished ==> run.walk == Walk(completed[..], lastOids[..], totalRows, totalCalls, maxRepetitions))
      decreases budget - requests
    {
      var batch;
      batch, totalRows, totalCalls, maxRepetitions, finished :=
        Turn(agent, cfg, initialRepetitions, requests, completed, lastOids, totalRows, totalCalls, maxRepetitions);
      emitted, requests := emitted + batch, requests + 1;
    }
    NothingAfterTheEnd(agent, cfg, initialRepetitions, requests, budget);
  }

  // Once stopped, a run stays as it is.
  lemma {:induction false} NothingAfterTheEnd(agent: Agent, cfg: Config, maxRepetitions: int, j: nat, k: nat)
    requires j <= k
    ensures After(agent, cfg, maxRepetitions, j).ending != Running ==>
              After(agent, cfg, maxRepetitions, k) == After(agent, cfg, maxRepetitions, j)
  {
    if j < k {
      NothingAfterTheEnd(agent, cfg, maxRepetitions, j, k - 1);
    }
  }

  lemma StepSendsOne(agent: Agent, cfg: Config, run: Run)
    requires Fits(cfg, run.walk.completed, run.walk.last) && Active(run.walk.completed) != []
    ensures Step(agent, cfg, run).requests == run.requests + 1
  {
    hide Active, Demux, NextRequest, EffectiveIndication;
  }

  lemma {:induction false} RequestsCounted(agent: Agent, cfg: Config, maxRepetitions: int, k: nat)
    ensures var run := After(agent, cfg, maxRepetitions, k);
            run.requests <= k && (run.ending == Running ==> run.requests == k)
  {
    hide Step, Active;
    if k > 0 {
      RequestsCounted(agent, cfg, maxRepetitions, k - 1);
      var before := After(agent, cfg, maxRepetitions, k - 1);
      if before.ending == Running {
        StepSendsOne(agent, cfg, before);
      }
    }
  }
}
