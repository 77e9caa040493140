/** What the walk guarantees against any agent whatever: responses may time out,
    fail, come in any order and length, and repeat or go back on names. */
module WalkSafety {
  import opened Wrappers
  import opened Mib
  import opened BulkWalk

  // The rows of the success yields, in order.
  function Delivered(emitted: seq<Yield>): seq<Row> {
    if emitted == [] then []
    else
      var y := emitted[|emitted| - 1];
      Delivered(emitted[..|emitted| - 1]) + (if y.Success() then y.rows else [])
  }

  function Successes(emitted: seq<Yield>): nat {
    if emitted == [] then 0
    else Successes(emitted[..|emitted| - 1]) + (if emitted[|emitted| - 1].Success() then 1 else 0)
  }

  // The rows credited to one root, in order.
  function Project(found: seq<Found>, root: nat): (rows: seq<Row>)
    ensures |rows| <= |found|
  {
    if found == [] then []
    else
      var f := found[|found| - 1];
      Project(found[..|found| - 1], root) + (if f.root == root then [f.row] else [])
  }

  lemma {:induction false} ProjectConcat(a: seq<Found>, b: seq<Found>, root: nat)
    ensures Project(a + b, root) == Project(a, root) + Project(b, root)
  {
    if b == [] {
      assert a + b == a;
    } else {
      var n := |b| - 1;
      ProjectConcat(a, b[..n], root);
      assert (a + b)[..|a + b| - 1] == a + b[..n];
    }
  }

  lemma {:induction false} ProjectAbsent(found: seq<Found>, root: nat)
    requires forall f :: f in found ==> f.root != root
    ensures Project(found, root) == []
  {
    if found != [] {
      ProjectAbsent(found[..|found| - 1], root);
    }
  }

  ghost predicate GoodCredit(cfg: Config, f: Found) {
    f.root < |cfg.roots| && f.row.val.Data? && InScope(cfg.roots[f.root], cfg.lexicographicMode, f.row.name)
  }

  lemma {:induction false} DemuxIsSafe(cfg: Config, active: seq<nat>, d: Demuxed, table: seq<Row>, n: nat)
    requires Fits(cfg, d.completed, d.last) && active != [] && n <= |table|
    requires forall j :: 0 <= j < |active| ==> active[j] < |cfg.roots|
    requires forall f :: f in d.found ==> GoodCredit(cfg, f) && !d.completed[f.root]
    ensures var d' := Demux(cfg, active, d, table, n);
            && (forall f :: f in d'.found ==> GoodCredit(cfg, f) && !d.completed[f.root])
            && (forall i :: 0 <= i < |cfg.roots| && d.completed[i] ==> d'.completed[i])
  {
    if n > 0 {
      DemuxIsSafe(cfg, active, d, table, n - 1);
    }
  }

  // What holds between two requests.
  ghost predicate Safe(cfg: Config, run: Run) {
    && (forall f :: f in run.found ==> GoodCredit(cfg, f))
    && (cfg.maxRows > 0 ==> |run.found| <= cfg.maxRows)
    && (cfg.maxCalls > 0 ==> Successes(run.emitted) <= cfg.maxCalls)
    && (run.ending != NoSuchName ==> Delivered(run.emitted) == Rows(run.found))
    && (run.ending == NoSuchName ==> HidesNulls(run))
    && (run.ending == OverLimit ==> cfg.maxRows < 0)
    && (run.ending == NoRoots ==> cfg.roots == [])
    && (run.ending == Running ==>
          && run.walk.totalRows == |run.found|
          && run.walk.totalCalls == Successes(run.emitted)
          && (cfg.maxRows > 0 ==> |run.found| < cfg.maxRows)
          && (cfg.maxCalls > 0 ==> run.walk.totalCalls < cfg.maxCalls))
  }

  // A hidden noSuchName: the last yield looks like a success and has nothing but Nulls.
  ghost predicate HidesNulls(run: Run) {
    && run.emitted != []
    && var y := run.emitted[|run.emitted| - 1];
       && y.Success() && y.rows != []
       && (forall r :: r in y.rows ==> r.val.Null?)
       && Delivered(run.emitted) == Rows(run.found) + y.rows
  }

  lemma IndicationIsSafe(cfg: Config, run: Run, indication: Indication, response: Response)
    requires Safe(cfg, run) && run.ending == Running
    ensures Safe(cfg, AbsorbIndication(cfg, run, indication, response))
  {
    var y := Yield(Some(indication), response.status, response.index, response.table);
    assert run.emitted + [y] + [y.(rows := [])] == run.emitted + [y, y.(rows := [])];
  }

  lemma PduErrorIsSafe(cfg: Config, run: Run, response: Response)
    requires Fits(cfg, run.walk.completed, run.walk.last) && Active(run.walk.completed) != []
    requires Safe(cfg, run) && run.ending == Running && response.status != 0
    ensures Safe(cfg, AbsorbPduError(cfg, run, response))
  {
    var rows := Pending(Asked(run.walk.completed, run.walk.last));
  }

  lemma RowsConcat(a: seq<Found>, b: seq<Found>)
    ensures Rows(a + b) == Rows(a) + Rows(b)
  {
  }

  lemma TableIsSafe(cfg: Config, run: Run, response: Response)
    requires Fits(cfg, run.walk.completed, run.walk.last) && Active(run.walk.completed) != []
    requires Safe(cfg, run) && run.ending == Running
    ensures Safe(cfg, AbsorbTable(cfg, run, response))
  {
    var active, start := Active(run.walk.completed), Demuxed(run.walk.completed, run.walk.last, []);
    DemuxIsSafe(cfg, active, start, response.table, |response.table|);
    var d := Demux(cfg, active, start, response.table, |response.table|);
    var run' := AbsorbTable(cfg, run, response);
    if run'.ending != NothingValid && run'.ending != OverLimit {
      var kept := run'.found[|run.found|..];
      RowsConcat(run.found, kept);
    }
  }

  lemma NextIsSafe(agent: Agent, cfg: Config, maxRepetitions: int, k: nat)
    requires Safe(cfg, After(agent, cfg, maxRepetitions, k))
    ensures Safe(cfg, After(agent, cfg, maxRepetitions, k + 1))
  {
    if After(agent, cfg, maxRepetitions, k).ending == Running {
      AbsorbIsSafe(agent, cfg, maxRepetitions, k);
    } else {
      NothingAfterTheEnd(agent, cfg, maxRepetitions, k, k + 1);
    }
  }

  lemma {:induction false} AlwaysSafe(agent: Agent, cfg: Config, maxRepetitions: int, k: nat)
    ensures Safe(cfg, After(agent, cfg, maxRepetitions, k))
  {
    if k == 0 {
    } else {
      AlwaysSafe(agent, cfg, maxRepetitions, k - 1);
      NextIsSafe(agent, cfg, maxRepetitions, k - 1);
    }
  }

  lemma AbsorbIsSafe(agent: Agent, cfg: Config, maxRepetitions: int, k: nat)
    requires After(agent, cfg, maxRepetitions, k).ending == Running
    requires Safe(cfg, After(agent, cfg, maxRepetitions, k))
    ensures Safe(cfg, After(agent, cfg, maxRepetitions, k + 1))
  {
    var run := After(agent, cfg, maxRepetitions, k);
    var request := NextRequest(cfg, run.walk);
    var sent := run.(walk := run.walk.(maxRepetitions := request.maxRepetitions), requests := run.requests + 1);
    var response := agent(run.requests, request);
    AfterAbsorbs(agent, cfg, maxRepetitions, k, sent, response);
    var indication := EffectiveIndication(cfg, response);
    if indication.Some? {
      IndicationIsSafe(cfg, sent, indication.value, response);
    } else if response.status != 0 {
      PduErrorIsSafe(cfg, sent, response);
    } else if response.table != [] {
      TableIsSafe(cfg, sent, response);
    }
  }

  // The row count of a walk that goes on.
  ghost predicate WithinLimit(cfg: Config, run: Run) {
    run.walk.totalRows == |run.found| && (cfg.maxRows > 0 ==> |run.found| < cfg.maxRows)
  }

  lemma RunningWithinLimit(agent: Agent, cfg: Config, maxRepetitions: int, k: nat)
    requires After(agent, cfg, maxRepetitions, k).ending == Running
    ensures WithinLimit(cfg, After(agent, cfg, maxRepetitions, k))
  {
    AlwaysSafe(agent, cfg, maxRepetitions, k);
  }

  lemma {:induction false} SuccessRowsAreDelivered(emitted: seq<Yield>, y: Yield, r: Row)
    requires y in emitted && y.Success() && r in y.rows
    ensures r in Delivered(emitted)
  {
    var n := |emitted| - 1;
    if y != emitted[n] {
      assert y in emitted[..n];
      SuccessRowsAreDelivered(emitted[..n], y, r);
    }
  }

  // Success yields up to the last one, or up to the one before a hidden
  // noSuchName, carry the rows found and nothing else, each a real value inside
  // the subtree of the root it was asked for.
  ghost predicate CleanRows(cfg: Config, rows: seq<Row>, found: seq<Found>) {
    && rows == Rows(found)
    && forall n :: 0 <= n < |found| ==> GoodCredit(cfg, found[n])
  }

  ghost predicate CleanYields(cfg: Config, emitted: seq<Yield>, found: seq<Found>) {
    CleanRows(cfg, Delivered(emitted), found) && (cfg.maxRows > 0 ==> |Delivered(emitted)| <= cfg.maxRows)
  }

  lemma DeliveredButLast(emitted: seq<Yield>)
    requires emitted != [] && emitted[|emitted| - 1].Success()
    ensures Delivered(emitted) == Delivered(emitted[..|emitted| - 1]) + emitted[|emitted| - 1].rows
  {
  }

  // Safety for every prefix of every run. The success yields carry only real
  // values, each from inside its own root's subtree, and respect the row limit;
  // after a hidden noSuchName that holds of all yields but the last, which has
  // nothing but Nulls. The call limit is never exceeded.
  lemma SafeAgainstAnyAgent(agent: Agent, cfg: Config, maxRepetitions: int, k: nat)
    ensures var run := After(agent, cfg, maxRepetitions, k);
            && (run.ending != NoSuchName ==> CleanYields(cfg, run.emitted, run.found))
            && (run.ending == NoSuchName ==>
                  HidesNulls(run) && CleanYields(cfg, run.emitted[..|run.emitted| - 1], run.found))
            && (cfg.maxCalls > 0 ==> Successes(run.emitted) <= cfg.maxCalls)
  {
    hide After, GoodCredit, Delivered;
    var run := After(agent, cfg, maxRepetitions, k);
    AlwaysSafe(agent, cfg, maxRepetitions, k);
    if run.ending == NoSuchName {
      DeliveredButLast(run.emitted);
      SameBeginning(Delivered(run.emitted[..|run.emitted| - 1]), Rows(run.found), run.emitted[|run.emitted| - 1].rows);
    }
  }

  lemma SameBeginning(a: seq<Row>, b: seq<Row>, end: seq<Row>)
    requires a + end == b + end
    ensures a == b
  {
    assert a == (a + end)[..|a|] && b == (b + end)[..|b|];
  }

  lemma RowIsReal(cfg: Config, run: Run, y: Yield, r: Row)
    requires Safe(cfg, run) && run.ending != NoSuchName && y in run.emitted && y.Success() && r in y.rows
    ensures r.val.Data?
  {
    SuccessRowsAreDelivered(run.emitted, y, r);
    var n :| 0 <= n < |run.found| && Rows(run.found)[n] == r;
    assert run.found[n] in run.found && GoodCredit(cfg, run.found[n]);
  }

  // Request `j` of the run came back with the status that the walk hides.
  ghost predicate HidesErrorAt(agent: Agent, cfg: Config, maxRepetitions: int, j: nat) {
    var run := After(agent, cfg, maxRepetitions, j);
    && run.ending == Running
    && var response := agent(run.requests, NextRequest(cfg, run.walk));
       EffectiveIndication(cfg, response).None? && response.status == NO_SUCH_NAME
  }

  ghost predicate YieldsTerminalRow(run: Run) {
    exists y, r :: y in run.emitted && y.Success() && r in y.rows && r.val.Terminal()
  }

  lemma StartRuns(agent: Agent, cfg: Config, maxRepetitions: int)
    ensures After(agent, cfg, maxRepetitions, 0).ending == if cfg.roots == [] then NoRoots else Running
  {
  }

  // The request that hid the error, when there was one.
  lemma {:induction false} NoSuchNameHappened(agent: Agent, cfg: Config, maxRepetitions: int, k: nat) returns (j: nat)
    requires After(agent, cfg, maxRepetitions, k).ending == NoSuchName
    ensures j < k && HidesErrorAt(agent, cfg, maxRepetitions, j)
  {
    hide *;
    StartRuns(agent, cfg, maxRepetitions);
    j := k - 1;
    if After(agent, cfg, maxRepetitions, j).ending == Running {
      NoSuchNameStep(agent, cfg, maxRepetitions, j);
    } else {
      NothingAfterTheEnd(agent, cfg, maxRepetitions, j, k);
      j := NoSuchNameHappened(agent, cfg, maxRepetitions, j);
    }
  }

  lemma NoSuchNameStep(agent: Agent, cfg: Config, maxRepetitions: int, k: nat)
    requires After(agent, cfg, maxRepetitions, k).ending == Running
    ensures After(agent, cfg, maxRepetitions, k + 1).ending == NoSuchName <==>
            HidesErrorAt(agent, cfg, maxRepetitions, k)
  {
    var run := After(agent, cfg, maxRepetitions, k);
    var request := NextRequest(cfg, run.walk);
    var sent := run.(walk := run.walk.(maxRepetitions := request.maxRepetitions), requests := run.requests + 1);
    AfterAbsorbs(agent, cfg, maxRepetitions, k, sent, agent(run.requests, request));
  }

  lemma HiddenErrorEndsRun(agent: Agent, cfg: Config, maxRepetitions: int, j: nat, k: nat)
    requires j < k
    ensures HidesErrorAt(agent, cfg, maxRepetitions, j) ==> After(agent, cfg, maxRepetitions, k).ending == NoSuchName
  {
    if HidesErrorAt(agent, cfg, maxRepetitions, j) {
      NoSuchNameStep(agent, cfg, maxRepetitions, j);
      NothingAfterTheEnd(agent, cfg, maxRepetitions, j + 1, k);
    }
  }

  // "Success yields carry no terminal rows" is not quite true of the walk: it
  // fails exactly when an agent answers noSuchName, whose status is cleared.
  lemma TerminalRowsExactly(agent: Agent, cfg: Config, maxRepetitions: int, k: nat)
    ensures YieldsTerminalRow(After(agent, cfg, maxRepetitions, k))
            <==> exists j :: 0 <= j < k && HidesErrorAt(agent, cfg, maxRepetitions, j)
  {
    var run := After(agent, cfg, maxRepetitions, k);
    AlwaysSafe(agent, cfg, maxRepetitions, k);
    if run.ending == NoSuchName {
      var _ := NoSuchNameHappened(agent, cfg, maxRepetitions, k);
      var y := run.emitted[|run.emitted| - 1];
      assert y in run.emitted && y.rows[0] in y.rows;
    } else {
      forall y, r | y in run.emitted && y.Success() && r in y.rows
        ensures !r.val.Terminal()
      {
        RowIsReal(cfg, run, y, r);
      }
      forall j | 0 <= j < k
        ensures !HidesErrorAt(agent, cfg, maxRepetitions, j)
      {
        HiddenErrorEndsRun(agent, cfg, maxRepetitions, j, k);
      }
    }
  }

  // Such an agent: its first answer is the hidden error.
  lemma TerminalRowHappens(agent: Agent, cfg: Config, maxRepetitions: int)
    requires cfg.roots != []
    requires forall k, request :: agent(k, request) == Response(None, NO_SUCH_NAME, 1, [])
    ensures HidesErrorAt(agent, cfg, maxRepetitions, 0)
    ensures YieldsTerminalRow(After(agent, cfg, maxRepetitions, 1))
  {
    StartRuns(agent, cfg, maxRepetitions);
    hide After;
    TerminalRowsExactly(agent, cfg, maxRepetitions, 1);
  }

  // One request never revives a root and credits nothing to a completed one.
  lemma CompletionStep(agent: Agent, cfg: Config, maxRepetitions: int, k: nat, root: nat)
    requires root < |cfg.roots| && After(agent, cfg, maxRepetitions, k).walk.completed[root]
    ensures var run, run' := After(agent, cfg, maxRepetitions, k), After(agent, cfg, maxRepetitions, k + 1);
            run'.walk.completed[root] && Project(run'.found, root) == Project(run.found, root)
  {
    hide Active, Project, AbsorbTable, Asked, Pending;
    var run := After(agent, cfg, maxRepetitions, k);
    if run.ending == Running {
      var request := NextRequest(cfg, run.walk);
      var sent := run.(walk := run.walk.(maxRepetitions := request.maxRepetitions), requests := run.requests + 1);
      var response := agent(run.requests, request);
      AfterAbsorbs(agent, cfg, maxRepetitions, k, sent, response);
      CompletionInTable(cfg, sent, response, root);
    }
  }

  lemma CompletionInTable(cfg: Config, run: Run, response: Response, root: nat)
    requires Fits(cfg, run.walk.completed, run.walk.last) && Active(run.walk.completed) != []
    requires root < |cfg.roots| && run.walk.completed[root]
    ensures var run' := AbsorbTable(cfg, run, response);
            run'.walk.completed[root] && Project(run'.found, root) == Project(run.found, root)
  {
    var active, start := Active(run.walk.completed), Demuxed(run.walk.completed, run.walk.last, []);
    DemuxIsSafe(cfg, active, start, response.table, |response.table|);
    var run' := AbsorbTable(cfg, run, response);
    if run'.found != run.found {
      var kept := run'.found[|run.found|..];
      assert run'.found == run.found + kept;
      ProjectConcat(run.found, kept, root);
      ProjectAbsent(kept, root);
    }
  }

  // `completed` only grows over a run, and no row follows completion of its root.
  lemma {:induction false} CompletionIsFinal(agent: Agent, cfg: Config, maxRepetitions: int, j: nat, k: nat, root: nat)
    requires j <= k && root < |cfg.roots| && After(agent, cfg, maxRepetitions, j).walk.completed[root]
    ensures var early, late := After(agent, cfg, maxRepetitions, j), After(agent, cfg, maxRepetitions, k);
            late.walk.completed[root] && Project(late.found, root) == Project(early.found, root)
  {
    hide Project, Step, Active;
    if j < k {
      CompletionIsFinal(agent, cfg, maxRepetitions, j, k - 1, root);
      CompletionStep(agent, cfg, maxRepetitions, k - 1, root);
    }
  }
}
