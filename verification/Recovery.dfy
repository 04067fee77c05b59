/**
  What becomes of a row when things go wrong: a claim whose worker is gone is given back
  by the reaper and by nothing else, and no row takes more outcomes than its budget to
  settle.
 */
module Recovery {
  import opened Notifications
  import opened DeliveryProtocol

  // ---- a claim nobody holds ----

  /** Somebody's unfinished or unsaved work on the row. */
  predicate Holds(desk: Desk, id: string) {
    id in desk.inflight || exists i :: 0 <= i < |desk.results| && desk.results[i].row == id
  }

  /** The row is claimed and no desk that could still save under that claim holds it. */
  predicate Orphaned(s: State, id: string) {
    && id in s.used && id in s.books.rows && InClaim(s.books.rows[id].status)
    && forall d :: d in s.desks && IsUnder(s.books.rows[id], d) ==> !Holds(s.desks[d], id)
  }

  /** The row looks claimed by this desk. */
  predicate IsUnder(row: Row, d: DeskId) { row.claimedBy == d.worker && row.status == d.stage.Claimed() }

  lemma {:induction false} SaveKeepsForeignRow(cfg: Config, b: Books, d: DeskId, results: seq<Result>, id: string)
    requires id in b.rows && !IsUnder(b.rows[id], d)
    ensures var after := SaveAll(cfg, b, d.worker, d.stage, results); id in after.rows && after.rows[id] == b.rows[id]
    decreases |results|
  {
    if results != [] { SaveKeepsForeignRow(cfg, b, d, results[..|results| - 1], id); }
  }

  lemma SaveKeepsOrphan(cfg: Config, s: State, d: DeskId, id: string)
    requires Orphaned(s, id)
    ensures var after := SaveAll(cfg, s.books, d.worker, d.stage, s.DeskAt(d).results);
      id in after.rows && after.rows[id] == s.books.rows[id]
  {
    var results := s.DeskAt(d).results;
    if IsUnder(s.books.rows[id], d) {
      forall i | 0 <= i < |results| ensures results[i].row != id {
        assert d in s.desks && !Holds(s.desks[d], id);
      }
      SaveKeepsOtherRows(cfg, s.books, d.worker, d.stage, results, id);
    } else {
      SaveKeepsForeignRow(cfg, s.books, d, results, id);
    }
  }

  /** Without a reaper no step touches such a row but its deletion. */
  lemma OrphanStays(cfg: Config, s: State, step: Step, id: string)
    requires cfg.claimTimeout <= 0 && Orphaned(s, id) && Enabled(s, step)
    ensures var t := Apply(cfg, s, step);
      id in t.used && (id in t.books.rows ==> Orphaned(t, id) && t.books.rows[id] == s.books.rows[id])
  {
    hide SaveAll;
    var t := Apply(cfg, s, step);
    if step.Save? { SaveKeepsOrphan(cfg, s, step.desk, id); }
    if id in t.books.rows {
      assert t.books.rows[id] == s.books.rows[id];
      forall d | d in t.desks && IsUnder(t.books.rows[id], d) ensures !Holds(t.desks[d], id) {
        assert d in s.desks ==> !Holds(s.desks[d], id);
      }
    }
  }

  lemma {:induction false} OrphanStaysForGood(cfg: Config, s: State, steps: seq<Step>, t: State, id: string)
    requires cfg.claimTimeout <= 0 && Run(cfg, s, steps, t)
    requires id in s.used && (id in s.books.rows ==> Orphaned(s, id))
    ensures id in t.books.rows ==> id in s.books.rows && t.books.rows[id] == s.books.rows[id]
    decreases |steps|
  {
    hide Orphaned;
    if steps != [] {
      var m := Apply(cfg, s, steps[0]);
      if id in s.books.rows { OrphanStays(cfg, s, steps[0], id); } else { GoneStaysGone(cfg, s, steps[0], id); }
      OrphanStaysForGood(cfg, m, steps[1..], t, id);
    }
  }

  lemma {:induction false} SaveAddsNoRow(cfg: Config, b: Books, worker: string, stage: Stage, results: seq<Result>)
    ensures SaveAll(cfg, b, worker, stage, results).rows.Keys == b.rows.Keys
    decreases |results|
  {
    if results != [] { SaveAddsNoRow(cfg, b, worker, stage, results[..|results| - 1]); }
  }

  lemma GoneStaysGone(cfg: Config, s: State, step: Step, id: string)
    requires id in s.used && id !in s.books.rows && Enabled(s, step)
    ensures id in Apply(cfg, s, step).used && id !in Apply(cfg, s, step).books.rows
  {
    hide SaveAll;
    if step.Save? { SaveAddsNoRow(cfg, s.books, step.desk.worker, step.desk.stage, s.DeskAt(step.desk).results); }
  }

  ghost predicate CanBeDelivered(cfg: Config, s: State, id: string) {
    exists steps, t :: Run(cfg, s, steps, t) && id in t.books.rows && t.books.rows[id].status == Delivered
  }

  /** A row whose worker crashed while it was claimed can still be delivered if and only if
      the reaper is on; with ClaimTimeout off it is stranded for good. */
  lemma CrashedClaimRecoversIff(cfg: Config, s: State, id: string)
    requires id in s.used && id in s.books.rows && InClaim(s.books.rows[id].status)
    ensures var crashed := Apply(cfg, s, Crash(s.books.rows[id].claimedBy));
      CanBeDelivered(cfg, crashed, id) <==> cfg.claimTimeout > 0
  {
    var crashed := Apply(cfg, s, Crash(s.books.rows[id].claimedBy));
    hide Apply; hide Run;
    if cfg.claimTimeout > 0 {
      var steps, t := NoNotificationIsLost(cfg, crashed, id, "");
    } else {
      forall steps, t | Run(cfg, crashed, steps, t) && id in t.books.rows ensures t.books.rows[id].status != Delivered {
        OrphanStaysForGood(cfg, crashed, steps, t, id);
      }
    }
  }

  // ---- a bounded number of outcomes settles a row ----

  lemma {:induction false} SaveCountsNothingElse(cfg: Config, b: Books, worker: string, stage: Stage,
                                                 results: seq<Result>, id: string)
    requires forall i :: 0 <= i < |results| ==> results[i].row != id
    ensures Attempts(SaveAll(cfg, b, worker, stage, results).log, id) == Attempts(b.log, id)
    decreases |results|
  {
    if results != [] {
      var n := |results| - 1;
      SaveCountsNothingElse(cfg, b, worker, stage, results[..n], id);
      var before := SaveAll(cfg, b, worker, stage, results[..n]);
      if StillOurs(before, worker, stage, results[n]) {
        AttemptsSnoc(before.log, WriteOf(before.rows[results[n].row], results[n]), id);
      }
    }
  }

  /** Saving a provider's outcome for a row that is still the worker's counts one more attempt. */
  lemma {:induction false} SaveCountsOutcome(cfg: Config, b: Books, worker: string, stage: Stage,
                                             results: seq<Result>, i: nat)
    requires RowsDistinct(results) && i < |results| && results[i].verdict.Provider? &&
      StillOurs(b, worker, stage, results[i])
    ensures Attempts(SaveAll(cfg, b, worker, stage, results).log, results[i].row) == Attempts(b.log, results[i].row) + 1
    decreases |results|
  {
    var n, id := |results| - 1, results[i].row;
    var before := SaveAll(cfg, b, worker, stage, results[..n]);
    assert forall j :: 0 <= j < n ==> results[..n][j] == results[j];
    if i == n {
      SaveCountsNothingElse(cfg, b, worker, stage, results[..n], id);
      SaveKeepsOtherRows(cfg, b, worker, stage, results[..n], id);
      AttemptsSnoc(before.log, WriteOf(before.rows[id], results[n]), id);
    } else {
      SaveCountsOutcome(cfg, b, worker, stage, results[..n], i);
      if StillOurs(before, worker, stage, results[n]) {
        AttemptsSnoc(before.log, WriteOf(before.rows[results[n].row], results[n]), id);
      }
    }
  }

  /** In every run, a row that is not settled has been given fewer outcomes than its budget;
      so once that many cycles have ended in a saved outcome, whatever else failed in between,
      it is settled. */
  lemma SettledWithinBudget(cfg: Config, steps: seq<Step>, t: State, id: string)
    requires Run(cfg, INIT, steps, t) && OneCallPerStage(steps) && id in t.books.rows
    ensures !Terminal(t.books.rows[id].status) ==> Attempts(t.books.log, id) < Max(1, cfg.maxRetries)
  {
    InitOk(cfg);
    RunKeeps(cfg, INIT, steps, t);
    assert RowOk(cfg, t, id);
  }

  // ---- over every continuation ----

  /** The step commits a provider's outcome for the row, under the claim it is still in. */
  predicate Serves(s: State, step: Step, id: string) {
    step.Save? && step.end != RolledBack &&
    exists i :: 0 <= i < |s.DeskAt(step.desk).results| && Served(s, step.desk, i, id)
  }

  predicate Served(s: State, d: DeskId, i: nat, id: string)
    requires i < |s.DeskAt(d).results|
  {
    var r := s.DeskAt(d).results[i];
    r.row == id && r.verdict.Provider? && StillOurs(s.books, d.worker, d.stage, r)
  }

  /** How many steps of a run do. */
  function Outcomes(cfg: Config, s: State, steps: seq<Step>, id: string): nat
    decreases |steps|
  {
    if steps == [] || !Enabled(s, steps[0]) then 0
    else (if Serves(s, steps[0], id) then 1 else 0) + Outcomes(cfg, Apply(cfg, s, steps[0]), steps[1..], id)
  }

  /** A result that is no outcome or comes too late counts nothing. */
  lemma {:induction false} SaveCountsNoOutcome(cfg: Config, b: Books, worker: string, stage: Stage,
                                               results: seq<Result>, i: nat)
    requires RowsDistinct(results) && i < |results|
    requires !results[i].verdict.Provider? || !StillOurs(b, worker, stage, results[i])
    ensures Attempts(SaveAll(cfg, b, worker, stage, results).log, results[i].row) == Attempts(b.log, results[i].row)
    decreases |results|
  {
    var n, id := |results| - 1, results[i].row;
    var before := SaveAll(cfg, b, worker, stage, results[..n]);
    assert forall j :: 0 <= j < n ==> results[..n][j] == results[j];
    if i == n {
      SaveCountsNothingElse(cfg, b, worker, stage, results[..n], id);
      SaveKeepsOtherRows(cfg, b, worker, stage, results[..n], id);
    } else {
      SaveCountsNoOutcome(cfg, b, worker, stage, results[..n], i);
    }
    if StillOurs(before, worker, stage, results[n]) {
      AttemptsSnoc(before.log, WriteOf(before.rows[results[n].row], results[n]), id);
    }
  }

  lemma SaveCounts(cfg: Config, s: State, d: DeskId, end: SaveEnd, id: string)
    requires d in s.desks && RowsDistinct(s.desks[d].results) && Enabled(s, Save(d, end))
    ensures Attempts(Apply(cfg, s, Save(d, end)).books.log, id) ==
      Attempts(s.books.log, id) + (if Serves(s, Save(d, end), id) then 1 else 0)
  {
    hide SaveAll; hide Attempts; hide StillOurs;
    var results := s.desks[d].results;
    if i :| 0 <= i < |results| && results[i].row == id {
      if Served(s, d, i, id) {
        SaveCountsOutcome(cfg, s.books, d.worker, d.stage, results, i);
      } else {
        SaveCountsNoOutcome(cfg, s.books, d.worker, d.stage, results, i);
        assert forall j :: 0 <= j < |results| && results[j].row == id ==> j == i;
      }
    } else {
      SaveCountsNothingElse(cfg, s.books, d.worker, d.stage, results, id);
    }
  }

  lemma StepCounts(cfg: Config, s: State, step: Step, id: string)
    requires Inv(cfg, s) && Enabled(s, step)
    ensures Attempts(Apply(cfg, s, step).books.log, id) ==
      Attempts(s.books.log, id) + (if Serves(s, step, id) then 1 else 0)
  {
    hide Attempts; hide SaveAll;
    if step.Save? {
      assert DeskOk(s, step.desk);
      SaveCounts(cfg, s, step.desk, step.end, id);
    }
  }

  /** Over every run the attempts of a row grow by exactly the outcomes committed for it. */
  lemma {:induction false} OutcomesAddUp(cfg: Config, s: State, steps: seq<Step>, t: State, id: string)
    requires Inv(cfg, s) && Run(cfg, s, steps, t) && OneCallPerStage(steps)
    ensures Attempts(t.books.log, id) == Attempts(s.books.log, id) + Outcomes(cfg, s, steps, id)
    decreases |steps|
  {
    hide Attempts; hide Inv; hide Serves; hide Apply;
    if steps != [] {
      assert OneCallPerStage([steps[0]]);
      StepCounts(cfg, s, steps[0], id);
      StepKeeps(cfg, s, steps[0]);
      OutcomesAddUp(cfg, Apply(cfg, s, steps[0]), steps[1..], t, id);
    }
  }

  /** From every reachable state, every continuation that commits as many outcomes for a row as
      its budget has left settles it, whatever else crashes, fails or is reaped in between; and
      none commits more. */
  lemma EveryContinuationSettles(cfg: Config, past: seq<Step>, s: State, steps: seq<Step>, t: State, id: string)
    requires Run(cfg, INIT, past, s) && OneCallPerStage(past)
    requires Run(cfg, s, steps, t) && OneCallPerStage(steps) && id in t.books.rows
    ensures var left := Max(1, cfg.maxRetries) - Attempts(s.books.log, id);
      Outcomes(cfg, s, steps, id) <= left &&
      (Outcomes(cfg, s, steps, id) == left ==> Terminal(t.books.rows[id].status))
  {
    hide Attempts; hide Apply; hide Outcomes;
    InitOk(cfg);
    RunKeeps(cfg, INIT, past, s);
    RunKeeps(cfg, s, steps, t);
    OutcomesAddUp(cfg, s, steps, t, id);
    assert RowOk(cfg, t, id);
  }
}
