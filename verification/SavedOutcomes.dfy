/**
  What the status of a row says about the provider, over every run: delivered, skipped and
  due for retry mean exactly what the last outcome written to the row was.
 */
module SavedOutcomes {
  import opened Instants
  import opened Notifications
  import opened DeliveryProtocol

  // ---- one verdict ----

  /** A failure is retried while it leaves some of the retry budget and there is a delay to wait. */
  predicate RetriesAgain(cfg: Config, failures: nat, retryAfter: int) {
    failures < cfg.maxRetries && (|cfg.delays| > 0 || retryAfter > 0)
  }

  /** When the retry after that many failures is due: after the provider's own wait, or after the
      minutes configured for this attempt, the last of them again and again. */
  predicate DueAfter(cfg: Config, failures: nat, retryAfter: int, failedAt: int, due: int) {
    if retryAfter > 0 then due == failedAt + retryAfter
    else
      && 0 < failures && 0 < |cfg.delays|
      && (failures <= |cfg.delays| ==> due == failedAt + 60_000_000_000 * cfg.delays[failures - 1])
      && (failures > |cfg.delays| ==> due == failedAt + 60_000_000_000 * cfg.delays[|cfg.delays| - 1])
  }

  /** What a verdict leaves of a row, said verdict by verdict. */
  predicate Leaves(cfg: Config, was: Row, stage: Stage, verdict: Verdict, at: int, row: Row) {
    match verdict
    case ShortCircuited =>
      && row.status == (if stage == Deliveries then DeliveryScheduled else RetryScheduled)
      && row.retryCount == was.retryCount && row.nextRetryAt == was.nextRetryAt
    case NoContext => row.status == Failed && row.retryCount == was.retryCount
    case Provider(OutDelivered) => row.status == Delivered && row.retryCount == was.retryCount
    case Provider(OutSkipped) => row.status == Skipped && row.retryCount == was.retryCount
    case Provider(OutFailed(retryAfter)) =>
      && row.retryCount == was.retryCount + 1
      && (if RetriesAgain(cfg, row.retryCount, retryAfter)
          then row.status == RetryScheduled && DueAfter(cfg, row.retryCount, retryAfter, at, row.nextRetryAt)
          else row.status == Failed)
  }

  lemma VerdictLeaves(cfg: Config, row: Row, stage: Stage, verdict: Verdict, at: int)
    ensures Leaves(cfg, row, stage, verdict, at, ApplyVerdict(cfg, row, stage, verdict, at))
  {
  }

  /** A saved batch leaves each row that was still the worker's as its verdict says, and every
      row that no longer was as it found it. */
  lemma SavedRowIs(cfg: Config, b: Books, worker: string, stage: Stage, results: seq<Result>, i: nat)
    requires RowsDistinct(results) && i < |results| && results[i].row in b.rows
    ensures var r, after := results[i], SaveAll(cfg, b, worker, stage, results);
      && r.row in after.rows
      && if b.rows[r.row].claimedBy == worker &&
            b.rows[r.row].status == (if stage == Deliveries then Delivering else Retrying)
         then Leaves(cfg, b.rows[r.row], stage, r.verdict, r.finishedAt, after.rows[r.row])
         else after.rows[r.row] == b.rows[r.row]
  {
    var r := results[i];
    SaveWritesItsOwnRow(cfg, b, worker, stage, results, i);
    VerdictLeaves(cfg, b.rows[r.row], stage, r.verdict, r.finishedAt);
  }

  // ---- the last outcome ----

  /** The latest provider outcome written to a row. */
  function LastOutcome(log: seq<Write>, id: string): (w: Option<Write>)
    ensures w.Some? ==> w.value.verdict.Provider?
  {
    if log == [] then None
    else
      var w := log[|log| - 1];
      if w.row == id && w.verdict.Provider? then Some(w) else LastOutcome(log[..|log| - 1], id)
  }

  /** The status of a row against the last outcome written to it. */
  predicate StatusTells(cfg: Config, row: Row, last: Option<Write>)
    requires last.Some? ==> last.value.verdict.Provider?
  {
    && (row.status == Delivered <==> last.Some? && last.value.verdict.outcome == OutDelivered)
    && (row.status == Skipped <==> last.Some? && last.value.verdict.outcome == OutSkipped)
    && (row.status in {Batched, DeliveryScheduled, Delivering} ==> last.None?)
    && (row.status in {RetryScheduled, Retrying} ==>
         && last.Some? && last.value.verdict.outcome.OutFailed?
         && DueAfter(cfg, row.retryCount, last.value.verdict.outcome.retryAfter, last.value.at, row.nextRetryAt))
  }

  predicate RowTells(cfg: Config, b: Books, id: string) {
    id in b.rows ==> StatusTells(cfg, b.rows[id], LastOutcome(b.log, id))
  }

  ghost predicate AllTell(cfg: Config, s: State) { forall id :: RowTells(cfg, s.books, id) }

  lemma LastSnoc(log: seq<Write>, w: Write, id: string)
    ensures LastOutcome(log + [w], id) == if w.row == id && w.verdict.Provider? then Some(w) else LastOutcome(log, id)
  {
    assert (log + [w])[..|log|] == log;
  }

  lemma SaveOneTells(cfg: Config, b: Books, worker: string, stage: Stage, r: Result, id: string)
    requires RowTells(cfg, b, id)
    ensures RowTells(cfg, SaveOne(cfg, b, worker, stage, r), id)
  {
    hide DueAfter; hide LastOutcome; hide ApplyVerdict; hide RetriesAgain;
    if StillOurs(b, worker, stage, r) {
      LastSnoc(b.log, WriteOf(b.rows[r.row], r), id);
      VerdictLeaves(cfg, b.rows[r.row], stage, r.verdict, r.finishedAt);
    }
  }

  lemma {:induction false} SaveAllTells(cfg: Config, b: Books, worker: string, stage: Stage,
                                        results: seq<Result>, id: string)
    requires RowTells(cfg, b, id)
    ensures RowTells(cfg, SaveAll(cfg, b, worker, stage, results), id)
    decreases |results|
  {
    hide RowTells; hide SaveOne;
    if results != [] {
      var n := |results| - 1;
      SaveAllTells(cfg, b, worker, stage, results[..n], id);
      SaveOneTells(cfg, SaveAll(cfg, b, worker, stage, results[..n]), worker, stage, results[n], id);
    }
  }

  lemma {:induction false} UnwrittenHasNone(log: seq<Write>, id: string)
    requires forall i :: 0 <= i < |log| ==> log[i].row != id
    ensures LastOutcome(log, id).None?
    decreases |log|
  {
    if log != [] { UnwrittenHasNone(log[..|log| - 1], id); }
  }

  lemma CreateTells(cfg: Config, s: State, id: string, batched: bool)
    requires Inv(cfg, s) && AllTell(cfg, s) && Enabled(s, Create(id, batched))
    ensures AllTell(cfg, Apply(cfg, s, Create(id, batched)))
  {
    hide LastOutcome; hide DueAfter;
    var t := Apply(cfg, s, Create(id, batched));
    forall i | 0 <= i < |s.books.log| ensures s.books.log[i].row != id { assert WriteOk(s, s.books.log[i]); }
    UnwrittenHasNone(s.books.log, id);
    forall x ensures RowTells(cfg, t.books, x) { assert RowTells(cfg, s.books, x); }
  }

  lemma StepTells(cfg: Config, s: State, step: Step)
    requires Inv(cfg, s) && AllTell(cfg, s) && Enabled(s, step)
    ensures AllTell(cfg, Apply(cfg, s, step))
  {
    hide LastOutcome; hide DueAfter; hide SaveAll; hide Inv;
    var t := Apply(cfg, s, step);
    if step.Create? {
      CreateTells(cfg, s, step.id, step.batched);
    } else {
      forall id ensures RowTells(cfg, t.books, id) {
        assert RowTells(cfg, s.books, id);
        if step.Save? {
          SaveAllTells(cfg, s.books, step.desk.worker, step.desk.stage, s.DeskAt(step.desk).results, id);
        }
        assert step.Claim? && id in step.ids ==> Claimable(s, step.desk.stage, id);
      }
    }
  }

  lemma {:induction false} RunTells(cfg: Config, s: State, steps: seq<Step>, t: State)
    requires Inv(cfg, s) && AllTell(cfg, s) && Run(cfg, s, steps, t) && OneCallPerStage(steps)
    ensures AllTell(cfg, t)
    decreases |steps|
  {
    hide Inv; hide AllTell; hide Apply;
    if steps != [] {
      assert OneCallPerStage([steps[0]]);
      StepTells(cfg, s, steps[0]);
      StepKeeps(cfg, s, steps[0]);
      RunTells(cfg, Apply(cfg, s, steps[0]), steps[1..], t);
    }
  }

  // ---- what holds over every run ----

  /** In every run a row is delivered exactly if the last outcome written to it was a delivery,
      skipped exactly if it was a skip, has had no outcome before its first delivery, and waits
      for a retry or is out on one only after a failure. */
  lemma OutcomeDecidesStatus(cfg: Config, steps: seq<Step>, t: State, id: string)
    requires Run(cfg, INIT, steps, t) && OneCallPerStage(steps) && id in t.books.rows
    ensures StatusTells(cfg, t.books.rows[id], LastOutcome(t.books.log, id))
  {
    InitOk(cfg);
    RunTells(cfg, INIT, steps, t);
    assert RowTells(cfg, t.books, id);
  }

  /** In every run no retry is claimed before the wait after its latest failure has passed. */
  lemma RetryWaitsOut(cfg: Config, steps: seq<Step>, t: State, d: DeskId, ids: set<string>, id: string)
    requires Run(cfg, INIT, steps, t) && OneCallPerStage(steps)
    requires Enabled(t, Claim(d, ids)) && d.stage == Retries && id in ids
    ensures id in t.books.rows && t.books.rows[id].status == RetryScheduled
    ensures var last := LastOutcome(t.books.log, id);
      && last.Some? && last.value.verdict.outcome.OutFailed?
      && var (failures, retryAfter) := (t.books.rows[id].retryCount, last.value.verdict.outcome.retryAfter);
         exists due :: DueAfter(cfg, failures, retryAfter, last.value.at, due) && t.now >= due
  {
    hide DueAfter;
    assert Claimable(t, Retries, id);
    OutcomeDecidesStatus(cfg, steps, t, id);
    assert t.now >= t.books.rows[id].nextRetryAt;
  }
}
