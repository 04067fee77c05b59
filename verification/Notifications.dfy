/**
  One notification row: its delivery state machine and what saving a result does to it.
 */
module Notifications {
  import opened Instants

  datatype Status =
    Batched | DeliveryScheduled | Delivering | RetryScheduled | Retrying | Delivered | Skipped | Failed

  /** The two stages that claim work: first deliveries and retries. */
  datatype Stage = Deliveries | Retries {
    function Pending(): Status { if Deliveries? then DeliveryScheduled else RetryScheduled }
    function Claimed(): Status { if Deliveries? then Delivering else Retrying }
  }

  predicate Terminal(st: Status) { st == Delivered || st == Skipped || st == Failed }

  predicate InClaim(st: Status) { st == Delivering || st == Retrying }

  /** A desk is one running stage of one worker. Lane 0 is the worker's own cycle; another
      lane is a second call of the same stage overlapping it in the same process. */
  datatype DeskId = DeskId(worker: string, stage: Stage, lane: nat)

  /** `takers` lists the desks that ever claimed the row, one per claim; it is history, not
      stored data, and its length is the number of the latest claim. */
  datatype Row = Row(
    status: Status,
    claimedBy: string,
    claimedAt: int,
    takers: seq<DeskId>,
    retryCount: nat,
    nextRetryAt: int)

  datatype Outcome = OutDelivered | OutSkipped | OutFailed(retryAfter: int)

  /** What a task hands back: a provider's outcome, an open breaker, or (retries only) a
      delivery context that no longer exists. */
  datatype Verdict = Provider(outcome: Outcome) | ShortCircuited | NoContext

  datatype Config = Config(maxRetries: int, delays: seq<int>, claimTimeout: int)

  /** ScheduleRetryOrFailAfter: a provider's own wait wins, else the delay of this attempt,
      clamped to the last one. */
  function RetryOrFail(cfg: Config, row: Row, ts: int, retryAfter: int): Row {
    var count := row.retryCount + 1;
    if count >= cfg.maxRetries || (|cfg.delays| == 0 && retryAfter <= 0) then
      row.(status := Failed, retryCount := count)
    else
      var wait :=
        if retryAfter > 0 then retryAfter
        else cfg.delays[if count - 1 >= |cfg.delays| then |cfg.delays| - 1 else count - 1] * MINUTE;
      row.(status := RetryScheduled, retryCount := count, nextRetryAt := ts + wait)
  }

  function ApplyOutcome(cfg: Config, row: Row, outcome: Outcome, ts: int): Row {
    match outcome
    case OutDelivered => row.(status := Delivered)
    case OutSkipped => row.(status := Skipped)
    case OutFailed(retryAfter) => RetryOrFail(cfg, row, ts, retryAfter)
  }

  function ApplyVerdict(cfg: Config, row: Row, stage: Stage, verdict: Verdict, ts: int): (r: Row)
    ensures r.takers == row.takers && r.claimedBy == row.claimedBy && r.status != stage.Claimed()
    ensures !InClaim(r.status)
  {
    match verdict
    case Provider(outcome) => ApplyOutcome(cfg, row, outcome, ts)
    case ShortCircuited => row.(status := stage.Pending())
    case NoContext => row.(status := Failed)
  }

  /** A task's result: the row, the claim it was computed under, and the verdict. */
  datatype Result = Result(row: string, claim: nat, verdict: Verdict, finishedAt: int)

  /** One applied result, with the claim the row was under when it was written and the time the
      task ended. */
  datatype Write = Write(row: string, heldUnder: nat, computedFor: nat, verdict: Verdict, at: int)

  function WriteOf(row: Row, r: Result): Write { Write(r.row, |row.takers|, r.claim, r.verdict, r.finishedAt) }

  datatype Books = Books(rows: map<string, Row>, log: seq<Write>)

  /** The guard of the saving mutators: the row is there, still claimed in this stage, by this worker. */
  predicate StillOurs(b: Books, worker: string, stage: Stage, r: Result) {
    r.row in b.rows && b.rows[r.row].status == stage.Claimed() && b.rows[r.row].claimedBy == worker
  }

  function SaveOne(cfg: Config, b: Books, worker: string, stage: Stage, r: Result): Books {
    if StillOurs(b, worker, stage, r) then
      Books(
        b.rows[r.row := ApplyVerdict(cfg, b.rows[r.row], stage, r.verdict, r.finishedAt)],
        b.log + [WriteOf(b.rows[r.row], r)])
    else b
  }

  function SaveAll(cfg: Config, b: Books, worker: string, stage: Stage, results: seq<Result>): Books {
    if results == [] then b
    else SaveOne(cfg, SaveAll(cfg, b, worker, stage, results[..|results| - 1]), worker, stage, results[|results| - 1])
  }

  /** The mutator of saveDeliveryResults and saveRetryResults. */
  method SaveResults(cfg: Config, b: Books, worker: string, stage: Stage, results: seq<Result>) returns (after: Books)
    ensures after == SaveAll(cfg, b, worker, stage, results)
  {
    var rows, log := b.rows, b.log;
    for i := 0 to |results|
      invariant Books(rows, log) == SaveAll(cfg, b, worker, stage, results[..i])
    {
      var r := results[i];
      assert results[..i + 1][..i] == results[..i];
      if r.row !in rows { continue; }
      var cur := rows[r.row];
      if cur.status != stage.Claimed() || cur.claimedBy != worker { continue; }
      log := log + [WriteOf(cur, r)];
      match r.verdict {
        case ShortCircuited => cur := cur.(status := stage.Pending());
        case NoContext => cur := cur.(status := Failed);
        case Provider(outcome) => cur := ApplyOutcome(cfg, cur, outcome, r.finishedAt);
      }
      rows := rows[r.row := cur];
    }
    assert results[..|results|] == results;
    after := Books(rows, log);
  }

  /** How many provider outcomes have been written to a row: its delivery-attempt records. */
  function Attempts(log: seq<Write>, id: string): (n: nat) {
    if log == [] then 0
    else
      var w := log[|log| - 1];
      Attempts(log[..|log| - 1], id) + (if w.row == id && w.verdict.Provider? then 1 else 0)
  }

  function Max(a: int, b: int): int { if a < b then b else a }

  /** A row's attempt records are its counted failures, plus one if a provider settled it. */
  predicate AttemptsBalance(cfg: Config, b: Books, id: string)
    requires id in b.rows
  {
    var row := b.rows[id];
    && Attempts(b.log, id) == row.retryCount + (if row.status == Delivered || row.status == Skipped then 1 else 0)
    && (!Terminal(row.status) ==> row.retryCount == 0 || row.retryCount < cfg.maxRetries)
    && Attempts(b.log, id) <= Max(1, cfg.maxRetries)
  }

  lemma AttemptsSnoc(log: seq<Write>, w: Write, id: string)
    ensures Attempts(log + [w], id) == Attempts(log, id) + (if w.row == id && w.verdict.Provider? then 1 else 0)
  {
    assert (log + [w])[..|log|] == log;
  }

  lemma SaveOneKeepsBalance(cfg: Config, b: Books, worker: string, stage: Stage, r: Result, id: string)
    requires id in b.rows && AttemptsBalance(cfg, b, id)
    ensures var after := SaveOne(cfg, b, worker, stage, r);
      id in after.rows && AttemptsBalance(cfg, after, id)
  {
    hide Attempts;
    if StillOurs(b, worker, stage, r) { AttemptsSnoc(b.log, WriteOf(b.rows[r.row], r), id); }
  }
}
