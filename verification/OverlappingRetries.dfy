/**
  What becomes of claim safety when a second call of the retry stage overlaps the first
  in one process: POST /api/v1/escalations/run runs that stage, and only that stage,
  beside the worker's own cycle.
 */
module OverlappingRetries {
  import opened Notifications
  import opened DeliveryProtocol

  /** A claim the process can make: its own stages, or a further call of the retry stage. */
  predicate Possible(step: Step) {
    && (step.Claim? ==> step.desk.lane == 0 || step.desk.stage == Retries)
    && (step.HandOver? ==> step.desk == step.to || step.desk.stage == Retries)
  }

  ghost predicate Reached(cfg: Config, t: State) {
    exists steps :: Run(cfg, INIT, steps, t) && forall i :: 0 <= i < |steps| ==> Possible(steps[i])
  }

  /** What ClaimSafety promises of the results written so far. */
  predicate ClaimSafe(t: State) {
    && (forall i :: 0 <= i < |t.books.log| ==> t.books.log[i].heldUnder == t.books.log[i].computedFor)
    && (forall i, j :: 0 <= i < j < |t.books.log| && t.books.log[i].row == t.books.log[j].row ==>
         t.books.log[i].heldUnder != t.books.log[j].heldUnder)
  }

  lemma Begins(cfg: Config)
    ensures Reached(cfg, INIT)
  {
    assert Run(cfg, INIT, [], INIT);
  }

  lemma ReachedOn(cfg: Config, t: State, step: Step)
    requires Reached(cfg, t) && Enabled(t, step) && Possible(step)
    ensures Reached(cfg, Apply(cfg, t, step))
  {
    var steps :| Run(cfg, INIT, steps, t) && forall i :: 0 <= i < |steps| ==> Possible(steps[i]);
    OneStep(cfg, t, step);
    RunThen(cfg, INIT, steps, t, [step], Apply(cfg, t, step));
  }

  // ---- a retry that is out ----

  /** The retry of `id` is out at the worker's own desk, due, and nobody else is at work. */
  predicate RetryIsOut(s: State, id: string, worker: string) {
    var mine, other := DeskId(worker, Retries, 0), DeskId(worker, Retries, 1);
    && id in s.books.rows && s.books.rows[id].status == Retrying && s.books.rows[id].claimedBy == worker
    && s.books.rows[id].nextRetryAt <= s.now
    && s.DeskAt(mine) == Desk(map[id := |s.books.rows[id].takers|], []) && s.DeskAt(other) == EMPTY_DESK
  }

  /** A notification that failed its first delivery and may be tried again. */
  ghost predicate RetryIsDue(s: State, id: string, worker: string) {
    && id in s.books.rows && s.books.rows[id].status == RetryScheduled && s.books.rows[id].nextRetryAt <= s.now
    && forall lane :: s.DeskAt(DeskId(worker, Retries, lane)) == EMPTY_DESK
  }

  lemma FailedDeliveryComesDue(cfg: Config, id: string, worker: string) returns (t: State)
    requires cfg.maxRetries > 1
    ensures Reached(cfg, t) && RetryIsDue(t, id, worker)
  {
    hide Reached; hide Run;
    var d := DeskId(worker, Deliveries, 0);
    Begins(cfg);
    ReachedOn(cfg, INIT, Create(id, false));
    var s1 := Apply(cfg, INIT, Create(id, false));
    ClaimsOne(cfg, s1, id, d);
    ReachedOn(cfg, s1, Claim(d, {id}));
    var s2 := Apply(cfg, s1, Claim(d, {id}));
    FinishesOne(cfg, s2, id, d, 1, OutFailed(1));
    ReachedOn(cfg, s2, Finish(d, id, Provider(OutFailed(1))));
    var s3 := Apply(cfg, s2, Finish(d, id, Provider(OutFailed(1))));
    t := FailureIsSaved(cfg, s3, id, d);
  }

  /** A first failure is saved, and a second later its retry is due. */
  lemma FailureIsSaved(cfg: Config, s: State, id: string, d: DeskId) returns (t: State)
    requires cfg.maxRetries > 1 && Reached(cfg, s) && d.stage == Deliveries
    requires s.DeskAt(d) == Desk(map[], [Result(id, 1, Provider(OutFailed(1)), s.now)])
    requires forall e :: e != d ==> s.DeskAt(e) == EMPTY_DESK
    requires id in s.books.rows && s.books.rows[id].status == Delivering && s.books.rows[id].claimedBy == d.worker
    requires s.books.rows[id].retryCount == 0
    ensures Reached(cfg, t) && RetryIsDue(t, id, d.worker)
  {
    hide Reached; hide Run;
    SavesOne(cfg, s, d, Result(id, 1, Provider(OutFailed(1)), s.now));
    ReachedOn(cfg, s, Save(d, Committed));
    var saved := Apply(cfg, s, Save(d, Committed));
    ReachedOn(cfg, saved, Tick(1));
    t := Apply(cfg, saved, Tick(1));
    assert saved.books.rows[id].status == RetryScheduled;
    forall lane ensures t.DeskAt(DeskId(d.worker, Retries, lane)) == EMPTY_DESK {
      assert s.DeskAt(DeskId(d.worker, Retries, lane)) == EMPTY_DESK;
    }
  }

  lemma DueRetryGoesOut(cfg: Config, s: State, id: string, worker: string) returns (t: State)
    requires Reached(cfg, s) && RetryIsDue(s, id, worker)
    ensures Reached(cfg, t) && RetryIsOut(t, id, worker)
  {
    hide Reached; hide Run;
    var mine := DeskId(worker, Retries, 0);
    ClaimsOne(cfg, s, id, mine);
    ReachedOn(cfg, s, Claim(mine, {id}));
    t := Apply(cfg, s, Claim(mine, {id}));
  }

  // ---- how the promise breaks ----

  /** The latest result was written under the claim after the one it was computed for. */
  predicate LandedLate(t: State, id: string) {
    |t.books.log| > 0 &&
    var w := t.books.log[|t.books.log| - 1];
    w.row == id && w.heldUnder == w.computedFor + 1
  }

  /** By a lost acknowledgement, with or without a reaper: the open breaker hands the row back,
      the commit of that is not acknowledged, the second call claims the row, and saving the
      kept result again lands on that claim. */
  lemma LostAckLandsLate(cfg: Config, s: State, id: string, worker: string) returns (t: State)
    requires Reached(cfg, s) && RetryIsOut(s, id, worker)
    ensures Reached(cfg, t) && LandedLate(t, id)
  {
    hide Reached; hide Run;
    var mine, other := DeskId(worker, Retries, 0), DeskId(worker, Retries, 1);
    var c := |s.books.rows[id].takers|;
    var finish := Finish(mine, id, ShortCircuited);
    ReachedOn(cfg, s, finish);
    var s1 := Apply(cfg, s, finish);
    var r := Result(id, c, ShortCircuited, s.now);
    assert s1.DeskAt(mine) == Desk(map[], [r]) && s1.DeskAt(other) == EMPTY_DESK;
    SavesUnacknowledged(cfg, s1, mine, r);
    ReachedOn(cfg, s1, Save(mine, AckLost));
    var s2 := Apply(cfg, s1, Save(mine, AckLost));
    ClaimsOne(cfg, s2, id, other);
    ReachedOn(cfg, s2, Claim(other, {id}));
    var s3 := Apply(cfg, s2, Claim(other, {id}));
    SavesOne(cfg, s3, mine, r);
    ReachedOn(cfg, s3, Save(mine, Committed));
    t := Apply(cfg, s3, Save(mine, Committed));
  }

  lemma SavesUnacknowledged(cfg: Config, s: State, d: DeskId, r: Result)
    requires s.DeskAt(d) == Desk(map[], [r])
    ensures Enabled(s, Save(d, AckLost))
    ensures Apply(cfg, s, Save(d, AckLost)) == s.(books := SaveOne(cfg, s.books, d.worker, d.stage, r))
  {
    assert [r][..0] == [];
    assert SaveAll(cfg, s.books, d.worker, d.stage, []) == s.books;
  }

  /** By the reaper, with every save acknowledged: it returns the row of a slow retry, the second
      call claims it under the same worker name, and the first call's outcome lands there. */
  lemma ReapedRetryLandsLate(cfg: Config, s: State, id: string, worker: string) returns (t: State)
    requires cfg.claimTimeout > 0 && Reached(cfg, s) && RetryIsOut(s, id, worker)
    ensures Reached(cfg, t) && LandedLate(t, id)
  {
    hide Reached; hide Run;
    var mine, other := DeskId(worker, Retries, 0), DeskId(worker, Retries, 1);
    var row := s.books.rows[id];
    var s2 := SlowRetryIsReaped(cfg, s, id);
    ClaimsOne(cfg, s2, id, other);
    ReachedOn(cfg, s2, Claim(other, {id}));
    var s3 := Apply(cfg, s2, Claim(other, {id}));
    FinishesOne(cfg, s3, id, mine, |row.takers|, OutDelivered);
    ReachedOn(cfg, s3, Finish(mine, id, Provider(OutDelivered)));
    var s4 := Apply(cfg, s3, Finish(mine, id, Provider(OutDelivered)));
    SavesOne(cfg, s4, mine, Result(id, |row.takers|, Provider(OutDelivered), s3.now));
    ReachedOn(cfg, s4, Save(mine, Committed));
    t := Apply(cfg, s4, Save(mine, Committed));
  }

  lemma SlowRetryIsReaped(cfg: Config, s: State, id: string) returns (t: State)
    requires cfg.claimTimeout > 0 && Reached(cfg, s) && id in s.books.rows && s.books.rows[id].status == Retrying
    ensures Reached(cfg, t) && t.desks == s.desks && t.now >= s.now
    ensures id in t.books.rows && t.books.rows[id] == s.books.rows[id].(status := RetryScheduled)
  {
    hide Reached; hide Run;
    var wait := Tick(Max(0, s.books.rows[id].claimedAt + cfg.claimTimeout + 1 - s.now));
    ReachedOn(cfg, s, wait);
    var late := Apply(cfg, s, wait);
    ReachedOn(cfg, late, Reap);
    t := Apply(cfg, late, Reap);
  }

  // ---- when it holds ----

  /** No row waits for a retry or is out on one. */
  predicate NoRetries(b: Books) {
    forall id :: id in b.rows ==> b.rows[id].status != RetryScheduled && b.rows[id].status != Retrying
  }

  /** And no desk of the retry stage has anything. */
  predicate NoRetryWork(s: State) {
    NoRetries(s.books) && forall d :: d in s.desks && d.stage == Retries ==> s.desks[d] == EMPTY_DESK
  }

  /** With no retry to give, a failure is final. */
  lemma {:induction false} SavingSchedulesNoRetry(cfg: Config, b: Books, worker: string, stage: Stage,
                                                  results: seq<Result>)
    requires cfg.maxRetries <= 1 && NoRetries(b)
    ensures NoRetries(SaveAll(cfg, b, worker, stage, results))
    decreases |results|
  {
    if results != [] { SavingSchedulesNoRetry(cfg, b, worker, stage, results[..|results| - 1]); }
  }

  lemma StepSchedulesNoRetry(cfg: Config, s: State, step: Step)
    requires cfg.maxRetries <= 1 && NoRetryWork(s) && Enabled(s, step)
    ensures NoRetryWork(Apply(cfg, s, step))
    ensures step.Claim? && step.desk.stage == Retries ==> step.ids == {}
  {
    hide SaveAll;
    if step.Save? {
      SavingSchedulesNoRetry(cfg, s.books, step.desk.worker, step.desk.stage, s.DeskAt(step.desk).results);
    }
  }

  lemma PossibleStepKeeps(cfg: Config, s: State, step: Step)
    requires cfg.maxRetries <= 1 && Inv(cfg, s) && NoRetryWork(s) && Enabled(s, step) && Possible(step)
    ensures Inv(cfg, Apply(cfg, s, step)) && NoRetryWork(Apply(cfg, s, step))
  {
    hide Inv; hide NoRetries;
    StepSchedulesNoRetry(cfg, s, step);
    if step.Claim? && step.desk.lane != 0 {
      EmptyClaimKeeps(cfg, s, step.desk);
    } else if step.HandOver? && step.desk != step.to {
      LosingWorkKeeps(cfg, s, Apply(cfg, s, step));
    } else {
      StepKeeps(cfg, s, step);
    }
  }

  /** A claim that finds nothing. */
  lemma EmptyClaimKeeps(cfg: Config, s: State, d: DeskId)
    requires Inv(cfg, s) && Enabled(s, Claim(d, {}))
    ensures Inv(cfg, Apply(cfg, s, Claim(d, {})))
  {
    hide Inv;
    var t := Apply(cfg, s, Claim(d, {}));
    assert t.books.rows == s.books.rows;
    assert t.desks[d] == EMPTY_DESK;
    LosingWorkKeeps(cfg, s, t);
  }

  lemma {:induction false} PossibleRunKeeps(cfg: Config, s: State, steps: seq<Step>, t: State)
    requires cfg.maxRetries <= 1 && Inv(cfg, s) && NoRetryWork(s)
    requires Run(cfg, s, steps, t) && forall i :: 0 <= i < |steps| ==> Possible(steps[i])
    ensures Inv(cfg, t)
    decreases |steps|
  {
    hide Inv; hide NoRetryWork; hide Apply;
    if steps != [] {
      PossibleStepKeeps(cfg, s, steps[0]);
      PossibleRunKeeps(cfg, Apply(cfg, s, steps[0]), steps[1..], t);
    }
  }

  lemma InvIsSafe(cfg: Config, t: State)
    requires Inv(cfg, t)
    ensures ClaimSafe(t)
  {
    forall i | 0 <= i < |t.books.log| ensures t.books.log[i].heldUnder == t.books.log[i].computedFor {
      assert WriteOk(t, t.books.log[i]);
    }
  }

  /** Claim safety survives overlapping calls of the retry stage exactly under settings that
      never schedule a retry. */
  lemma OverlapIsSafeIff(cfg: Config)
    ensures (forall t :: Reached(cfg, t) ==> ClaimSafe(t)) <==> cfg.maxRetries <= 1
  {
    if cfg.maxRetries <= 1 {
      forall t | Reached(cfg, t) ensures ClaimSafe(t) {
        var steps :| Run(cfg, INIT, steps, t) && forall i :: 0 <= i < |steps| ==> Possible(steps[i]);
        InitOk(cfg);
        PossibleRunKeeps(cfg, INIT, steps, t);
        InvIsSafe(cfg, t);
      }
    } else {
      var s1 := FailedDeliveryComesDue(cfg, "n", "w");
      var s2 := DueRetryGoesOut(cfg, s1, "n", "w");
      var t := LostAckLandsLate(cfg, s2, "n", "w");
      assert Reached(cfg, t) && !ClaimSafe(t);
    }
  }
}
