/**
  The claim / deliver / save / reclaim protocol of the worker replicas, as a
  transition system. A desk is one running stage of one worker: the rows it has out
  for delivery and the results it has not seen saved yet.
 */
module DeliveryProtocol {
  import opened Notifications

  datatype Desk = Desk(inflight: map<string, nat>, results: seq<Result>)

  const EMPTY_DESK := Desk(map[], [])

  /** `used` is history: every id ever created. */
  datatype State = State(
    now: int,
    books: Books,
    desks: map<DeskId, Desk>,
    used: set<string>) {

    function DeskAt(d: DeskId): Desk { if d in desks then desks[d] else EMPTY_DESK }
  }

  const INIT := State(0, Books(map[], []), map[], {})

  const BATCH_LIMIT: nat := 500

  /** A save commits, rolls back, or commits without the worker learning of it. */
  datatype SaveEnd = Committed | RolledBack | AckLost

  datatype Step =
    | Tick(d: nat)
    | Create(id: string, batched: bool)
    | Flush(id: string, hasContext: bool)
    | Delete(id: string)
    | Claim(desk: DeskId, ids: set<string>)
    | Finish(desk: DeskId, id: string, verdict: Verdict)
    | Panic(desk: DeskId, id: string)
    | Save(desk: DeskId, end: SaveEnd)
    | HandOver(desk: DeskId, to: DeskId)
    | Crash(worker: string)
    | Reap

  predicate Claimable(s: State, stage: Stage, id: string) {
    && id in s.books.rows && s.books.rows[id].status == stage.Pending()
    && (stage == Retries ==> s.books.rows[id].nextRetryAt <= s.now)
  }

  /** A stage saves or drops what it holds before it claims again, and saves only when
      every task of the batch has ended. Calls of one stage in one process share the buffer of
      unsaved results: one call finds there what another could not save, or overwrites it. */
  predicate Enabled(s: State, step: Step) {
    match step
    case Tick(_) => true
    case Create(id, _) => id !in s.used
    case Flush(id, _) => id in s.books.rows && s.books.rows[id].status == Batched
    case Delete(id) => id in s.books.rows
    case Claim(d, ids) =>
      s.DeskAt(d) == EMPTY_DESK && |ids| <= BATCH_LIMIT && forall id :: id in ids ==> Claimable(s, d.stage, id)
    case Finish(d, id, verdict) => id in s.DeskAt(d).inflight && (verdict == NoContext ==> d.stage == Retries)
    case Panic(d, id) => id in s.DeskAt(d).inflight
    case Save(d, _) => s.DeskAt(d).inflight == map[] && s.DeskAt(d).results != []
    case HandOver(d, e) =>
      d.worker == e.worker && d.stage == e.stage && s.DeskAt(d).inflight == map[] && s.DeskAt(e).inflight == map[]
    case Crash(_) => true
    case Reap => true
  }

  function TakeClaim(row: Row, d: DeskId, now: int): Row {
    row.(status := d.stage.Claimed(), claimedBy := d.worker, claimedAt := now, takers := row.takers + [d])
  }

  /** ReclaimStaleClaims on one row. */
  function Reaped(cfg: Config, row: Row, now: int): Row {
    if cfg.claimTimeout > 0 && row.claimedAt < now - cfg.claimTimeout then
      if row.status == Delivering then row.(status := DeliveryScheduled)
      else if row.status == Retrying then row.(status := RetryScheduled)
      else row
    else row
  }

  function Apply(cfg: Config, s: State, step: Step): State
    requires Enabled(s, step)
  {
    var rows := s.books.rows;
    match step
    case Tick(d) => s.(now := s.now + d)
    case Create(id, batched) =>
      s.(books := s.books.(rows := rows[id := Row(if batched then Batched else DeliveryScheduled, "", 0, [], 0, 0)]),
         used := s.used + {id})
    case Flush(id, hasContext) =>
      s.(books := s.books.(rows := rows[id := rows[id].(status := if hasContext then DeliveryScheduled else Failed)]))
    case Delete(id) =>
      s.(books := s.books.(rows := rows - {id}))
    case Claim(d, ids) =>
      var claimed := map id | id in rows :: if id in ids then TakeClaim(rows[id], d, s.now) else rows[id];
      s.(books := s.books.(rows := claimed),
         desks := s.desks[d := Desk(map id | id in ids :: |rows[id].takers| + 1, [])])
    case Finish(d, id, verdict) =>
      var desk := s.DeskAt(d);
      var result := Result(id, desk.inflight[id], verdict, s.now);
      s.(desks := s.desks[d := Desk(desk.inflight - {id}, desk.results + [result])])
    case Panic(d, id) =>
      s.(desks := s.desks[d := s.DeskAt(d).(inflight := s.DeskAt(d).inflight - {id})])
    case Save(d, end) =>
      var saved := SaveAll(cfg, s.books, d.worker, d.stage, s.DeskAt(d).results);
      s.(books := if end == RolledBack then s.books else saved,
         desks := if end == Committed then s.desks[d := EMPTY_DESK] else s.desks)
    case HandOver(d, e) =>
      if d == e then s else s.(desks := s.desks[d := EMPTY_DESK][e := s.DeskAt(d)])
    case Crash(w) =>
      s.(desks := map d | d in s.desks && d.worker != w :: s.desks[d])
    case Reap =>
      s.(books := s.books.(rows := map id | id in rows :: Reaped(cfg, rows[id], s.now)))
  }

  ghost predicate Run(cfg: Config, s: State, steps: seq<Step>, t: State)
    decreases |steps|
  {
    if steps == [] then t == s
    else Enabled(s, steps[0]) && Run(cfg, Apply(cfg, s, steps[0]), steps[1..], t)
  }

  /** No stage of a worker overlaps another call of the same stage. */
  predicate OneCallPerStage(steps: seq<Step>) {
    forall i :: 0 <= i < |steps| ==>
      (steps[i].Claim? ==> steps[i].desk.lane == 0) && (steps[i].HandOver? ==> steps[i].desk == steps[i].to)
  }

  // ---- the invariant ----

  /** Something a desk still holds for a row: the desk took that claim, and if the row still
      looks claimed by this worker in this stage, it is under that very claim. */
  predicate HandleOk(s: State, d: DeskId, id: string, c: nat) {
    && id in s.used && d.lane == 0
    && (id in s.books.rows ==>
         var row := s.books.rows[id];
         && 1 <= c <= |row.takers| && row.takers[c - 1] == d
         && (row.status == d.stage.Claimed() && row.claimedBy == d.worker ==> c == |row.takers|))
  }

  predicate DeskOk(s: State, d: DeskId)
    requires d in s.desks
  {
    && (forall id :: id in s.desks[d].inflight ==> HandleOk(s, d, id, s.desks[d].inflight[id]))
    && (forall i :: 0 <= i < |s.desks[d].results| ==>
      HandleOk(s, d, s.desks[d].results[i].row, s.desks[d].results[i].claim))
    && (forall i :: 0 <= i < |s.desks[d].results| ==> s.desks[d].results[i].row !in s.desks[d].inflight)
    && (forall i, j :: 0 <= i < j < |s.desks[d].results| ==> s.desks[d].results[i].row != s.desks[d].results[j].row)
  }

  predicate RowOk(cfg: Config, s: State, id: string)
    requires id in s.books.rows
  {
    var row := s.books.rows[id];
    && id in s.used
    && AttemptsBalance(cfg, s.books, id)
    && (row.status == Batched ==> row.retryCount == 0)
    && (InClaim(row.status) ==>
         && |row.takers| > 0
         && row.takers[|row.takers| - 1].worker == row.claimedBy
         && row.takers[|row.takers| - 1].stage.Claimed() == row.status)
  }

  /** An applied result met the claim it was computed for, and that claim is over. */
  predicate WriteOk(s: State, w: Write) {
    && w.heldUnder == w.computedFor && w.row in s.used
    && (w.row in s.books.rows ==>
         && w.heldUnder <= |s.books.rows[w.row].takers|
         && (InClaim(s.books.rows[w.row].status) ==> w.heldUnder < |s.books.rows[w.row].takers|))
  }

  predicate LogOk(s: State) {
    && (forall i :: 0 <= i < |s.books.log| ==> WriteOk(s, s.books.log[i]))
    && (forall i, j :: 0 <= i < j < |s.books.log| ==>
         (s.books.log[i].row, s.books.log[i].heldUnder) != (s.books.log[j].row, s.books.log[j].heldUnder))
  }

  ghost predicate Inv(cfg: Config, s: State) {
    && (forall d :: d in s.desks ==> DeskOk(s, d))
    && (forall id :: id in s.books.rows ==> RowOk(cfg, s, id))
    && LogOk(s)
  }

  // ---- every step keeps it ----

  lemma {:induction false} UnusedHasNoAttempts(log: seq<Write>, id: string)
    requires forall i :: 0 <= i < |log| ==> log[i].row != id
    ensures Attempts(log, id) == 0
  {
    if log != [] { UnusedHasNoAttempts(log[..|log| - 1], id); }
  }

  lemma CreateKeeps(cfg: Config, s: State, id: string, batched: bool)
    requires Inv(cfg, s) && Enabled(s, Create(id, batched))
    ensures Inv(cfg, Apply(cfg, s, Create(id, batched)))
  {
    hide Attempts;
    var t := Apply(cfg, s, Create(id, batched));
    assert forall i :: 0 <= i < |s.books.log| ==> WriteOk(s, s.books.log[i]);
    UnusedHasNoAttempts(s.books.log, id);
    forall d | d in t.desks ensures DeskOk(t, d) { assert DeskOk(s, d); }
    forall x | x in t.books.rows ensures RowOk(cfg, t, x) { if x != id { assert RowOk(cfg, s, x); } }
    forall i | 0 <= i < |t.books.log| ensures WriteOk(t, t.books.log[i]) { assert WriteOk(s, s.books.log[i]); }
  }

  /** A row moved only out of a claim or a batch, its counters kept. */
  predicate Quieter(was: Row, row: Row) {
    && row.takers == was.takers && row.retryCount == was.retryCount && row.claimedBy == was.claimedBy
    && (row.status == was.status
        || (was.status == Batched && (row.status == DeliveryScheduled || row.status == Failed))
        || (was.status == Delivering && row.status == DeliveryScheduled)
        || (was.status == Retrying && row.status == RetryScheduled))
  }

  predicate Quietened(s: State, t: State) {
    && t == s.(books := s.books.(rows := t.books.rows), now := t.now)
    && t.books.rows.Keys <= s.books.rows.Keys
    && forall id :: id in t.books.rows ==> Quieter(s.books.rows[id], t.books.rows[id])
  }

  lemma QuietHandle(s: State, t: State, d: DeskId, id: string, c: nat)
    requires Quietened(s, t) && HandleOk(s, d, id, c)
    ensures HandleOk(t, d, id, c)
  {
  }

  lemma QuietDesk(s: State, t: State, d: DeskId)
    requires Quietened(s, t) && d in s.desks && DeskOk(s, d)
    ensures DeskOk(t, d)
  {
    hide HandleOk; hide Quieter;
    forall id | id in t.desks[d].inflight ensures HandleOk(t, d, id, t.desks[d].inflight[id]) {
      QuietHandle(s, t, d, id, s.desks[d].inflight[id]);
    }
    forall i | 0 <= i < |t.desks[d].results|
      ensures HandleOk(t, d, t.desks[d].results[i].row, t.desks[d].results[i].claim)
    {
      QuietHandle(s, t, d, s.desks[d].results[i].row, s.desks[d].results[i].claim);
    }
  }

  lemma QuietRow(cfg: Config, s: State, t: State, id: string)
    requires Quietened(s, t) && id in t.books.rows && RowOk(cfg, s, id)
    ensures RowOk(cfg, t, id)
  {
    hide Attempts; hide Max;
    assert Quieter(s.books.rows[id], t.books.rows[id]);
  }

  /** Steps that move rows only out of a claim, or remove them, keep everything. */
  lemma QuietRowsKeep(cfg: Config, s: State, t: State)
    requires Inv(cfg, s) && Quietened(s, t)
    ensures Inv(cfg, t)
  {
    hide RowOk; hide DeskOk;
    forall d | d in t.desks ensures DeskOk(t, d) { QuietDesk(s, t, d); }
    forall id | id in t.books.rows ensures RowOk(cfg, t, id) { QuietRow(cfg, s, t, id); }
    forall i | 0 <= i < |t.books.log| ensures WriteOk(t, t.books.log[i]) { assert WriteOk(s, s.books.log[i]); }
  }

  lemma ClaimKeepsHandle(cfg: Config, s: State, d: DeskId, ids: set<string>, e: DeskId, id: string, c: nat)
    requires Enabled(s, Claim(d, ids)) && d.lane == 0 && e != d && HandleOk(s, e, id, c)
    ensures HandleOk(Apply(cfg, s, Claim(d, ids)), e, id, c)
  {
  }

  lemma ClaimKeepsDesks(cfg: Config, s: State, d: DeskId, ids: set<string>)
    requires Inv(cfg, s) && Enabled(s, Claim(d, ids)) && d.lane == 0
    ensures var t := Apply(cfg, s, Claim(d, ids)); forall e :: e in t.desks ==> DeskOk(t, e)
  {
    var t := Apply(cfg, s, Claim(d, ids));
    forall e | e in t.desks ensures DeskOk(t, e) {
      if e != d {
        assert DeskOk(s, e);
        forall id | id in s.desks[e].inflight ensures HandleOk(t, e, id, s.desks[e].inflight[id]) {
          ClaimKeepsHandle(cfg, s, d, ids, e, id, s.desks[e].inflight[id]);
        }
        forall i | 0 <= i < |s.desks[e].results|
          ensures HandleOk(t, e, s.desks[e].results[i].row, s.desks[e].results[i].claim)
        {
          ClaimKeepsHandle(cfg, s, d, ids, e, s.desks[e].results[i].row, s.desks[e].results[i].claim);
        }
      } else {
        forall id | id in ids ensures id in s.used { assert Claimable(s, d.stage, id) && RowOk(cfg, s, id); }
      }
    }
  }

  lemma ClaimKeeps(cfg: Config, s: State, d: DeskId, ids: set<string>)
    requires Inv(cfg, s) && Enabled(s, Claim(d, ids)) && d.lane == 0
    ensures Inv(cfg, Apply(cfg, s, Claim(d, ids)))
  {
    hide Attempts; hide DeskOk;
    var t := Apply(cfg, s, Claim(d, ids));
    ClaimKeepsDesks(cfg, s, d, ids);
    forall id | id in t.books.rows ensures RowOk(cfg, t, id) {
      assert RowOk(cfg, s, id);
      assert id in ids ==> Claimable(s, d.stage, id);
    }
    forall i | 0 <= i < |t.books.log| ensures WriteOk(t, t.books.log[i]) { assert WriteOk(s, s.books.log[i]); }
  }

  lemma FinishKeeps(cfg: Config, s: State, d: DeskId, id: string, verdict: Verdict)
    requires Inv(cfg, s) && Enabled(s, Finish(d, id, verdict))
    ensures Inv(cfg, Apply(cfg, s, Finish(d, id, verdict)))
  {
    hide Attempts; hide AttemptsBalance;
    var t := Apply(cfg, s, Finish(d, id, verdict));
    assert DeskOk(s, d);
    forall e | e in t.desks ensures DeskOk(t, e) {
      if e != d { assert DeskOk(s, e); }
    }
    forall x | x in t.books.rows ensures RowOk(cfg, t, x) { assert RowOk(cfg, s, x); }
    forall i | 0 <= i < |t.books.log| ensures WriteOk(t, t.books.log[i]) { assert WriteOk(s, s.books.log[i]); }
  }

  /** Desks may lose work, never gain it, without harm. */
  lemma LosingWorkKeeps(cfg: Config, s: State, t: State)
    requires Inv(cfg, s) && t == s.(desks := t.desks)
    requires forall d :: d in t.desks ==>
      t.desks[d] == EMPTY_DESK ||
      (d in s.desks && t.desks[d].results == s.desks[d].results &&
       (t.desks[d].inflight == s.desks[d].inflight || exists x :: t.desks[d].inflight == s.desks[d].inflight - {x}))
    ensures Inv(cfg, t)
  {
    forall d | d in t.desks ensures DeskOk(t, d) { if t.desks[d] != EMPTY_DESK { assert DeskOk(s, d); } }
    forall x | x in t.books.rows ensures RowOk(cfg, t, x) { assert RowOk(cfg, s, x); }
    forall i | 0 <= i < |t.books.log| ensures WriteOk(t, t.books.log[i]) { assert WriteOk(s, s.books.log[i]); }
  }

  /** One result of a desk is written, if at all, under the claim it was computed for. */
  lemma SaveOneKeeps(cfg: Config, s: State, d: DeskId, r: Result)
    requires Inv(cfg, s) && HandleOk(s, d, r.row, r.claim)
    ensures Inv(cfg, s.(books := SaveOne(cfg, s.books, d.worker, d.stage, r)))
  {
    hide Attempts; hide AttemptsBalance;
    var t := s.(books := SaveOne(cfg, s.books, d.worker, d.stage, r));
    if StillOurs(s.books, d.worker, d.stage, r) {
      forall e | e in t.desks ensures DeskOk(t, e) {
        assert DeskOk(s, e);
        forall id, c | HandleOk(s, e, id, c) ensures HandleOk(t, e, id, c) { }
      }
      forall x | x in t.books.rows ensures RowOk(cfg, t, x) {
        assert RowOk(cfg, s, x);
        SaveOneKeepsBalance(cfg, s.books, d.worker, d.stage, r, x);
      }
      assert RowOk(cfg, s, r.row);
      forall i | 0 <= i < |t.books.log| ensures WriteOk(t, t.books.log[i]) {
        if i < |s.books.log| { assert WriteOk(s, s.books.log[i]); }
      }
      forall i, j | 0 <= i < j < |t.books.log|
        ensures (t.books.log[i].row, t.books.log[i].heldUnder) != (t.books.log[j].row, t.books.log[j].heldUnder)
      {
        if j == |s.books.log| { assert WriteOk(s, s.books.log[i]); }
      }
    }
  }

  lemma {:induction false} SaveAllKeeps(cfg: Config, s: State, d: DeskId, n: nat)
    requires Inv(cfg, s) && d in s.desks && n <= |s.desks[d].results|
    ensures Inv(cfg, s.(books := SaveAll(cfg, s.books, d.worker, d.stage, s.desks[d].results[..n])))
    decreases n
  {
    hide Attempts; hide RowOk; hide LogOk; hide SaveOne;
    if n > 0 {
      SaveAllKeeps(cfg, s, d, n - 1);
      var results := s.desks[d].results;
      assert results[..n][..n - 1] == results[..n - 1];
      var t := s.(books := SaveAll(cfg, s.books, d.worker, d.stage, results[..n - 1]));
      assert DeskOk(t, d);
      SaveOneKeeps(cfg, t, d, results[n - 1]);
    }
  }

  lemma SaveKeeps(cfg: Config, s: State, d: DeskId, end: SaveEnd)
    requires Inv(cfg, s) && Enabled(s, Save(d, end))
    ensures Inv(cfg, Apply(cfg, s, Save(d, end)))
  {
    hide RowOk; hide LogOk; hide SaveAll;
    var results := s.desks[d].results;
    SaveAllKeeps(cfg, s, d, |results|);
    assert results[..|results|] == results;
    var saved := if end == RolledBack then s else s.(books := SaveAll(cfg, s.books, d.worker, d.stage, results));
    assert Inv(cfg, saved);
    LosingWorkKeeps(cfg, saved, Apply(cfg, s, Save(d, end)));
  }

  lemma StepKeeps(cfg: Config, s: State, step: Step)
    requires Inv(cfg, s) && Enabled(s, step) && OneCallPerStage([step])
    ensures Inv(cfg, Apply(cfg, s, step))
  {
    hide RowOk; hide LogOk; hide DeskOk;
    var t := Apply(cfg, s, step);
    match step
    case Create(id, batched) => CreateKeeps(cfg, s, id, batched);
    case Claim(d, ids) => assert [step][0] == step; ClaimKeeps(cfg, s, d, ids);
    case Finish(d, id, verdict) => FinishKeeps(cfg, s, d, id, verdict);
    case Panic(d, id) => LosingWorkKeeps(cfg, s, t);
    case Crash(w) => LosingWorkKeeps(cfg, s, t);
    case Save(d, end) => SaveKeeps(cfg, s, d, end);
    case HandOver(d, e) => assert [step][0] == step;
    case Tick(d) => QuietRowsKeep(cfg, s, t);
    case Flush(id, c) => QuietRowsKeep(cfg, s, t);
    case Delete(id) => QuietRowsKeep(cfg, s, t);
    case Reap => QuietRowsKeep(cfg, s, t);
  }

  lemma {:induction false} RunKeeps(cfg: Config, s: State, steps: seq<Step>, t: State)
    requires Inv(cfg, s) && Run(cfg, s, steps, t) && OneCallPerStage(steps)
    ensures Inv(cfg, t)
    decreases |steps|
  {
    if steps != [] {
      assert OneCallPerStage([steps[0]]);
      StepKeeps(cfg, s, steps[0]);
      RunKeeps(cfg, Apply(cfg, s, steps[0]), steps[1..], t);
    }
  }

  // ---- what holds over every run ----

  lemma InitOk(cfg: Config)
    ensures Inv(cfg, INIT)
  {
  }

  /** Over every interleaving of claims, provider calls, panics, crashes, failed saves, lost
      acknowledgements, deletions and reaper passes: a result is written only under the very
      claim it was computed for, each claim gets at most one result, and whatever a desk
      still holds for a row was taken by that desk and no other. */
  lemma ClaimSafety(cfg: Config, steps: seq<Step>, t: State)
    requires Run(cfg, INIT, steps, t) && OneCallPerStage(steps)
    ensures forall i :: 0 <= i < |t.books.log| ==> t.books.log[i].heldUnder == t.books.log[i].computedFor
    ensures forall i, j :: 0 <= i < j < |t.books.log| && t.books.log[i].row == t.books.log[j].row ==>
      t.books.log[i].heldUnder != t.books.log[j].heldUnder
    ensures forall d, id :: d in t.desks && id in t.desks[d].inflight && id in t.books.rows ==>
      var c := t.desks[d].inflight[id]; 1 <= c <= |t.books.rows[id].takers| && t.books.rows[id].takers[c - 1] == d
  {
    InitOk(cfg);
    RunKeeps(cfg, INIT, steps, t);
    forall i | 0 <= i < |t.books.log| ensures t.books.log[i].heldUnder == t.books.log[i].computedFor {
      assert WriteOk(t, t.books.log[i]);
    }
    forall d, id | d in t.desks && id in t.desks[d].inflight && id in t.books.rows
      ensures var c := t.desks[d].inflight[id];
        1 <= c <= |t.books.rows[id].takers| && t.books.rows[id].takers[c - 1] == d
    {
      assert DeskOk(t, d) && HandleOk(t, d, id, t.desks[d].inflight[id]);
    }
  }

  /** In every reachable state a row's attempt records are its counted failures plus one if a
      provider settled it, and they never exceed the retry budget. */
  lemma AttemptConservation(cfg: Config, steps: seq<Step>, t: State, id: string)
    requires Run(cfg, INIT, steps, t) && OneCallPerStage(steps) && id in t.books.rows
    ensures Attempts(t.books.log, id) ==
      t.books.rows[id].retryCount + (if t.books.rows[id].status in {Delivered, Skipped} then 1 else 0)
    ensures Attempts(t.books.log, id) <= Max(1, cfg.maxRetries)
  {
    InitOk(cfg);
    RunKeeps(cfg, INIT, steps, t);
    assert RowOk(cfg, t, id);
  }

  // ---- what a save writes ----

  ghost predicate RowsDistinct(results: seq<Result>) {
    forall i, j :: 0 <= i < j < |results| ==> results[i].row != results[j].row
  }

  lemma {:induction false} SaveKeepsOtherRows(cfg: Config, b: Books, worker: string, stage: Stage,
                                              results: seq<Result>, id: string)
    requires forall i :: 0 <= i < |results| ==> results[i].row != id
    ensures var after := SaveAll(cfg, b, worker, stage, results);
      (id in after.rows <==> id in b.rows) && (id in b.rows ==> after.rows[id] == b.rows[id])
    decreases |results|
  {
    if results != [] { SaveKeepsOtherRows(cfg, b, worker, stage, results[..|results| - 1], id); }
  }

  /** A batch writes each result that is still the worker's to its own row, and skips the
      results whose row is gone or no longer under this worker's claim. */
  lemma {:induction false} SaveWritesItsOwnRow(cfg: Config, b: Books, worker: string, stage: Stage,
                                               results: seq<Result>, i: nat)
    requires RowsDistinct(results) && i < |results|
    ensures var r, after := results[i], SaveAll(cfg, b, worker, stage, results);
      && (r.row in after.rows <==> r.row in b.rows)
      && (r.row in b.rows && StillOurs(b, worker, stage, r) ==>
           after.rows[r.row] == ApplyVerdict(cfg, b.rows[r.row], stage, r.verdict, r.finishedAt))
      && (r.row in b.rows && !StillOurs(b, worker, stage, r) ==> after.rows[r.row] == b.rows[r.row])
    decreases |results|
  {
    var n := |results| - 1;
    assert forall j :: 0 <= j < n ==> results[..n][j] == results[j];
    if i == n {
      SaveKeepsOtherRows(cfg, b, worker, stage, results[..n], results[n].row);
    } else {
      SaveWritesItsOwnRow(cfg, b, worker, stage, results[..n], i);
    }
  }

  /** A result that found its row settled is not written again: saving the same batch twice,
      as after a lost acknowledgement, changes nothing. */
  lemma SaveTwiceIsSaveOnce(cfg: Config, b: Books, worker: string, stage: Stage, results: seq<Result>)
    requires RowsDistinct(results)
    ensures var once := SaveAll(cfg, b, worker, stage, results);
      SaveAll(cfg, once, worker, stage, results) == once
  {
    var once := SaveAll(cfg, b, worker, stage, results);
    forall i | 0 <= i < |results| ensures !StillOurs(once, worker, stage, results[i]) {
      SaveWritesItsOwnRow(cfg, b, worker, stage, results, i);
    }
    NothingOursNothingWritten(cfg, once, worker, stage, results);
  }

  lemma {:induction false} NothingOursNothingWritten(cfg: Config, b: Books, worker: string, stage: Stage,
                                                     results: seq<Result>)
    requires forall i :: 0 <= i < |results| ==> !StillOurs(b, worker, stage, results[i])
    ensures SaveAll(cfg, b, worker, stage, results) == b
    decreases |results|
  {
    if results != [] { NothingOursNothingWritten(cfg, b, worker, stage, results[..|results| - 1]); }
  }

  // ---- no notification is lost ----

  lemma {:induction false} RunThen(cfg: Config, s: State, a: seq<Step>, m: State, b: seq<Step>, t: State)
    requires Run(cfg, s, a, m) && Run(cfg, m, b, t)
    ensures Run(cfg, s, a + b, t)
    decreases |a|
  {
    if a == [] {
      assert a + b == b;
    } else {
      assert (a + b)[1..] == a[1..] + b;
      RunThen(cfg, Apply(cfg, s, a[0]), a[1..], m, b, t);
    }
  }

  lemma OneStep(cfg: Config, s: State, step: Step)
    requires Enabled(s, step)
    ensures Run(cfg, s, [step], Apply(cfg, s, step))
  {
    assert [step][1..] == [];
  }

  lemma ClaimsOne(cfg: Config, s: State, id: string, d: DeskId)
    requires Claimable(s, d.stage, id) && s.DeskAt(d) == EMPTY_DESK
    ensures Enabled(s, Claim(d, {id}))
    ensures var t := Apply(cfg, s, Claim(d, {id}));
      && t.DeskAt(d) == Desk(map[id := |s.books.rows[id].takers| + 1], [])
      && (forall e :: e != d ==> t.DeskAt(e) == s.DeskAt(e))
      && id in t.books.rows && t.books.rows[id] == TakeClaim(s.books.rows[id], d, s.now)
      && t.books.log == s.books.log
  {
  }

  lemma FinishesOne(cfg: Config, s: State, id: string, d: DeskId, c: nat, outcome: Outcome)
    requires s.DeskAt(d) == Desk(map[id := c], [])
    ensures var step := Finish(d, id, Provider(outcome));
      && Enabled(s, step)
      && Apply(cfg, s, step).DeskAt(d) == Desk(map[], [Result(id, c, Provider(outcome), s.now)])
      && Apply(cfg, s, step).books == s.books
  {
  }

  lemma SavesOne(cfg: Config, s: State, d: DeskId, r: Result)
    requires s.DeskAt(d) == Desk(map[], [r])
    ensures Enabled(s, Save(d, Committed))
    ensures Apply(cfg, s, Save(d, Committed)).books == SaveOne(cfg, s.books, d.worker, d.stage, r)
  {
    assert [r][..0] == [];
    assert SaveAll(cfg, s.books, d.worker, d.stage, []) == s.books;
  }

  /** A pending row and an idle desk lead to a delivered row. */
  lemma PendingCanDeliver(cfg: Config, s: State, id: string, d: DeskId) returns (steps: seq<Step>, t: State)
    requires Claimable(s, d.stage, id) && s.DeskAt(d) == EMPTY_DESK && d.lane == 0
    ensures Run(cfg, s, steps, t) && OneCallPerStage(steps)
    ensures id in t.books.rows && t.books.rows[id].status == Delivered
  {
    var c := |s.books.rows[id].takers| + 1;
    ClaimsOne(cfg, s, id, d);
    var s1 := Apply(cfg, s, Claim(d, {id}));
    t := SettleHeld(cfg, s1, id, d, c);
    OneStep(cfg, s, Claim(d, {id}));
    steps := [Claim(d, {id})] + SettleSteps(d, id);
    RunThen(cfg, s, [Claim(d, {id})], s1, SettleSteps(d, id), t);
  }

  function SettleSteps(d: DeskId, id: string): seq<Step> {
    [Finish(d, id, Provider(OutDelivered))] + [Save(d, Committed)]
  }

  /** The one task out at a desk ends well and is saved. */
  lemma SettleHeld(cfg: Config, s: State, id: string, d: DeskId, c: nat) returns (t: State)
    requires s.DeskAt(d) == Desk(map[id := c], [])
    requires id in s.books.rows && s.books.rows[id].status == d.stage.Claimed() &&
      s.books.rows[id].claimedBy == d.worker
    ensures Run(cfg, s, SettleSteps(d, id), t)
    ensures id in t.books.rows && t.books.rows[id].status == Delivered
    ensures t.books.log == s.books.log + [Write(id, |s.books.rows[id].takers|, c, Provider(OutDelivered), s.now)]
  {
    var finish := Finish(d, id, Provider(OutDelivered));
    FinishesOne(cfg, s, id, d, c, OutDelivered);
    var s1 := Apply(cfg, s, finish);
    SavesOne(cfg, s1, d, Result(id, c, Provider(OutDelivered), s.now));
    t := Apply(cfg, s1, Save(d, Committed));
    OneStep(cfg, s, finish);
    OneStep(cfg, s1, Save(d, Committed));
    RunThen(cfg, s, [finish], s1, [Save(d, Committed)], t);
  }

  /** However a non-terminal row got where it is, time, a batch flush and the reaper make it
      claimable again. */
  lemma CanBecomeClaimable(cfg: Config, s: State, id: string) returns (steps: seq<Step>, t: State, stage: Stage)
    requires cfg.claimTimeout > 0 && id in s.books.rows && !Terminal(s.books.rows[id].status)
    ensures Run(cfg, s, steps, t) && OneCallPerStage(steps) && Claimable(t, stage, id) && t.desks == s.desks
  {
    var row := s.books.rows[id];
    var d := Max(0, Max(row.nextRetryAt, row.claimedAt + cfg.claimTimeout + 1) - s.now);
    var tick := Tick(d);
    var s1 := Apply(cfg, s, tick);
    OneStep(cfg, s, tick);
    stage := if row.status == RetryScheduled || row.status == Retrying then Retries else Deliveries;
    if row.status == Batched {
      t := Apply(cfg, s1, Flush(id, true));
      OneStep(cfg, s1, Flush(id, true));
      RunThen(cfg, s, [tick], s1, [Flush(id, true)], t);
      steps := [tick] + [Flush(id, true)];
    } else {
      t := Apply(cfg, s1, Reap);
      OneStep(cfg, s1, Reap);
      RunThen(cfg, s, [tick], s1, [Reap], t);
      steps := [tick] + [Reap];
    }
  }

  /** From every state, reachable or not, every row that is not settled can still be
      delivered: no crash, panic, failed save or stale claim strands a notification. */
  lemma NoNotificationIsLost(cfg: Config, s: State, id: string, worker: string) returns (steps: seq<Step>, t: State)
    requires cfg.claimTimeout > 0 && id in s.books.rows && !Terminal(s.books.rows[id].status)
    ensures Run(cfg, s, steps, t) && OneCallPerStage(steps)
    ensures id in t.books.rows && t.books.rows[id].status == Delivered
  {
    var crash := Crash(worker);
    var s1 := Apply(cfg, s, crash);
    OneStep(cfg, s, crash);
    var a, s2, stage := CanBecomeClaimable(cfg, s1, id);
    var d := DeskId(worker, stage, 0);
    var b, s3 := PendingCanDeliver(cfg, s2, id, d);
    RunThen(cfg, s, [crash], s1, a, s2);
    RunThen(cfg, s, [crash] + a, s2, b, s3);
    steps, t := [crash] + a + b, s3;
  }
}
