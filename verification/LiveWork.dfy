/**
  The delivery protocol and the bounded runner together: every batch that is out runs
  through the runner on the same clock as the reaper. Under the settings the default
  claim timeout covers, the reaper never takes a row that is out for delivery, so no
  notification is out twice at once, whatever crashes, panics or fails to save.
 */
module LiveWork {
  import opened Instants
  import opened Notifications
  import opened DeliveryProtocol
  import Recovery
  import SB = StageBound

  /** A batch that is out: when it was claimed, its rows in the order they start, and where the
      runner stands. */
  datatype Out = Out(began: int, order: seq<string>, stage: SB.Stage)

  datatype System = System(s: State, outs: map<DeskId, Out>)

  const START := System(INIT, map[])

  datatype Settings = Settings(cfg: Config, webhookTimeout: int, concurrency: int) {
    /** The default claim timeout, under settings it covers. */
    predicate Safe() {
      && cfg.claimTimeout == SB.DefaultClaimTimeout(webhookTimeout, concurrency)
      && SB.Covered(webhookTimeout, concurrency)
    }

    function BatchOf(o: Out): SB.Batch { SB.Claimed(|o.order|, webhookTimeout, concurrency) }
  }

  datatype Move =
    | Take(d: DeskId, ids: set<string>, order: seq<string>)
    | Begin(d: DeskId)
    | Settle(d: DeskId, i: nat, verdict: Option<Verdict>)
    | Wait(k: nat)
    | Other(step: Step)

  /** A listing of the rows of a batch. */
  ghost predicate Lists(order: seq<string>, ids: set<string>) {
    && |order| == |ids| && (forall id :: id in order <==> id in ids)
    && forall i, j :: 0 <= i < j < |order| ==> order[i] != order[j]
  }

  /** A task that panics settles without a verdict. */
  function SettleStep(m: Move, id: string): Step
    requires m.Settle?
  {
    if m.verdict.Some? then Finish(m.d, id, m.verdict.value) else Panic(m.d, id)
  }

  ghost predicate Enabled(env: Settings, t: System, m: Move) {
    match m
    case Take(d, ids, order) => d.lane == 0 && Lists(order, ids) && DeliveryProtocol.Enabled(t.s, Claim(d, ids))
    case Begin(d) => d in t.outs && SB.Allowed(env.BatchOf(t.outs[d]), t.outs[d].stage, SB.Start)
    case Settle(d, i, _) =>
      && d in t.outs && i in t.outs[d].stage.running && i < |t.outs[d].order|
      && DeliveryProtocol.Enabled(t.s, SettleStep(m, t.outs[d].order[i]))
    case Wait(k) =>
      forall d :: d in t.outs && !SB.Over(env.BatchOf(t.outs[d]), t.outs[d].stage) ==>
        SB.Allowed(env.BatchOf(t.outs[d]), t.outs[d].stage, SB.Pass(k))
    case Other(step) =>
      && DeliveryProtocol.Enabled(t.s, step)
      && (step.Create? || step.Flush? || step.Delete? || step.Save? || step.Crash? || step.Reap?)
  }

  /** The clock of a batch that is over no longer matters. */
  function Later(env: Settings, o: Out, k: nat): Out {
    if SB.Over(env.BatchOf(o), o.stage) then o else o.(stage := SB.Moved(o.stage, SB.Pass(k)))
  }

  ghost function Apply(env: Settings, t: System, m: Move): System
    requires Enabled(env, t, m)
  {
    match m
    case Take(d, ids, order) =>
      System(DeliveryProtocol.Apply(env.cfg, t.s, Claim(d, ids)), t.outs[d := Out(t.s.now, order, SB.FIRST)])
    case Begin(d) => t.(outs := t.outs[d := t.outs[d].(stage := SB.Moved(t.outs[d].stage, SB.Start))])
    case Settle(d, i, verdict) =>
      System(DeliveryProtocol.Apply(env.cfg, t.s, SettleStep(m, t.outs[d].order[i])),
             t.outs[d := t.outs[d].(stage := SB.Moved(t.outs[d].stage, SB.End(i, verdict.Some?)))])
    case Wait(k) =>
      System(DeliveryProtocol.Apply(env.cfg, t.s, Tick(k)), map d | d in t.outs :: Later(env, t.outs[d], k))
    case Other(step) =>
      System(DeliveryProtocol.Apply(env.cfg, t.s, step),
             if step.Crash? then map d | d in t.outs && d.worker != step.worker :: t.outs[d] else t.outs)
  }

  ghost predicate Run(env: Settings, t: System, moves: seq<Move>, u: System)
    decreases |moves|
  {
    if moves == [] then u == t
    else Enabled(env, t, moves[0]) && Run(env, Apply(env, t, moves[0]), moves[1..], u)
  }

  // ---- the invariant ----

  /** The runner of the batch got where it is by its own rules, on the common clock. */
  ghost predicate OutOk(env: Settings, t: System, d: DeskId)
    requires d in t.outs
  {
    var o := t.outs[d];
    && |o.order| <= BATCH_LIMIT
    && (forall i, j :: 0 <= i < j < |o.order| ==> o.order[i] != o.order[j])
    && SB.Reached(env.BatchOf(o), o.stage)
    && (!SB.Over(env.BatchOf(o), o.stage) ==> o.began + o.stage.now == t.s.now)
  }

  /** The place of a row in its batch, not ended yet. */
  predicate Unended(o: Out, id: string) {
    exists i :: 0 <= i < |o.order| && o.order[i] == id && i !in o.stage.ended
  }

  /** A row that is out is under that very claim, taken when the batch began. */
  predicate Live(t: System, d: DeskId, id: string)
    requires d in t.outs
  {
    && id in t.s.used && Unended(t.outs[d], id)
    && (id in t.s.books.rows ==>
         Recovery.IsUnder(t.s.books.rows[id], d) && t.s.books.rows[id].claimedAt == t.outs[d].began)
  }

  predicate DeskLive(t: System, d: DeskId)
    requires d in t.s.desks
  {
    && d.lane == 0
    && (t.s.desks[d].inflight != map[] ==> d in t.outs)
    && forall id :: id in t.s.desks[d].inflight ==> d in t.outs && Live(t, d, id)
  }

  predicate OnlyOut(s: State, id: string, d: DeskId, e: DeskId) {
    id in s.DeskAt(d).inflight && id in s.DeskAt(e).inflight ==> d == e
  }

  ghost predicate Inv(env: Settings, t: System) {
    && (forall d :: d in t.outs ==> OutOk(env, t, d))
    && (forall d :: d in t.s.desks ==> DeskLive(t, d))
    && (forall id, d, e :: OnlyOut(t.s, id, d, e))
    && (forall id :: id in t.s.books.rows ==> id in t.s.used)
  }

  // ---- the reaper cannot reach live work ----

  lemma UnendedIsNotOver(env: Settings, o: Out, id: string)
    requires SB.Reached(env.BatchOf(o), o.stage) && Unended(o, id)
    ensures !SB.Over(env.BatchOf(o), o.stage)
  {
    var b := env.BatchOf(o);
    var moves :| SB.Runs(b, SB.FIRST, moves, o.stage);
    SB.StageIsBounded(b, moves, o.stage);
  }

  /** Until a batch is over its claims are younger than the timeout. */
  lemma OutIsYoung(env: Settings, t: System, d: DeskId)
    requires env.Safe() && d in t.outs && OutOk(env, t, d) && !SB.Over(env.BatchOf(t.outs[d]), t.outs[d].stage)
    ensures t.s.now <= t.outs[d].began + env.cfg.claimTimeout
  {
    hide SB.EndBy; hide SB.Covered; hide SB.Over; hide SB.DefaultClaimTimeout;
    var o := t.outs[d];
    var b := env.BatchOf(o);
    var moves :| SB.Runs(b, SB.FIRST, moves, o.stage);
    SB.StageIsBounded(b, moves, o.stage);
    SB.TimeoutCoversIff(env.webhookTimeout, env.concurrency);
    SB.SmallerBatchSooner(|o.order|, b.c, b.limit);
  }

  lemma LiveIsSpared(env: Settings, t: System, d: DeskId, id: string)
    requires env.Safe() && d in t.outs && OutOk(env, t, d) && Live(t, d, id) && id in t.s.books.rows
    ensures Reaped(env.cfg, t.s.books.rows[id], t.s.now) == t.s.books.rows[id]
  {
    UnendedIsNotOver(env, t.outs[d], id);
    OutIsYoung(env, t, d);
  }

  // ---- every move keeps it ----

  /** Nothing new is out, and what is out is untouched. */
  ghost predicate Calm(t: System, u: System) {
    && u.s.now == t.s.now && t.s.used <= u.s.used
    && (forall d :: d in u.outs ==> d in t.outs && u.outs[d] == t.outs[d])
    && (forall d :: d in u.s.desks ==> d in t.s.desks)
    && (forall d :: d in u.s.desks && u.s.desks[d].inflight != map[] ==>
         u.s.desks[d].inflight == t.s.desks[d].inflight && (d in t.outs ==> d in u.outs))
    && (forall id :: id in u.s.books.rows ==> id in u.s.used)
    && (forall d, id :: d in u.s.desks && id in u.s.desks[d].inflight ==> RowKept(t, u, id))
  }

  predicate RowKept(t: System, u: System, id: string) {
    id in u.s.books.rows ==> id in t.s.books.rows && u.s.books.rows[id] == t.s.books.rows[id]
  }

  lemma CalmKeeps(env: Settings, t: System, u: System)
    requires Inv(env, t) && Calm(t, u)
    ensures Inv(env, u)
  {
    hide SB.Over; hide SB.Reached;
    forall d | d in u.outs ensures OutOk(env, u, d) { assert OutOk(env, t, d); }
    forall d | d in u.s.desks ensures DeskLive(u, d) {
      assert DeskLive(t, d);
      forall id | id in u.s.desks[d].inflight ensures d in u.outs && Live(u, d, id) {
        assert Live(t, d, id) && RowKept(t, u, id);
      }
    }
    forall id, d, e ensures OnlyOut(u.s, id, d, e) { assert OnlyOut(t.s, id, d, e); }
  }

  lemma SaveLeavesLive(env: Settings, t: System, e: DeskId, d: DeskId, id: string)
    requires Inv(env, t) && e != d && e.lane == 0 && d in t.s.desks && id in t.s.desks[d].inflight
    ensures var rows := SaveAll(env.cfg, t.s.books, e.worker, e.stage, t.s.DeskAt(e).results).rows;
      id in rows ==> id in t.s.books.rows && rows[id] == t.s.books.rows[id]
  {
    assert DeskLive(t, d) && Live(t, d, id);
    Recovery.SaveAddsNoRow(env.cfg, t.s.books, e.worker, e.stage, t.s.DeskAt(e).results);
    if id in t.s.books.rows {
      Recovery.SaveKeepsForeignRow(env.cfg, t.s.books, e, t.s.DeskAt(e).results, id);
    }
  }

  lemma SaveIsCalm(env: Settings, t: System, e: DeskId, end: SaveEnd)
    requires Inv(env, t) && Enabled(env, t, Other(Save(e, end)))
    ensures Calm(t, Apply(env, t, Other(Save(e, end))))
  {
    hide SaveAll; hide OutOk; hide OnlyOut;
    var u := Apply(env, t, Other(Save(e, end)));
    assert DeskLive(t, e);
    Recovery.SaveAddsNoRow(env.cfg, t.s.books, e.worker, e.stage, t.s.DeskAt(e).results);
    forall d, id | d in u.s.desks && id in u.s.desks[d].inflight ensures RowKept(t, u, id) {
      SaveLeavesLive(env, t, e, d, id);
    }
  }

  lemma ReapIsCalm(env: Settings, t: System)
    requires env.Safe() && Inv(env, t)
    ensures Calm(t, Apply(env, t, Other(Reap)))
  {
    hide OutOk; hide OnlyOut; hide Reaped; hide Live; hide Settings.Safe;
    var u := Apply(env, t, Other(Reap));
    forall d, id | d in u.s.desks && id in u.s.desks[d].inflight ensures RowKept(t, u, id) {
      assert DeskLive(t, d);
      if id in t.s.books.rows { LiveIsSpared(env, t, d, id); }
    }
  }

  lemma OtherKeeps(env: Settings, t: System, step: Step)
    requires env.Safe() && Inv(env, t) && Enabled(env, t, Other(step))
    ensures Inv(env, Apply(env, t, Other(step)))
  {
    var u := Apply(env, t, Other(step));
    if step.Save? {
      SaveIsCalm(env, t, step.desk, step.end);
    } else if step.Reap? {
      ReapIsCalm(env, t);
    } else {
      RowStepIsCalm(env, t, step);
    }
    hide Inv; hide Calm; hide Apply; hide Settings.Safe;
    CalmKeeps(env, t, u);
  }

  lemma RowStepIsCalm(env: Settings, t: System, step: Step)
    requires Inv(env, t) && Enabled(env, t, Other(step)) && !step.Save? && !step.Reap?
    ensures Calm(t, Apply(env, t, Other(step)))
  {
    hide OutOk; hide OnlyOut;
    var u := Apply(env, t, Other(step));
    forall d, id | d in u.s.desks && id in u.s.desks[d].inflight ensures RowKept(t, u, id) {
      assert DeskLive(t, d) && Live(t, d, id);
    }
  }

  lemma WaitKeeps(env: Settings, t: System, k: nat)
    requires Inv(env, t) && Enabled(env, t, Wait(k))
    ensures Inv(env, Apply(env, t, Wait(k)))
  {
    hide SB.Over; hide SB.Reached; hide SB.Allowed;
    var u := Apply(env, t, Wait(k));
    forall d | d in u.outs ensures OutOk(env, u, d) {
      var o := t.outs[d];
      assert OutOk(env, t, d);
      if !SB.Over(env.BatchOf(o), o.stage) {
        SB.ReachedOn(env.BatchOf(o), o.stage, SB.Pass(k));
      }
    }
    forall d | d in u.s.desks ensures DeskLive(u, d) {
      assert DeskLive(t, d);
      forall id | id in u.s.desks[d].inflight ensures Live(u, d, id) { assert Live(t, d, id); }
    }
    forall id, d, e ensures OnlyOut(u.s, id, d, e) { assert OnlyOut(t.s, id, d, e); }
  }

  lemma BeginKeeps(env: Settings, t: System, d: DeskId)
    requires Inv(env, t) && Enabled(env, t, Begin(d))
    ensures Inv(env, Apply(env, t, Begin(d)))
  {
    hide SB.Reached;
    var u, o := Apply(env, t, Begin(d)), t.outs[d];
    SB.ReachedOn(env.BatchOf(o), o.stage, SB.Start);
    forall e | e in u.outs ensures OutOk(env, u, e) { assert OutOk(env, t, e); }
    forall e | e in u.s.desks ensures DeskLive(u, e) {
      assert DeskLive(t, e);
      forall id | id in u.s.desks[e].inflight ensures Live(u, e, id) { assert Live(t, e, id); }
    }
    forall id, e, f ensures OnlyOut(u.s, id, e, f) { assert OnlyOut(t.s, id, e, f); }
  }

  lemma SettleKeepsOut(env: Settings, t: System, m: Move)
    requires Inv(env, t) && m.Settle? && Enabled(env, t, m)
    ensures var u := Apply(env, t, m); forall e :: e in u.outs ==> OutOk(env, u, e)
  {
    hide SB.Reached; hide DeskLive; hide OnlyOut;
    var u, o := Apply(env, t, m), t.outs[m.d];
    SB.ReachedOn(env.BatchOf(o), o.stage, SB.End(m.i, m.verdict.Some?));
    forall e | e in u.outs ensures OutOk(env, u, e) { assert OutOk(env, t, e); }
  }

  lemma SettleKeepsLive(env: Settings, t: System, m: Move)
    requires Inv(env, t) && m.Settle? && Enabled(env, t, m)
    ensures var u := Apply(env, t, m); forall e :: e in u.s.desks ==> DeskLive(u, e)
  {
    hide SB.Reached; hide OnlyOut;
    var u, o := Apply(env, t, m), t.outs[m.d];
    assert OutOk(env, t, m.d);
    forall e | e in u.s.desks ensures DeskLive(u, e) {
      assert DeskLive(t, e);
      forall id | id in u.s.desks[e].inflight ensures Live(u, e, id) {
        assert Live(t, e, id);
        if e == m.d { SettleLeavesOthers(o, m.i, id, m.verdict.Some?); }
      }
    }
  }

  lemma SettleLeavesOthers(o: Out, i: nat, id: string, keep: bool)
    requires i < |o.order| && id != o.order[i] && Unended(o, id)
    ensures Unended(o.(stage := SB.Moved(o.stage, SB.End(i, keep))), id)
  {
    var j :| 0 <= j < |o.order| && o.order[j] == id && j !in o.stage.ended;
    var after := o.(stage := SB.Moved(o.stage, SB.End(i, keep)));
    assert after.order[j] == id && j !in after.stage.ended;
  }

  lemma SettleKeeps(env: Settings, t: System, m: Move)
    requires Inv(env, t) && m.Settle? && Enabled(env, t, m)
    ensures Inv(env, Apply(env, t, m))
  {
    var u := Apply(env, t, m);
    SettleKeepsOut(env, t, m);
    SettleKeepsLive(env, t, m);
    SettleTakesAway(env, t, m);
    hide OutOk; hide DeskLive; hide Apply;
    forall id, d, e ensures OnlyOut(u.s, id, d, e) { assert OnlyOut(t.s, id, d, e); }
  }

  lemma SettleTakesAway(env: Settings, t: System, m: Move)
    requires m.Settle? && Enabled(env, t, m)
    ensures var u := Apply(env, t, m);
      && u.s.books == t.s.books && u.s.used == t.s.used
      && forall d, id :: id in u.s.DeskAt(d).inflight ==> id in t.s.DeskAt(d).inflight
  {
  }

  lemma TakeKeepsOut(env: Settings, t: System, m: Move)
    requires Inv(env, t) && m.Take? && Enabled(env, t, m)
    ensures var u := Apply(env, t, m); forall e :: e in u.outs ==> OutOk(env, u, e)
  {
    hide DeskLive; hide OnlyOut; hide SB.Over;
    var u := Apply(env, t, m);
    forall e | e in u.outs ensures OutOk(env, u, e) {
      if e == m.d {
        assert SB.Runs(env.BatchOf(u.outs[e]), SB.FIRST, [], SB.FIRST);
      } else {
        assert OutOk(env, t, e);
      }
    }
  }

  lemma TakeKeepsLive(env: Settings, t: System, m: Move)
    requires Inv(env, t) && m.Take? && Enabled(env, t, m)
    ensures var u := Apply(env, t, m); forall e :: e in u.s.desks ==> DeskLive(u, e)
  {
    hide OutOk; hide OnlyOut;
    var u := Apply(env, t, m);
    forall e | e in u.s.desks ensures DeskLive(u, e) {
      if e == m.d {
        forall id | id in u.s.desks[e].inflight ensures Live(u, e, id) { TakenIsLive(env, t, m, id); }
      } else {
        assert DeskLive(t, e);
        forall id | id in u.s.desks[e].inflight ensures Live(u, e, id) {
          assert Live(t, e, id);
          assert id in m.ids ==> Claimable(t.s, m.d.stage, id);
        }
      }
    }
  }

  lemma TakenIsLive(env: Settings, t: System, m: Move, id: string)
    requires Inv(env, t) && m.Take? && Enabled(env, t, m) && id in m.ids
    ensures Live(Apply(env, t, m), m.d, id)
  {
    hide OutOk; hide OnlyOut; hide DeskLive;
    assert Claimable(t.s, m.d.stage, id);
    assert id in m.order;
  }

  lemma TakeKeeps(env: Settings, t: System, m: Move)
    requires Inv(env, t) && m.Take? && Enabled(env, t, m)
    ensures Inv(env, Apply(env, t, m))
  {
    TakeKeepsOut(env, t, m);
    TakeKeepsLive(env, t, m);
    hide OutOk;
    var u := Apply(env, t, m);
    forall id, d, e ensures OnlyOut(u.s, id, d, e) {
      assert OnlyOut(t.s, id, d, e);
      TakenWasNotOut(env, t, m, id, d);
      TakenWasNotOut(env, t, m, id, e);
    }
  }

  /** What is claimed is out nowhere else. */
  lemma TakenWasNotOut(env: Settings, t: System, m: Move, id: string, d: DeskId)
    requires Inv(env, t) && m.Take? && Enabled(env, t, m)
    ensures id in m.ids ==> id !in t.s.DeskAt(d).inflight
  {
    hide Inv;
    if id in t.s.DeskAt(d).inflight { OutIsClaimed(env, t, d, id); }
    assert id in m.ids ==> Claimable(t.s, m.d.stage, id);
  }

  lemma OutIsClaimed(env: Settings, t: System, d: DeskId, id: string)
    requires Inv(env, t) && id in t.s.DeskAt(d).inflight
    ensures id in t.s.books.rows ==> InClaim(t.s.books.rows[id].status)
  {
    assert DeskLive(t, d);
    assert Live(t, d, id);
  }

  lemma {:induction false} RunKeeps(env: Settings, t: System, moves: seq<Move>, u: System)
    requires env.Safe() && Inv(env, t) && Run(env, t, moves, u)
    ensures Inv(env, u)
    decreases |moves|
  {
    hide Inv; hide Apply; hide Settings.Safe;
    if moves != [] {
      match moves[0] {
        case Take(_, _, _) => TakeKeeps(env, t, moves[0]);
        case Begin(d) => BeginKeeps(env, t, d);
        case Settle(_, _, _) => SettleKeeps(env, t, moves[0]);
        case Wait(k) => WaitKeeps(env, t, k);
        case Other(step) => OtherKeeps(env, t, step);
      }
      RunKeeps(env, Apply(env, t, moves[0]), moves[1..], u);
    }
  }

  // ---- what holds over every run ----

  /** Under the settings the default timeout covers, in every run with crashes, panics and
      failed saves: a pass of the reaper leaves every row alone that is out for delivery, and
      no notification is out at two desks at once. */
  lemma ReaperNeverTakesLiveWork(env: Settings, moves: seq<Move>, u: System, d: DeskId, id: string)
    requires env.Safe() && Run(env, START, moves, u) && id in u.s.DeskAt(d).inflight
    ensures id in u.s.books.rows ==>
      Reaped(env.cfg, u.s.books.rows[id], u.s.now) == u.s.books.rows[id] && Recovery.IsUnder(u.s.books.rows[id], d)
    ensures forall e :: id in u.s.DeskAt(e).inflight ==> e == d
  {
    hide Settings.Safe; hide OutOk; hide Reaped;
    RunKeeps(env, START, moves, u);
    assert DeskLive(u, d);
    assert Live(u, d, id);
    if id in u.s.books.rows { LiveIsSpared(env, u, d, id); }
    forall e | id in u.s.DeskAt(e).inflight ensures e == d { assert OnlyOut(u.s, id, d, e); }
  }
}
