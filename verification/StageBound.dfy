/**
  The bounded runner of a delivery stage against the claim timeout: how long a batch
  can stay out, and when the reaper can reach work that is still in progress.
  Times are whole seconds since the batch was claimed.
 */
module StageBound {
  import opened Notifications
  import opened DeliveryProtocol

  /** A batch of `n` tasks, at most `c` at once, each at most `limit` long. */
  datatype Batch = Batch(n: nat, c: nat, limit: nat)

  /** `started` holds the start time of each task begun so far, in the order of the items;
      `ended` when each call that is over ended; `kept` the items whose result was kept. */
  datatype Stage = Stage(now: int, started: seq<int>, running: set<nat>, ended: map<nat, int>, kept: seq<nat>)

  const FIRST := Stage(0, [], {}, map[], [])

  /** A task that panics ends with nothing kept. */
  datatype Move = Start | End(i: nat, keep: bool) | Pass(d: nat)

  predicate CanStart(b: Batch, s: Stage) { |s.started| < b.n && |s.running| < b.c }

  /** A free place is taken at once, and no task outlives its limit. */
  predicate Allowed(b: Batch, s: Stage, m: Move) {
    match m
    case Start => CanStart(b, s)
    case End(i, _) => i in s.running
    case Pass(d) =>
      && (d > 0 ==> !CanStart(b, s))
      && forall i :: i in s.running && i < |s.started| ==> s.now + d <= s.started[i] + b.limit
  }

  function Moved(s: Stage, m: Move): Stage {
    match m
    case Start => s.(started := s.started + [s.now], running := s.running + {|s.started|})
    case End(i, keep) =>
      s.(running := s.running - {i}, ended := s.ended[i := s.now], kept := if keep then s.kept + [i] else s.kept)
    case Pass(d) => s.(now := s.now + d)
  }

  ghost predicate Runs(b: Batch, s: Stage, moves: seq<Move>, t: Stage)
    decreases |moves|
  {
    if moves == [] then t == s
    else Allowed(b, s, moves[0]) && Runs(b, Moved(s, moves[0]), moves[1..], t)
  }

  /** Everything has run; the runner returns. */
  predicate Over(b: Batch, s: Stage) { |s.started| == b.n && s.running == {} }

  /** Latest start of item `i`, and latest end of a whole batch. */
  function StartBy(b: Batch, i: nat): nat
    requires b.c > 0
  {
    i / b.c * b.limit
  }

  function EndBy(b: Batch): nat
    requires b.c > 0
  {
    (b.n + b.c - 1) / b.c * b.limit
  }

  // ---- the invariant ----

  ghost predicate Inv(b: Batch, s: Stage)
    requires b.c > 0
  {
    && |s.started| <= b.n && |s.running| <= b.c
    && s.running !! s.ended.Keys
    && (forall i :: i in s.running || i in s.ended <==> 0 <= i < |s.started|)
    && (forall i :: 0 <= i < |s.started| ==> s.started[i] <= StartBy(b, i))
    && (forall i :: i in s.running && i < |s.started| ==> s.now <= s.started[i] + b.limit)
    && (forall i :: i in s.ended && i < |s.started| ==> s.ended[i] <= s.started[i] + b.limit)
    && (forall k :: 0 <= k < |s.kept| ==> s.kept[k] in s.ended)
    && (forall j, k :: 0 <= j < k < |s.kept| ==> s.kept[j] != s.kept[k])
    && (|s.started| < b.n ==> s.now <= StartBy(b, |s.started|))
  }

  lemma {:induction false} SomeoneEarly(running: set<nat>, next: nat, c: nat)
    requires 0 < c <= |running| && forall i :: i in running ==> i < next
    ensures exists i :: i in running && i + c <= next
    decreases next
  {
    if next - 1 in running {
      var rest := running - {next - 1};
      if c == 1 {
        assert next - 1 + c <= next;
      } else {
        SomeoneEarly(rest, next - 1, c - 1);
      }
    } else {
      var x :| x in running;
      SomeoneEarly(running, next - 1, c);
    }
  }

  lemma StartByStep(b: Batch, i: nat, next: nat)
    requires b.c > 0 && i + b.c <= next
    ensures StartBy(b, i) + b.limit <= StartBy(b, next)
  {
    DivMono(i + b.c, next, b.c);
    DivStep(i, b.c);
    var x, y := i / b.c, next / b.c;
    Scale(x + 1, y, b.limit);
    assert (x + 1) * b.limit == x * b.limit + b.limit;
  }

  lemma DivStep(i: nat, c: nat)
    requires c > 0
    ensures (i + c) / c == i / c + 1
  {
    DivUnique(i + c, c, i / c + 1, i % c);
  }

  lemma DivUnique(x: nat, c: nat, q: nat, r: nat)
    requires r < c && x == q * c + r
    ensures x / c == q
  {
    var d := x / c;
    assert x == d * c + x % c;
    if d < q { Scale(d + 1, q, c); }
    if q < d { Scale(q + 1, d, c); }
  }

  lemma DivMono(x: nat, y: nat, c: nat)
    requires x <= y && c > 0
    ensures x / c <= y / c
  {
    if x / c > y / c { Scale(y / c + 1, x / c, c); }
  }

  lemma Scale(x: nat, y: nat, k: nat)
    requires x <= y
    ensures x * k <= y * k
  {
  }

  lemma StartKeeps(b: Batch, s: Stage)
    requires b.c > 0 && Inv(b, s) && CanStart(b, s)
    ensures Inv(b, Moved(s, Start))
  {
    hide StartBy;
    StartByMono(b, |s.started|, |s.started| + 1);
  }

  lemma EndKeeps(b: Batch, s: Stage, i: nat, keep: bool)
    requires b.c > 0 && Inv(b, s) && i in s.running
    ensures Inv(b, Moved(s, End(i, keep)))
  {
    hide StartBy;
  }

  lemma PassKeeps(b: Batch, s: Stage, d: nat)
    requires b.c > 0 && Inv(b, s) && Allowed(b, s, Pass(d))
    ensures Inv(b, Moved(s, Pass(d)))
  {
    hide StartBy;
    if d > 0 && |s.started| < b.n {
      SomeoneEarly(s.running, |s.started|, b.c);
      var i :| i in s.running && i + b.c <= |s.started|;
      StartByStep(b, i, |s.started|);
    }
  }

  lemma MoveKeeps(b: Batch, s: Stage, m: Move)
    requires b.c > 0 && Inv(b, s) && Allowed(b, s, m)
    ensures Inv(b, Moved(s, m))
  {
    hide Inv;
    match m
    case Start => StartKeeps(b, s);
    case End(i, keep) => EndKeeps(b, s, i, keep);
    case Pass(d) => PassKeeps(b, s, d);
  }

  lemma StartByMono(b: Batch, i: nat, j: nat)
    requires b.c > 0 && i <= j
    ensures StartBy(b, i) <= StartBy(b, j)
  {
    DivMono(i, j, b.c);
    Scale(i / b.c, j / b.c, b.limit);
  }

  lemma {:induction false} RunsKeep(b: Batch, s: Stage, moves: seq<Move>, t: Stage)
    requires b.c > 0 && Inv(b, s) && Runs(b, s, moves, t)
    ensures Inv(b, t)
    decreases |moves|
  {
    if moves != [] {
      MoveKeeps(b, s, moves[0]);
      RunsKeep(b, Moved(s, moves[0]), moves[1..], t);
    }
  }

  lemma LastStart(b: Batch, i: nat)
    requires b.c > 0 && i < b.n
    ensures StartBy(b, i) + b.limit <= EndBy(b)
  {
    StartByStep(b, i, b.n + b.c - 1);
  }

  // ---- what holds over every run ----

  /** In every interleaving: at most `c` tasks at once, every item started once and in order by
      its time and ended within its limit, every kept result kept once, and until the batch is
      over no more time has passed than the whole batch may take. */
  lemma StageIsBounded(b: Batch, moves: seq<Move>, t: Stage)
    requires b.c > 0 && Runs(b, FIRST, moves, t)
    ensures |t.running| <= b.c
    ensures forall i :: 0 <= i < |t.started| ==> t.started[i] <= StartBy(b, i)
    ensures forall i :: i in t.ended ==> i < |t.started| && t.ended[i] <= EndBy(b)
    ensures !Over(b, t) ==> t.now <= EndBy(b)
    ensures Over(b, t) ==> forall i :: i in t.ended <==> 0 <= i < b.n
    ensures forall j, k :: 0 <= j < k < |t.kept| ==> t.kept[j] != t.kept[k]
  {
    hide StartBy; hide EndBy;
    RunsKeep(b, FIRST, moves, t);
    forall i | i in t.ended ensures i < |t.started| && t.ended[i] <= EndBy(b) { LastStart(b, i); }
    if !Over(b, t) {
      if |t.started| < b.n {
        LastStart(b, |t.started|);
      } else {
        var i :| i in t.running;
        LastStart(b, i);
      }
    }
  }

  /** The runner never gets stuck: until the batch is over a task can start or end. */
  lemma StageMovesOn(b: Batch, moves: seq<Move>, t: Stage)
    requires b.c > 0 && Runs(b, FIRST, moves, t) && !Over(b, t)
    ensures exists m: Move :: !m.Pass? && Allowed(b, t, m)
  {
    RunsKeep(b, FIRST, moves, t);
    if t.running == {} {
      assert Allowed(b, t, Start);
    } else {
      var i :| i in t.running;
      assert Allowed(b, t, End(i, true));
    }
  }

  // ---- the bound is reached ----

  lemma {:induction false} RunsOn(b: Batch, s: Stage, moves: seq<Move>, t: Stage, m: Move)
    requires Runs(b, s, moves, t) && Allowed(b, t, m)
    ensures Runs(b, s, moves + [m], Moved(t, m))
    decreases |moves|
  {
    if moves == [] {
      assert moves + [m] == [m] && [m][1..] == [];
    } else {
      assert (moves + [m])[1..] == moves[1..] + [m];
      RunsOn(b, Moved(s, moves[0]), moves[1..], t, m);
    }
  }

  /** A state some run reaches. */
  ghost predicate Reached(b: Batch, s: Stage) { exists moves :: Runs(b, FIRST, moves, s) }

  lemma ReachedOn(b: Batch, s: Stage, m: Move)
    requires Reached(b, s) && Allowed(b, s, m)
    ensures Reached(b, Moved(s, m))
  {
    var moves :| Runs(b, FIRST, moves, s);
    RunsOn(b, FIRST, moves, s, m);
  }

  /** Every task out has just started, and they are the ones from `base` on. */
  predicate JustFilled(s: Stage, base: nat) {
    && base <= |s.started| && |s.running| == |s.started| - base
    && forall i :: i in s.running ==> i < |s.started| && s.started[i] == s.now
  }

  /** Taking every free place. */
  lemma {:induction false} Fill(b: Batch, s: Stage, base: nat) returns (t: Stage)
    requires Reached(b, s) && JustFilled(s, base) && |s.started| <= b.n && |s.running| <= b.c
    ensures Reached(b, t) && JustFilled(t, base) && t.now == s.now && !CanStart(b, t)
    ensures |s.started| <= |t.started| <= b.n && |t.running| <= b.c
    decreases b.n - |s.started|
  {
    if CanStart(b, s) {
      ReachedOn(b, s, Start);
      assert |s.started| !in s.running;
      t := Fill(b, Moved(s, Start), base);
    } else {
      t := s;
    }
  }

  /** Ending every task at once. */
  lemma {:induction false} Drain(b: Batch, s: Stage) returns (t: Stage)
    requires Reached(b, s)
    ensures Reached(b, t) && t.running == {} && t.started == s.started && t.now == s.now
    decreases |s.running|
  {
    if s.running == {} {
      t := s;
    } else {
      var i :| i in s.running;
      ReachedOn(b, s, End(i, true));
      t := Drain(b, Moved(s, End(i, true)));
    }
  }

  /** A wave: every place taken, every task as long as it may be. */
  lemma Wave(b: Batch, s: Stage) returns (t: Stage)
    requires b.c > 0 && Reached(b, s) && s.running == {} && |s.started| < b.n
    ensures Reached(b, t) && t.running != {} && t.now == s.now + b.limit
    ensures |t.started| == if |s.started| + b.c < b.n then |s.started| + b.c else b.n
  {
    var u := Fill(b, s, |s.started|);
    ReachedOn(b, u, Pass(b.limit));
    t := Moved(u, Pass(b.limit));
  }

  /** `started` and `now` after `k` waves. */
  predicate AfterWaves(b: Batch, k: nat, started: int, now: int) {
    started == k * b.c && now == k * b.limit
  }

  lemma WaveBefore(b: Batch, k: nat, started: int, now: int)
    requires AfterWaves(b, k, started, now)
    ensures k == 0 ==> started == 0 && now == 0
    ensures k > 0 ==> AfterWaves(b, k - 1, started - b.c, now - b.limit) && started >= b.c
  {
    if k > 0 {
      NextTimes(k - 1, b.c);
      NextTimes(k - 1, b.limit);
    }
  }

  lemma {:induction false} Waves(b: Batch, k: nat, started: nat, now: int) returns (s: Stage)
    requires b.c > 0 && AfterWaves(b, k, started, now) && started < b.n
    ensures Reached(b, s) && s.running == {} && |s.started| == started && s.now == now
    decreases k
  {
    hide AfterWaves;
    WaveBefore(b, k, started, now);
    if k == 0 {
      s := FIRST;
      assert Runs(b, FIRST, [], FIRST);
    } else {
      hide Reached;
      var u := Waves(b, k - 1, started - b.c, now - b.limit);
      var v := Wave(b, u);
      s := Drain(b, v);
    }
  }

  /** Full waves of slow tasks keep a batch out for the whole of its bound. */
  lemma BoundIsReached(b: Batch)
    requires b.c > 0 && b.n > 0
    ensures exists s :: Reached(b, s) && !Over(b, s) && s.now == EndBy(b)
  {
    hide EndBy; hide Reached;
    var k := LastWave(b);
    var u := Waves(b, k, k * b.c, k * b.limit);
    var t := Wave(b, u);
    assert Reached(b, t) && !Over(b, t) && t.now == EndBy(b);
  }

  lemma LastWave(b: Batch) returns (k: nat)
    requires b.c > 0 && b.n > 0
    ensures k * b.c < b.n && EndBy(b) == k * b.limit + b.limit
  {
    k := (b.n - 1) / b.c;
    assert b.n - 1 == k * b.c + (b.n - 1) % b.c;
    DivStep(b.n - 1, b.c);
    assert b.n - 1 + b.c == b.n + b.c - 1;
    NextTimes(k, b.limit);
  }

  lemma NextTimes(k: nat, x: nat)
    ensures (k + 1) * x == k * x + x
  {
  }

  // ---- the claim timeout ----

  function AtLeastOne(x: int): nat { if x < 1 then 1 else x }

  function CeilDiv(x: nat, y: nat): nat
    requires y > 0
  {
    (x + y - 1) / y
  }

  /** Twice the estimated stage, and never under five minutes. */
  function DefaultClaimTimeout(webhookTimeout: int, concurrency: int): nat {
    var secs := CeilDiv(2 * BATCH_LIMIT * AtLeastOne(webhookTimeout), AtLeastOne(concurrency));
    if secs > 300 then secs else 300
  }

  /** A claim batch under given settings. */
  function Claimed(n: nat, webhookTimeout: int, concurrency: int): Batch {
    Batch(n, AtLeastOne(concurrency), AtLeastOne(webhookTimeout))
  }

  lemma CeilDivBelow(x: nat, y: nat, m: nat)
    requires y > 0
    ensures CeilDiv(x, y) <= m <==> x <= m * y
  {
    var q := CeilDiv(x, y);
    assert x + y - 1 == q * y + (x + y - 1) % y;
    if q <= m {
      Scale(q, m, y);
    } else {
      Scale(m + 1, q, y);
      NextTimes(m, y);
    }
  }

  /** The settings under which the timeout covers a full batch. */
  predicate Covered(webhookTimeout: int, concurrency: int) {
    var t, c := AtLeastOne(webhookTimeout), AtLeastOne(concurrency);
    c <= 1000 || t <= 300 || t * (c - 1000) < c
  }

  /** Up to a thousand places, a full batch needs at most twice its even share. */
  lemma FewPlacesCovered(t: nat, c: nat)
    requires 0 < c <= 1000 && t > 0
    ensures CeilDiv(BATCH_LIMIT, c) * t <= CeilDiv(2 * BATCH_LIMIT * t, c)
  {
    var q := CeilDiv(BATCH_LIMIT, c);
    assert q * c + (BATCH_LIMIT + c - 1) % c == BATCH_LIMIT + c - 1;
    assert q * c <= 1000 by {
      if c > BATCH_LIMIT { CeilDivBelow(BATCH_LIMIT, c, 1); }
    }
    var m := CeilDiv(2 * BATCH_LIMIT * t, c);
    if m < q * t {
      CeilDivBelow(2 * BATCH_LIMIT * t, c, m);
      Scale(m + 1, q * t, c);
      NextTimes(m, c);
      assert q * t * c == q * c * t;
      Scale(q * c, 1000, t);
    }
  }

  /** Beyond that a batch is one wave, and the share is rounded up. */
  lemma ManyPlacesCovered(t: nat, c: nat)
    requires c > 1000 && t > 0
    ensures CeilDiv(BATCH_LIMIT, c) == 1
    ensures t <= CeilDiv(2 * BATCH_LIMIT * t, c) <==> t * (c - 1000) < c
  {
    CeilDivBelow(BATCH_LIMIT, c, 1);
    CeilDivBelow(BATCH_LIMIT, c, 0);
    CeilDivBelow(2 * BATCH_LIMIT * t, c, t - 1);
    assert (t - 1) * c == t * c - c;
    assert t * (c - 1000) == t * c - 1000 * t;
  }

  lemma TimeoutCoversIff(webhookTimeout: int, concurrency: int)
    ensures EndBy(Claimed(BATCH_LIMIT, webhookTimeout, concurrency)) <= DefaultClaimTimeout(webhookTimeout, concurrency)
      <==> Covered(webhookTimeout, concurrency)
  {
    hide CeilDiv;
    var t, c := AtLeastOne(webhookTimeout), AtLeastOne(concurrency);
    assert EndBy(Claimed(BATCH_LIMIT, webhookTimeout, concurrency)) == CeilDiv(BATCH_LIMIT, c) * t
      by { CeilDivIs(BATCH_LIMIT, c); }
    if c <= 1000 {
      FewPlacesCovered(t, c);
    } else {
      ManyPlacesCovered(t, c);
    }
  }

  lemma CeilDivIs(x: nat, y: nat)
    requires y > 0
    ensures CeilDiv(x, y) == (x + y - 1) / y
  {
  }

  lemma SmallerBatchSooner(n: nat, c: nat, t: nat)
    requires c > 0 && n <= BATCH_LIMIT
    ensures EndBy(Batch(n, c, t)) <= EndBy(Batch(BATCH_LIMIT, c, t))
  {
    DivMono(n + c - 1, BATCH_LIMIT + c - 1, c);
    Scale((n + c - 1) / c, (BATCH_LIMIT + c - 1) / c, t);
  }

  /** The reaper leaves a claimed row alone exactly while its claim is within the timeout. */
  lemma ReapedIff(cfg: Config, row: Row, age: int)
    requires cfg.claimTimeout > 0 && InClaim(row.status)
    ensures Reaped(cfg, row, row.claimedAt + age) == row <==> age <= cfg.claimTimeout
  {
  }

  ghost predicate InProgress(b: Batch, s: Stage) { Reached(b, s) && !Over(b, s) }

  /** No claimed row of a batch still in progress is taken from its worker. */
  ghost predicate LiveWorkSpared(cfg: Config, webhookTimeout: int, concurrency: int) {
    forall n: nat, s, row: Row ::
      n <= BATCH_LIMIT && InProgress(Claimed(n, webhookTimeout, concurrency), s) && InClaim(row.status) ==>
        Reaped(cfg, row, row.claimedAt + s.now) == row
  }

  /** With the default timeout the reaper cannot take live work, whatever the interleaving,
      exactly under those settings; above a thousand places a slow provider can be overtaken. */
  lemma ReaperSparesLiveWorkIff(cfg: Config, webhookTimeout: int, concurrency: int)
    requires cfg.claimTimeout == DefaultClaimTimeout(webhookTimeout, concurrency)
    ensures LiveWorkSpared(cfg, webhookTimeout, concurrency) <==> Covered(webhookTimeout, concurrency)
  {
    hide EndBy; hide Covered; hide Reaped;
    TimeoutCoversIff(webhookTimeout, concurrency);
    var full := Claimed(BATCH_LIMIT, webhookTimeout, concurrency);
    if Covered(webhookTimeout, concurrency) {
      forall n: nat, s, row: Row |
        n <= BATCH_LIMIT && InProgress(Claimed(n, webhookTimeout, concurrency), s) && InClaim(row.status)
        ensures Reaped(cfg, row, row.claimedAt + s.now) == row
      {
        var b := Claimed(n, webhookTimeout, concurrency);
        var moves :| Runs(b, FIRST, moves, s);
        StageIsBounded(b, moves, s);
        SmallerBatchSooner(n, b.c, b.limit);
        ReapedIff(cfg, row, s.now);
      }
    } else {
      BoundIsReached(full);
      var s :| Reached(full, s) && !Over(full, s) && s.now == EndBy(full);
      var row := Row(Delivering, "", 0, [], 0, 0);
      ReapedIff(cfg, row, s.now);
      assert InProgress(full, s);
    }
  }

  /** It happens: with two thousand places and a provider limit of 301 seconds the timeout is 300. */
  lemma WideSlowBatchIsOvertaken(cfg: Config)
    requires cfg.claimTimeout == DefaultClaimTimeout(301, 2000)
    ensures cfg.claimTimeout == 300 && !LiveWorkSpared(cfg, 301, 2000)
  {
    ReaperSparesLiveWorkIff(cfg, 301, 2000);
  }
}
