/**
  Every run of handoff cycles: schedules and people change in between, and each cycle
  may work from an arbitrarily stale pre-pass.
 */
module HandoffRuns {
  import opened Instants
  import opened HandoffNotices

  /** A roster as it was recorded, with the people that existed then. */
  datatype Recording = Recording(roster: seq<string>, users: map<string, User>, at: int)

  /** `history` holds what was ever recorded for a schedule, in order. */
  datatype System = System(rows: map<string, Row>, users: map<string, User>, log: seq<Notice>,
                           history: map<string, seq<Recording>>)

  const EMPTY := System(map[], map[], [], map[])

  /** A change covers both the clock moving a roster on and an edit of the schedule. */
  datatype Step =
    | New(id: string, optedIn: bool, roster: seq<string>)
    | Change(id: string, optedIn: bool, roster: seq<string>)
    | Remove(id: string)
    | People(users: map<string, User>)
    | Cycle(candidates: set<string>, requested: set<string>, at: int, after: map<string, Row>, notices: seq<Notice>)

  ghost predicate Enabled(s: System, step: Step) {
    match step
    case New(id, _, _) => id !in s.history
    case Change(id, _, _) => id in s.rows
    case Remove(id) => id in s.rows
    case People(_) => true
    case Cycle(candidates, requested, at, after, notices) =>
      CycleDoes(s.rows, s.users, candidates, requested, at, after, notices)
  }

  predicate Records(s: System, step: Step, id: string) {
    step.Cycle? && id in s.rows && id in step.candidates && Pending(s.rows[id]) && !Deferred(s.rows[id], step.requested)
  }

  function Apply(s: System, step: Step): System
    requires step.Change? ==> step.id in s.rows
  {
    match step
    case New(id, optedIn, roster) =>
      s.(rows := s.rows[id := Row(optedIn, roster, None)], history := s.history[id := []])
    case Change(id, optedIn, roster) => s.(rows := s.rows[id := s.rows[id].(optedIn := optedIn, roster := roster)])
    case Remove(id) => s.(rows := s.rows - {id})
    case People(users) => s.(users := users)
    case Cycle(_, _, at, after, notices) =>
      System(after, s.users, s.log + notices,
             map id | id in s.history ::
               if Records(s, step, id) then s.history[id] + [Recording(s.rows[id].roster, s.users, at)]
               else s.history[id])
  }

  ghost predicate Run(s: System, steps: seq<Step>, t: System)
    decreases |steps|
  {
    if steps == [] then t == s
    else Enabled(s, steps[0]) && Run(Apply(s, steps[0]), steps[1..], t)
  }

  // ---- the invariant ----

  /** What a history of recordings has told: each but the first, its newcomers. */
  function Told(id: string, h: seq<Recording>): seq<Notice> {
    if |h| <= 1 then []
    else
      var k := |h| - 1;
      Told(id, h[..k]) + Firsts(Offers(id, h[k].roster, h[k - 1].roster, h[k].users, h[k].at))
  }

  function Latest(h: seq<Recording>): Option<seq<string>> {
    if h == [] then None else Some(h[|h| - 1].roster)
  }

  predicate RowOk(s: System, id: string) {
    id in s.rows ==> id in s.history && s.rows[id].recorded == Latest(s.history[id])
  }

  predicate LogOk(s: System, id: string) {
    About(s.log, id) == if id in s.history then Told(id, s.history[id]) else []
  }

  ghost predicate Inv(s: System) {
    (forall id :: RowOk(s, id)) && (forall id :: LogOk(s, id))
  }

  lemma ToldSnoc(id: string, h: seq<Recording>, rec: Recording)
    ensures Told(id, h + [rec]) ==
      if h == [] then [] else Told(id, h) + Firsts(Offers(id, rec.roster, h[|h| - 1].roster, rec.users, rec.at))
    ensures h == [] ==> Told(id, h) == []
  {
    assert (h + [rec])[..|h|] == h;
  }

  lemma CycleSends(s: System, step: Step, id: string)
    requires step.Cycle? && Enabled(s, step)
    ensures About(step.notices, id) ==
      if Records(s, step, id) && s.rows[id].recorded.Some?
      then Firsts(Offers(id, s.rows[id].roster, s.rows[id].recorded.value, s.users, step.at)) else []
  {
    hide About; hide Offers; hide Firsts;
  }

  lemma CycleKeepsLog(s: System, step: Step, id: string)
    requires RowOk(s, id) && LogOk(s, id) && step.Cycle? && Enabled(s, step)
    ensures LogOk(Apply(s, step), id)
  {
    hide About; hide Offers; hide Firsts; hide Told; hide CycleDoes; hide Pending; hide Deferred;
    AboutConcat(s.log, step.notices, id);
    CycleSends(s, step, id);
    if Records(s, step, id) {
      ToldSnoc(id, s.history[id], Recording(s.rows[id].roster, s.users, step.at));
    }
  }

  lemma CycleKeepsRow(s: System, step: Step, id: string)
    requires RowOk(s, id) && step.Cycle? && Enabled(s, step)
    ensures RowOk(Apply(s, step), id)
  {
    hide About; hide Sent;
  }

  /** Whatever else happens writes no notice and records nothing. */
  lemma ChangeKeeps(s: System, step: Step, id: string)
    requires RowOk(s, id) && LogOk(s, id) && !step.Cycle? && Enabled(s, step)
    ensures RowOk(Apply(s, step), id) && LogOk(Apply(s, step), id)
  {
    hide About;
  }

  lemma StepKeeps(s: System, step: Step)
    requires Inv(s) && Enabled(s, step)
    ensures Inv(Apply(s, step))
  {
    hide RowOk; hide LogOk; hide CycleDoes; hide Apply;
    forall id ensures RowOk(Apply(s, step), id) && LogOk(Apply(s, step), id) {
      if step.Cycle? {
        CycleKeepsRow(s, step, id);
        CycleKeepsLog(s, step, id);
      } else {
        ChangeKeeps(s, step, id);
      }
    }
  }

  lemma {:induction false} RunKeeps(s: System, steps: seq<Step>, t: System)
    requires Inv(s) && Run(s, steps, t)
    ensures Inv(t)
    decreases |steps|
  {
    hide Apply; hide CycleDoes; hide Inv;
    if steps != [] {
      StepKeeps(s, steps[0]);
      RunKeeps(Apply(s, steps[0]), steps[1..], t);
    }
  }

  // ---- what holds over every run ----

  /** The k-th recording of a schedule calls for this notice. */
  predicate Called(id: string, h: seq<Recording>, k: nat, n: Notice) {
    1 <= k < |h| && Tells(id, h[k].roster, h[k - 1].roster, h[k].users, h[k].at, n)
  }

  lemma {:induction false} ToldTells(id: string, h: seq<Recording>, n: Notice)
    ensures n in Told(id, h) <==> exists k :: Called(id, h, k, n)
    decreases |h|
  {
    hide Tells; hide Firsts; hide Offers;
    if |h| > 1 {
      var k := |h| - 1;
      ToldTells(id, h[..k], n);
      var last := Firsts(Offers(id, h[k].roster, h[k - 1].roster, h[k].users, h[k].at));
      assert n in last <==> Called(id, h, k, n) by {
        HandoffTells(id, h[k].roster, h[k - 1].roster, h[k].users, h[k].at);
      }
      assert n in Told(id, h) <==> n in Told(id, h[..k]) || n in last;
      if j: nat :| Called(id, h, j, n) && j < k { assert Called(id, h[..k], j, n); }
      if j: nat :| Called(id, h[..k], j, n) { assert Called(id, h, j, n); }
    }
  }

  lemma {:induction false} AboutHolds(log: seq<Notice>, id: string, n: Notice)
    ensures n in About(log, id) <==> n in log && n.schedule == id
    decreases |log|
  {
    if log != [] {
      AboutHolds(log[..|log| - 1], id, n);
      assert log == log[..|log| - 1] + [log[|log| - 1]];
    }
  }

  /** In every run a notice has been sent exactly if some recorded change of that schedule's
      roster, after the first recording, made an existing reachable person a newcomer. */
  lemma HandoffsAreTold(steps: seq<Step>, t: System, n: Notice)
    requires Run(EMPTY, steps, t)
    ensures n in t.log <==> n.schedule in t.history && exists k :: Called(n.schedule, t.history[n.schedule], k, n)
  {
    assert Inv(EMPTY);
    RunKeeps(EMPTY, steps, t);
    assert LogOk(t, n.schedule);
    AboutHolds(t.log, n.schedule, n);
    if n.schedule in t.history { ToldTells(n.schedule, t.history[n.schedule], n); }
  }

  /** Whoever the recorded roster names now was named by the first recording or entered with a
      later one, which told them. */
  lemma {:induction false} NobodyIsLost(h: seq<Recording>, uid: string)
    requires h != [] && uid in h[|h| - 1].roster
    ensures uid in h[0].roster || exists k: nat :: EnteredAt(h, k, uid)
    decreases |h|
  {
    var k := |h| - 1;
    if k > 0 {
      if uid in h[k - 1].roster {
        NobodyIsLost(h[..k], uid);
        if uid !in h[0].roster {
          var j: nat :| EnteredAt(h[..k], j, uid);
          assert EnteredAt(h, j, uid);
        }
      } else {
        assert EnteredAt(h, k, uid);
      }
    }
  }

  predicate EnteredAt(h: seq<Recording>, k: nat, uid: string) {
    1 <= k < |h| && uid in h[k].roster && uid !in h[k - 1].roster
  }

  /** A run's newcomer who existed then and could be reached has a notice on each channel. */
  lemma EntrantsAreTold(steps: seq<Step>, t: System, id: string, k: nat, uid: string, channel: string)
    requires Run(EMPTY, steps, t) && id in t.history && EnteredAt(t.history[id], k, uid)
    requires var users := t.history[id][k].users;
      uid in users && Offered(UsableTargets(users[uid], users[uid].targets), channel)
    ensures HasNotice(t.log, id, uid, channel, t.history[id][k].at)
  {
    var rec := t.history[id][k];
    var targets := UsableTargets(rec.users[uid], rec.users[uid].targets);
    EveryChannelIsTold(targets, channel);
    var address :| FirstOn(targets, channel, address);
    var n := Notice(id, uid, channel, address, rec.at);
    assert Called(id, t.history[id], k, n);
    HandoffsAreTold(steps, t, n);
    var i :| 0 <= i < |t.log| && t.log[i] == n;
  }

  predicate HasNotice(log: seq<Notice>, id: string, uid: string, channel: string, at: int) {
    exists i :: 0 <= i < |log| && log[i].schedule == id && log[i].user == uid && log[i].channel == channel &&
      log[i].at == at
  }

  /** No newcomer is lost in any run: whoever the recorded roster names now was in the
      baseline, or was told when they entered, on every channel open to them then. */
  lemma NewcomersAreNeverLost(steps: seq<Step>, t: System, id: string, uid: string)
    requires Run(EMPTY, steps, t) && id in t.rows && t.rows[id].recorded.Some? && uid in t.rows[id].recorded.value
    ensures id in t.history && t.history[id] != []
    ensures var h := t.history[id];
      uid in h[0].roster ||
      exists k: nat :: EnteredAt(h, k, uid) &&
        forall channel :: uid in h[k].users && Offered(UsableTargets(h[k].users[uid], h[k].users[uid].targets), channel)
          ==> HasNotice(t.log, id, uid, channel, h[k].at)
  {
    hide UsableTargets;
    assert Inv(EMPTY);
    RunKeeps(EMPTY, steps, t);
    assert RowOk(t, id);
    var h := t.history[id];
    NobodyIsLost(h, uid);
    if uid !in h[0].roster {
      var k: nat :| EnteredAt(h, k, uid);
      forall channel | uid in h[k].users && Offered(UsableTargets(h[k].users[uid], h[k].users[uid].targets), channel)
        ensures HasNotice(t.log, id, uid, channel, h[k].at)
      {
        EntrantsAreTold(steps, t, id, k, uid, channel);
      }
    }
  }

  /** A schedule that was recorded, switched off, handed over and switched on again still
      holds its old roster, so the first cycle after enabling tells whoever is on call. */
  lemma ReenabledRowIsPending()
    ensures exists steps, t: System ::
      Run(EMPTY, steps, t) && "s" in t.rows && t.rows["s"] == Row(true, ["b"], Some(["a"]))
  {
    hide CycleDoes;
    var first := New("s", true, ["a"]);
    var s1 := Apply(EMPTY, first);
    var cycle := Cycle({"s"}, {}, 0, map["s" := Row(true, ["a"], Some(["a"]))], []);
    BaselineCycle(s1.users);
    assert s1.rows == map["s" := Row(true, ["a"], None)];
    var s2 := Apply(s1, cycle);
    var off, on := Change("s", false, ["b"]), Change("s", true, ["b"]);
    var s3 := Apply(s2, off);
    var s4 := Apply(s3, on);
    var empty: seq<Step> := [];
    RunCons(s3, on, empty, s4);
    RunCons(s2, off, [on] + empty, s4);
    RunCons(s1, cycle, [off] + ([on] + empty), s4);
    RunCons(EMPTY, first, [cycle] + ([off] + ([on] + empty)), s4);
    assert s4.rows["s"] == Row(true, ["b"], Some(["a"]));
  }

  lemma RunCons(s: System, step: Step, rest: seq<Step>, t: System)
    requires Enabled(s, step) && Run(Apply(s, step), rest, t)
    ensures Run(s, [step] + rest, t)
  {
    assert ([step] + rest)[1..] == rest;
  }

  /** The first cycle of a new schedule records its roster and tells nobody. */
  lemma BaselineCycle(users: map<string, User>)
    ensures CycleDoes(map["s" := Row(true, ["a"], None)], users, {"s"}, {}, 0,
      map["s" := Row(true, ["a"], Some(["a"]))], [])
  {
    NoNotices();
  }

  lemma NoNotices()
    ensures forall id :: About([], id) == []
  {
  }
}
