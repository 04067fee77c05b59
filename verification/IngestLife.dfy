/**
  The store of alert groups over every run of ingested alerts, operator actions and
  worker cycles.
 */
module IngestLife {
  import opened Instants
  import opened Escalation
  import opened EscalationLife
  import opened Ingest

  /** `used` is every group id ever given out and `attached` the group each firing alert went
      to, in order; both are history. */
  datatype System = System(groups: Groups, used: set<string>, attached: seq<string>)

  const EMPTY := System(map[], {}, [])

  datatype Step =
    | Alert(ctx: Context, p: Prepared, found: Option<string>)
    | Operate(id: string, action: Action)
    | Delete(id: string)

  /** No other unresolved group has the integration and key of `id`. */
  predicate Alone(groups: Groups, id: string)
    requires id in groups
  {
    forall x :: x in groups && x != id ==> !Matches(groups[x], groups[id].integration, groups[id].key)
  }

  /** Operators and the worker act on a group; firings come only with alerts, and a resolved
      group is unresolved only while it would be alone. */
  ghost predicate Enabled(s: System, step: Step) {
    match step
    case Alert(ctx, p, found) => MayFind(s.groups, ctx, p.key, found) && p.newId !in s.used
    case Operate(id, action) =>
      id in s.groups && !action.Fire? && (action.Unresolve? ==> s.groups[id].Unresolved() || Alone(s.groups, id))
    case Delete(id) => id in s.groups
  }

  ghost function Apply(s: System, step: Step): System
    requires Enabled(s, step)
  {
    match step
    case Alert(ctx, p, found) =>
      System(
        IngestOne(ctx, s.groups, p, found),
        s.used + {p.newId},
        if p.resolving then s.attached else s.attached + [if found.Some? then found.value else p.newId])
    case Operate(id, action) =>
      s.(groups := s.groups[id := s.groups[id].(life := Act(s.groups[id].steps, s.groups[id].life, action))])
    case Delete(id) => s.(groups := s.groups - {id})
  }

  ghost predicate Run(s: System, steps: seq<Step>, t: System)
    decreases |steps|
  {
    if steps == [] then t == s
    else Enabled(s, steps[0]) && Run(Apply(s, steps[0]), steps[1..], t)
  }

  function FiringAlerts(steps: seq<Step>): nat {
    if steps == [] then 0
    else (if steps[0].Alert? && !steps[0].p.resolving then 1 else 0) + FiringAlerts(steps[1..])
  }

  // ---- the invariant ----

  predicate SameKey(g: AlertGroup, h: AlertGroup) { Matches(h, g.integration, g.key) }

  ghost predicate OneOpenPerKey(groups: Groups) {
    forall a, b :: a in groups && b in groups && groups[a].Unresolved() && SameKey(groups[a], groups[b]) ==> a == b
  }

  ghost predicate GroupOk(s: System, id: string)
    requires id in s.groups
  {
    var g := s.groups[id];
    id in s.used && g.alertCount == multiset(s.attached)[id] && PassOk(g.steps, g.life)
  }

  ghost predicate Inv(s: System) {
    && OneOpenPerKey(s.groups)
    && (forall id :: id in s.groups ==> GroupOk(s, id))
    && (forall i :: 0 <= i < |s.attached| ==> s.attached[i] in s.used)
  }

  /** Only an unresolve brings a resolved group back. */
  lemma ResolvedStays(steps: seq<ChainStep>, l: Life, a: Action)
    requires l.g.status == Resolved && !a.Unresolve?
    ensures Act(steps, l, a).g.status == Resolved
  {
  }

  lemma NewIdUncounted(s: System, id: string)
    requires id !in s.used && forall i :: 0 <= i < |s.attached| ==> s.attached[i] in s.used
    ensures multiset(s.attached)[id] == 0
  {
    assert id !in s.attached;
  }

  lemma AlertKeepsUnique(s: System, ctx: Context, p: Prepared, found: Option<string>)
    requires Inv(s) && Enabled(s, Alert(ctx, p, found))
    ensures OneOpenPerKey(IngestOne(ctx, s.groups, p, found))
  {
    if found.Some? {
      var g := s.groups[found.value];
      assert g.Unresolved();
    }
  }

  lemma AlertKeeps(s: System, ctx: Context, p: Prepared, found: Option<string>)
    requires Inv(s) && Enabled(s, Alert(ctx, p, found))
    ensures Inv(Apply(s, Alert(ctx, p, found)))
  {
    hide Act; hide Born; hide PassOk; hide OneOpenPerKey;
    var t := Apply(s, Alert(ctx, p, found));
    AlertKeepsUnique(s, ctx, p, found);
    NewIdUncounted(s, p.newId);
    forall id | id in t.groups ensures GroupOk(t, id) {
      if id in s.groups { assert GroupOk(s, id); }
      if found.Some? && id == found.value {
        var g := s.groups[id];
        ActKeeps(g.steps, g.life, if p.resolving then ResolveGroup else Fire(ctx.now, ctx.reopenAcked));
      } else if found.None? && !p.resolving && id == p.newId {
        BornOk(p.steps, ctx.now, ctx.maintenance);
      }
    }
  }

  lemma OperateKeepsUnique(groups: Groups, id: string, life: Life)
    requires OneOpenPerKey(groups) && id in groups
    requires life.g.status == Resolved || groups[id].Unresolved() || Alone(groups, id)
    ensures OneOpenPerKey(groups[id := groups[id].(life := life)])
  {
  }

  lemma OperateKeeps(s: System, id: string, action: Action)
    requires Inv(s) && Enabled(s, Operate(id, action))
    ensures Inv(Apply(s, Operate(id, action)))
  {
    hide Act; hide PassOk; hide OneOpenPerKey;
    var t, g := Apply(s, Operate(id, action)), s.groups[id];
    assert GroupOk(s, id);
    ActKeeps(g.steps, g.life, action);
    forall x | x in t.groups ensures GroupOk(t, x) { assert GroupOk(s, x); }
    if !g.Unresolved() && !action.Unresolve? { ResolvedStays(g.steps, g.life, action); }
    OperateKeepsUnique(s.groups, id, t.groups[id].life);
  }

  lemma {:induction false} RunKeeps(s: System, steps: seq<Step>, t: System)
    requires Inv(s) && Run(s, steps, t)
    ensures Inv(t) && |t.attached| == |s.attached| + FiringAlerts(steps)
    decreases |steps|
  {
    if steps != [] {
      match steps[0] {
        case Alert(ctx, p, found) => AlertKeeps(s, ctx, p, found);
        case Operate(id, action) => OperateKeeps(s, id, action);
        case Delete(id) =>
          forall x | x in s.groups && x != id ensures GroupOk(Apply(s, steps[0]), x) { assert GroupOk(s, x); }
      }
      RunKeeps(Apply(s, steps[0]), steps[1..], t);
    }
  }

  // ---- what holds over every run ----

  /** At most one unresolved group per integration and dedupe key, every group counts exactly
      the firing alerts attached to it, and every firing alert was attached exactly once. */
  lemma IngestKeepsItsBooks(steps: seq<Step>, t: System)
    requires Run(EMPTY, steps, t)
    ensures OneOpenPerKey(t.groups)
    ensures forall a, b :: a in t.groups && b in t.groups && a != b && SameKeys(t.groups[a], t.groups[b]) ==>
      t.groups[a].life.g.status == Resolved || t.groups[b].life.g.status == Resolved
    ensures forall id :: id in t.groups ==> t.groups[id].alertCount == multiset(t.attached)[id]
    ensures |t.attached| == FiringAlerts(steps)
  {
    RunKeeps(EMPTY, steps, t);
    forall a, b | a in t.groups && b in t.groups && a != b && SameKeys(t.groups[a], t.groups[b])
      ensures t.groups[a].life.g.status == Resolved || t.groups[b].life.g.status == Resolved
    {
      assert !(t.groups[a].Unresolved() && SameKey(t.groups[a], t.groups[b]));
    }
    forall id | id in t.groups ensures t.groups[id].alertCount == multiset(t.attached)[id] { assert GroupOk(t, id); }
  }

  /** In every run, whatever alerts keep arriving, each group's current pass has executed a
      well-timed prefix of its chain's one-shot run: a repeat firing never cuts a WAIT short. */
  lemma RepeatFiringsHonourWaits(steps: seq<Step>, t: System, id: string)
    requires Run(EMPTY, steps, t) && id in t.groups
    ensures var g := t.groups[id];
      WellTimed(g.steps, g.life.trace) && Keys(g.life.trace) <= OneShot(g.steps, 0, g.life.base)
  {
    RunKeeps(EMPTY, steps, t);
    assert GroupOk(t, id);
  }

  /** The condition on unresolving is exact: it keeps one open group per key precisely when
      no newer group has opened for that key. */
  lemma UnresolveKeepsOneOpenIff(groups: Groups, id: string, at: int)
    requires OneOpenPerKey(groups) && id in groups && !groups[id].Unresolved()
    ensures var g := groups[id];
      OneOpenPerKey(groups[id := g.(life := Act(g.steps, g.life, Unresolve(at)))]) <==> Alone(groups, id)
  {
    var g := groups[id];
    var after := groups[id := g.(life := Act(g.steps, g.life, Unresolve(at)))];
    if !Alone(groups, id) {
      var x :| x in groups && x != id && Matches(groups[x], g.integration, g.key);
      assert after[id].Unresolved() && Matches(after[x], g.integration, g.key);
    }
  }

  lemma RunCons(s: System, step: Step, rest: seq<Step>, t: System)
    requires Enabled(s, step) && Run(Apply(s, step), rest, t)
    ensures Run(s, [step] + rest, t)
  {
    assert ([step] + rest)[1..] == rest;
  }

  /** It happens: a group is resolved, the next alert opens another for the same key, and
      unresolving the first leaves two open. */
  lemma UnresolveOpensTwo(ctx: Context, key: string, at: int) returns (steps: seq<Step>, t: System)
    ensures Run(EMPTY, steps, t) && "a" in t.groups && !t.groups["a"].Unresolved() && !Alone(t.groups, "a")
    ensures var g := t.groups["a"];
      !OneOpenPerKey(t.groups["a" := g.(life := Act(g.steps, g.life, Unresolve(at)))])
  {
    hide Born;
    var first := Alert(ctx, Prepared(key, false, [], "a"), None);
    var again := Alert(ctx, Prepared(key, false, [], "b"), None);
    var resolve := Operate("a", ResolveGroup);
    var s1 := Apply(EMPTY, first);
    var s2 := Apply(s1, resolve);
    t := Apply(s2, again);
    NewbornIsOpen(ctx.now, ctx.maintenance);
    assert Matches(t.groups["b"], ctx.integration, key);
    var none: seq<Step> := [];
    RunCons(s2, again, none, t);
    RunCons(s1, resolve, [again] + none, t);
    RunCons(EMPTY, first, [resolve] + ([again] + none), t);
    steps := [first] + ([resolve] + ([again] + none));
    IngestKeepsItsBooks(steps, t);
    UnresolveKeepsOneOpenIff(t.groups, "a", at);
  }

  /** A group with an empty chain is unresolved when it is created. */
  lemma NewbornIsOpen(now: int, maintenance: Option<int>)
    ensures Born([], now, maintenance).g.status != Resolved
  {
  }

  // ---- what an alert does to the store ----

  /** After a resolving alert no unresolved group of its integration and key is left, and nothing
      else has changed but that one group's life. */
  lemma ResolvingAlertLeavesNone(groups: Groups, ctx: Context, p: Prepared, found: Option<string>)
    requires OneOpenPerKey(groups) && MayFind(groups, ctx, p.key, found) && p.resolving
    ensures var after := IngestOne(ctx, groups, p, found);
      && (forall id :: id in after ==> !Matches(after[id], ctx.integration, p.key))
      && after.Keys == groups.Keys
      && (forall id :: id in groups ==>
           after[id].alertCount == groups[id].alertCount && SameGroup(after[id], groups[id]))
      && (forall id :: id in groups && !Matches(groups[id], ctx.integration, p.key) ==> after[id] == groups[id])
  {
    var after := IngestOne(ctx, groups, p, found);
    forall id | id in after ensures !Matches(after[id], ctx.integration, p.key) {
      if found.Some? && id != found.value {
        assert SameKey(groups[found.value], groups[id]) <==> Matches(groups[id], ctx.integration, p.key);
      }
    }
  }

  /** The parts of a group no alert and no operator changes. */
  predicate SameGroup(g: AlertGroup, h: AlertGroup) {
    g.integration == h.integration && g.key == h.key && g.steps == h.steps
  }

  predicate SameKeys(g: AlertGroup, h: AlertGroup) { g.integration == h.integration && g.key == h.key }

  /** The scan comes back empty exactly when every group of that integration and key is resolved,
      be the others open, acknowledged or silenced. */
  lemma FindsUnlessResolved(groups: Groups, ctx: Context, key: string, found: Option<string>)
    requires MayFind(groups, ctx, key, found)
    ensures found.None? <==>
      forall id :: id in groups && groups[id].integration == ctx.integration && groups[id].key == key ==>
        groups[id].life.g.status == Resolved
  {
    if found.None? {
      forall id | id in groups && groups[id].integration == ctx.integration && groups[id].key == key
        ensures groups[id].life.g.status == Resolved
      {
        assert !Matches(groups[id], ctx.integration, key);
      }
    }
  }

  /** A firing alert goes to the unresolved group of its integration and key, or to a new one
      with its own chain, which then counts one more alert; no other group changes, and a group
      that was not acknowledged is not moved along its chain. */
  lemma FiringAlertAttaches(groups: Groups, ctx: Context, p: Prepared, found: Option<string>)
    requires MayFind(groups, ctx, p.key, found) && !p.resolving && p.newId !in groups
    ensures var after, id := IngestOne(ctx, groups, p, found), (if found.Some? then found.value else p.newId);
      && id in after && after[id].integration == ctx.integration && after[id].key == p.key
      && after[id].alertCount == (if found.Some? then groups[id].alertCount + 1 else 1)
      && (found.Some? ==> SameGroup(after[id], groups[id]))
      && (found.Some? && groups[id].life.g.status != Acknowledged ==> after[id].life == groups[id].life)
      && (found.None? ==> after[id].steps == p.steps && after[id].life.base == 0)
      && (found.None? && ctx.maintenance.Some? ==> after[id].life.g.status == Silenced && after[id].life.trace == [])
      && (forall x :: x != id ==> (x in after <==> x in groups) && (x in groups ==> after[x] == groups[x]))
  {
    hide Walk;
  }
}
