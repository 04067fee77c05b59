/**
  The escalation interpreter: one call of advanceGroupLocked, and the one-shot
  interpreter it is measured against. Times are whole seconds, the precision the
  group row stores.
 */
module Escalation {
  import opened Instants

  const SECONDS_PER_MINUTE: int := 60

  /** A chain step. Page stands for every kind that only notifies; Malformed is an entry that
      is not an object. */
  datatype ChainStep =
    | Malformed
    | Page(kind: string)
    | Wait(delayMinutes: nat)
    | ResolveStep
    | Repeat(fromPosition: nat, maxRepeats: int, cooldownMinutes: nat)
  {
    /** Repeats allowed: at least one. */
    function Budget(): int
      requires Repeat?
    {
      if maxRepeats < 1 then 1 else maxRepeats
    }

    /** How long the step holds back whatever comes after it. */
    function Delay(): int {
      match this
      case Wait(d) => d * SECONDS_PER_MINUTE
      case Repeat(_, _, c) => c * SECONDS_PER_MINUTE
      case _ => 0
    }
  }

  datatype Status = Open | Acknowledged | Silenced | Resolved

  /** The part of an alert group row the interpreter reads and writes. */
  datatype Group = Group(status: Status, step: nat, repeats: nat, nextRun: Option<int>)

  /** One executed step, as its analytics event records it. */
  datatype Executed = Executed(index: nat, repeats: nat, at: int)

  // ---- one call ----

  /** The loop of advanceGroupLocked from position `i` of an open group. */
  function Walk(steps: seq<ChainStep>, g: Group, i: nat, now: int): (Group, seq<Executed>)
    decreases |steps| - i
  {
    if i >= |steps| then (g.(nextRun := None), [])
    else
      var event := Executed(i, g.repeats, now);
      match steps[i]
      case Malformed => Walk(steps, g, i + 1, now)
      case Page(_) =>
        var (after, rest) := Walk(steps, g.(step := i + 1, nextRun := None), i + 1, now);
        (after, [event] + rest)
      case Wait(_) => (g.(step := i + 1, nextRun := Some(now + steps[i].Delay())), [event])
      case ResolveStep => (g.(status := Resolved, nextRun := None), [event])
      case Repeat(target, _, _) =>
        if g.repeats + 1 > steps[i].Budget() then (g.(nextRun := None), [event])
        else (g.(step := target, repeats := g.repeats + 1, nextRun := Some(now + steps[i].Delay())), [event])
  }

  /** advanceGroupLocked; a chain that no longer exists stops the escalation. */
  function Advance(chain: Option<seq<ChainStep>>, g: Group, now: int): (Group, seq<Executed>) {
    if g.status != Open then (g, [])
    else if chain.None? then (g.(nextRun := None), [])
    else Walk(chain.value, g, g.step, now)
  }

  method AdvanceGroupLocked(chain: Option<seq<ChainStep>>, group: Group, now: int)
    returns (g: Group, trace: seq<Executed>)
    ensures g == Advance(chain, group, now).0 && trace == Advance(chain, group, now).1
  {
    g, trace := group, [];
    if g.status != Open { return; }
    if chain.None? {
      g := g.(nextRun := None);
      return;
    }
    var steps := chain.value;
    var current := g.step;
    ghost var meant := Walk(steps, g, current, now);
    assert meant == Advance(chain, group, now);
    hide Advance;
    while current < |steps|
      invariant g.status == Open
      invariant Walk(steps, g, current, now).0 == meant.0
      invariant trace + Walk(steps, g, current, now).1 == meant.1
      decreases |steps| - current
    {
      var step := steps[current];
      if step.Malformed? {
        current := current + 1;
        continue;
      }
      ghost var was := trace;
      trace := trace + [Executed(current, g.repeats, now)];
      match step {
        case Wait(_) =>
          g := g.(nextRun := Some(now + step.Delay()), step := current + 1);
          return;
        case ResolveStep =>
          g := g.(status := Resolved, nextRun := None);
          return;
        case Repeat(target, _, _) =>
          var count := g.repeats + 1;
          if count > step.Budget() {
            g := g.(nextRun := None);
            return;
          }
          g := g.(repeats := count, nextRun := Some(now + step.Delay()), step := target);
          return;
        case Page(_) =>
          current := current + 1;
          g := g.(step := current, nextRun := None);
          assert was + ([trace[|was|]] + Walk(steps, g, current, now).1) == trace + Walk(steps, g, current, now).1;
      }
    }
    g := g.(nextRun := None);
  }

  // ---- the one-shot interpreter ----

  /** The largest budget of any REPEAT: no run repeats more often in all. */
  function Cap(steps: seq<ChainStep>): (n: nat)
    ensures forall i :: 0 <= i < |steps| && steps[i].Repeat? ==> steps[i].Budget() <= n
  {
    if steps == [] then 0
    else
      var n := Cap(steps[1..]);
      assert forall i :: 1 <= i < |steps| ==> steps[i] == steps[1..][i - 1];
      if steps[0].Repeat? && steps[0].Budget() > n then steps[0].Budget() else n
  }

  function Less(a: nat, b: nat): nat { if a < b then b - a else 0 }

  /** What a chain executes from position `i` with `repeats` spent when nothing ever waits:
      pairs of step index and repeats spent. It ends because every jump spends a repeat. */
  function OneShot(steps: seq<ChainStep>, i: nat, repeats: nat): seq<(nat, nat)>
    decreases Less(repeats, Cap(steps)), Less(i, |steps|)
  {
    if i >= |steps| then []
    else
      match steps[i]
      case Malformed => OneShot(steps, i + 1, repeats)
      case Page(_) => [(i, repeats)] + OneShot(steps, i + 1, repeats)
      case Wait(_) => [(i, repeats)] + OneShot(steps, i + 1, repeats)
      case ResolveStep => [(i, repeats)]
      case Repeat(target, _, _) =>
        if repeats + 1 > steps[i].Budget() then [(i, repeats)]
        else [(i, repeats)] + OneShot(steps, target, repeats + 1)
  }

  function Keys(trace: seq<Executed>): (keys: seq<(nat, nat)>)
    ensures |keys| == |trace|
    ensures forall i :: 0 <= i < |trace| ==> keys[i] == (trace[i].index, trace[i].repeats)
  {
    seq(|trace|, i requires 0 <= i < |trace| => (trace[i].index, trace[i].repeats))
  }

  lemma KeysAppend(a: seq<Executed>, b: seq<Executed>)
    ensures Keys(a + b) == Keys(a) + Keys(b)
  {
  }

  /** Each step runs no sooner after the one before it than that one's delay. */
  predicate WellTimed(steps: seq<ChainStep>, trace: seq<Executed>) {
    && (forall i :: 0 <= i < |trace| ==> trace[i].index < |steps|)
    && (forall i :: 0 <= i < |trace| - 1 ==> trace[i + 1].at >= trace[i].at + steps[trace[i].index].Delay())
  }

  /** One call executes the next stretch of the one-shot run and leaves the row pointing at
      what remains. */
  lemma {:induction false} WalkRefines(steps: seq<ChainStep>, g: Group, i: nat, now: int)
    requires g.status == Open
    ensures var (after, trace) := Walk(steps, g, i, now);
      Keys(trace) + (if after.nextRun.Some? then OneShot(steps, after.step, after.repeats) else [])
        == OneShot(steps, i, g.repeats)
    decreases |steps| - i
  {
    if i < |steps| {
      var event := Executed(i, g.repeats, now);
      assert Keys([event]) == [(i, g.repeats)];
      match steps[i]
      case Malformed => WalkRefines(steps, g, i + 1, now);
      case Page(_) =>
        var h := g.(step := i + 1, nextRun := None);
        WalkRefines(steps, h, i + 1, now);
        KeysAppend([event], Walk(steps, h, i + 1, now).1);
      case _ =>
    }
  }

  /** A call runs at one instant, and schedules a resume exactly when its last step holds the
      chain back, for that step's delay. */
  lemma {:induction false} WalkTimed(steps: seq<ChainStep>, g: Group, i: nat, now: int)
    requires g.status == Open
    ensures var (after, trace) := Walk(steps, g, i, now);
      && WellTimed(steps, trace)
      && (forall k :: 0 <= k < |trace| ==> trace[k].at == now)
      && (after.status == Open || after.nextRun.None?)
      && (after.nextRun.Some? ==> |trace| > 0)
      && (after.nextRun.Some? ==> after.nextRun.value == now + steps[trace[|trace| - 1].index].Delay())
    decreases |steps| - i
  {
    if i < |steps| {
      match steps[i]
      case Malformed => WalkTimed(steps, g, i + 1, now);
      case Page(_) => WalkTimed(steps, g.(step := i + 1, nextRun := None), i + 1, now);
      case _ =>
    }
  }
}
