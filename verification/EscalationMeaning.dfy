/**
  What an escalation does to its group and in which order, said without the interpreter:
  the successor of every executed step, where a run ends, how long it waits, when the
  group ends resolved, and what an answer or a silence stops.
 */
module EscalationMeaning {
  import opened Instants
  import opened Escalation
  import opened EscalationLife

  // ---- the one-shot run, step by step ----

  /** The first position from `i` on that holds a step at all. */
  predicate NextStep(steps: seq<ChainStep>, i: nat, j: nat) {
    i <= j < |steps| && !steps[j].Malformed? && forall k :: i <= k < j ==> steps[k].Malformed?
  }

  /** A REPEAT jumps as often as it says, and at least once. */
  predicate MayRepeat(step: ChainStep, spent: nat)
    requires step.Repeat?
  {
    spent < step.maxRepeats || spent < 1
  }

  /** Where a run goes after the step at `i` with `spent` repeats: None when it stops there. */
  function After(steps: seq<ChainStep>, i: nat, spent: nat): Option<(nat, nat)>
    requires i < |steps|
  {
    match steps[i]
    case ResolveStep => None
    case Repeat(target, _, _) => if MayRepeat(steps[i], spent) then Some((target, spent + 1)) else None
    case _ => Some((i + 1, spent))
  }

  /** The run begins with the first step from `i` on, follows each step with the one its kind
      sends it to, and stops only where there is none. */
  ghost predicate Follows(steps: seq<ChainStep>, i: nat, spent: nat, keys: seq<(nat, nat)>)
    decreases |keys|
  {
    if keys == [] then forall k :: i <= k < |steps| ==> steps[k].Malformed?
    else
      var (j, r) := keys[0];
      NextStep(steps, i, j) && r == spent &&
      match After(steps, j, r)
      case None => |keys| == 1
      case Some(next) => Follows(steps, next.0, next.1, keys[1..])
  }

  lemma FollowsSkips(steps: seq<ChainStep>, i: nat, spent: nat, keys: seq<(nat, nat)>)
    requires i < |steps| && steps[i].Malformed? && Follows(steps, i + 1, spent, keys)
    ensures Follows(steps, i, spent, keys)
  {
  }

  lemma FollowsOne(steps: seq<ChainStep>, i: nat, spent: nat, rest: seq<(nat, nat)>)
    requires i < |steps| && !steps[i].Malformed?
    requires After(steps, i, spent).None? ==> rest == []
    requires After(steps, i, spent).Some? ==>
      Follows(steps, After(steps, i, spent).value.0, After(steps, i, spent).value.1, rest)
    ensures Follows(steps, i, spent, [(i, spent)] + rest)
  {
    var keys := [(i, spent)] + rest;
    assert keys[1..] == rest;
    assert NextStep(steps, i, i);
  }

  /** The one-shot interpreter runs exactly the steps the chain prescribes. */
  lemma {:induction false} OneShotFollows(steps: seq<ChainStep>, i: nat, spent: nat)
    ensures Follows(steps, i, spent, OneShot(steps, i, spent))
    decreases Less(spent, Cap(steps)), Less(i, |steps|)
  {
    hide Follows;
    if i >= |steps| {
      FollowsNothing(steps, i, spent);
    } else {
      match steps[i]
      case Malformed =>
        OneShotFollows(steps, i + 1, spent);
        FollowsSkips(steps, i, spent, OneShot(steps, i + 1, spent));
      case ResolveStep =>
        FollowsOne(steps, i, spent, []);
        assert [(i, spent)] + [] == [(i, spent)];
      case Repeat(target, _, _) =>
        if spent + 1 > steps[i].Budget() {
          FollowsOne(steps, i, spent, []);
          assert [(i, spent)] + [] == [(i, spent)];
        } else {
          OneShotFollows(steps, target, spent + 1);
          FollowsOne(steps, i, spent, OneShot(steps, target, spent + 1));
        }
      case _ =>
        OneShotFollows(steps, i + 1, spent);
        FollowsOne(steps, i, spent, OneShot(steps, i + 1, spent));
    }
  }

  lemma FollowsNothing(steps: seq<ChainStep>, i: nat, spent: nat)
    requires i >= |steps|
    ensures Follows(steps, i, spent, [])
  {
  }

  /** And there is only one such run. */
  lemma {:induction false} FollowsUnique(steps: seq<ChainStep>, i: nat, spent: nat, a: seq<(nat, nat)>,
                                         b: seq<(nat, nat)>)
    requires Follows(steps, i, spent, a) && Follows(steps, i, spent, b)
    ensures a == b
    decreases |a|
  {
    if a != [] && b != [] {
      assert a[0].0 == b[0].0;
      if After(steps, a[0].0, spent).Some? {
        var next := After(steps, a[0].0, spent).value;
        FollowsUnique(steps, next.0, next.1, a[1..], b[1..]);
      }
      assert a == [a[0]] + a[1..] && b == [b[0]] + b[1..];
    }
  }

  // ---- waits ----

  /** Whatever follows a WAIT or a jump comes at least that many minutes, of sixty seconds, later. */
  predicate WaitsOut(steps: seq<ChainStep>, trace: seq<Executed>) {
    forall i :: 0 <= i < |trace| - 1 && trace[i].index < |steps| ==>
      && (steps[trace[i].index].Wait? ==> trace[i + 1].at >= trace[i].at + 60 * steps[trace[i].index].delayMinutes)
      && (steps[trace[i].index].Repeat? ==> trace[i + 1].at >= trace[i].at + 60 * steps[trace[i].index].cooldownMinutes)
  }

  lemma TimedWaitsOut(steps: seq<ChainStep>, trace: seq<Executed>)
    requires WellTimed(steps, trace)
    ensures WaitsOut(steps, trace)
  {
  }

  /** In every life each pass waits out every WAIT and every cooldown. */
  lemma LivesWaitOut(steps: seq<ChainStep>, born: int, silencedUntil: Option<int>, actions: seq<Action>)
    ensures WaitsOut(steps, Lived(steps, Born(steps, born, silencedUntil), actions).trace)
  {
    hide WellTimed; hide WaitsOut;
    PassRefinesOneShot(steps, born, silencedUntil, actions);
    TimedWaitsOut(steps, Lived(steps, Born(steps, born, silencedUntil), actions).trace);
  }

  // ---- the RESOLVE step ----

  /** The run so far has ended in a RESOLVE step. */
  predicate EndsInResolve(steps: seq<ChainStep>, trace: seq<Executed>) {
    |trace| > 0 && trace[|trace| - 1].index < |steps| && steps[trace[|trace| - 1].index].ResolveStep?
  }

  /** A call leaves an open group open or resolved, and resolved exactly when the last step it
      executed is a RESOLVE. */
  lemma {:induction false} WalkResolvesIff(steps: seq<ChainStep>, g: Group, i: nat, now: int)
    requires g.status == Open
    ensures var (after, trace) := Walk(steps, g, i, now);
      after.status == if EndsInResolve(steps, trace) then Resolved else Open
    decreases |steps| - i
  {
    if i < |steps| {
      match steps[i]
      case Malformed => WalkResolvesIff(steps, g, i + 1, now);
      case Page(_) => WalkResolvesIff(steps, g.(step := i + 1, nextRun := None), i + 1, now);
      case _ =>
    }
  }

  lemma JoinedEnd(steps: seq<ChainStep>, a: seq<Executed>, b: seq<Executed>)
    ensures b != [] ==> (EndsInResolve(steps, a + b) <==> EndsInResolve(steps, b))
    ensures b == [] ==> a + b == a
  {
  }

  /** Resolved exactly when the pass has just run a RESOLVE step. */
  predicate ResolvedByChain(steps: seq<ChainStep>, l: Life) {
    l.g.status == if EndsInResolve(steps, l.trace) then Resolved else Open
  }

  lemma EscalateResolves(steps: seq<ChainStep>, l: Life, now: int)
    requires l.g.status == Open && ResolvedByChain(steps, l)
    ensures ResolvedByChain(steps, Escalate(steps, l, now))
  {
    hide Walk; hide EndsInResolve;
    WalkResolvesIff(steps, l.g, l.g.step, now);
    var (after, executed) := Walk(steps, l.g, l.g.step, now);
    JoinedEnd(steps, l.trace, executed);
    NothingEndsNothing(steps);
  }

  lemma NothingEndsNothing(steps: seq<ChainStep>)
    ensures !EndsInResolve(steps, [])
  {
  }

  lemma {:induction false} UndisturbedResolves(steps: seq<ChainStep>, l: Life, actions: seq<Action>)
    requires ResolvedByChain(steps, l) && Undisturbed(actions)
    ensures ResolvedByChain(steps, Lived(steps, l, actions))
    decreases |actions|
  {
    hide Walk; hide EndsInResolve;
    if actions != [] {
      var a := actions[0];
      if a.Cycle? && Effective(l, a.at) {
        EscalateResolves(steps, l.(g := l.g.(nextRun := None)), a.at);
      }
      UndisturbedResolves(steps, Act(steps, l, a), actions[1..]);
    }
  }

  /** The last step of the whole one-shot run is a RESOLVE. */
  predicate ChainResolves(steps: seq<ChainStep>) {
    var keys := OneShot(steps, 0, 0);
    |keys| > 0 && keys[|keys| - 1].0 < |steps| && steps[keys[|keys| - 1].0].ResolveStep?
  }

  /** Left to worker cycles and repeat firings, a group whose chain has run out is resolved
      exactly when the chain ends in a RESOLVE step, and open otherwise. */
  lemma ChainResolvesIff(steps: seq<ChainStep>, born: int, actions: seq<Action>)
    requires Undisturbed(actions)
    ensures var l := Lived(steps, Born(steps, born, None), actions);
      l.ended ==> l.g.status == if ChainResolves(steps) then Resolved else Open
  {
    hide Walk; hide OneShot;
    var newborn := NewPass(Group(Open, 0, 0, Some(born)));
    EscalateResolves(steps, newborn, born);
    var first := Born(steps, born, None);
    UndisturbedResolves(steps, first, actions);
    UndisturbedTerminates(steps, born, actions);
  }

  // ---- what an answer stops ----

  /** Worker cycles and firings that do not reopen. */
  predicate Passive(actions: seq<Action>) {
    forall i :: 0 <= i < |actions| ==> actions[i].Cycle? || (actions[i].Fire? && !actions[i].reopenAcked)
  }

  lemma {:induction false} QuietLife(steps: seq<ChainStep>, l: Life, actions: seq<Action>)
    requires Passive(actions) && l.g.status != Open
    requires l.g.status == Silenced && l.silencedUntil.Some? ==>
      forall i :: 0 <= i < |actions| && actions[i].Cycle? ==> actions[i].at < l.silencedUntil.value
    ensures Lived(steps, l, actions) == l
    decreases |actions|
  {
    if actions != [] { QuietLife(steps, l, actions[1..]); }
  }

  /** After an acknowledgement, worker cycles and repeat firings execute nothing, however many:
      the chain stands still until the group is unacknowledged or reopened. */
  lemma AcknowledgeStops(steps: seq<ChainStep>, l: Life, actions: seq<Action>)
    requires l.g.status != Resolved && Passive(actions)
    ensures var t := Lived(steps, Act(steps, l, Acknowledge), actions);
      t.g.status == Acknowledged && t.g.nextRun.None? && t.trace == l.trace
  {
    QuietLife(steps, Act(steps, l, Acknowledge), actions);
  }

  /** After a silence, firings and the worker cycles before its end execute nothing; without an
      end, no cycle ever does. */
  lemma SilenceStops(steps: seq<ChainStep>, l: Life, until: Option<int>, actions: seq<Action>)
    requires l.g.status != Resolved && Passive(actions)
    requires until.Some? ==> forall i :: 0 <= i < |actions| && actions[i].Cycle? ==> actions[i].at < until.value
    ensures var t := Lived(steps, Act(steps, l, Silence(until)), actions);
      t.g.status == Silenced && t.silencedUntil == until && t.trace == l.trace
  {
    QuietLife(steps, Act(steps, l, Silence(until)), actions);
  }

  lemma ResolveStops(steps: seq<ChainStep>, l: Life, actions: seq<Action>)
    requires Passive(actions)
    ensures var t := Lived(steps, Act(steps, l, ResolveGroup), actions); t.g.status == Resolved && t.trace == l.trace
  {
    QuietLife(steps, Act(steps, l, ResolveGroup), actions);
  }

  /** What a pass that starts over has executed after its first cycle: the chain from the top,
      with all its repeats, up to the first step that holds it back. */
  ghost predicate StartsOver(steps: seq<ChainStep>, l: Life, at: int) {
    && l.base == 0
    && l.trace == Walk(steps, Group(Open, 0, 0, None), 0, at).1
    && l.g == Walk(steps, Group(Open, 0, 0, None), 0, at).0
  }

  /** An unacknowledged group starts over with the next cycle, and so does one whose silence has
      run out; a firing that reopens an acknowledged group starts over at once. */
  lemma ChainStartsOver(steps: seq<ChainStep>, l: Life, at: int, cycle: int)
    ensures l.g.status == Acknowledged && at <= cycle ==>
      StartsOver(steps, Act(steps, Act(steps, l, Unacknowledge(at)), Cycle(cycle)), cycle)
    ensures l.g.status == Silenced && l.silencedUntil == Some(at) && at <= cycle ==>
      StartsOver(steps, Act(steps, l, Cycle(cycle)), cycle)
    ensures l.g.status == Acknowledged ==>
      Act(steps, l, Fire(at, true)).base == 0 &&
      Keys(Act(steps, l, Fire(at, true)).trace) == Keys(Walk(steps, Group(Open, 0, 0, None), 0, at).1)
  {
    if l.g.status == Acknowledged {
      DueDoesNotMatter(steps, l.g.(status := Open, step := 0, repeats := 0), 0, at);
    }
  }

  /** The row's own due time plays no part once a call runs. */
  lemma {:induction false} DueDoesNotMatter(steps: seq<ChainStep>, g: Group, i: nat, now: int)
    requires g.status == Open
    ensures Walk(steps, g, i, now).1 == Walk(steps, g.(nextRun := None), i, now).1
    ensures Walk(steps, g, i, now).0 == Walk(steps, g.(nextRun := None), i, now).0
    decreases |steps| - i
  {
    if i < |steps| && steps[i].Malformed? { DueDoesNotMatter(steps, g, i + 1, now); }
  }
}
