/**
  The life of one alert group under a fixed chain: every interleaving of worker
  cycles, repeat firings and operator actions. A pass is one run of the chain from
  the top; an unacknowledge, an expired silence, a reopen and an unresolve each
  start a new one.
 */
module EscalationLife {
  import opened Instants
  import opened Escalation

  /** `base` is the repeat count the pass began with, `trace` what it has executed, and
      `ended` whether its chain has run out; all three are history. */
  datatype Life = Life(g: Group, silencedUntil: Option<int>, base: nat, trace: seq<Executed>, ended: bool)

  datatype Action =
    | Cycle(at: int)
    | Fire(at: int, reopenAcked: bool)
    | Acknowledge
    | Unacknowledge(at: int)
    | Silence(until: Option<int>)
    | ResolveGroup
    | Unresolve(at: int)

  function NewPass(g: Group): Life {
    Life(g, None, g.repeats, [], false)
  }

  /** RestartEscalation: from the top, repeats reset, due at once. */
  function Restarted(g: Group, at: int): Group {
    g.(status := Open, step := 0, repeats := 0, nextRun := Some(at))
  }

  /** Runs the chain on an open group and records what it executed. */
  function Escalate(steps: seq<ChainStep>, l: Life, now: int): Life {
    var (after, executed) := Advance(Some(steps), l.g, now);
    l.(g := after, trace := l.trace + executed, ended := after.nextRun.None?)
  }

  /** One group in advanceEscalationShard: end an expired silence, then resume if due. */
  function WorkerCycle(steps: seq<ChainStep>, l: Life, now: int): Life {
    var m :=
      if l.g.status == Silenced && l.silencedUntil.Some? && l.silencedUntil.value <= now
      then NewPass(Restarted(l.g, now)) else l;
    if m.g.status != Open || m.g.nextRun.None? || m.g.nextRun.value > now then m
    else Escalate(steps, m.(g := m.g.(nextRun := None)), now)
  }

  /** A firing alert on an existing group: it advances the chain only when it reopens an
      acknowledged group. */
  function Firing(steps: seq<ChainStep>, l: Life, now: int, reopenAcked: bool): Life {
    if reopenAcked && l.g.status == Acknowledged then
      Escalate(steps, NewPass(l.g.(status := Open, step := 0, repeats := 0)), now)
    else l
  }

  function Act(steps: seq<ChainStep>, l: Life, a: Action): Life {
    match a
    case Cycle(at) => WorkerCycle(steps, l, at)
    case Fire(at, reopenAcked) => Firing(steps, l, at, reopenAcked)
    case Acknowledge => if l.g.status == Resolved then l else l.(g := l.g.(status := Acknowledged, nextRun := None))
    case Unacknowledge(at) => if l.g.status != Acknowledged then l else NewPass(Restarted(l.g, at))
    case Silence(until) =>
      if l.g.status == Resolved then l
      else l.(g := l.g.(status := Silenced, nextRun := until), silencedUntil := until)
    case ResolveGroup => l.(g := l.g.(status := Resolved, nextRun := None))
    case Unresolve(at) =>
      if l.g.status != Resolved then l
      else NewPass(l.g.(status := Open, step := 0, nextRun := Some(at)))
  }

  function Lived(steps: seq<ChainStep>, l: Life, actions: seq<Action>): Life
    decreases |actions|
  {
    if actions == [] then l else Lived(steps, Act(steps, l, actions[0]), actions[1..])
  }

  /** A group as ingest creates it: due now, and advanced in the same transaction unless a
      maintenance window silenced it at birth. */
  function Born(steps: seq<ChainStep>, now: int, silencedUntil: Option<int>): Life {
    var l := NewPass(Group(Open, 0, 0, Some(now)));
    if silencedUntil.Some? then Act(steps, l, Silence(silencedUntil)) else Escalate(steps, l, now)
  }

  // ---- the invariant ----

  /** What the pass has executed plus what its row still points at is the one-shot run; the
      stretch executed is well timed; and a resume is scheduled only after the last delay. */
  ghost predicate PassOk(steps: seq<ChainStep>, l: Life) {
    && Keys(l.trace) + (if l.ended then [] else OneShot(steps, l.g.step, l.g.repeats)) == OneShot(steps, 0, l.base)
    && WellTimed(steps, l.trace)
    && (l.ended ==> l.g.status != Silenced ==> l.g.nextRun.None?)
    && (l.g.status == Open && !l.ended ==> l.g.nextRun.Some?)
    && (l.g.status == Open && l.g.nextRun.Some? && |l.trace| > 0 ==>
         var last := l.trace[|l.trace| - 1];
         l.g.nextRun.value >= last.at + steps[last.index].Delay())
  }

  /** Resuming no sooner than the due time extends the pass correctly. */
  lemma EscalateKeeps(steps: seq<ChainStep>, l: Life, due: int, now: int)
    requires l.g.status == Open && !l.ended && due <= now
    requires Keys(l.trace) + OneShot(steps, l.g.step, l.g.repeats) == OneShot(steps, 0, l.base)
    requires WellTimed(steps, l.trace)
    requires |l.trace| > 0 ==> due >= l.trace[|l.trace| - 1].at + steps[l.trace[|l.trace| - 1].index].Delay()
    ensures PassOk(steps, Escalate(steps, l, now))
  {
    hide Walk; hide OneShot; hide Keys;
    WalkRefines(steps, l.g, l.g.step, now);
    WalkTimed(steps, l.g, l.g.step, now);
    var (after, executed) := Walk(steps, l.g, l.g.step, now);
    KeysAppend(l.trace, executed);
    var rest := if after.nextRun.Some? then OneShot(steps, after.step, after.repeats) else [];
    assert Keys(l.trace) + (Keys(executed) + rest) == (Keys(l.trace) + Keys(executed)) + rest;
    JoinTimed(steps, l.trace, executed, due);
  }

  lemma JoinTimed(steps: seq<ChainStep>, a: seq<Executed>, b: seq<Executed>, due: int)
    requires WellTimed(steps, a) && WellTimed(steps, b)
    requires |a| > 0 ==> due >= a[|a| - 1].at + steps[a[|a| - 1].index].Delay()
    requires |b| > 0 ==> b[0].at >= due
    ensures WellTimed(steps, a + b)
  {
  }

  lemma NewPassOk(steps: seq<ChainStep>, g: Group)
    requires g.step == 0 && (g.status == Open ==> g.nextRun.Some?)
    ensures PassOk(steps, NewPass(g))
  {
    assert Keys([]) + OneShot(steps, 0, g.repeats) == OneShot(steps, 0, g.repeats);
  }

  lemma CycleKeeps(steps: seq<ChainStep>, l: Life, now: int)
    requires PassOk(steps, l)
    ensures PassOk(steps, WorkerCycle(steps, l, now))
  {
    hide Walk; hide OneShot; hide Keys; hide WellTimed;
    var expired := l.g.status == Silenced && l.silencedUntil.Some? && l.silencedUntil.value <= now;
    if expired { NewPassOk(steps, Restarted(l.g, now)); }
    var m := if expired then NewPass(Restarted(l.g, now)) else l;
    if m.g.status == Open && m.g.nextRun.Some? && m.g.nextRun.value <= now {
      EscalateKeeps(steps, m.(g := m.g.(nextRun := None)), m.g.nextRun.value, now);
    }
  }

  lemma FiringKeeps(steps: seq<ChainStep>, l: Life, now: int, reopenAcked: bool)
    requires PassOk(steps, l)
    ensures PassOk(steps, Firing(steps, l, now, reopenAcked))
  {
    if reopenAcked && l.g.status == Acknowledged {
      var g := l.g.(status := Open, step := 0, repeats := 0);
      assert Keys([]) + OneShot(steps, 0, 0) == OneShot(steps, 0, 0);
      EscalateKeeps(steps, NewPass(g), now, now);
    }
  }

  lemma ActKeeps(steps: seq<ChainStep>, l: Life, a: Action)
    requires PassOk(steps, l)
    ensures PassOk(steps, Act(steps, l, a))
  {
    hide Walk; hide OneShot; hide Keys; hide WellTimed;
    match a
    case Cycle(at) => CycleKeeps(steps, l, at);
    case Fire(at, reopenAcked) => FiringKeeps(steps, l, at, reopenAcked);
    case Unacknowledge(at) => NewPassOk(steps, Restarted(l.g, at));
    case Unresolve(at) => NewPassOk(steps, l.g.(status := Open, step := 0, nextRun := Some(at)));
    case _ =>
  }

  lemma {:induction false} LivedKeeps(steps: seq<ChainStep>, l: Life, actions: seq<Action>)
    requires PassOk(steps, l)
    ensures PassOk(steps, Lived(steps, l, actions))
    decreases |actions|
  {
    hide Walk; hide OneShot; hide Keys; hide WellTimed;
    if actions != [] {
      ActKeeps(steps, l, actions[0]);
      LivedKeeps(steps, Act(steps, l, actions[0]), actions[1..]);
    }
  }

  lemma BornOk(steps: seq<ChainStep>, now: int, silencedUntil: Option<int>)
    ensures PassOk(steps, Born(steps, now, silencedUntil))
  {
    var g := Group(Open, 0, 0, Some(now));
    NewPassOk(steps, g);
    if silencedUntil.Some? {
      ActKeeps(steps, NewPass(g), Silence(silencedUntil));
    } else {
      EscalateKeeps(steps, NewPass(g), now, now);
    }
  }

  // ---- what holds in every life ----

  /** However the actions interleave and however late each resume runs, what a pass has
      executed is a prefix of the one-shot run, all of it once the chain has ended, and no
      step follows a WAIT or a REPEAT before its delay has passed. */
  lemma PassRefinesOneShot(steps: seq<ChainStep>, born: int, silencedUntil: Option<int>, actions: seq<Action>)
    ensures var l := Lived(steps, Born(steps, born, silencedUntil), actions);
      && Keys(l.trace) <= OneShot(steps, 0, l.base)
      && (l.ended ==> Keys(l.trace) == OneShot(steps, 0, l.base))
      && WellTimed(steps, l.trace)
  {
    hide Walk; hide OneShot; hide Keys; hide WellTimed;
    BornOk(steps, born, silencedUntil);
    LivedKeeps(steps, Born(steps, born, silencedUntil), actions);
  }

  /** A resume that was due and found the group open: it executes something or ends the pass. */
  predicate Effective(l: Life, now: int) {
    l.g.status == Open && l.g.nextRun.Some? && l.g.nextRun.value <= now
  }

  function Left(steps: seq<ChainStep>, l: Life): nat {
    if l.ended then 0 else 1 + |OneShot(steps, l.g.step, l.g.repeats)|
  }

  /** Every effective resume leaves strictly less of the one-shot run. */
  lemma EffectiveCycleProgresses(steps: seq<ChainStep>, l: Life, now: int)
    requires PassOk(steps, l) && Effective(l, now)
    ensures Left(steps, WorkerCycle(steps, l, now)) < Left(steps, l)
  {
    hide Walk; hide OneShot; hide Keys; hide WellTimed;
    var g := l.g.(nextRun := None);
    WalkRefines(steps, g, g.step, now);
    WalkTimed(steps, g, g.step, now);
    assert !l.ended;
  }

  /** A life of worker cycles and repeat firings only, each cycle as late as it likes. */
  predicate Undisturbed(actions: seq<Action>) {
    forall i :: 0 <= i < |actions| ==> actions[i].Cycle? || (actions[i].Fire? && !actions[i].reopenAcked)
  }

  function EffectiveCycles(steps: seq<ChainStep>, l: Life, actions: seq<Action>): nat
    decreases |actions|
  {
    if actions == [] then 0
    else
      (if actions[0].Cycle? && Effective(l, actions[0].at) then 1 else 0) +
      EffectiveCycles(steps, Act(steps, l, actions[0]), actions[1..])
  }

  lemma {:induction false} UndisturbedShrinks(steps: seq<ChainStep>, l: Life, actions: seq<Action>)
    requires PassOk(steps, l) && l.g.status in {Open, Resolved} && Undisturbed(actions)
    ensures Left(steps, Lived(steps, l, actions)) + EffectiveCycles(steps, l, actions) <= Left(steps, l)
    ensures Lived(steps, l, actions).base == l.base
    decreases |actions|
  {
    hide Walk; hide OneShot; hide Keys; hide WellTimed;
    if actions != [] {
      var a := actions[0];
      ActKeeps(steps, l, a);
      if a.Cycle? && Effective(l, a.at) {
        EffectiveCycleProgresses(steps, l, a.at);
        WalkTimed(steps, l.g.(nextRun := None), l.g.step, a.at);
        StaysOpenOrResolved(steps, l.g.(nextRun := None), l.g.step, a.at);
      }
      UndisturbedShrinks(steps, Act(steps, l, a), actions[1..]);
    }
  }

  lemma {:induction false} StaysOpenOrResolved(steps: seq<ChainStep>, g: Group, i: nat, now: int)
    requires g.status == Open
    ensures Walk(steps, g, i, now).0.status in {Open, Resolved}
    decreases |steps| - i
  {
    if i < |steps| {
      match steps[i]
      case Malformed => StaysOpenOrResolved(steps, g, i + 1, now);
      case Page(_) => StaysOpenOrResolved(steps, g.(step := i + 1, nextRun := None), i + 1, now);
      case _ =>
    }
  }

  /** Left alone, a group's escalation terminates: it takes at most as many effective resumes
      as the one-shot run has steps, and then has executed exactly that run. */
  lemma UndisturbedTerminates(steps: seq<ChainStep>, born: int, actions: seq<Action>)
    requires Undisturbed(actions)
    ensures var first := Born(steps, born, None);
      EffectiveCycles(steps, first, actions) <= |OneShot(steps, 0, 0)|
    ensures var first := Born(steps, born, None);
      var l := Lived(steps, first, actions);
      l.ended ==> Keys(l.trace) == OneShot(steps, 0, 0)
    ensures var l := Lived(steps, Born(steps, born, None), actions);
      l.ended || (l.g.status == Open && l.g.nextRun.Some?)
  {
    hide Walk; hide OneShot; hide Keys; hide WellTimed;
    var first := Born(steps, born, None);
    BornOk(steps, born, None);
    StaysOpenOrResolved(steps, Group(Open, 0, 0, Some(born)), 0, born);
    WalkTimed(steps, Group(Open, 0, 0, Some(born)), 0, born);
    WalkRefines(steps, Group(Open, 0, 0, Some(born)), 0, born);
    UndisturbedShrinks(steps, first, actions);
    LivedKeeps(steps, first, actions);
    UndisturbedStays(steps, first, actions);
  }

  lemma {:induction false} UndisturbedStays(steps: seq<ChainStep>, l: Life, actions: seq<Action>)
    requires PassOk(steps, l) && Undisturbed(actions) && (l.ended || l.g.status == Open)
    requires l.g.status in {Open, Resolved}
    ensures var t := Lived(steps, l, actions); t.ended || (t.g.status == Open && t.g.nextRun.Some?)
    decreases |actions|
  {
    hide Walk; hide OneShot; hide Keys; hide WellTimed;
    if actions != [] {
      var a := actions[0];
      ActKeeps(steps, l, a);
      if a.Cycle? && Effective(l, a.at) {
        WalkTimed(steps, l.g.(nextRun := None), l.g.step, a.at);
        StaysOpenOrResolved(steps, l.g.(nextRun := None), l.g.step, a.at);
      }
      UndisturbedStays(steps, Act(steps, l, a), actions[1..]);
    }
  }

  // ---- an unresolve does not give the repeats back ----

  /** The step indices of a one-shot run. */
  function Indices(keys: seq<(nat, nat)>): (r: seq<nat>)
    ensures |r| == |keys| && forall i :: 0 <= i < |r| ==> r[i] == keys[i].0
  {
    seq(|keys|, i requires 0 <= i < |keys| => keys[i].0)
  }

  /** Nothing is left to execute from position `i` on. */
  predicate Idle(steps: seq<ChainStep>, i: nat) {
    forall k :: i <= k < |steps| ==> steps[k].Malformed?
  }

  /** How many repeats may already be spent before a run from position `i` loses a jump: the
      least budget left over at any jump it takes, None when no jump of it matters. */
  function Spare(steps: seq<ChainStep>, i: nat, repeats: nat): Option<nat>
    decreases Less(repeats, Cap(steps)), Less(i, |steps|)
  {
    if i >= |steps| then None
    else
      match steps[i]
      case Repeat(target, _, _) =>
        if repeats + 1 > steps[i].Budget() || Idle(steps, target) then None
        else Least(steps[i].Budget() - (repeats + 1), Spare(steps, target, repeats + 1))
      case ResolveStep => None
      case _ => Spare(steps, i + 1, repeats)
  }

  function Least(n: nat, m: Option<nat>): Option<nat> {
    if m.Some? && m.value < n then m else Some(n)
  }

  predicate Affordable(spent: nat, spare: Option<nat>) {
    spare.None? || spent <= spare.value
  }

  lemma {:induction false} IdleRunsNothing(steps: seq<ChainStep>, i: nat, repeats: nat)
    ensures OneShot(steps, i, repeats) == [] <==> Idle(steps, i)
    decreases Less(i, |steps|)
  {
    if i < |steps| && steps[i].Malformed? { IdleRunsNothing(steps, i + 1, repeats); }
  }

  lemma IndicesCons(key: (nat, nat), rest: seq<(nat, nat)>)
    ensures Indices([key] + rest) == [key.0] + Indices(rest)
  {
  }

  /** Less of a run, and all of it exactly when the condition holds. */
  predicate CutIff(full: seq<(nat, nat)>, less: seq<(nat, nat)>, whole: bool) {
    Indices(less) <= Indices(full) && (Indices(less) == Indices(full) <==> whole)
  }

  lemma CutCons(i: nat, r: nat, s: nat, full: seq<(nat, nat)>, less: seq<(nat, nat)>, whole: bool)
    requires CutIff(full, less, whole)
    ensures CutIff([(i, r)] + full, [(i, s)] + less, whole)
  {
    IndicesCons((i, r), full);
    IndicesCons((i, s), less);
    ConsSame(i, Indices(less), Indices(full));
  }

  /** Starting with `spent` more repeats used never adds a step, and changes nothing exactly
      when the spare repeats cover them. */
  lemma {:induction false} SpentRunsIff(steps: seq<ChainStep>, i: nat, repeats: nat, spent: nat)
    ensures CutIff(OneShot(steps, i, repeats), OneShot(steps, i, repeats + spent),
      Affordable(spent, Spare(steps, i, repeats)))
    decreases Less(repeats, Cap(steps)), Less(i, |steps|)
  {
    if i < |steps| {
      match steps[i]
      case Malformed => SpentRunsIff(steps, i + 1, repeats, spent);
      case ResolveStep =>
        CutCons(i, repeats, repeats + spent, [], [], true);
      case Repeat(target, _, _) =>
        if repeats + 1 <= steps[i].Budget() {
          SpentRunsIff(steps, target, repeats + 1, spent);
          SpentJump(steps, i, repeats, spent);
        } else {
          CutCons(i, repeats, repeats + spent, [], [], true);
        }
      case _ =>
        SpentRunsIff(steps, i + 1, repeats, spent);
        CutCons(i, repeats, repeats + spent, OneShot(steps, i + 1, repeats), OneShot(steps, i + 1, repeats + spent),
                Affordable(spent, Spare(steps, i + 1, repeats)));
    }
  }

  lemma Jumps(steps: seq<ChainStep>, i: nat, repeats: nat)
    requires i < |steps| && steps[i].Repeat?
    ensures var target, left := steps[i].fromPosition, steps[i].Budget() - (repeats + 1);
      && OneShot(steps, i, repeats) == [(i, repeats)] + (if left < 0 then [] else OneShot(steps, target, repeats + 1))
      && Spare(steps, i, repeats) ==
           if left < 0 || Idle(steps, target) then None else Least(left, Spare(steps, target, repeats + 1))
  {
  }

  lemma SpentJump(steps: seq<ChainStep>, i: nat, repeats: nat, spent: nat)
    requires i < |steps| && steps[i].Repeat? && repeats + 1 <= steps[i].Budget()
    requires var target := steps[i].fromPosition;
      CutIff(OneShot(steps, target, repeats + 1), OneShot(steps, target, repeats + 1 + spent),
             Affordable(spent, Spare(steps, target, repeats + 1)))
    ensures CutIff(OneShot(steps, i, repeats), OneShot(steps, i, repeats + spent),
      Affordable(spent, Spare(steps, i, repeats)))
  {
    hide OneShot; hide Spare; hide Idle; hide CutIff;
    var target := steps[i].fromPosition;
    var rest := OneShot(steps, target, repeats + 1);
    Jumps(steps, i, repeats);
    Jumps(steps, i, repeats + spent);
    IdleRunsNothing(steps, target, repeats + 1);
    IdleRunsNothing(steps, target, repeats + 1 + spent);
    if repeats + spent + 1 > steps[i].Budget() {
      CutToNothing(rest);
      CutCons(i, repeats, repeats + spent, rest, [], rest == []);
    } else {
      var shorter := OneShot(steps, target, repeats + 1 + spent);
      if rest == [] { CutToNothing(rest); }
      CutCons(i, repeats, repeats + spent, rest, shorter,
        rest == [] || Affordable(spent, Spare(steps, target, repeats + 1)));
    }
  }

  lemma CutToNothing(rest: seq<(nat, nat)>)
    ensures CutIff(rest, [], rest == [])
  {
    assert rest != [] ==> |Indices(rest)| > 0;
  }

  lemma ConsSame(x: nat, a: seq<nat>, b: seq<nat>)
    ensures [x] + a <= [x] + b <==> a <= b
    ensures [x] + a == [x] + b <==> a == b
  {
    assert ([x] + a)[1..] == a && ([x] + b)[1..] == b;
    if [x] + a <= [x] + b {
      assert a == ([x] + b)[..|[x] + a|][1..] == b[..|a|];
    }
  }

  /** Unresolve promises to restart escalation from the top but keeps the spent repeats: the
      new pass will execute the steps of a first pass exactly when the chain has that many
      repeats to spare. */
  lemma UnresolveRestartsFullyIff(steps: seq<ChainStep>, l: Life, at: int)
    requires l.g.status == Resolved
    ensures var m := Act(steps, l, Unresolve(at));
      && m.g.step == 0 && m.trace == [] && !m.ended
      && (Indices(OneShot(steps, 0, m.base)) == Indices(OneShot(steps, 0, 0)) <==>
        Affordable(l.g.repeats, Spare(steps, 0, 0)))
  {
    hide OneShot; hide Spare;
    SpentRunsIff(steps, 0, 0, l.g.repeats);
  }

  /** A chain that pages, and pages once more. */
  const TWICE: seq<ChainStep> := [Page("NOTIFY_USER"), Repeat(0, 1, 0)]

  lemma TwiceWalks(g: Group, now: int)
    requires g.status == Open && g.step == 0 && g.repeats <= 1
    ensures Walk(TWICE, g, 0, now).0 == if g.repeats == 0 then Group(Open, 0, 1, Some(now)) else Group(Open, 1, 1, None)
  {
    var h := g.(step := 1, nextRun := None);
    assert Walk(TWICE, g, 0, now).0 == Walk(TWICE, h, 1, now).0;
  }

  lemma NoneToSpare()
    ensures Spare(TWICE, 0, 0) == Some(0)
  {
    assert !TWICE[0].Malformed?;
    assert Spare(TWICE, 1, 1) == None;
    assert Spare(TWICE, 0, 1) == None;
    assert Spare(TWICE, 1, 0) == Some(0);
  }

  /** It happens: a group that has repeated once and is resolved has nothing to spare, so
      unresolving it pages once instead of twice. */
  lemma UnresolveKeepsSpentRepeats()
    ensures exists l: Life, actions ::
      && l == Lived(TWICE, Born(TWICE, 0, None), actions) && l.g.status == Resolved
      && !Affordable(l.g.repeats, Spare(TWICE, 0, 0))
  {
    hide Walk; hide Spare;
    NoneToSpare();
    var born := Born(TWICE, 0, None);
    TwiceWalks(Group(Open, 0, 0, Some(0)), 0);
    assert born.g == Group(Open, 0, 1, Some(0));
    var actions := [ResolveGroup];
    var l := Act(TWICE, born, ResolveGroup);
    assert Lived(TWICE, born, actions) == Lived(TWICE, l, actions[1..]) == l;
    assert l.g.repeats == 1;
  }
}
