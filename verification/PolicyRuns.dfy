/**
  Personal notification policy runs: a resumable program whose position is a row.
  Times are whole seconds.
 */
module PolicyRuns {
  import opened Instants

  const SECONDS_PER_MINUTE: int := 60

  /** A policy step; waits are never negative once read from the user. */
  datatype PolicyStep = PolicyStep(channel: string, waitMinutes: nat)

  /** The stored row: next step, whether the run is active, and when it is next due. */
  datatype RunRow = RunRow(index: nat, active: bool, due: int)

  /** One fired step: its index, when, and the wait its own list configured after it. */
  datatype Fired = Fired(index: nat, at: int, wait: nat)

  /** runPolicySteps: fires from the row's index through every zero-wait step. */
  function RunSteps(steps: seq<PolicyStep>, idx: nat, now: int): (RunRow, seq<Fired>)
    decreases |steps| - idx
  {
    if idx >= |steps| then (RunRow(idx, false, 0), [])
    else
      var event := Fired(idx, now, steps[idx].waitMinutes);
      if idx + 1 < |steps| && steps[idx].waitMinutes > 0 then
        (RunRow(idx + 1, true, now + steps[idx].waitMinutes * SECONDS_PER_MINUTE), [event])
      else
        var (row, rest) := RunSteps(steps, idx + 1, now);
        (row, [event] + rest)
  }

  method RunPolicySteps(steps: seq<PolicyStep>, run: RunRow, now: int) returns (row: RunRow, fired: seq<Fired>)
    ensures row == RunSteps(steps, run.index, now).0 && fired == RunSteps(steps, run.index, now).1
  {
    var idx := run.index;
    fired := [];
    while idx < |steps|
      invariant RunSteps(steps, idx, now).0 == RunSteps(steps, run.index, now).0
      invariant fired + RunSteps(steps, idx, now).1 == RunSteps(steps, run.index, now).1
      decreases |steps| - idx
    {
      ghost var was := fired;
      fired := fired + [Fired(idx, now, steps[idx].waitMinutes)];
      var waited := steps[idx].waitMinutes;
      idx := idx + 1;
      if idx < |steps| && waited > 0 {
        row := RunRow(idx, true, now + waited * SECONDS_PER_MINUTE);
        return;
      }
      assert was + ([fired[|was|]] + RunSteps(steps, idx, now).1) == fired + RunSteps(steps, idx, now).1;
    }
    row := RunRow(idx, false, 0);
  }

  // ---- a run over many cycles ----

  /** What one worker cycle finds under the lock: the clock, whether the group exists and is
      open, and the user's current steps if the user exists. */
  datatype Cycle = Cycle(at: int, groupOpen: bool, steps: Option<seq<PolicyStep>>)

  datatype History = History(row: RunRow, fired: seq<Fired>)

  /** One run in advanceNotificationPolicyRuns. */
  function Advance(h: History, c: Cycle): History {
    if !h.row.active || h.row.due > c.at then h
    else if !c.groupOpen || c.steps.None? then h.(row := h.row.(active := false))
    else
      var (row, fired) := RunSteps(c.steps.value, h.row.index, c.at);
      History(row, h.fired + fired)
  }

  function Advanced(h: History, cycles: seq<Cycle>): History
    decreases |cycles|
  {
    if cycles == [] then h else Advanced(Advance(h, cycles[0]), cycles[1..])
  }

  /** startPolicyRun: the first steps fire with the page itself. */
  function StartRun(steps: seq<PolicyStep>, now: int): History {
    var (row, fired) := RunSteps(steps, 0, now);
    History(row, fired)
  }

  /** The fired indices are 0, 1, 2, ... and each waits out the wait of the one before. */
  predicate InOrder(fired: seq<Fired>) {
    && (forall i :: 0 <= i < |fired| ==> fired[i].index == i)
    && (forall i :: 0 <= i < |fired| - 1 ==> fired[i + 1].at >= fired[i].at + 60 * fired[i].wait)
  }

  predicate RunOk(h: History) {
    && InOrder(h.fired)
    && (h.row.active ==> h.row.index == |h.fired| > 0)
    && (h.row.active ==>
         var last := h.fired[|h.fired| - 1];
         h.row.due >= last.at + 60 * last.wait)
  }

  /** The step fired at that instant, with the wait the list configures after it. */
  predicate FiredFrom(f: Fired, steps: seq<PolicyStep>, at: int) {
    f.at == at && f.index < |steps| && f.wait == steps[f.index].waitMinutes
  }

  /** One pass fires consecutive steps at one instant; it stops only before a step that a
      positive wait holds back, and otherwise fires the whole rest of the list. */
  lemma {:induction false} RunStepsFires(steps: seq<PolicyStep>, idx: nat, now: int)
    ensures var (row, fired) := RunSteps(steps, idx, now);
      && (forall i :: 0 <= i < |fired| ==> fired[i].index == idx + i && FiredFrom(fired[i], steps, now))
      && (forall i :: 0 <= i < |fired| - 1 ==> fired[i].wait == 0)
      && row.index == idx + |fired|
      && (row.active ==> |fired| > 0)
      && (row.active ==> row.index < |steps| && row.due == now + 60 * steps[row.index - 1].waitMinutes)
      && (!row.active ==> row.index == if idx < |steps| then |steps| else idx)
    decreases |steps| - idx
  {
    if idx < |steps| && !(idx + 1 < |steps| && steps[idx].waitMinutes > 0) {
      RunStepsFires(steps, idx + 1, now);
    }
  }

  lemma AdvanceKeeps(h: History, c: Cycle)
    requires RunOk(h)
    ensures RunOk(Advance(h, c))
  {
    if h.row.active && h.row.due <= c.at && c.groupOpen && c.steps.Some? {
      RunStepsFires(c.steps.value, h.row.index, c.at);
    }
  }

  lemma {:induction false} AdvancedKeeps(h: History, cycles: seq<Cycle>)
    requires RunOk(h)
    ensures RunOk(Advanced(h, cycles))
    decreases |cycles|
  {
    if cycles != [] {
      AdvanceKeeps(h, cycles[0]);
      AdvancedKeeps(Advance(h, cycles[0]), cycles[1..]);
    }
  }

  /** The step was fired by the start or by a cycle that found the group open, from the list in
      force there. */
  ghost predicate FiredByCycle(f: Fired, steps: seq<PolicyStep>, start: int, cycles: seq<Cycle>) {
    || FiredFrom(f, steps, start)
    || exists j :: 0 <= j < |cycles| && cycles[j].groupOpen && cycles[j].steps.Some? &&
         FiredFrom(f, cycles[j].steps.value, cycles[j].at)
  }

  ghost predicate AllFiredBy(fired: seq<Fired>, steps: seq<PolicyStep>, start: int, cycles: seq<Cycle>) {
    forall i :: 0 <= i < |fired| ==> FiredByCycle(fired[i], steps, start, cycles)
  }

  lemma AdvanceFires(h: History, c: Cycle, steps: seq<PolicyStep>, start: int, cycles: seq<Cycle>)
    requires AllFiredBy(h.fired, steps, start, cycles)
    ensures AllFiredBy(Advance(h, c).fired, steps, start, cycles + [c])
  {
    var all := cycles + [c];
    assert forall j :: 0 <= j < |cycles| ==> all[j] == cycles[j];
    assert all[|cycles|] == c;
    forall i | 0 <= i < |h.fired| ensures FiredByCycle(h.fired[i], steps, start, all) {
      assert FiredByCycle(h.fired[i], steps, start, cycles);
    }
    if c.steps.Some? { RunStepsFires(c.steps.value, h.row.index, c.at); }
  }

  lemma {:induction false} AdvancedSnoc(h: History, cycles: seq<Cycle>, c: Cycle)
    ensures Advanced(h, cycles + [c]) == Advance(Advanced(h, cycles), c)
    decreases |cycles|
  {
    if cycles == [] {
      assert cycles + [c] == [c] && [c][1..] == [];
    } else {
      assert (cycles + [c])[1..] == cycles[1..] + [c];
      AdvancedSnoc(Advance(h, cycles[0]), cycles[1..], c);
    }
  }

  lemma {:induction false} AdvancedFires(steps: seq<PolicyStep>, start: int, cycles: seq<Cycle>)
    ensures AllFiredBy(Advanced(StartRun(steps, start), cycles).fired, steps, start, cycles)
    decreases |cycles|
  {
    if cycles == [] {
      RunStepsFires(steps, 0, start);
    } else {
      var k := |cycles| - 1;
      AdvancedFires(steps, start, cycles[..k]);
      AdvanceFires(Advanced(StartRun(steps, start), cycles[..k]), cycles[k], steps, start, cycles[..k]);
      AdvancedSnoc(StartRun(steps, start), cycles[..k], cycles[k]);
      assert cycles[..k] + [cycles[k]] == cycles;
    }
  }

  /** For any sequence of cycles, with the policy edited between them at will: the steps fired
      are 0..k in order, each once, each from the list in force at its cycle, and none sooner
      than the minutes, of sixty seconds, that list configures after the one before. */
  lemma PolicyRunInOrder(steps: seq<PolicyStep>, start: int, cycles: seq<Cycle>)
    ensures InOrder(Advanced(StartRun(steps, start), cycles).fired)
    ensures AllFiredBy(Advanced(StartRun(steps, start), cycles).fired, steps, start, cycles)
  {
    RunStepsFires(steps, 0, start);
    AdvancedKeeps(StartRun(steps, start), cycles);
    AdvancedFires(steps, start, cycles);
  }

  /** With a list nobody edits, each step comes at least its configured wait after the last. */
  lemma FixedListWaits(steps: seq<PolicyStep>, start: int, cycles: seq<Cycle>, i: nat)
    requires forall j :: 0 <= j < |cycles| && cycles[j].steps.Some? ==> cycles[j].steps.value == steps
    requires i + 1 < |Advanced(StartRun(steps, start), cycles).fired|
    ensures var fired := Advanced(StartRun(steps, start), cycles).fired;
      i + 1 < |steps| && fired[i].index == i && fired[i + 1].at >= fired[i].at + 60 * steps[i].waitMinutes
  {
    hide RunSteps; hide Advanced;
    var fired := Advanced(StartRun(steps, start), cycles).fired;
    PolicyRunInOrder(steps, start, cycles);
    assert FiredByCycle(fired[i], steps, start, cycles) && FiredByCycle(fired[i + 1], steps, start, cycles);
  }

  /** Nothing fires from a cycle that finds the group not open, nor ever after it. */
  lemma {:induction false} StopsOnResponse(h: History, c: Cycle, later: seq<Cycle>)
    requires h.row.active && h.row.due <= c.at && !c.groupOpen
    ensures Advanced(Advance(h, c), later).fired == h.fired
  {
    InactiveStays(Advance(h, c), later);
  }

  lemma {:induction false} InactiveStays(h: History, cycles: seq<Cycle>)
    requires !h.row.active
    ensures Advanced(h, cycles) == h
    decreases |cycles|
  {
    if cycles != [] { InactiveStays(h, cycles[1..]); }
  }

  /** Cycles that find the group open and the policy unchanged, each no earlier than the run
      is due at that point: the worker keeps coming back. */
  ghost predicate KeepsComing(h: History, steps: seq<PolicyStep>, cycles: seq<Cycle>)
    decreases |cycles|
  {
    cycles == [] ||
    (cycles[0].groupOpen && cycles[0].steps == Some(steps) && (h.row.active ==> cycles[0].at >= h.row.due) &&
     KeepsComing(Advance(h, cycles[0]), steps, cycles[1..]))
  }

  /** With a fixed list and an open group, every step fires after at most as many due cycles
      as there are steps. */
  lemma {:induction false} AllStepsFire(h: History, steps: seq<PolicyStep>, cycles: seq<Cycle>)
    requires RunOk(h) && KeepsComing(h, steps, cycles)
    requires h.row.index == |h.fired| <= |steps| && (!h.row.active ==> |h.fired| == |steps|)
    requires |cycles| >= |steps| - h.row.index
    ensures |Advanced(h, cycles).fired| == |steps|
    decreases |cycles|
  {
    if !h.row.active {
      InactiveStays(h, cycles);
    } else if cycles != [] {
      AdvanceKeeps(h, cycles[0]);
      RunStepsFires(steps, h.row.index, cycles[0].at);
      AllStepsFire(Advance(h, cycles[0]), steps, cycles[1..]);
    }
  }

  /** The whole run from its start: all steps fire, in order. */
  lemma PolicyRunCompletes(steps: seq<PolicyStep>, start: int, cycles: seq<Cycle>)
    requires KeepsComing(StartRun(steps, start), steps, cycles) && |cycles| >= |steps|
    ensures var h := Advanced(StartRun(steps, start), cycles);
      && |h.fired| == |steps| && InOrder(h.fired)
      && forall i :: 0 <= i < |steps| - 1 ==> h.fired[i + 1].at >= h.fired[i].at + 60 * steps[i].waitMinutes
  {
    RunStepsFires(steps, 0, start);
    PolicyRunInOrder(steps, start, cycles);
    AllStepsFire(StartRun(steps, start), steps, cycles);
    hide RunSteps; hide Advanced; hide InOrder;
    KeepsTheList(StartRun(steps, start), steps, cycles);
    forall i | 0 <= i < |steps| - 1
      ensures var fired := Advanced(StartRun(steps, start), cycles).fired;
        fired[i + 1].at >= fired[i].at + 60 * steps[i].waitMinutes
    {
      FixedListWaits(steps, start, cycles, i);
    }
  }

  lemma {:induction false} KeepsTheList(h: History, steps: seq<PolicyStep>, cycles: seq<Cycle>)
    requires KeepsComing(h, steps, cycles)
    ensures forall j :: 0 <= j < |cycles| ==> cycles[j].steps == Some(steps)
    decreases |cycles|
  {
    if cycles != [] {
      KeepsTheList(Advance(h, cycles[0]), steps, cycles[1..]);
      assert forall j :: 1 <= j < |cycles| ==> cycles[j] == cycles[1..][j - 1];
    }
  }
}
