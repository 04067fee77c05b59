/**
  Where the exactness promised of the timeline stops: a start inside a repeated
  wall-clock hour, and an override without start_at. Each limit comes with the condition
  that decides it for the segments actually drawn.
 */
module ExactnessLimits {
  import opened Instants
  import opened Rotations
  import opened OnCall
  import opened Boundaries
  import opened Timeline

  // ---- a late start ----

  /** A schedule that is nothing but an unrestricted rotation. */
  ghost predicate RotationOnly(s: Schedule) {
    && s.Valid() && s.enabled && s.overrides == [] && s.rotation.Some?
    && s.rotation.value.restriction.None? && s.rotation.value.startAt != 0
    && s.rotation.value.participants[0] != ""
  }

  lemma NoPointAtLateStart(s: Schedule, o: int)
    requires RotationOnly(s)
    requires s.rotation.value.Handoff(0, s.zone) < s.rotation.value.startAt
    ensures var st := s.rotation.value.startAt;
      && Quiet(s, o, st - 1, st)
      && PeriodNumber(s.rotation.value, st, s.zone) == 0
  {
    hide Rotation.Handoff;
    var r, z := s.rotation.value, s.zone;
    HandoffDrift(r, z, 1);
    assert 1 * r.Period() == r.Period();
    assert r.InPeriod(0, r.startAt, z);
    PeriodUnique(r, z, PeriodNumber(r, r.startAt, z), 0, r.startAt);
    forall x | r.startAt - 1 < x <= r.startAt ensures !ChangePoint(s, o, x) {
      if HandoffPoint(r, z, x) {
        var n :| 0 <= n && r.Handoff(n, z) == x;
        if n > 1 { HandoffsIncrease(r, z, 1, n); }
      }
    }
  }

  lemma LateStartIsMissed(s: Schedule, o: int, from: int, to: int)
    requires RotationOnly(s) && s.rotation.value.Handoff(0, s.zone) < s.rotation.value.startAt
    requires from < s.rotation.value.startAt < to
    ensures !PointsSuffice(s, o, from, to)
  {
    hide Rotation.Handoff; hide Quiet;
    var r := s.rotation.value;
    NoPointAtLateStart(s, o);
    assert ResolveAt(s, r.startAt - 1) == NOBODY;
    assert ResolveAt(s, r.startAt) == Answer([r.participants[0]], FromRotation);
  }

  /** After the start a rotation changes only at its handoffs, wherever the zero-th one lies. */
  lemma StartedRotationKeeps(s: Schedule, o: int, t1: int, t2: int)
    requires RotationOnly(s) && s.rotation.value.startAt <= t1 <= t2 && Quiet(s, o, t1, t2)
    ensures ResolveAt(s, t1) == ResolveAt(s, t2)
  {
    hide Quiet;
    PeriodKeepsIn(s, o, t1, t2);
  }

  /** The window does not hold the start strictly inside it, or the zero-th handoff is not
      before the start. */
  predicate StartIsSeen(r: Rotation, z: Zone, from: int, to: int) {
    r.Handoff(0, z) >= r.startAt || r.startAt <= from || to <= r.startAt
  }

  lemma RotationPointsSufficeIff(s: Schedule, o: int, from: int, to: int)
    requires RotationOnly(s)
    ensures PointsSuffice(s, o, from, to) <==> StartIsSeen(s.rotation.value, s.zone, from, to)
  {
    hide Rotation.Handoff; hide Quiet;
    var r, z := s.rotation.value, s.zone;
    if r.Handoff(0, z) >= r.startAt {
      TrackedPointsSuffice(s, o, from, to);
    } else if r.startAt <= from {
      forall t1, t2 | from <= t1 <= t2 < to && Quiet(s, o, t1, t2) ensures ResolveAt(s, t1) == ResolveAt(s, t2) {
        StartedRotationKeeps(s, o, t1, t2);
      }
    } else if from < r.startAt < to {
      LateStartIsMissed(s, o, from, to);
    }
  }

  /** The timeline drawn for a plain rotation is exact if and only if its start is seen. */
  lemma RotationTimelineExactIff(s: Schedule, o: int, from: int, to: int, segs: seq<Segment>)
    requires RotationOnly(s) && from < to <= from + MAX_WINDOW && Drawn(s, o, from, to, segs)
    ensures IsTimeline(segs, Resolver(s), from, to) <==> StartIsSeen(s.rotation.value, s.zone, from, to)
  {
    hide Drawn; hide IsTimeline; hide StartIsSeen; hide PointsSuffice; hide ResolveAt;
    PlainTimelineExactIff(s, o, from, to, segs);
    RotationPointsSufficeIff(s, o, from, to);
  }

  /** A zone west of Greenwich whose clocks go back an hour at instant `turn`. */
  function ClocksBack(turn: int): Zone {
    Zone(t => if t < turn then -4 * HOUR else -5 * HOUR)
  }

  /** Such a start exists: in the second pass through the repeated hour the calendar step
      lands on the first pass, an hour before the start. */
  lemma RepeatedHourStart(turn: int, r: Rotation)
    requires r.Valid() && r.unit != Hours && turn <= r.startAt < turn + HOUR
    ensures r.Regular(ClocksBack(turn))
    ensures r.Handoff(0, ClocksBack(turn)) == r.startAt - HOUR
    ensures !StartIsSeen(r, ClocksBack(turn), r.startAt - HOUR, r.startAt + HOUR)
  {
    PeriodPositive(r);
    var z := ClocksBack(turn);
    assert 0 * r.Period() == 0;
    assert z.Wall(r.startAt) == r.startAt - 5 * HOUR;
  }

  // ---- an override without start_at ----

  /** A schedule that is nothing but one override. */
  ghost predicate OverrideOnly(s: Schedule) {
    s.enabled && |s.overrides| == 1 && s.rotation.None? && s.shifts == []
  }

  /** The override has its start_at, or its fallback start is not strictly inside the window,
      or it never becomes active. */
  predicate FallbackIsSeen(v: Override, from: int, to: int) {
    || !v.startAt.Absent? || !v.createdAt.At? || !v.until.At? || v.until.t <= v.createdAt.t
    || v.createdAt.t <= from || to <= v.createdAt.t
  }

  lemma LoneOverrideAnswers(s: Schedule, t: int)
    requires OverrideOnly(s)
    ensures var v := s.overrides[0];
      ResolveAt(s, t) == if v.ActiveAt(t) then Answer([v.userId], FromOverride) else NOBODY
  {
    assert WinnerBefore(s.overrides, t, 1) == if s.overrides[0].ActiveAt(t) then 0 else -1;
  }

  lemma FallbackPointsSuffice(s: Schedule, o: int, from: int, to: int)
    requires OverrideOnly(s) && s.overrides[0].startAt.Absent? && FallbackIsSeen(s.overrides[0], from, to)
    ensures PointsSuffice(s, o, from, to)
  {
    hide ResolveAt;
    var v := s.overrides[0];
    forall t1, t2 | from <= t1 <= t2 < to && Quiet(s, o, t1, t2) ensures ResolveAt(s, t1) == ResolveAt(s, t2) {
      LoneOverrideAnswers(s, t1);
      LoneOverrideAnswers(s, t2);
      if v.until.At? {
        assert OverridePoint(s, v.until.t);
        assert ChangePoint(s, o, v.until.t);
      }
    }
  }

  lemma OverridePointsSufficeIff(s: Schedule, o: int, from: int, to: int)
    requires OverrideOnly(s)
    ensures PointsSuffice(s, o, from, to) <==> FallbackIsSeen(s.overrides[0], from, to)
  {
    var v := s.overrides[0];
    if !v.startAt.Absent? {
      TrackedPointsSuffice(s, o, from, to);
    } else if FallbackIsSeen(v, from, to) {
      FallbackPointsSuffice(s, o, from, to);
    } else {
      var c := v.createdAt.t;
      LoneOverrideAnswers(s, c - 1);
      LoneOverrideAnswers(s, c);
      assert Quiet(s, o, c - 1, c);
    }
  }

  /** The timeline drawn for a lone override is exact if and only if its start is seen. */
  lemma OverrideTimelineExactIff(s: Schedule, o: int, from: int, to: int, segs: seq<Segment>)
    requires OverrideOnly(s) && from < to <= from + MAX_WINDOW && Drawn(s, o, from, to, segs)
    ensures IsTimeline(segs, Resolver(s), from, to) <==> FallbackIsSeen(s.overrides[0], from, to)
  {
    hide Drawn; hide IsTimeline; hide FallbackIsSeen; hide PointsSuffice; hide ResolveAt;
    PlainTimelineExactIff(s, o, from, to, segs);
    OverridePointsSufficeIff(s, o, from, to);
  }

  /** It happens: an override created in the tenth hour without start_at, in the window of its day. */
  function LateFallback(): Schedule {
    Schedule(true, Zone(t => 0), [Override("ann", Absent, At(20 * HOUR), At(10 * HOUR))], None, [])
  }

  lemma LateFallbackIsDrawnWrong(o: int, segs: seq<Segment>)
    requires LateFallback().Valid() && Drawn(LateFallback(), o, 0, DAY, segs)
    ensures !IsTimeline(segs, Resolver(LateFallback()), 0, DAY)
  {
    OverrideTimelineExactIff(LateFallback(), o, 0, DAY, segs);
  }

  // ---- any number of overrides over any unrestricted rotation ----

  /** A start the timeline does not collect: the created_at of an override without start_at, or
      the start of a rotation whose zero-th handoff comes before it. */
  ghost predicate HiddenStart(s: Schedule, x: int) {
    || (exists i :: 0 <= i < |s.overrides| && s.overrides[i].startAt.Absent? && s.overrides[i].createdAt == At(x))
    || (s.rotation.Some? && s.rotation.value.Handoff(0, s.zone) < s.rotation.value.startAt == x)
  }

  lemma OverridesKeepAt(s: Schedule, o: int, x: int)
    requires !ChangePoint(s, o, x) && !HiddenStart(s, x)
    ensures WinnerBefore(s.overrides, x - 1, |s.overrides|) == WinnerBefore(s.overrides, x, |s.overrides|)
  {
    forall i | 0 <= i < |s.overrides| ensures s.overrides[i].ActiveAt(x - 1) == s.overrides[i].ActiveAt(x) {
      var v := s.overrides[i];
      assert v.startAt == At(x) || v.until == At(x) ==> OverridePoint(s, x);
    }
    SameActiveSameWinner(s.overrides, x - 1, x, |s.overrides|);
  }

  lemma RotationKeepsAt(s: Schedule, o: int, x: int)
    requires s.Valid() && Plain(s) && s.rotation.Some? && !ChangePoint(s, o, x) && !HiddenStart(s, x)
    ensures ParticipantAt(s.rotation.value, x - 1, s.zone) == ParticipantAt(s.rotation.value, x, s.zone)
  {
    hide Rotation.Handoff;
    var r, z := s.rotation.value, s.zone;
    assert Quiet(s, o, x - 1, x);
    PeriodKeepsIn(s, o, x - 1, x);
    if r.Handoff(0, z) >= r.startAt {
      StartedMeansPeriod(r, z, x - 1);
      StartedMeansPeriod(r, z, x);
    }
  }

  /** From one instant to the next the answer changes at change points and hidden starts only. */
  lemma AnswerKeepsAt(s: Schedule, o: int, x: int)
    requires s.Valid() && Plain(s) && !ChangePoint(s, o, x) && !HiddenStart(s, x)
    ensures ResolveAt(s, x - 1) == ResolveAt(s, x)
  {
    hide ChangePoint; hide HiddenStart;
    OverridesKeepAt(s, o, x);
    if s.rotation.Some? {
      hide ParticipantAt;
      RotationKeepsAt(s, o, x);
    } else {
      assert ShiftUsersBefore(s.shifts, x, 0) == ShiftUsersBefore(s.shifts, x - 1, 0);
    }
  }

  /** No hidden start strictly inside the window changes the answer away from a change point. */
  ghost predicate HiddenStartsSilent(s: Schedule, o: int, from: int, to: int)
    requires s.Valid()
  {
    forall x :: from < x < to && HiddenStart(s, x) && !ChangePoint(s, o, x) ==> ResolveAt(s, x - 1) == ResolveAt(s, x)
  }

  lemma {:induction false} SilentStretchKeeps(s: Schedule, o: int, from: int, to: int, t1: int, t2: int)
    requires s.Valid() && Plain(s) && HiddenStartsSilent(s, o, from, to)
    requires from <= t1 <= t2 < to && Quiet(s, o, t1, t2)
    ensures ResolveAt(s, t1) == ResolveAt(s, t2)
    decreases t2 - t1
  {
    hide ResolveAt; hide ChangePoint; hide HiddenStart;
    if t1 < t2 {
      SilentStretchKeeps(s, o, from, to, t1, t2 - 1);
      if !HiddenStart(s, t2) { AnswerKeepsAt(s, o, t2); }
    }
  }

  /** For any overrides over any unrestricted rotation or over nothing, the segments drawn are
      exact if and only if the finitely many hidden starts inside the window are silent. */
  lemma HiddenStartsDecide(s: Schedule, o: int, from: int, to: int, segs: seq<Segment>)
    requires s.Valid() && Plain(s) && from < to <= from + MAX_WINDOW && Drawn(s, o, from, to, segs)
    ensures IsTimeline(segs, Resolver(s), from, to) <==> HiddenStartsSilent(s, o, from, to)
  {
    hide ResolveAt; hide ChangePoint; hide HiddenStart; hide Drawn; hide IsTimeline;
    PlainTimelineExactIff(s, o, from, to, segs);
    if HiddenStartsSilent(s, o, from, to) {
      forall t1, t2 | from <= t1 <= t2 < to && Quiet(s, o, t1, t2) ensures ResolveAt(s, t1) == ResolveAt(s, t2) {
        SilentStretchKeeps(s, o, from, to, t1, t2);
      }
    }
    if PointsSuffice(s, o, from, to) {
      forall x | from < x < to && !ChangePoint(s, o, x) ensures ResolveAt(s, x - 1) == ResolveAt(s, x) {
        assert Quiet(s, o, x - 1, x);
      }
    }
  }
}
