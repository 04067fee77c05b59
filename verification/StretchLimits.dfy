/**
  Where the end of a stretch is not the end of a duty. ShiftEndFor reports when the answer
  changes; the user may still be on call after that, and here is exactly when.
 */
module StretchLimits {
  import opened Instants
  import opened Rotations
  import opened OnCall
  import opened Boundaries
  import opened Coverage

  /** The answer changes at `t` and the user is on call on both sides. */
  ghost predicate EndsEarly(s: Schedule, user: string, t: int)
    requires s.Valid()
  {
    ResolveAt(s, t - 1) != ResolveAt(s, t) && user in ResolveAt(s, t - 1).users && user in ResolveAt(s, t).users
  }

  // ---- overrides ----

  predicate Overridden(s: Schedule, t: int) {
    exists i :: 0 <= i < |s.overrides| && s.overrides[i].ActiveAt(t)
  }

  /** The override takes effect at `t`, or its last instant is the one before. */
  predicate Begins(v: Override, t: int) { v.EffectiveStart() == At(t) && v.until.At? && t < v.until.t }

  predicate Ends(v: Override, t: int) { v.EffectiveStart().At? && v.EffectiveStart().t < t && v.until == At(t) }

  lemma EdgesOfOverride(v: Override, t: int)
    ensures Begins(v, t) <==> v.ActiveAt(t) && !v.ActiveAt(t - 1)
    ensures Ends(v, t) <==> v.ActiveAt(t - 1) && !v.ActiveAt(t)
  {
  }

  lemma OverrideAnswers(s: Schedule, t: int)
    requires s.Valid() && s.enabled
    ensures Overridden(s, t) <==> ResolveAt(s, t).source == FromOverride
    ensures forall i :: Wins(s.overrides, t, i) ==> ResolveAt(s, t).users == [s.overrides[i].userId]
    ensures Overridden(s, t) ==> exists i :: Wins(s.overrides, t, i)
  {
    OverrideWinnerIsLatest(s.overrides, t);
  }

  /** An override of the user begins or ends at `t`, and nothing overrides on the other side. */
  ghost predicate OwnEdge(s: Schedule, user: string, t: int, i: int, before: bool) {
    && 0 <= i < |s.overrides| && s.overrides[i].userId == user
    && if before then Ends(s.overrides[i], t) && Wins(s.overrides, t - 1, i) && !Overridden(s, t)
       else Begins(s.overrides[i], t) && Wins(s.overrides, t, i) && !Overridden(s, t - 1)
  }

  /** One side is overridden with the user's name and the other is not, exactly at such an edge. */
  lemma OwnEdgeIff(s: Schedule, user: string, t: int)
    requires s.Valid() && s.enabled
    ensures (exists i :: OwnEdge(s, user, t, i, true)) <==>
      Overridden(s, t - 1) && !Overridden(s, t) && user in ResolveAt(s, t - 1).users
    ensures (exists i :: OwnEdge(s, user, t, i, false)) <==>
      !Overridden(s, t - 1) && Overridden(s, t) && user in ResolveAt(s, t).users
  {
    hide ResolveAt;
    OverrideAnswers(s, t - 1);
    OverrideAnswers(s, t);
    if Overridden(s, t - 1) && !Overridden(s, t) {
      var i :| Wins(s.overrides, t - 1, i);
      EdgesOfOverride(s.overrides[i], t);
      assert user in ResolveAt(s, t - 1).users ==> OwnEdge(s, user, t, i, true);
    }
    if !Overridden(s, t - 1) && Overridden(s, t) {
      var i :| Wins(s.overrides, t, i);
      EdgesOfOverride(s.overrides[i], t);
      assert user in ResolveAt(s, t).users ==> OwnEdge(s, user, t, i, false);
    }
  }

  // ---- rotations ----

  /** An override of the user begins or ends at `t` and the rotation names the user itself on
      the other side. */
  ghost predicate CoversOwnTurn(s: Schedule, user: string, t: int)
    requires s.Valid() && s.rotation.Some?
  {
    && user != ""
    && exists i, before :: OwnEdge(s, user, t, i, before) &&
         ParticipantAt(s.rotation.value, if before then t else t - 1, s.zone) == user
  }

  lemma RotationAnswers(s: Schedule, t: int)
    requires s.Valid() && s.enabled && s.rotation.Some? && !Overridden(s, t)
    ensures var uid := ParticipantAt(s.rotation.value, t, s.zone);
      ResolveAt(s, t) == if uid != "" then Answer([uid], FromRotation) else NOBODY
  {
    OverrideWinnerIsLatest(s.overrides, t);
  }

  /** Under a rotation a stretch ends before the duty exactly where people cover their own turn. */
  lemma RotationEndsEarlyIff(s: Schedule, user: string, t: int)
    requires s.Valid() && s.enabled && s.rotation.Some?
    ensures EndsEarly(s, user, t) <==> CoversOwnTurn(s, user, t)
  {
    hide ResolveAt; hide ParticipantAt; hide Overridden; hide OwnEdge;
    OwnEdgeIff(s, user, t);
    OverrideAnswers(s, t - 1);
    OverrideAnswers(s, t);
    if !Overridden(s, t) { RotationAnswers(s, t); }
    if !Overridden(s, t - 1) { RotationAnswers(s, t - 1); }
  }

  // ---- shifts ----

  predicate OnShift(s: Schedule, user: string, t: int) {
    exists j :: 0 <= j < |s.shifts| && s.shifts[j].userId == user && s.shifts[j].ActiveAt(t)
  }

  /** The users of the active shifts, in the order of the shifts. */
  function ShiftRoster(s: Schedule, t: int): seq<string> { ShiftUsersBefore(s.shifts, t, |s.shifts|) }

  lemma {:induction false} RosterHolds(shifts: seq<Shift>, user: string, t: int, k: nat)
    requires k <= |shifts|
    ensures user in ShiftUsersBefore(shifts, t, k) <==>
      exists j :: 0 <= j < k && shifts[j].userId == user && shifts[j].ActiveAt(t)
    decreases k
  {
    if k > 0 { RosterHolds(shifts, user, t, k - 1); }
  }

  lemma ShiftAnswers(s: Schedule, user: string, t: int)
    requires s.Valid() && s.enabled && s.rotation.None? && !Overridden(s, t)
    ensures ResolveAt(s, t) == if ShiftRoster(s, t) != [] then Answer(ShiftRoster(s, t), FromShift) else NOBODY
    ensures user in ResolveAt(s, t).users <==> OnShift(s, user, t)
  {
    OverrideWinnerIsLatest(s.overrides, t);
    RosterHolds(s.shifts, user, t, |s.shifts|);
  }

  /** The list of people on shift changes while the user is on shift before and after. */
  predicate ColleaguesChange(s: Schedule, user: string, t: int) {
    && !Overridden(s, t - 1) && !Overridden(s, t)
    && OnShift(s, user, t - 1) && OnShift(s, user, t) && ShiftRoster(s, t - 1) != ShiftRoster(s, t)
  }

  /** An override of the user begins or ends at `t` while the user is on shift on the other side. */
  ghost predicate CoversOwnShift(s: Schedule, user: string, t: int) {
    exists i, before :: OwnEdge(s, user, t, i, before) && OnShift(s, user, if before then t else t - 1)
  }

  /** Under shifts a stretch ends before the duty exactly where colleagues join or leave, or
      people cover their own shift. */
  lemma ShiftsEndEarlyIff(s: Schedule, user: string, t: int)
    requires s.Valid() && s.enabled && s.rotation.None?
    ensures EndsEarly(s, user, t) <==> ColleaguesChange(s, user, t) || CoversOwnShift(s, user, t)
  {
    hide ResolveAt; hide Overridden; hide OwnEdge; hide OnShift; hide ShiftRoster;
    OwnEdgeIff(s, user, t);
    OverrideAnswers(s, t - 1);
    OverrideAnswers(s, t);
    if !Overridden(s, t) { ShiftAnswers(s, user, t); }
    if !Overridden(s, t - 1) { ShiftAnswers(s, user, t - 1); }
  }

  // ---- the reported end ----

  /** What decides whether a user whose stretch ends at `t` stays on call. */
  ghost predicate StaysOn(s: Schedule, user: string, t: int)
    requires s.Valid()
  {
    s.enabled &&
    if s.rotation.Some? then CoversOwnTurn(s, user, t)
    else ColleaguesChange(s, user, t) || CoversOwnShift(s, user, t)
  }

  lemma EndsEarlyIff(s: Schedule, user: string, t: int)
    requires s.Valid()
    ensures EndsEarly(s, user, t) <==> StaysOn(s, user, t)
  {
    hide CoversOwnTurn; hide CoversOwnShift; hide ColleaguesChange;
    if s.enabled {
      hide ResolveAt;
      if s.rotation.Some? { RotationEndsEarlyIff(s, user, t); } else { ShiftsEndEarlyIff(s, user, t); }
    }
  }

  /** The end that ShiftEndFor reports, short of its horizon, comes before the end of the duty
      if and only if that condition holds there. */
  lemma ReportedEndIsEarlyIff(s: Schedule, user: string, at: int, end: int)
    requires s.Valid() && StretchEnds(s, user, at, end, true) && end < at + HORIZON
    ensures user in ResolveAt(s, end).users <==> StaysOn(s, user, end)
  {
    hide ResolveAt; hide StaysOn;
    EndsEarlyIff(s, user, end);
    assert ResolveAt(s, end - 1) == ResolveAt(s, at);
  }

  // ---- it happens ----

  /** A ten-hour shift that a colleague joins after five hours, for three. */
  function JoinedShifts(): Schedule {
    Schedule(true, Zone(t => 0), [], None,
             [Shift("long", At(0), At(10 * HOUR), Once), Shift("short", At(5 * HOUR), At(8 * HOUR), Once)])
  }

  lemma JoinedAnswer(t: int)
    requires 0 <= t <= 5 * HOUR
    ensures ResolveAt(JoinedShifts(), t) ==
      Answer(if t < 5 * HOUR then ["long"] else ["long", "short"], FromShift)
  {
    var shifts := JoinedShifts().shifts;
    assert WinnerBefore(JoinedShifts().overrides, t, 0) == -1;
    assert shifts[0].ActiveAt(t) && (shifts[1].ActiveAt(t) <==> t >= 5 * HOUR);
    assert ShiftUsersBefore(shifts, t, 0) == [];
    assert ShiftUsersBefore(shifts, t, 1) == ["long"];
  }

  /** Whatever ShiftEndFor reports for the longer shift as it begins, it is the moment the
      colleague joins, when the user stays on call. */
  lemma JoinedStretchEndsEarly(end: int, ok: bool)
    requires StretchEnds(JoinedShifts(), "long", 0, end, ok)
    ensures ok && end == 5 * HOUR && "long" in ResolveAt(JoinedShifts(), end).users
    ensures Tracked(JoinedShifts(), 0, 0, HORIZON)
  {
    hide ResolveAt;
    JoinedAnswer(0);
    JoinedAnswer(5 * HOUR);
    assert ["long"][0] == "long" && ["long", "short"][0] == "long";
    assert |["long"]| != |["long", "short"]|;
    if end < 5 * HOUR { JoinedAnswer(end); }
  }

  /** A rotation of one, whose only participant also overrides it. */
  function SelfCovered(): Schedule {
    Schedule(true, Zone(t => 0), [Override("ann", At(10 * HOUR), At(20 * HOUR), At(0))],
             Some(Rotation(true, HOUR, 1, Hours, ["ann"], None)), [])
  }

  /** It happens under a rotation, too: the stretch ends where the override begins. */
  lemma SelfCoveredEndsEarly()
    ensures SelfCovered().Valid() && EndsEarly(SelfCovered(), "ann", 10 * HOUR)
  {
    var s, t := SelfCovered(), 10 * HOUR;
    var r, z := s.rotation.value, s.zone;
    var n := PeriodNumber(r, t - 1, z);
    if n + 1 < 0 { HandoffsIncrease(r, z, n + 1, 0); }
    assert n >= 0;
    assert ParticipantAt(r, t - 1, z) == r.participants[0];
    assert WinnerBefore(s.overrides, t - 1, 1) == -1 && WinnerBefore(s.overrides, t, 1) == 0;
    assert ["ann"][0] == "ann";
  }
}
