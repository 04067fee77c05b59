/**
  The instants at which the on-call answer may change, and the proof that it can
  change nowhere else.
 */
module Boundaries {
  import opened Instants
  import opened Rotations
  import opened OnCall

  const MAX_WINDOW: int := 180 * DAY
  const MAX_BOUNDARY_POINTS: int := 50000

  // ---- what can change the answer ----

  ghost predicate OverridePoint(s: Schedule, x: int) {
    exists i :: 0 <= i < |s.overrides| && (s.overrides[i].startAt == At(x) || s.overrides[i].until == At(x))
  }

  ghost predicate HandoffPoint(r: Rotation, z: Zone, x: int) {
    exists n :: 0 <= n && r.Handoff(n, z) == x
  }

  /** The wall clock instant of minute `m` of local day `d`, seen from offset `o`. */
  function EdgeAt(d: int, m: int, o: int): int { d * DAY + m * MINUTE - o }

  ghost predicate EdgePoint(res: Restriction, o: int, x: int) {
    exists d :: x == EdgeAt(d, res.startMinute, o) || x == EdgeAt(d, res.endMinute, o)
  }

  /** Start of the k-th occurrence of a recurring shift. */
  function OccurrenceAt(start: int, period: int, k: int): int { start + k * period }

  ghost predicate ShiftPoint(sh: Shift, x: int) {
    sh.startAt.At? && sh.endAt.At? &&
    if sh.recurrence == Once then x == sh.startAt.t || x == sh.endAt.t
    else
      var d := sh.endAt.t - sh.startAt.t;
      exists k :: 0 <= k && (
        x == OccurrenceAt(sh.startAt.t, sh.RecurrencePeriod(), k) ||
        (0 < d < sh.RecurrencePeriod() && x == OccurrenceAt(sh.startAt.t, sh.RecurrencePeriod(), k) + d))
  }

  ghost predicate ChangePoint(s: Schedule, o: int, x: int)
  {
    || OverridePoint(s, x)
    || (s.rotation.Some? && HandoffPoint(s.rotation.value, s.zone, x))
    || (s.rotation.Some? && s.rotation.value.restriction.Some? && EdgePoint(s.rotation.value.restriction.value, o, x))
    || (s.rotation.None? && exists i :: 0 <= i < |s.shifts| && ShiftPoint(s.shifts[i], x))
  }

  ghost predicate Quiet(s: Schedule, o: int, t1: int, t2: int) {
    forall x :: t1 < x <= t2 ==> !ChangePoint(s, o, x)
  }

  /** What the boundaries need of a schedule beyond validity: every override has its
      start_at, the rotation's zero-th handoff is not before its start (only a start
      inside a repeated wall-clock hour can break that), and around a restricted window
      the zone keeps the one offset `o`. */
  ghost predicate Tracked(s: Schedule, o: int, from: int, to: int) {
    && s.Valid()
    && (forall i :: 0 <= i < |s.overrides| ==> !s.overrides[i].startAt.Absent?)
    && (s.rotation.Some? ==>
         && s.rotation.value.Handoff(0, s.zone) >= s.rotation.value.startAt
         && (s.rotation.value.restriction.Some? ==> s.zone.SteadyAt(o, from - 3 * DAY, to + 3 * DAY)))
  }

  ghost predicate ExactOver(s: Schedule, o: int, from: int, to: int) {
    Tracked(s, o, from, to) && to - from <= MAX_WINDOW
  }

  /** Every change point of the window is collected: the guards do not trip and around a
      restricted window the zone keeps the one offset `o`. */
  ghost predicate Collects(s: Schedule, o: int, from: int, to: int) {
    && s.Valid() && to - from <= MAX_WINDOW
    && (s.rotation.Some? && s.rotation.value.restriction.Some? ==> s.zone.SteadyAt(o, from - 3 * DAY, to + 3 * DAY))
  }

  /** Within the window the answer never changes away from a change point. */
  ghost predicate PointsSuffice(s: Schedule, o: int, from: int, to: int)
    requires s.Valid()
  {
    forall t1, t2 :: from <= t1 <= t2 < to && Quiet(s, o, t1, t2) ==> ResolveAt(s, t1) == ResolveAt(s, t2)
  }

  /** Overrides over an unrestricted rotation or over nothing: every point collected for such a
      schedule is a change point. */
  predicate Plain(s: Schedule) {
    if s.rotation.Some? then s.rotation.value.restriction.None? else s.shifts == []
  }

  // ---- between change points nothing changes ----

  lemma {:induction false} SameActiveSameWinner(ovs: seq<Override>, t1: int, t2: int, k: nat)
    requires k <= |ovs|
    requires forall i :: 0 <= i < k ==> ovs[i].ActiveAt(t1) == ovs[i].ActiveAt(t2)
    ensures WinnerBefore(ovs, t1, k) == WinnerBefore(ovs, t2, k)
  {
    if k > 0 { SameActiveSameWinner(ovs, t1, t2, k - 1); }
  }

  lemma {:induction false} SameActiveSameShifts(shifts: seq<Shift>, t1: int, t2: int, k: nat)
    requires k <= |shifts|
    requires forall i :: 0 <= i < k ==> shifts[i].ActiveAt(t1) == shifts[i].ActiveAt(t2)
    ensures ShiftUsersBefore(shifts, t1, k) == ShiftUsersBefore(shifts, t2, k)
  {
    if k > 0 { SameActiveSameShifts(shifts, t1, t2, k - 1); }
  }

  lemma OverridesKeep(s: Schedule, o: int, t1: int, t2: int)
    requires t1 <= t2 && Quiet(s, o, t1, t2)
    requires forall i :: 0 <= i < |s.overrides| ==> !s.overrides[i].startAt.Absent?
    ensures WinnerBefore(s.overrides, t1, |s.overrides|) == WinnerBefore(s.overrides, t2, |s.overrides|)
  {
    forall i | 0 <= i < |s.overrides|
      ensures s.overrides[i].ActiveAt(t1) == s.overrides[i].ActiveAt(t2)
    {
      var v := s.overrides[i];
      if v.startAt.At? && v.until.At? {
        assert OverridePoint(s, v.startAt.t) && OverridePoint(s, v.until.t);
        assert ChangePoint(s, o, v.startAt.t) && ChangePoint(s, o, v.until.t);
      }
    }
    SameActiveSameWinner(s.overrides, t1, t2, |s.overrides|);
  }

  /** Between handoffs the period number stays, or stays negative. */
  lemma PeriodKeeps(r: Rotation, z: Zone, t1: int, t2: int)
    requires r.Regular(z) && t1 <= t2
    requires forall n :: 0 <= n ==> !(t1 < r.Handoff(n, z) <= t2)
    ensures var n1, n2 := PeriodNumber(r, t1, z), PeriodNumber(r, t2, z);
      n1 == n2 || (n1 < 0 && n2 < 0)
  {
    hide Rotation.Handoff;
    var n1, n2 := PeriodNumber(r, t1, z), PeriodNumber(r, t2, z);
    if n1 < n2 && n2 >= 0 {
      if n1 + 1 < n2 { HandoffsIncrease(r, z, n1 + 1, n2); }
    } else if n2 < n1 {
      if n2 + 1 < n1 { HandoffsIncrease(r, z, n2 + 1, n1); }
    }
  }

  lemma SplitLocal(l: int)
    ensures l == (l / DAY) * DAY + l % DAY && 0 <= l % DAY < DAY
    ensures MinuteOfDay(l) * MINUTE <= l % DAY < (MinuteOfDay(l) + 1) * MINUTE
  {
  }

  /** A reading before an edge of its day, or not, in minutes. */
  lemma EdgeSide(l: int, m: int)
    requires 0 <= m < 1440
    ensures MinuteOfDay(l) < m <==> l < (l / DAY) * DAY + m * MINUTE
  {
    SplitLocal(l);
  }

  /** On one local day the verdict depends only on which edges have passed. */
  lemma WindowKeepsSameDay(res: Restriction, l1: int, l2: int)
    requires res.Valid() && l1 / DAY == l2 / DAY
    requires l1 < l1 / DAY * DAY + res.startMinute * MINUTE <==> l2 < l2 / DAY * DAY + res.startMinute * MINUTE
    requires l1 < l1 / DAY * DAY + res.endMinute * MINUTE <==> l2 < l2 / DAY * DAY + res.endMinute * MINUTE
    ensures WindowAllows(res, l1) == WindowAllows(res, l2)
  {
    EdgeSide(l1, res.startMinute); EdgeSide(l1, res.endMinute);
    EdgeSide(l2, res.startMinute); EdgeSide(l2, res.endMinute);
  }

  /** Past both edges of one day and before both of the next, an overnight window is still the
      window of the first day. */
  lemma WindowKeepsNextDay(res: Restriction, l1: int, l2: int)
    requires res.Valid() && l2 / DAY == l1 / DAY + 1
    requires l1 / DAY * DAY + res.startMinute * MINUTE <= l1 && l1 / DAY * DAY + res.endMinute * MINUTE <= l1
    requires l2 < l2 / DAY * DAY + res.startMinute * MINUTE && l2 < l2 / DAY * DAY + res.endMinute * MINUTE
    ensures WindowAllows(res, l1) == WindowAllows(res, l2)
  {
    EdgeSide(l1, res.startMinute); EdgeSide(l1, res.endMinute);
    EdgeSide(l2, res.startMinute); EdgeSide(l2, res.endMinute);
    assert (WeekdayOf(l2) + 6) % 7 == WeekdayOf(l1);
  }

  /** Midnight needs no boundary of its own: if no window edge lies in between, both
      readings get the same verdict even across a change of weekday. */
  lemma WindowKeeps(res: Restriction, o: int, t1: int, t2: int)
    requires res.Valid() && t1 <= t2
    requires forall x :: t1 < x <= t2 ==> !EdgePoint(res, o, x)
    ensures WindowAllows(res, t1 + o) == WindowAllows(res, t2 + o)
  {
    hide WindowAllows;
    var l1, l2 := t1 + o, t2 + o;
    var d1, d2 := l1 / DAY, l2 / DAY;
    SplitLocal(l1);
    SplitLocal(l2);
    NoEdge(res, o, t1, t2, d1);
    NoEdge(res, o, t1, t2, d2);
    if d1 == d2 {
      WindowKeepsSameDay(res, l1, l2);
    } else {
      NoEdge(res, o, t1, t2, d1 + 1);
      WindowKeepsNextDay(res, l1, l2);
    }
  }

  lemma NoEdge(res: Restriction, o: int, t1: int, t2: int, d: int)
    requires forall x :: t1 < x <= t2 ==> !EdgePoint(res, o, x)
    ensures !(t1 < EdgeAt(d, res.startMinute, o) <= t2)
    ensures !(t1 < EdgeAt(d, res.endMinute, o) <= t2)
  {
    assert EdgePoint(res, o, EdgeAt(d, res.startMinute, o));
    assert EdgePoint(res, o, EdgeAt(d, res.endMinute, o));
  }

  /** The occurrence holding an instant, by division. */
  lemma OccurrenceHolding(st: int, p: int, t: int)
    requires 0 < p && st <= t
    ensures var k := (t - st) / p;
      && 0 <= k
      && OccurrenceAt(st, p, k) + (t - st) % p == t
      && OccurrenceAt(st, p, k) <= t < OccurrenceAt(st, p, k) + p
  {
  }

  lemma OccurrencesIncrease(st: int, p: int, k: int, m: int)
    requires 0 < p && k < m
    ensures OccurrenceAt(st, p, k) + p <= OccurrenceAt(st, p, m)
  {
    MulMono(k + 1, m, p);
  }

  /** With no occurrence starting in (t1, t2], both instants lie in the same one. */
  lemma SameOccurrence(st: int, p: int, t1: int, t2: int)
    requires 0 < p && st <= t1 <= t2
    requires forall k :: 0 <= k ==> !(t1 < OccurrenceAt(st, p, k) <= t2)
    ensures (t1 - st) / p == (t2 - st) / p
  {
    hide OccurrenceAt;
    OccurrenceHolding(st, p, t1);
    OccurrenceHolding(st, p, t2);
    var k1, k2 := (t1 - st) / p, (t2 - st) / p;
    if k1 < k2 { OccurrencesIncrease(st, p, k1, k2); }
    if k2 < k1 { OccurrencesIncrease(st, p, k2, k1); }
  }

  /** A recurring shift: the phase passes zero or the duration only at an occurrence point. */
  lemma RecurringKeeps(sh: Shift, t1: int, t2: int)
    requires sh.startAt.At? && sh.endAt.At? && sh.recurrence != Once && t1 <= t2
    requires forall x :: t1 < x <= t2 ==> !ShiftPoint(sh, x)
    ensures sh.ActiveAt(t1) == sh.ActiveAt(t2)
  {
    var st, p, d := sh.startAt.t, sh.RecurrencePeriod(), sh.endAt.t - sh.startAt.t;
    forall k | 0 <= k ensures !(t1 < OccurrenceAt(st, p, k) <= t2) {
      assert ShiftPoint(sh, OccurrenceAt(st, p, k));
    }
    assert OccurrenceAt(st, p, 0) == st;
    if st <= t1 {
      SameOccurrence(st, p, t1, t2);
      var k := (t1 - st) / p;
      OccurrenceHolding(st, p, t1);
      OccurrenceHolding(st, p, t2);
      if 0 < d < p {
        assert ShiftPoint(sh, OccurrenceAt(st, p, k) + d);
      }
    }
  }

  lemma ShiftsKeep(s: Schedule, o: int, t1: int, t2: int)
    requires s.rotation.None? && t1 <= t2 && Quiet(s, o, t1, t2)
    ensures ShiftUsersBefore(s.shifts, t1, |s.shifts|) == ShiftUsersBefore(s.shifts, t2, |s.shifts|)
  {
    forall i | 0 <= i < |s.shifts|
      ensures s.shifts[i].ActiveAt(t1) == s.shifts[i].ActiveAt(t2)
    {
      var sh := s.shifts[i];
      if sh.startAt.At? && sh.endAt.At? {
        forall x | t1 < x <= t2 ensures !ShiftPoint(sh, x) {
          assert !ChangePoint(s, o, x);
        }
        if sh.recurrence == Once {
          assert ShiftPoint(sh, sh.startAt.t) && ShiftPoint(sh, sh.endAt.t);
        } else {
          RecurringKeeps(sh, t1, t2);
        }
      }
    }
    SameActiveSameShifts(s.shifts, t1, t2, |s.shifts|);
  }

  lemma PeriodKeepsIn(s: Schedule, o: int, t1: int, t2: int)
    requires s.Valid() && s.rotation.Some? && t1 <= t2 && Quiet(s, o, t1, t2)
    ensures var n1, n2 := PeriodNumber(s.rotation.value, t1, s.zone), PeriodNumber(s.rotation.value, t2, s.zone);
      n1 == n2 || (n1 < 0 && n2 < 0)
  {
    hide Rotation.Handoff;
    var r, z := s.rotation.value, s.zone;
    forall n | 0 <= n ensures !(t1 < r.Handoff(n, z) <= t2) {
      var x := r.Handoff(n, z);
      assert HandoffPoint(r, z, x);
      assert ChangePoint(s, o, x);
    }
    PeriodKeeps(r, z, t1, t2);
  }

  lemma RestrictionKeeps(s: Schedule, o: int, from: int, to: int, t1: int, t2: int)
    requires Tracked(s, o, from, to) && from <= t1 <= t2 <= to && Quiet(s, o, t1, t2)
    requires s.rotation.Some?
    ensures RestrictionAllows(s.rotation.value, t1, s.zone) == RestrictionAllows(s.rotation.value, t2, s.zone)
  {
    var r := s.rotation.value;
    if r.restriction.Some? {
      forall x | t1 < x <= t2 ensures !EdgePoint(r.restriction.value, o, x) {
        assert !ChangePoint(s, o, x);
      }
      WindowKeeps(r.restriction.value, o, t1, t2);
    }
  }

  lemma RotationKeeps(s: Schedule, o: int, from: int, to: int, t1: int, t2: int)
    requires Tracked(s, o, from, to) && from <= t1 <= t2 <= to && Quiet(s, o, t1, t2)
    requires s.rotation.Some?
    ensures ParticipantAt(s.rotation.value, t1, s.zone) == ParticipantAt(s.rotation.value, t2, s.zone)
  {
    PeriodKeepsIn(s, o, t1, t2);
    RestrictionKeeps(s, o, from, to, t1, t2);
    StartedMeansPeriod(s.rotation.value, s.zone, t1);
    StartedMeansPeriod(s.rotation.value, s.zone, t2);
  }

  /** Where the zero-th handoff is not before the start, a non-negative period is a started one. */
  lemma StartedMeansPeriod(r: Rotation, z: Zone, at: int)
    requires r.Regular(z) && r.Handoff(0, z) >= r.startAt
    ensures PeriodNumber(r, at, z) >= 0 ==> at >= r.startAt
  {
    var n := PeriodNumber(r, at, z);
    if n > 0 { HandoffsIncrease(r, z, 0, n); }
  }

  /** With no change point in (t1, t2] the answer at t2 is the answer at t1. */
  lemma QuietKeepsAnswer(s: Schedule, o: int, from: int, to: int, t1: int, t2: int)
    requires Tracked(s, o, from, to) && from <= t1 <= t2 <= to && Quiet(s, o, t1, t2)
    ensures ResolveAt(s, t1) == ResolveAt(s, t2)
  {
    OverridesKeep(s, o, t1, t2);
    if s.rotation.Some? {
      RotationKeeps(s, o, from, to, t1, t2);
    } else {
      ShiftsKeep(s, o, t1, t2);
    }
  }

  lemma TrackedPointsSuffice(s: Schedule, o: int, from: int, to: int)
    requires Tracked(s, o, from, to)
    ensures PointsSuffice(s, o, from, to)
  {
    hide ResolveAt; hide Quiet;
    forall t1, t2 | from <= t1 <= t2 < to && Quiet(s, o, t1, t2) ensures ResolveAt(s, t1) == ResolveAt(s, t2) {
      QuietKeepsAnswer(s, o, from, to, t1, t2);
    }
  }

  // ---- collecting the points ----

  predicate Within(points: seq<int>, from: int, to: int) {
    forall i :: 0 <= i < |points| ==> from <= points[i] <= to
  }

  /** The source's `add`: keep a point that lies in the window. */
  function Add(points: seq<int>, t: int, from: int, to: int): (r: seq<int>)
    ensures Within(points, from, to) ==> Within(r, from, to)
    ensures forall x :: x in r <==> x in points || (x == t && from <= t <= to)
  {
    if from <= t <= to then points + [t] else points
  }

  method OverridePoints(s: Schedule, from: int, to: int) returns (points: seq<int>)
    ensures Within(points, from, to)
    ensures forall x :: x in points <==> from <= x <= to && OverridePoint(s, x)
  {
    points := [];
    for i := 0 to |s.overrides|
      invariant Within(points, from, to)
      invariant forall j, x :: 0 <= j < i && from <= x <= to ==>
        s.overrides[j].startAt == At(x) || s.overrides[j].until == At(x) ==> x in points
      invariant forall x :: x in points ==> OverridePoint(s, x)
    {
      var v := s.overrides[i];
      if v.startAt.At? { points := Add(points, v.startAt.t, from, to); }
      if v.until.At? { points := Add(points, v.until.t, from, to); }
    }
  }

  /** The guard of the handoff loop cannot trip inside the largest window. */
  lemma HandoffGuard(r: Rotation, z: Zone, from: int, to: int, n: int)
    requires r.Regular(z) && to - from <= MAX_WINDOW && r.Handoff(n + 1, z) > from
    ensures r.Handoff(n + MAX_BOUNDARY_POINTS - 1, z) > to
  {
    PeriodPositive(r);
    HandoffSpacing(r, z, n + 1, n + MAX_BOUNDARY_POINTS - 1);
    assert (MAX_BOUNDARY_POINTS - 2) * r.Period() - r.Period() == (MAX_BOUNDARY_POINTS - 3) * r.Period();
    MulMono(HOUR, r.Period(), MAX_BOUNDARY_POINTS - 3);
  }

  method HandoffPoints(r: Rotation, z: Zone, from: int, to: int) returns (points: seq<int>)
    requires r.Regular(z)
    ensures Within(points, from, to)
    ensures forall x :: x in points ==> HandoffPoint(r, z, x)
    ensures to - from <= MAX_WINDOW ==> forall x :: from <= x <= to && HandoffPoint(r, z, x) ==> x in points
  {
    hide Rotation.Handoff;
    points := [];
    var n := PeriodIndex(r, from, z);
    if n < 0 {
      if n + 1 < 0 { HandoffsIncrease(r, z, n + 1, 0); }
      n := 0;
      HandoffsIncrease(r, z, 0, 1);
    }
    assert r.Handoff(n + 1, z) > from;
    var i := 0;
    while i < MAX_BOUNDARY_POINTS && r.Handoff(n + i, z) <= to
      invariant 0 <= i <= MAX_BOUNDARY_POINTS
      invariant Within(points, from, to)
      invariant forall x :: x in points ==> HandoffPoint(r, z, x)
      invariant i > 0 ==> r.Handoff(n + i - 1, z) <= to
      invariant forall m :: n <= m < n + i && from <= r.Handoff(m, z) <= to ==> r.Handoff(m, z) in points
    {
      points := Add(points, r.Handoff(n + i, z), from, to);
      i := i + 1;
    }
    if to - from <= MAX_WINDOW {
      HandoffGuard(r, z, from, to, n);
      assert i < MAX_BOUNDARY_POINTS;
      forall x | from <= x <= to && HandoffPoint(r, z, x) ensures x in points {
        var m :| 0 <= m && r.Handoff(m, z) == x;
        if m < n { HandoffsIncrease(r, z, m, n); }
        if n + i < m { HandoffsIncrease(r, z, n + i, m); }
      }
    }
  }

  /** In a steady stretch the calendar steps of the edge loop are plain additions. */
  lemma SteadyWall(z: Zone, o: int, lo: int, hi: int, w: int)
    requires z.SteadyAt(o, lo, hi) && lo <= w <= hi && lo <= w - o <= hi
    ensures z.FromWall(w) == w - o
  {
  }

  /** One turn of the edge loop: the edges of local day (from - DAY + o) / DAY + i. */
  lemma EdgeStep(z: Zone, o: int, from: int, to: int, i: int, m: int)
    requires from <= to && z.SteadyAt(o, from - 3 * DAY, to + 3 * DAY) && 0 <= i
    requires from - DAY + i * DAY <= to + DAY
    ensures var day := from - DAY + i * DAY;
      && z.FromWall(z.Wall(day) / DAY * DAY) + m * MINUTE == EdgeAt((from - DAY + o) / DAY + i, m, o)
      && z.FromWall(z.Wall(day) + DAY) == from - DAY + (i + 1) * DAY
  {
    var day := from - DAY + i * DAY;
    assert z.Wall(day) == day + o;
    assert (day + o) / DAY == (from - DAY + o) / DAY + i;
    SteadyWall(z, o, from - 3 * DAY, to + 3 * DAY, (day + o) / DAY * DAY);
    SteadyWall(z, o, from - 3 * DAY, to + 3 * DAY, day + o + DAY);
  }

  /** The two edges of the local day holding `day`: its midnight plus the window's minutes. */
  function AddDayEdges(points: seq<int>, res: Restriction, z: Zone, day: int, from: int, to: int): (r: seq<int>)
    ensures Within(points, from, to) ==> Within(r, from, to)
  {
    var midnight := z.FromWall(z.Wall(day) / DAY * DAY);
    Add(Add(points, midnight + res.startMinute * MINUTE, from, to), midnight + res.endMinute * MINUTE, from, to)
  }

  /** The loop has taken `i` calendar steps from a day before the window. */
  ghost predicate Walked(res: Restriction, z: Zone, o: int, from: int, to: int, i: int, day: int, points: seq<int>) {
    day == from - DAY + i * DAY && day <= to + 2 * DAY && EdgesUpTo(res, o, from, to, i, points)
  }

  lemma EdgeTurn(res: Restriction, z: Zone, o: int, from: int, to: int, i: int, day: int, points: seq<int>)
    requires from <= to && z.SteadyAt(o, from - 3 * DAY, to + 3 * DAY) && 0 <= i
    requires Walked(res, z, o, from, to, i, day, points) && day <= to + DAY
    ensures Walked(res, z, o, from, to, i + 1, z.FromWall(z.Wall(day) + DAY),
      AddDayEdges(points, res, z, day, from, to))
  {
    EdgeStep(z, o, from, to, i, res.startMinute);
    EdgeStep(z, o, from, to, i, res.endMinute);
    EdgesGrow(res, o, from, to, i, points, AddDayEdges(points, res, z, day, from, to));
  }

  lemma SteadyEnds(z: Zone, o: int, from: int, to: int)
    requires from <= to && z.SteadyAt(o, from - 3 * DAY, to + 3 * DAY)
    ensures z.FromWall(z.Wall(from) - DAY) == from - DAY
    ensures z.FromWall(z.Wall(to) + DAY) == to + DAY
  {
    SteadyWall(z, o, from - 3 * DAY, to + 3 * DAY, from + o - DAY);
    SteadyWall(z, o, from - 3 * DAY, to + 3 * DAY, to + o + DAY);
  }

  method RestrictionPoints(res: Restriction, z: Zone, ghost o: int, from: int, to: int) returns (points: seq<int>)
    requires res.Valid() && from <= to
    ensures Within(points, from, to)
    ensures to - from <= MAX_WINDOW && z.SteadyAt(o, from - 3 * DAY, to + 3 * DAY) ==>
      forall x :: from <= x <= to && EdgePoint(res, o, x) ==> x in points
  {
    ghost var steady := to - from <= MAX_WINDOW && z.SteadyAt(o, from - 3 * DAY, to + 3 * DAY);
    points := [];
    var day := z.FromWall(z.Wall(from) - DAY);
    var last := z.FromWall(z.Wall(to) + DAY);
    if steady {
      SteadyEnds(z, o, from, to);
    }
    var i := 0;
    while i < MAX_BOUNDARY_POINTS && day <= last
      invariant 0 <= i <= MAX_BOUNDARY_POINTS
      invariant Within(points, from, to)
      invariant steady ==> last == to + DAY && Walked(res, z, o, from, to, i, day, points)
    {
      if steady {
        EdgeTurn(res, z, o, from, to, i, day, points);
      }
      points := AddDayEdges(points, res, z, day, from, to);
      day := z.FromWall(z.Wall(day) + DAY);
      i := i + 1;
    }
    if steady {
      EdgesCollected(res, o, from, to, i, points);
    }
  }

  lemma EdgesGrow(res: Restriction, o: int, from: int, to: int, i: int, before: seq<int>, after: seq<int>)
    requires EdgesUpTo(res, o, from, to, i, before)
    requires forall x :: x in before ==> x in after
    requires var d := (from - DAY + o) / DAY + i;
      (from <= EdgeAt(d, res.startMinute, o) <= to ==> EdgeAt(d, res.startMinute, o) in after) &&
      (from <= EdgeAt(d, res.endMinute, o) <= to ==> EdgeAt(d, res.endMinute, o) in after)
    ensures EdgesUpTo(res, o, from, to, i + 1, after)
  {
  }

  ghost predicate EdgesUpTo(res: Restriction, o: int, from: int, to: int, i: int, points: seq<int>) {
    forall d :: (from - DAY + o) / DAY <= d < (from - DAY + o) / DAY + i ==>
      (from <= EdgeAt(d, res.startMinute, o) <= to ==> EdgeAt(d, res.startMinute, o) in points) &&
      (from <= EdgeAt(d, res.endMinute, o) <= to ==> EdgeAt(d, res.endMinute, o) in points)
  }

  /** The days walked, one of slack on each side, hold every edge of the window. */
  lemma EdgesCollected(res: Restriction, o: int, from: int, to: int, i: int, points: seq<int>)
    requires res.Valid() && from <= to
    requires from - DAY + i * DAY > to + DAY
    requires EdgesUpTo(res, o, from, to, i, points)
    ensures forall x :: from <= x <= to && EdgePoint(res, o, x) ==> x in points
  {
    forall x | from <= x <= to && EdgePoint(res, o, x) ensures x in points {
      var d :| x == EdgeAt(d, res.startMinute, o) || x == EdgeAt(d, res.endMinute, o);
      assert (from - DAY + o) / DAY <= d < (from - DAY + o) / DAY + i;
    }
  }

  method ShiftPoints(sh: Shift, from: int, to: int) returns (points: seq<int>)
    requires from <= to
    ensures Within(points, from, to)
    ensures to - from <= MAX_WINDOW ==> forall x :: from <= x <= to && ShiftPoint(sh, x) ==> x in points
  {
    points := [];
    if !sh.startAt.At? || !sh.endAt.At? { return; }
    var start, end := sh.startAt.t, sh.endAt.t;
    var period := sh.RecurrencePeriod();
    if period == 0 {
      points := Add(points, start, from, to);
      points := Add(points, end, from, to);
      return;
    }
    ghost var k0, i;
    points, k0, i := RecurringPoints(start, end - start, period, from, to);
    if to - from <= MAX_WINDOW {
      OccurrencesCollected(sh, from, to, k0, i, points);
    }
  }

  /** The occurrence loop: it starts at the occurrence holding `from` and its guard never
      trips in the largest window, so it walks past `to`. */
  method RecurringPoints(start: int, duration: int, period: int, from: int, to: int)
    returns (points: seq<int>, ghost k0: int, ghost i: int)
    requires from <= to && DAY <= period <= WEEK
    ensures Within(points, from, to)
    ensures 0 <= k0 && 0 <= i && (k0 > 0 ==> OccurrenceAt(start, period, k0) <= from)
    ensures OccurrencesUpTo(start, period, duration, from, to, k0, i, points)
    ensures to - from <= MAX_WINDOW ==> OccurrenceAt(start, period, k0 + i) > to
  {
    points := [];
    hide OccurrenceAt;
    var skipped := Skipped(start, period, from);
    var occurrence := OccurrenceAt(start, period, skipped);
    k0 := skipped;
    var n := 0;
    while n < MAX_BOUNDARY_POINTS && occurrence <= to
      invariant 0 <= n <= MAX_BOUNDARY_POINTS
      invariant Within(points, from, to)
      invariant occurrence == OccurrenceAt(start, period, k0 + n)
      invariant occurrence > from - period + n * DAY
      invariant n > 0 ==> occurrence - period <= to
      invariant OccurrencesUpTo(start, period, duration, from, to, k0, n, points)
    {
      var next := Add(Add(points, occurrence, from, to), occurrence + duration, from, to);
      OccurrencesGrow(start, period, duration, from, to, k0, n, points, next);
      NextOccurrence(start, period, k0 + n);
      points := next;
      occurrence := occurrence + period;
      n := n + 1;
    }
    i := n;
  }

  /** How many whole occurrences lie before the window. */
  function Skipped(start: int, period: int, from: int): (k: int)
    requires 0 < period
    ensures 0 <= k && from - period < OccurrenceAt(start, period, k)
    ensures k > 0 ==> OccurrenceAt(start, period, k) <= from
  {
    if start < from then
      OccurrenceHolding(start, period, from);
      (from - start) / period
    else 0
  }

  lemma OccurrencesGrow(start: int, period: int, duration: int, from: int, to: int, k0: int, i: int,
                        before: seq<int>, after: seq<int>)
    requires OccurrencesUpTo(start, period, duration, from, to, k0, i, before)
    requires forall x :: x in before ==> x in after
    requires var x := OccurrenceAt(start, period, k0 + i);
      (from <= x <= to ==> x in after) && (from <= x + duration <= to ==> x + duration in after)
    ensures OccurrencesUpTo(start, period, duration, from, to, k0, i + 1, after)
  {
  }

  lemma NextOccurrence(start: int, period: int, k: int)
    ensures OccurrenceAt(start, period, k + 1) == OccurrenceAt(start, period, k) + period
  {
  }

  ghost predicate OccurrencesUpTo(start: int, period: int, duration: int, from: int, to: int, k0: int, i: int,
                                  points: seq<int>) {
    forall k :: k0 <= k < k0 + i ==>
      (from <= OccurrenceAt(start, period, k) <= to ==> OccurrenceAt(start, period, k) in points) &&
      (from <= OccurrenceAt(start, period, k) + duration <= to ==> OccurrenceAt(start, period, k) + duration in points)
  }

  /** Occurrences before the first one walked end no later than the window begins. */
  lemma OccurrencesCollected(sh: Shift, from: int, to: int, k0: int, i: int, points: seq<int>)
    requires sh.startAt.At? && sh.endAt.At? && sh.recurrence != Once && 0 <= i && 0 <= k0
    requires var st, p := sh.startAt.t, sh.RecurrencePeriod();
      && (k0 > 0 ==> OccurrenceAt(st, p, k0) <= from)
      && OccurrenceAt(st, p, k0 + i) > to
    requires var st, p, d := sh.startAt.t, sh.RecurrencePeriod(), sh.endAt.t - sh.startAt.t;
      OccurrencesUpTo(st, p, d, from, to, k0, i, points)
    ensures forall x :: from <= x <= to && ShiftPoint(sh, x) ==> x in points
  {
    hide OccurrenceAt;
    var st, p, d := sh.startAt.t, sh.RecurrencePeriod(), sh.endAt.t - sh.startAt.t;
    forall x | from <= x <= to && ShiftPoint(sh, x) ensures x in points {
      var k :| 0 <= k && (x == OccurrenceAt(st, p, k) || (0 < d < p && x == OccurrenceAt(st, p, k) + d));
      if k < k0 { OccurrencesIncrease(st, p, k, k0); }
      if k0 + i < k { OccurrencesIncrease(st, p, k0 + i, k); }
    }
  }
}
