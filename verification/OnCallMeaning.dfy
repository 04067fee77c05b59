/**
  What the pointwise answer means in terms of the calendar alone: whose turn a period is,
  when a restricted window is open, when a shift is active, and which layer answers.
 */
module OnCallMeaning {
  import opened Instants
  import opened Rotations
  import opened OnCall
  import opened Selections

  // ---- the calendar ----

  /** Nanoseconds of a day and of a week. */
  const ONE_DAY: int := 86_400_000_000_000

  const ONE_WEEK: int := 604_800_000_000_000

  /** Weekdays follow each other at midnight, and 1970-01-01, day 719162, was a Thursday. */
  lemma WeekdaysFollow(local: int)
    ensures WeekdayOf(719162 * ONE_DAY) == 4
    ensures WeekdayOf(local + ONE_DAY) == (WeekdayOf(local) + 1) % 7
    ensures WeekdayOf(local) == WeekdayOf(local / ONE_DAY * ONE_DAY)
  {
    assert (local + DAY) / DAY == local / DAY + 1;
  }

  /** The weekday of local day `d`, counted from that Thursday. */
  function Weekday(d: int): int { (d - 719162 + 4) % 7 }

  lemma WeekdayIs(local: int)
    ensures WeekdayOf(local) == Weekday(local / ONE_DAY)
  {
  }

  /** Where the zone's clock shows the intended reading, the n-th handoff of a daily or weekly
      rotation stands at the start's own time of day, the right number of days later; hours are
      counted on the clock of the universe. */
  lemma HandoffKeepsWallClock(r: Rotation, z: Zone, n: int)
    ensures r.unit == Hours ==> r.Handoff(n, z) == r.startAt + n * (r.interval * 3_600_000_000_000)
    ensures r.unit != Hours ==>
      var days := n * (r.interval * (if r.unit == Days then 1 else 7));
      var reading := z.Wall(r.startAt) + days * ONE_DAY;
      z.offset(r.Handoff(n, z)) == z.offset(reading - z.offset(reading)) ==> z.Wall(r.Handoff(n, z)) == reading
  {
    if r.unit != Hours {
      var per := if r.unit == Days then 1 else 7;
      assert r.Period() == r.interval * per * ONE_DAY;
      assert n * r.Period() == n * (r.interval * per) * ONE_DAY by { Regroup(n, r.interval * per, ONE_DAY); }
    }
  }

  lemma Regroup(a: int, b: int, c: int)
    ensures a * (b * c) == a * b * c
  {
  }

  // ---- restricted windows ----

  /** The window that opens on local day `d`: until its end minute that day, or the next. */
  function Opens(res: Restriction, d: int): int { d * ONE_DAY + res.startMinute * 60_000_000_000 }

  function Closes(res: Restriction, d: int): int {
    (if res.endMinute > res.startMinute then d else d + 1) * ONE_DAY + res.endMinute * 60_000_000_000
  }

  /** Some window that opens on an allowed weekday holds the reading. */
  ghost predicate InWindow(res: Restriction, local: int) {
    exists d :: (res.days == [] || Weekday(d) in res.days) && Opens(res, d) <= local < Closes(res, d)
  }

  lemma OnlyNearDays(res: Restriction, local: int, d: int)
    requires res.Valid() && Opens(res, d) <= local < Closes(res, d)
    ensures d == local / ONE_DAY || d == local / ONE_DAY - 1
    ensures res.endMinute > res.startMinute ==> d == local / ONE_DAY
  {
  }

  lemma MinuteIs(local: int, m: int)
    ensures m <= MinuteOfDay(local) <==> local / ONE_DAY * ONE_DAY + m * 60_000_000_000 <= local
  {
    assert local == local / DAY * DAY + local % DAY;
  }

  /** The verdict on a reading is whether such a window holds it, overnight windows counting for
      the day they open on. */
  lemma WindowMeans(res: Restriction, local: int)
    requires res.Valid()
    ensures WindowAllows(res, local) <==> InWindow(res, local)
  {
    var d := local / ONE_DAY;
    MinuteIs(local, res.startMinute);
    MinuteIs(local, res.endMinute);
    WeekdayIs(local);
    assert (WeekdayOf(local) + 6) % 7 == Weekday(d - 1);
    assert local < (d + 1) * ONE_DAY;
    hide MinuteOfDay; hide WeekdayOf;
    var today := (res.days == [] || Weekday(d) in res.days) && Opens(res, d) <= local < Closes(res, d);
    var before := (res.days == [] || Weekday(d - 1) in res.days) && Opens(res, d - 1) <= local < Closes(res, d - 1);
    assert WindowAllows(res, local) <==> today || before;
    if InWindow(res, local) {
      var x :| (res.days == [] || Weekday(x) in res.days) && Opens(res, x) <= local < Closes(res, x);
      OnlyNearDays(res, local, x);
    }
  }

  // ---- shifts ----

  /** A shift is active from its start for its length, and a daily or weekly one again after
      every day or week, never past its next start. */
  lemma ShiftMeans(sh: Shift, at: int)
    requires sh.startAt.At? && sh.endAt.At?
    ensures sh.recurrence == Once ==> (sh.ActiveAt(at) <==> sh.startAt.t <= at < sh.endAt.t)
    ensures sh.recurrence != Once ==>
      var p := if sh.recurrence == Daily then ONE_DAY else ONE_WEEK;
      sh.ActiveAt(at) <==> exists k :: 0 <= k && InOccurrence(sh.startAt.t, sh.endAt.t, p, k, at)
  {
    if sh.recurrence != Once {
      var p := if sh.recurrence == Daily then ONE_DAY else ONE_WEEK;
      var st, end := sh.startAt.t, sh.endAt.t;
      if st <= at {
        var k := (at - st) / p;
        assert at - st == k * p + (at - st) % p;
        assert k >= 0;
        assert sh.ActiveAt(at) <==> InOccurrence(st, end, p, k, at);
        forall j | 0 <= j && InOccurrence(st, end, p, j, at) ensures j == k { SameQuotient(at - st, p, j, k); }
      } else {
        forall j | 0 <= j ensures !InOccurrence(st, end, p, j, at) { MulMono(0, j, p); }
      }
    }
  }

  /** The k-th occurrence of a shift from `start` to `end` holds the instant. */
  predicate InOccurrence(start: int, end: int, period: int, k: int, at: int) {
    start + k * period <= at < start + k * period + period && at < end + k * period
  }

  lemma SameQuotient(x: int, p: int, j: int, k: int)
    requires p > 0 && j * p <= x < j * p + p && k * p <= x < k * p + p
    ensures j == k
  {
    if j < k { MulMono(j + 1, k, p); }
    if k < j { MulMono(k + 1, j, p); }
  }

  // ---- whose turn it is ----

  /** The rotation has begun and its window, if any, is open. */
  ghost predicate OnDuty(r: Rotation, z: Zone, at: int) {
    && r.enabled && r.startAt != 0 && r.startAt <= at
    && (r.restriction.Some? ==> InWindow(r.restriction.value, at + z.offset(at)))
  }

  /** A schedule its rotation answers for at this instant. */
  ghost predicate RotationAnswers(s: Schedule, at: int) {
    && s.Valid() && s.enabled && s.rotation.Some? && OnDuty(s.rotation.value, s.zone, at)
    && forall i :: 0 <= i < |s.overrides| ==> !s.overrides[i].ActiveAt(at)
  }

  /** In its n-th period a rotation puts the n-th participant on call, counting round the list. */
  lemma TurnIsNamed(s: Schedule, at: int, n: nat)
    requires RotationAnswers(s, at) && s.rotation.value.InPeriod(n, at, s.zone)
    ensures var list := s.rotation.value.participants;
      var uid := list[n % |list|];
      ResolveAt(s, at) == if uid != "" then Answer([uid], FromRotation) else NOBODY
  {
    var r, z := s.rotation.value, s.zone;
    OverrideWinnerIsLatest(s.overrides, at);
    if r.restriction.Some? { WindowMeans(r.restriction.value, z.Wall(at)); }
    hide Rotation.Handoff; hide InWindow; hide WindowAllows; hide ParticipantAt; hide WinnerBefore;
    ParticipantIs(r, z, at, n);
  }

  lemma ParticipantIs(r: Rotation, z: Zone, at: int, n: nat)
    requires r.Regular(z) && r.enabled && |r.participants| > 0 && r.startAt != 0 && r.startAt <= at
    requires RestrictionAllows(r, at, z) && r.InPeriod(n, at, z)
    ensures ParticipantAt(r, at, z) == r.participants[n % |r.participants|]
  {
    hide Rotation.Handoff; hide RestrictionAllows; hide Rotation.Regular;
    PeriodUnique(r, z, n, PeriodNumber(r, at, z), at);
  }

  /** Neighbouring periods name neighbours in the list, and the turns repeat after the whole of it. */
  lemma TurnsGoRound(s: Schedule, at: int, next: int, later: int, n: nat)
    requires RotationAnswers(s, at) && RotationAnswers(s, next) && RotationAnswers(s, later)
    requires var r := s.rotation.value;
      && r.InPeriod(n, at, s.zone) && r.InPeriod(n + 1, next, s.zone)
      && r.InPeriod(n + |r.participants|, later, s.zone)
    requires forall i :: 0 <= i < |s.rotation.value.participants| ==> s.rotation.value.participants[i] != ""
    ensures var list := s.rotation.value.participants;
      exists i :: 0 <= i < |list| && ResolveAt(s, at).users == [list[i]] &&
        ResolveAt(s, next).users == [list[if i + 1 < |list| then i + 1 else 0]]
    ensures ResolveAt(s, later) == ResolveAt(s, at)
  {
    assert s.Valid() && |s.rotation.value.participants| > 0;
    hide RotationAnswers; hide ResolveAt;
    var list := s.rotation.value.participants;
    TurnIsNamed(s, at, n);
    TurnIsNamed(s, next, n + 1);
    TurnIsNamed(s, later, n + |list|);
    RoundTheList(n, |list|);
    assert 0 <= n % |list| < |list| && ResolveAt(s, at).users == [list[n % |list|]];
  }

  lemma RoundTheList(n: nat, k: nat)
    requires k > 0
    ensures (n + 1) % k == if n % k + 1 < k then n % k + 1 else 0
    ensures (n + k) % k == n % k
  {
    var q, r := n / k, n % k;
    assert n == q * k + r;
    if r + 1 < k {
      ModIs(n + 1, k, q, r + 1);
    } else {
      assert n + 1 == (q + 1) * k;
      ModIs(n + 1, k, q + 1, 0);
    }
    assert n + k == (q + 1) * k + r;
    ModIs(n + k, k, q + 1, r);
  }

  lemma ModIs(x: int, k: int, q: int, r: int)
    requires k > 0 && 0 <= r < k && x == q * k + r
    ensures x % k == r
  {
    SameQuotient(x, k, x / k, q);
  }

  /** Before a rotation has begun, outside its window or while it is off, nobody is on call
      through it, and its shifts are not asked. */
  lemma OffDutyIsNobody(s: Schedule, at: int)
    requires s.Valid() && s.enabled && s.rotation.Some? && !OnDuty(s.rotation.value, s.zone, at)
    requires forall i :: 0 <= i < |s.overrides| ==> !s.overrides[i].ActiveAt(at)
    ensures ResolveAt(s, at) == NOBODY
  {
    var r, z := s.rotation.value, s.zone;
    OverrideWinnerIsLatest(s.overrides, at);
    if r.restriction.Some? { WindowMeans(r.restriction.value, z.Wall(at)); }
  }

  /** An active override answers before anything else, a disabled schedule never does, and
      without a rotation the active shifts answer in their order. */
  lemma LayersInOrder(s: Schedule, at: int)
    requires s.Valid()
    ensures !s.enabled ==> ResolveAt(s, at) == Answer([], NoSource)
    ensures forall w :: s.enabled && Wins(s.overrides, at, w) ==>
      ResolveAt(s, at) == Answer([s.overrides[w].userId], FromOverride)
    ensures s.enabled && s.rotation.None? && (forall i :: 0 <= i < |s.overrides| ==> !s.overrides[i].ActiveAt(at)) ==>
      Selects(ShiftUsers(s.shifts), Active(s.shifts, at), ResolveAt(s, at).users)
  {
    OverrideWinnerIsLatest(s.overrides, at);
    ShiftsSelected(s.shifts, at, |s.shifts|);
    assert s.shifts[..|s.shifts|] == s.shifts;
  }

  function ShiftUsers(shifts: seq<Shift>): (users: seq<string>)
    ensures |users| == |shifts| && forall i :: 0 <= i < |users| ==> users[i] == shifts[i].userId
  {
    seq(|shifts|, i requires 0 <= i < |shifts| => shifts[i].userId)
  }

  function Active(shifts: seq<Shift>, at: int): (flags: seq<bool>)
    ensures |flags| == |shifts| && forall i :: 0 <= i < |flags| ==> flags[i] == shifts[i].ActiveAt(at)
  {
    seq(|shifts|, i requires 0 <= i < |shifts| => shifts[i].ActiveAt(at))
  }

  lemma {:induction false} ShiftsSelected(shifts: seq<Shift>, at: int, k: nat)
    requires k <= |shifts|
    ensures Selects(ShiftUsers(shifts[..k]), Active(shifts[..k], at), ShiftUsersBefore(shifts, at, k))
    decreases k
  {
    hide Selects; hide Shift.ActiveAt;
    if k == 0 {
      SelectsNone();
      assert ShiftUsers(shifts[..0]) == [] && Active(shifts[..0], at) == [];
    } else {
      var sh := shifts[k - 1];
      ShiftsSelected(shifts, at, k - 1);
      SelectsSnoc(ShiftUsers(shifts[..k - 1]), Active(shifts[..k - 1], at), ShiftUsersBefore(shifts, at, k - 1),
                  sh.userId, sh.ActiveAt(at));
      assert ShiftUsersBefore(shifts, at, k - 1) + [] == ShiftUsersBefore(shifts, at, k - 1);
      assert ShiftUsers(shifts[..k]) == ShiftUsers(shifts[..k - 1]) + [sh.userId];
      assert Active(shifts[..k], at) == Active(shifts[..k - 1], at) + [sh.ActiveAt(at)];
    }
  }

  /** The winning override is the one created last among the active ones: a later creation wins,
      one as late wins if it stands later in the list, and an unreadable creation time loses to
      every readable one after the zero time. */
  lemma LatestCreationWins(ovs: seq<Override>, at: int, w: int, j: int)
    requires Wins(ovs, at, w) && 0 <= j < |ovs| && ovs[j].ActiveAt(at)
    ensures ovs[j].createdAt.At? && ovs[w].createdAt.At? ==>
      ovs[j].createdAt.t < ovs[w].createdAt.t || (ovs[j].createdAt.t == ovs[w].createdAt.t && j <= w)
    ensures ovs[j].createdAt.At? && ovs[j].createdAt.t > 0 ==> ovs[w].createdAt.At?
  {
  }

  /** A rotation that is switched off names nobody, whatever schedule asks it. */
  lemma SwitchedOffNamesNobody(r: Rotation, z: Zone, at: int)
    requires r.Regular(z) && !r.enabled
    ensures ParticipantAt(r, at, z) == ""
  {
  }
}
