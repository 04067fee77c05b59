/**
  Who is on call at one instant: an active override, else the rotation, else the
  legacy shifts. The functions are the specification; the methods are the loops
  of the resolver, proved to compute them.
 */
module OnCall {
  import opened Instants
  import opened Rotations

  /** A stored timestamp: missing, unreadable, or an instant. */
  datatype Stamp = Absent | Malformed | At(t: int)

  datatype Override = Override(userId: string, startAt: Stamp, until: Stamp, createdAt: Stamp) {
    /** The start the resolver uses: start_at, or created_at when start_at is missing. */
    function EffectiveStart(): Stamp {
      if startAt.Absent? then createdAt else startAt
    }

    predicate ActiveAt(at: int) {
      EffectiveStart().At? && until.At? && EffectiveStart().t <= at < until.t
    }

    /** An unreadable creation time counts as the zero time. */
    function Created(): int {
      if createdAt.At? then createdAt.t else 0
    }
  }

  datatype Recurrence = Once | Daily | Weekly

  datatype Shift = Shift(userId: string, startAt: Stamp, endAt: Stamp, recurrence: Recurrence) {
    /** Length of the recurrence period; anything but daily and weekly happens once. */
    function RecurrencePeriod(): int {
      match recurrence
      case Once => 0
      case Daily => DAY
      case Weekly => WEEK
    }

    /** Go's shiftActive. */
    predicate ActiveAt(at: int) {
      startAt.At? && endAt.At? &&
      if recurrence == Once then startAt.t <= at < endAt.t
      else startAt.t <= at && (at - startAt.t) % RecurrencePeriod() < endAt.t - startAt.t
    }
  }

  datatype Source = NoSource | FromOverride | FromRotation | FromShift

  datatype Answer = Answer(users: seq<string>, source: Source)

  const NOBODY := Answer([], NoSource)

  /** `rotation` is the parsed rotation when it parses, is enabled and has participants. */
  datatype Schedule = Schedule(
    enabled: bool,
    zone: Zone,
    overrides: seq<Override>,
    rotation: Option<Rotation>,
    shifts: seq<Shift>) {

    ghost predicate Valid() {
      rotation.Some? ==>
        rotation.value.Regular(zone) && rotation.value.enabled && |rotation.value.participants| > 0
    }
  }

  function MinuteOfDay(local: int): (m: int)
    ensures 0 <= m < 1440
  {
    (local % DAY) / MINUTE
  }

  /** Sunday is 0; day zero of the calendar is a Monday. */
  function WeekdayOf(local: int): Weekday {
    (local / DAY + 1) % 7
  }

  /** Whether a wall clock reading falls in the daily window; before the end of an
      overnight window it belongs to the previous day's window. */
  predicate WindowAllows(res: Restriction, local: int) {
    var minute := MinuteOfDay(local);
    var day := WeekdayOf(local);
    if res.endMinute > res.startMinute then
      res.startMinute <= minute < res.endMinute && res.AllowsDay(day)
    else if minute < res.endMinute then res.AllowsDay((day + 6) % 7)
    else minute >= res.startMinute && res.AllowsDay(day)
  }

  predicate RestrictionAllows(r: Rotation, at: int, z: Zone) {
    r.restriction.None? || WindowAllows(r.restriction.value, z.Wall(at))
  }

  /** The rotation participant on call, or "" when there is none. */
  ghost function ParticipantAt(r: Rotation, at: int, z: Zone): string
    requires r.Regular(z)
  {
    if !r.enabled || |r.participants| == 0 || r.startAt == 0 || at < r.startAt || !RestrictionAllows(r, at, z) then ""
    else
      var n := PeriodNumber(r, at, z);
      if n < 0 then "" else r.participants[n % |r.participants|]
  }

  /** Index of the override that wins at `at` among the first `k`, or -1: the latest
      creation wins and a tie goes to the later entry. */
  function WinnerBefore(ovs: seq<Override>, at: int, k: nat): (w: int)
    requires k <= |ovs|
    ensures -1 <= w < k
  {
    if k == 0 then -1
    else
      var w := WinnerBefore(ovs, at, k - 1);
      if ovs[k - 1].ActiveAt(at) && (w < 0 || ovs[k - 1].Created() >= ovs[w].Created()) then k - 1 else w
  }

  /** What winning means: no active override was created later, and none as late stands after it. */
  ghost predicate Wins(ovs: seq<Override>, at: int, w: int) {
    0 <= w < |ovs| && ovs[w].ActiveAt(at) &&
    forall j :: 0 <= j < |ovs| && ovs[j].ActiveAt(at) ==>
      ovs[j].Created() < ovs[w].Created() || (ovs[j].Created() == ovs[w].Created() && j <= w)
  }

  lemma {:induction false} WinnerBeforeWins(ovs: seq<Override>, at: int, k: nat)
    requires k <= |ovs|
    ensures var w := WinnerBefore(ovs, at, k);
      if w < 0 then forall j :: 0 <= j < k ==> !ovs[j].ActiveAt(at)
      else ovs[w].ActiveAt(at) && forall j :: 0 <= j < k && ovs[j].ActiveAt(at) ==>
        ovs[j].Created() < ovs[w].Created() || (ovs[j].Created() == ovs[w].Created() && j <= w)
  {
    if k > 0 { WinnerBeforeWins(ovs, at, k - 1); }
  }

  /** The winner is exactly the latest-created active override, and there is one
      whenever any override is active. */
  lemma OverrideWinnerIsLatest(ovs: seq<Override>, at: int)
    ensures var w := WinnerBefore(ovs, at, |ovs|);
      (w >= 0 <==> exists j :: 0 <= j < |ovs| && ovs[j].ActiveAt(at)) &&
      (w >= 0 ==> Wins(ovs, at, w)) &&
      (forall v :: Wins(ovs, at, v) ==> v == w)
  {
    WinnerBeforeWins(ovs, at, |ovs|);
  }

  function ShiftUsersBefore(shifts: seq<Shift>, at: int, k: nat): (users: seq<string>)
    requires k <= |shifts|
  {
    if k == 0 then []
    else
      ShiftUsersBefore(shifts, at, k - 1) +
      (if shifts[k - 1].ActiveAt(at) then [shifts[k - 1].userId] else [])
  }

  /** The pointwise answer of resolveScheduleAt. */
  ghost function ResolveAt(s: Schedule, at: int): Answer
    requires s.Valid()
  {
    if !s.enabled then NOBODY
    else
      var w := WinnerBefore(s.overrides, at, |s.overrides|);
      if w >= 0 then Answer([s.overrides[w].userId], FromOverride)
      else if s.rotation.Some? then
        var uid := ParticipantAt(s.rotation.value, at, s.zone);
        if uid != "" then Answer([uid], FromRotation) else NOBODY
      else
        var users := ShiftUsersBefore(s.shifts, at, |s.shifts|);
        if |users| > 0 then Answer(users, FromShift) else NOBODY
  }

  /** An empty roster never carries a source. */
  lemma EmptyAnswerIsNobody(s: Schedule, at: int)
    requires s.Valid()
    ensures |ResolveAt(s, at).users| == 0 <==> ResolveAt(s, at) == NOBODY
  {
  }

  method ActiveOverrideUsers(ovs: seq<Override>, at: int) returns (users: seq<string>)
    ensures var w := WinnerBefore(ovs, at, |ovs|);
      users == if w >= 0 then [ovs[w].userId] else []
  {
    var winner: Option<Override> := None;
    var winnerAt := 0;
    for k := 0 to |ovs|
      invariant var w := WinnerBefore(ovs, at, k);
        if w >= 0 then winner == Some(ovs[w]) && winnerAt == ovs[w].Created() else winner == None
    {
      var o := ovs[k];
      var start := if o.startAt.Absent? then o.createdAt else o.startAt;
      if !start.At? || !o.until.At? { continue; }
      if at < start.t || at >= o.until.t { continue; }
      var created := if o.createdAt.At? then o.createdAt.t else 0;
      if winner.None? || created >= winnerAt {
        winner, winnerAt := Some(o), created;
      }
    }
    users := if winner.None? then [] else [winner.value.userId];
  }

  method ActiveShiftUsers(shifts: seq<Shift>, at: int) returns (users: seq<string>)
    ensures users == ShiftUsersBefore(shifts, at, |shifts|)
  {
    users := [];
    for k := 0 to |shifts|
      invariant users == ShiftUsersBefore(shifts, at, k)
    {
      if shifts[k].ActiveAt(at) {
        users := users + [shifts[k].userId];
      }
    }
  }

  method FindParticipant(r: Rotation, at: int, z: Zone) returns (uid: string)
    requires r.Regular(z)
    ensures uid == ParticipantAt(r, at, z)
  {
    if !r.enabled || |r.participants| == 0 || r.startAt == 0 { return ""; }
    if at < r.startAt { return ""; }
    if !RestrictionAllows(r, at, z) { return ""; }
    var n := PeriodIndex(r, at, z);
    assert r.InPeriod(PeriodNumber(r, at, z), at, z);
    if n < 0 { return ""; }
    return r.participants[n % |r.participants|];
  }

  method ResolveScheduleAt(s: Schedule, at: int) returns (a: Answer)
    requires s.Valid()
    ensures a == ResolveAt(s, at)
  {
    if !s.enabled { return NOBODY; }
    var ids := ActiveOverrideUsers(s.overrides, at);
    if |ids| > 0 { return Answer(ids, FromOverride); }
    if s.rotation.Some? {
      var uid := FindParticipant(s.rotation.value, at, s.zone);
      return if uid != "" then Answer([uid], FromRotation) else NOBODY;
    }
    ids := ActiveShiftUsers(s.shifts, at);
    return if |ids| > 0 then Answer(ids, FromShift) else NOBODY;
  }
}
