/**
  Handoffs of a rotation and the search for the period an instant falls in.
 */
module Rotations {
  import opened Instants

  datatype Unit = Hours | Days | Weeks

  type Weekday = d: int | 0 <= d < 7

  /** A daily wall-clock window on selected weekdays; no days means every day. */
  datatype Restriction = Restriction(startMinute: int, endMinute: int, days: seq<Weekday>) {
    /** What parseRestriction guarantees of every restriction it accepts. */
    predicate Valid() {
      0 <= startMinute < 1440 && 0 <= endMinute < 1440 && startMinute != endMinute
    }

    predicate AllowsDay(day: Weekday) {
      |days| == 0 || day in days
    }
  }

  datatype Rotation = Rotation(
    enabled: bool,
    startAt: int,
    interval: int,
    unit: Unit,
    participants: seq<string>,
    restriction: Option<Restriction>) {

    /** What parseRotation guarantees of every rotation it accepts. */
    predicate Valid() {
      interval >= 1 && (restriction.Some? ==> restriction.value.Valid())
    }

    function Period(): int {
      match unit
      case Hours => interval * HOUR
      case Days => interval * DAY
      case Weeks => interval * WEEK
    }

    /** The instant of the n-th handoff: hours are absolute, days and weeks step the wall clock. */
    function Handoff(n: int, z: Zone): int {
      if unit == Hours then startAt + n * Period()
      else z.FromWall(z.Wall(startAt) + n * Period())
    }

    /** Hour periods need nothing of the zone; calendar periods must exceed its offset spread. */
    ghost predicate Regular(z: Zone) {
      Valid() && (unit != Hours ==> z.SpreadBelow(Period()))
    }

    ghost predicate InPeriod(n: int, at: int, z: Zone) {
      Handoff(n, z) <= at < Handoff(n + 1, z)
    }
  }

  lemma PeriodPositive(r: Rotation)
    requires r.Valid()
    ensures r.Period() >= HOUR
    ensures r.unit != Hours ==> r.Period() >= DAY
  {
  }

  /** Products with the period, spelled out once for the solver. */
  lemma MulSteps(n: int, k: int, p: int)
    ensures (n + k) * p == n * p + k * p
    ensures (n - k) * p == n * p - k * p
  {
  }

  lemma MulMono(a: int, b: int, p: int)
    requires a <= b && 0 <= p
    ensures a * p <= b * p
  {
  }

  /** Any two handoffs are as far apart as their numbers say, give or take less than one period. */
  lemma HandoffSpacing(r: Rotation, z: Zone, m: int, n: int)
    requires r.Regular(z)
    ensures r.Handoff(n, z) - r.Handoff(m, z) > (n - m) * r.Period() - r.Period()
    ensures r.Handoff(n, z) - r.Handoff(m, z) < (n - m) * r.Period() + r.Period()
    ensures r.unit == Hours ==> r.Handoff(n, z) - r.Handoff(m, z) == (n - m) * r.Period()
  {
    PeriodPositive(r);
    var p := r.Period();
    assert n * p - m * p == (n - m) * p;
    if r.unit != Hours {
      var base := z.Wall(r.startAt);
      var wm, wn := base + m * p, base + n * p;
      var um, un := wm - z.offset(wm), wn - z.offset(wn);
      assert z.offset(um) - z.offset(un) < p && z.offset(un) - z.offset(um) < p;
    }
  }

  /** Handoffs come strictly in order. */
  lemma HandoffsIncrease(r: Rotation, z: Zone, m: int, n: int)
    requires r.Regular(z) && m < n
    ensures r.Handoff(m, z) < r.Handoff(n, z)
  {
    PeriodPositive(r);
    HandoffSpacing(r, z, m, n);
    MulMono(1, n - m, r.Period());
  }

  /** The n-th handoff drifts from start + n periods by less than one period. */
  lemma HandoffDrift(r: Rotation, z: Zone, n: int)
    requires r.Regular(z)
    ensures -r.Period() < r.Handoff(n, z) - (r.startAt + n * r.Period()) < r.Period()
  {
    PeriodPositive(r);
    if r.unit != Hours {
      var w := z.Wall(r.startAt) + n * r.Period();
      var u := w - z.offset(w);
      assert z.offset(r.startAt) - z.offset(u) < r.Period();
      assert z.offset(u) - z.offset(r.startAt) < r.Period();
    }
  }

  /** At most one period holds an instant. */
  lemma PeriodUnique(r: Rotation, z: Zone, m: int, n: int, at: int)
    requires r.Regular(z) && r.InPeriod(m, at, z) && r.InPeriod(n, at, z)
    ensures m == n
  {
    if m < n {
      if m + 1 < n { HandoffsIncrease(r, z, m + 1, n); }
    } else if n < m {
      if n + 1 < m { HandoffsIncrease(r, z, n + 1, m); }
    }
  }

  /** The truncated estimate is within two periods of the answer on both sides. */
  lemma EstimateIsClose(r: Rotation, z: Zone, at: int, q: int)
    requires r.Regular(z) && r.Period() > 0
    requires q == TruncDiv(at - r.startAt, r.Period())
    ensures r.Handoff(q - 2, z) < at < r.Handoff(q + 2, z)
  {
    var p := r.Period();
    HandoffDrift(r, z, q - 2);
    HandoffDrift(r, z, q + 2);
    MulSteps(q, 2, p);
    MulSteps(q, 1, p);
  }

  /** The number of the period holding `at`: the search's two bounded correction loops
      always reach it, before or after the start and in any zone the rotation is regular in. */
  method PeriodIndex(r: Rotation, at: int, z: Zone) returns (n: int)
    requires r.Regular(z)
    ensures r.InPeriod(n, at, z)
    ensures forall m :: r.InPeriod(m, at, z) ==> m == n
  {
    hide Rotation.Handoff;
    PeriodPositive(r);
    n := TruncDiv(at - r.startAt, r.Period());
    ghost var q := n;
    EstimateIsClose(r, z, at, q);
    var i := 0;
    while i < 8 && r.Handoff(n, z) > at
      invariant n == q - i && i <= 2
      invariant i > 0 ==> r.Handoff(n + 1, z) > at
    {
      n := n - 1;
      i := i + 1;
    }
    assert r.Handoff(n, z) <= at;
    i := 0;
    while i < 8 && r.Handoff(n + 1, z) <= at
      invariant i <= 2 && n <= q + 1
      invariant i > 0 ==> n == q + i
      invariant r.Handoff(n, z) <= at
      invariant i == 0 ==> n == q || r.Handoff(n + 1, z) > at
    {
      n := n + 1;
      i := i + 1;
    }
    forall m | r.InPeriod(m, at, z) ensures m == n {
      PeriodUnique(r, z, m, n, at);
    }
  }

  lemma PeriodExists(r: Rotation, z: Zone, at: int) returns (n: int)
    requires r.Regular(z)
    ensures r.InPeriod(n, at, z)
  {
    PeriodPositive(r);
    var q := TruncDiv(at - r.startAt, r.Period());
    EstimateIsClose(r, z, at, q);
    n := q - 2;
    while r.Handoff(n + 1, z) <= at
      invariant r.Handoff(n, z) <= at && n <= q + 1
      decreases q + 2 - n
    {
      n := n + 1;
    }
  }

  lemma HasPeriod(r: Rotation, at: int, z: Zone)
    requires r.Regular(z)
    ensures exists n :: r.InPeriod(n, at, z)
  {
    var n := PeriodExists(r, z, at);
  }

  /** The period number as a function, for specifications. */
  ghost function PeriodNumber(r: Rotation, at: int, z: Zone): (n: int)
    requires r.Regular(z)
    ensures r.InPeriod(n, at, z)
  {
    HasPeriod(r, at, z);
    var n :| r.InPeriod(n, at, z);
    n
  }
}
