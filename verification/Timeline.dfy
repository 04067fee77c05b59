/**
  The schedule timeline: evaluated only at the collected boundaries, yet exact at
  every instant of the window.
 */
module Timeline {
  import opened Instants
  import opened Rotations
  import opened OnCall
  import opened Boundaries

  datatype Segment = Segment(start: int, end: int, answer: Answer) {
    predicate Holds(t: int) { start <= t < end }
  }

  // ---- sorting and deduplicating the points ----

  predicate Sorted(s: seq<int>) {
    forall i, j :: 0 <= i < j < |s| ==> s[i] <= s[j]
  }

  predicate Increasing(s: seq<int>) {
    forall i, j :: 0 <= i < j < |s| ==> s[i] < s[j]
  }

  method InsertInstant(s: seq<int>, x: int) returns (r: seq<int>)
    requires Sorted(s)
    ensures Sorted(r) && multiset(r) == multiset(s) + multiset{x}
  {
    var k := |s|;
    while k > 0 && s[k - 1] > x
      invariant 0 <= k <= |s|
      invariant forall j :: k <= j < |s| ==> s[j] > x
    {
      k := k - 1;
    }
    r := s[..k] + [x] + s[k..];
    InsertedSorted(s, x, k);
    InsertedContents(s, x, k);
  }

  lemma InsertedContents(s: seq<int>, x: int, k: nat)
    requires k <= |s|
    ensures multiset(s[..k] + [x] + s[k..]) == multiset(s) + multiset{x}
  {
    assert s == s[..k] + s[k..];
  }

  lemma InsertedSorted(s: seq<int>, x: int, k: nat)
    requires Sorted(s) && k <= |s|
    requires k > 0 ==> s[k - 1] <= x
    requires forall j :: k <= j < |s| ==> s[j] > x
    ensures Sorted(s[..k] + [x] + s[k..])
  {
    var r := s[..k] + [x] + s[k..];
    forall i, j | 0 <= i < j < |r| ensures r[i] <= r[j] {
      assert r[i] == if i < k then s[i] else if i == k then x else s[i - 1];
      assert r[j] == if j < k then s[j] else if j == k then x else s[j - 1];
      assert i < k ==> s[i] <= s[k - 1];
    }
  }

  /** sort.Slice, by insertion. */
  method SortInstants(points: seq<int>) returns (r: seq<int>)
    ensures Sorted(r) && multiset(r) == multiset(points)
  {
    r := [];
    for i := 0 to |points|
      invariant Sorted(r) && multiset(r) == multiset(points[..i])
    {
      assert points[..i + 1] == points[..i] + [points[i]];
      r := InsertInstant(r, points[i]);
    }
    assert points[..|points|] == points;
  }

  /** Compacts a sorted array in place and returns how many points are left. */
  method DedupInPlace(a: array<int>) returns (n: nat)
    requires Sorted(a[..])
    modifies a
    ensures n <= a.Length && Increasing(a[..n])
    ensures forall x :: x in a[..n] <==> x in old(a[..])
  {
    n := 0;
    for i := 0 to a.Length
      invariant n <= i
      invariant forall j :: i <= j < a.Length ==> a[j] == old(a[..])[j]
      invariant Increasing(a[..n])
      invariant n == 0 <==> i == 0
      invariant n > 0 ==> a[n - 1] == old(a[..])[i - 1]
      invariant forall x :: x in a[..n] <==> x in old(a[..])[..i]
    {
      ghost var was := a[..n];
      var p := a[i];
      assert old(a[..])[..i + 1] == old(a[..])[..i] + [p];
      if i > 0 && p == a[n - 1] { continue; }
      a[n] := p;
      assert a[..n + 1] == was + [p];
      n := n + 1;
    }
    assert old(a[..])[..a.Length] == old(a[..]);
  }

  method SortAndDedup(pts: seq<int>) returns (points: seq<int>)
    ensures Increasing(points)
    ensures forall x :: x in points <==> x in pts
  {
    var sorted := SortInstants(pts);
    assert forall x :: x in pts <==> x in multiset(pts);
    assert forall x :: x in sorted <==> x in multiset(sorted);
    var a := new int[|sorted|](i requires 0 <= i < |sorted| => sorted[i]);
    assert a[..] == sorted;
    var n := DedupInPlace(a);
    points := a[..n];
  }

  method ShiftListPoints(shifts: seq<Shift>, from: int, to: int) returns (pts: seq<int>)
    requires from <= to
    ensures Within(pts, from, to)
    ensures shifts == [] ==> pts == []
    ensures to - from <= MAX_WINDOW ==>
      forall j, x :: 0 <= j < |shifts| && from <= x <= to && ShiftPoint(shifts[j], x) ==> x in pts
  {
    pts := [];
    for i := 0 to |shifts|
      invariant Within(pts, from, to)
      invariant i == 0 ==> pts == []
      invariant to - from <= MAX_WINDOW ==>
        forall j, x :: 0 <= j < i && from <= x <= to && ShiftPoint(shifts[j], x) ==> x in pts
    {
      var more := ShiftPoints(shifts[i], from, to);
      pts := pts + more;
    }
  }

  /** The layer that owns the schedule below its overrides: the rotation, or the shifts. */
  method LayerPoints(s: Schedule, ghost o: int, from: int, to: int) returns (pts: seq<int>)
    requires s.Valid() && from < to
    ensures Within(pts, from, to)
    ensures Collects(s, o, from, to) ==>
      forall x :: from <= x <= to && ChangePoint(s, o, x) ==> OverridePoint(s, x) || x in pts
    ensures Plain(s) ==> forall x :: x in pts ==> ChangePoint(s, o, x)
  {
    if s.rotation.Some? {
      pts := HandoffPoints(s.rotation.value, s.zone, from, to);
      if s.rotation.value.restriction.Some? {
        var more := RestrictionPoints(s.rotation.value.restriction.value, s.zone, o, from, to);
        pts := pts + more;
      }
    } else {
      pts := ShiftListPoints(s.shifts, from, to);
    }
  }

  /** Every change point of [from, to], with both ends, strictly in order. */
  method ScheduleBoundaries(s: Schedule, ghost o: int, from: int, to: int) returns (points: seq<int>)
    requires s.Valid() && from < to
    ensures Increasing(points) && |points| >= 2
    ensures points[0] == from && points[|points| - 1] == to
    ensures Collects(s, o, from, to) ==>
      forall x :: from <= x <= to && ChangePoint(s, o, x) ==> x in points
    ensures Plain(s) ==> forall x :: x in points ==> x == from || x == to || ChangePoint(s, o, x)
  {
    var overrides := OverridePoints(s, from, to);
    var layer := LayerPoints(s, o, from, to);
    var pts := [from, to] + overrides + layer;
    assert Within(pts, from, to) && pts[0] == from && pts[1] == to;
    points := SortAndDedup(pts);
    assert from in points && to in points;
    assert forall i :: 0 <= i < |points| ==> points[i] in pts;
  }

  // ---- the timeline ----

  /** The segments cover [from, to) end to end, each of them non-empty. */
  ghost predicate Tiles(segs: seq<Segment>, from: int, to: int) {
    && |segs| > 0 && segs[0].start == from && segs[|segs| - 1].end == to
    && (forall i :: 0 <= i < |segs| ==> segs[i].start < segs[i].end)
    && (forall i :: 0 <= i < |segs| - 1 ==> segs[i].end == segs[i + 1].start)
  }

  ghost predicate NeighboursDiffer(segs: seq<Segment>) {
    forall i :: 0 <= i < |segs| - 1 ==> segs[i].answer != segs[i + 1].answer
  }

  /** At every instant the segment holding it carries the answer `f` gives there. */
  ghost predicate Exact(segs: seq<Segment>, f: int -> Answer) {
    forall i, t :: 0 <= i < |segs| && segs[i].Holds(t) ==> segs[i].answer == f(t)
  }

  /** What the timeline of a window is: a tiling by exact segments whose neighbours differ. */
  ghost predicate IsTimeline(segs: seq<Segment>, f: int -> Answer, from: int, to: int) {
    Tiles(segs, from, to) && NeighboursDiffer(segs) && Exact(segs, f)
  }

  /** The pointwise resolver of a schedule, as a function of the instant. */
  ghost function Resolver(s: Schedule): (f: int -> Answer)
    requires s.Valid()
    ensures forall t :: f(t) == ResolveAt(s, t)
  {
    t => ResolveAt(s, t)
  }

  /** Between two neighbouring boundaries the answer is the one at the first. */
  lemma ConstantBetween(s: Schedule, o: int, from: int, to: int, points: seq<int>, i: nat)
    requires s.Valid() && PointsSuffice(s, o, from, to) && Increasing(points) && i + 1 < |points|
    requires forall x :: from <= x <= to && ChangePoint(s, o, x) ==> x in points
    requires from <= points[i] && points[i + 1] <= to
    ensures forall t :: points[i] <= t < points[i + 1] ==> ResolveAt(s, t) == ResolveAt(s, points[i])
  {
    hide ResolveAt;
    forall t | points[i] <= t < points[i + 1]
      ensures ResolveAt(s, t) == ResolveAt(s, points[i])
    {
      forall x | points[i] < x <= t ensures !ChangePoint(s, o, x) {
        assert x !in points;
      }
      assert Quiet(s, o, points[i], t);
    }
  }

  /** One turn of a merging loop: extend the last segment when the answer repeats. */
  function Merged(segs: seq<Segment>, seg: Segment): seq<Segment> {
    if |segs| > 0 && segs[|segs| - 1].answer == seg.answer
    then segs[|segs| - 1 := segs[|segs| - 1].(end := seg.end)]
    else segs + [seg]
  }

  lemma MergedTiles(segs: seq<Segment>, seg: Segment, from: int)
    requires seg.start < seg.end
    requires if segs == [] then seg.start == from else Tiles(segs, from, seg.start) && NeighboursDiffer(segs)
    ensures Tiles(Merged(segs, seg), from, seg.end) && NeighboursDiffer(Merged(segs, seg))
  {
    var out := Merged(segs, seg);
    assert segs != [] ==> segs[|segs| - 1].start < segs[|segs| - 1].end == seg.start;
    forall i | 0 <= i < |out| - 1 ensures out[i].end == out[i + 1].start && out[i].answer != out[i + 1].answer {
      if i < |segs| - 1 { assert segs[i].end == segs[i + 1].start && segs[i].answer != segs[i + 1].answer; }
    }
  }

  lemma MergedExact(segs: seq<Segment>, seg: Segment, f: int -> Answer, from: int)
    requires forall t :: seg.Holds(t) ==> seg.answer == f(t)
    requires segs != [] ==> IsTimeline(segs, f, from, seg.start)
    ensures Exact(Merged(segs, seg), f)
  {
    var out := Merged(segs, seg);
    forall i, t | 0 <= i < |out| && out[i].Holds(t) ensures out[i].answer == f(t) {
      if i < |segs| - 1 || (i == |segs| - 1 && t < seg.start) {
        assert segs[i].Holds(t);
      } else {
        assert seg.Holds(t);
      }
    }
  }

  /** The segments of the first `i` stretches between boundaries. */
  ghost predicate Grown(segs: seq<Segment>, points: seq<int>, i: nat, s: Schedule, exact: bool)
    requires s.Valid() && i < |points|
  {
    && (i == 0 ==> segs == [])
    && (i > 0 ==> Tiles(segs, points[0], points[i]) && NeighboursDiffer(segs))
    && StartIn(segs, points)
    && (exact ==> Exact(segs, Resolver(s)))
  }

  ghost predicate StartIn(segs: seq<Segment>, points: seq<int>) {
    forall i :: 0 <= i < |segs| ==> segs[i].start in points
  }

  lemma MergedStartIn(segs: seq<Segment>, seg: Segment, points: seq<int>)
    requires StartIn(segs, points) && seg.start in points
    ensures StartIn(Merged(segs, seg), points)
  {
  }

  lemma TimelineTurn(segs: seq<Segment>, points: seq<int>, i: nat, s: Schedule, exact: bool)
    requires s.Valid() && i + 1 < |points| && Increasing(points)
    requires Grown(segs, points, i, s, exact)
    requires exact ==> forall t :: points[i] <= t < points[i + 1] ==> ResolveAt(s, t) == ResolveAt(s, points[i])
    ensures Grown(Merged(segs, Segment(points[i], points[i + 1], ResolveAt(s, points[i]))), points, i + 1, s, exact)
  {
    hide ResolveAt; hide StartIn;
    var seg := Segment(points[i], points[i + 1], ResolveAt(s, points[i]));
    MergedTiles(segs, seg, points[0]);
    MergedStartIn(segs, seg, points);
    if exact { MergedExact(segs, seg, Resolver(s), points[0]); }
  }

  /** What is drawn for a window: always a tiling with neighbours that differ; the timeline
      where every change point is collected and they suffice; and for a plain schedule cut
      nowhere else. */
  ghost predicate Drawn(s: Schedule, o: int, from: int, to: int, segs: seq<Segment>)
    requires s.Valid()
  {
    && Tiles(segs, from, to) && NeighboursDiffer(segs)
    && (Collects(s, o, from, to) && PointsSuffice(s, o, from, to) ==> IsTimeline(segs, Resolver(s), from, to))
    && (Plain(s) ==> CutAtPoints(s, o, from, segs))
  }

  ghost predicate CutAtPoints(s: Schedule, o: int, from: int, segs: seq<Segment>) {
    forall i :: 0 <= i < |segs| ==> segs[i].start == from || ChangePoint(s, o, segs[i].start)
  }

  /** scheduleTimeline. The segments always tile the window with neighbours that differ;
      where ExactOver holds they are exact at every instant. */
  method ScheduleTimeline(s: Schedule, ghost o: int, from: int, to: int) returns (segs: seq<Segment>)
    requires s.Valid()
    ensures to <= from ==> segs == []
    ensures from < to ==> Drawn(s, o, from, to, segs)
    ensures from < to && ExactOver(s, o, from, to) ==> IsTimeline(segs, Resolver(s), from, to)
  {
    hide ResolveAt; hide ExactOver; hide ChangePoint; hide Tiles; hide NeighboursDiffer; hide Exact;
    hide Collects; hide PointsSuffice; hide Plain; hide Drawn;
    segs := [];
    if to <= from { return; }
    var points := ScheduleBoundaries(s, o, from, to);
    ghost var exact := Collects(s, o, from, to) && PointsSuffice(s, o, from, to);
    assert Grown(segs, points, 0, s, exact) by { NothingGrown(points, s, exact); }
    for i := 0 to |points| - 1
      invariant Grown(segs, points, i, s, exact)
    {
      hide Grown;
      var start, end := points[i], points[i + 1];
      var a := ResolveScheduleAt(s, start);
      if exact { ConstantBetween(s, o, from, to, points, i); }
      TimelineTurn(segs, points, i, s, exact);
      if |segs| > 0 && segs[|segs| - 1].answer == a {
        segs := segs[|segs| - 1 := segs[|segs| - 1].(end := end)];
      } else {
        segs := segs + [Segment(start, end, a)];
      }
    }
    GrownIsDrawn(s, o, from, to, points, segs);
    if ExactOver(s, o, from, to) { ExactIsDrawn(s, o, from, to, segs); }
  }

  lemma GrownIsDrawn(s: Schedule, o: int, from: int, to: int, points: seq<int>, segs: seq<Segment>)
    requires s.Valid() && Increasing(points) && |points| >= 2 && points[0] == from && points[|points| - 1] == to
    requires Plain(s) ==> forall x :: x in points ==> x == from || x == to || ChangePoint(s, o, x)
    requires Grown(segs, points, |points| - 1, s, Collects(s, o, from, to) && PointsSuffice(s, o, from, to))
    ensures Drawn(s, o, from, to, segs)
  {
    hide ChangePoint; hide Collects; hide PointsSuffice; hide ResolveAt; hide Plain;
    if Plain(s) {
      forall i | 0 <= i < |segs| ensures segs[i].start == from || ChangePoint(s, o, segs[i].start) {
        StartsBefore(segs, from, to, i);
      }
    }
  }

  lemma {:induction false} StartsBefore(segs: seq<Segment>, from: int, to: int, i: nat)
    requires Tiles(segs, from, to) && i < |segs|
    ensures segs[i].start < to
    decreases |segs| - i
  {
    if i + 1 < |segs| { StartsBefore(segs, from, to, i + 1); }
  }

  lemma ExactIsDrawn(s: Schedule, o: int, from: int, to: int, segs: seq<Segment>)
    requires ExactOver(s, o, from, to) && Drawn(s, o, from, to, segs)
    ensures IsTimeline(segs, Resolver(s), from, to)
  {
    hide IsTimeline; hide ResolveAt; hide PointsSuffice;
    TrackedPointsSuffice(s, o, from, to);
  }

  /** For a plain schedule the timeline is exact if and only if the change points suffice. */
  lemma PlainTimelineExactIff(s: Schedule, o: int, from: int, to: int, segs: seq<Segment>)
    requires s.Valid() && Plain(s) && from < to <= from + MAX_WINDOW && Drawn(s, o, from, to, segs)
    ensures IsTimeline(segs, Resolver(s), from, to) <==> PointsSuffice(s, o, from, to)
  {
    hide ResolveAt; hide ChangePoint;
    if IsTimeline(segs, Resolver(s), from, to) {
      forall t1, t2 | from <= t1 <= t2 < to && Quiet(s, o, t1, t2) ensures ResolveAt(s, t1) == ResolveAt(s, t2) {
        QuietInOneSegment(s, o, from, to, segs, t1, t2);
      }
    }
  }

  lemma QuietInOneSegment(s: Schedule, o: int, from: int, to: int, segs: seq<Segment>, t1: int, t2: int)
    requires s.Valid() && IsTimeline(segs, Resolver(s), from, to) && CutAtPoints(s, o, from, segs)
    requires from <= t1 <= t2 < to && Quiet(s, o, t1, t2)
    ensures ResolveAt(s, t1) == ResolveAt(s, t2)
  {
    hide ResolveAt; hide ChangePoint;
    var i := TilesHold(segs, from, to, t1);
    assert i + 1 < |segs| ==> segs[i + 1].start == segs[i].end;
    assert segs[i].Holds(t2);
    assert Resolver(s)(t1) == Resolver(s)(t2);
  }

  lemma NothingGrown(points: seq<int>, s: Schedule, exact: bool)
    requires s.Valid() && |points| > 0
    ensures Grown([], points, 0, s, exact)
  {
  }

  // ---- there is only one such timeline ----

  /** In a tiling every instant of the window is held, by one segment. */
  lemma {:induction false} TilesHold(segs: seq<Segment>, from: int, to: int, t: int) returns (i: int)
    requires Tiles(segs, from, to) && from <= t < to
    ensures 0 <= i < |segs| && segs[i].Holds(t)
    decreases |segs|
  {
    if t < segs[0].end {
      i := 0;
    } else {
      assert |segs| > 1;
      var k := TilesHold(segs[1..], segs[0].end, to, t);
      i := k + 1;
    }
  }

  lemma HoldersAgree(f: int -> Answer, a: seq<Segment>, i: nat, b: seq<Segment>, j: nat, t: int)
    requires Exact(a, f) && Exact(b, f)
    requires i < |a| && j < |b| && a[i].Holds(t) && b[j].Holds(t)
    ensures a[i].answer == b[j].answer
  {
    assert a[i].answer == f(t);
  }

  lemma {:induction false} EndsWithin(b: seq<Segment>, from: int, to: int)
    requires Tiles(b, from, to)
    ensures b[0].end <= to
    ensures b[0].end == to <==> |b| == 1
    decreases |b|
  {
    if |b| > 1 { EndsWithin(b[1..], b[0].end, to); }
  }

  lemma FirstEndsAgree(f: int -> Answer, from: int, to: int, a: seq<Segment>, b: seq<Segment>)
    requires IsTimeline(a, f, from, to) && IsTimeline(b, f, from, to)
    ensures a[0].end >= b[0].end
  {
    HoldersAgree(f, a, 0, b, 0, from);
    if a[0].end < b[0].end {
      EndsWithin(b, from, to);
      HoldersAgree(f, a, 1, b, 0, a[0].end);
    }
  }

  lemma TailIsTimeline(a: seq<Segment>, f: int -> Answer, from: int, to: int)
    requires IsTimeline(a, f, from, to) && |a| > 1
    ensures IsTimeline(a[1..], f, a[0].end, to)
  {
    forall i, t | 0 <= i < |a[1..]| && a[1..][i].Holds(t) ensures a[1..][i].answer == f(t) {
      assert a[i + 1].Holds(t);
    }
  }

  lemma FirstSame(f: int -> Answer, from: int, to: int, a: seq<Segment>, b: seq<Segment>)
    requires IsTimeline(a, f, from, to) && IsTimeline(b, f, from, to)
    ensures a[0] == b[0] && (|a| == 1 <==> |b| == 1)
  {
    HoldersAgree(f, a, 0, b, 0, from);
    FirstEndsAgree(f, from, to, a, b);
    FirstEndsAgree(f, from, to, b, a);
    EndsWithin(a, from, to);
    EndsWithin(b, from, to);
  }

  lemma SameHeadSameTail<T>(a: seq<T>, b: seq<T>)
    requires |a| > 0 && |b| > 0 && a[0] == b[0] && a[1..] == b[1..]
    ensures a == b
  {
    assert a == [a[0]] + a[1..] && b == [b[0]] + b[1..];
  }

  /** Tiling, differing neighbours and exactness leave exactly one list of segments. */
  lemma {:induction false} TimelineUnique(f: int -> Answer, from: int, to: int, a: seq<Segment>, b: seq<Segment>)
    requires IsTimeline(a, f, from, to) && IsTimeline(b, f, from, to)
    ensures a == b
    decreases |a|
  {
    FirstSame(f, from, to, a, b);
    if |a| > 1 {
      TailIsTimeline(a, f, from, to);
      TailIsTimeline(b, f, from, to);
      TimelineUnique(f, a[0].end, to, a[1..], b[1..]);
    }
    SameHeadSameTail(a, b);
  }
}
