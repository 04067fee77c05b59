/**
  What is built on the timeline: the roster filter, the gap report, the preview and
  the end of a stretch. Each is stated against the pointwise resolver alone.
 */
module Coverage {
  import opened Instants
  import opened OnCall
  import opened Boundaries
  import opened Timeline
  import opened Selections

  // ---- dropping people who no longer exist ----

  /** The users of an answer that are on the roster, in order. */
  function Kept(users: seq<string>, known: set<string>): (kept: seq<string>)
    ensures forall u :: u in kept <==> u in users && u in known
  {
    if users == [] then []
    else
      var n := |users| - 1;
      Kept(users[..n], known) + (if users[n] in known then [users[n]] else [])
  }

  /** None means the caller cannot check, and nobody is dropped. */
  function Rostered(a: Answer, known: Option<set<string>>): Answer {
    if known.None? then a
    else
      var kept := Kept(a.users, known.value);
      if |kept| == 0 then NOBODY else Answer(kept, a.source)
  }

  ghost function RosterResolver(f: int -> Answer, known: Option<set<string>>): (g: int -> Answer)
    ensures forall t :: g(t) == Rostered(f(t), known)
  {
    t => Rostered(f(t), known)
  }

  /** What the roster leaves on call at an instant. */
  ghost function Shown(s: Schedule, known: Option<set<string>>): (g: int -> Answer)
    requires s.Valid()
    ensures forall t :: g(t) == Rostered(ResolveAt(s, t), known)
    ensures forall t :: |g(t).users| == 0 ==> g(t) == NOBODY
  {
    forall t ensures |Rostered(ResolveAt(s, t), known).users| == 0 ==> Rostered(ResolveAt(s, t), known) == NOBODY {
      EmptyAnswerIsNobody(s, t);
    }
    RosterResolver(Resolver(s), known)
  }

  // ---- what that means at an instant ----

  predicate IsKnown(u: string, known: Option<set<string>>) { known.None? || u in known.value }

  function Known(users: seq<string>, known: Option<set<string>>): (flags: seq<bool>)
    ensures |flags| == |users| && forall i :: 0 <= i < |flags| ==> flags[i] == IsKnown(users[i], known)
  {
    seq(|users|, i requires 0 <= i < |users| => IsKnown(users[i], known))
  }

  /** `shown` holds exactly the known users of the answer, in order, with its source, and no
      source when nobody is left. */
  ghost predicate ShowsKnown(a: Answer, known: Option<set<string>>, shown: Answer) {
    && Selects(a.users, Known(a.users, known), shown.users)
    && shown.source == if shown.users == [] then NoSource else a.source
  }

  /** Somebody known is on call. */
  ghost predicate Covered(s: Schedule, known: Option<set<string>>, t: int)
    requires s.Valid()
  {
    AnyKnown(ResolveAt(s, t).users, known)
  }

  predicate AnyKnown(users: seq<string>, known: Option<set<string>>) {
    exists i :: 0 <= i < |users| && IsKnown(users[i], known)
  }

  predicate TwoKnown(users: seq<string>, known: Option<set<string>>) {
    exists i, j :: 0 <= i < j < |users| && IsKnown(users[i], known) && IsKnown(users[j], known)
  }

  /** Two entries of the answer are known. */
  ghost predicate Doubled(s: Schedule, known: Option<set<string>>, t: int)
    requires s.Valid()
  {
    TwoKnown(ResolveAt(s, t).users, known)
  }

  lemma {:induction false} KeptSelects(users: seq<string>, known: set<string>)
    ensures Selects(users, Known(users, Some(known)), Kept(users, known))
    decreases |users|
  {
    hide Selects;
    if users == [] {
      SelectsNone();
      assert Known(users, Some(known)) == [];
    } else {
      var n := |users| - 1;
      var x, rest := users[n], users[..n];
      KeptSelects(rest, known);
      SelectsSnoc(rest, Known(rest, Some(known)), Kept(rest, known), x, x in known);
      assert rest + [x] == users && Kept(rest, known) + [] == Kept(rest, known);
      assert Known(users, Some(known)) == Known(rest, Some(known)) + [x in known];
    }
  }

  lemma {:induction false} AllSelected(users: seq<string>)
    ensures Selects(users, Known(users, None), users)
    decreases |users|
  {
    hide Selects;
    if users == [] {
      SelectsNone();
      assert Known(users, None) == [];
    } else {
      var n := |users| - 1;
      AllSelected(users[..n]);
      SelectsSnoc(users[..n], Known(users[..n], None), users[..n], users[n], true);
      assert users[..n] + [users[n]] == users;
      assert Known(users, None) == Known(users[..n], None) + [true];
    }
  }

  lemma RosteredMeans(a: Answer, known: Option<set<string>>)
    requires a.users == [] ==> a.source == NoSource
    ensures ShowsKnown(a, known, Rostered(a, known))
  {
    if known.Some? { KeptSelects(a.users, known.value); } else { AllSelected(a.users); }
  }

  /** Somebody is left exactly when somebody is known, and two when two entries are. */
  lemma SomebodyLeft(users: seq<string>, known: Option<set<string>>, shown: seq<string>)
    requires Selects(users, Known(users, known), shown)
    ensures |shown| > 0 <==> AnyKnown(users, known)
    ensures |shown| > 1 <==> TwoKnown(users, known)
  {
    hide Selects;
    var flags := Known(users, known);
    SelectsTwo(users, flags, shown);
    if shown != [] {
      SelectsMember(users, flags, shown, shown[0]);
      var j :| 0 <= j < |users| && flags[j] && users[j] == shown[0];
      assert IsKnown(users[j], known);
    }
    if AnyKnown(users, known) {
      var i :| 0 <= i < |users| && IsKnown(users[i], known);
      assert flags[i];
      SelectsMember(users, flags, shown, users[i]);
    }
    if |shown| > 1 {
      var i, j :| 0 <= i < j < |users| && flags[i] && flags[j];
      assert IsKnown(users[i], known) && IsKnown(users[j], known);
    }
    if TwoKnown(users, known) {
      var i, j :| 0 <= i < j < |users| && IsKnown(users[i], known) && IsKnown(users[j], known);
      assert flags[i] && flags[j];
    }
  }

  /** What the roster leaves of an answer, described by the answer and the roster alone. */
  lemma ShownMeans(s: Schedule, known: Option<set<string>>, t: int)
    requires s.Valid()
    ensures ShowsKnown(ResolveAt(s, t), known, Shown(s, known)(t))
    ensures |Shown(s, known)(t).users| > 0 <==> Covered(s, known, t)
    ensures |Shown(s, known)(t).users| > 1 <==> Doubled(s, known, t)
  {
    hide Selects; hide ResolveAt; hide Rostered; hide Known; hide AnyKnown; hide TwoKnown; hide ShowsKnown; hide Shown;
    EmptyAnswerIsNobody(s, t);
    var a := ResolveAt(s, t);
    var shown := Shown(s, known)(t);
    assert shown == Rostered(a, known);
    RosteredMeans(a, known);
    assert Selects(a.users, Known(a.users, known), shown.users) by { ShownAreSelected(a, known, shown); }
    SomebodyLeft(a.users, known, shown.users);
  }

  lemma ShownAreSelected(a: Answer, known: Option<set<string>>, shown: Answer)
    requires ShowsKnown(a, known, shown)
    ensures Selects(a.users, Known(a.users, known), shown.users)
  {
  }

  method KeepKnown(users: seq<string>, known: set<string>) returns (kept: seq<string>)
    ensures kept == Kept(users, known)
  {
    kept := [];
    for i := 0 to |users|
      invariant kept == Kept(users[..i], known)
    {
      assert users[..i + 1][..i] == users[..i];
      if users[i] in known { kept := kept + [users[i]]; }
    }
    assert users[..|users|] == users;
  }

  /** applyRoster turns the timeline of `f` into the timeline of what the roster leaves of it. */
  method ApplyRoster(segs: seq<Segment>, known: Option<set<string>>, ghost f: int -> Answer, ghost from: int,
                     ghost to: int)
    returns (out: seq<Segment>)
    ensures known.None? ==> out == segs
    ensures segs == [] ==> out == []
    ensures IsTimeline(segs, f, from, to) ==> IsTimeline(out, RosterResolver(f, known), from, to)
  {
    if known.None? { return segs; }
    ghost var g := RosterResolver(f, known);
    out := [];
    for i := 0 to |segs|
      invariant i == 0 ==> out == []
      invariant i > 0 && IsTimeline(segs, f, from, to) ==> IsTimeline(out, g, from, segs[i - 1].end)
    {
      var kept := KeepKnown(segs[i].answer.users, known.value);
      var seg := segs[i].(answer := if |kept| == 0 then NOBODY else Answer(kept, segs[i].answer.source));
      if IsTimeline(segs, f, from, to) {
        assert forall t :: seg.Holds(t) ==> segs[i].Holds(t);
        MergedTiles(out, seg, from);
        MergedExact(out, seg, g, from);
      }
      if |out| > 0 && out[|out| - 1].answer == seg.answer {
        out := out[|out| - 1 := out[|out| - 1].(end := seg.end)];
      } else {
        out := out + [seg];
      }
    }
  }

  // ---- gaps ----

  /** Separated intervals inside the window that hold exactly the instants nobody covers;
      being separated, each is as long as it can be. */
  ghost predicate GapsAre(gaps: seq<Segment>, f: int -> Answer, from: int, to: int) {
    Apart(gaps, from, to) && HoldUncovered(gaps, f, from, to)
  }

  ghost predicate Apart(gaps: seq<Segment>, from: int, to: int) {
    && (forall i :: 0 <= i < |gaps| ==> from <= gaps[i].start < gaps[i].end <= to)
    && (forall i, j :: 0 <= i < j < |gaps| ==> gaps[i].end < gaps[j].start)
  }

  ghost predicate HoldUncovered(gaps: seq<Segment>, f: int -> Answer, from: int, to: int) {
    && (forall i, t :: 0 <= i < |gaps| && gaps[i].Holds(t) ==> |f(t).users| == 0)
    && (forall t :: from <= t < to && |f(t).users| == 0 ==> exists i :: 0 <= i < |gaps| && gaps[i].Holds(t))
  }

  predicate Empty(seg: Segment) { |seg.answer.users| == 0 }

  ghost predicate NothingNamed(f: int -> Answer) {
    forall t :: |f(t).users| == 0 ==> f(t) == NOBODY
  }

  /** Two neighbouring segments are never both empty. */
  lemma NoTwoEmpty(segs: seq<Segment>, i: nat, f: int -> Answer, from: int, to: int)
    requires IsTimeline(segs, f, from, to) && NothingNamed(f) && 0 < i < |segs|
    ensures !(Empty(segs[i - 1]) && Empty(segs[i]))
  {
    assert segs[i - 1].Holds(segs[i - 1].start) && segs[i].Holds(segs[i].start);
    assert segs[i].answer == f(segs[i].start) && segs[i - 1].answer == f(segs[i - 1].start);
  }

  /** The gap list after one more segment. */
  function GapsWith(gaps: seq<Segment>, seg: Segment): seq<Segment> {
    if Empty(seg) then gaps + [seg] else gaps
  }

  lemma GapsHold(gaps: seq<Segment>, seg: Segment, f: int -> Answer, from: int)
    requires HoldUncovered(gaps, f, from, seg.start) && from <= seg.start < seg.end
    requires forall t :: seg.Holds(t) ==> seg.answer == f(t)
    ensures HoldUncovered(GapsWith(gaps, seg), f, from, seg.end)
  {
    var out := GapsWith(gaps, seg);
    forall j, t | 0 <= j < |out| && out[j].Holds(t) ensures |f(t).users| == 0 {
      if j == |gaps| { assert seg.Holds(t); } else { assert gaps[j].Holds(t); }
    }
    forall t | from <= t < seg.end && |f(t).users| == 0
      ensures exists j :: 0 <= j < |out| && out[j].Holds(t)
    {
      if t < seg.start {
        var j :| 0 <= j < |gaps| && gaps[j].Holds(t);
        assert out[j].Holds(t);
      } else {
        assert seg.Holds(t);
        assert out[|out| - 1].Holds(t);
      }
    }
  }

  lemma GapsStayApart(gaps: seq<Segment>, seg: Segment, from: int)
    requires Apart(gaps, from, seg.start) && from <= seg.start < seg.end
    requires |gaps| > 0 && gaps[|gaps| - 1].end == seg.start ==> !Empty(seg)
    ensures Apart(GapsWith(gaps, seg), from, seg.end)
    ensures var out := GapsWith(gaps, seg); |out| > 0 && out[|out| - 1].end == seg.end ==> Empty(seg)
  {
    if Empty(seg) {
      var out := gaps + [seg];
      forall i, j | 0 <= i < j < |out| ensures out[i].end < out[j].start {
        if j < |gaps| {
          assert gaps[i].end < gaps[j].start;
        } else {
          GapEndsBefore(gaps, from, seg.start, i);
        }
      }
    }
  }

  lemma GapEndsBefore(gaps: seq<Segment>, from: int, to: int, i: nat)
    requires Apart(gaps, from, to) && i < |gaps|
    ensures gaps[i].end <= gaps[|gaps| - 1].end <= to
  {
  }

  lemma GapTurn(segs: seq<Segment>, i: nat, gaps: seq<Segment>, f: int -> Answer, from: int, to: int)
    requires IsTimeline(segs, f, from, to) && NothingNamed(f) && i < |segs|
    requires GapsAre(gaps, f, from, segs[i].start)
    requires |gaps| > 0 && gaps[|gaps| - 1].end == segs[i].start ==> i > 0 && Empty(segs[i - 1])
    ensures var out := GapsWith(gaps, segs[i]);
      GapsAre(out, f, from, segs[i].end) &&
      (|out| > 0 && out[|out| - 1].end == segs[i].end ==> Empty(segs[i]))
  {
    hide Apart; hide HoldUncovered; hide NothingNamed; hide NeighboursDiffer;
    TilesAfter(segs, from, to, i);
    if i > 0 { NoTwoEmpty(segs, i, f, from, to); }
    GapsHold(gaps, segs[i], f, from);
    GapsStayApart(gaps, segs[i], from);
  }

  lemma {:induction false} TilesAfter(segs: seq<Segment>, from: int, to: int, i: nat)
    requires Tiles(segs, from, to) && i < |segs|
    ensures from <= segs[i].start
    decreases i
  {
    if i > 0 { TilesAfter(segs, from, to, i - 1); }
  }

  method CollectGaps(segs: seq<Segment>, ghost f: int -> Answer, ghost from: int, ghost to: int)
    returns (gaps: seq<Segment>)
    ensures segs == [] ==> gaps == []
    ensures IsTimeline(segs, f, from, to) && NothingNamed(f) ==> GapsAre(gaps, f, from, to)
  {
    ghost var timeline := IsTimeline(segs, f, from, to) && NothingNamed(f);
    gaps := [];
    for i := 0 to |segs|
      invariant i == 0 ==> gaps == []
      invariant timeline ==> GapsAre(gaps, f, from, if i == 0 then from else segs[i - 1].end)
      invariant timeline && i > 0 && |gaps| > 0 && gaps[|gaps| - 1].end == segs[i - 1].end ==> Empty(segs[i - 1])
    {
      if timeline { GapTurn(segs, i, gaps, f, from, to); }
      if |segs[i].answer.users| == 0 { gaps := gaps + [segs[i]]; }
    }
  }

  /** scheduleGaps: empty exactly when every instant has a known person on call, and
      otherwise exactly the maximal uncovered intervals. */
  method ScheduleGaps(s: Schedule, ghost o: int, from: int, to: int, known: Option<set<string>>)
    returns (gaps: seq<Segment>)
    requires s.Valid()
    ensures to <= from ==> gaps == []
    ensures from < to && ExactOver(s, o, from, to) ==> GapsReport(s, known, from, to, gaps)
    ensures from < to && ExactOver(s, o, from, to) ==>
      (gaps == [] <==> forall t :: from <= t < to ==> Covered(s, known, t))
  {
    hide ResolveAt; hide Covered; hide GapsReport; hide ExactOver; hide IsTimeline; hide GapsAre;
    var segs := ScheduleTimeline(s, o, from, to);
    var shown := ApplyRoster(segs, known, Resolver(s), from, to);
    ghost var f := Shown(s, known);
    if from < to && ExactOver(s, o, from, to) {
      SameAnswers(shown, RosterResolver(Resolver(s), known), f, from, to);
    }
    gaps := CollectGaps(shown, f, from, to);
    if from < to && ExactOver(s, o, from, to) {
      GapsMean(s, known, from, to, gaps);
    }
  }

  /** The gaps are separated intervals of the window, and an instant lies in one exactly when
      nobody known is on call. */
  ghost predicate GapsReport(s: Schedule, known: Option<set<string>>, from: int, to: int, gaps: seq<Segment>)
    requires s.Valid()
  {
    && Apart(gaps, from, to)
    && forall t :: from <= t < to ==> ((exists i :: 0 <= i < |gaps| && gaps[i].Holds(t)) <==> !Covered(s, known, t))
  }

  lemma GapsMean(s: Schedule, known: Option<set<string>>, from: int, to: int, gaps: seq<Segment>)
    requires s.Valid() && GapsAre(gaps, Shown(s, known), from, to)
    ensures GapsReport(s, known, from, to, gaps)
    ensures gaps == [] <==> forall t :: from <= t < to ==> Covered(s, known, t)
  {
    hide ResolveAt; hide Covered; hide ShowsKnown; hide Doubled;
    forall t | from <= t < to
      ensures (exists i :: 0 <= i < |gaps| && gaps[i].Holds(t)) <==> !Covered(s, known, t)
    {
      ShownMeans(s, known, t);
    }
    if gaps != [] {
      assert gaps[0].Holds(gaps[0].start);
      assert !Covered(s, known, gaps[0].start);
    }
  }

  lemma SameAnswers(segs: seq<Segment>, f: int -> Answer, g: int -> Answer, from: int, to: int)
    requires IsTimeline(segs, f, from, to) && forall t :: f(t) == g(t)
    ensures IsTimeline(segs, g, from, to)
  {
  }

  // ---- the preview ----

  /** How many instants of [a, b) have somebody on call. */
  ghost function CoveredInstants(f: int -> Answer, a: int, b: int): (n: nat)
    ensures a <= b ==> n <= b - a
    decreases b - a
  {
    if b <= a then 0
    else CoveredInstants(f, a, b - 1) + (if |f(b - 1).users| > 0 then 1 else 0)
  }

  lemma {:induction false} CoveredStretch(f: int -> Answer, a: int, m: int, b: int, covered: bool)
    requires a <= m <= b
    requires forall t :: m <= t < b ==> (|f(t).users| > 0 <==> covered)
    ensures CoveredInstants(f, a, b) == CoveredInstants(f, a, m) + (if covered then b - m else 0)
    decreases b - m
  {
    if m < b { CoveredStretch(f, a, m, b - 1, covered); }
  }

  function GapTime(gaps: seq<Segment>): int {
    if gaps == [] then 0 else GapTime(gaps[..|gaps| - 1]) + (gaps[|gaps| - 1].end - gaps[|gaps| - 1].start)
  }

  ghost predicate OverlapsAre(overlaps: seq<Segment>, f: int -> Answer, from: int, to: int) {
    && (forall i :: 0 <= i < |overlaps| ==> from <= overlaps[i].start && overlaps[i].end <= to)
    && (forall i, t :: 0 <= i < |overlaps| && overlaps[i].Holds(t) ==> |f(t).users| > 1)
    && (forall t :: from <= t < to && |f(t).users| > 1 ==> exists i :: 0 <= i < |overlaps| && overlaps[i].Holds(t))
  }

  datatype Preview = Preview(to: int, segments: seq<Segment>, gaps: seq<Segment>, overlaps: seq<Segment>, covered: int)

  /** The totals after the first `i` segments. */
  ghost predicate Totals(segs: seq<Segment>, i: nat, gaps: seq<Segment>, overlaps: seq<Segment>, covered: int,
                         f: int -> Answer, from: int)
    requires i <= |segs|
  {
    var reached := if i == 0 then from else segs[i - 1].end;
    && GapsAre(gaps, f, from, reached) && OverlapsAre(overlaps, f, from, reached)
    && covered == CoveredInstants(f, from, reached) && covered + GapTime(gaps) == reached - from
    && (i == 0 ==> gaps == [])
    && (i > 0 && |gaps| > 0 && gaps[|gaps| - 1].end == segs[i - 1].end ==> Empty(segs[i - 1]))
  }

  lemma TotalsTurn(segs: seq<Segment>, i: nat, gaps: seq<Segment>, overlaps: seq<Segment>, covered: int,
                   f: int -> Answer, from: int, to: int)
    requires IsTimeline(segs, f, from, to) && NothingNamed(f) && i < |segs|
    requires Totals(segs, i, gaps, overlaps, covered, f, from)
    ensures Totals(segs, i + 1, GapsWith(gaps, segs[i]), OverlapsWith(overlaps, segs[i]),
      CoveredWith(covered, segs[i]), f, from)
  {
    hide GapsAre; hide OverlapsAre; hide CoveredInstants; hide GapTime; hide NeighboursDiffer; hide Exact;
    hide NothingNamed;
    GapTurn(segs, i, gaps, f, from, to);
    OverlapTurn(segs, i, overlaps, f, from, to);
    TimeTurn(segs, i, gaps, f, from, to);
  }

  function OverlapsWith(overlaps: seq<Segment>, seg: Segment): seq<Segment> {
    if |seg.answer.users| > 1 then overlaps + [seg] else overlaps
  }

  function CoveredWith(covered: int, seg: Segment): int {
    if Empty(seg) then covered else covered + (seg.end - seg.start)
  }

  lemma TimeTurn(segs: seq<Segment>, i: nat, gaps: seq<Segment>, f: int -> Answer, from: int, to: int)
    requires IsTimeline(segs, f, from, to) && i < |segs|
    ensures var seg := segs[i];
      && CoveredInstants(f, from, seg.end) ==
           CoveredInstants(f, from, seg.start) + (if Empty(seg) then 0 else seg.end - seg.start)
      && GapTime(gaps + [seg]) == GapTime(gaps) + (seg.end - seg.start)
  {
    var seg := segs[i];
    TilesAfter(segs, from, to, i);
    forall t | seg.start <= t < seg.end ensures |f(t).users| > 0 <==> !Empty(seg) {
      assert seg.Holds(t);
    }
    CoveredStretch(f, from, seg.start, seg.end, !Empty(seg));
    assert (gaps + [seg])[..|gaps|] == gaps;
  }

  /** What the accumulated totals mean. */
  ghost predicate TotalsAre(gaps: seq<Segment>, overlaps: seq<Segment>, covered: int, f: int -> Answer, from: int,
                            to: int) {
    && GapsAre(gaps, f, from, to) && OverlapsAre(overlaps, f, from, to)
    && covered == CoveredInstants(f, from, to) && covered + GapTime(gaps) == to - from
  }

  /** The accumulation loop of PreviewSchedule. */
  method Accumulate(segs: seq<Segment>, ghost f: int -> Answer, ghost from: int, ghost to: int)
    returns (gaps: seq<Segment>, overlaps: seq<Segment>, covered: int)
    ensures IsTimeline(segs, f, from, to) && NothingNamed(f) ==> TotalsAre(gaps, overlaps, covered, f, from, to)
  {
    ghost var exact := IsTimeline(segs, f, from, to) && NothingNamed(f);
    assert exact ==> segs != [] && segs[|segs| - 1].end == to;
    hide Totals; hide TotalsAre; hide IsTimeline; hide NothingNamed;
    gaps, overlaps, covered := [], [], 0;
    NoTotals(segs, f, from);
    for i := 0 to |segs|
      invariant exact ==> Totals(segs, i, gaps, overlaps, covered, f, from)
    {
      if exact { TotalsTurn(segs, i, gaps, overlaps, covered, f, from, to); }
      var seg := segs[i];
      if |seg.answer.users| == 0 {
        gaps := gaps + [seg];
      } else {
        covered := covered + (seg.end - seg.start);
        if |seg.answer.users| > 1 { overlaps := overlaps + [seg]; }
      }
    }
    if exact { AllTotals(segs, gaps, overlaps, covered, f, from); }
  }

  lemma NoTotals(segs: seq<Segment>, f: int -> Answer, from: int)
    ensures Totals(segs, 0, [], [], 0, f, from)
  {
  }

  lemma AllTotals(segs: seq<Segment>, gaps: seq<Segment>, overlaps: seq<Segment>, covered: int, f: int -> Answer,
                  from: int)
    requires segs != [] && Totals(segs, |segs|, gaps, overlaps, covered, f, from)
    ensures TotalsAre(gaps, overlaps, covered, f, from, segs[|segs| - 1].end)
  {
  }

  lemma OverlapTurn(segs: seq<Segment>, i: nat, overlaps: seq<Segment>, f: int -> Answer, from: int, to: int)
    requires IsTimeline(segs, f, from, to) && i < |segs|
    requires OverlapsAre(overlaps, f, from, segs[i].start)
    ensures OverlapsAre(OverlapsWith(overlaps, segs[i]), f, from, segs[i].end)
  {
    var seg := segs[i];
    TilesAfter(segs, from, to, i);
    var out := OverlapsWith(overlaps, seg);
    forall i, t | 0 <= i < |out| && out[i].Holds(t) ensures |f(t).users| > 1 {
      if i < |overlaps| { assert overlaps[i].Holds(t); } else { assert seg.Holds(t); }
    }
    forall t | from <= t < seg.end && |f(t).users| > 1 ensures exists i :: 0 <= i < |out| && out[i].Holds(t) {
      if t < seg.start {
        var i :| 0 <= i < |overlaps| && overlaps[i].Holds(t);
        assert out[i].Holds(t);
      } else {
        assert seg.Holds(t) && out[|out| - 1].Holds(t);
      }
    }
  }

  /** How many instants of [a, b) have somebody known on call. */
  ghost function CoveredTime(s: Schedule, known: Option<set<string>>, a: int, b: int): int
    requires s.Valid()
    decreases b - a
  {
    if b <= a then 0 else CoveredTime(s, known, a, b - 1) + (if Covered(s, known, b - 1) then 1 else 0)
  }

  lemma {:induction false} CoveredTimeIs(s: Schedule, known: Option<set<string>>, a: int, b: int)
    requires s.Valid()
    ensures CoveredInstants(Shown(s, known), a, b) == CoveredTime(s, known, a, b)
    decreases b - a
  {
    hide ResolveAt; hide Covered; hide ShowsKnown; hide Doubled;
    if a < b {
      CoveredTimeIs(s, known, a, b - 1);
      ShownMeans(s, known, b - 1);
    }
  }

  /** What a preview says of its window: segments that tile it, differ from their neighbours and
      hold exactly the known people of every instant; gaps, overlaps and covered time of exactly
      the instants with nobody, with several and with somebody known; and times that add up. */
  ghost predicate PreviewMeans(s: Schedule, known: Option<set<string>>, from: int, p: Preview)
    requires s.Valid()
  {
    && Tiles(p.segments, from, p.to) && NeighboursDiffer(p.segments)
    && (forall i, t :: 0 <= i < |p.segments| && p.segments[i].Holds(t) ==>
         ShowsKnown(ResolveAt(s, t), known, p.segments[i].answer))
    && GapsReport(s, known, from, p.to, p.gaps)
    && (forall t :: from <= t < p.to ==>
         ((exists i :: 0 <= i < |p.overlaps| && p.overlaps[i].Holds(t)) <==> Doubled(s, known, t)))
    && p.covered == CoveredTime(s, known, from, p.to)
    && p.covered + GapTime(p.gaps) == p.to - from
  }

  lemma PreviewIsMeant(s: Schedule, known: Option<set<string>>, from: int, p: Preview)
    requires s.Valid() && IsTimeline(p.segments, Shown(s, known), from, p.to)
    requires TotalsAre(p.gaps, p.overlaps, p.covered, Shown(s, known), from, p.to)
    ensures PreviewMeans(s, known, from, p)
  {
    hide ResolveAt; hide Covered; hide ShowsKnown; hide Doubled; hide GapsReport; hide GapsAre; hide GapTime;
    GapsMean(s, known, from, p.to, p.gaps);
    CoveredTimeIs(s, known, from, p.to);
    forall i, t | 0 <= i < |p.segments| && p.segments[i].Holds(t)
      ensures ShowsKnown(ResolveAt(s, t), known, p.segments[i].answer)
    {
      ShownMeans(s, known, t);
    }
    forall t | from <= t < p.to
      ensures (exists i :: 0 <= i < |p.overlaps| && p.overlaps[i].Holds(t)) <==> Doubled(s, known, t)
    {
      ShownMeans(s, known, t);
    }
  }

  /** PreviewSchedule: four weeks unless asked otherwise and never more than 180 days; where the
      schedule is tracked over the window the preview means what it says. */
  method PreviewSchedule(s: Schedule, ghost o: int, from: int, requested: Option<int>, known: set<string>)
    returns (p: Option<Preview>)
    requires s.Valid()
    ensures p.None? <==> requested.Some? && requested.value <= from
    ensures p.Some? && requested.None? ==> p.value.to == from + 28 * 86_400_000_000_000
    ensures p.Some? && requested.Some? && requested.value <= from + 180 * 86_400_000_000_000 ==>
      p.value.to == requested.value
    ensures p.Some? && requested.Some? && requested.value > from + 180 * 86_400_000_000_000 ==>
      p.value.to == from + 180 * 86_400_000_000_000
    ensures p.Some? && Tracked(s, o, from, p.value.to) ==> PreviewMeans(s, Some(known), from, p.value)
  {
    hide TotalsAre; hide IsTimeline; hide Tracked; hide ResolveAt; hide PreviewMeans;
    var to := if requested.Some? then requested.value else from + 28 * DAY;
    if to <= from { return None; }
    if to - from > MAX_WINDOW { to := from + MAX_WINDOW; }
    ghost var f := Shown(s, Some(known));
    var segs := ScheduleTimeline(s, o, from, to);
    var shown := ApplyRoster(segs, Some(known), Resolver(s), from, to);
    if IsTimeline(shown, RosterResolver(Resolver(s), Some(known)), from, to) {
      SameAnswers(shown, RosterResolver(Resolver(s), Some(known)), f, from, to);
    }
    var gaps, overlaps, covered := Accumulate(shown, f, from, to);
    var preview := Preview(to, shown, gaps, overlaps, covered);
    p := Some(preview);
    if Tracked(s, o, from, to) { PreviewIsMeant(s, Some(known), from, preview); }
  }

  // ---- the end of a stretch ----

  /** The source steps seven calendar days; instants are UTC, where that is seven times 24 hours. */
  const HORIZON: int := 7 * DAY

  /** What the end of a stretch promises: it is found exactly when the user is on call at `at`;
      then the answer stays the same throughout [at, end), so the user is on call at every
      instant of it, and at `end` the answer changes unless the week's horizon cut the search. */
  ghost predicate StretchEnds(s: Schedule, user: string, at: int, end: int, ok: bool)
    requires s.Valid()
  {
    && (ok <==> user in ResolveAt(s, at).users)
    && (ok ==> at < end <= at + HORIZON)
    && (ok ==> forall t :: at <= t < end ==> ResolveAt(s, t) == ResolveAt(s, at) && user in ResolveAt(s, t).users)
    && (ok && end < at + HORIZON ==> ResolveAt(s, end) != ResolveAt(s, at))
  }

  method ShiftEndFor(s: Schedule, ghost o: int, user: string, at: int) returns (end: int, ok: bool)
    requires s.Valid()
    ensures Tracked(s, o, at, at + HORIZON) ==> StretchEnds(s, user, at, end, ok)
  {
    var segs := ScheduleTimeline(s, o, at, at + HORIZON);
    hide Tracked; hide ResolveAt; hide StretchEnds;
    assert segs[0].Holds(at);
    var i := 0;
    while i < |segs|
      invariant 0 <= i <= |segs|
      invariant i > 0 ==> user !in segs[0].answer.users
    {
      if segs[i].start > at { break; }
      if segs[i].end <= at { i := i + 1; continue; }
      StartsInOrder(segs, at, at + HORIZON, i);
      if user in segs[i].answer.users {
        if Tracked(s, o, at, at + HORIZON) { FirstStretchEnds(s, segs, user, at); }
        return segs[i].end, true;
      }
      i := i + 1;
    }
    if Tracked(s, o, at, at + HORIZON) { NoStretch(s, segs, user, at); }
    return 0, false;
  }

  lemma FirstStretchEnds(s: Schedule, segs: seq<Segment>, user: string, at: int)
    requires s.Valid() && IsTimeline(segs, Resolver(s), at, at + HORIZON) && user in segs[0].answer.users
    ensures StretchEnds(s, user, at, segs[0].end, true)
  {
    hide ResolveAt;
    var f := Resolver(s);
    assert segs[0].Holds(at);
    EndsWithin(segs, at, at + HORIZON);
    forall t | at <= t < segs[0].end ensures f(t) == f(at) { assert segs[0].Holds(t); }
    if |segs| > 1 { assert segs[1].Holds(segs[0].end); }
  }

  lemma NoStretch(s: Schedule, segs: seq<Segment>, user: string, at: int)
    requires s.Valid() && IsTimeline(segs, Resolver(s), at, at + HORIZON) && user !in segs[0].answer.users
    ensures StretchEnds(s, user, at, 0, false)
  {
    assert segs[0].Holds(at);
    assert segs[0].answer == Resolver(s)(at);
  }

  lemma {:induction false} StartsInOrder(segs: seq<Segment>, from: int, to: int, i: nat)
    requires Tiles(segs, from, to) && i < |segs|
    ensures i > 0 ==> segs[i].start > from
    decreases i
  {
    if i > 1 { StartsInOrder(segs, from, to, i - 1); }
  }
}
