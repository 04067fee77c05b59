/**
  The stored form of a rotation: reading a payload, writing it back, and exactly which
  rotations survive the trip.
 */
module RotationText {
  import opened Instants
  import opened Rotations
  import opened Text

  // ---- the payload ----

  /** A list of strings as JSON may hold it. */
  datatype RawList = Missing | NotAList | Items(items: seq<string>)

  /** A start_at text: blank, one no format matches, or one that denotes an instant. */
  datatype TimeText = Blank | Unreadable | Denotes(t: int)

  datatype RawRestriction = NoObject | RawRestriction(start: string, end: string, days: RawList)

  datatype RawRotation = RawRotation(
    enabled: Option<bool>,
    interval: int,
    unit: string,
    participants: RawList,
    startAt: TimeText,
    restriction: RawRestriction)

  datatype Parsed<T> = Accepted(value: T) | Rejected

  // ---- text ----

  function Lower(s: string): (r: string)
    ensures |r| == |s|
  {
    seq(|s|, i requires 0 <= i < |s| => if 'A' <= s[i] <= 'Z' then (s[i] as int + 32) as char else s[i])
  }

  function Trim(s: string): string {
    if s == "" then ""
    else if IsSpace(s[0]) then Trim(s[1..])
    else if IsSpace(s[|s| - 1]) then Trim(s[..|s| - 1])
    else s
  }

  function Coerced(list: RawList): Parsed<seq<string>> {
    match list
    case Missing => Accepted([])
    case NotAList => Rejected
    case Items(items) => Accepted(items)
  }

  // ---- clock minutes ----

  /** One or two hour digits, a colon, two minute digits and nothing else. */
  function ParseClock(text: string): Parsed<int> {
    var s := Trim(text);
    if s == "" || !IsDigit(s[0]) then Rejected
    else
      var wide := |s| > 1 && IsDigit(s[1]);
      var hour := if wide then 10 * DigitValue(s[0]) + DigitValue(s[1]) else DigitValue(s[0]);
      var rest := if wide then s[2..] else s[1..];
      if |rest| != 3 || rest[0] != ':' || !IsDigit(rest[1]) || !IsDigit(rest[2]) then Rejected
      else
        var minute := 10 * DigitValue(rest[1]) + DigitValue(rest[2]);
        if hour >= 24 || minute >= 60 then Rejected else Accepted(60 * hour + minute)
  }

  function DigitValue(c: char): int { c as int - '0' as int }

  function FormatClock(m: int): string
    requires 0 <= m < 1440
  {
    [Digit(m / 60 / 10), Digit(m / 60 % 10), ':', Digit(m % 60 / 10), Digit(m % 60 % 10)]
  }

  lemma ClockReadsBack(m: int)
    requires 0 <= m < 1440
    ensures FormatClock(m) != "" && ParseClock(FormatClock(m)) == Accepted(m)
  {
    var s := FormatClock(m);
    assert Trim(s) == s;
    assert s[2..] == [s[2], s[3], s[4]];
  }

  lemma ClockInRange(text: string)
    ensures ParseClock(text).Accepted? ==> 0 <= ParseClock(text).value < 1440
  {
  }

  // ---- weekdays ----

  /** weekdayOrder: Monday to Saturday, then Sunday. */
  const ORDER: seq<Weekday> := [1, 2, 3, 4, 5, 6, 0]

  function DayName(d: Weekday): string {
    match d
    case 0 => "sun"
    case 1 => "mon"
    case 2 => "tue"
    case 3 => "wed"
    case 4 => "thu"
    case 5 => "fri"
    case _ => "sat"
  }

  function DayOf(key: string): Option<Weekday> {
    if key == "sun" then Some(0)
    else if key == "mon" then Some(1)
    else if key == "tue" then Some(2)
    else if key == "wed" then Some(3)
    else if key == "thu" then Some(4)
    else if key == "fri" then Some(5)
    else if key == "sat" then Some(6)
    else None
  }

  function ReadDay(text: string): Option<Weekday> {
    var key := Lower(Trim(text));
    DayOf(if |key| > 3 then key[..3] else key)
  }

  /** The days named, or None when one of them is no weekday. */
  function SeenDays(days: seq<string>): Option<set<Weekday>> {
    if days == [] then Some({})
    else
      var before, day := SeenDays(days[..|days| - 1]), ReadDay(days[|days| - 1]);
      if before.None? || day.None? then None else Some(before.value + {day.value})
  }

  /** The days of a set in the order they are stored. */
  function Ordered(seen: set<Weekday>, order: seq<Weekday>): seq<Weekday> {
    if order == [] then []
    else Ordered(seen, order[..|order| - 1]) + (if order[|order| - 1] in seen then [order[|order| - 1]] else [])
  }

  /** The two loops over the day names. */
  method NormaliseDays(days: seq<string>) returns (r: Parsed<seq<Weekday>>)
    ensures r.Rejected? <==> exists i :: 0 <= i < |days| && ReadDay(days[i]).None?
    ensures r.Accepted? ==> Canonical(r.value)
    ensures r.Accepted? ==> forall d :: d in r.value <==> exists i :: 0 <= i < |days| && ReadDay(days[i]) == Some(d)
    ensures r == if SeenDays(days).None? then Rejected else Accepted(Ordered(SeenDays(days).value, ORDER))
  {
    hide ReadDay;
    SeenDaysAre(days);
    var seen: set<Weekday> := {};
    for i := 0 to |days|
      invariant SeenDays(days[..i]) == Some(seen)
    {
      assert days[..i + 1][..i] == days[..i];
      var day := ReadDay(days[i]);
      if day.None? {
        NoDayNoSet(days, i + 1);
        return Rejected;
      }
      seen := seen + {day.value};
    }
    assert days[..|days|] == days;
    var out: seq<Weekday> := [];
    for i := 0 to |ORDER|
      invariant out == Ordered(seen, ORDER[..i])
    {
      assert ORDER[..i + 1][..i] == ORDER[..i];
      if ORDER[i] in seen { out := out + [ORDER[i]]; }
    }
    assert ORDER[..|ORDER|] == ORDER;
    OrderedIsCanonical(seen);
    assert forall d :: d in out <==> d in DaySet(out);
    return Accepted(out);
  }

  /** The set is refused for a name that is no weekday, and otherwise holds the days named. */
  lemma {:induction false} SeenDaysAre(days: seq<string>)
    ensures SeenDays(days).None? <==> exists i :: 0 <= i < |days| && ReadDay(days[i]).None?
    ensures SeenDays(days).Some? ==>
      forall d :: d in SeenDays(days).value <==> exists i :: 0 <= i < |days| && ReadDay(days[i]) == Some(d)
    decreases |days|
  {
    hide ReadDay;
    if days != [] {
      var k := |days| - 1;
      SeenDaysAre(days[..k]);
      assert forall i :: 0 <= i < k ==> days[..k][i] == days[i];
    }
  }

  lemma {:induction false} NoDayNoSet(days: seq<string>, k: nat)
    requires k <= |days| && SeenDays(days[..k]).None?
    ensures SeenDays(days).None?
    decreases |days|
  {
    if k < |days| {
      assert days[..|days| - 1][..k] == days[..k];
      NoDayNoSet(days[..|days| - 1], k);
    } else {
      assert days[..k] == days;
    }
  }

  /** Where a day stands in the week that begins on Monday. */
  function Position(d: Weekday): int { (d + 6) % 7 }

  /** Stored days: from Monday to Sunday, none twice. */
  predicate Canonical(days: seq<Weekday>) {
    forall i, j :: 0 <= i < j < |days| ==> Position(days[i]) < Position(days[j])
  }

  function DaySet(days: seq<Weekday>): set<Weekday> { set d | d in days }

  function DayNames(days: seq<Weekday>): (names: seq<string>)
    ensures |names| == |days| && forall i :: 0 <= i < |names| ==> names[i] == DayName(days[i])
  {
    seq(|days|, i requires 0 <= i < |days| => DayName(days[i]))
  }

  lemma NamesDiffer()
    ensures "sun"[0] == 's' && "sun"[1] == 'u' && "sat"[1] == 'a' && "mon"[0] == 'm' && "wed"[0] == 'w' &&
      "fri"[0] == 'f'
    ensures "tue"[0] == 't' && "tue"[1] == 'u' && "thu"[0] == 't' && "thu"[1] == 'h' && "sat"[0] == 's'
  {
  }

  lemma DayReadsBack(d: Weekday)
    ensures ReadDay(DayName(d)) == Some(d)
  {
    NamesDiffer();
    var s := DayName(d);
    assert |s| == 3 && forall i :: 0 <= i < 3 ==> 'a' <= s[i] <= 'z';
    assert Trim(s) == s;
    assert Lower(s) == s;
  }

  lemma {:induction false} NamesReadBack(days: seq<Weekday>)
    ensures SeenDays(DayNames(days)) == Some(DaySet(days))
    decreases |days|
  {
    hide DayName; hide ReadDay;
    if days != [] {
      var k := |days| - 1;
      NamesReadBack(days[..k]);
      DayReadsBack(days[k]);
      assert DayNames(days)[..k] == DayNames(days[..k]);
      assert days == days[..k] + [days[k]];
      assert DaySet(days) == DaySet(days[..k]) + {days[k]};
    } else {
      assert DayNames(days) == [] && DaySet(days) == {};
    }
  }

  lemma {:induction false} OrderedHolds(seen: set<Weekday>, order: seq<Weekday>)
    ensures forall d :: d in Ordered(seen, order) <==> d in order && d in seen
    decreases |order|
  {
    if order != [] {
      OrderedHolds(seen, order[..|order| - 1]);
      assert order == order[..|order| - 1] + [order[|order| - 1]];
    }
  }

  lemma {:induction false} OrderedRises(seen: set<Weekday>, k: nat)
    requires k <= |ORDER|
    ensures Canonical(Ordered(seen, ORDER[..k]))
    ensures forall i :: 0 <= i < |Ordered(seen, ORDER[..k])| ==> Position(Ordered(seen, ORDER[..k])[i]) < k
    decreases k
  {
    if k > 0 {
      OrderedRises(seen, k - 1);
      assert ORDER[..k][..k - 1] == ORDER[..k - 1];
      assert Position(ORDER[k - 1]) == k - 1;
    }
  }

  /** The days come out from Monday to Sunday without repeats, and are the days named. */
  lemma OrderedIsCanonical(seen: set<Weekday>)
    ensures Canonical(Ordered(seen, ORDER)) && DaySet(Ordered(seen, ORDER)) == seen
  {
    OrderedRises(seen, |ORDER|);
    assert ORDER[..|ORDER|] == ORDER;
    OrderedHolds(seen, ORDER);
    EveryDayListed();
  }

  lemma LastIsLatest(days: seq<Weekday>, d: Weekday)
    requires Canonical(days) && d in days
    ensures Position(d) <= Position(days[|days| - 1])
    ensures DaySet(days[..|days| - 1]) == DaySet(days) - {days[|days| - 1]}
  {
    var k := |days| - 1;
    assert days == days[..k] + [days[k]];
    forall x | x in days[..k] ensures x != days[k] {
      var i :| 0 <= i < k && days[..k][i] == x;
      assert Position(days[i]) < Position(days[k]);
    }
    var i :| 0 <= i < |days| && days[i] == d;
  }

  lemma NoDaysNoList(days: seq<Weekday>)
    ensures days == [] <==> DaySet(days) == {}
  {
    if days != [] { assert days[0] in DaySet(days); }
  }

  /** A set of days has one canonical list. */
  lemma {:induction false} CanonicalUnique(a: seq<Weekday>, b: seq<Weekday>)
    requires Canonical(a) && Canonical(b) && DaySet(a) == DaySet(b)
    ensures a == b
    decreases |a|
  {
    if a == [] {
      assert DaySet(a) == {};
      NoDaysNoList(b);
    } else {
      var i, j := |a| - 1, |b| - 1;
      assert a[i] in DaySet(b) && a[i] in b;
      assert b[j] in DaySet(a);
      LastIsLatest(a, b[j]);
      LastIsLatest(b, a[i]);
      assert a[i] == b[j];
      CanonicalUnique(a[..i], b[..j]);
      assert a == a[..i] + [a[i]] && b == b[..j] + [b[j]];
    }
  }

  lemma CanonicalIsOrdered(days: seq<Weekday>)
    requires Canonical(days)
    ensures Ordered(DaySet(days), ORDER) == days
  {
    OrderedIsCanonical(DaySet(days));
    CanonicalUnique(Ordered(DaySet(days), ORDER), days);
  }

  lemma EveryDayListed()
    ensures forall d: Weekday :: d in ORDER
  {
    assert ORDER[0] == 1 && ORDER[1] == 2 && ORDER[2] == 3 && ORDER[3] == 4 && ORDER[4] == 5 && ORDER[5] == 6 &&
      ORDER[6] == 0;
  }

  // ---- restrictions and rotations ----

  function ParseRestriction(raw: RawRestriction): Parsed<Option<Restriction>> {
    if raw.NoObject? || (raw.start == "" && raw.end == "") then Accepted(None)
    else
      var start, end := ParseClock(raw.start), ParseClock(raw.end);
      if start.Rejected? || end.Rejected? || start.value == end.value then Rejected
      else
        var days := Coerced(raw.days);
        if days.Rejected? || SeenDays(days.value).None? then Rejected
        else Accepted(Some(Restriction(start.value, end.value, Ordered(SeenDays(days.value).value, ORDER))))
  }

  function UnitOf(text: string): Option<Unit> {
    var s := Lower(if text == "" then "weeks" else text);
    if s == "hours" then Some(Hours) else if s == "days" then Some(Days) else if s == "weeks" then Some(Weeks) else None
  }

  function UnitName(u: Unit): string {
    match u
    case Hours => "hours"
    case Days => "days"
    case Weeks => "weeks"
  }

  /** parseRotation. Without start_at only a rotation without participants is accepted, and
      then its restriction is not read. */
  function ParseRotation(raw: RawRotation): Parsed<Rotation> {
    var enabled := if raw.enabled.Some? then raw.enabled.value else true;
    var interval := if raw.interval <= 0 then 1 else raw.interval;
    var ids, unit := Coerced(raw.participants), UnitOf(raw.unit);
    if ids.Rejected? || unit.None? then Rejected
    else if raw.startAt.Blank? then
      if ids.value == [] then Accepted(Rotation(enabled, 0, interval, unit.value, [], None)) else Rejected
    else if raw.startAt.Unreadable? then Rejected
    else
      var res := ParseRestriction(raw.restriction);
      if res.Rejected? then Rejected
      else Accepted(Rotation(enabled, raw.startAt.t, interval, unit.value, ids.value, res.value))
  }

  /** The instants whose UTC year is written with four digits: years 0 to 9999. */
  predicate FourDigitYear(t: int) { -366 * DAY <= t < 3652059 * DAY }

  function Truncated(t: int): int { t - t % SECOND }

  /** ToISO keeps whole seconds; a year of another width is a text no format matches. */
  function IsoText(t: int): TimeText {
    if FourDigitYear(Truncated(t)) then Denotes(Truncated(t)) else Unreadable
  }

  function RestrictionJson(res: Option<Restriction>): RawRestriction
    requires res.Some? ==> res.value.Valid()
  {
    if res.None? then NoObject
    else RawRestriction(FormatClock(res.value.startMinute), FormatClock(res.value.endMinute),
      Items(DayNames(res.value.days)))
  }

  /** rotationJSON. */
  function RotationJson(r: Rotation): RawRotation
    requires r.Valid()
  {
    RawRotation(Some(r.enabled), r.interval, UnitName(r.unit), Items(r.participants),
                if r.startAt == 0 then Blank else IsoText(r.startAt), RestrictionJson(r.restriction))
  }

  // ---- the round trip ----

  /** What parsing guarantees: a valid rotation whose days are in canonical order. */
  lemma AcceptedIsNormal(raw: RawRotation)
    requires ParseRotation(raw).Accepted?
    ensures ParseRotation(raw).value.Valid()
    ensures var res := ParseRotation(raw).value.restriction; res.Some? ==> Canonical(res.value.days)
  {
    if raw.startAt.Denotes? { RestrictionIsNormal(raw.restriction); }
  }

  lemma RestrictionIsNormal(raw: RawRestriction)
    ensures var p := ParseRestriction(raw);
      p.Accepted? && p.value.Some? ==> p.value.value.Valid() && Canonical(p.value.value.days)
  {
    if raw.RawRestriction? && !raw.days.NotAList? {
      ClockInRange(raw.start);
      ClockInRange(raw.end);
      var seen := SeenDays(Coerced(raw.days).value);
      if seen.Some? { OrderedIsCanonical(seen.value); }
    }
  }

  lemma UnitReadsBack(u: Unit)
    ensures UnitOf(UnitName(u)) == Some(u)
  {
    assert |"hours"| == 5 && "hours"[0] == 'h' && "weeks"[0] == 'w' && |"days"| == 4;
    assert Lower("hours") == "hours" && Lower("days") == "days" && Lower("weeks") == "weeks";
  }

  lemma RestrictionReadsBack(res: Restriction)
    requires res.Valid() && Canonical(res.days)
    ensures ParseRestriction(RestrictionJson(Some(res))) == Accepted(Some(res))
  {
    hide ParseClock; hide FormatClock;
    ClockReadsBack(res.startMinute);
    ClockReadsBack(res.endMinute);
    NamesReadBack(res.days);
    CanonicalIsOrdered(res.days);
  }

  /** What reading the stored form back gives, for every rotation a payload was accepted as. */
  lemma StoredFormReads(r: Rotation)
    requires r.Valid() && (r.restriction.Some? ==> Canonical(r.restriction.value.days))
    ensures ParseRotation(RotationJson(r)) ==
      if r.startAt == 0 then (if r.participants == [] then Accepted(r.(restriction := None)) else Rejected)
      else if FourDigitYear(Truncated(r.startAt)) then Accepted(r.(startAt := Truncated(r.startAt)))
      else Rejected
  {
    hide ParseRestriction; hide RestrictionJson; hide UnitOf; hide UnitName;
    UnitReadsBack(r.unit);
    if r.restriction.Some? { RestrictionReadsBack(r.restriction.value); } else { NoRestrictionReadsBack(); }
  }

  lemma NoRestrictionReadsBack()
    ensures ParseRestriction(RestrictionJson(None)) == Accepted(None)
  {
  }

  /** A rotation whose stored form holds all of it. */
  predicate Storable(r: Rotation) {
    if r.startAt == 0 then r.participants == [] && r.restriction.None?
    else r.startAt % SECOND == 0 && FourDigitYear(r.startAt)
  }

  /** The round trip gives the rotation back exactly when its start is a whole second of a
      four-digit year, other than the zero time unless nothing depends on it. */
  lemma RoundTripIff(raw: RawRotation)
    requires ParseRotation(raw).Accepted?
    ensures ParseRotation(raw).value.Valid()
    ensures var r := ParseRotation(raw).value;
      ParseRotation(RotationJson(r)) == Accepted(r) <==> Storable(r)
  {
    AcceptedIsNormal(raw);
    var r := ParseRotation(raw).value;
    hide ParseRotation; hide RotationJson;
    StoredFormReads(r);
  }

  /** A payload accepted with half a second in its start_at does not survive. */
  lemma SubSecondStartIsLost(raw: RawRotation, t: int)
    requires ParseRotation(raw).Accepted? && raw.startAt == Denotes(t) && t % SECOND != 0
    ensures ParseRotation(raw).value.Valid() &&
      ParseRotation(RotationJson(ParseRotation(raw).value)) != ParseRotation(raw)
  {
    RoundTripIff(raw);
  }

  /** What was stored and read back once is stored the same from then on. */
  lemma NormalisingTwiceIsOnce(raw: RawRotation)
    requires ParseRotation(raw).Accepted? && ParseRotation(raw).value.Valid()
    requires ParseRotation(RotationJson(ParseRotation(raw).value)).Accepted?
    ensures var once := RotationJson(ParseRotation(raw).value);
      ParseRotation(once).value.Valid() &&
      (RotationJson(ParseRotation(once).value) == once <==>
         var r := ParseRotation(raw).value;
         if r.startAt == 0 then r.restriction.None? else Truncated(r.startAt) != 0)
  {
    AcceptedIsNormal(raw);
    var r := ParseRotation(raw).value;
    StoredFormReads(r);
    AcceptedIsNormal(RotationJson(r));
    hide ParseRotation;
    TruncatedTwice(r.startAt);
  }

  lemma TruncatedTwice(t: int)
    ensures Truncated(Truncated(t)) == Truncated(t)
  {
  }

  // ---- what is read ----

  /** What is read of a payload: the interval or one, the unit or weeks, enabled unless it says
      otherwise, the participants as listed and the start it denotes. */
  lemma FieldsAreRead(raw: RawRotation)
    requires ParseRotation(raw).Accepted?
    ensures var r := ParseRotation(raw).value;
      && r.interval == (if raw.interval > 0 then raw.interval else 1)
      && (raw.unit == "" ==> r.unit == Weeks)
      && (r.enabled <==> raw.enabled != Some(false))
      && r.participants == (if raw.participants.Items? then raw.participants.items else [])
      && r.startAt == (if raw.startAt.Denotes? then raw.startAt.t else 0)
  {
    if raw.unit == "" { UnitReadsBack(Weeks); }
  }

  lemma SameTrimSameClock(a: string, b: string)
    requires Trim(a) == Trim(b)
    ensures ParseClock(a) == ParseClock(b)
  {
  }

  lemma FormatIsTrimmed(m: int)
    requires 0 <= m < 1440
    ensures Trim(FormatClock(m)) == FormatClock(m)
  {
  }

  lemma WideClockReads(text: string, m: int)
    requires 0 <= m < 1440 && |Trim(text)| == 5
    ensures ParseClock(text) == Accepted(m) <==> Trim(text) == FormatClock(m)
  {
    if Trim(text) == FormatClock(m) {
      hide ParseClock; hide FormatClock; hide Trim;
      FormatIsTrimmed(m);
      SameTrimSameClock(text, FormatClock(m));
      ClockReadsBack(m);
    } else {
      WideClockIsFormatted(text, m);
    }
  }

  lemma WideClockIsFormatted(text: string, m: int)
    requires 0 <= m < 1440 && |Trim(text)| == 5
    ensures ParseClock(text) == Accepted(m) ==> Trim(text) == FormatClock(m)
  {
    var s := Trim(text);
    hide Trim;
    assert s[2..] == [s[2], s[3], s[4]] && |s[1..]| == 4;
    if ParseClock(text) == Accepted(m) {
      DigitsOf(s[0], s[1]);
      DigitsOf(s[3], s[4]);
      SplitClock(10 * DigitValue(s[0]) + DigitValue(s[1]), 10 * DigitValue(s[3]) + DigitValue(s[4]));
    }
  }

  lemma SplitClock(hour: int, minute: int)
    requires 0 <= hour && 0 <= minute < 60
    ensures (60 * hour + minute) / 60 == hour && (60 * hour + minute) % 60 == minute
  {
  }

  lemma NarrowClockIsFormatted(text: string, m: int)
    requires 0 <= m < 1440 && |Trim(text)| == 4
    ensures ParseClock(text) == Accepted(m) ==> m < 600 && Trim(text) == FormatClock(m)[1..]
  {
    var s := Trim(text);
    hide Trim;
    assert s[1..] == [s[1], s[2], s[3]] && |s[2..]| == 2;
    if ParseClock(text) == Accepted(m) {
      DigitsOf(s[2], s[3]);
      SplitClock(DigitValue(s[0]), 10 * DigitValue(s[2]) + DigitValue(s[3]));
    }
  }

  lemma FormattedNarrowReads(text: string, m: int)
    requires 0 <= m < 600 && Trim(text) == FormatClock(m)[1..]
    ensures ParseClock(text) == Accepted(m)
  {
    var s := Trim(text);
    hide Trim;
    var h, n := m / 60, m % 60;
    assert h % 10 == h && 0 <= h < 10 && 0 <= n < 60 && m == 60 * h + n;
    assert s == [Digit(h), ':', Digit(n / 10), Digit(n % 10)];
    assert s[1..] == [s[1], s[2], s[3]];
  }

  /** A clock text is read exactly if it is HH:MM or H:MM of some minute of the day, give or take
      the space around it. */
  lemma ClockReadsIff(text: string, m: int)
    requires 0 <= m < 1440
    ensures ParseClock(text) == Accepted(m) <==>
      Trim(text) == FormatClock(m) || (m < 600 && Trim(text) == FormatClock(m)[1..])
  {
    if |Trim(text)| == 5 {
      WideClockReads(text, m);
    } else if |Trim(text)| == 4 {
      NarrowClockIsFormatted(text, m);
      if m < 600 && Trim(text) == FormatClock(m)[1..] { FormattedNarrowReads(text, m); }
    }
  }

  lemma DigitsOf(a: char, b: char)
    requires IsDigit(a) && IsDigit(b)
    ensures var v := 10 * DigitValue(a) + DigitValue(b);
      0 <= v < 100 && Digit(v / 10) == a && Digit(v % 10) == b
  {
  }
}
