/**
  The per-target circuit breaker: the object as the delivery stages share it, and what
  it guarantees over every run of calls.
 */
module CircuitBreaker {
  import opened Instants

  const DEFAULT_COOLDOWN: int := 30 * SECOND

  /** openUntil is None while the zero time: closed. */
  datatype Entry = Entry(failures: nat, openUntil: Option<int>)

  type States = map<string, Entry>

  predicate Admits(states: States, key: string, now: int) {
    key !in states || states[key].openUntil.None? || now >= states[key].openUntil.value
  }

  predicate Opened(states: States, key: string) { key in states && states[key].openUntil.Some? }

  /** The table after Allow and after Record. */
  function AfterAllow(cooldown: int, states: States, key: string, now: int): States {
    if Opened(states, key) && Admits(states, key, now)
    then states[key := states[key].(openUntil := Some(now + cooldown))] else states
  }

  function AfterRecord(threshold: int, cooldown: int, states: States, key: string, success: bool, now: int): States {
    if success then states - {key}
    else
      var e := if key in states then states[key] else Entry(0, None);
      states[key := Entry(e.failures + 1, if e.failures + 1 >= threshold then Some(now + cooldown) else e.openUntil)]
  }

  class Breaker {
    const threshold: int
    const cooldown: int
    var states: States

    constructor (threshold: int, cooldown: int)
      requires threshold > 0
      ensures this.threshold == threshold && states == map[]
      ensures this.cooldown == if cooldown > 0 then cooldown else 30 * SECOND
    {
      this.threshold := threshold;
      this.cooldown := if cooldown <= 0 then DEFAULT_COOLDOWN else cooldown;
      states := map[];
    }

    method Allow(key: string, now: int) returns (admitted: bool)
      modifies this
      ensures admitted == Admits(old(states), key, now)
      ensures states == AfterAllow(cooldown, old(states), key, now)
    {
      if key !in states || states[key].openUntil.None? { return true; }
      if now < states[key].openUntil.value { return false; }
      states := states[key := states[key].(openUntil := Some(now + cooldown))];
      return true;
    }

    method Record(key: string, success: bool, now: int)
      modifies this
      ensures states == AfterRecord(threshold, cooldown, old(states), key, success, now)
    {
      if success {
        states := states - {key};
        return;
      }
      if key !in states { states := states[key := Entry(0, None)]; }
      states := states[key := states[key].(failures := states[key].failures + 1)];
      if states[key].failures >= threshold {
        states := states[key := states[key].(openUntil := Some(now + cooldown))];
      }
    }
  }

  // ---- runs ----

  datatype Event = Asked(key: string, at: int) | Recorded(key: string, success: bool, at: int)

  datatype Settings = Settings(threshold: int, cooldown: int) {
    predicate Valid() { threshold > 0 && cooldown > 0 }
  }

  function After(cfg: Settings, states: States, e: Event): States {
    match e
    case Asked(key, at) => AfterAllow(cfg.cooldown, states, key, at)
    case Recorded(key, success, at) => AfterRecord(cfg.threshold, cfg.cooldown, states, key, success, at)
  }

  /** The table a run of events leaves behind, from an empty one. */
  function Table(cfg: Settings, events: seq<Event>): States {
    if events == [] then map[] else After(cfg, Table(cfg, events[..|events| - 1]), events[|events| - 1])
  }

  predicate Succeeds(e: Event, key: string) { e.key == key && e.Recorded? && e.success }

  predicate Fails(e: Event, key: string) { e.key == key && e.Recorded? && !e.success }

  /** The failures of a key since its last success. */
  function FailuresSince(events: seq<Event>, key: string): nat {
    if events == [] then 0
    else
      var e := events[|events| - 1];
      if Succeeds(e, key) then 0
      else FailuresSince(events[..|events| - 1], key) + (if Fails(e, key) then 1 else 0)
  }

  /** The i-th event asks for the key and is let through. */
  predicate Admitted(cfg: Settings, events: seq<Event>, i: nat, key: string)
    requires i < |events|
  {
    events[i].Asked? && events[i].key == key && Admits(Table(cfg, events[..i]), key, events[i].at)
  }

  predicate InOrder(events: seq<Event>) {
    forall i, j :: 0 <= i < j < |events| ==> events[i].at <= events[j].at
  }

  // ---- the count ----

  /** After every run the counter is the number of failures since the last success, and the
      breaker is open exactly when that number has reached the threshold. */
  lemma {:induction false} CountsFailures(cfg: Settings, events: seq<Event>, key: string)
    requires cfg.Valid()
    ensures var t := Table(cfg, events);
      && (if key in t then t[key].failures == FailuresSince(events, key) > 0 else FailuresSince(events, key) == 0)
      && (Opened(t, key) <==> FailuresSince(events, key) >= cfg.threshold)
    decreases |events|
  {
    if events != [] { CountsFailures(cfg, events[..|events| - 1], key); }
  }

  // ---- spacing ----

  lemma Ordered(events: seq<Event>, i: nat, j: nat)
    requires InOrder(events) && i < j < |events|
    ensures events[i].at <= events[j].at
  {
  }

  lemma EventKeepsOpen(cfg: Settings, states: States, e: Event, key: string, floor: int)
    requires cfg.Valid() && Opened(states, key) && states[key].openUntil.value >= floor
    requires !Succeeds(e, key) && e.at + cfg.cooldown >= floor
    ensures Opened(After(cfg, states, e), key) && After(cfg, states, e)[key].openUntil.value >= floor
  {
  }

  /** From a moment after `i` on, with no success since, the breaker stays open for a cooldown
      counted from event `i`. */
  lemma {:induction false} StaysOpenFrom(cfg: Settings, events: seq<Event>, i: nat, j: nat, key: string)
    requires cfg.Valid() && InOrder(events) && i < j <= |events|
    requires Opened(Table(cfg, events[..i + 1]), key) &&
      Table(cfg, events[..i + 1])[key].openUntil.value >= events[i].at + cfg.cooldown
    requires forall k :: i < k < j ==> !Succeeds(events[k], key)
    ensures Opened(Table(cfg, events[..j]), key)
    ensures Table(cfg, events[..j])[key].openUntil.value >= events[i].at + cfg.cooldown
    decreases j
  {
    hide Table; hide After; hide InOrder;
    if j > i + 1 {
      StaysOpenFrom(cfg, events, i, j - 1, key);
      TableStep(cfg, events, j - 1);
      Ordered(events, i, j - 1);
      EventKeepsOpen(cfg, Table(cfg, events[..j - 1]), events[j - 1], key, events[i].at + cfg.cooldown);
    }
  }

  lemma TableStep(cfg: Settings, events: seq<Event>, k: nat)
    requires k < |events|
    ensures Table(cfg, events[..k + 1]) == After(cfg, Table(cfg, events[..k]), events[k])
  {
    assert events[..k + 1][..k] == events[..k];
  }

  /** Once open and until the next success, an admitted call and the next admitted call are at
      least a cooldown apart; so are the failure that opened the breaker, or any later failure,
      and the next admitted call. */
  lemma TrialsAreSpaced(cfg: Settings, events: seq<Event>, i: nat, j: nat, key: string)
    requires cfg.Valid() && InOrder(events) && i < j < |events|
    requires Admitted(cfg, events, j, key)
    requires (Admitted(cfg, events, i, key) && FailuresSince(events[..i], key) >= cfg.threshold) ||
             (Fails(events[i], key) && FailuresSince(events[..i + 1], key) >= cfg.threshold)
    requires forall k :: i < k < j ==> !Succeeds(events[k], key)
    ensures events[j].at >= events[i].at + cfg.cooldown
  {
    CountsFailures(cfg, events[..i], key);
    CountsFailures(cfg, events[..i + 1], key);
    TableStep(cfg, events, i);
    StaysOpenFrom(cfg, events, i, j, key);
  }

  // ---- recovery ----

  /** The i-th event pushes the key's reopening time out: an admission or a failure. */
  predicate Touches(cfg: Settings, events: seq<Event>, i: nat, key: string)
    requires i < |events|
  {
    Admitted(cfg, events, i, key) || Fails(events[i], key)
  }

  lemma {:induction false} OpenSinceTouch(cfg: Settings, events: seq<Event>, j: nat, key: string)
    requires cfg.Valid() && j <= |events|
    ensures var t := Table(cfg, events[..j]);
      Opened(t, key) ==>
        exists i: nat :: i < j && Touches(cfg, events, i, key) && t[key].openUntil.value == events[i].at + cfg.cooldown
    decreases j
  {
    if j > 0 {
      OpenSinceTouch(cfg, events, j - 1, key);
      TableStep(cfg, events, j - 1);
      var was, t := Table(cfg, events[..j - 1]), Table(cfg, events[..j]);
      if Opened(t, key) && !(Opened(was, key) && t[key].openUntil == was[key].openUntil) {
        assert Touches(cfg, events, j - 1, key);
      }
    }
  }

  /** A key is always admitted again once a cooldown has passed with no further admission or
      failure, whatever order the clock readings came in. */
  lemma AdmittedAfterCooldown(cfg: Settings, events: seq<Event>, key: string, now: int)
    requires cfg.Valid()
    requires forall i: nat :: i < |events| && Touches(cfg, events, i, key) ==> events[i].at + cfg.cooldown <= now
    ensures Admits(Table(cfg, events), key, now)
  {
    assert events[..|events|] == events;
    OpenSinceTouch(cfg, events, |events|, key);
  }
}
