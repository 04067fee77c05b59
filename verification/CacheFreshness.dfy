/**
  Freshness of the reference cache over every interleaving of callers, loads, writes
  and invalidations.
 */
module CacheFreshness {
  import opened Instants
  import opened RefCache

  /** A load. `born` counts the invalidations of its collection before it began and `floor`
      is the newest acknowledged version then; both are history. */
  datatype Flight = Flight(name: string, born: nat, floor: nat, stamp: Option<int>, read: Option<Entry>,
                           landed: bool, closed: bool)

  datatype Phase =
    | Started
    | Asked(clock: int)
    | Missed
    | Leading(flight: nat)
    | Waiting(flight: nat)
    | Returned(entry: Entry, at: int, hit: bool)
    | GaveUp

  /** One refCollection call, with what had been invalidated and acknowledged when it began. */
  datatype Call = Call(name: string, invBefore: nat, ackedBefore: nat, phase: Phase)

  /** A write through the wrapped store between its commit and its invalidation: the version
      each collection it saved has since. */
  datatype Writer = Writer(versions: map<string, nat>)

  /** A reload of refSet.require between its read and its putEntry. */
  datatype Put = Put(name: string, entry: Entry)

  datatype World = World(
    now: int,
    cache: Cache,
    db: map<string, nat>,
    invs: map<string, nat>,
    acked: map<string, nat>,
    flights: seq<Flight>,
    calls: map<nat, Call>,
    writers: map<nat, Writer>,
    puts: map<nat, Put>)

  function Count(m: map<string, nat>, k: string): nat { if k in m then m[k] else 0 }

  function Bump(m: map<string, nat>, names: set<string>): (r: map<string, nat>)
    ensures forall n :: Count(r, n) == Count(m, n) + (if n in names then 1 else 0)
  {
    m + (map n | n in names :: Count(m, n) + 1)
  }

  function Raise(m: map<string, nat>, vs: map<string, nat>): (r: map<string, nat>)
    ensures forall n :: Count(r, n) == if n in vs && Count(m, n) < vs[n] then vs[n] else Count(m, n)
  {
    m + (map n | n in vs :: if Count(m, n) < vs[n] then vs[n] else Count(m, n))
  }

  datatype Step =
    | Tick(d: nat)
    | StartCall(c: nat, name: string)
    | ReadClock(c: nat)
    | TryGet(c: nat)
    | JoinOrLead(c: nat)
    | Stamp(c: nat)
    | ReadRows(c: nat)
    | LandFlight(c: nat)
    | CloseFlight(c: nat)
    | Wake(c: nat)
    | Cancel(c: nat)
    | Commit(w: nat, names: set<string>)
    | CommitElsewhere(name: string)
    | Invalidate(w: nat)
    | RequireRead(p: nat, name: string, loadedAt: int)
    | RequirePut(p: nat)

  predicate Leads(w: World, c: nat) {
    c in w.calls && w.calls[c].phase.Leading? && w.calls[c].phase.flight < |w.flights|
  }

  function Led(w: World, c: nat): Flight
    requires Leads(w, c)
  {
    w.flights[w.calls[c].phase.flight]
  }

  predicate Enabled(w: World, step: Step) {
    match step
    case Tick(_) => true
    case StartCall(c, _) => c !in w.calls
    case ReadClock(c) => c in w.calls && w.calls[c].phase == Started
    case TryGet(c) => c in w.calls && w.calls[c].phase.Asked?
    case JoinOrLead(c) => c in w.calls && w.calls[c].phase == Missed
    case Stamp(c) => Leads(w, c) && Led(w, c).stamp.None?
    case ReadRows(c) => Leads(w, c) && Led(w, c).stamp.Some? && Led(w, c).read.None? && !Led(w, c).landed
    case LandFlight(c) => Leads(w, c) && Led(w, c).stamp.Some? && !Led(w, c).landed
    case CloseFlight(c) => Leads(w, c) && Led(w, c).landed && !Led(w, c).closed
    case Wake(c) =>
      c in w.calls && (w.calls[c].phase.Leading? || w.calls[c].phase.Waiting?) &&
      w.calls[c].phase.flight < |w.flights| && w.flights[w.calls[c].phase.flight].closed
    case Cancel(c) => c in w.calls && w.calls[c].phase.Waiting?
    case Commit(x, _) => x !in w.writers
    case CommitElsewhere(_) => true
    case Invalidate(x) => x in w.writers
    case RequireRead(p, _, loadedAt) => p !in w.puts && loadedAt <= w.now
    case RequirePut(p) => p in w.puts
  }

  function SetPhase(w: World, c: nat, phase: Phase): World
    requires c in w.calls
  {
    w.(calls := w.calls[c := w.calls[c].(phase := phase)])
  }

  function SetLed(w: World, c: nat, f: Flight): World
    requires Leads(w, c)
  {
    w.(flights := w.flights[w.calls[c].phase.flight := f])
  }

  /** A load that ended without a read is one whose query failed. */
  function Apply(w: World, step: Step): World
    requires Enabled(w, step)
  {
    match step
    case Tick(d) => w.(now := w.now + d)
    case StartCall(c, name) =>
      w.(calls := w.calls[c := Call(name, Count(w.invs, name), Count(w.acked, name), Started)])
    case ReadClock(c) => SetPhase(w, c, Asked(w.now))
    case TryGet(c) =>
      var clock := w.calls[c].phase.clock;
      var e := LookUp(w.cache, w.calls[c].name, clock);
      SetPhase(w, c, if e.Some? then Returned(e.value, clock, true) else Missed)
    case JoinOrLead(c) =>
      var name := w.calls[c].name;
      if name in w.cache.flights then SetPhase(w, c, Waiting(w.cache.flights[name]))
      else
        SetPhase(WithFlight(w, name), c, Leading(|w.flights|))
    case Stamp(c) => SetLed(w, c, Led(w, c).(stamp := Some(w.now)))
    case ReadRows(c) =>
      var f := Led(w, c);
      SetLed(w, c, f.(read := Some(Entry(f.stamp.value, Count(w.db, f.name), w.now, f.born))))
    case LandFlight(c) =>
      SetLed(w.(cache := Land(w.cache, Led(w, c).name, w.calls[c].phase.flight, Led(w, c).read)), c,
        Led(w, c).(landed := true))
    case CloseFlight(c) => SetLed(w, c, Led(w, c).(closed := true))
    case Wake(c) =>
      var f := w.flights[w.calls[c].phase.flight];
      SetPhase(w, c, if f.read.Some? then Returned(f.read.value, w.now, false) else GaveUp)
    case Cancel(c) => SetPhase(w, c, GaveUp)
    case Commit(x, names) =>
      w.(db := Bump(w.db, names),
         writers := w.writers[x := Writer(map n | n in names :: Count(w.db, n) + 1)])
    case CommitElsewhere(name) => w.(db := w.db[name := Count(w.db, name) + 1])
    case Invalidate(x) =>
      var vs := w.writers[x].versions;
      w.(cache := Invalidated(w.cache, vs.Keys),
         invs := Bump(w.invs, vs.Keys),
         acked := Raise(w.acked, vs),
         writers := w.writers - {x})
    case RequireRead(p, name, loadedAt) =>
      w.(puts := w.puts[p := Put(name, Entry(loadedAt, Count(w.db, name), w.now, Count(w.invs, name)))])
    case RequirePut(p) =>
      w.(cache := w.cache.(entries := w.cache.entries[w.puts[p].name := w.puts[p].entry]), puts := w.puts - {p})
  }

  /** No invalidation of the collection came between the reload's read and its putEntry. */
  predicate Undisturbed(w: World, p: nat)
    requires p in w.puts
  {
    w.puts[p].entry.born == Count(w.invs, w.puts[p].name)
  }

  /** An entry nobody can be misled by: too old for every clock still to be taken, and for a
      clock already taken too old or not overtaken before that call began. */
  predicate Resting(w: World, name: string, e: Entry) {
    && w.now - e.loadedAt > w.cache.ttl
    && forall c :: c in w.calls && Tempted(w, c, name, e) ==> w.calls[c].invBefore <= e.born
  }

  /** The call has taken its clock, has not looked yet, and would find the entry young enough. */
  predicate Tempted(w: World, c: nat, name: string, e: Entry)
    requires c in w.calls
  {
    w.calls[c].name == name && w.calls[c].phase.Asked? && w.calls[c].phase.clock - e.loadedAt <= w.cache.ttl
  }

  /** A putEntry that cannot serve anybody rows from before an invalidation. */
  predicate Harmless(w: World, p: nat)
    requires p in w.puts
  {
    Undisturbed(w, p) || Resting(w, w.puts[p].name, w.puts[p].entry)
  }

  /** Every interleaving in which each putEntry of require is harmless. */
  ghost predicate Run(w: World, steps: seq<Step>, t: World)
    decreases |steps|
  {
    if steps == [] then t == w
    else
      && Enabled(w, steps[0])
      && (steps[0].RequirePut? ==> Harmless(w, steps[0].p))
      && Run(Apply(w, steps[0]), steps[1..], t)
  }

  function Fresh(ttl: int): World {
    World(0, Cache(ttl, map[], map[]), map[], map[], map[], [], map[], map[], map[])
  }

  // ---- the invariant ----

  /** Rows read after `inv` invalidations, no older than version `floor` and no newer than now. */
  predicate EntryOk(w: World, name: string, e: Entry, inv: nat, floor: nat) {
    e.born >= inv && floor <= e.version <= Count(w.db, name) && e.loadedAt <= e.readAt <= w.now
  }

  predicate FlightOk(w: World, f: Flight) {
    && f.floor <= Count(w.db, f.name)
    && (f.stamp.Some? ==> f.stamp.value <= w.now)
    && (f.read.Some? ==>
         && f.stamp.Some? && f.read.value.loadedAt == f.stamp.value && f.read.value.born == f.born
         && EntryOk(w, f.name, f.read.value, f.born, f.floor))
  }

  /** The registered flight began after the latest invalidation. */
  predicate RegisteredOk(w: World, name: string)
    requires name in w.cache.flights
  {
    var i := w.cache.flights[name];
    && i < |w.flights| && w.flights[i].name == name && !w.flights[i].landed
    && w.flights[i].born == Count(w.invs, name) && w.flights[i].floor == Count(w.acked, name)
  }

  predicate CallOk(w: World, c: nat)
    requires c in w.calls
  {
    var call := w.calls[c];
    && call.invBefore <= Count(w.invs, call.name) && call.ackedBefore <= Count(w.acked, call.name)
    && (call.phase.Leading? || call.phase.Waiting? ==>
         && call.phase.flight < |w.flights| && w.flights[call.phase.flight].name == call.name
         && w.flights[call.phase.flight].born >= call.invBefore
         && w.flights[call.phase.flight].floor >= call.ackedBefore)
    && (call.phase.Returned? ==>
         && EntryOk(w, call.name, call.phase.entry, call.invBefore, call.ackedBefore)
         && (call.phase.hit ==> call.phase.at - call.phase.entry.readAt <= w.cache.ttl))
  }

  /** Rows that are no newer than the store, and as new as every write acknowledged before any
      call that no invalidation separates from their load. */
  predicate Dated(w: World, name: string, e: Entry) {
    && e.born <= Count(w.invs, name) && e.version <= Count(w.db, name) && e.loadedAt <= e.readAt <= w.now
    && (e.born == Count(w.invs, name) ==> e.version >= Count(w.acked, name))
    && forall c :: c in w.calls && Precedes(w, c, name, e) ==> w.calls[c].ackedBefore <= e.version
  }

  /** The call began before any invalidation after the rows' load. */
  predicate Precedes(w: World, c: nat, name: string, e: Entry)
    requires c in w.calls
  {
    w.calls[c].name == name && w.calls[c].invBefore <= e.born
  }

  predicate CachedOk(w: World, name: string)
    requires name in w.cache.entries
  {
    var e := w.cache.entries[name];
    Dated(w, name, e) && (e.born == Count(w.invs, name) || Resting(w, name, e))
  }

  predicate PutOk(w: World, p: nat)
    requires p in w.puts
  {
    Dated(w, w.puts[p].name, w.puts[p].entry)
  }

  ghost predicate Inv(w: World) {
    && (forall n :: Count(w.acked, n) <= Count(w.db, n))
    && (forall n :: n in w.cache.entries ==> CachedOk(w, n))
    && (forall i :: 0 <= i < |w.flights| ==> FlightOk(w, w.flights[i]))
    && (forall n :: n in w.cache.flights ==> RegisteredOk(w, n))
    && (forall c :: c in w.calls ==> CallOk(w, c))
    && (forall p :: p in w.puts ==> PutOk(w, p))
    && (forall x, n :: x in w.writers && n in w.writers[x].versions ==> w.writers[x].versions[n] <= Count(w.db, n))
  }

  // ---- every step keeps it ----

  /** Rows stay as they are dated while clock and store move on and no call begins. */
  lemma DatedStays(w: World, t: World, name: string, e: Entry)
    requires Dated(w, name, e) && t.calls == w.calls && t.now >= w.now
    requires Count(t.invs, name) >= Count(w.invs, name) && Count(t.db, name) >= Count(w.db, name)
    requires Count(t.invs, name) == Count(w.invs, name) ==> Count(t.acked, name) == Count(w.acked, name)
    ensures Dated(t, name, e)
  {
    forall c | c in t.calls && Precedes(t, c, name, e) ensures t.calls[c].ackedBefore <= e.version {
      assert Precedes(w, c, name, e);
    }
  }

  lemma CachedStays(w: World, t: World, name: string)
    requires name in w.cache.entries && CachedOk(w, name)
    requires name in t.cache.entries && t.cache.entries[name] == w.cache.entries[name]
    requires t.calls == w.calls && t.now >= w.now && t.cache.ttl == w.cache.ttl
    requires Count(t.invs, name) == Count(w.invs, name) && Count(t.acked, name) == Count(w.acked, name)
    requires Count(t.db, name) >= Count(w.db, name)
    ensures CachedOk(t, name)
  {
    var e := w.cache.entries[name];
    DatedStays(w, t, name, e);
    forall c | c in t.calls && Tempted(t, c, name, e)
      ensures e.born == Count(t.invs, name) || t.calls[c].invBefore <= e.born
    {
      assert Tempted(w, c, name, e);
    }
  }

  /** Time and commits only move forward what the invariant bounds from above. */
  lemma ForwardKeeps(w: World, t: World)
    requires Inv(w)
    requires t == w.(now := t.now, db := t.db, writers := t.writers) && t.now >= w.now
    requires forall n :: Count(w.db, n) <= Count(t.db, n)
    requires forall x, n :: x in t.writers && n in t.writers[x].versions ==> t.writers[x].versions[n] <= Count(t.db, n)
    ensures Inv(t)
  {
    hide CachedOk; hide PutOk; hide Dated;
    forall n | n in t.cache.entries ensures CachedOk(t, n) { CachedStays(w, t, n); }
    forall i | 0 <= i < |t.flights| ensures FlightOk(t, t.flights[i]) { assert FlightOk(w, w.flights[i]); }
    forall n | n in t.cache.flights ensures RegisteredOk(t, n) { assert RegisteredOk(w, n); }
    forall c | c in t.calls ensures CallOk(t, c) { assert CallOk(w, c); }
    forall p | p in t.puts ensures PutOk(t, p) { PutStays(w, t, p); }
  }

  lemma PutStays(w: World, t: World, p: nat)
    requires p in w.puts && PutOk(w, p) && p in t.puts && t.puts[p] == w.puts[p]
    requires t.calls == w.calls && t.now >= w.now
    requires var name := w.puts[p].name;
      && Count(t.invs, name) >= Count(w.invs, name) && Count(t.db, name) >= Count(w.db, name)
      && (Count(t.invs, name) == Count(w.invs, name) ==> Count(t.acked, name) == Count(w.acked, name))
    ensures PutOk(t, p)
  {
    DatedStays(w, t, w.puts[p].name, w.puts[p].entry);
  }

  /** A call as it may become: one that has just begun, or one that moved on, with the clock it
      took just now if it took one. */
  predicate Becomes(w: World, c: nat, call: Call) {
    && (call.phase.Asked? ==> call.phase.clock == w.now)
    && if c in w.calls then call == w.calls[c].(phase := call.phase)
       else call.invBefore == Count(w.invs, call.name) && call.ackedBefore == Count(w.acked, call.name)
  }

  lemma DatedWithCall(w: World, c: nat, call: Call, name: string, e: Entry)
    requires Becomes(w, c, call) && Dated(w, name, e)
    ensures Dated(w.(calls := w.calls[c := call]), name, e)
  {
    var t := w.(calls := w.calls[c := call]);
    forall x | x in t.calls && Precedes(t, x, name, e) ensures t.calls[x].ackedBefore <= e.version {
      assert x in w.calls ==> Precedes(w, x, name, e);
    }
  }

  lemma CachedWithCall(w: World, c: nat, call: Call, name: string)
    requires Becomes(w, c, call) && name in w.cache.entries && CachedOk(w, name)
    ensures CachedOk(w.(calls := w.calls[c := call]), name)
  {
    var t, e := w.(calls := w.calls[c := call]), w.cache.entries[name];
    DatedWithCall(w, c, call, name, e);
    forall x | x in t.calls && Tempted(t, x, name, e)
      ensures e.born == Count(t.invs, name) || t.calls[x].invBefore <= e.born
    {
      assert x != c ==> Tempted(w, x, name, e);
    }
  }

  /** Changing one call. */
  lemma CallKeeps(w: World, c: nat, call: Call)
    requires Inv(w) && Becomes(w, c, call)
    requires CallOk(w.(calls := w.calls[c := call]), c)
    ensures Inv(w.(calls := w.calls[c := call]))
  {
    hide CachedOk; hide Dated; hide Becomes;
    var t := w.(calls := w.calls[c := call]);
    forall n | n in t.cache.entries ensures CachedOk(t, n) { CachedWithCall(w, c, call, n); }
    forall i | 0 <= i < |t.flights| ensures FlightOk(t, t.flights[i]) { assert FlightOk(w, w.flights[i]); }
    forall n | n in t.cache.flights ensures RegisteredOk(t, n) { assert RegisteredOk(w, n); }
    forall x | x in t.calls ensures CallOk(t, x) { if x != c { assert CallOk(w, x); } }
    forall p | p in t.puts ensures PutOk(t, p) {
      assert PutOk(w, p);
      DatedWithCall(w, c, call, w.puts[p].name, w.puts[p].entry);
    }
  }

  /** Steps that leave clock, store, calls, entries and puts alone. */
  lemma CachedAndPutsStay(w: World, t: World)
    requires Inv(w)
    requires t == w.(cache := t.cache, flights := t.flights)
    requires t.cache.entries == w.cache.entries && t.cache.ttl == w.cache.ttl
    ensures forall n :: n in t.cache.entries ==> CachedOk(t, n)
    ensures forall p :: p in t.puts ==> PutOk(t, p)
  {
    hide CachedOk; hide PutOk; hide FlightOk; hide RegisteredOk; hide CallOk;
    forall n | n in t.cache.entries ensures CachedOk(t, n) { CachedStays(w, t, n); }
    forall p | p in t.puts ensures PutOk(t, p) { PutStays(w, t, p); }
  }

  /** A new flight for a collection that has none. */
  function WithFlight(w: World, name: string): World {
    w.(cache := w.cache.(flights := w.cache.flights[name := |w.flights|]),
       flights := w.flights + [Flight(name, Count(w.invs, name), Count(w.acked, name), None, None, false, false)])
  }

  lemma NewFlightKeeps(w: World, name: string)
    requires Inv(w)
    ensures Inv(WithFlight(w, name))
  {
    hide CachedOk; hide PutOk; hide Dated; hide Resting;
    var t := WithFlight(w, name);
    CachedAndPutsStay(w, t);
    forall i | 0 <= i < |t.flights| ensures FlightOk(t, t.flights[i]) {
      if i < |w.flights| { assert FlightOk(w, w.flights[i]); }
    }
    forall n | n in t.cache.flights ensures RegisteredOk(t, n) { if n != name { assert RegisteredOk(w, n); } }
    forall x | x in t.calls ensures CallOk(t, x) { assert CallOk(w, x); }
  }

  lemma LeadKeeps(w: World, c: nat)
    requires Inv(w) && Enabled(w, JoinOrLead(c)) && w.calls[c].name !in w.cache.flights
    ensures Inv(Apply(w, JoinOrLead(c)))
  {
    hide Inv;
    assert CallOk(w, c) by { CallIsOk(w, c); }
    NewFlightKeeps(w, w.calls[c].name);
    CallKeeps(WithFlight(w, w.calls[c].name), c, w.calls[c].(phase := Leading(|w.flights|)));
  }

  lemma CallIsOk(w: World, c: nat)
    requires Inv(w) && c in w.calls
    ensures CallOk(w, c)
  {
  }

  /** Changing the flight a call leads, with the cache possibly losing that flight. */
  lemma FlightKeeps(w: World, c: nat, f: Flight)
    requires Inv(w) && Leads(w, c) && FlightOk(w, f)
    requires f.name == Led(w, c).name && f.born == Led(w, c).born && f.floor == Led(w, c).floor
    requires f.landed ==>
      Led(w, c).landed || forall n :: n in w.cache.flights ==> w.cache.flights[n] != w.calls[c].phase.flight
    ensures Inv(SetLed(w, c, f))
  {
    hide CachedOk; hide PutOk; hide Dated; hide Resting;
    var t := SetLed(w, c, f);
    CachedAndPutsStay(w, t);
    forall i | 0 <= i < |t.flights| ensures FlightOk(t, t.flights[i]) { assert FlightOk(w, w.flights[i]); }
    forall n | n in t.cache.flights ensures RegisteredOk(t, n) { assert RegisteredOk(w, n); }
    forall x | x in t.calls ensures CallOk(t, x) { assert CallOk(w, x); }
    forall p | p in t.puts ensures PutOk(t, p) { assert PutOk(w, p); }
  }

  lemma FreshRowsDated(w: World, name: string, e: Entry)
    requires forall c :: c in w.calls ==> CallOk(w, c)
    requires e.born == Count(w.invs, name) && Count(w.acked, name) <= e.version <= Count(w.db, name)
    requires e.loadedAt <= e.readAt <= w.now
    ensures Dated(w, name, e)
  {
    forall c | c in w.calls && Precedes(w, c, name, e) ensures w.calls[c].ackedBefore <= e.version {
      assert CallOk(w, c);
    }
  }

  /** Only the registered flight lands its rows, and it is younger than every invalidation. */
  lemma LandedRowsCached(w: World, i: nat, f: Flight)
    requires Inv(w) && i < |w.flights| && w.flights[i] == f
    ensures var t := w.(cache := Land(w.cache, f.name, i, f.read)); forall n :: n in t.cache.entries ==> CachedOk(t, n)
  {
    hide PutOk; hide Dated; hide Resting; hide CallOk;
    assert FlightOk(w, f);
    var t := w.(cache := Land(w.cache, f.name, i, f.read));
    if f.name in w.cache.flights && w.cache.flights[f.name] == i { assert RegisteredOk(w, f.name); }
    forall n | n in t.cache.entries ensures CachedOk(t, n) {
      if n in w.cache.entries && t.cache.entries[n] == w.cache.entries[n] {
        CachedStays(w, t, n);
      } else {
        FreshRowsDated(w, n, t.cache.entries[n]);
        DatedStays(w, t, n, t.cache.entries[n]);
      }
    }
  }

  lemma LandingKeeps(w: World, i: nat, f: Flight)
    requires Inv(w) && i < |w.flights| && w.flights[i] == f
    ensures Inv(w.(cache := Land(w.cache, f.name, i, f.read)))
  {
    hide CachedOk; hide PutOk;
    var t := w.(cache := Land(w.cache, f.name, i, f.read));
    LandedRowsCached(w, i, f);
    forall j | 0 <= j < |t.flights| ensures FlightOk(t, t.flights[j]) { assert FlightOk(w, w.flights[j]); }
    forall n | n in t.cache.flights ensures RegisteredOk(t, n) { assert RegisteredOk(w, n); }
    forall x | x in t.calls ensures CallOk(t, x) { assert CallOk(w, x); }
    forall p | p in t.puts ensures PutOk(t, p) { PutStays(w, t, p); }
  }

  lemma LandKeeps(w: World, c: nat)
    requires Inv(w) && Enabled(w, LandFlight(c))
    ensures Inv(Apply(w, LandFlight(c)))
  {
    hide EntryOk; hide CallOk; hide PutOk;
    var i, f := w.calls[c].phase.flight, Led(w, c);
    assert FlightOk(w, f);
    LandingKeeps(w, i, f);
    var t := w.(cache := Land(w.cache, f.name, i, f.read));
    forall n | n in w.cache.flights && w.cache.flights[n] == i ensures n == f.name { assert RegisteredOk(w, n); }
    assert FlightOk(t, t.flights[i]);
    FlightKeeps(t, c, f.(landed := true));
  }

  lemma InvalidateRaises(w: World, x: nat, n: string)
    requires Inv(w) && Enabled(w, Invalidate(x))
    ensures var t := Apply(w, Invalidate(x));
      && Count(w.acked, n) <= Count(t.acked, n) <= Count(t.db, n)
      && Count(w.invs, n) <= Count(t.invs, n)
      && (n !in w.writers[x].versions ==>
        Count(t.invs, n) == Count(w.invs, n) && Count(t.acked, n) == Count(w.acked, n))
      && (n in w.writers[x].versions ==>
        Count(t.invs, n) > Count(w.invs, n) && n !in t.cache.entries && n !in t.cache.flights)
  {
  }

  lemma InvalidateKeepsRows(w: World, x: nat)
    requires Inv(w) && Enabled(w, Invalidate(x))
    ensures var t := Apply(w, Invalidate(x));
      (forall n :: n in t.cache.entries ==> CachedOk(t, n)) && (forall p :: p in t.puts ==> PutOk(t, p))
  {
    hide CachedOk; hide PutOk; hide FlightOk; hide RegisteredOk; hide CallOk;
    var t := Apply(w, Invalidate(x));
    forall n | n in t.cache.entries ensures CachedOk(t, n) {
      InvalidateRaises(w, x, n);
      CachedStays(w, t, n);
    }
    forall p | p in t.puts ensures PutOk(t, p) {
      InvalidateRaises(w, x, w.puts[p].name);
      PutStays(w, t, p);
    }
  }

  lemma InvalidateKeepsFlights(w: World, x: nat)
    requires Inv(w) && Enabled(w, Invalidate(x))
    ensures var t := Apply(w, Invalidate(x));
      && (forall i :: 0 <= i < |t.flights| ==> FlightOk(t, t.flights[i]))
      && (forall n :: n in t.cache.flights ==> RegisteredOk(t, n))
  {
    hide CachedOk; hide PutOk; hide CallOk; hide FlightOk;
    var t := Apply(w, Invalidate(x));
    forall i | 0 <= i < |t.flights| ensures FlightOk(t, t.flights[i]) { FlightStays(w, t, w.flights[i]); }
    forall n | n in t.cache.flights ensures RegisteredOk(t, n) {
      InvalidateRaises(w, x, n);
      assert RegisteredOk(w, n);
    }
  }

  lemma CallStays(w: World, t: World, c: nat)
    requires c in w.calls && CallOk(w, c)
    requires t.calls == w.calls && t.flights == w.flights && t.db == w.db && t.now == w.now &&
      t.cache.ttl == w.cache.ttl
    requires var name := w.calls[c].name;
      Count(w.invs, name) <= Count(t.invs, name) && Count(w.acked, name) <= Count(t.acked, name)
    ensures CallOk(t, c)
  {
  }

  lemma FlightStays(w: World, t: World, f: Flight)
    requires FlightOk(w, f) && t.db == w.db && t.now == w.now
    ensures FlightOk(t, f)
  {
  }

  lemma InvalidateKeepsCalls(w: World, x: nat)
    requires Inv(w) && Enabled(w, Invalidate(x))
    ensures var t := Apply(w, Invalidate(x)); forall c :: c in t.calls ==> CallOk(t, c)
  {
    hide CachedOk; hide PutOk; hide FlightOk; hide RegisteredOk; hide CallOk;
    var t := Apply(w, Invalidate(x));
    forall c | c in t.calls ensures CallOk(t, c) {
      InvalidateRaises(w, x, w.calls[c].name);
      CallStays(w, t, c);
    }
  }

  lemma InvalidateKeeps(w: World, x: nat)
    requires Inv(w) && Enabled(w, Invalidate(x))
    ensures Inv(Apply(w, Invalidate(x)))
  {
    hide CachedOk; hide PutOk; hide FlightOk; hide RegisteredOk; hide CallOk;
    var t := Apply(w, Invalidate(x));
    forall n ensures Count(t.acked, n) <= Count(t.db, n) { InvalidateRaises(w, x, n); }
    InvalidateKeepsRows(w, x);
    InvalidateKeepsFlights(w, x);
    InvalidateKeepsCalls(w, x);
  }

  /** Entries and puts may change as long as what they become is in order. */
  lemma RowsMoved(w: World, t: World)
    requires Inv(w)
    requires t == w.(cache := w.cache.(entries := t.cache.entries), puts := t.puts)
    requires forall n :: n in t.cache.entries ==> CachedOk(t, n)
    requires forall p :: p in t.puts ==> PutOk(t, p)
    ensures Inv(t)
  {
    hide CachedOk; hide PutOk;
    forall i | 0 <= i < |t.flights| ensures FlightOk(t, t.flights[i]) { assert FlightOk(w, w.flights[i]); }
    forall n | n in t.cache.flights ensures RegisteredOk(t, n) { assert RegisteredOk(w, n); }
    forall c | c in t.calls ensures CallOk(t, c) { assert CallOk(w, c); }
  }

  /** A harmless put caches rows that are fresh or that nobody can be served. */
  lemma PutKeeps(w: World, p: nat)
    requires Inv(w) && p in w.puts && Harmless(w, p)
    ensures Inv(Apply(w, RequirePut(p)))
  {
    hide FlightOk; hide RegisteredOk; hide CallOk;
    var t, put := Apply(w, RequirePut(p)), w.puts[p];
    forall n | n in t.cache.entries ensures CachedOk(t, n) {
      if n == put.name {
        assert PutOk(w, p);
        DatedStays(w, t, n, put.entry);
        RestingStays(w, t, n, put.entry);
      } else {
        CachedStays(w, t, n);
      }
    }
    forall q | q in t.puts ensures PutOk(t, q) { PutStays(w, t, q); }
    hide CachedOk; hide PutOk; hide Harmless;
    RowsMoved(w, t);
  }

  lemma RestingStays(w: World, t: World, name: string, e: Entry)
    requires t.calls == w.calls && t.now >= w.now && t.cache.ttl == w.cache.ttl
    ensures Resting(w, name, e) ==> Resting(t, name, e)
  {
    if Resting(w, name, e) {
      forall c | c in t.calls && Tempted(t, c, name, e) ensures t.calls[c].invBefore <= e.born {
        assert Tempted(w, c, name, e);
      }
    }
  }

  lemma RequireReadKeeps(w: World, p: nat, name: string, loadedAt: int)
    requires Inv(w) && Enabled(w, RequireRead(p, name, loadedAt))
    ensures Inv(Apply(w, RequireRead(p, name, loadedAt)))
  {
    hide FlightOk; hide RegisteredOk; hide CallOk;
    var t := Apply(w, RequireRead(p, name, loadedAt));
    forall n | n in t.cache.entries ensures CachedOk(t, n) { CachedStays(w, t, n); }
    forall q | q in t.puts ensures PutOk(t, q) {
      if q == p {
        FreshRowsDated(w, name, t.puts[p].entry);
        DatedStays(w, t, name, t.puts[p].entry);
      } else {
        PutStays(w, t, q);
      }
    }
    hide CachedOk; hide PutOk;
    RowsMoved(w, t);
  }

  /** What the cache serves a call is as fresh as the call may expect. */
  lemma ServedIsFresh(w: World, c: nat)
    requires Inv(w) && Enabled(w, TryGet(c))
    ensures CallOk(Apply(w, TryGet(c)), c)
  {
    var call := w.calls[c];
    assert CallOk(w, c);
    var e := LookUp(w.cache, call.name, call.phase.clock);
    if e.Some? {
      assert CachedOk(w, call.name);
      if e.value.born != Count(w.invs, call.name) { assert Tempted(w, c, call.name, e.value); }
      assert Precedes(w, c, call.name, e.value);
    }
  }

  /** What a call learns from a flight is as fresh as it may expect, too. */
  lemma CallStepOk(w: World, c: nat, step: Step)
    requires Inv(w) && Enabled(w, step) && step in {ReadClock(c), Wake(c), Cancel(c), JoinOrLead(c)}
    requires step == JoinOrLead(c) ==> w.calls[c].name in w.cache.flights
    ensures CallOk(Apply(w, step), c)
  {
    hide CachedOk; hide PutOk;
    assert CallOk(w, c);
    if step == JoinOrLead(c) { assert RegisteredOk(w, w.calls[c].name); }
    if step == Wake(c) { assert FlightOk(w, w.flights[w.calls[c].phase.flight]); }
  }

  lemma CallStepKeeps(w: World, c: nat, step: Step)
    requires Inv(w) && Enabled(w, step)
    requires step in {ReadClock(c), TryGet(c), Wake(c), Cancel(c), JoinOrLead(c)}
    requires step == JoinOrLead(c) ==> w.calls[c].name in w.cache.flights
    ensures Inv(Apply(w, step))
  {
    hide Inv; hide CallOk; hide LookUp;
    if step == TryGet(c) { ServedIsFresh(w, c); } else { CallStepOk(w, c, step); }
    CallKeeps(w, c, Apply(w, step).calls[c]);
  }

  lemma StartCallKeeps(w: World, c: nat, name: string)
    requires Inv(w) && Enabled(w, StartCall(c, name))
    ensures Inv(Apply(w, StartCall(c, name)))
  {
    hide Inv;
    CallKeeps(w, c, Call(name, Count(w.invs, name), Count(w.acked, name), Started));
  }

  lemma ClockAndCommitsKeep(w: World, step: Step)
    requires Inv(w) && Enabled(w, step) && (step.Tick? || step.Commit? || step.CommitElsewhere?)
    ensures Inv(Apply(w, step))
  {
    hide EntryOk; hide FlightOk; hide CallOk; hide PutOk; hide RegisteredOk;
    ForwardKeeps(w, Apply(w, step));
  }

  /** Taking the clock, reading the rows and waking the waiters change only the flight led. */
  lemma LoadStepKeeps(w: World, c: nat, step: Step)
    requires Inv(w) && step in {Stamp(c), ReadRows(c), CloseFlight(c)} && Enabled(w, step)
    ensures Inv(Apply(w, step))
  {
    hide CallOk; hide PutOk; hide RegisteredOk;
    var f := Led(w, c);
    assert FlightOk(w, f);
    match step
    case Stamp(_) => FlightKeeps(w, c, f.(stamp := Some(w.now)));
    case ReadRows(_) => FlightKeeps(w, c, f.(read := Some(Entry(f.stamp.value, Count(w.db, f.name), w.now, f.born))));
    case CloseFlight(_) => FlightKeeps(w, c, f.(closed := true));
  }

  lemma StepKeeps(w: World, step: Step)
    requires Inv(w) && Enabled(w, step)
    requires step.RequirePut? ==> Harmless(w, step.p)
    ensures Inv(Apply(w, step))
  {
    hide Inv; hide Apply;
    match step
    case Tick(_) => ClockAndCommitsKeep(w, step);
    case Commit(_, _) => ClockAndCommitsKeep(w, step);
    case CommitElsewhere(_) => ClockAndCommitsKeep(w, step);
    case StartCall(c, name) => StartCallKeeps(w, c, name);
    case ReadClock(c) => CallStepKeeps(w, c, step);
    case TryGet(c) => CallStepKeeps(w, c, step);
    case Wake(c) => CallStepKeeps(w, c, step);
    case Cancel(c) => CallStepKeeps(w, c, step);
    case JoinOrLead(c) =>
      if w.calls[c].name in w.cache.flights { CallStepKeeps(w, c, step); } else { LeadKeeps(w, c); }
    case Stamp(c) => LoadStepKeeps(w, c, step);
    case ReadRows(c) => LoadStepKeeps(w, c, step);
    case CloseFlight(c) => LoadStepKeeps(w, c, step);
    case LandFlight(c) => LandKeeps(w, c);
    case Invalidate(x) => InvalidateKeeps(w, x);
    case RequireRead(p, name, at) => RequireReadKeeps(w, p, name, at);
    case RequirePut(p) => PutKeeps(w, p);
  }

  lemma {:induction false} RunKeeps(w: World, steps: seq<Step>, t: World)
    requires Inv(w) && Run(w, steps, t)
    ensures Inv(t)
    decreases |steps|
  {
    hide Inv; hide Apply; hide Harmless;
    if steps != [] {
      StepKeeps(w, steps[0]);
      RunKeeps(Apply(w, steps[0]), steps[1..], t);
    }
  }

  // ---- what holds over every run ----

  /** In every interleaving, a call never returns rows of a load begun before an invalidation
      that preceded the call, so it reflects every write acknowledged before it began; and
      rows served from the cache were read at most one TTL ago, whoever wrote meanwhile. */
  lemma CacheIsFresh(ttl: int, steps: seq<Step>, t: World, c: nat)
    requires Run(Fresh(ttl), steps, t) && c in t.calls && t.calls[c].phase.Returned?
    ensures var call, e := t.calls[c], t.calls[c].phase.entry;
      && e.born >= call.invBefore && e.version >= call.ackedBefore
      && (call.phase.hit ==> call.phase.at - e.readAt <= t.cache.ttl)
  {
    assert Inv(Fresh(ttl));
    RunKeeps(Fresh(ttl), steps, t);
    assert CallOk(t, c);
  }

  /** A superseded flight neither caches its rows nor removes its successor. */
  lemma SupersededFlightLeavesNoTrace(ttl: int, steps: seq<Step>, t: World, c: nat)
    requires Run(Fresh(ttl), steps, t) && Enabled(t, LandFlight(c))
    requires Led(t, c).born < Count(t.invs, Led(t, c).name)
    ensures Apply(t, LandFlight(c)).cache == t.cache
  {
    assert Inv(Fresh(ttl));
    RunKeeps(Fresh(ttl), steps, t);
    var name := Led(t, c).name;
    if name in t.cache.flights { assert RegisteredOk(t, name); }
  }

  // ---- exactly when a put of require may be served stale ----

  /** A call that came back with rows loaded before an invalidation preceding it. */
  predicate Misled(t: World, c: nat, e: Entry) {
    c in t.calls && t.calls[c].phase.Returned? && t.calls[c].phase.entry == e && e.born < t.calls[c].invBefore
  }

  /** Some continuation of the put serves its rows to a call they are too old for. */
  ghost predicate CanMislead(w: World, p: nat)
    requires p in w.puts
  {
    exists steps, t, c :: Run(Apply(w, RequirePut(p)), steps, t) && Misled(t, c, w.puts[p].entry)
  }

  lemma RunCons(w: World, step: Step, steps: seq<Step>, t: World)
    requires Enabled(w, step) && !step.RequirePut? && Run(Apply(w, step), steps, t)
    ensures Run(w, [step] + steps, t)
  {
    assert ([step] + steps)[1..] == steps;
  }

  lemma FreshCallId(calls: map<nat, Call>) returns (c: nat)
    ensures c !in calls
  {
    c := 0;
    ghost var seen: set<nat> := {};
    while c in calls
      invariant seen <= calls.Keys && forall x :: x in seen <==> 0 <= x < c
      invariant |seen| == c
      decreases |calls.Keys| - c
    {
      seen := seen + {c};
      InKeys(seen, calls.Keys);
      c := c + 1;
    }
  }

  lemma InKeys(a: set<nat>, b: set<nat>)
    requires a <= b
    ensures |a| <= |b|
  {
    assert b == a + (b - a);
  }

  /** An overtaken put that is young enough for a clock taken now misleads the next call. */
  lemma NextCallIsMisled(w: World, p: nat)
    requires p in w.puts && PutOk(w, p) && !Undisturbed(w, p) && w.now - w.puts[p].entry.loadedAt <= w.cache.ttl
    ensures CanMislead(w, p)
  {
    hide Run;
    var name, e := w.puts[p].name, w.puts[p].entry;
    var w1 := Apply(w, RequirePut(p));
    var c := FreshCallId(w1.calls);
    var w2 := Apply(w1, StartCall(c, name));
    var w3 := Apply(w2, ReadClock(c));
    var w4 := Apply(w3, TryGet(c));
    assert Misled(w4, c, e);
    RunNone(w4);
    RunCons(w3, TryGet(c), [], w4);
    RunCons(w2, ReadClock(c), [TryGet(c)] + [], w4);
    RunCons(w1, StartCall(c, name), [ReadClock(c)] + ([TryGet(c)] + []), w4);
  }

  /** And so is a call that took its clock in time and has yet to look. */
  lemma TemptedCallIsMisled(w: World, p: nat, c: nat)
    requires p in w.puts && c in w.calls && Tempted(w, c, w.puts[p].name, w.puts[p].entry)
    requires w.puts[p].entry.born < w.calls[c].invBefore
    ensures CanMislead(w, p)
  {
    hide Run;
    var w1 := Apply(w, RequirePut(p));
    var w2 := Apply(w1, TryGet(c));
    assert Misled(w2, c, w.puts[p].entry);
    RunNone(w2);
    RunCons(w1, TryGet(c), [], w2);
  }

  lemma RunNone(w: World)
    ensures Run(w, [], w)
  {
  }

  /** In every reachable world: a putEntry of require can serve some call rows loaded before an
      invalidation that preceded the call exactly when it is not harmless, that is when an
      invalidation overtook it and a clock that still counts finds its rows young enough. */
  lemma PutMisleadsIff(ttl: int, steps: seq<Step>, w: World, p: nat)
    requires Run(Fresh(ttl), steps, w) && p in w.puts
    ensures CanMislead(w, p) <==> !Harmless(w, p)
  {
    hide Apply;
    FreshIsOk(ttl);
    RunKeeps(Fresh(ttl), steps, w);
    assert PutOk(w, p);
    if Harmless(w, p) {
      PutKeeps(w, p);
      forall more, t, c | Run(Apply(w, RequirePut(p)), more, t) ensures !Misled(t, c, w.puts[p].entry) {
        RunKeeps(Apply(w, RequirePut(p)), more, t);
        if c in t.calls { assert CallOk(t, c); }
      }
    } else if w.now - w.puts[p].entry.loadedAt <= w.cache.ttl {
      NextCallIsMisled(w, p);
    } else {
      var c :| c in w.calls && Tempted(w, c, w.puts[p].name, w.puts[p].entry) &&
        w.puts[p].entry.born < w.calls[c].invBefore;
      TemptedCallIsMisled(w, p, c);
    }
  }

  lemma FreshIsOk(ttl: int)
    ensures Inv(Fresh(ttl))
  {
  }

  /** Such a put is reached in three steps: a reload reads, a write commits and invalidates. */
  lemma OvertakenPutIsReached(ttl: int, name: string) returns (w: World)
    requires ttl >= 0
    ensures exists steps :: Run(Fresh(ttl), steps, w)
    ensures 0 in w.puts && !Harmless(w, 0)
  {
    hide Run; hide Apply; hide Harmless;
    var w0 := Fresh(ttl);
    var read, commit := RequireRead(0, name, 0), Commit(0, {name});
    ReadIsOut(ttl, name);
    var w1 := Apply(w0, read);
    WriteCommits(w1, name);
    var w2 := Apply(w1, commit);
    w := WriteOvertakes(w2, name);
    RunNone(w);
    RunCons(w2, Invalidate(0), [], w);
    RunCons(w1, commit, [Invalidate(0)] + [], w);
    RunCons(w0, read, [commit] + ([Invalidate(0)] + []), w);
  }

  lemma ReadIsOut(ttl: int, name: string)
    ensures Enabled(Fresh(ttl), RequireRead(0, name, 0))
    ensures Apply(Fresh(ttl), RequireRead(0, name, 0)) == Fresh(ttl).(puts := map[0 := Put(name, Entry(0, 0, 0, 0))])
  {
  }

  lemma WriteCommits(w: World, name: string)
    requires 0 !in w.writers
    ensures Enabled(w, Commit(0, {name}))
    ensures var t := Apply(w, Commit(0, {name}));
      && 0 in t.writers && name in t.writers[0].versions
      && t.puts == w.puts && t.invs == w.invs && t.now == w.now && t.cache == w.cache
  {
  }

  lemma WriteOvertakes(w: World, name: string) returns (t: World)
    requires 0 in w.writers && name in w.writers[0].versions
    requires 0 in w.puts && w.puts[0].name == name && w.puts[0].entry.born <= Count(w.invs, name)
    requires w.now - w.puts[0].entry.loadedAt <= w.cache.ttl
    ensures t == Apply(w, Invalidate(0)) && 0 in t.puts && !Harmless(t, 0)
  {
    t := Apply(w, Invalidate(0));
  }

  // ---- one load at a time ----

  /** A flight that has not landed and that no invalidation has overtaken. */
  predicate Current(w: World, i: nat)
    requires i < |w.flights|
  {
    !w.flights[i].landed && w.flights[i].born == Count(w.invs, w.flights[i].name)
  }

  /** Such a flight is the registered one, and none was born in the future. */
  predicate FlightAlone(w: World, i: nat)
    requires i < |w.flights|
  {
    var f := w.flights[i];
    && f.born <= Count(w.invs, f.name)
    && (Current(w, i) ==> f.name in w.cache.flights && w.cache.flights[f.name] == i)
  }

  ghost predicate LoadsAlone(w: World) { forall i :: 0 <= i < |w.flights| ==> FlightAlone(w, i) }

  lemma LandKeepsAlone(w: World, c: nat)
    requires LoadsAlone(w) && Enabled(w, LandFlight(c))
    ensures LoadsAlone(Apply(w, LandFlight(c)))
  {
    var t := Apply(w, LandFlight(c));
    forall i | 0 <= i < |t.flights| ensures FlightAlone(t, i) {
      assert FlightAlone(w, i) && FlightAlone(w, w.calls[c].phase.flight);
    }
  }

  lemma InvalidateKeepsAlone(w: World, x: nat)
    requires LoadsAlone(w) && Enabled(w, Invalidate(x))
    ensures LoadsAlone(Apply(w, Invalidate(x)))
  {
    var t := Apply(w, Invalidate(x));
    forall i | 0 <= i < |t.flights| ensures FlightAlone(t, i) { assert FlightAlone(w, i); }
  }

  lemma StepKeepsAlone(w: World, step: Step)
    requires LoadsAlone(w) && Enabled(w, step)
    ensures LoadsAlone(Apply(w, step))
  {
    if step.LandFlight? {
      LandKeepsAlone(w, step.c);
    } else if step.Invalidate? {
      InvalidateKeepsAlone(w, step.w);
    } else {
      hide LookUp; hide Bump; hide Raise;
      var t := Apply(w, step);
      forall i | 0 <= i < |t.flights| ensures FlightAlone(t, i) {
        if i < |w.flights| { assert FlightAlone(w, i); }
      }
    }
  }

  lemma {:induction false} RunKeepsAlone(w: World, steps: seq<Step>, t: World)
    requires LoadsAlone(w) && Run(w, steps, t)
    ensures LoadsAlone(t)
    decreases |steps|
  {
    hide LoadsAlone; hide Apply; hide Harmless;
    if steps != [] {
      StepKeepsAlone(w, steps[0]);
      RunKeepsAlone(Apply(w, steps[0]), steps[1..], t);
    }
  }

  /** In every interleaving, at most one load of a collection that no invalidation has overtaken
      is under way: callers that miss join it. */
  lemma OneLoadAtATime(ttl: int, steps: seq<Step>, t: World, i: nat, j: nat)
    requires Run(Fresh(ttl), steps, t) && i < |t.flights| && j < |t.flights|
    requires t.flights[i].name == t.flights[j].name && Current(t, i) && Current(t, j)
    ensures i == j
  {
    RunKeepsAlone(Fresh(ttl), steps, t);
    assert FlightAlone(t, i) && FlightAlone(t, j);
  }

  /** Whoever waited for a load that read its rows gets those very rows. */
  lemma WaitersShareRows(w: World, c: nat, d: nat)
    requires Enabled(w, Wake(c)) && Enabled(w, Wake(d)) && c != d
    requires w.calls[c].phase.flight == w.calls[d].phase.flight && w.flights[w.calls[c].phase.flight].read.Some?
    ensures var t := Apply(Apply(w, Wake(c)), Wake(d));
      && t.calls[c].phase.Returned? && t.calls[d].phase.Returned?
      && t.calls[c].phase.entry == t.calls[d].phase.entry == w.flights[w.calls[c].phase.flight].read.value
  {
  }
}
