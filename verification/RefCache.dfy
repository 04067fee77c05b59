/**
  The single-flight reference cache: what its critical sections do to its two maps.
  Rows are represented by the version of the collection they were read at.
 */
module RefCache {
  import opened Instants

  /** `loadedAt` is the clock taken before the load, `readAt` when the rows were read, and
      `born` how many invalidations of the collection preceded the load (history). */
  datatype Entry = Entry(loadedAt: int, version: nat, readAt: int, born: nat)

  datatype Cache = Cache(ttl: int, entries: map<string, Entry>, flights: map<string, nat>)

  /** get: an entry is served until its age exceeds the TTL. */
  function LookUp(c: Cache, name: string, now: int): (e: Option<Entry>)
    ensures e.Some? ==> name in c.entries && e.value == c.entries[name] && now - e.value.loadedAt <= c.ttl
  {
    if name in c.entries && now - c.entries[name].loadedAt <= c.ttl then Some(c.entries[name]) else None
  }

  /** The end of load: only the flight still registered may cache its rows. */
  function Land(c: Cache, name: string, flight: nat, loaded: Option<Entry>): Cache {
    if name in c.flights && c.flights[name] == flight then
      c.(flights := c.flights - {name},
         entries := if loaded.Some? then c.entries[name := loaded.value] else c.entries)
    else c
  }

  function NameSet(names: seq<string>): set<string> { set n | n in names }

  function Invalidated(c: Cache, names: set<string>): Cache {
    c.(entries := c.entries - names, flights := c.flights - names)
  }

  /** Rows that the registered flight lands are what every caller gets, whatever else is
      invalidated, until they outlive the TTL or their own collection is invalidated; and what
      is too old once stays so. */
  lemma LandedRowsAreServed(c: Cache, name: string, flight: nat, e: Entry, others: set<string>, now: int, later: int)
    requires name in c.flights && c.flights[name] == flight && name !in others && now <= later
    ensures var landed := Invalidated(Land(c, name, flight, Some(e)), others);
      && (LookUp(landed, name, now) == Some(e) <==> now <= e.loadedAt + c.ttl)
      && (LookUp(landed, name, now).None? ==> LookUp(landed, name, later).None?)
      && LookUp(Invalidated(landed, {name}), name, now).None?
  {
  }

  /** The cache object; every method body is one critical section under its mutex. */
  class SharedCache {
    var ttl: int
    var entries: map<string, Entry>
    var flights: map<string, nat>

    ghost function View(): Cache
      reads this
    {
      Cache(ttl, entries, flights)
    }

    constructor (ttl: int)
      ensures View() == Cache(ttl, map[], map[])
    {
      this.ttl := ttl;
      entries, flights := map[], map[];
    }

    method Get(name: string, now: int) returns (e: Option<Entry>)
      ensures e == LookUp(View(), name, now)
    {
      if name !in entries || now - entries[name].loadedAt > ttl { return None; }
      return Some(entries[name]);
    }

    /** Joins the flight under way for `name`, or registers `candidate` as its flight. */
    method JoinOrStart(name: string, candidate: nat) returns (flight: nat, joined: bool)
      modifies this`flights
      ensures joined == (name in old(flights))
      ensures flight == if joined then old(flights)[name] else candidate
      ensures View() == if joined then old(View()) else old(View()).(flights := old(flights)[name := candidate])
    {
      if name in flights { return flights[name], true; }
      flights := flights[name := candidate];
      return candidate, false;
    }

    method Finish(name: string, flight: nat, loaded: Option<Entry>)
      modifies this
      ensures View() == Land(old(View()), name, flight, loaded)
    {
      if name in flights && flights[name] == flight {
        flights := flights - {name};
        if loaded.Some? { entries := entries[name := loaded.value]; }
      }
    }

    method Invalidate(names: seq<string>)
      modifies this
      ensures View() == Invalidated(old(View()), NameSet(names))
    {
      for i := 0 to |names|
        invariant ttl == old(ttl)
        invariant entries == old(entries) - NameSet(names[..i])
        invariant flights == old(flights) - NameSet(names[..i])
      {
        assert NameSet(names[..i + 1]) == NameSet(names[..i]) + {names[i]};
        entries := entries - {names[i]};
        flights := flights - {names[i]};
      }
      assert names[..|names|] == names;
    }

    /** The direct write of refSet.require, past the flights. */
    method PutEntry(name: string, e: Entry)
      modifies this`entries
      ensures View() == old(View()).(entries := old(entries)[name := e])
    {
      entries := entries[name := e];
    }
  }
}
