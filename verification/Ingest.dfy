/**
  Ingest grouping: one locked transaction per envelope, working on a narrowed load of
  the groups its dedupe keys can match.
 */
module Ingest {
  import opened Instants
  import opened Escalation
  import opened EscalationLife

  /** `steps` is the chain the group escalates through, empty when the chain is missing. */
  datatype AlertGroup = AlertGroup(integration: string, key: string, steps: seq<ChainStep>, life: Life,
                                   alertCount: nat) {
    predicate Unresolved() { life.g.status != Resolved }
  }

  type Groups = map<string, AlertGroup>

  /** A prepared alert: its dedupe key, whether its status is a resolving one, the chain of its
      route, and the id a group created for it would get. */
  datatype Prepared = Prepared(key: string, resolving: bool, steps: seq<ChainStep>, newId: string)

  /** What is fixed for one envelope. `maintenance` is the end of an active window. */
  datatype Context = Context(integration: string, now: int, reopenAcked: bool, maintenance: Option<int>)

  predicate Matches(g: AlertGroup, integration: string, key: string) {
    g.integration == integration && g.key == key && g.Unresolved()
  }

  /** What the scan over the state may find: some matching group, or none when there is none.
      The scan follows map iteration order, so with several matches any of them. */
  ghost predicate MayFind(groups: Groups, ctx: Context, key: string, found: Option<string>) {
    if found.Some? then found.value in groups && Matches(groups[found.value], ctx.integration, key)
    else forall id :: id in groups ==> !Matches(groups[id], ctx.integration, key)
  }

  /** ingestOneLocked, given what the scan found. */
  function IngestOne(ctx: Context, groups: Groups, p: Prepared, found: Option<string>): Groups
    requires found.Some? ==> found.value in groups
  {
    if p.resolving then
      if found.None? then groups
      else
        var g := groups[found.value];
        groups[found.value := g.(life := Act(g.steps, g.life, ResolveGroup))]
    else if found.None? then
      groups[p.newId := AlertGroup(ctx.integration, p.key, p.steps, Born(p.steps, ctx.now, ctx.maintenance), 1)]
    else
      var g := groups[found.value];
      groups[found.value := g.(life := Act(g.steps, g.life, Fire(ctx.now, ctx.reopenAcked)),
        alertCount := g.alertCount + 1)]
  }

  /** The scan of ingestOneLocked. */
  method FindGroup(groups: Groups, ctx: Context, key: string) returns (found: Option<string>)
    ensures MayFind(groups, ctx, key, found)
  {
    var rest := groups.Keys;
    while rest != {}
      invariant rest <= groups.Keys
      invariant forall id :: id in groups && id !in rest ==> !Matches(groups[id], ctx.integration, key)
      decreases |rest|
    {
      var id :| id in rest;
      if Matches(groups[id], ctx.integration, key) { return Some(id); }
      rest := rest - {id};
    }
    return None;
  }

  /** A run of the envelope's alerts in order, with what each scan found. */
  ghost predicate Ingests(ctx: Context, groups: Groups, preps: seq<Prepared>, found: seq<Option<string>>, after: Groups)
    decreases |preps|
  {
    |found| == |preps| &&
    if preps == [] then after == groups
    else
      && MayFind(groups, ctx, preps[0].key, found[0])
      && Ingests(ctx, IngestOne(ctx, groups, preps[0], found[0]), preps[1..], found[1..], after)
  }

  /** Some run of scans over the groups leads there: the result of a full scan. */
  ghost predicate Ingested(ctx: Context, groups: Groups, preps: seq<Prepared>, after: Groups) {
    exists found :: Ingests(ctx, groups, preps, found, after)
  }

  // ---- the narrowed load ----

  function Narrow(groups: Groups, integration: string, keys: set<string>): Groups {
    map id | id in groups && groups[id].integration == integration && groups[id].key in keys && groups[id].Unresolved()
      :: groups[id]
  }

  /** The state a transaction works on against the whole store: the store overwritten by it,
      with every row the load asked for still in it. */
  ghost predicate Covers(full: Groups, loaded: Groups, part: Groups, now: Groups) {
    now == full + part && loaded.Keys <= part.Keys
  }

  lemma SameFinds(ctx: Context, full: Groups, keys: set<string>, part: Groups, now: Groups, key: string,
                  found: Option<string>)
    requires Covers(full, Narrow(full, ctx.integration, keys), part, now) && key in keys
    ensures MayFind(part, ctx, key, found) <==> MayFind(now, ctx, key, found)
  {
    assert forall id :: id in now && Matches(now[id], ctx.integration, key) ==> id in part;
  }

  lemma StepCovers(ctx: Context, full: Groups, loaded: Groups, part: Groups, now: Groups, p: Prepared,
                   found: Option<string>)
    requires Covers(full, loaded, part, now)
    requires MayFind(part, ctx, p.key, found) && MayFind(now, ctx, p.key, found)
    ensures Covers(full, loaded, IngestOne(ctx, part, p, found), IngestOne(ctx, now, p, found))
  {
  }

  lemma {:induction false} NarrowedRunMatches(ctx: Context, full: Groups, keys: set<string>, part: Groups, now: Groups,
                                             preps: seq<Prepared>, found: seq<Option<string>>, after: Groups)
    requires Covers(full, Narrow(full, ctx.integration, keys), part, now)
    requires forall i :: 0 <= i < |preps| ==> preps[i].key in keys
    requires Ingests(ctx, part, preps, found, after)
    ensures Ingests(ctx, now, preps, found, full + after)
    decreases |preps|
  {
    if preps != [] {
      var p := preps[0];
      SameFinds(ctx, full, keys, part, now, p.key, found[0]);
      StepCovers(ctx, full, Narrow(full, ctx.integration, keys), part, now, p, found[0]);
      NarrowedRunMatches(ctx, full, keys, IngestOne(ctx, part, p, found[0]), IngestOne(ctx, now, p, found[0]),
        preps[1..], found[1..], after);
    }
  }

  /** Loading only what the envelope's keys can match leaves the store exactly as scanning
      every group would. */
  lemma NarrowedLoadIsExact(ctx: Context, full: Groups, preps: seq<Prepared>, found: seq<Option<string>>,
                            after: Groups, keys: set<string>)
    requires forall i :: 0 <= i < |preps| ==> preps[i].key in keys
    requires Ingests(ctx, Narrow(full, ctx.integration, keys), preps, found, after)
    ensures Ingests(ctx, full, preps, found, full + after)
  {
    var loaded := Narrow(full, ctx.integration, keys);
    assert full == full + loaded;
    NarrowedRunMatches(ctx, full, keys, loaded, full, preps, found, after);
  }

  /** ingestPrepared: collects the envelope's keys, loads what they match, applies the alerts
      in order and writes the rows back; the result is that of a full scan. */
  method IngestPrepared(ctx: Context, store: Groups, preps: seq<Prepared>) returns (after: Groups)
    ensures Ingested(ctx, store, preps, after)
  {
    var keys: set<string> := {};
    for i := 0 to |preps|
      invariant forall j :: 0 <= j < i ==> preps[j].key in keys
    {
      if preps[i].key in keys { continue; }
      keys := keys + {preps[i].key};
    }
    var state := Narrow(store, ctx.integration, keys);
    ghost var loaded := state;
    ghost var found: seq<Option<string>> := [];
    for i := 0 to |preps|
      invariant |found| == i
      invariant Ingests(ctx, loaded, preps[..i], found, state)
    {
      var f := FindGroup(state, ctx, preps[i].key);
      ghost var before := state;
      state := IngestOne(ctx, state, preps[i], f);
      assert preps[..i + 1] == preps[..i] + [preps[i]];
      IngestsSnoc(ctx, loaded, preps[..i], found, before, preps[i], f);
      found := found + [f];
    }
    assert preps[..|preps|] == preps;
    NarrowedLoadIsExact(ctx, store, preps, found, state, keys);
    after := store + state;
  }

  lemma {:induction false} IngestsSnoc(ctx: Context, groups: Groups, preps: seq<Prepared>,
                                       found: seq<Option<string>>, mid: Groups, p: Prepared, f: Option<string>)
    requires Ingests(ctx, groups, preps, found, mid) && MayFind(mid, ctx, p.key, f)
    ensures Ingests(ctx, groups, preps + [p], found + [f], IngestOne(ctx, mid, p, f))
    decreases |preps|
  {
    if preps == [] {
      assert ([p])[1..] == [] && ([f])[1..] == [];
      assert preps + [p] == [p] && found + [f] == [f];
      assert Ingests(ctx, IngestOne(ctx, mid, p, f), [], [], IngestOne(ctx, mid, p, f));
    } else {
      assert (preps + [p])[1..] == preps[1..] + [p] && (found + [f])[1..] == found[1..] + [f];
      IngestsSnoc(ctx, IngestOne(ctx, groups, preps[0], found[0]), preps[1..], found[1..], mid, p, f);
    }
  }
}
