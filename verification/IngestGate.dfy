/**
  The per-integration ingest gate: its slots as objects, and what each critical
  section and channel operation does to them.
 */
module IngestGate {
  const HOLDERS: nat := 2
  const MAX_WAITING: nat := 128

  /** A slot takes no more ingests in. */
  predicate Full(users: nat) { users >= HOLDERS + MAX_WAITING }

  /** The map after somebody left a slot that now counts `users`. */
  function AfterLeave<V>(slots: map<string, V>, key: string, users: nat): map<string, V> {
    if users == 0 then slots - {key} else slots
  }

  /** tokens is the fill of a channel with room for HOLDERS. */
  class IngestSlot {
    var tokens: nat
    var users: nat

    constructor ()
      ensures tokens == HOLDERS && users == 0
    {
      tokens, users := HOLDERS, 0;
    }

    /** The non-blocking receive of a place. */
    method TryTake() returns (ok: bool)
      modifies this`tokens
      ensures ok <==> old(tokens) > 0
      ensures tokens == if ok then old(tokens) - 1 else old(tokens)
    {
      ok := tokens > 0;
      if ok { tokens := tokens - 1; }
    }

    /** The send of release; it would block on a full channel, so the caller shows there is room. */
    method Return()
      requires tokens < HOLDERS
      modifies this`tokens
      ensures tokens == old(tokens) + 1 <= HOLDERS
    {
      tokens := tokens + 1;
    }
  }

  class Gate {
    var slots: map<string, IngestSlot>

    constructor ()
      ensures slots == map[]
    {
      slots := map[];
    }

    /** The first critical section of enter: finds or creates the slot of `key` and counts the
        caller in, or refuses when the queue is full. */
    method Admit(key: string) returns (s: IngestSlot, admitted: bool)
      modifies this, if key in slots then {slots[key]} else {}
      ensures key in slots && slots[key] == s
      ensures slots == if key in old(slots) then old(slots) else old(slots)[key := s]
      ensures key !in old(slots) ==> fresh(s) && admitted && s.tokens == HOLDERS && s.users == 1
      ensures key in old(slots) ==>
        && s.tokens == old(slots[key].tokens)
        && (admitted <==> !Full(old(slots[key].users)))
        && s.users == old(slots[key].users) + (if admitted then 1 else 0)
    {
      if key in slots {
        s := slots[key];
      } else {
        s := new IngestSlot();
        slots := slots[key := s];
      }
      admitted := s.users < HOLDERS + MAX_WAITING;
      if admitted { s.users := s.users + 1; }
    }

    /** leave: the last user out removes whatever slot the map holds for `key`. */
    method Leave(key: string, s: IngestSlot)
      requires s.users > 0
      modifies this, s`users
      ensures s.users == old(s.users) - 1
      ensures slots == AfterLeave(old(slots), key, s.users)
    {
      s.users := s.users - 1;
      if s.users == 0 { slots := slots - {key}; }
    }
  }
}

/**
  Safety of the gate over every interleaving of ingests entering, timing out, being
  cancelled and releasing, with slots deleted and created again.
 */
module GateSafety {
  import opened IngestGate

  /** Where an ingest is: counted in and without a place, holding a place, or past its last
      channel operation with `leave` still to run. */
  datatype Where = Waiting(slot: nat) | Holding(slot: nat) | Leaving(slot: nat)

  datatype Slot = Slot(key: string, users: nat, tokens: nat)

  /** `table` lists every slot ever created; `slots` is the map of the gate. */
  datatype State = State(slots: map<string, nat>, table: seq<Slot>, threads: map<nat, Where>)

  const INIT := State(map[], [], map[])

  datatype Step =
    | Enter(t: nat, key: string)
    | Take(t: nat)
    | GiveUp(t: nat)
    | Return(t: nat)
    | Leave(t: nat)

  predicate At(s: State, t: nat) { t in s.threads && s.threads[t].slot < |s.table| }

  predicate Enabled(s: State, step: Step) {
    match step
    case Enter(t, key) => t !in s.threads && (key in s.slots ==> s.slots[key] < |s.table|)
    case Take(t) => At(s, t) && s.threads[t].Waiting? && s.table[s.threads[t].slot].tokens > 0
    case GiveUp(t) => At(s, t) && s.threads[t].Waiting?
    case Return(t) => At(s, t) && s.threads[t].Holding? && s.table[s.threads[t].slot].tokens < HOLDERS
    case Leave(t) => At(s, t) && s.threads[t].Leaving? && s.table[s.threads[t].slot].users > 0
  }

  /** An ingest that is refused leaves the state as it was. */
  function Apply(s: State, step: Step): State
    requires Enabled(s, step)
  {
    match step
    case Enter(t, key) =>
      if key !in s.slots then
        State(s.slots[key := |s.table|], s.table + [Slot(key, 1, HOLDERS)], s.threads[t := Waiting(|s.table|)])
      else
        var i := s.slots[key];
        if Full(s.table[i].users) then s
        else s.(table := s.table[i := s.table[i].(users := s.table[i].users + 1)],
          threads := s.threads[t := Waiting(i)])
    case Take(t) =>
      var i := s.threads[t].slot;
      s.(table := s.table[i := s.table[i].(tokens := s.table[i].tokens - 1)], threads := s.threads[t := Holding(i)])
    case GiveUp(t) => s.(threads := s.threads[t := Leaving(s.threads[t].slot)])
    case Return(t) =>
      var i := s.threads[t].slot;
      s.(table := s.table[i := s.table[i].(tokens := s.table[i].tokens + 1)], threads := s.threads[t := Leaving(i)])
    case Leave(t) =>
      var i := s.threads[t].slot;
      var users := s.table[i].users - 1;
      State(
        AfterLeave(s.slots, s.table[i].key, users),
        s.table[i := s.table[i].(users := users)],
        s.threads - {t})
  }

  ghost predicate Run(s: State, steps: seq<Step>, t: State)
    decreases |steps|
  {
    if steps == [] then t == s
    else Enabled(s, steps[0]) && Run(Apply(s, steps[0]), steps[1..], t)
  }

  // ---- the invariant ----

  function Inside(threads: map<nat, Where>, i: nat): set<nat> {
    set t | t in threads && threads[t].slot == i
  }

  function Holders(threads: map<nat, Where>, i: nat): set<nat> {
    set t | t in threads && threads[t] == Holding(i)
  }

  /** A slot counts exactly those inside it, its free and taken places add up, and while
      anyone is inside it is the slot the map holds. */
  predicate SlotOk(s: State, i: nat)
    requires i < |s.table|
  {
    var slot := s.table[i];
    && slot.users == |Inside(s.threads, i)| <= HOLDERS + MAX_WAITING
    && slot.tokens + |Holders(s.threads, i)| == HOLDERS
    && (slot.users > 0 ==> slot.key in s.slots && s.slots[slot.key] == i)
  }

  ghost predicate Inv(s: State) {
    && (forall i :: 0 <= i < |s.table| ==> SlotOk(s, i))
    && (forall t :: t in s.threads ==> s.threads[t].slot < |s.table|)
    && (forall k :: k in s.slots ==>
      s.slots[k] < |s.table| && s.table[s.slots[k]].key == k && s.table[s.slots[k]].users > 0)
  }

  lemma MemberCounts(s: State, t: nat)
    requires Inv(s) && t in s.threads
    ensures s.table[s.threads[t].slot].users > 0
    ensures s.threads[t].Holding? ==> s.table[s.threads[t].slot].tokens < HOLDERS
  {
    var i := s.threads[t].slot;
    assert SlotOk(s, i);
    assert t in Inside(s.threads, i);
    if s.threads[t].Holding? { assert t in Holders(s.threads, i); }
  }

  lemma NobodyBeyond(s: State, i: nat)
    requires Inv(s) && i >= |s.table|
    ensures Inside(s.threads, i) == {} && Holders(s.threads, i) == {}
  {
  }

  function One(b: bool): nat { if b then 1 else 0 }

  /** Two sets that agree but on `t` differ in size by `t` alone. */
  lemma SizesBut(a: set<nat>, b: set<nat>, t: nat)
    requires forall x :: x != t ==> (x in a <==> x in b)
    ensures |a| + One(t in b) == |b| + One(t in a)
  {
    assert a - {t} == b - {t};
    assert t in a ==> a == (a - {t}) + {t};
    assert t in b ==> b == (b - {t}) + {t};
    assert t !in a ==> a == a - {t};
    assert t !in b ==> b == b - {t};
  }

  lemma CountArrival(threads: map<nat, Where>, t: nat, j: nat, i: nat)
    requires t !in threads
    ensures |Inside(threads[t := Waiting(j)], i)| == |Inside(threads, i)| + One(i == j)
    ensures |Holders(threads[t := Waiting(j)], i)| == |Holders(threads, i)|
  {
    SizesBut(Inside(threads[t := Waiting(j)], i), Inside(threads, i), t);
    SizesBut(Holders(threads[t := Waiting(j)], i), Holders(threads, i), t);
  }

  lemma CountMove(threads: map<nat, Where>, t: nat, w: Where, i: nat)
    requires t in threads && w.slot == threads[t].slot
    ensures |Inside(threads[t := w], i)| == |Inside(threads, i)|
    ensures |Holders(threads[t := w], i)| + One(threads[t] == Holding(i)) ==
      |Holders(threads, i)| + One(w == Holding(i))
  {
    SizesBut(Inside(threads[t := w], i), Inside(threads, i), t);
    SizesBut(Holders(threads[t := w], i), Holders(threads, i), t);
  }

  lemma CountDeparture(threads: map<nat, Where>, t: nat, i: nat)
    requires t in threads && threads[t].Leaving?
    ensures |Inside(threads - {t}, i)| == |Inside(threads, i)| - One(threads[t].slot == i)
    ensures |Holders(threads - {t}, i)| == |Holders(threads, i)|
  {
    SizesBut(Inside(threads - {t}, i), Inside(threads, i), t);
    SizesBut(Holders(threads - {t}, i), Holders(threads, i), t);
  }

  lemma EnterKeeps(s: State, t: nat, key: string)
    requires Inv(s) && Enabled(s, Enter(t, key))
    ensures Inv(Apply(s, Enter(t, key)))
  {
    var r := Apply(s, Enter(t, key));
    if r != s {
      var j := r.threads[t].slot;
      forall i | 0 <= i < |r.table| ensures SlotOk(r, i) {
        CountArrival(s.threads, t, j, i);
        if i < |s.table| { assert SlotOk(s, i); } else { NobodyBeyond(s, i); }
      }
    }
  }

  lemma MoveKeeps(s: State, step: Step)
    requires Inv(s) && Enabled(s, step) && (step.Take? || step.GiveUp? || step.Return?)
    ensures Inv(Apply(s, step))
  {
    var r, t := Apply(s, step), step.t;
    forall i | 0 <= i < |r.table| ensures SlotOk(r, i) {
      assert SlotOk(s, i);
      CountMove(s.threads, t, r.threads[t], i);
    }
  }

  lemma LeaveKeeps(s: State, t: nat)
    requires Inv(s) && Enabled(s, Leave(t))
    ensures Inv(Apply(s, Leave(t)))
  {
    var r := Apply(s, Leave(t));
    assert SlotOk(s, s.threads[t].slot);
    forall i | 0 <= i < |r.table| ensures SlotOk(r, i) {
      assert SlotOk(s, i);
      CountDeparture(s.threads, t, i);
    }
  }

  lemma {:induction false} RunKeeps(s: State, steps: seq<Step>, t: State)
    requires Inv(s) && Run(s, steps, t)
    ensures Inv(t)
    decreases |steps|
  {
    if steps != [] {
      match steps[0] {
        case Enter(x, key) => EnterKeeps(s, x, key);
        case Leave(x) => LeaveKeeps(s, x);
        case _ => MoveKeeps(s, steps[0]);
      }
      RunKeeps(Apply(s, steps[0]), steps[1..], t);
    }
  }

  // ---- what holds over every run ----

  /** Everyone inside for one key, whichever slot they came through. */
  function InsideKey(s: State, key: string): set<nat> {
    set t | t in s.threads && At(s, t) && s.table[s.threads[t].slot].key == key
  }

  function HoldersOfKey(s: State, key: string): set<nat> {
    set t | t in s.threads && At(s, t) && s.threads[t].Holding? && s.table[s.threads[t].slot].key == key
  }

  /** At most two ingests of a key hold a place and at most 130 are inside, across every
      slot the key ever had; all of them share the slot in the map. */
  lemma GateIsSafe(steps: seq<Step>, s: State, key: string)
    requires Run(INIT, steps, s)
    ensures |HoldersOfKey(s, key)| <= 2 && |InsideKey(s, key)| <= 130
    ensures forall t :: t in InsideKey(s, key) ==> key in s.slots && s.threads[t].slot == s.slots[key]
  {
    RunKeeps(INIT, steps, s);
    forall t | t in InsideKey(s, key) ensures key in s.slots && s.threads[t].slot == s.slots[key] {
      MemberCounts(s, t);
      assert SlotOk(s, s.threads[t].slot);
    }
    if key in s.slots {
      var i := s.slots[key];
      assert SlotOk(s, i);
      assert HoldersOfKey(s, key) == Holders(s.threads, i);
      assert InsideKey(s, key) == Inside(s.threads, i);
    } else {
      assert InsideKey(s, key) == {};
      assert HoldersOfKey(s, key) == {};
    }
  }

  /** The release of a holder never blocks, and a leave always has a user to count out. */
  lemma ReleaseNeverBlocks(steps: seq<Step>, s: State, t: nat)
    requires Run(INIT, steps, s) && t in s.threads
    ensures s.threads[t].Holding? ==> Enabled(s, Return(t))
    ensures s.threads[t].Leaving? ==> Enabled(s, Leave(t))
  {
    RunKeeps(INIT, steps, s);
    MemberCounts(s, t);
  }

  /** No place is ever lost: a waiting ingest can take one exactly when fewer than two are held. */
  lemma FreePlaceIsTakeable(steps: seq<Step>, s: State, t: nat)
    requires Run(INIT, steps, s) && t in s.threads && s.threads[t].Waiting?
    ensures Enabled(s, Take(t)) <==> |Holders(s.threads, s.threads[t].slot)| < 2
  {
    RunKeeps(INIT, steps, s);
    assert SlotOk(s, s.threads[t].slot);
  }

  /** The map holds a slot for exactly the keys that have somebody inside. */
  lemma MapHoldsBusyKeys(steps: seq<Step>, s: State, key: string)
    requires Run(INIT, steps, s)
    ensures key in s.slots <==> InsideKey(s, key) != {}
  {
    GateIsSafe(steps, s, key);
    RunKeeps(INIT, steps, s);
    if key in s.slots {
      var i := s.slots[key];
      assert SlotOk(s, i);
      assert Inside(s.threads, i) != {};
      var t :| t in Inside(s.threads, i);
      assert t in InsideKey(s, key);
    }
  }

  /** An ingest is refused, and nothing changes, exactly when 130 of its key are inside. */
  lemma RefusedIffFull(steps: seq<Step>, s: State, t: nat, key: string)
    requires Run(INIT, steps, s) && t !in s.threads
    ensures Enabled(s, Enter(t, key))
    ensures t !in Apply(s, Enter(t, key)).threads <==> |InsideKey(s, key)| == 130
    ensures t !in Apply(s, Enter(t, key)).threads ==> Apply(s, Enter(t, key)) == s
  {
    CountsInside(steps, s, key);
    GateIsSafe(steps, s, key);
    hide InsideKey;
  }

  /** The slot in the map counts everyone inside for its key. */
  lemma CountsInside(steps: seq<Step>, s: State, key: string)
    requires Run(INIT, steps, s)
    ensures key in s.slots ==> s.slots[key] < |s.table| && s.table[s.slots[key]].users == |InsideKey(s, key)|
    ensures key !in s.slots ==> InsideKey(s, key) == {}
    ensures forall k :: k in s.slots ==> s.slots[k] < |s.table| && s.table[s.slots[k]].key == k
  {
    RunKeeps(INIT, steps, s);
    GateIsSafe(steps, s, key);
    MapHoldsBusyKeys(steps, s, key);
    if key in s.slots {
      assert SlotOk(s, s.slots[key]);
      assert InsideKey(s, key) == Inside(s.threads, s.slots[key]);
    }
  }
}
