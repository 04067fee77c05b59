/**
  Telling people that their on-call shift has begun: one worker cycle, and what every
  run of cycles tells whom, however stale the pre-pass each of them worked from.
 */
module HandoffNotices {
  import opened Instants

  /** A notification target as stored, and the profile fields a blank one falls back to. */
  datatype Target = Target(channel: string, address: string)

  datatype User = User(email: string, telegramId: string, phone: string, targets: seq<Target>)

  const SUPPORTED: set<string> := {"log", "webhook", "telegram", "email", "call", "slack", "mattermost"}

  function Address(user: User, t: Target): string {
    if t.address != "" then t.address
    else if t.channel == "email" then user.email
    else if t.channel == "telegram" then user.telegramId
    else if t.channel == "call" then user.phone
    else ""
  }

  /** A target a notice can go to. "log" is left out: nobody sees it. */
  predicate Usable(user: User, t: Target) {
    t.channel != "log" && t.channel in SUPPORTED && Address(user, t) != ""
  }

  function UsableTargets(user: User, targets: seq<Target>): seq<Target> {
    if targets == [] then []
    else
      var t := targets[|targets| - 1];
      UsableTargets(user, targets[..|targets| - 1]) +
      (if Usable(user, t) then [Target(t.channel, Address(user, t))] else [])
  }

  method ShiftNotificationTargets(user: User) returns (targets: seq<Target>)
    ensures targets == UsableTargets(user, user.targets)
  {
    targets := [];
    for i := 0 to |user.targets|
      invariant targets == UsableTargets(user, user.targets[..i])
    {
      var t := user.targets[i];
      assert user.targets[..i + 1][..i] == user.targets[..i];
      if t.channel == "" || t.channel == "log" || t.channel !in SUPPORTED { continue; }
      var address := t.address;
      if address == "" {
        address := if t.channel == "email" then user.email else if t.channel == "telegram" then user.telegramId
                   else if t.channel == "call" then user.phone else "";
      }
      if address == "" { continue; }
      targets := targets + [Target(t.channel, address)];
    }
    assert user.targets[..|user.targets|] == user.targets;
  }

  // ---- one handoff ----

  datatype Notice = Notice(schedule: string, user: string, channel: string, address: string, at: int)

  /** The idempotency key leaves the address out. */
  predicate SameKey(n: Notice, m: Notice) {
    n.schedule == m.schedule && n.user == m.user && n.channel == m.channel && n.at == m.at
  }

  predicate Mentions(notices: seq<Notice>, n: Notice) {
    exists i :: 0 <= i < |notices| && SameKey(notices[i], n)
  }

  /** addNotification: a notice whose key the transaction has seen is dropped. */
  function Added(notices: seq<Notice>, n: Notice): seq<Notice> {
    if Mentions(notices, n) then notices else notices + [n]
  }

  function Firsts(offers: seq<Notice>): seq<Notice> {
    if offers == [] then [] else Added(Firsts(offers[..|offers| - 1]), offers[|offers| - 1])
  }

  function Block(id: string, uid: string, targets: seq<Target>, at: int): (b: seq<Notice>)
    ensures |b| == |targets|
    ensures forall i :: 0 <= i < |b| ==> b[i] == Notice(id, uid, targets[i].channel, targets[i].address, at)
  {
    seq(|targets|, i requires 0 <= i < |targets| => Notice(id, uid, targets[i].channel, targets[i].address, at))
  }

  /** What the loops of one handoff offer, before repeated keys are dropped. */
  function Offers(id: string, roster: seq<string>, previous: seq<string>, users: map<string, User>,
                  at: int): seq<Notice> {
    if roster == [] then []
    else
      var n := |roster| - 1;
      Offers(id, roster[..n], previous, users, at) + OffersTo(id, roster[n], previous, users, at)
  }

  function OffersTo(id: string, uid: string, previous: seq<string>, users: map<string, User>, at: int): seq<Notice> {
    if uid in previous || uid !in users then []
    else Block(id, uid, UsableTargets(users[uid], users[uid].targets), at)
  }

  // ---- what a handoff tells whom ----

  predicate Offered(targets: seq<Target>, channel: string) {
    exists i :: 0 <= i < |targets| && targets[i].channel == channel
  }

  /** The address a user is told at on a channel: that of the first usable target there. */
  predicate FirstOn(targets: seq<Target>, channel: string, address: string) {
    exists i :: 0 <= i < |targets| && targets[i] == Target(channel, address) &&
      forall j :: 0 <= j < i ==> targets[j].channel != channel
  }

  predicate NewHere(roster: seq<string>, previous: seq<string>, users: map<string, User>, uid: string) {
    uid in roster && uid !in previous && uid in users
  }

  /** Exactly the newcomers that exist are told, once on each channel they can be reached on. */
  predicate Tells(id: string, roster: seq<string>, previous: seq<string>, users: map<string, User>, at: int,
                  n: Notice) {
    && n.schedule == id && n.at == at && NewHere(roster, previous, users, n.user)
    && FirstOn(UsableTargets(users[n.user], users[n.user].targets), n.channel, n.address)
  }

  predicate KeysDistinct(notices: seq<Notice>) {
    forall i, j :: 0 <= i < j < |notices| ==> !SameKey(notices[i], notices[j])
  }

  predicate NoKeyBefore(offers: seq<Notice>, n: Notice, i: int)
    requires i <= |offers|
  {
    forall j :: 0 <= j < i ==> !SameKey(offers[j], n)
  }

  predicate FirstIn(offers: seq<Notice>, n: Notice) {
    exists i :: 0 <= i < |offers| && offers[i] == n && NoKeyBefore(offers, n, i)
  }

  lemma MentionsConcat(a: seq<Notice>, b: seq<Notice>, n: Notice)
    ensures Mentions(a + b, n) <==> Mentions(a, n) || Mentions(b, n)
  {
    if Mentions(a, n) {
      var i :| 0 <= i < |a| && SameKey(a[i], n);
      assert SameKey((a + b)[i], n);
    }
    if Mentions(b, n) {
      var i :| 0 <= i < |b| && SameKey(b[i], n);
      assert SameKey((a + b)[|a| + i], n);
    }
  }

  lemma FirstInConcat(a: seq<Notice>, b: seq<Notice>, n: Notice)
    ensures FirstIn(a + b, n) <==> FirstIn(a, n) || (!Mentions(a, n) && FirstIn(b, n))
  {
    if FirstIn(a + b, n) {
      var i :| 0 <= i < |a + b| && (a + b)[i] == n && NoKeyBefore(a + b, n, i);
      if i < |a| {
        assert forall j :: 0 <= j < i ==> a[j] == (a + b)[j];
        assert a[i] == n && NoKeyBefore(a, n, i);
      } else {
        assert forall j :: 0 <= j < |a| ==> a[j] == (a + b)[j];
        assert forall j :: 0 <= j < i - |a| ==> b[j] == (a + b)[|a| + j];
        assert b[i - |a|] == n && NoKeyBefore(b, n, i - |a|);
      }
    }
    if FirstIn(a, n) {
      var i :| 0 <= i < |a| && a[i] == n && NoKeyBefore(a, n, i);
      assert (a + b)[i] == n && NoKeyBefore(a + b, n, i);
    } else if !Mentions(a, n) && FirstIn(b, n) {
      var i :| 0 <= i < |b| && b[i] == n && NoKeyBefore(b, n, i);
      assert (a + b)[|a| + i] == n && NoKeyBefore(a + b, n, |a| + i);
    }
  }

  lemma FirstInOne(m: Notice, n: Notice)
    ensures FirstIn([m], n) <==> m == n
    ensures Mentions([m], n) <==> SameKey(m, n)
  {
    if m == n { assert [m][0] == n && NoKeyBefore([m], n, 0); }
    if SameKey(m, n) { assert SameKey([m][0], n); }
  }

  /** Dropping repeated keys leaves the first notice of each. */
  lemma {:induction false} FirstsAre(offers: seq<Notice>, n: Notice)
    ensures n in Firsts(offers) <==> FirstIn(offers, n)
    ensures Mentions(Firsts(offers), n) <==> Mentions(offers, n)
    decreases |offers|
  {
    if offers != [] {
      var k := |offers| - 1;
      var m := offers[k];
      assert offers == offers[..k] + [m];
      FirstsAre(offers[..k], n);
      FirstsAre(offers[..k], m);
      FirstInConcat(offers[..k], [m], n);
      MentionsConcat(offers[..k], [m], n);
      MentionsConcat(Firsts(offers[..k]), [m], n);
      FirstInOne(m, n);
      if SameKey(m, n) { SameMentions(offers[..k], m, n); }
    }
  }

  lemma SameMentions(offers: seq<Notice>, m: Notice, n: Notice)
    requires SameKey(m, n)
    ensures Mentions(offers, m) <==> Mentions(offers, n)
  {
  }

  lemma {:induction false} FirstsDistinct(offers: seq<Notice>)
    ensures KeysDistinct(Firsts(offers))
    decreases |offers|
  {
    if offers != [] { FirstsDistinct(offers[..|offers| - 1]); }
  }

  lemma BlockTells(id: string, uid: string, targets: seq<Target>, at: int, n: Notice)
    ensures FirstIn(Block(id, uid, targets, at), n) <==>
      n.schedule == id && n.user == uid && n.at == at && FirstOn(targets, n.channel, n.address)
    ensures Mentions(Block(id, uid, targets, at), n) <==>
      n.schedule == id && n.user == uid && n.at == at && Offered(targets, n.channel)
  {
    var b := Block(id, uid, targets, at);
    if n.schedule == id && n.user == uid && n.at == at {
      if FirstOn(targets, n.channel, n.address) {
        var i :| 0 <= i < |targets| && targets[i] == Target(n.channel, n.address) &&
          forall j :: 0 <= j < i ==> targets[j].channel != n.channel;
        assert b[i] == n && NoKeyBefore(b, n, i);
      }
      if FirstIn(b, n) {
        var i :| 0 <= i < |b| && b[i] == n && NoKeyBefore(b, n, i);
        assert forall j :: 0 <= j < i ==> !SameKey(b[j], n);
        assert targets[i] == Target(n.channel, n.address);
      }
      if Offered(targets, n.channel) {
        var i :| 0 <= i < |targets| && targets[i].channel == n.channel;
        assert SameKey(b[i], n);
      }
    }
  }

  lemma {:induction false} OffersTell(id: string, roster: seq<string>, previous: seq<string>,
                                      users: map<string, User>, at: int, n: Notice)
    ensures FirstIn(Offers(id, roster, previous, users, at), n) <==> Tells(id, roster, previous, users, at, n)
    ensures Mentions(Offers(id, roster, previous, users, at), n) <==>
      && n.schedule == id && n.at == at && NewHere(roster, previous, users, n.user)
      && Offered(UsableTargets(users[n.user], users[n.user].targets), n.channel)
    decreases |roster|
  {
    hide UsableTargets; hide FirstIn; hide Mentions; hide FirstOn; hide Offered;
    if roster == [] {
      NothingOffered(n);
    } else {
      var k := |roster| - 1;
      var uid := roster[k];
      assert roster == roster[..k] + [uid];
      OffersTell(id, roster[..k], previous, users, at, n);
      var before, more := Offers(id, roster[..k], previous, users, at), OffersTo(id, uid, previous, users, at);
      FirstInConcat(before, more, n);
      MentionsConcat(before, more, n);
      if uid in previous || uid !in users {
        NothingOffered(n);
      } else {
        var targets := UsableTargets(users[uid], users[uid].targets);
        BlockTells(id, uid, targets, at, n);
        FirstIsOffered(targets, n.channel, n.address);
      }
    }
  }

  lemma NothingOffered(n: Notice)
    ensures !FirstIn([], n) && !Mentions([], n)
  {
  }

  lemma FirstIsOffered(targets: seq<Target>, channel: string, address: string)
    ensures FirstOn(targets, channel, address) ==> Offered(targets, channel)
  {
  }

  /** The notices of one handoff are exactly those the roster change calls for, each once. */
  lemma HandoffTells(id: string, roster: seq<string>, previous: seq<string>, users: map<string, User>, at: int)
    ensures var notices := Firsts(Offers(id, roster, previous, users, at));
      && (forall n :: n in notices <==> Tells(id, roster, previous, users, at, n))
      && KeysDistinct(notices)
  {
    var offers := Offers(id, roster, previous, users, at);
    forall n ensures n in Firsts(offers) <==> Tells(id, roster, previous, users, at, n) {
      FirstsAre(offers, n);
      OffersTell(id, roster, previous, users, at, n);
    }
    FirstsDistinct(offers);
  }

  /** A newcomer with somewhere to send to is told on every channel that has such a place. */
  lemma {:induction false} EveryChannelIsTold(targets: seq<Target>, channel: string)
    requires Offered(targets, channel)
    ensures exists address :: FirstOn(targets, channel, address)
    decreases |targets|
  {
    var k := |targets| - 1;
    if Offered(targets[..k], channel) {
      EveryChannelIsTold(targets[..k], channel);
      var address :| FirstOn(targets[..k], channel, address);
      var i :| 0 <= i < k && targets[..k][i] == Target(channel, address) &&
        forall j :: 0 <= j < i ==> targets[..k][j].channel != channel;
      assert targets[i] == Target(channel, address);
      assert forall j :: 0 <= j < i ==> targets[j] == targets[..k][j];
      assert FirstOn(targets, channel, address);
    } else {
      assert forall j :: 0 <= j < k ==> targets[..k][j] == targets[j];
      assert targets[k] == Target(channel, targets[k].address);
      assert FirstOn(targets, channel, targets[k].address);
    }
  }

  // ---- one schedule in the locked transaction ----

  /** `roster` is whom the schedule names when it is asked; `recorded` the roster last
      recorded in shift_notification. */
  datatype Row = Row(optedIn: bool, roster: seq<string>, recorded: Option<seq<string>>)

  predicate FullyLoaded(roster: seq<string>, previous: seq<string>, requested: set<string>) {
    forall i :: 0 <= i < |roster| ==> roster[i] in previous || roster[i] in requested
  }

  predicate Pending(row: Row) { row.optedIn && row.recorded != Some(row.roster) }

  /** The row is left for a later cycle: a newcomer was not among the users asked for. */
  predicate Deferred(row: Row, requested: set<string>) {
    Pending(row) && row.recorded.Some? && !FullyLoaded(row.roster, row.recorded.value, requested)
  }

  function Handled(row: Row, requested: set<string>): Row {
    if !Pending(row) || Deferred(row, requested) then row else row.(recorded := Some(row.roster))
  }

  function Sent(id: string, row: Row, users: map<string, User>, requested: set<string>, at: int): seq<Notice> {
    if !Pending(row) || Deferred(row, requested) || row.recorded.None? then []
    else Firsts(Offers(id, row.roster, row.recorded.value, users, at))
  }

  lemma FirstsSnoc(offers: seq<Notice>, n: Notice)
    ensures Firsts(offers + [n]) == Added(Firsts(offers), n)
  {
    assert (offers + [n])[..|offers|] == offers;
  }

  lemma OffersSnoc(id: string, roster: seq<string>, uid: string, previous: seq<string>, users: map<string, User>,
                   at: int)
    ensures Offers(id, roster + [uid], previous, users, at) ==
      Offers(id, roster, previous, users, at) + OffersTo(id, uid, previous, users, at)
  {
    assert (roster + [uid])[..|roster|] == roster;
  }

  /** The targets of one newcomer, after the offers made `before`. */
  method NotifyOne(id: string, uid: string, targets: seq<Target>, at: int, sent: seq<Notice>, ghost before: seq<Notice>)
    returns (notices: seq<Notice>)
    requires sent == Firsts(before)
    ensures notices == Firsts(before + Block(id, uid, targets, at))
  {
    hide Firsts; hide Mentions;
    notices := sent;
    ghost var block := Block(id, uid, targets, at);
    assert before + block[..0] == before;
    for j := 0 to |targets|
      invariant notices == Firsts(before + block[..j])
    {
      var n := Notice(id, uid, targets[j].channel, targets[j].address, at);
      assert before + block[..j + 1] == before + block[..j] + [n];
      FirstsSnoc(before + block[..j], n);
      if !Mentions(notices, n) { notices := notices + [n]; }
    }
    assert block[..|targets|] == block;
  }

  /** The loops of one handoff. */
  method NotifyNewcomers(id: string, roster: seq<string>, previous: seq<string>, users: map<string, User>, at: int)
    returns (notices: seq<Notice>)
    ensures notices == Firsts(Offers(id, roster, previous, users, at))
  {
    hide UsableTargets; hide Block;
    notices := [];
    for i := 0 to |roster|
      invariant notices == Firsts(Offers(id, roster[..i], previous, users, at))
    {
      hide Firsts; hide Offers;
      var uid := roster[i];
      assert roster[..i + 1] == roster[..i] + [uid];
      OffersSnoc(id, roster[..i], uid, previous, users, at);
      ghost var before := Offers(id, roster[..i], previous, users, at);
      if uid in previous || uid !in users {
        assert before + [] == before;
        continue;
      }
      var targets := ShiftNotificationTargets(users[uid]);
      notices := NotifyOne(id, uid, targets, at, notices, before);
    }
    assert roster[..|roster|] == roster;
  }

  // ---- one cycle ----

  /** The notices about one schedule, in order. */
  function About(notices: seq<Notice>, id: string): seq<Notice> {
    if notices == [] then []
    else
      var n := notices[|notices| - 1];
      About(notices[..|notices| - 1], id) + (if n.schedule == id then [n] else [])
  }

  lemma {:induction false} AboutConcat(a: seq<Notice>, b: seq<Notice>, id: string)
    ensures About(a + b, id) == About(a, id) + About(b, id)
    decreases |b|
  {
    if b == [] {
      assert a + b == a;
    } else {
      var k := |b| - 1;
      assert (a + b)[..|a| + k] == a + b[..k];
      AboutConcat(a, b[..k], id);
    }
  }

  lemma {:induction false} AboutOwn(notices: seq<Notice>, owner: string, id: string)
    requires forall i :: 0 <= i < |notices| ==> notices[i].schedule == owner
    ensures About(notices, id) == if id == owner then notices else []
    decreases |notices|
  {
    if notices != [] {
      AboutOwn(notices[..|notices| - 1], owner, id);
      assert notices == notices[..|notices| - 1] + [notices[|notices| - 1]];
    }
  }

  lemma SentIsOwn(id: string, row: Row, users: map<string, User>, requested: set<string>, at: int)
    ensures forall i :: 0 <= i < |Sent(id, row, users, requested, at)| ==>
      Sent(id, row, users, requested, at)[i].schedule == id
  {
    var sent := Sent(id, row, users, requested, at);
    if sent != [] {
      HandoffTells(id, row.roster, row.recorded.value, users, at);
      forall i | 0 <= i < |sent| ensures sent[i].schedule == id { assert sent[i] in sent; }
    }
  }

  /** What a cycle does to the rows it loaded and whom it tells about each; the order in which
      it visits schedules is not fixed. */
  ghost predicate CycleDoes(rows: map<string, Row>, users: map<string, User>, candidates: set<string>,
                            requested: set<string>, at: int, after: map<string, Row>, notices: seq<Notice>)
  {
    && after.Keys == rows.Keys
    && (forall id :: id in rows ==> after[id] == if id in candidates then Handled(rows[id], requested) else rows[id])
    && (forall id :: About(notices, id) ==
         if id in rows && id in candidates then Sent(id, rows[id], users, requested, at) else [])
  }

  lemma VisitOne(rows: map<string, Row>, users: map<string, User>, done: set<string>, requested: set<string>, at: int,
                 after: map<string, Row>, notices: seq<Notice>, id: string)
    requires CycleDoes(rows, users, done, requested, at, after, notices) && id in rows && id !in done
    ensures CycleDoes(rows, users, done + {id}, requested, at,
                      after[id := Handled(rows[id], requested)], notices + Sent(id, rows[id], users, requested, at))
  {
    hide Handled; hide Sent; hide About;
    var sent := Sent(id, rows[id], users, requested, at);
    forall x ensures About(notices + sent, x) ==
      if x in rows && x in done + {id} then Sent(x, rows[x], users, requested, at) else []
    {
      AboutConcat(notices, sent, x);
      SentIsOwn(id, rows[id], users, requested, at);
      AboutOwn(sent, id, x);
    }
  }

  /** One schedule of the mutator, over the users the transaction loaded. */
  method HandleRow(id: string, row: Row, loaded: map<string, User>, requested: set<string>, at: int,
                   ghost users: map<string, User>)
    returns (after: Row, sent: seq<Notice>)
    requires loaded == Loaded(users, requested)
    ensures after == Handled(row, requested) && sent == Sent(id, row, users, requested, at)
  {
    hide Offers; hide Firsts;
    after, sent := row, [];
    if !row.optedIn || row.recorded == Some(row.roster) { return; }
    if row.recorded.Some? && !FullyLoaded(row.roster, row.recorded.value, requested) { return; }
    after := row.(recorded := Some(row.roster));
    if row.recorded.Some? {
      LoadedSuffices(id, row.roster, row.recorded.value, users, requested, at);
      sent := NotifyNewcomers(id, row.roster, row.recorded.value, loaded, at);
    }
  }

  /** The mutator of ProcessScheduleShiftNotifications over the loaded schedules and users. */
  method ProcessShiftNotifications(rows: map<string, Row>, users: map<string, User>, candidates: set<string>,
                                   requested: set<string>, at: int)
    returns (after: map<string, Row>, notices: seq<Notice>)
    ensures CycleDoes(rows, users, candidates, requested, at, after, notices)
  {
    hide CycleDoes; hide Handled; hide Sent; hide Loaded;
    after, notices := rows, [];
    var loaded := Loaded(users, requested);
    var rest := rows.Keys * candidates;
    ghost var done: set<string> := {};
    NothingVisited(rows, users, requested, at);
    while rest != {}
      invariant rest <= rows.Keys && rest !! done && rest + done == rows.Keys * candidates
      invariant CycleDoes(rows, users, done, requested, at, after, notices)
      decreases |rest|
    {
      var id :| id in rest;
      VisitOne(rows, users, done, requested, at, after, notices, id);
      var row, sent := HandleRow(id, rows[id], loaded, requested, at, users);
      after, notices := after[id := row], notices + sent;
      rest, done := rest - {id}, done + {id};
    }
    AllVisited(rows, users, done, candidates, requested, at, after, notices);
  }

  lemma NothingVisited(rows: map<string, Row>, users: map<string, User>, requested: set<string>, at: int)
    ensures CycleDoes(rows, users, {}, requested, at, rows, [])
  {
  }

  lemma AllVisited(rows: map<string, Row>, users: map<string, User>, done: set<string>, candidates: set<string>,
                   requested: set<string>, at: int, after: map<string, Row>, notices: seq<Notice>)
    requires CycleDoes(rows, users, done, requested, at, after, notices) && done == rows.Keys * candidates
    ensures CycleDoes(rows, users, candidates, requested, at, after, notices)
  {
  }

  function Loaded(users: map<string, User>, requested: set<string>): map<string, User> {
    map uid | uid in users && uid in requested :: users[uid]
  }

  /** When every newcomer was asked for, the users loaded are as good as all of them. */
  lemma {:induction false} LoadedSuffices(id: string, roster: seq<string>, previous: seq<string>,
                                          users: map<string, User>, requested: set<string>, at: int)
    requires FullyLoaded(roster, previous, requested)
    ensures Offers(id, roster, previous, Loaded(users, requested), at) == Offers(id, roster, previous, users, at)
    decreases |roster|
  {
    hide Block; hide UsableTargets;
    if roster != [] {
      var k := |roster| - 1;
      assert forall i :: 0 <= i < k ==> roster[..k][i] == roster[i];
      LoadedSuffices(id, roster[..k], previous, users, requested, at);
    }
  }

  // ---- the pre-pass ----

  /** pendingShiftHandoffs on a cached copy: which schedules changed, and everyone they name. */
  method PendingShiftHandoffs(rows: map<string, Row>) returns (candidates: set<string>, participants: set<string>)
    ensures forall id :: id in candidates <==> id in rows && Pending(rows[id])
    ensures forall uid :: uid in participants <==> exists id :: id in candidates && uid in rows[id].roster
  {
    candidates, participants := {}, {};
    var rest := rows.Keys;
    while rest != {}
      invariant rest <= rows.Keys && candidates <= rows.Keys
      invariant forall id :: id in candidates <==> id in rows && id !in rest && Pending(rows[id])
      invariant forall uid :: uid in participants <==> exists id :: id in candidates && uid in rows[id].roster
      decreases |rest|
    {
      var id :| id in rest;
      rest := rest - {id};
      if !rows[id].optedIn || rows[id].recorded == Some(rows[id].roster) { continue; }
      candidates := candidates + {id};
      participants := participants + (set i | 0 <= i < |rows[id].roster| :: rows[id].roster[i]);
    }
  }

  /** A pre-pass that was not stale leaves nothing for a later cycle. */
  lemma FreshCycleSettlesAll(rows: map<string, Row>, users: map<string, User>, candidates: set<string>,
                             requested: set<string>, at: int, after: map<string, Row>, notices: seq<Notice>)
    requires CycleDoes(rows, users, candidates, requested, at, after, notices)
    requires forall id :: id in rows && Pending(rows[id]) ==>
      id in candidates && FullyLoaded(rows[id].roster, [], requested)
    ensures forall id :: id in after ==> !Pending(after[id])
  {
    forall id | id in after ensures !Pending(after[id]) {
      if Pending(rows[id]) && rows[id].recorded.Some? {
        assert FullyLoaded(rows[id].roster, rows[id].recorded.value, requested);
      }
    }
  }

  /** Enabling the flag is meant to tell nobody. A cycle that may record tells nobody exactly
      when no roster was ever recorded or no newcomer since then can be reached. */
  lemma EnablingTellsNobodyIff(id: string, row: Row, users: map<string, User>, requested: set<string>, at: int)
    requires Pending(row) && !Deferred(row, requested)
    ensures Sent(id, row, users, requested, at) == [] <==>
      row.recorded.None? ||
      forall uid :: NewHere(row.roster, row.recorded.value, users, uid) ==>
        UsableTargets(users[uid], users[uid].targets) == []
  {
    hide UsableTargets;
    if row.recorded.Some? {
      var previous := row.recorded.value;
      HandoffTells(id, row.roster, previous, users, at);
      forall uid | NewHere(row.roster, previous, users, uid) && UsableTargets(users[uid], users[uid].targets) != []
        ensures Sent(id, row, users, requested, at) != []
      {
        var targets := UsableTargets(users[uid], users[uid].targets);
        assert targets[0] == Target(targets[0].channel, targets[0].address);
        assert FirstOn(targets, targets[0].channel, targets[0].address);
        var n := Notice(id, uid, targets[0].channel, targets[0].address, at);
        assert Tells(id, row.roster, previous, users, at, n);
      }
      if Sent(id, row, users, requested, at) != [] {
        var n := Sent(id, row, users, requested, at)[0];
        assert n in Sent(id, row, users, requested, at);
        assert Tells(id, row.roster, previous, users, at, n);
      }
    }
  }

  // ---- two targets on one channel ----

  /** The notice that would go to a target of the user. */
  function NoticeTo(id: string, uid: string, t: Target, at: int): Notice { Notice(id, uid, t.channel, t.address, at) }

  /** Any two usable targets on one channel are one address. */
  predicate OneAddressPerChannel(targets: seq<Target>) {
    forall i, j :: 0 <= i < |targets| && 0 <= j < |targets| && targets[i].channel == targets[j].channel ==>
      targets[i].address == targets[j].address
  }

  lemma FirstsCoverIff(targets: seq<Target>)
    ensures (forall i :: 0 <= i < |targets| ==> FirstOn(targets, targets[i].channel, targets[i].address)) <==>
      OneAddressPerChannel(targets)
  {
    if OneAddressPerChannel(targets) {
      forall i | 0 <= i < |targets| ensures FirstOn(targets, targets[i].channel, targets[i].address) {
        assert Offered(targets, targets[i].channel);
        EveryChannelIsTold(targets, targets[i].channel);
        var address :| FirstOn(targets, targets[i].channel, address);
        var j :| 0 <= j < |targets| && targets[j] == Target(targets[i].channel, address);
        assert targets[j].address == targets[i].address;
      }
    } else {
      var i, j :| 0 <= i < |targets| && 0 <= j < |targets| && targets[i].channel == targets[j].channel &&
        targets[i].address != targets[j].address;
      OneFirst(targets, targets[i].channel, targets[i].address, targets[j].address);
    }
  }

  lemma OneFirst(targets: seq<Target>, channel: string, a: string, b: string)
    ensures FirstOn(targets, channel, a) && FirstOn(targets, channel, b) ==> a == b
  {
  }

  /** A newcomer is told at every usable target if and only if no channel has two of them with
      different addresses: the idempotency key leaves the address out. */
  lemma EveryTargetIsToldIff(id: string, roster: seq<string>, previous: seq<string>, users: map<string, User>, at: int,
                             uid: string)
    requires NewHere(roster, previous, users, uid)
    ensures var targets := UsableTargets(users[uid], users[uid].targets);
      var notices := Firsts(Offers(id, roster, previous, users, at));
      (forall i :: 0 <= i < |targets| ==> NoticeTo(id, uid, targets[i], at) in notices) <==>
        OneAddressPerChannel(targets)
  {
    hide UsableTargets; hide Firsts; hide Offers; hide OneAddressPerChannel; hide FirstOn;
    var targets := UsableTargets(users[uid], users[uid].targets);
    HandoffTells(id, roster, previous, users, at);
    FirstsCoverIff(targets);
    forall i | 0 <= i < |targets|
      ensures NoticeTo(id, uid, targets[i], at) in Firsts(Offers(id, roster, previous, users, at)) <==>
        FirstOn(targets, targets[i].channel, targets[i].address)
    {
      assert Tells(id, roster, previous, users, at, NoticeTo(id, uid, targets[i], at)) <==>
        FirstOn(targets, targets[i].channel, targets[i].address);
    }
  }

  /** Somebody with a private and a work mailbox. */
  function TwoMailboxes(): User {
    User("", "", "", [Target("email", "work"), Target("email", "home")])
  }

  lemma SecondMailboxIsNotTold()
    ensures var u := TwoMailboxes(); !OneAddressPerChannel(UsableTargets(u, u.targets))
  {
    var u := TwoMailboxes();
    assert u.targets[..1] == [Target("email", "work")] && u.targets[..1][..0] == [];
    assert "email" != "log" by { assert |"email"| != |"log"|; }
    assert UsableTargets(u, []) == [];
    assert UsableTargets(u, u.targets[..1]) == [Target("email", "work")];
    assert UsableTargets(u, u.targets) == [Target("email", "work"), Target("email", "home")];
    assert "work"[0] != "home"[0];
  }

  // ---- where a notice goes, said from the stored profile ----

  /** The address a stored target stands for: its own, or for a blank one on email, telegram or
      call the field of the profile that channel uses. */
  predicate Reaches(user: User, stored: Target, address: string) {
    && address != ""
    && (stored.address != "" ==> address == stored.address)
    && (stored.address == "" ==>
         || (stored.channel == "email" && address == user.email)
         || (stored.channel == "telegram" && address == user.telegramId)
         || (stored.channel == "call" && address == user.phone))
  }

  /** A stored target on a notice channel stands for this one. */
  predicate StandsFor(user: User, stored: Target, t: Target) {
    stored.channel == t.channel && NoticeChannel(t.channel) && Reaches(user, stored, t.address)
  }

  /** A channel a notice may use; "log" is none. */
  predicate NoticeChannel(channel: string) {
    channel in {"webhook", "telegram", "email", "call", "slack", "mattermost"}
  }

  /** A target is told at exactly when a stored one on a notice channel reaches it. */
  lemma {:induction false} UsableTargetsAre(user: User, targets: seq<Target>, t: Target)
    ensures t in UsableTargets(user, targets) <==> exists i :: 0 <= i < |targets| && StandsFor(user, targets[i], t)
    decreases |targets|
  {
    if targets != [] {
      var k := |targets| - 1;
      UsableTargetsAre(user, targets[..k], t);
      StandsForIs(user, targets[k], t);
      hide Usable; hide Address; hide StandsFor;
      assert forall i :: 0 <= i < k ==> targets[..k][i] == targets[i];
    }
  }

  lemma StandsForIs(user: User, stored: Target, t: Target)
    ensures StandsFor(user, stored, t) <==> Usable(user, stored) && t == Target(stored.channel, Address(user, stored))
  {
    assert |"email"| == 5 && |"telegram"| == 8 && |"call"| == 4 && |"log"| == 3;
  }

  /** Every notice of a handoff goes to an address its channel has in the user's own profile. */
  lemma NoticesReach(id: string, roster: seq<string>, previous: seq<string>, users: map<string, User>, at: int,
                     n: Notice)
    requires n in Firsts(Offers(id, roster, previous, users, at))
    ensures n.user in users
    ensures var u := users[n.user];
      exists i :: 0 <= i < |u.targets| && StandsFor(u, u.targets[i], Target(n.channel, n.address))
  {
    hide UsableTargets; hide Firsts; hide Offers;
    HandoffTells(id, roster, previous, users, at);
    assert Tells(id, roster, previous, users, at, n);
    UsableTargetsAre(users[n.user], users[n.user].targets, Target(n.channel, n.address));
  }

  /** A schedule that has not opted in is neither recorded nor told about. */
  lemma OptedOutIsLeftAlone(id: string, row: Row, users: map<string, User>, requested: set<string>, at: int)
    requires !row.optedIn
    ensures Handled(row, requested) == row && Sent(id, row, users, requested, at) == []
  {
  }
}
