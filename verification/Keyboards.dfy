/**
  The keyboards: which buttons each message carries, and that every one of them works.
 */
module Keyboards {
  import opened Text
  import opened Buttons

  // ---- the keyboards ----

  function Flat(rows: seq<seq<string>>): seq<string> {
    if rows == [] then [] else Flat(rows[..|rows| - 1]) + rows[|rows| - 1]
  }

  /** The data of the buttons that fit, in order; the others are left out. */
  function Emitted(buttons: seq<Button>): seq<string> {
    if buttons == [] then []
    else
      var b := buttons[|buttons| - 1];
      Emitted(buttons[..|buttons| - 1]) + (if b.Fits() then [b.Data()] else [])
  }

  lemma {:induction false} EmittedConcat(a: seq<Button>, b: seq<Button>)
    ensures Emitted(a + b) == Emitted(a) + Emitted(b)
    decreases |b|
  {
    hide Button.Data; hide Button.Fits;
    if b == [] {
      assert a + b == a;
    } else {
      var k := |b| - 1;
      assert (a + b)[..|a| + k] == a + b[..k];
      EmittedConcat(a, b[..k]);
    }
  }

  lemma FlatSnoc(rows: seq<seq<string>>, row: seq<string>)
    ensures Flat(rows + [row]) == Flat(rows) + row
  {
    assert (rows + [row])[..|rows|] == rows;
  }

  /** Every emitted datum stands for a button of the list and fits; every button that fits is there. */
  lemma {:induction false} EmittedAre(buttons: seq<Button>, data: string)
    ensures data in Emitted(buttons) <==>
      exists i :: 0 <= i < |buttons| && buttons[i].Fits() && buttons[i].Data() == data
    decreases |buttons|
  {
    hide Button.Data; hide Button.Fits;
    if buttons != [] {
      var k := |buttons| - 1;
      EmittedAre(buttons[..k], data);
      assert forall i :: 0 <= i < k ==> buttons[..k][i] == buttons[i];
    }
  }

  /** The buttons of the actions the table knows. */
  function Acts(id: string, actions: seq<string>): seq<Button> {
    if actions == [] then []
    else
      var k := |actions| - 1;
      Acts(id, actions[..k]) + (if actions[k] in ACTIONS then [Act(actions[k], id)] else [])
  }

  lemma ActsSnoc(id: string, actions: seq<string>, action: string)
    ensures Acts(id, actions + [action]) == Acts(id, actions) + (if action in ACTIONS then [Act(action, id)] else [])
  {
    assert (actions + [action])[..|actions|] == actions;
  }

  function Silences(id: string, minutes: seq<int>): (bs: seq<Button>)
    ensures |bs| == |minutes| && forall i :: 0 <= i < |bs| ==> bs[i] == Silence(minutes[i], id)
  {
    seq(|minutes|, i requires 0 <= i < |minutes| => Silence(minutes[i], id))
  }

  lemma EmittedOne(b: Button)
    ensures Emitted([b]) == if b.Fits() then [b.Data()] else []
  {
    assert [b][..0] == [];
  }

  /** telegramActionRow. */
  method ActionRow(id: string, actions: seq<string>) returns (row: seq<string>)
    ensures row == Emitted(Acts(id, actions))
  {
    row := [];
    for i := 0 to |actions|
      invariant row == Emitted(Acts(id, actions[..i]))
    {
      hide Emitted; hide Acts;
      assert actions[..i + 1] == actions[..i] + [actions[i]];
      ActsSnoc(id, actions[..i], actions[i]);
      if actions[i] !in ACTIONS {
        assert Acts(id, actions[..i]) + [] == Acts(id, actions[..i]);
        continue;
      }
      EmittedConcat(Acts(id, actions[..i]), [Act(actions[i], id)]);
      EmittedOne(Act(actions[i], id));
      var data := actions[i] + ":" + id;
      if |data| > LIMIT { continue; }
      row := row + [data];
    }
    assert actions[..|actions|] == actions;
  }

  method SilenceRow(id: string) returns (row: seq<string>)
    ensures row == Emitted(Silences(id, SILENCE_OPTIONS))
  {
    row := [];
    ghost var all := Silences(id, SILENCE_OPTIONS);
    for i := 0 to |SILENCE_OPTIONS|
      invariant row == Emitted(all[..i])
    {
      assert all[..i + 1][..i] == all[..i];
      var data := "silence:" + Itoa(SILENCE_OPTIONS[i]) + ":" + id;
      if |data| > LIMIT { continue; }
      row := row + [data];
    }
    assert all[..|SILENCE_OPTIONS|] == all;
  }

  function GroupButtons(id: string): seq<Button> {
    Acts(id, ["ack", "resolve"]) + Silences(id, SILENCE_OPTIONS)
  }

  /** telegramGroupRows, its callbacks. */
  method GroupRows(id: string) returns (rows: seq<seq<string>>)
    ensures Flat(rows) == Emitted(GroupButtons(id))
  {
    hide Flat; hide Emitted;
    rows := [];
    assert Flat([]) == [] by { FlatNone(); }
    var row := ActionRow(id, ["ack", "resolve"]);
    if |row| > 0 {
      FlatSnoc(rows, row);
      rows := rows + [row];
    }
    assert Flat(rows) == row;
    var silence := SilenceRow(id);
    EmittedConcat(Acts(id, ["ack", "resolve"]), Silences(id, SILENCE_OPTIONS));
    if |silence| > 0 {
      FlatSnoc(rows, silence);
      rows := rows + [silence];
    }
  }

  lemma FlatNone()
    ensures Flat([]) == []
  {
  }

  /** A listed group gets a pair of buttons when both fit. */
  predicate Listed(id: string) { Act("show", id).Fits() && Act("ack", id).Fits() }

  function ListingButtons(ids: seq<string>): seq<Button> {
    if ids == [] then []
    else
      var k := |ids| - 1;
      ListingButtons(ids[..k]) + (if Listed(ids[k]) then PairOf(ids[k]) else [])
  }

  function PagerButtons(page: int, pages: int): seq<Button> {
    if pages <= 1 then []
    else (if page > 1 then [Page(page - 1)] else []) + (if page < pages then [Page(page + 1)] else [])
  }

  function ListingKeyboard(ids: seq<string>, page: int, pages: int): seq<Button> {
    var groups := ListingButtons(ids);
    groups + (if groups == [] then [] else [BulkAck, BulkSilence(60)]) + PagerButtons(page, pages)
  }

  function DataOf(buttons: seq<Button>): (data: seq<string>)
    ensures |data| == |buttons| && forall i :: 0 <= i < |data| ==> data[i] == buttons[i].Data()
  {
    seq(|buttons|, i requires 0 <= i < |buttons| => buttons[i].Data())
  }

  lemma DataOfConcat(a: seq<Button>, b: seq<Button>)
    ensures DataOf(a + b) == DataOf(a) + DataOf(b)
  {
  }

  function PairOf(id: string): seq<Button> { [Act("show", id), Act("ack", id)] }

  lemma PairData(id: string)
    ensures DataOf(PairOf(id)) == ["show:" + id, "ack:" + id]
    ensures Listed(id) <==> |"show:" + id| <= LIMIT && |"ack:" + id| <= LIMIT
  {
    assert "show:" + id == "show" + ":" + id && "ack:" + id == "ack" + ":" + id;
  }

  lemma ListingSnoc(ids: seq<string>, id: string)
    ensures ListingButtons(ids + [id]) == ListingButtons(ids) + (if Listed(id) then PairOf(id) else [])
  {
    assert (ids + [id])[..|ids|] == ids;
  }

  /** The rows of the listed groups. */
  method GroupListRows(ids: seq<string>) returns (rows: seq<seq<string>>)
    ensures Flat(rows) == DataOf(ListingButtons(ids))
    ensures rows == [] <==> ListingButtons(ids) == []
  {
    rows := [];
    for i := 0 to |ids|
      invariant Flat(rows) == DataOf(ListingButtons(ids[..i]))
      invariant rows == [] <==> ListingButtons(ids[..i]) == []
    {
      hide Flat; hide DataOf; hide ListingButtons; hide Listed;
      assert ids[..i + 1] == ids[..i] + [ids[i]];
      ListingSnoc(ids[..i], ids[i]);
      PairData(ids[i]);
      var open, ack := "show:" + ids[i], "ack:" + ids[i];
      if |open| > LIMIT || |ack| > LIMIT { continue; }
      FlatSnoc(rows, [open, ack]);
      DataOfConcat(ListingButtons(ids[..i]), PairOf(ids[i]));
      rows := rows + [[open, ack]];
    }
    assert ids[..|ids|] == ids;
  }

  /** clampAlertsPage: the page shown is one of the pages there are. */
  function ClampedPage(page: int, pages: int): int {
    var shown := if page > pages then pages else page;
    if shown < 1 then 1 else shown
  }

  /** Whatever page was asked for, the pager offers exactly its neighbours among the pages. */
  lemma PagerReachesNeighbours(page: int, pages: int, b: Button)
    requires pages >= 1
    ensures var shown := ClampedPage(page, pages);
      && 1 <= shown <= pages
      && (b in PagerButtons(shown, pages) <==>
            b.Page? && 1 <= b.number <= pages && (b.number == shown - 1 || b.number == shown + 1))
  {
  }

  /** telegramPagerRow. */
  method PagerRow(page: int, pages: int) returns (row: seq<string>)
    ensures row == DataOf(PagerButtons(page, pages))
  {
    row := [];
    if pages <= 1 { return; }
    if page > 1 { row := row + ["alerts:" + Itoa(page - 1)]; }
    if page < pages { row := row + ["alerts:" + Itoa(page + 1)]; }
  }

  /** telegramListingRows. */
  method ListingRows(ids: seq<string>, page: int, pages: int) returns (rows: seq<seq<string>>)
    ensures Flat(rows) == DataOf(ListingKeyboard(ids, page, pages))
  {
    rows := GroupListRows(ids);
    var groups := ListingButtons(ids);
    var bulk := if groups == [] then [] else [BulkAck, BulkSilence(60)];
    BulkData();
    if |rows| > 0 {
      FlatSnoc(rows, ["bulk:ack", "bulk:silence:60"]);
      rows := rows + [["bulk:ack", "bulk:silence:60"]];
    }
    hide Flat; hide PagerButtons; hide ListingButtons;
    assert Flat(rows) == DataOf(groups) + DataOf(bulk);
    var nav := PagerRow(page, pages);
    DataOfConcat(groups, bulk);
    DataOfConcat(groups + bulk, PagerButtons(page, pages));
    if |nav| > 0 {
      FlatSnoc(rows, nav);
      rows := rows + [nav];
    }
  }

  lemma BulkData()
    ensures DataOf([BulkAck, BulkSilence(60)]) == ["bulk:ack", "bulk:silence:60"]
  {
    assert Digits(6) == "6" && Itoa(60) == "60";
    assert "bulk:silence:" + "60" == "bulk:silence:60";
  }

  const DUTY_BUTTONS: seq<Button> := [Duty("on"), Duty("take")]

  function DutyRow(): (row: seq<string>)
    ensures |row| == 2
  {
    ["duty:on", "duty:take"]
  }

  lemma DutyData()
    ensures DataOf(DUTY_BUTTONS) == DutyRow()
  {
    assert "duty:" + "on" == "duty:on" && "duty:" + "take" == "duty:take";
  }

  function ShiftButtons(offerCheckin: bool, scheduleID: string): seq<Button> {
    if !offerCheckin then []
    else DUTY_BUTTONS + (if scheduleID != "" && OnCall(scheduleID).Fits() then [OnCall(scheduleID)] else [])
  }

  /** telegramShiftRows. */
  method ShiftRows(offerCheckin: bool, scheduleID: string) returns (rows: seq<seq<string>>)
    ensures Flat(rows) == DataOf(ShiftButtons(offerCheckin, scheduleID))
  {
    hide Flat; hide DataOf; hide DutyRow; hide DUTY_BUTTONS;
    rows := [];
    FlatNone();
    if !offerCheckin { return; }
    DutyData();
    FlatSnoc(rows, DutyRow());
    rows := rows + [DutyRow()];
    assert Flat(rows) == DataOf(DUTY_BUTTONS);
    var data := "oncall:" + scheduleID;
    if scheduleID != "" && |data| <= LIMIT {
      FlatSnoc(rows, [data]);
      OnCallData(scheduleID);
      DataOfConcat(DUTY_BUTTONS, [OnCall(scheduleID)]);
      rows := rows + [[data]];
    } else {
      assert DUTY_BUTTONS + [] == DUTY_BUTTONS;
    }
  }

  lemma OnCallData(id: string)
    ensures DataOf([OnCall(id)]) == ["oncall:" + id]
  {
  }

  // ---- every tap is understood ----

  /** A button that fits its keyboard and comes back as the words it means. */
  predicate Works(b: Button) {
    b.Fits() && ParseCallback(b.Data()).Some? && Fields(ParseCallback(b.Data()).value) == b.Words()
  }

  lemma {:induction false} ListingButtonsValid(ids: seq<string>)
    requires forall i :: 0 <= i < |ids| ==> Word(ids[i])
    ensures forall b :: b in ListingButtons(ids) ==> b.Valid() && b.Fits()
    decreases |ids|
  {
    hide Button.Data;
    if ids != [] { ListingButtonsValid(ids[..|ids| - 1]); }
  }

  lemma SmallButtonsFit(n: int)
    requires -MAX_INT <= n <= MAX_INT
    ensures BulkAck.Fits() && BulkSilence(60).Fits() && Page(n).Fits()
  {
    ItoaShort(60);
    ItoaShort(n);
  }

  /** Every button of every keyboard works: it is short enough for the platform, and a tap
      comes back as exactly the verb, id and minutes it stands for. */
  lemma EveryTapWorks(ids: seq<string>, page: int, pages: int, id: string, offer: bool, schedule: string)
    requires Word(id) && (forall i :: 0 <= i < |ids| ==> Word(ids[i])) && (schedule == "" || Word(schedule))
    requires -MAX_INT <= page <= MAX_INT && pages <= MAX_INT
    ensures forall b :: b in ListingKeyboard(ids, page, pages) ==> Works(b)
    ensures forall b :: b in GroupButtons(id) && b.Fits() ==> Works(b)
    ensures forall b :: b in ShiftButtons(offer, schedule) ==> Works(b)
  {
    hide Button.Data; hide Button.Words; hide Fields; hide ParseCallback;
    forall b | b in ListingKeyboard(ids, page, pages) ensures Works(b) {
      ListingButtonsValid(ids);
      SmallButtonsFit(if b.Page? then b.number else 0);
      TapRoundTrip(b);
    }
    GroupActs(id);
    forall b | b in GroupButtons(id) && b.Fits() ensures Works(b) { TapRoundTrip(b); }
    forall b | b in ShiftButtons(offer, schedule) ensures Works(b) {
      DutyFits(b);
      TapRoundTrip(b);
    }
  }

  lemma DutyFits(b: Button)
    ensures b == Duty("on") || b == Duty("take") ==> b.Fits()
  {
  }

  lemma GroupActs(id: string)
    ensures Acts(id, ["ack", "resolve"]) == [Act("ack", id), Act("resolve", id)]
  {
    var first: seq<string> := [];
    assert Acts(id, first) == [];
    hide Acts;
    ActsSnoc(id, first, "ack");
    ActsSnoc(id, first + ["ack"], "resolve");
    assert first + ["ack"] + ["resolve"] == ["ack", "resolve"];
  }

  /** No two buttons of a group's keyboard mean the same command. */
  lemma GroupButtonsDiffer(id: string, i: nat, j: nat)
    requires Word(id) && i < j < |GroupButtons(id)|
    ensures ParseCallback(GroupButtons(id)[i].Data()) != ParseCallback(GroupButtons(id)[j].Data())
  {
    VerbsDiffer();
    GroupActs(id);
    var bs := GroupButtons(id);
    hide ParseCallback; hide Button.Data;
    DistinctButtonsDistinctCommands(bs[i], bs[j]);
  }

  // ---- what each keyboard offers ----

  /** Under an alert: acknowledge, resolve, and silence for one, four and eight hours. */
  lemma GroupKeyboardIs(id: string)
    ensures GroupButtons(id) ==
      [Act("ack", id), Act("resolve", id), Silence(60, id), Silence(240, id), Silence(480, id)]
  {
    GroupActs(id);
    var silences := Silences(id, SILENCE_OPTIONS);
    assert silences == [Silence(60, id), Silence(240, id), Silence(480, id)];
  }

  lemma {:induction false} ListingButtonsAre(ids: seq<string>, b: Button)
    ensures b in ListingButtons(ids) <==>
      exists i :: 0 <= i < |ids| && Listed(ids[i]) && (b == Act("show", ids[i]) || b == Act("ack", ids[i]))
    decreases |ids|
  {
    hide Listed;
    if ids != [] {
      var k := |ids| - 1;
      ListingButtonsAre(ids[..k], b);
      assert forall i :: 0 <= i < k ==> ids[..k][i] == ids[i];
    }
  }

  /** A listing offers each group that fits its details and an acknowledgement, acting on all of
      them when there are any, and the neighbouring pages; nothing else. */
  lemma ListingKeyboardIs(ids: seq<string>, page: int, pages: int, b: Button)
    ensures b in ListingKeyboard(ids, page, pages) <==>
      || (exists i :: 0 <= i < |ids| && Listed(ids[i]) && (b == Act("show", ids[i]) || b == Act("ack", ids[i])))
      || ((exists i :: 0 <= i < |ids| && Listed(ids[i])) && (b == BulkAck || b == BulkSilence(60)))
      || b in PagerButtons(page, pages)
  {
    hide Listed; hide PagerButtons;
    var groups := ListingButtons(ids);
    ListingButtonsAre(ids, b);
    if i :| 0 <= i < |ids| && Listed(ids[i]) {
      ListingButtonsAre(ids, Act("show", ids[i]));
    }
    if groups != [] {
      ListingButtonsAre(ids, groups[0]);
      assert groups[0] in groups;
    }
    hide ListingButtons;
    var bulk := if groups == [] then [] else [BulkAck, BulkSilence(60)];
    assert b in bulk <==> groups != [] && (b == BulkAck || b == BulkSilence(60));
  }
}
