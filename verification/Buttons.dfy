/**
  The chat buttons: what each keyboard puts on a button and the command a tap turns back
  into. Text is measured in bytes, so a `char` here is one byte.
 */
module Buttons {
  import opened Instants
  import opened Text

  const LIMIT: nat := 64

  const ACTIONS: set<string> := {"ack", "resolve", "unack", "unresolve", "show"}

  const BULK: set<string> := {"ack", "silence", "resolve"}

  const SILENCE_OPTIONS: seq<int> := [60, 240, 480]

  /** ChatActionCommand. */
  function ChatActionCommand(action: string, groupID: string): Option<string> {
    if groupID == "" then None
    else
      var (verb, arg, carriesArg) := Cut(action);
      if carriesArg then
        if verb != "silence" then None
        else
          var minutes := Atoi(arg);
          if minutes.None? || minutes.value <= 0 then None
          else Some("silence " + groupID + " " + Itoa(minutes.value))
      else if action in ACTIONS then Some(action + " " + groupID)
      else None
  }

  /** ParseTelegramCallbackData. */
  function ParseCallback(data: string): Option<string> {
    var (verb, rest, found) := Cut(data);
    if !found || rest == "" then None
    else if verb == "silence" then
      var (minutes, groupID, ok) := Cut(rest);
      if !ok then None else ChatActionCommand("silence:" + minutes, groupID)
    else if verb == "bulk" then
      var (what, arg, carriesArg) := Cut(rest);
      if what !in BULK then None
      else if carriesArg then Some("bulk " + what + " " + arg)
      else Some("bulk " + what)
    else if verb == "alerts" then Some("alerts " + rest)
    else if verb == "duty" then (if rest == "on" || rest == "off" || rest == "take" then Some("duty " + rest) else None)
    else if verb == "oncall" then Some("oncall " + rest)
    else ChatActionCommand(verb, rest)
  }

  /** What a button stands for. */
  datatype Button =
    | Act(action: string, id: string)
    | Silence(minutes: int, id: string)
    | BulkAck
    | BulkSilence(minutes: int)
    | Page(number: int)
    | Duty(word: string)
    | OnCall(schedule: string)
  {
    predicate Valid() {
      match this
      case Act(action, id) => action in ACTIONS && Word(id)
      case Silence(minutes, id) => 0 < minutes <= MAX_INT && Word(id)
      case BulkAck => true
      case BulkSilence(minutes) => 0 < minutes <= MAX_INT
      case Page(n) => -MAX_INT <= n <= MAX_INT
      case Duty(word) => word in {"on", "off", "take"}
      case OnCall(id) => Word(id)
    }

    /** The callback data a keyboard carries. */
    function Data(): string {
      match this
      case Act(action, id) => action + ":" + id
      case Silence(minutes, id) => "silence:" + Itoa(minutes) + ":" + id
      case BulkAck => "bulk:ack"
      case BulkSilence(minutes) => "bulk:silence:" + Itoa(minutes)
      case Page(n) => "alerts:" + Itoa(n)
      case Duty(word) => "duty:" + word
      case OnCall(id) => "oncall:" + id
    }

    /** The words of the command it means. */
    function Words(): seq<string> {
      match this
      case Act(action, id) => [action, id]
      case Silence(minutes, id) => ["silence", id, Itoa(minutes)]
      case BulkAck => ["bulk", "ack"]
      case BulkSilence(minutes) => ["bulk", "silence", Itoa(minutes)]
      case Page(n) => ["alerts", Itoa(n)]
      case Duty(word) => ["duty", word]
      case OnCall(id) => ["oncall", id]
    }

    predicate Fits() { |Data()| <= LIMIT }
  }

  /** The verbs are told apart by their first letters and lengths. */
  lemma VerbsDiffer()
    ensures "silence"[0] == 's' && |"silence"| == 7 && "bulk"[0] == 'b' && "alerts"[0] == 'a' && |"alerts"| == 6
    ensures "duty"[0] == 'd' && "oncall"[0] == 'o' && "ack"[0] == 'a' && |"ack"| == 3 && "resolve"[0] == 'r'
    ensures "unack"[0] == 'u' && |"unack"| == 5 && "unresolve"[0] == 'u' && |"unresolve"| == 9 && "show"[0] == 's' &&
      |"show"| == 4
  {
  }

  lemma SilenceParses(minutes: int, id: string)
    requires 0 < minutes <= MAX_INT && Word(id)
    ensures ParseCallback("silence:" + Itoa(minutes) + ":" + id) == Some("silence" + " " + id + " " + Itoa(minutes))
  {
    var m := Itoa(minutes);
    ItoaIsWord(minutes);
    assert "silence:" + m + ":" + id == "silence" + ":" + (m + ":" + id);
    CutAt("silence", m + ":" + id);
    CutAt(m, id);
    assert "silence:" + m == "silence" + ":" + m;
    CutAt("silence", m);
    ItoaReads(minutes);
    assert "silence " + id + " " + m == "silence" + " " + id + " " + m;
  }

  const SPECIAL: set<string> := {"silence", "bulk", "alerts", "duty", "oncall"}

  lemma ActionsArePlain(action: string)
    requires action in ACTIONS
    ensures NoColon(action) && action !in SPECIAL
  {
    VerbsDiffer();
  }

  lemma ActParses(action: string, id: string)
    requires action in ACTIONS && Word(id)
    ensures ParseCallback(action + ":" + id) == Some(action + " " + id)
  {
    ActionsArePlain(action);
    CutAt(action, id);
    CutNone(action);
    hide Cut; hide Atoi; hide Itoa; hide ACTIONS; hide NoColon;
  }

  lemma BulkAckParses()
    ensures ParseCallback("bulk:ack") == Some("bulk" + " " + "ack")
  {
    VerbsDiffer();
    assert "bulk:ack" == "bulk" + ":" + "ack";
    CutAt("bulk", "ack");
    CutNone("ack");
    assert "bulk " + "ack" == "bulk" + " " + "ack";
  }

  lemma BulkSilenceParses(minutes: int)
    ensures ParseCallback("bulk:silence:" + Itoa(minutes)) == Some("bulk" + " " + "silence" + " " + Itoa(minutes))
  {
    VerbsDiffer();
    var m := Itoa(minutes);
    var rest := "silence" + ":" + m;
    assert "bulk:silence:" + m == "bulk" + ":" + rest;
    CutAt("bulk", rest);
    CutAt("silence", m);
    assert "bulk " + "silence" + " " + m == "bulk" + " " + "silence" + " " + m;
  }

  lemma OtherParses(verb: string, rest: string)
    requires verb in {"alerts", "oncall", "duty"} && rest != "" && (verb == "duty" ==> rest in {"on", "off", "take"})
    ensures ParseCallback(verb + ":" + rest) == Some(verb + " " + rest)
  {
    VerbsDiffer();
    CutAt(verb, rest);
    assert "alerts " + rest == "alerts" + " " + rest;
    assert "oncall " + rest == "oncall" + " " + rest;
    assert "duty " + rest == "duty" + " " + rest;
  }

  lemma LineOfTwo(a: string, b: string)
    ensures Line([a, b]) == a + " " + b
  {
    assert [a, b][1..] == [b];
  }

  lemma LineOfThree(a: string, b: string, c: string)
    ensures Line([a, b, c]) == a + " " + b + " " + c
  {
    assert [a, b, c][1..] == [b, c];
    LineOfTwo(b, c);
    assert a + " " + (b + " " + c) == a + " " + b + " " + c;
  }

  lemma ParsesToLine(b: Button)
    requires b.Valid()
    ensures ParseCallback(b.Data()) == Some(Line(b.Words()))
  {
    hide ParseCallback; hide Line; hide Itoa;
    match b
    case Act(action, id) => ActParses(action, id); LineOfTwo(action, id);
    case Silence(minutes, id) => SilenceParses(minutes, id); LineOfThree("silence", id, Itoa(minutes));
    case BulkAck => BulkAckParses(); LineOfTwo("bulk", "ack");
    case BulkSilence(minutes) => BulkSilenceParses(minutes); LineOfThree("bulk", "silence", Itoa(minutes));
    case Page(n) =>
      ItoaIsWord(n);
      assert "alerts:" + Itoa(n) == "alerts" + ":" + Itoa(n);
      OtherParses("alerts", Itoa(n));
      LineOfTwo("alerts", Itoa(n));
    case Duty(word) =>
      assert "duty:" + word == "duty" + ":" + word;
      OtherParses("duty", word);
      LineOfTwo("duty", word);
    case OnCall(id) =>
      assert "oncall:" + id == "oncall" + ":" + id;
      OtherParses("oncall", id);
      LineOfTwo("oncall", id);
  }

  lemma WordsAreWords(b: Button)
    requires b.Valid()
    ensures forall i :: 0 <= i < |b.Words()| ==> Word(b.Words()[i])
  {
    hide Itoa;
    match b
    case Silence(minutes, _) => ItoaIsWord(minutes);
    case BulkSilence(minutes) => ItoaIsWord(minutes);
    case Page(n) => ItoaIsWord(n);
    case _ =>
  }

  /** A tap on any button comes back as a command made of exactly the intended words, colons in
      the id or not. */
  lemma TapRoundTrip(b: Button)
    requires b.Valid()
    ensures ParseCallback(b.Data()).Some? && Fields(ParseCallback(b.Data()).value) == b.Words()
  {
    ParsesToLine(b);
    WordsAreWords(b);
    FieldsOfLine(b.Words());
  }

  lemma WordsTellApart(a: Button, b: Button)
    requires a.Valid() && b.Valid() && a.Words() == b.Words()
    ensures a == b
  {
    VerbsDiffer();
    assert a.Words()[0] == b.Words()[0] && a.Words()[1] == b.Words()[1];
    match a
    case Silence(m, _) => SameNumber(m, b.minutes);
    case BulkSilence(m) => SameNumber(m, b.minutes);
    case Page(n) => SameNumber(n, b.number);
    case _ =>
  }

  lemma SameNumber(m: int, n: int)
    requires -MAX_INT <= m <= MAX_INT && -MAX_INT <= n <= MAX_INT
    ensures Itoa(m) == Itoa(n) ==> m == n
  {
    ItoaReads(m);
    ItoaReads(n);
  }

  /** Distinct buttons never mean the same command. */
  lemma DistinctButtonsDistinctCommands(a: Button, b: Button)
    requires a.Valid() && b.Valid() && a != b
    ensures ParseCallback(a.Data()) != ParseCallback(b.Data())
  {
    TapRoundTrip(a);
    TapRoundTrip(b);
    if a.Words() == b.Words() { WordsTellApart(a, b); }
  }

  /** A silence is understood exactly for a positive number of minutes and some group. */
  lemma SilenceUnderstoodIff(arg: string, id: string)
    ensures ChatActionCommand("silence:" + arg, id).Some? <==> id != "" && Atoi(arg).Some? && Atoi(arg).value >= 1
  {
    assert "silence:" + arg == "silence" + ":" + arg;
    CutAt("silence", arg);
  }
}
