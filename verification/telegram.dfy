/** The notifier of package `telegram`: it keeps the id of the one live alert
    message, edits that message while alerts are active, and sends a fresh
    all-clear once they are gone.

    The bot client is replaced by the transport call the notifier makes and
    the reply the transport gives; `rand.Intn` by an index the caller picks;
    `text/template` by an uninterpreted `render` function. */
module Telegram {
  import opened Wrappers
  import Text
  import opened Alertmanager

  const ResolvedAlerts: seq<string> := [
    "Alles paletti. Hier gibt es nichts mehr zu sehen.",
    "Das wars schon. Danke für ihre Aufmerksamkeit.",
    "Weiterschlafen, hier gibts nichts zu sehen.",
    "Gut gemacht!"
  ]

  const CurrentAlerts: seq<string> := [
    "Hier is irgendwas gerade eher uncool:",
    "Jo, diggi, das is irgendwie blöd hier:",
    "Was ist denn hier los? Schau ma:",
    "Hier schepperts gleich, was is denn los hier?"
  ]

  const DoNotVentMessages: seq<string> := [
    "Es wäre jetzt eigentlich Zeit zu lüften, aber draußen isses noch feuchter als bei Oma im Keller."
  ]

  const MaybeVentMessages: seq<string> := [
    "Man könnte jetzt mal lüften, aber viel trockener wirds dadurch nicht."
  ]

  const VentMessages: seq<string> := [
    "LÜFTEN! LÜFTEN! LÜFTEN!"
  ]

  /** The last line of every alert message. */
  const ClosingPhrase := "Schau mal besser nach..."

  /** The first line of every ventilation reminder. */
  const VentilationHeading := "*Lüftungserinnerung*"

  /** The two values of package `ventilation`'s recommendation string type
      that select a pool; every other value selects `VentMessages`. */
  const VentNo := "no"
  const VentMaybe := "maybe"

  /** The notifier's state: the chat it writes to and the id of the live alert
      message, if any. */
  datatype Telegram = Telegram(chatId: int, lastMessageId: Option<int>)

  /** One request to the chat transport; every message is sent in Markdown
      mode. */
  datatype TransportCall =
    | SendMessage(chatId: int, text: string)
    | EditMessageText(chatId: int, messageId: int, text: string)

  /** The transport's answer: the id of the message it returned, or an error. */
  type Reply = Result<int, string>

  /** What one notifier call did: the state afterwards, the transport calls
      it made, and the error it returned. */
  datatype WriteOutcome = WriteOutcome(telegram: Telegram, calls: seq<TransportCall>, err: Option<string>)

  /** Template execution, left uninterpreted: a description template and the
      label map give the rendered text. */
  type Render = (string, map<string, string>) -> string

  function New(chatId: int): (t: Telegram)
    ensures t.chatId == chatId && t.lastMessageId.None?
  {
    Telegram(chatId, None)
  }

  /** `rand.Intn(len(messages))` panics on an empty list and otherwise yields
      an index below the length; `choice` is that index. */
  function GetRandomMessage(messages: seq<string>, choice: nat): (m: string)
    requires choice < |messages|
    ensures m in messages
  {
    messages[choice]
  }

  /** The id the notifier stores from a reply: the returned message's id, or
      0, the id of the empty message Go returns together with an error. */
  function ReturnedId(reply: Reply): int {
    match reply
    case Success(id) => id
    case Failure(_) => 0
  }

  function ErrorOf(reply: Reply): Option<string> {
    match reply
    case Success(_) => None
    case Failure(e) => Some(e)
  }

  /** The template data of a sample: the label list folded into a map, in
      label order. */
  function TemplateData(labels: seq<Label>): map<string, string>
    decreases |labels|
  {
    if |labels| == 0 then map[]
    else
      var last := labels[|labels| - 1];
      TemplateData(labels[..|labels| - 1])[last.name := last.value]
  }

  /** The template data maps exactly the label names, each to the value of
      the last label carrying that name. */
  lemma {:induction false} TemplateDataLastWins(labels: seq<Label>)
    ensures forall i :: 0 <= i < |labels| ==> labels[i].name in TemplateData(labels)
    ensures forall name :: name in TemplateData(labels) ==> exists i :: 0 <= i < |labels| && labels[i].name == name
    ensures forall i :: 0 <= i < |labels| && LastWithName(labels, i) ==>
      TemplateData(labels)[labels[i].name] == labels[i].value
    decreases |labels|
  {
    if |labels| > 0 {
      var n := |labels|;
      var init := labels[..n - 1];
      var last := labels[n - 1];
      TemplateDataLastWins(init);
      var data := TemplateData(labels);
      assert data == TemplateData(init)[last.name := last.value];
      forall i | 0 <= i < n
        ensures labels[i].name in data
      {
        if i < n - 1 {
          assert labels[i] == init[i];
        }
      }
      forall name | name in data
        ensures exists i :: 0 <= i < n && labels[i].name == name
      {
        if name != last.name {
          var i :| 0 <= i < |init| && init[i].name == name;
          assert labels[i] == init[i];
        }
      }
      forall i | 0 <= i < n && LastWithName(labels, i)
        ensures data[labels[i].name] == labels[i].value
      {
        if i < n - 1 {
          assert labels[i] == init[i];
          assert labels[i].name != last.name;
          assert LastWithName(init, i);
        }
      }
    }
  }

  /** No label after position `i` has the name of label `i`. */
  ghost predicate LastWithName(labels: seq<Label>, i: int)
    requires 0 <= i < |labels|
  {
    forall j :: i < j < |labels| ==> labels[j].name != labels[i].name
  }

  /** The rendered description of every alert, in alert order. */
  function Descriptions(alerts: seq<TriggeredAlert>, render: Render): (lines: seq<string>)
    ensures |lines| == |alerts|
    ensures forall i :: 0 <= i < |alerts| ==>
      lines[i] == render(alerts[i].rule.description, TemplateData(alerts[i].sample.labels))
    decreases |alerts|
  {
    if |alerts| == 0 then []
    else
      var alert := alerts[|alerts| - 1];
      Descriptions(alerts[..|alerts| - 1], render)
        + [render(alert.rule.description, TemplateData(alert.sample.labels))]
  }

  /** The alert message: the preamble, a blank line, one line per
      description, a blank line and the closing phrase. */
  function AlertText(preamble: string, descriptions: seq<string>): (text: string)
    requires |descriptions| > 0
    ensures text == preamble + "\n\n" + Text.Join(descriptions, "\n") + "\n\n" + ClosingPhrase
  {
    var parts := [preamble, ""] + descriptions + ["", ClosingPhrase];
    Text.JoinConcat([preamble, ""] + descriptions, ["", ClosingPhrase], "\n");
    Text.JoinConcat([preamble, ""], descriptions, "\n");
    assert [preamble, ""][1..] == [""];
    assert ["", ClosingPhrase][1..] == [ClosingPhrase];
    Text.Join(parts, "\n")
  }

  /** A one-alert message holds its description between the blank lines. */
  lemma SingleAlertText(preamble: string, description: string)
    ensures AlertText(preamble, [description]) == preamble + "\n\n" + description + "\n\n" + ClosingPhrase
  {
  }

  /** Brings the chat in line with the current alerts. No alerts: a new
      all-clear message and the live id is forgotten, whether or not the send
      failed. Some alerts: the live message is edited, or a new one is sent
      when there is none, and the returned message's id becomes the live id.
      `choice` is the random pick of the all-clear or preamble line. */
  function WriteMessage(t: Telegram, alerts: seq<TriggeredAlert>, choice: nat, render: Render, reply: Reply)
    : (o: WriteOutcome)
    requires |alerts| == 0 ==> choice < |ResolvedAlerts|
    requires |alerts| > 0 ==> choice < |CurrentAlerts|
    ensures |o.calls| == 1
    ensures o.err == ErrorOf(reply)
    ensures o.telegram.chatId == t.chatId
    ensures |alerts| == 0 ==>
      && o.calls[0].SendMessage? && o.calls[0].chatId == t.chatId
      && o.calls[0].text in ResolvedAlerts
      && o.telegram.lastMessageId.None?
    ensures |alerts| > 0 ==>
      var text := AlertText(CurrentAlerts[choice], Descriptions(alerts, render));
      && (t.lastMessageId.Some? ==> o.calls[0] == EditMessageText(t.chatId, t.lastMessageId.value, text))
      && (t.lastMessageId.None? ==> o.calls[0] == SendMessage(t.chatId, text))
      && o.telegram.lastMessageId == Some(ReturnedId(reply))
  {
    if |alerts| == 0 then
      var message := GetRandomMessage(ResolvedAlerts, choice);
      WriteOutcome(t.(lastMessageId := None), [SendMessage(t.chatId, message)], ErrorOf(reply))
    else
      var currentAlertMessage := GetRandomMessage(CurrentAlerts, choice);
      var finishedMessage := AlertText(currentAlertMessage, Descriptions(alerts, render));
      var call :=
        if t.lastMessageId.Some? then EditMessageText(t.chatId, t.lastMessageId.value, finishedMessage)
        else SendMessage(t.chatId, finishedMessage);
      WriteOutcome(t.(lastMessageId := Some(ReturnedId(reply))), [call], ErrorOf(reply))
  }

  /** The message pool a ventilation recommendation draws from. */
  function VentilationPool(recommendation: string): seq<string> {
    if recommendation == VentNo then DoNotVentMessages
    else if recommendation == VentMaybe then MaybeVentMessages
    else VentMessages
  }

  /** Sends the ventilation reminder: the heading, a blank line and a message
      from the pool the recommendation selects; the live alert id is left
      alone. */
  function WriteReminderForVentilation(t: Telegram, recommendation: string, choice: nat, reply: Reply)
    : (o: WriteOutcome)
    requires choice < |VentilationPool(recommendation)|
    ensures o.telegram == t
    ensures o.err == ErrorOf(reply)
    ensures recommendation == VentNo ==>
      o.calls == [SendMessage(t.chatId, VentilationHeading + "\n\n" + DoNotVentMessages[choice])]
    ensures recommendation == VentMaybe ==>
      o.calls == [SendMessage(t.chatId, VentilationHeading + "\n\n" + MaybeVentMessages[choice])]
    ensures recommendation != VentNo && recommendation != VentMaybe ==>
      o.calls == [SendMessage(t.chatId, VentilationHeading + "\n\n" + VentMessages[choice])]
  {
    var message := GetRandomMessage(VentilationPool(recommendation), choice);
    Text.JoinThree(VentilationHeading, "", message, "\n");
    assert VentilationHeading + "\n" + "" + "\n" + message == VentilationHeading + "\n\n" + message;
    var fullMessage := Text.Join([VentilationHeading, "", message], "\n");
    WriteOutcome(t, [SendMessage(t.chatId, fullMessage)], ErrorOf(reply))
  }
}
