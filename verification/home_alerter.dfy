/** The driver in `main.go`: the three threshold rules it registers, the
    key-based comparison of two alert lists, and one tick of the poll loop,
    which re-renders the chat message only when the set of alert keys
    changed. */
module HomeAlerter {
  import opened Wrappers
  import Seqs
  import opened Alertmanager
  import opened Telegram

  // ---------------------------------------------------------------------------
  // Change detection

  /** Some alert of `alerts` has key `key`. */
  predicate HasKey(alerts: seq<TriggeredAlert>, key: string) {
    exists j :: 0 <= j < |alerts| && alerts[j].key == key
  }

  /** Both lists hold the same keys, regardless of order, multiplicity and
      payload. */
  ghost predicate SameKeys(a: seq<TriggeredAlert>, b: seq<TriggeredAlert>) {
    && (forall i :: 0 <= i < |a| ==> HasKey(b, a[i].key))
    && (forall j :: 0 <= j < |b| ==> HasKey(a, b[j].key))
  }

  /** The keys of `a`, in `a`'s order, that no alert of `b` has. */
  function MissingKeys(a: seq<TriggeredAlert>, b: seq<TriggeredAlert>): seq<string>
    decreases |a|
  {
    if |a| == 0 then []
    else
      var s1 := a[|a| - 1];
      MissingKeys(a[..|a| - 1], b) + (if HasKey(b, s1.key) then [] else [s1.key])
  }

  /** The key-based symmetric difference `diffAlertLists` reports. */
  function KeyDiff(a: seq<TriggeredAlert>, b: seq<TriggeredAlert>): seq<string> {
    MissingKeys(a, b) + MissingKeys(b, a)
  }

  /** The number of alerts of `a` with key `key`. */
  function KeyCount(a: seq<TriggeredAlert>, key: string): nat
    decreases |a|
  {
    if |a| == 0 then 0
    else KeyCount(a[..|a| - 1], key) + (if a[|a| - 1].key == key then 1 else 0)
  }

  /** `diffAlertLists`: two passes, the second with the lists swapped; each
      pass reports, in order, every alert of the first list whose key the
      second list lacks. */
  method DiffAlertLists(a: seq<TriggeredAlert>, b: seq<TriggeredAlert>) returns (diff: seq<string>)
    ensures diff == KeyDiff(a, b)
  {
    diff := [];
    var first, second := a, b;
    for pass := 0 to 2
      invariant pass == 0 ==> first == a && second == b && diff == []
      invariant pass == 1 ==> first == b && second == a && diff == MissingKeys(a, b)
      invariant pass == 2 ==> diff == MissingKeys(a, b) + MissingKeys(b, a)
    {
      ghost var before := diff;
      for i := 0 to |first|
        invariant diff == before + MissingKeys(first[..i], second)
      {
        var s1 := first[i];
        var found := false;
        for j := 0 to |second|
          invariant found <==> exists l :: 0 <= l < j && second[l].key == s1.key
        {
          if s1.key == second[j].key {
            found := true;
            break;
          }
        }
        if !found {
          diff := diff + [s1.key];
        }
        assert first[..i + 1][..i] == first[..i];
      }
      assert first[..|first|] == first;
      if pass == 0 {
        first, second := second, first;
      }
    }
  }

  lemma {:induction false} MissingKeysEmpty(a: seq<TriggeredAlert>, b: seq<TriggeredAlert>)
    ensures |MissingKeys(a, b)| == 0 <==> forall i :: 0 <= i < |a| ==> HasKey(b, a[i].key)
    decreases |a|
  {
    if |a| > 0 {
      var init := a[..|a| - 1];
      MissingKeysEmpty(init, b);
      if |MissingKeys(a, b)| == 0 {
        forall i | 0 <= i < |a|
          ensures HasKey(b, a[i].key)
        {
          if i < |a| - 1 {
            assert a[i] == init[i];
          }
        }
      }
    }
  }

  /** The difference is empty exactly when every key of each list occurs in
      the other. */
  lemma DiffEmptyIff(a: seq<TriggeredAlert>, b: seq<TriggeredAlert>)
    ensures |KeyDiff(a, b)| == 0 <==> SameKeys(a, b)
  {
    MissingKeysEmpty(a, b);
    MissingKeysEmpty(b, a);
  }

  /** A list never differs from itself. */
  lemma DiffSelfEmpty(a: seq<TriggeredAlert>)
    ensures KeyDiff(a, a) == []
  {
    DiffEmptyIff(a, a);
    assert SameKeys(a, a) by {
      forall i | 0 <= i < |a|
        ensures HasKey(a, a[i].key)
      {
      }
    }
  }

  /** Whether the lists differ depends only on their key sets: reordering,
      repeating or changing the payload of alerts, keeping the keys, never
      changes it. */
  lemma DiffDependsOnKeysOnly(a: seq<TriggeredAlert>, a': seq<TriggeredAlert>,
                              b: seq<TriggeredAlert>, b': seq<TriggeredAlert>)
    requires SameKeys(a, a') && SameKeys(b, b')
    ensures |KeyDiff(a, b)| == 0 <==> |KeyDiff(a', b')| == 0
  {
    DiffEmptyIff(a, b);
    DiffEmptyIff(a', b');
    if SameKeys(a, b) {
      forall i | 0 <= i < |a'|
        ensures HasKey(b', a'[i].key)
      {
        var x :| 0 <= x < |a| && a[x].key == a'[i].key;
        var y :| 0 <= y < |b| && b[y].key == a[x].key;
        var z :| 0 <= z < |b'| && b'[z].key == b[y].key;
      }
      forall j | 0 <= j < |b'|
        ensures HasKey(a', b'[j].key)
      {
        var x :| 0 <= x < |b| && b[x].key == b'[j].key;
        var y :| 0 <= y < |a| && a[y].key == b[x].key;
        var z :| 0 <= z < |a'| && a'[z].key == a[y].key;
      }
    }
    if SameKeys(a', b') {
      forall i | 0 <= i < |a|
        ensures HasKey(b, a[i].key)
      {
        var x :| 0 <= x < |a'| && a'[x].key == a[i].key;
        var y :| 0 <= y < |b'| && b'[y].key == a'[x].key;
        var z :| 0 <= z < |b| && b[z].key == b'[y].key;
      }
      forall j | 0 <= j < |b|
        ensures HasKey(a, b[j].key)
      {
        var x :| 0 <= x < |b'| && b'[x].key == b[j].key;
        var y :| 0 <= y < |a'| && a'[y].key == b'[x].key;
        var z :| 0 <= z < |a| && a[z].key == a'[y].key;
      }
    }
  }

  /** The test each alert of the first list faces. */
  function LacksKey(b: seq<TriggeredAlert>): TriggeredAlert -> bool {
    (x: TriggeredAlert) => !HasKey(b, x.key)
  }

  /** The missing keys of `a` are the keys of exactly those alerts of `a`
      whose key `b` lacks, each once per alert, in `a`'s order. */
  lemma {:induction false} MissingKeysExact(a: seq<TriggeredAlert>, b: seq<TriggeredAlert>)
    ensures var idx := Seqs.FilterIndices(a, LacksKey(b));
      && |MissingKeys(a, b)| == |idx|
      && forall k :: 0 <= k < |idx| ==> MissingKeys(a, b)[k] == a[idx[k]].key
    decreases |a|
  {
    if |a| > 0 {
      var init := a[..|a| - 1];
      var last := a[|a| - 1];
      MissingKeysExact(init, b);
      var idx0 := Seqs.FilterIndices(init, LacksKey(b));
      var idx := Seqs.FilterIndices(a, LacksKey(b));
      assert idx == idx0 + (if LacksKey(b)(last) then [|a| - 1] else []);
      assert MissingKeys(a, b) == MissingKeys(init, b) + (if HasKey(b, last.key) then [] else [last.key]);
      forall k | 0 <= k < |idx|
        ensures MissingKeys(a, b)[k] == a[idx[k]].key
      {
        if k < |idx0| {
          assert init[idx0[k]] == a[idx0[k]];
        }
      }
    }
  }

  /** Every reported key belongs to an alert of one list and to none of the
      other; at most one key is reported per alert. */
  lemma DiffElements(a: seq<TriggeredAlert>, b: seq<TriggeredAlert>)
    ensures |KeyDiff(a, b)| <= |a| + |b|
    ensures forall k :: 0 <= k < |KeyDiff(a, b)| ==>
      || (HasKey(a, KeyDiff(a, b)[k]) && !HasKey(b, KeyDiff(a, b)[k]))
      || (HasKey(b, KeyDiff(a, b)[k]) && !HasKey(a, KeyDiff(a, b)[k]))
  {
    MissingKeysExact(a, b);
    MissingKeysExact(b, a);
    var d := KeyDiff(a, b);
    var ma := MissingKeys(a, b);
    var idxA := Seqs.FilterIndices(a, LacksKey(b));
    var idxB := Seqs.FilterIndices(b, LacksKey(a));
    forall k | 0 <= k < |d|
      ensures || (HasKey(a, d[k]) && !HasKey(b, d[k]))
              || (HasKey(b, d[k]) && !HasKey(a, d[k]))
    {
      if k < |ma| {
        assert d[k] == a[idxA[k]].key;
      } else {
        assert d[k] == b[idxB[k - |ma|]].key;
      }
    }
  }

  /** Duplicates are kept: a key `b` lacks is reported once for every alert
      of `a` that carries it. */
  lemma {:induction false} MissingKeysCount(a: seq<TriggeredAlert>, b: seq<TriggeredAlert>, key: string)
    ensures multiset(MissingKeys(a, b))[key] == if HasKey(b, key) then 0 else KeyCount(a, key)
    decreases |a|
  {
    if |a| > 0 {
      MissingKeysCount(a[..|a| - 1], b, key);
    }
  }

  // ---------------------------------------------------------------------------
  // The registered rules

  const HeatingPowerMetric := "tado_activity_heating_power_percentage"
  const HumidityMetric := "tado_sensor_humidity_percentage"
  const TemperatureMetric := "tado_sensor_temperature_value"

  const HeatingPowerDescription := "Die Heizleistung im Zimmer *{{ .zone }}* ist über 60%."
  const HumidityDescription := "Die Luftfeuchtigkeit im Zimmer *{{ .zone }}* ist über 75%."
  const TemperatureDescription := "Die Temperatur im Zimmer *{{ .zone }}* ist unter 16 Grad."

  const MaximumHeat: real := 60.0
  const MaximumHumidity: real := 75.0
  const MinimumTemperature: real := 16.0

  predicate HeatingPowerTooHigh(m: Sample) {
    m.value > MaximumHeat
  }

  predicate HumidityTooHigh(m: Sample) {
    m.value > MaximumHumidity
  }

  /** The scan for a `unit` label whose value is not `celsius`. */
  function HasForeignUnit(labels: seq<Label>): (invalidMetric: bool)
    ensures invalidMetric <==> exists i :: 0 <= i < |labels| && labels[i].name == "unit" && labels[i].value != "celsius"
    decreases |labels|
  {
    if |labels| == 0 then false
    else
      var pair := labels[|labels| - 1];
      HasForeignUnit(labels[..|labels| - 1]) || (pair.name == "unit" && pair.value != "celsius")
  }

  /** The temperature rule: below 16 degrees, unless any `unit` label says
      the reading is not in Celsius. */
  function TemperatureTooLow(m: Sample): (alert: bool)
    ensures alert <==>
      && (forall i :: 0 <= i < |m.labels| && m.labels[i].name == "unit" ==> m.labels[i].value == "celsius")
      && m.value < MinimumTemperature
  {
    if HasForeignUnit(m.labels) then false else m.value < MinimumTemperature
  }

  /** The three registrations of `main`, in order; the identifiers stand for
      the generated UUIDs. */
  function RegisterRules(am: AlertManager, heatingId: string, humidityId: string, temperatureId: string)
    : (am': AlertManager)
    ensures |am'.rules| == |am.rules| + 3
    ensures am'.rules[..|am.rules|] == am.rules
    ensures am'.rules[|am.rules|]
      == AlertRule(heatingId, "Heizleistung", HeatingPowerDescription, HeatingPowerMetric, HeatingPowerTooHigh)
    ensures am'.rules[|am.rules| + 1]
      == AlertRule(humidityId, "Feuchtigkeit", HumidityDescription, HumidityMetric, HumidityTooHigh)
    ensures am'.rules[|am.rules| + 2]
      == AlertRule(temperatureId, "Temperatur", TemperatureDescription, TemperatureMetric, TemperatureTooLow)
  {
    var am1 := AddRule(am, heatingId, "Heizleistung", HeatingPowerDescription, HeatingPowerMetric, HeatingPowerTooHigh);
    var am2 := AddRule(am1, humidityId, "Feuchtigkeit", HumidityDescription, HumidityMetric, HumidityTooHigh);
    var am3 := AddRule(am2, temperatureId, "Temperatur", TemperatureDescription, TemperatureMetric, TemperatureTooLow);
    assert am3.rules[..|am.rules|] == am2.rules[..|am.rules|];
    assert am3.rules[|am.rules|] == am2.rules[|am.rules|];
    am3
  }

  /** The rules `main` registers alert on heating power above 60 and
      humidity above 75, and on a temperature below 16 unless a `unit` label
      names another unit than Celsius. */
  lemma RegisteredThresholds(heatingId: string, humidityId: string, temperatureId: string, m: Sample)
    ensures var rules := RegisterRules(NewAlertManager(), heatingId, humidityId, temperatureId).rules;
      && |rules| == 3
      && (rules[0].evaluate(m) <==> m.value > 60.0)
      && (rules[1].evaluate(m) <==> m.value > 75.0)
      && (rules[2].evaluate(m) <==>
            && m.value < 16.0
            && forall i :: 0 <= i < |m.labels| && m.labels[i].name == "unit" ==> m.labels[i].value == "celsius")
  {
    var rules := RegisterRules(NewAlertManager(), heatingId, humidityId, temperatureId).rules;
    assert rules[0].evaluate == HeatingPowerTooHigh;
    assert rules[1].evaluate == HumidityTooHigh;
    assert rules[2].evaluate == TemperatureTooLow;
  }

  /** The kitchen example: a 15.2 degree Celsius reading triggers the
      temperature rule with the documented key, a 16.5 degree one does not. */
  lemma TemperatureExample(temperatureId: string)
    ensures var kitchen := [Label("zone", "Kueche"), Label("unit", "celsius")];
      var rule := RegisterRules(NewAlertManager(), "", "", temperatureId).rules[2];
      && rule.evaluate(Sample(15.2, kitchen))
      && !rule.evaluate(Sample(16.5, kitchen))
      && NewTriggeredAlert(rule, Sample(15.2, kitchen)).key
         == "tado_sensor_temperature_value_zone_Kueche_unit_celsius"
  {
    var kitchen := [Label("zone", "Kueche"), Label("unit", "celsius")];
    var rule := RegisterRules(NewAlertManager(), "", "", temperatureId).rules[2];
    assert rule.evaluate == TemperatureTooLow;
    assert !HasForeignUnit(kitchen) by {
      assert kitchen[..1] == [Label("zone", "Kueche")];
      assert kitchen[..1][..0] == [];
    }
    KitchenKey();
  }

  lemma KitchenKey()
    ensures AlertKey(TemperatureMetric, [Label("zone", "Kueche"), Label("unit", "celsius")])
      == "tado_sensor_temperature_value_zone_Kueche_unit_celsius"
  {
    var kitchen := [Label("zone", "Kueche"), Label("unit", "celsius")];
    assert kitchen[..1] == [Label("zone", "Kueche")];
    assert kitchen[..1][..0] == [];
    assert AlertKey(TemperatureMetric, kitchen[..1]) == "tado_sensor_temperature_value_zone_Kueche";
  }

  // ---------------------------------------------------------------------------
  // The poll loop

  /** What the loop carries from one tick to the next: the alerts of the
      last completed tick and the notifier. */
  datatype PollState = PollState(savedAlerts: seq<TriggeredAlert>, telegram: Telegram)

  /** The end of a tick: the loop goes on with a new state, or `main` panics
      with an error; either way, the transport calls made. */
  datatype TickOutcome =
    | Continue(state: PollState, calls: seq<TransportCall>)
    | Panic(reason: string, calls: seq<TransportCall>)

  function InitialState(chatId: int): (st: PollState)
    ensures st.savedAlerts == [] && st.telegram.chatId == chatId && st.telegram.lastMessageId.None?
  {
    PollState([], New(chatId))
  }

  /** The rest of a tick once the alerts are known: the chat is written only
      when the key sets differ, a write error is fatal, and otherwise the
      current alerts replace the saved ones whether or not a message went
      out. */
  function Step(st: PollState, triggeredAlerts: seq<TriggeredAlert>, choice: nat, render: Render, reply: Reply)
    : (o: TickOutcome)
    requires choice < |ResolvedAlerts| && choice < |CurrentAlerts|
    ensures |o.calls| <= 1
    ensures |o.calls| == 1 <==> |KeyDiff(st.savedAlerts, triggeredAlerts)| > 0
    ensures |KeyDiff(st.savedAlerts, triggeredAlerts)| > 0 ==>
      o.calls == WriteMessage(st.telegram, triggeredAlerts, choice, render, reply).calls
    ensures o.Panic? <==> |KeyDiff(st.savedAlerts, triggeredAlerts)| > 0 && reply.Failure?
    ensures o.Panic? ==> reply.Failure? && o.reason == reply.error
    ensures o.Continue? ==> o.state.savedAlerts == triggeredAlerts
    ensures |KeyDiff(st.savedAlerts, triggeredAlerts)| > 0 && o.Continue? ==>
      o.state.telegram == WriteMessage(st.telegram, triggeredAlerts, choice, render, reply).telegram
    ensures |KeyDiff(st.savedAlerts, triggeredAlerts)| == 0 ==> o.Continue? && o.state.telegram == st.telegram
  {
    var diffAlertList := KeyDiff(st.savedAlerts, triggeredAlerts);
    if |diffAlertList| > 0 then
      var written := WriteMessage(st.telegram, triggeredAlerts, choice, render, reply);
      if written.err.Some? then Panic(written.err.value, written.calls)
      else Continue(PollState(triggeredAlerts, written.telegram), written.calls)
    else
      Continue(PollState(triggeredAlerts, st.telegram), [])
  }

  /** One tick of the loop in `main`: scrape and evaluate, panic on a fetch
      error, then `Step`. */
  method PollCycle(am: AlertManager, st: PollState, response: Result<Snapshot, string>,
                   choice: nat, render: Render, reply: Reply) returns (o: TickOutcome)
    requires choice < |ResolvedAlerts| && choice < |CurrentAlerts|
    ensures response.Failure? ==> o == Panic(response.error, [])
    ensures response.Success? ==> o == Step(st, Evaluate(am.rules, response.value), choice, render, reply)
  {
    var triggeredAlerts := CheckEndpoint(am, response);
    if triggeredAlerts.Failure? {
      return Panic(triggeredAlerts.error, []);
    }
    o := Step(st, triggeredAlerts.value, choice, render, reply);
  }

  /** The loop's invariant: a live message exists exactly when the saved
      alert list is non-empty. */
  predicate Consistent(st: PollState) {
    |st.savedAlerts| == 0 <==> st.telegram.lastMessageId.None?
  }

  lemma InitialStateConsistent(chatId: int)
    ensures Consistent(InitialState(chatId))
  {
  }

  /** Every completed tick keeps the invariant. */
  lemma StepKeepsConsistent(st: PollState, triggeredAlerts: seq<TriggeredAlert>, choice: nat, render: Render, reply: Reply)
    requires choice < |ResolvedAlerts| && choice < |CurrentAlerts|
    requires Consistent(st)
    ensures var o := Step(st, triggeredAlerts, choice, render, reply);
      o.Continue? ==> Consistent(o.state)
  {
    DiffEmptyIff(st.savedAlerts, triggeredAlerts);
    if |KeyDiff(st.savedAlerts, triggeredAlerts)| == 0 && |st.savedAlerts| > 0 {
      assert HasKey(triggeredAlerts, st.savedAlerts[0].key);
    }
    if |KeyDiff(st.savedAlerts, triggeredAlerts)| == 0 && |triggeredAlerts| > 0 {
      assert HasKey(st.savedAlerts, triggeredAlerts[0].key);
    }
  }

  /** Idle (nothing saved, no live message) and no alerts: no transport call, and the loop
      stays idle. */
  lemma IdleStaysQuiet(st: PollState, choice: nat, render: Render, reply: Reply)
    requires choice < |ResolvedAlerts| && choice < |CurrentAlerts|
    requires st.savedAlerts == [] && st.telegram.lastMessageId.None?
    ensures var o := Step(st, [], choice, render, reply);
      o.Continue? && o.calls == [] && o.state.telegram.lastMessageId.None?
  {
  }

  /** Idle and a first non-empty alert list: it is sent as a new message,
      whose id becomes the live id. */
  lemma IdleSendsFirstAlert(st: PollState, triggeredAlerts: seq<TriggeredAlert>, choice: nat, render: Render, reply: Reply)
    requires choice < |ResolvedAlerts| && choice < |CurrentAlerts|
    requires st.savedAlerts == [] && st.telegram.lastMessageId.None?
    requires |triggeredAlerts| > 0
    ensures var o := Step(st, triggeredAlerts, choice, render, reply);
      && o.calls == [SendMessage(st.telegram.chatId,
                       AlertText(CurrentAlerts[choice], Descriptions(triggeredAlerts, render)))]
      && (reply.Success? ==> o.Continue? && o.state.telegram.lastMessageId == Some(reply.value))
  {
    DiffFromNothing(triggeredAlerts);
    var w := WriteMessage(st.telegram, triggeredAlerts, choice, render, reply);
    assert w.calls[0] == SendMessage(st.telegram.chatId,
      AlertText(CurrentAlerts[choice], Descriptions(triggeredAlerts, render)));
    assert Step(st, triggeredAlerts, choice, render, reply).calls == w.calls;
  }

  /** Against an empty saved list the difference is the key of every
      current alert, in order. */
  lemma {:induction false} DiffFromNothing(triggeredAlerts: seq<TriggeredAlert>)
    ensures |KeyDiff([], triggeredAlerts)| == |triggeredAlerts|
    ensures KeyDiff([], triggeredAlerts)
      == seq(|triggeredAlerts|, i requires 0 <= i < |triggeredAlerts| => triggeredAlerts[i].key)
    decreases |triggeredAlerts|
  {
    if |triggeredAlerts| > 0 {
      var init := triggeredAlerts[..|triggeredAlerts| - 1];
      var last := triggeredAlerts[|triggeredAlerts| - 1];
      DiffFromNothing(init);
      assert MissingKeys([], triggeredAlerts) == [];
      assert MissingKeys([], init) == [];
      assert !HasKey([], last.key);
      assert MissingKeys(triggeredAlerts, []) == MissingKeys(init, []) + [last.key];
      assert seq(|triggeredAlerts|, i requires 0 <= i < |triggeredAlerts| => triggeredAlerts[i].key)
        == seq(|init|, i requires 0 <= i < |init| => init[i].key) + [last.key];
    }
  }

  /** Active (a live message `id`): a changed non-empty list edits `id` and
      the returned id becomes the live one, an unchanged one costs no call,
      and an empty list is announced by a new all-clear message after which
      no message is live. */
  lemma ActiveTransitions(st: PollState, triggeredAlerts: seq<TriggeredAlert>, choice: nat, render: Render, reply: Reply)
    requires choice < |ResolvedAlerts| && choice < |CurrentAlerts|
    requires Consistent(st) && st.telegram.lastMessageId.Some?
    ensures var o := Step(st, triggeredAlerts, choice, render, reply);
      |triggeredAlerts| > 0 && |KeyDiff(st.savedAlerts, triggeredAlerts)| > 0 ==>
        && o.calls == [EditMessageText(st.telegram.chatId, st.telegram.lastMessageId.value,
                         AlertText(CurrentAlerts[choice], Descriptions(triggeredAlerts, render)))]
        && (o.Continue? ==> reply.Success? && o.state.telegram.lastMessageId == Some(reply.value))
    ensures var o := Step(st, triggeredAlerts, choice, render, reply);
      |triggeredAlerts| > 0 && |KeyDiff(st.savedAlerts, triggeredAlerts)| == 0 ==>
        o.Continue? && o.calls == [] && o.state.telegram == st.telegram
    ensures var o := Step(st, triggeredAlerts, choice, render, reply);
      |triggeredAlerts| == 0 ==>
        && |o.calls| == 1 && o.calls[0].SendMessage? && o.calls[0].text in ResolvedAlerts
        && (o.Continue? ==> o.state.telegram.lastMessageId.None?)
  {
    DiffEmptyIff(st.savedAlerts, triggeredAlerts);
    if |triggeredAlerts| == 0 {
      assert !HasKey(triggeredAlerts, st.savedAlerts[0].key);
    }
  }
}
