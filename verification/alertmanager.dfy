/** The rule registry and the evaluator of package `alertmanager`: rules are
    kept in registration order and applied to one scrape of the metrics
    endpoint, yielding the triggered alerts with their identity keys.

    The HTTP fetch and the Prometheus text parser are outside the model: a
    scrape arrives as a `Snapshot`, or as the error the fetch returned. */
module Alertmanager {
  import opened Wrappers
  import Text
  import Seqs

  /** One name/value pair of a sample's label list. */
  datatype Label = Label(name: string, value: string)

  /** One metric of a family: its gauge value and its labels, in the order the
      endpoint listed them. */
  datatype Sample = Sample(value: real, labels: seq<Label>)

  /** A parsed scrape: metric family name to that family's samples. */
  type Snapshot = map<string, seq<Sample>>

  /** A registered rule. `evaluate` is the Go closure deciding whether one
      sample of family `metric` should alert. */
  datatype AlertRule = AlertRule(
    uuid: string,
    title: string,
    description: string,
    metric: string,
    evaluate: Sample -> bool)

  /** A rule together with the sample that triggered it, and its key. */
  datatype TriggeredAlert = TriggeredAlert(key: string, rule: AlertRule, sample: Sample)

  datatype AlertManager = AlertManager(rules: seq<AlertRule>)

  /** Separator between the parts of an alert key. */
  const KeySeparator := "_"

  // ---------------------------------------------------------------------------
  // Alert identity

  /** The label names and values, flattened in label order: the parts that
      the key loop appends after the metric name. */
  function LabelParts(labels: seq<Label>): (parts: seq<string>)
    ensures |parts| == 2 * |labels|
    decreases |labels|
  {
    if |labels| == 0 then []
    else
      var last := labels[|labels| - 1];
      LabelParts(labels[..|labels| - 1]) + [last.name, last.value]
  }

  /** Reference definition of the identity key: the metric name, then
      `_name_value` for each label in order. */
  function AlertKey(metric: string, labels: seq<Label>): string
    decreases |labels|
  {
    if |labels| == 0 then metric
    else
      var last := labels[|labels| - 1];
      AlertKey(metric, labels[..|labels| - 1]) + KeySeparator + last.name + KeySeparator + last.value
  }

  lemma {:induction false} JoinKeyParts(metric: string, labels: seq<Label>)
    ensures Text.Join([metric] + LabelParts(labels), KeySeparator) == AlertKey(metric, labels)
    decreases |labels|
  {
    if |labels| > 0 {
      var init := labels[..|labels| - 1];
      var last := labels[|labels| - 1];
      JoinKeyParts(metric, init);
      assert [metric] + LabelParts(labels) == ([metric] + LabelParts(init)) + [last.name, last.value];
      Text.JoinConcat([metric] + LabelParts(init), [last.name, last.value], KeySeparator);
      assert [last.name, last.value][1..] == [last.value];
    }
  }

  /** Builds the alert for `rule` firing on `sample`. The key depends on
      nothing but the rule's metric name and the sample's label list. */
  function NewTriggeredAlert(rule: AlertRule, sample: Sample): (alert: TriggeredAlert)
    ensures alert.key == AlertKey(rule.metric, sample.labels)
    ensures |sample.labels| == 0 ==> alert.key == rule.metric
    ensures |alert.key| >= |rule.metric| && alert.key[..|rule.metric|] == rule.metric
    ensures alert.rule == rule && alert.sample == sample
  {
    JoinKeyParts(rule.metric, sample.labels);
    AlertKeyStartsWithMetric(rule.metric, sample.labels);
    TriggeredAlert(Text.Join([rule.metric] + LabelParts(sample.labels), KeySeparator), rule, sample)
  }

  lemma {:induction false} AlertKeyStartsWithMetric(metric: string, labels: seq<Label>)
    ensures |AlertKey(metric, labels)| >= |metric|
    ensures AlertKey(metric, labels)[..|metric|] == metric
    decreases |labels|
  {
    if |labels| > 0 {
      AlertKeyStartsWithMetric(metric, labels[..|labels| - 1]);
    }
  }

  /** Keys are not injective: a separator inside a label name makes two
      different label lists produce the same key. */
  lemma KeyCollision()
    ensures [Label("a_b", "c")] != [Label("a", "b_c")]
    ensures AlertKey("m", [Label("a_b", "c")]) == AlertKey("m", [Label("a", "b_c")])
  {
    assert [Label("a_b", "c")][0] != [Label("a", "b_c")][0];
  }

  /** Keys depend on label order: the same labels listed the other way round
      give a different key. */
  lemma KeyDependsOnLabelOrder()
    ensures AlertKey("m", [Label("a", "1"), Label("b", "2")]) != AlertKey("m", [Label("b", "2"), Label("a", "1")])
  {
    var k1 := AlertKey("m", [Label("a", "1"), Label("b", "2")]);
    var k2 := AlertKey("m", [Label("b", "2"), Label("a", "1")]);
    assert [Label("a", "1"), Label("b", "2")][..1] == [Label("a", "1")];
    assert [Label("b", "2"), Label("a", "1")][..1] == [Label("b", "2")];
    assert [Label("a", "1")][..0] == [];
    assert [Label("b", "2")][..0] == [];
    assert AlertKey("m", [Label("a", "1")]) == "m_a_1";
    assert AlertKey("m", [Label("b", "2")]) == "m_b_2";
    assert k1 == "m_a_1_b_2";
    assert k2 == "m_b_2_a_1";
    assert k1[2] != k2[2];
  }

  // ---------------------------------------------------------------------------
  // Rule registry

  function NewAlertManager(): (am: AlertManager)
    ensures |am.rules| == 0
  {
    AlertManager([])
  }

  /** Registers a rule at the end of the list; `uuid` stands for the freshly
      generated identifier. */
  function AddRule(am: AlertManager, uuid: string, title: string, description: string,
                   metric: string, evaluate: Sample -> bool): (am': AlertManager)
    ensures |am'.rules| == |am.rules| + 1
    ensures am'.rules[..|am.rules|] == am.rules
    ensures am'.rules[|am.rules|] == AlertRule(uuid, title, description, metric, evaluate)
  {
    AlertManager(am.rules + [AlertRule(uuid, title, description, metric, evaluate)])
  }

  // ---------------------------------------------------------------------------
  // Evaluation

  /** The samples of family `metric`; a family missing from the scrape is a
      nil family, whose metric list is empty. */
  function FamilySamples(snapshot: Snapshot, metric: string): (samples: seq<Sample>)
    ensures metric !in snapshot ==> samples == []
    ensures metric in snapshot ==> samples == snapshot[metric]
  {
    if metric in snapshot then snapshot[metric] else []
  }

  /** The alerts one rule produces over its family's samples, in sample order. */
  function RuleAlerts(rule: AlertRule, samples: seq<Sample>): seq<TriggeredAlert>
    decreases |samples|
  {
    if |samples| == 0 then []
    else
      var last := samples[|samples| - 1];
      RuleAlerts(rule, samples[..|samples| - 1])
        + (if rule.evaluate(last) then [NewTriggeredAlert(rule, last)] else [])
  }

  /** The alerts of all rules over one scrape: each rule's alerts, rule after
      rule in registration order. */
  function Evaluate(rules: seq<AlertRule>, snapshot: Snapshot): seq<TriggeredAlert>
    decreases |rules|
  {
    if |rules| == 0 then []
    else
      var last := rules[|rules| - 1];
      Evaluate(rules[..|rules| - 1], snapshot) + RuleAlerts(last, FamilySamples(snapshot, last.metric))
  }

  /** The number of samples in the families the rules target, counted once
      per rule. */
  function TargetedSamples(rules: seq<AlertRule>, snapshot: Snapshot): nat
    decreases |rules|
  {
    if |rules| == 0 then 0
    else
      var last := rules[|rules| - 1];
      TargetedSamples(rules[..|rules| - 1], snapshot) + |FamilySamples(snapshot, last.metric)|
  }

  /** A rule yields exactly one alert per sample its predicate accepts, in
      sample order, and nothing else. */
  lemma {:induction false} RuleAlertsExact(rule: AlertRule, samples: seq<Sample>)
    ensures var idx := Seqs.FilterIndices(samples, rule.evaluate);
      && |RuleAlerts(rule, samples)| == |idx|
      && forall k :: 0 <= k < |idx| ==> RuleAlerts(rule, samples)[k] == NewTriggeredAlert(rule, samples[idx[k]])
    decreases |samples|
  {
    if |samples| > 0 {
      var init := samples[..|samples| - 1];
      RuleAlertsExact(rule, init);
      var idx := Seqs.FilterIndices(samples, rule.evaluate);
      var idx0 := Seqs.FilterIndices(init, rule.evaluate);
      forall k | 0 <= k < |idx0|
        ensures init[idx0[k]] == samples[idx0[k]]
      {
      }
    }
  }

  /** Evaluating a concatenation of rule lists concatenates the results: the
      output is grouped by rule in registration order. */
  lemma {:induction false} EvaluateConcat(first: seq<AlertRule>, second: seq<AlertRule>, snapshot: Snapshot)
    ensures Evaluate(first + second, snapshot) == Evaluate(first, snapshot) + Evaluate(second, snapshot)
    decreases |second|
  {
    if |second| == 0 {
      assert first + second == first;
    } else {
      var init := second[..|second| - 1];
      assert (first + second)[..|first + second| - 1] == first + init;
      EvaluateConcat(first, init, snapshot);
    }
  }

  /** After `AddRule`, evaluation yields the earlier rules' alerts followed by
      the new rule's. */
  lemma EvaluateAfterAddRule(am: AlertManager, uuid: string, title: string, description: string,
                             metric: string, evaluate: Sample -> bool, snapshot: Snapshot)
    ensures var rule := AlertRule(uuid, title, description, metric, evaluate);
      Evaluate(AddRule(am, uuid, title, description, metric, evaluate).rules, snapshot)
        == Evaluate(am.rules, snapshot) + RuleAlerts(rule, FamilySamples(snapshot, metric))
  {
    var am' := AddRule(am, uuid, title, description, metric, evaluate);
    assert am'.rules[..|am'.rules| - 1] == am.rules;
  }

  /** A rule whose family is absent from the scrape adds no alerts. */
  lemma AbsentFamilyAddsNothing(rules: seq<AlertRule>, rule: AlertRule, snapshot: Snapshot)
    requires rule.metric !in snapshot
    ensures Evaluate(rules + [rule], snapshot) == Evaluate(rules, snapshot)
  {
    assert (rules + [rule])[..|rules|] == rules;
  }

  /** Every emitted alert comes from a registered rule whose predicate holds on
      a sample of that rule's family, and carries that sample's key. */
  lemma {:induction false} EvaluateSound(rules: seq<AlertRule>, snapshot: Snapshot)
    ensures forall k :: 0 <= k < |Evaluate(rules, snapshot)| ==>
      var alert := Evaluate(rules, snapshot)[k];
      && alert.rule.evaluate(alert.sample)
      && alert.sample in FamilySamples(snapshot, alert.rule.metric)
      && alert.key == AlertKey(alert.rule.metric, alert.sample.labels)
      && exists i :: 0 <= i < |rules| && rules[i] == alert.rule
    decreases |rules|
  {
    if |rules| > 0 {
      var init := rules[..|rules| - 1];
      var last := rules[|rules| - 1];
      var samples := FamilySamples(snapshot, last.metric);
      EvaluateSound(init, snapshot);
      RuleAlertsExact(last, samples);
      var out := Evaluate(rules, snapshot);
      var front := Evaluate(init, snapshot);
      forall k | 0 <= k < |out|
        ensures
          && out[k].rule.evaluate(out[k].sample)
          && out[k].sample in FamilySamples(snapshot, out[k].rule.metric)
          && out[k].key == AlertKey(out[k].rule.metric, out[k].sample.labels)
          && exists i :: 0 <= i < |rules| && rules[i] == out[k].rule
      {
        if k < |front| {
          assert out[k] == front[k];
          var i :| 0 <= i < |init| && init[i] == out[k].rule;
          assert rules[i] == init[i];
        } else {
          assert rules[|rules| - 1] == out[k].rule;
        }
      }
    }
  }

  /** At most one alert per targeted sample. */
  lemma {:induction false} EvaluateLength(rules: seq<AlertRule>, snapshot: Snapshot)
    ensures |Evaluate(rules, snapshot)| <= TargetedSamples(rules, snapshot)
    decreases |rules|
  {
    if |rules| > 0 {
      var last := rules[|rules| - 1];
      EvaluateLength(rules[..|rules| - 1], snapshot);
      RuleAlertsExact(last, FamilySamples(snapshot, last.metric));
    }
  }

  /** One scrape of the endpoint: a failed fetch is returned as the error,
      otherwise every rule is applied, in order, to every sample of its
      family. */
  method CheckEndpoint(am: AlertManager, response: Result<Snapshot, string>)
    returns (result: Result<seq<TriggeredAlert>, string>)
    ensures response.Failure? ==> result == Failure(response.error)
    ensures response.Success? ==> result == Success(Evaluate(am.rules, response.value))
  {
    if response.Failure? {
      return Failure(response.error);
    }
    var metricsFamily := response.value;
    var triggeredAlerts: seq<TriggeredAlert> := [];
    var i := 0;
    while i < |am.rules|
      invariant 0 <= i <= |am.rules|
      invariant triggeredAlerts == Evaluate(am.rules[..i], metricsFamily)
    {
      var rule := am.rules[i];
      var metrics := FamilySamples(metricsFamily, rule.metric);
      var j := 0;
      while j < |metrics|
        invariant 0 <= j <= |metrics|
        invariant triggeredAlerts == Evaluate(am.rules[..i], metricsFamily) + RuleAlerts(rule, metrics[..j])
      {
        var metric := metrics[j];
        var shouldAlert := rule.evaluate(metric);
        if shouldAlert {
          triggeredAlerts := triggeredAlerts + [NewTriggeredAlert(rule, metric)];
        }
        assert metrics[..j + 1][..j] == metrics[..j];
        j := j + 1;
      }
      assert metrics[..j] == metrics;
      assert am.rules[..i + 1][..i] == am.rules[..i];
      i := i + 1;
    }
    assert am.rules[..i] == am.rules;
    return Success(triggeredAlerts);
  }
}
