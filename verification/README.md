# home-alerter, modelled in Dafny

home-alerter scrapes a Prometheus metrics endpoint once a minute and applies
a fixed set of threshold rules to the samples. Those rules cover heating
power, humidity and temperature reported by a tado exporter. Each triggered
condition is an alert identified by a key. The program keeps one live
Telegram message up to date with the current alerts: it sends the message
when alerts first appear, edits it while the set of keys changes, and sends
a fresh all-clear once nothing is triggered any more. A second, independent
part schedules daily reminders. It picks the reminder whose next daily time
comes first, and the ventilation reminder is one of them.

The model covers four parts. Each is one Dafny module, named after its Go
package:

- `Alertmanager` (`alertmanager/alertmanager.go`): alert keys, the rule
  registry, and evaluation of the rules over one parsed scrape.
- `HomeAlerter` (`main.go`): the key-based list difference, the three
  registered rules, and one tick of the poll loop as a step function.
- `Telegram` (`telegram/telegram.go`): message assembly, the
  create/edit/all-clear choice driven by the optional live message id, and
  the ventilation reminder text.
- `Reminder` (`reminder/reminder.go`): the next execution of a reminder and
  the selection of the reminder due first, over seconds of the day.

Three helper modules support them:

- `Wrappers`: `Option` and `Result`.
- `Text`: `Join`, which is `strings.Join`.
- `Seqs`: `FilterIndices`, an order-preserving filter used as the reference
  for "exactly the elements satisfying a predicate, in order".

The outside world enters as parameters:

- A scrape is a `Result<Snapshot, string>`, where a snapshot maps family
  names to sample lists.
- The Telegram transport is the call the notifier makes and the `Reply` it
  gets back.
- `rand.Intn` is an index chosen by the caller.
- `text/template` is an uninterpreted `render` function.
- `time.Now` is a second of the day.

Four behaviours of the code worth stating up front:

- A parse error of the scrape is ignored (`alertmanager/alertmanager.go:74`);
  evaluation runs over whatever families were parsed.
- A description placeholder is filled by `text/template`, modelled as the
  uninterpreted `render`; whatever it yields for a label the sample lacks
  is what the message shows.
- Keys follow the sample's label order.
  `Alertmanager.KeyDependsOnLabelOrder` shows two orders giving two keys.
- `main.go` calls `NewAlertManager(envEndpoint)` and `CheckEndpoint()`,
  while `alertmanager/alertmanager.go` declares `NewAlertManager()` and
  `CheckEndpoint(url)`. The model follows `alertmanager/alertmanager.go`,
  with the fetched scrape passed in.

## Model

| member | source | states |
|---|---|---|
| Alertmanager.NewTriggeredAlert | alertmanager/alertmanager.go:17-33 | the key is the metric name followed by `_name_value` for each label in label order (`AlertKey`); no labels give the bare metric name; the key starts with the metric name; the alert carries exactly the rule and sample it was built from |
| Alertmanager.JoinKeyParts | alertmanager/alertmanager.go:18-24 | joining the metric name and the flattened label names and values with `_` yields the reference key `AlertKey` |
| Alertmanager.AlertKeyStartsWithMetric | alertmanager/alertmanager.go:18-24 | every key has the rule's metric name as a prefix |
| Alertmanager.KeyCollision | alertmanager/alertmanager.go:20-24 | keys are not injective: labels `a_b=c` and `a=b_c` give the same key |
| Alertmanager.KeyDependsOnLabelOrder | alertmanager/alertmanager.go:20-24 | labels `a=1, b=2` in the other order give a different key |
| Alertmanager.NewAlertManager | alertmanager/alertmanager.go:47-50 | a new manager has no rules |
| Alertmanager.AddRule | alertmanager/alertmanager.go:52-62 | exactly one rule with the given fields is appended; the earlier rules are unchanged and keep their order |
| Alertmanager.FamilySamples | alertmanager/alertmanager.go:79-80 | a family absent from the scrape has no samples; a present one has its listed samples |
| Alertmanager.RuleAlertsExact | alertmanager/alertmanager.go:82-89 | a rule yields exactly one alert per sample its predicate accepts, in sample order, and nothing else |
| Alertmanager.EvaluateConcat | alertmanager/alertmanager.go:78-90 | evaluating two rule lists one after the other gives the first list's alerts followed by the second's, so output is grouped by rule in registration order |
| Alertmanager.EvaluateAfterAddRule | alertmanager/alertmanager.go:78-90 | after registering a rule, evaluation yields the old alerts followed by the new rule's alerts over its family |
| Alertmanager.AbsentFamilyAddsNothing | alertmanager/alertmanager.go:79-80 | a rule whose family is missing from the scrape adds no alerts and no error |
| Alertmanager.EvaluateSound | alertmanager/alertmanager.go:78-90 | every alert's predicate holds on its sample, the sample belongs to the rule's family, the key is that sample's key, and the rule is a registered one |
| Alertmanager.EvaluateLength | alertmanager/alertmanager.go:78-89 | there are at most as many alerts as samples in the targeted families, each family's samples counted once per rule that targets it |
| Alertmanager.CheckEndpoint | alertmanager/alertmanager.go:64-93 | a failed fetch returns its error; otherwise the nested loop returns exactly the rule-by-rule, sample-by-sample evaluation `Evaluate` |
| HomeAlerter.DiffAlertLists | main.go:17-43 | the two-pass loop with the swap returns the keys of `a` missing from `b`, in `a`'s order, followed by the keys of `b` missing from `a`, in `b`'s order |
| HomeAlerter.MissingKeysEmpty | main.go:23-35 | a pass reports nothing exactly when every key of its first list occurs in the second |
| HomeAlerter.DiffEmptyIff | main.go:17-43 | the difference is empty exactly when every key of each list occurs in the other |
| HomeAlerter.DiffSelfEmpty | main.go:17-43 | a list never differs from itself |
| HomeAlerter.DiffDependsOnKeysOnly | main.go:17-43 | replacing the lists by lists with the same keys, reordered, repeated or with other payloads, never changes whether the difference is empty |
| HomeAlerter.MissingKeysExact | main.go:22-35 | a pass reports the key of each alert whose key the other list lacks, once per such alert, in list order, and nothing else |
| HomeAlerter.DiffElements | main.go:23-35 | every reported key belongs to an alert of one list and to none of the other; the result is at most `\|a\| + \|b\|` long |
| HomeAlerter.MissingKeysCount | main.go:31-34 | duplicates are kept: a missing key is reported as often as it occurs in the list, a present one never |
| HomeAlerter.DiffFromNothing | main.go:17-43 | against an empty saved list the difference is exactly the key of every current alert, in the current list's order |
| HomeAlerter.HasForeignUnit | main.go:132-138 | the scan is true exactly when some label named `unit` has a value other than `celsius` |
| HomeAlerter.TemperatureTooLow | main.go:130-146 | the temperature rule fires exactly when no `unit` label names another unit than `celsius` and the value is below 16 |
| HomeAlerter.RegisterRules | main.go:106-147 | three rules are appended in order, with the exact titles, descriptions, family names and predicates of `main` |
| HomeAlerter.RegisteredThresholds | main.go:106-147 | the registered heating rule fires exactly above 60, the humidity rule exactly above 75, and the temperature rule exactly below 16 in Celsius |
| HomeAlerter.TemperatureExample | main.go:126-146 | a kitchen reading of 15.2 in Celsius triggers the temperature rule with key `tado_sensor_temperature_value_zone_Kueche_unit_celsius`, a reading of 16.5 does not |
| HomeAlerter.KitchenKey | alertmanager/alertmanager.go:18-24 | the kitchen sample's key is `tado_sensor_temperature_value_zone_Kueche_unit_celsius` |
| HomeAlerter.InitialState | main.go:151 | the loop starts with no saved alerts and no live message |
| HomeAlerter.InitialStateConsistent | main.go:151 | the start state satisfies the lifecycle invariant |
| HomeAlerter.Step | main.go:165-177 | a tick makes a transport call exactly when the key difference is non-empty, and that call is `WriteMessage`'s; it panics exactly when that write fails, with the write's error; otherwise the current alerts become the saved ones, the notifier after a write is the one `WriteMessage` leaves, and an unchanged key set leaves the notifier untouched |
| HomeAlerter.PollCycle | main.go:155-177 | a failed scrape panics with its error and makes no call; otherwise the tick is `Step` applied to the evaluated alerts |
| HomeAlerter.StepKeepsConsistent | main.go:165-177 | every completed tick keeps the invariant "a live message exists exactly when the saved list is non-empty" |
| HomeAlerter.IdleStaysQuiet | main.go:165-177 | with nothing saved and no live message, an empty alert list makes no call and stays idle |
| HomeAlerter.IdleSendsFirstAlert | main.go:165-177 | with nothing saved, a non-empty list is sent as a new message whose returned id becomes the live id |
| HomeAlerter.ActiveTransitions | main.go:165-177 | with a live message, a changed non-empty list edits that message and a successful edit makes the returned id the live one, an unchanged one makes no call and keeps the notifier, and an empty list sends one all-clear message and clears the live id |
| Telegram.New | telegram/telegram.go:58 | a new notifier writes to the given chat and has no live message |
| Telegram.GetRandomMessage | telegram/telegram.go:45-49 | the chosen message is an element of the non-empty pool |
| Telegram.TemplateDataLastWins | telegram/telegram.go:136-140 | the template data maps exactly the label names, each to the value of the last label with that name |
| Telegram.Descriptions | telegram/telegram.go:130-154 | one rendered line per alert, in alert order, each the alert's description rendered with its sample's template data |
| Telegram.AlertText | telegram/telegram.go:127-157 | the message is the preamble, a blank line, the descriptions one per line, a blank line and `Schau mal besser nach...` |
| Telegram.SingleAlertText | telegram/telegram.go:127-157 | a one-alert message holds its description between the two blank lines |
| Telegram.WriteMessage | telegram/telegram.go:117-172 | exactly one transport call and the transport's error is returned; no alerts: a new all-clear message from the resolved pool, and the live id is cleared even on error; alerts: the live message is edited, or a new one is sent when there is none, and the returned id (0 on error) becomes the live id |
| Telegram.WriteReminderForVentilation | telegram/telegram.go:97-115 | `no` draws from the do-not-ventilate pool, `maybe` from the maybe pool, anything else from the ventilate pool; the text is the heading, a blank line and the message; the live id is untouched |
| Reminder.Occurrence | reminder/reminder.go:27-28 | today's occurrence of a daily time is the start of its minute, at seconds 0 |
| Reminder.Candidates | reminder/reminder.go:22-30 | there are exactly two candidates per daily time (their values are stated by `Reminder.CandidatesAt`) |
| Reminder.CandidatesAt | reminder/reminder.go:24-30 | candidate `2i` is today's occurrence of daily time `i` at seconds 0, and candidate `2i + 1` is tomorrow's, one day later |
| Reminder.SecondsIgnored | reminder/reminder.go:24-30 | daily times that agree up to their seconds give the same candidates and the same next wait |
| Reminder.EarliestFromCorrect | reminder/reminder.go:32-42 | the scan finds nothing exactly when every candidate is before now, and otherwise the distance to a non-skipped candidate that no other non-skipped candidate beats |
| Reminder.NextWaitFacts | reminder/reminder.go:20-45 | the next wait is absent exactly without daily times, lies below one day otherwise, and is the only earliest wait |
| Reminder.GetNextExecution | reminder/reminder.go:20-45 | the loop skips past candidates and keeps the least distance; nil exactly without daily times, otherwise an earliest wait below one day |
| Reminder.DueNowWaitsZero | reminder/reminder.go:34-38 | a daily time occurring exactly now gives a wait of 0 |
| Reminder.WithinOneDay | reminder/reminder.go:24-44 | with a daily time the earliest wait is non-negative and below one day, because tomorrow's candidate always qualifies |
| Reminder.SelectEarliest | reminder/reminder.go:57-69 | over the reminders' waits: the nil dereference happens exactly when an absent wait follows a present one; an empty list yields nothing; all absent yields the last reminder; otherwise the kept wait is the least and every later reminder waits strictly longer, so ties go to the later one |
| Reminder.GetNextEvent | reminder/reminder.go:56-70 | fails exactly when a reminder without times follows one with times; an empty manager yields no wait and no reminder; otherwise it yields the reminder with the least next wait, ties to the later one |

## Left out

- The HTTP fetch and the Prometheus text parser of `CheckEndpoint`
  (`alertmanager/alertmanager.go:66-74`) are I/O and a foreign library; a
  scrape arrives already parsed or as the fetch error. The dropped parse
  error at line 74 cannot arise in the model.
- Gauge values are exact reals: float64 rounding, NaN and a sample without
  a gauge value (a nil dereference in the predicates) are not modelled.
- `uuid.NewUUID` is replaced by an identifier passed to `AddRule`.
- `rand.Intn` is replaced by an index argument, and `text/template` by the
  uninterpreted `render`; parse and execution failures of a template,
  which panic in the Go code, are therefore not modelled.
- The Telegram bot client, Markdown parse mode, `telegram.New`'s bot
  construction and `StartCommandWatch` (`telegram/telegram.go:62-95`) are
  transport and command handling outside the alert lifecycle.
- `ventilation/ventilation.go` is not part of this model: its
  recommendation reaches `WriteReminderForVentilation` as a string, and only
  its constants `no` and `maybe` are used.
- Environment configuration, the goroutines, the ticker and the
  timer/context loop of `ReminderManager.Start` (`reminder/reminder.go:72-88`)
  are concurrency and timing; one tick of the poll loop is modelled. The
  tick's `fmt.Printf` progress lines (`main.go:156,163,169`) are console
  output and are not modelled.
- Time zones, daylight saving, dates and sub-second time are left out;
  times are seconds of a fixed 86400-second day.
- Reminder.GetNextEvent: one `now` serves every reminder, while the Go code
  reads the clock anew in each `GetNextExecution` call.
- Reminder.GetNextEvent: the nil dereference is returned as a failure
  rather than excluded by a precondition, and the pointer to the chosen
  reminder is its index in the list.
- Telegram.WriteMessage: the id stored after a failed send is the zero id
  of the empty message Go returns with the error; the caller panics right
  after, so it is never used.
