/** The daily-reminder scheduler of package `reminder`: how long to wait
    until a reminder's next daily time, and which reminder of a manager is
    due first.

    Time is reduced to one day of seconds: every daily time and the current
    moment are seconds since midnight, and tomorrow's occurrence of a time is
    one day (86400 seconds) after today's. */
module Reminder {
  import opened Wrappers

  const SecondsPerDay := 86400

  /** A clock reading within one day, in seconds since midnight. */
  type SecondOfDay = s: int | 0 <= s < SecondsPerDay

  /** The configured times are kept whole; only their hour and minute matter.
      The execution callback and the time zone are not modelled. */
  datatype Reminder = Reminder(dailyTimes: seq<SecondOfDay>)

  datatype ReminderManager = ReminderManager(reminders: seq<Reminder>)

  function Hour(t: SecondOfDay): int { t / 3600 }

  function Minute(t: SecondOfDay): int { t % 3600 / 60 }

  /** Today's occurrence of a daily time: its hour and minute, seconds 0. */
  function Occurrence(t: SecondOfDay): (start: int)
    ensures 0 <= start && start % 60 == 0
    ensures start <= t < start + 60
  {
    Hour(t) * 3600 + Minute(t) * 60
  }

  /** The candidate executions in the order `GetNextExecution` lists them: today's
      and then tomorrow's occurrence of each daily time. */
  function Candidates(times: seq<SecondOfDay>): (candidates: seq<int>)
    ensures |candidates| == 2 * |times|
  {
    seq(2 * |times|, k requires 0 <= k < 2 * |times| => Occurrence(times[k / 2]) + (k % 2) * SecondsPerDay)
  }

  /** Candidate `2i` is today's occurrence of daily time `i`, and candidate
      `2i + 1` is the same time one day later. */
  lemma CandidatesAt(times: seq<SecondOfDay>, i: int)
    requires 0 <= i < |times|
    ensures Candidates(times)[2 * i] == Occurrence(times[i])
    ensures Candidates(times)[2 * i + 1] == Occurrence(times[i]) + SecondsPerDay
  {
    assert (2 * i) / 2 == i && (2 * i) % 2 == 0;
    assert (2 * i + 1) / 2 == i && (2 * i + 1) % 2 == 1;
  }

  /** `wait` is the distance from `now` to some candidate that is not
      before `now`, and to no such candidate is the distance smaller. */
  ghost predicate IsEarliestWait(candidates: seq<int>, now: int, wait: int) {
    && (exists k :: 0 <= k < |candidates| && now <= candidates[k] && wait == candidates[k] - now)
    && (forall k :: 0 <= k < |candidates| && now <= candidates[k] ==> wait <= candidates[k] - now)
  }

  /** The earliest wait is unique. */
  lemma EarliestWaitUnique(candidates: seq<int>, now: int, w1: int, w2: int)
    requires IsEarliestWait(candidates, now, w1) && IsEarliestWait(candidates, now, w2)
    ensures w1 == w2
  {
    var k1 :| 0 <= k1 < |candidates| && now <= candidates[k1] && w1 == candidates[k1] - now;
    var k2 :| 0 <= k2 < |candidates| && now <= candidates[k2] && w2 == candidates[k2] - now;
  }

  /** `wait` is the time until reminder `r` next fires. */
  ghost predicate IsNextWait(r: Reminder, now: int, wait: int) {
    IsEarliestWait(Candidates(r.dailyTimes), now, wait)
  }

  /** The earliest distance from `now` to a candidate that is not before
      `now`, scanning left to right as `GetNextExecution` does. */
  function EarliestFrom(candidates: seq<int>, now: int): (wait: Option<int>)
    decreases |candidates|
  {
    if |candidates| == 0 then None
    else
      var rest := EarliestFrom(candidates[..|candidates| - 1], now);
      var possibleExecution := candidates[|candidates| - 1];
      if possibleExecution < now then rest
      else if rest.None? || possibleExecution - now <= rest.value then Some(possibleExecution - now)
      else rest
  }

  /** The scan finds nothing exactly when every candidate is past, and
      otherwise finds the earliest wait. */
  lemma {:induction false} EarliestFromCorrect(candidates: seq<int>, now: int)
    ensures EarliestFrom(candidates, now).None? <==> forall k :: 0 <= k < |candidates| ==> candidates[k] < now
    ensures EarliestFrom(candidates, now).Some? ==> IsEarliestWait(candidates, now, EarliestFrom(candidates, now).value)
    decreases |candidates|
  {
    if |candidates| > 0 {
      var n := |candidates|;
      var init := candidates[..n - 1];
      EarliestFromCorrect(init, now);
      assert forall k :: 0 <= k < n - 1 ==> candidates[k] == init[k];
      var wait := EarliestFrom(candidates, now);
      if wait.Some? && candidates[n - 1] >= now && wait.value == candidates[n - 1] - now {
        assert IsEarliestWait(candidates, now, wait.value);
      }
    }
  }

  /** The time until reminder `r` next fires, as `GetNextExecution`
      computes it. */
  function NextWait(r: Reminder, now: int): Option<int> {
    EarliestFrom(Candidates(r.dailyTimes), now)
  }

  /** The next wait is absent exactly when there are no daily times;
      otherwise it is under a day, because tomorrow's occurrence is never
      before `now`, and it is the one earliest wait there is. */
  lemma NextWaitFacts(r: Reminder, now: SecondOfDay)
    ensures NextWait(r, now).None? <==> |r.dailyTimes| == 0
    ensures NextWait(r, now).Some? ==>
      0 <= NextWait(r, now).value < SecondsPerDay && IsNextWait(r, now, NextWait(r, now).value)
    ensures forall w :: IsNextWait(r, now, w) ==> NextWait(r, now) == Some(w)
  {
    var candidates := Candidates(r.dailyTimes);
    EarliestFromCorrect(candidates, now);
    if |r.dailyTimes| > 0 {
      assert now <= candidates[1];
      WithinOneDay(r.dailyTimes, now, NextWait(r, now).value);
    }
    forall w | IsNextWait(r, now, w)
      ensures NextWait(r, now) == Some(w)
    {
      var k :| 0 <= k < |candidates| && now <= candidates[k] && w == candidates[k] - now;
      EarliestWaitUnique(candidates, now, w, NextWait(r, now).value);
    }
  }

  /** `Reminder.GetNextExecution`: scans the candidates, skipping those before
      `now`, and keeps the smallest distance to the others. The result is
      absent exactly when there are no daily times; otherwise it is under a
      day and no candidate is nearer. */
  method GetNextExecution(r: Reminder, now: SecondOfDay) returns (minDiff: Option<int>)
    ensures minDiff == NextWait(r, now)
    ensures minDiff.None? <==> |r.dailyTimes| == 0
    ensures minDiff.Some? ==> 0 <= minDiff.value < SecondsPerDay
    ensures minDiff.Some? ==> IsNextWait(r, now, minDiff.value)
  {
    var possibleExecutions := Candidates(r.dailyTimes);
    minDiff := None;
    for k := 0 to |possibleExecutions|
      invariant minDiff == EarliestFrom(possibleExecutions[..k], now)
    {
      assert possibleExecutions[..k + 1][..k] == possibleExecutions[..k];
      var possibleExecution := possibleExecutions[k];
      if possibleExecution < now {
        continue;
      }
      var curDiff := possibleExecution - now;
      if minDiff.None? || curDiff <= minDiff.value {
        minDiff := Some(curDiff);
      }
    }
    assert possibleExecutions[..|possibleExecutions|] == possibleExecutions;
    NextWaitFacts(r, now);
  }

  /** Only the minute of a daily time matters: times that agree up to their
      seconds have the same candidates, hence the same next wait. */
  lemma SecondsIgnored(times1: seq<SecondOfDay>, times2: seq<SecondOfDay>, now: int)
    requires |times1| == |times2|
    requires forall i :: 0 <= i < |times1| ==> times1[i] / 60 == times2[i] / 60
    ensures Candidates(times1) == Candidates(times2)
    ensures NextWait(Reminder(times1), now) == NextWait(Reminder(times2), now)
  {
    forall k | 0 <= k < 2 * |times1|
      ensures Candidates(times1)[k] == Candidates(times2)[k]
    {
      var t1, t2 := times1[k / 2], times2[k / 2];
      assert Occurrence(t1) == t1 / 60 * 60;
      assert Occurrence(t2) == t2 / 60 * 60;
    }
  }

  /** A daily time whose occurrence is exactly `now` is due now: it is not
      skipped, and the wait is zero. */
  lemma DueNowWaitsZero(r: Reminder, now: SecondOfDay, wait: int, i: int)
    requires 0 <= i < |r.dailyTimes| && Occurrence(r.dailyTimes[i]) == now
    requires IsNextWait(r, now, wait)
    ensures wait == 0
  {
    var candidates := Candidates(r.dailyTimes);
    assert candidates[2 * i] == now;
  }

  /** With at least one daily time the earliest wait is under a day:
      today's occurrence is due if it is not past, tomorrow's otherwise. */
  lemma WithinOneDay(times: seq<SecondOfDay>, now: SecondOfDay, wait: int)
    requires |times| > 0
    requires IsEarliestWait(Candidates(times), now, wait)
    ensures 0 <= wait < SecondsPerDay
  {
    var candidates := Candidates(times);
    var today := candidates[0];
    var tomorrow := candidates[1];
    assert today == Occurrence(times[0]) && tomorrow == today + SecondsPerDay;
    if now <= today {
      assert wait <= today - now;
    } else {
      assert wait <= tomorrow - now;
    }
  }

  /** A reminder with daily times, i.e. one whose next execution exists. */
  predicate HasTimes(r: Reminder) {
    |r.dailyTimes| > 0
  }

  /** The result of `GetNextEvent`: the wait and the position of the chosen
      reminder in the manager's list (the Go code returns a pointer to it). */
  datatype NextEvent = NextEvent(wait: Option<int>, reminder: Option<nat>)

  /** The message of the runtime panic Go raises there. */
  const NilDereference := "invalid memory address or nil pointer dereference"

  /** `ReminderManager.GetNextEvent`: the reminder due first, ties going to
      the later one. A reminder without daily times has no next execution;
      the Go code dereferences that nil wait as soon as an earlier reminder
      had one, which is a panic, returned here as a failure. While no
      reminder has had a wait, every reminder is taken, so a list of
      reminders all without times yields the last one and no wait. */
  method GetNextEvent(m: ReminderManager, now: SecondOfDay) returns (result: Result<NextEvent, string>)
    ensures result.Failure? <==>
      exists i, j :: 0 <= i < j < |m.reminders| && HasTimes(m.reminders[i]) && !HasTimes(m.reminders[j])
    ensures |m.reminders| == 0 ==> result == Success(NextEvent(None, None))
    ensures result.Success? && |m.reminders| > 0 && (forall j :: 0 <= j < |m.reminders| ==> !HasTimes(m.reminders[j])) ==>
      result.value == NextEvent(None, Some(|m.reminders| - 1))
    ensures result.Success? && (exists j :: 0 <= j < |m.reminders| && HasTimes(m.reminders[j])) ==>
      var e := result.value;
      && e.wait.Some? && e.reminder.Some? && e.reminder.value < |m.reminders|
      && IsNextWait(m.reminders[e.reminder.value], now, e.wait.value)
      && (forall j, w :: 0 <= j < |m.reminders| && IsNextWait(m.reminders[j], now, w) ==> e.wait.value <= w)
      && (forall j :: e.reminder.value < j < |m.reminders| ==> HasTimes(m.reminders[j]))
      && (forall j, w :: e.reminder.value < j < |m.reminders| && IsNextWait(m.reminders[j], now, w) ==> e.wait.value < w)
  {
    var rs := m.reminders;
    var waits: seq<Option<int>> := [];
    for i := 0 to |rs|
      invariant |waits| == i
      invariant forall j :: 0 <= j < i ==> waits[j] == NextWait(rs[j], now)
    {
      var curDiff := GetNextExecution(rs[i], now);
      waits := waits + [curDiff];
    }
    result := SelectEarliest(waits);
    WaitsMeaning(rs, now, waits);
  }

  /** The next waits computed for each reminder are the only ones there are. */
  lemma WaitsMeaning(rs: seq<Reminder>, now: SecondOfDay, waits: seq<Option<int>>)
    requires |waits| == |rs|
    requires forall j :: 0 <= j < |rs| ==> waits[j] == NextWait(rs[j], now)
    ensures forall j :: 0 <= j < |rs| ==> (waits[j].Some? <==> HasTimes(rs[j]))
    ensures forall j, w :: 0 <= j < |rs| ==> (IsNextWait(rs[j], now, w) <==> waits[j] == Some(w))
  {
    forall j | 0 <= j < |rs|
      ensures waits[j].Some? <==> HasTimes(rs[j])
      ensures forall w :: IsNextWait(rs[j], now, w) <==> waits[j] == Some(w)
    {
      NextWaitFacts(rs[j], now);
    }
  }

  /** The selection loop of `GetNextEvent` over the reminders' next waits,
      in list order: the first wait is taken even when absent, an absent
      wait after a present one is the nil dereference, and otherwise a wait
      no larger than the kept one replaces it. */
  method SelectEarliest(waits: seq<Option<int>>) returns (result: Result<NextEvent, string>)
    ensures result.Failure? <==> exists i, j :: 0 <= i < j < |waits| && waits[i].Some? && waits[j].None?
    ensures |waits| == 0 ==> result == Success(NextEvent(None, None))
    ensures result.Success? && |waits| > 0 && (forall j :: 0 <= j < |waits| ==> waits[j].None?) ==>
      result.value == NextEvent(None, Some(|waits| - 1))
    ensures result.Success? && (exists j :: 0 <= j < |waits| && waits[j].Some?) ==>
      var e := result.value;
      && e.reminder.Some? && e.reminder.value < |waits|
      && e.wait.Some? && waits[e.reminder.value] == e.wait
      && (forall j :: 0 <= j < |waits| && waits[j].Some? ==> e.wait.value <= waits[j].value)
      && (forall j :: e.reminder.value < j < |waits| ==> waits[j].Some? && e.wait.value < waits[j].value)
  {
    var minDiff: Option<int> := None;
    var minReminder: Option<nat> := None;
    ghost var firstTimed := 0;  // waits before it are absent, those from it on present
    for i := 0 to |waits|
      invariant 0 <= firstTimed <= i
      invariant forall j :: 0 <= j < firstTimed ==> waits[j].None?
      invariant forall j :: firstTimed <= j < i ==> waits[j].Some?
      invariant minDiff.None? <==> firstTimed == i
      invariant minDiff.None? ==> minReminder == (if i == 0 then None else Some(i - 1))
      invariant minDiff.Some? ==>
        && minReminder.Some? && firstTimed <= minReminder.value < i
        && minDiff == waits[minReminder.value]
        && (forall j :: firstTimed <= j < i ==> minDiff.value <= waits[j].value)
        && (forall j :: minReminder.value < j < i ==> minDiff.value < waits[j].value)
    {
      var curDiff := waits[i];
      if minDiff.None? {
        minDiff, minReminder := curDiff, Some(i);
        if curDiff.None? {
          firstTimed := i + 1;
        }
      } else if curDiff.None? {
        assert waits[firstTimed].Some?;
        return Failure(NilDereference);
      } else if curDiff.value <= minDiff.value {
        minDiff, minReminder := curDiff, Some(i);
      }
    }
    result := Success(NextEvent(minDiff, minReminder));
  }
}
