/** The streak rule applied when a quest is completed
    (`src/stores/useStore.ts`, lines 62-69), and the rule it evidently means. */
module Streaks {
  import opened Optional
  import opened Dates

  /** `DayOfMonthDifference` is the source's test, which subtracts the two
      days of the month (`getDate()`); `ConsecutiveDays` compares calendar
      days and leaves the streak alone on a second completion the same day. */
  datatype StreakRule = DayOfMonthDifference | ConsecutiveDays

  /** The streak after a completion at `now`, given the previous completion
      (if any) and the streak before it. */
  function NextStreak(rule: StreakRule, last: Option<Instant>, streak: int, now: Instant): (r: int)
    ensures last.None? ==> r == 1
    ensures streak >= 1 ==> r >= 1
    ensures rule == DayOfMonthDifference && streak >= 0 ==> r >= 1
    ensures r == 1 || r == streak || r == streak + 1
  {
    match last
    case None => 1
    case Some(prev) =>
      match rule
      case DayOfMonthDifference =>
        if now.date.day - prev.date.day == 1 then streak + 1 else 1
      case ConsecutiveDays =>
        var gap := EpochDay(now.date) - EpochDay(prev.date);
        if gap == 0 then streak else if gap == 1 then streak + 1 else 1
  }

  /** As written, the streak grows exactly when today's day of the month is
      one more than the last completion's, and otherwise restarts at one. */
  lemma AsWrittenRule(last: Instant, streak: int, now: Instant)
    ensures now.date.day == last.date.day + 1 ==>
      NextStreak(DayOfMonthDifference, Some(last), streak, now) == streak + 1
    ensures now.date.day != last.date.day + 1 ==>
      NextStreak(DayOfMonthDifference, Some(last), streak, now) == 1
  {
  }

  /** Within one month the two rules agree on whether the streak grows. */
  lemma RulesAgreeWithinMonth(last: Instant, streak: int, now: Instant)
    requires last.date.year == now.date.year && last.date.month == now.date.month
    requires last.date.day != now.date.day
    ensures NextStreak(DayOfMonthDifference, Some(last), streak, now)
         == NextStreak(ConsecutiveDays, Some(last), streak, now)
  {
    EpochDaySameMonth(last.date, now.date);
  }

  /** As written, completing on the day after the last day of a month
      restarts the streak at one, even though the days are consecutive. */
  lemma AsWrittenBreaksAtMonthEnd(d: Date, clock: int, clock': int, streak: int)
    requires Valid(d) && d.day == DaysInMonth(d.year, d.month)
    ensures EpochDay(NextDate(d)) == EpochDay(d) + 1
    ensures NextStreak(DayOfMonthDifference, Some(Instant(d, clock)), streak, Instant(NextDate(d), clock')) == 1
  {
    EpochDayNext(d);
  }

  /** As written, a completion on 2 February after one on 1 January, a month
      and a day later, still counts as the next day of the streak. */
  lemma AsWrittenContinuesAcrossMonthGap(streak: int)
    ensures var last := Instant(Date(2024, 1, 1), 0);
            var now := Instant(Date(2024, 2, 2), 0);
            && EpochDay(now.date) - EpochDay(last.date) == 32
            && NextStreak(DayOfMonthDifference, Some(last), streak, now) == streak + 1
  {
  }

  /** As written, a second completion on the same day restarts the streak. */
  lemma AsWrittenSameDayResets(last: Instant, streak: int, clock: int)
    ensures NextStreak(DayOfMonthDifference, Some(last), streak, Instant(last.date, clock)) == 1
  {
  }

  /** With the intended rule, completing on the next calendar day, whatever
      month or year end lies between, grows the streak by one. */
  lemma ConsecutiveDaysGrowsOnNextDay(d: Date, clock: int, clock': int, streak: int)
    requires Valid(d)
    ensures NextStreak(ConsecutiveDays, Some(Instant(d, clock)), streak, Instant(NextDate(d), clock')) == streak + 1
  {
    EpochDayNext(d);
  }

  /** With the intended rule, another completion on the same day leaves the
      streak as it was. */
  lemma ConsecutiveDaysSameDayKeeps(last: Instant, streak: int, clock: int)
    ensures NextStreak(ConsecutiveDays, Some(last), streak, Instant(last.date, clock)) == streak
  {
  }

  /** With the intended rule, a gap of more than one day restarts the streak. */
  lemma ConsecutiveDaysGapResets(last: Instant, streak: int, now: Instant)
    requires EpochDay(now.date) - EpochDay(last.date) > 1 || EpochDay(now.date) < EpochDay(last.date)
    ensures NextStreak(ConsecutiveDays, Some(last), streak, now) == 1
  {
  }
}
