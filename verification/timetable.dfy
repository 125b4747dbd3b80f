/** The daily-quest timeline of `src/components/QuestTimetable.tsx`: a week
    of past days, today and a week of future days, the daily quests shown
    under each day, and the relative day labels. Days are integer day
    numbers (`EpochDay`); "today" is a parameter. */
module Timetable {
  import opened Optional
  import opened Dates
  import opened Seqs
  import opened Quests

  /** Number of days shown on each side of today. */
  const WindowDays := 7

  /** The day number an instant falls on. */
  function DayOf(i: Instant): int {
    EpochDay(i.date)
  }

  /** The seven days before today, most recent first. */
  function PastDays(today: int): (r: seq<int>)
    ensures |r| == WindowDays
    ensures r[0] == today - 1
    ensures forall i :: 0 < i < |r| ==> r[i] == r[i - 1] - 1
    ensures forall d :: d in r <==> today - WindowDays <= d < today
  {
    var r := seq(WindowDays, i requires 0 <= i < WindowDays => today - (i + 1));
    forall d | today - WindowDays <= d < today
      ensures d in r
    {
      assert r[today - 1 - d] == d;
    }
    r
  }

  /** The seven days after today, soonest first. */
  function FutureDays(today: int): (r: seq<int>)
    ensures |r| == WindowDays
    ensures r[0] == today + 1
    ensures forall i :: 0 < i < |r| ==> r[i] == r[i - 1] + 1
    ensures forall d :: d in r <==> today < d <= today + WindowDays
  {
    var r := seq(WindowDays, i requires 0 <= i < WindowDays => today + (i + 1));
    forall d | today < d <= today + WindowDays
      ensures d in r
    {
      assert r[d - today - 1] == d;
    }
    r
  }

  /** The past days shown oldest first, then today, then the future days
      make fifteen consecutive days centred on today. */
  lemma TimelineIsContiguous(today: int)
    ensures var line := Reverse(PastDays(today)) + [today] + FutureDays(today);
      |line| == 2 * WindowDays + 1 && forall k :: 0 <= k < |line| ==> line[k] == today - WindowDays + k
  {
  }

  // ---------------------------------------------------------- getQuestsForDate

  /** Whether a quest appears under `day`: only daily quests; a completed one
      on its completion day, an active one on its due day, and an active one
      without a due date on today if it is persistent. */
  predicate ShownOn(q: Quest, day: int, today: int) {
    if q.kind != Daily then false
    else if q.status == Completed && q.completedAt.Some? then DayOf(q.completedAt.value) == day
    else if q.status == Active then
      if q.dueDate.Some? then DayOf(q.dueDate.value) == day
      else q.isPersistent && day == today
    else false
  }

  function ShownFilter(day: int, today: int): Quest -> bool {
    (q: Quest) => ShownOn(q, day, today)
  }

  /** The quests listed under `day`, in list order. */
  function QuestsForDate(quests: seq<Quest>, day: int, today: int): (r: seq<Quest>)
    ensures Subsequence(r, quests)
    ensures forall q | q in r :: q in quests && q.kind == Daily
    ensures forall q | q in r :: q.status == Active || (q.status == Completed && q.completedAt.Some?)
    ensures forall q | q in quests && q.kind == Daily && q.status == Completed && q.completedAt.Some? ::
      q in r <==> DayOf(q.completedAt.value) == day
    ensures forall q | q in quests && q.kind == Daily && q.status == Active && q.dueDate.Some? ::
      q in r <==> DayOf(q.dueDate.value) == day
    ensures forall q | q in quests && q.kind == Daily && q.status == Active && q.dueDate.None? ::
      q in r <==> q.isPersistent && day == today
    ensures forall q | q in r :: multiset(r)[q] == multiset(quests)[q]
  {
    Filter(quests, ShownFilter(day, today))
  }

  /** No quest is listed under two different days. */
  lemma ListedUnderOneDay(quests: seq<Quest>, q: Quest, a: int, b: int, today: int)
    requires q in QuestsForDate(quests, a, today) && q in QuestsForDate(quests, b, today)
    ensures a == b
  {
  }

  // ----------------------------------------------------------------- formatDate

  /** A day's heading: a relative name for today and its neighbours, the
      date itself otherwise (the source formats it with the locale). */
  datatype DayLabel = Today | Yesterday | Tomorrow | Dated(day: int)

  function FormatDate(day: int, today: int): (r: DayLabel)
    ensures r == Today <==> day == today
    ensures r == Yesterday <==> day == today - 1
    ensures r == Tomorrow <==> day == today + 1
    ensures r.Dated? ==> r.day == day
  {
    if day == today then Today
    else if day == today - 1 then Yesterday
    else if day == today + 1 then Tomorrow
    else Dated(day)
  }

  /** Within the timeline, different days get different headings. */
  lemma LabelsDistinguishDays(a: int, b: int, today: int)
    requires today - WindowDays <= a <= today + WindowDays
    requires today - WindowDays <= b <= today + WindowDays
    requires FormatDate(a, today) == FormatDate(b, today)
    ensures a == b
  {
  }

  /** Across the timeline only the three middle days get relative names. */
  lemma TimelineLabels(today: int, k: int)
    requires 0 <= k < 2 * WindowDays + 1
    ensures FormatDate(today - WindowDays + k, today).Dated? <==> k < WindowDays - 1 || k > WindowDays + 1
  {
  }
}
