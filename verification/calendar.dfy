/** The month grid of `src/components/QuestCalendar.tsx`: a Monday-first
    grid of whole weeks, padded with the end of the previous month and the
    start of the next, and the per-day list of finished quests. Weekdays are
    numbered as `Date.getDay()` numbers them: 0 is Sunday, 1 Monday, ...,
    6 Saturday. */
module Calendar {
  import opened Optional
  import opened Dates
  import opened Seqs
  import opened Quests

  /** Which month a grid cell belongs to, relative to the month shown. */
  datatype MonthRef = Previous | Current | Next

  /** One grid cell: a day of the previous, current or next month. */
  datatype Cell = Cell(month: MonthRef, day: int)

  /** Cells taken from the previous month so that the grid starts on a Monday. */
  function LeadingPad(firstWeekday: int): (pad: int)
    requires 0 <= firstWeekday < 7
    ensures 0 <= pad <= 6
    ensures (firstWeekday - pad) % 7 == 1
  {
    if firstWeekday == 0 then 6 else firstWeekday - 1
  }

  /** Cells taken from the next month so that the grid ends on a Sunday. */
  function TrailingPad(lastWeekday: int): (pad: int)
    requires 0 <= lastWeekday < 7
    ensures 0 <= pad <= 6
    ensures (lastWeekday + pad) % 7 == 0
  {
    if lastWeekday == 0 then 0 else 7 - lastWeekday
  }

  /** The cells of the grid for a month of `monthLength` days that starts on
      `firstWeekday` and ends on `lastWeekday`, after a month of
      `prevMonthLength` days: the previous month's last days in ascending
      order, then every day of the month once, then the next month's first
      days. */
  method GenerateCalendarDays(firstWeekday: int, lastWeekday: int, monthLength: nat, prevMonthLength: int)
    returns (days: seq<Cell>)
    requires 0 <= firstWeekday < 7 && 0 <= lastWeekday < 7
    ensures |days| == LeadingPad(firstWeekday) + monthLength + TrailingPad(lastWeekday)
    ensures forall k :: 0 <= k < LeadingPad(firstWeekday) ==>
      days[k] == Cell(Previous, prevMonthLength - LeadingPad(firstWeekday) + 1 + k)
    ensures forall d :: 1 <= d <= monthLength ==> days[LeadingPad(firstWeekday) + d - 1] == Cell(Current, d)
    ensures forall d :: 1 <= d <= TrailingPad(lastWeekday) ==>
      days[LeadingPad(firstWeekday) + monthLength + d - 1] == Cell(Next, d)
  {
    var lead := LeadingPad(firstWeekday);
    var trail := TrailingPad(lastWeekday);
    days := [];
    // Day `-i` of the month is `i` days before the previous month's last day.
    var i := lead - 1;
    while i >= 0
      invariant -1 <= i <= lead - 1
      invariant |days| == lead - 1 - i
      invariant forall k :: 0 <= k < |days| ==> days[k] == Cell(Previous, prevMonthLength - lead + 1 + k)
    {
      days := days + [Cell(Previous, prevMonthLength - i)];
      i := i - 1;
    }
    var d := 1;
    while d <= monthLength
      invariant 1 <= d <= monthLength + 1
      invariant |days| == lead + d - 1
      invariant forall k :: 0 <= k < lead ==> days[k] == Cell(Previous, prevMonthLength - lead + 1 + k)
      invariant forall e :: 1 <= e < d ==> days[lead + e - 1] == Cell(Current, e)
    {
      days := days + [Cell(Current, d)];
      d := d + 1;
    }
    var n := 1;
    while n <= trail
      invariant 1 <= n <= trail + 1
      invariant |days| == lead + monthLength + n - 1
      invariant forall k :: 0 <= k < lead ==> days[k] == Cell(Previous, prevMonthLength - lead + 1 + k)
      invariant forall e :: 1 <= e <= monthLength ==> days[lead + e - 1] == Cell(Current, e)
      invariant forall e :: 1 <= e < n ==> days[lead + monthLength + e - 1] == Cell(Next, e)
    {
      days := days + [Cell(Next, n)];
      n := n + 1;
    }
  }

  /** When the last weekday is the one the month length implies, the grid
      is a whole number of weeks: four, five or six rows of seven. */
  lemma GridIsWholeWeeks(firstWeekday: int, monthLength: int, lastWeekday: int)
    requires 0 <= firstWeekday < 7 && 28 <= monthLength <= 31
    requires lastWeekday == (firstWeekday + monthLength - 1) % 7
    ensures var cells := LeadingPad(firstWeekday) + monthLength + TrailingPad(lastWeekday);
      cells % 7 == 0 && 28 <= cells <= 42
  {
  }

  /** Day `d` of the month sits in grid position `LeadingPad + d - 1`, and
      its weekday is that position's column counted from Monday: column
      `c` holds weekday `(c + 1) % 7`. */
  lemma GridIsMondayFirst(firstWeekday: int, d: int)
    requires 0 <= firstWeekday < 7 && d >= 1
    ensures (firstWeekday + d - 1) % 7 == ((LeadingPad(firstWeekday) + d - 1) % 7 + 1) % 7
  {
    var x := LeadingPad(firstWeekday) + d - 1;
    var q, r := x / 7, x % 7;
    assert x == 7 * q + r;
    assert x + 1 == 7 * q + (r + 1);
    if firstWeekday == 0 {
      assert firstWeekday + d - 1 == x - 6 == 7 * (q - 1) + (r + 1);
    } else {
      assert firstWeekday + d - 1 == x + 1;
    }
  }

  /** The day names, indexed by `getDay()` number. */
  function WeekdayName(w: int): string
    requires 0 <= w < 7
  {
    ["Sun", "Mon", "Tue", "Wed", "Thu", "Fri", "Sat"][w]
  }

  /** The column headings the component draws over the grid. */
  const SundayFirstHeader: seq<string> := ["Sun", "Mon", "Tue", "Wed", "Thu", "Fri", "Sat"]

  /** Headings that match a Monday-first grid. */
  const MondayFirstHeader: seq<string> := ["Mon", "Tue", "Wed", "Thu", "Fri", "Sat", "Sun"]

  /** As drawn, every day of the month sits under the heading of the day
      before it: the headings start on Sunday, the grid on Monday. */
  lemma SundayHeaderMislabelsEveryDay(firstWeekday: int, d: int)
    requires 0 <= firstWeekday < 7 && d >= 1
    ensures var column := (LeadingPad(firstWeekday) + d - 1) % 7;
      SundayFirstHeader[column] != WeekdayName((firstWeekday + d - 1) % 7)
  {
    GridIsMondayFirst(firstWeekday, d);
  }

  /** Monday-first headings name the weekday of every day of the month. */
  lemma MondayHeaderLabelsEveryDay(firstWeekday: int, d: int)
    requires 0 <= firstWeekday < 7 && d >= 1
    ensures var column := (LeadingPad(firstWeekday) + d - 1) % 7;
      MondayFirstHeader[column] == WeekdayName((firstWeekday + d - 1) % 7)
  {
    GridIsMondayFirst(firstWeekday, d);
  }

  // ---------------------------------------------------------- getQuestsForDate

  /** The date a finished quest is filed under: its completion, or failing
      that its failure; none for a quest with neither. */
  function RecordedDate(q: Quest): Option<Date> {
    if q.completedAt.Some? then Some(q.completedAt.value.date)
    else if q.failedAt.Some? then Some(q.failedAt.value.date)
    else None
  }

  function FiledOn(date: Date): Quest -> bool {
    (q: Quest) => RecordedDate(q) == Some(date)
  }

  /** The quests finished on `date` (same day, month and year), in list order. */
  function QuestsForDate(quests: seq<Quest>, date: Date): (r: seq<Quest>)
    ensures Subsequence(r, quests)
    ensures forall q | q in r :: q in quests && (q.completedAt.Some? || q.failedAt.Some?)
    ensures forall q | q in r && q.completedAt.Some? :: q.completedAt.value.date == date
    ensures forall q | q in r && q.completedAt.None? :: q.failedAt.Some? && q.failedAt.value.date == date
    ensures forall q | q in quests && q.completedAt.Some? && q.completedAt.value.date == date :: q in r
    ensures forall q | q in quests && q.completedAt.None? && q.failedAt.Some? && q.failedAt.value.date == date :: q in r
    ensures forall q | q in r :: multiset(r)[q] == multiset(quests)[q]
  {
    Filter(quests, FiledOn(date))
  }

  /** A finished quest is listed under the date it was recorded on... */
  lemma FinishedQuestIsListed(quests: seq<Quest>, q: Quest)
    requires q in quests && RecordedDate(q).Some?
    ensures q in QuestsForDate(quests, RecordedDate(q).value)
  {
  }

  /** ...and under no other date. */
  lemma ListedUnderOneDate(quests: seq<Quest>, q: Quest, a: Date, b: Date)
    requires q in QuestsForDate(quests, a) && q in QuestsForDate(quests, b)
    ensures a == b
  {
  }
}
