# Habit Berserk progress store, in Dafny

Habit Berserk is a gamified habit tracker. A character earns XP, levels and
stats by completing quests, and it keeps a streak of days with a completion.
This project models the three pieces of the web client that hold logic:

- **The progress store** (`src/stores/useStore.ts`). Its state is a
  `Character` and a list of `Quest`s. It has four transitions, modelled here
  as pure functions from one `State` to the next: `AddQuest`,
  `CompleteQuest`, `DeleteQuest` and `UpdateCharacter`. The fresh quest id and
  the current instant are parameters.
- **The month calendar** (`src/components/QuestCalendar.tsx`). It pads the
  month into a Monday-first grid of whole weeks and lists the quests finished
  on a given date.
- **The daily timeline** (`src/components/QuestTimetable.tsx`). It shows a
  week of past days, today and a week of future days, the daily quests under
  each, and a relative heading for each day.

Modules, one per concept:

| file | module | contents |
|---|---|---|
| `optional.dfy` | `Optional` | `Option`, the model of an absent JavaScript field |
| `seqs.dfy` | `Seqs` | `Filter` (`Array.filter`), `Subsequence`, `Reverse` |
| `dates.dfy` | `Dates` | Gregorian `Date`, `Instant`, `EpochDay` day numbers, `NextDate` |
| `quests.dfy` | `Quests` | `Quest`, `QuestDraft`, `StatBoosts`, `FirstWithId` (`Array.find`) |
| `characters.dfy` | `Characters` | `Character`, `Stats`, `CharacterPatch`, the invariant `WellFormed` |
| `streaks.dfy` | `Streaks` | the streak rule as written, and as evidently intended |
| `store.dfy` | `Store` | the state and its four transitions |
| `store_properties.dfy` | `StoreProperties` | lemmas relating the transitions |
| `calendar.dfy` | `Calendar` | grid padding, grid construction, per-date quest filter |
| `timetable.dfy` | `Timetable` | past and future days, per-day quest filter, day labels |

Modelling choices:

- **Stats.** The store works with five stats: strength, intelligence, skill,
  wisdom and spirit. `src/types/character.ts` and `src/types/quest.ts`
  declare three, with agility in place of the last three. The model follows
  the store.
- **Quest fields.** `Quest` carries `failedAt`, `dueDate` and `isPersistent`,
  and its status can be `Failed`. `src/types/quest.ts` does not declare
  these, but the two views read them. The store never sets them.
- **Dates.** A JavaScript `Date` becomes an `Instant`: a calendar `Date` plus
  an opaque clock value.
  - The streak reads the date's day of the month.
  - The calendar compares whole dates.
  - The timeline works with `EpochDay`, the day number counted from
    1970-01-01. `Dates.EpochDayNext` proves that it counts days without gaps.
- **Streak rule.** The store is parametrised by the streak rule
  (`CompleteQuestWith`). `CompleteQuest` is the transition with the source's
  own rule. Every lemma in `StoreProperties` holds for both rules. See
  "## Findings".
- **Levelling.** In `useStore.ts`:
  - The threshold is 100 × level.
  - At most one level is gained per completion.
  - XP is never reduced.
  - Completing a quest again awards it again, because there is no status
    check.

## Model

| member | source | states |
|---|---|---|
| Store.InitialState | src/stores/useStore.ts:15-29 | the store starts at level 1 with 0 of 100 XP, all five stats at 10, no streak, no last completion and no quests, and that state satisfies the invariant |
| Store.AddQuest | src/stores/useStore.ts:30-41 | exactly one quest is appended at the end. It carries the draft's fields, the given id and creation time, status active and no completion time. Earlier quests and the character are unchanged |
| Quests.FirstWithId | src/stores/useStore.ts:44 | finds the first quest carrying the id, and finds one exactly when some quest carries it |
| Store.CompleteQuestWith | src/stores/useStore.ts:42-91 | an unknown id leaves the state unchanged. Otherwise XP grows by the first matching quest's reward, with no threshold subtracted. The level rises by one iff the new XP reaches the old threshold, and is unchanged otherwise. The threshold becomes 100 × the new level. Each stat grows by its boost, a missing boost counting 0. The last completion becomes now. Every quest with the id is marked completed at now, and every other quest and the list's length and order are unchanged |
| Store.CompleteQuest | src/stores/useStore.ts:62-69 | with no previous completion the streak becomes 1. Otherwise it becomes the old streak + 1 iff today's day of the month minus the last completion's is 1, and 1 otherwise. It is at least 1 after a completion from a state whose streak is not negative (the invariant guarantees this) |
| Store.MarkCompleted | src/stores/useStore.ts:72-80 | the quests carrying the id become completed at now, and every other quest stays as it was, in place |
| Store.DeleteQuest | src/stores/useStore.ts:92-95 | no quest with the id remains. Every other quest is kept, as often as before and in its relative order. The character is unchanged |
| Store.UpdateCharacter | src/stores/useStore.ts:96-99 | each supplied character field replaces the old value, every field not supplied keeps it, and the quests are untouched |
| Seqs.Filter | src/stores/useStore.ts:94 | the result is an order-preserving subsequence holding exactly the kept elements, each as often as in the input |
| Streaks.NextStreak | src/stores/useStore.ts:62-69 | the new streak is 1, the old one or the old one + 1. It is 1 with no previous completion, and at least 1 after a completion under the source's rule from a streak that is not negative (the invariant guarantees this) |
| Streaks.AsWrittenRule | src/stores/useStore.ts:63-68 | as written, the streak grows iff the day of the month is one more than the last completion's, and otherwise restarts at 1 |
| Streaks.RulesAgreeWithinMonth | src/stores/useStore.ts:63-68 | for two different days of the same month, the source's rule and the consecutive-day rule give the same streak |
| Streaks.AsWrittenBreaksAtMonthEnd | src/stores/useStore.ts:63-68 | after a completion on the last day of any month, a completion the next day (a consecutive day) restarts the streak at 1 |
| Streaks.AsWrittenContinuesAcrossMonthGap | src/stores/useStore.ts:63-68 | a completion on 2 February after one on 1 January, 32 days apart, still grows the streak |
| Streaks.AsWrittenSameDayResets | src/stores/useStore.ts:62-69 | a second completion on the same day restarts the streak at 1 |
| Streaks.ConsecutiveDaysGrowsOnNextDay | src/stores/useStore.ts:62-69 | with the intended rule, a completion on the next calendar day grows the streak by one, across month and year ends |
| Streaks.ConsecutiveDaysSameDayKeeps | src/stores/useStore.ts:62-69 | with the intended rule, another completion on the same day leaves the streak as it was |
| Streaks.ConsecutiveDaysGapResets | src/stores/useStore.ts:62-69 | with the intended rule, a gap of more than a day, or a step back, restarts the streak at 1 |
| Dates.EpochDayNext | src/components/QuestTimetable.tsx:19-30 | day numbers have no gaps: the next calendar date's number is one more, across month ends, leap days and year ends. The timeline's `setDate(getDate() ± n)` arithmetic therefore becomes plain ± n |
| Dates.ShiftedYearLength | src/components/QuestTimetable.tsx:19-30 | a year counted from March has 366 days when the following February is a leap February, and 365 otherwise |
| StoreProperties.AddQuestPreservesInvariant | src/stores/useStore.ts:30-41 | adding a quest keeps the threshold at 100 × level, the level at least 1, and the streak consistent with the last completion |
| StoreProperties.CompleteQuestPreservesInvariant | src/stores/useStore.ts:47-88 | completing a quest, under either streak rule, keeps the invariant |
| StoreProperties.DeleteQuestPreservesInvariant | src/stores/useStore.ts:92-95 | deleting a quest keeps the invariant |
| StoreProperties.UpdateStatsPreservesInvariant | src/stores/useStore.ts:96-99 | a patch that leaves level, threshold, streak and last completion alone keeps the invariant |
| StoreProperties.UpdateLevelCanBreakInvariant | src/stores/useStore.ts:96-99 | a patch that changes only the level breaks the invariant, because the merge does no checking |
| StoreProperties.CompleteQuestLevelStep | src/stores/useStore.ts:48-51 | a completion never lowers the level and raises it by at most one |
| StoreProperties.FirstWithIdSeesOnlyIds | src/stores/useStore.ts:44 | which quest the search picks depends only on the ids in the list |
| StoreProperties.CompleteTwiceAwardsTwice | src/stores/useStore.ts:42-60 | completing the same quest twice awards twice its reward and twice its boosts, because there is no status check |
| StoreProperties.LevelUpExample | src/stores/useStore.ts:47-52 | 90 of 100 XP plus a 50 XP reward gives level 2 with 140 XP and a threshold of 200, under either streak rule |
| StoreProperties.CompleteQuestKeepsIds | src/stores/useStore.ts:72-80 | completion keeps the length of the list and the id at every position |
| StoreProperties.MissingBoostIsZero | src/stores/useStore.ts:54-60 | a missing boost and an explicit zero boost change the stats in the same way |
| StoreProperties.NoBoostsKeepStats | src/stores/useStore.ts:54-60 | a quest without boosts leaves every stat unchanged |
| StoreProperties.FilterMarkCompleted | src/stores/useStore.ts:72-95 | marking the target quests completed and then filtering them out equals filtering them out directly |
| StoreProperties.CompleteThenDelete | src/stores/useStore.ts:72-95 | completing touches only the quests with the id: after deleting that id, the list is as if no completion had happened |
| StoreProperties.AddThenDeleteFresh | src/stores/useStore.ts:30-41 | adding a quest under an unused id and then deleting that id gives back the original state |
| StoreProperties.DeleteUnknownIsNoop | src/stores/useStore.ts:92-95 | deleting an id no quest carries changes nothing |
| StoreProperties.DeleteIdempotent | src/stores/useStore.ts:92-95 | deleting the same id twice equals deleting it once |
| StoreProperties.EmptyPatchIsNoop | src/stores/useStore.ts:96-99 | an empty patch leaves the state unchanged |
| StoreProperties.UpdateCharacterIdempotent | src/stores/useStore.ts:96-99 | applying the same patch twice equals applying it once |
| Calendar.LeadingPad | src/components/QuestCalendar.tsx:27-28 | the leading pad is in 0..6 and steps back from the month's first weekday to a Monday |
| Calendar.TrailingPad | src/components/QuestCalendar.tsx:31-32 | the trailing pad is in 0..6 and steps forward from the month's last weekday to a Sunday |
| Calendar.GenerateCalendarDays | src/components/QuestCalendar.tsx:34-49 | the grid is the previous month's last `LeadingPad` days, ascending and ending on its last day. Then come days 1..monthLength of the month, each once and ascending, then days 1..`TrailingPad` of the next month |
| Calendar.GridIsWholeWeeks | src/components/QuestCalendar.tsx:27-49 | when the last weekday matches the first weekday and the month length, the grid holds a multiple of 7 cells, between 28 and 42 |
| Calendar.GridIsMondayFirst | src/components/QuestCalendar.tsx:27-44 | day d of the month lands in the grid column whose weekday is that day's weekday, counting columns from Monday |
| Calendar.SundayHeaderMislabelsEveryDay | src/components/QuestCalendar.tsx:146 | under the Sunday-first headings the component draws, no day of the month sits under its own weekday's name |
| Calendar.MondayHeaderLabelsEveryDay | src/components/QuestCalendar.tsx:146 | Monday-first headings name the weekday of every day of the month |
| Calendar.QuestsForDate | src/components/QuestCalendar.tsx:54-65 | the result is an order-preserving subsequence with each quest as often as in the list. It never contains a quest with neither completion nor failure time. The completion time is preferred to the failure time, and a quest is included iff that time's day, month and year are the queried date's |
| Calendar.FinishedQuestIsListed | src/components/QuestCalendar.tsx:54-65 | a quest with a completion or failure time is listed under the date of that time (completion first) |
| Calendar.ListedUnderOneDate | src/components/QuestCalendar.tsx:54-65 | no quest is listed under two different dates |
| Timetable.PastDays | src/components/QuestTimetable.tsx:19-23 | exactly 7 days: today − 1 first, each one day before the previous, covering exactly today − 7 .. today − 1 |
| Timetable.FutureDays | src/components/QuestTimetable.tsx:26-30 | exactly 7 days: today + 1 first, each one day after the previous, covering exactly today + 1 .. today + 7 |
| Timetable.TimelineIsContiguous | src/components/QuestTimetable.tsx:19-30 | the past days read oldest first, then today, then the future days, form 15 consecutive days centred on today |
| Timetable.QuestsForDate | src/components/QuestTimetable.tsx:37-64 | only daily quests appear, in list order and as often as in the list. A completed quest with a completion time appears iff it was completed that day. An active quest with a due date appears iff it is due that day. An active quest without one appears iff it is persistent and the day is today. Nothing else appears |
| Timetable.ListedUnderOneDay | src/components/QuestTimetable.tsx:37-64 | no quest appears in two different day columns |
| Timetable.FormatDate | src/components/QuestTimetable.tsx:67-90 | the heading is "Today", "Yesterday" or "Tomorrow" exactly for offsets 0, −1 and +1, and a label carrying the date itself otherwise |
| Timetable.LabelsDistinguishDays | src/components/QuestTimetable.tsx:67-89 | within the 15-day timeline, two days with the same heading are the same day |
| Timetable.TimelineLabels | src/components/QuestTimetable.tsx:67-89 | across the 15-day timeline, only the three middle days get relative names |

## Left out

- Persistence is not modelled: the `localStorage` reads, writes and clears, and the JSON (de)serialisation in the dashboard and test pages. The store itself persists nothing.
- Rendering is not modelled: the JSX, React hooks and state setters, event handlers, and the `isToday`/`isCurrentMonth` cell styling. The same goes for the dashboard's midnight timer and the store `subscribe` in the test page. These are UI and timer plumbing.
- Ids are not generated: `Math.random().toString(36)` ids become a parameter of `AddQuest`. The code does not ensure ids are unique, so the model does not assume they are. That is why deletion and completion act on every quest carrying the id.
- Store.CompleteQuestWith: the source calls `new Date()` separately for the completion time and for the last-completion time, so the two can differ by milliseconds. Both are modelled as the one instant `now`.
- Store.UpdateCharacter: a key that the caller supplies with the value `undefined` overwrites the field in JavaScript. The model treats such a key as not supplied.
- JavaScript numbers are IEEE doubles. Levels, XP, stats and rewards are modelled as unbounded integers, so rounding, `NaN` and the `NaN || 0` case of the boost default are not modelled.
- Real `Date` behaviour is replaced by integer dates:
  - the UTC (`toISOString`) versus local (`getDate`) mismatch. It lies between the timeline and the calendar, and also inside the timeline itself:
    - The day columns are built as local midnights (QuestTimetable.tsx lines 15-30) but compared as UTC dates (line 38).
    - The "Today" column and the persistent-quest test use the current instant's UTC date (lines 57 and 181).
    - East of UTC, for most of the day, the "Tomorrow" column names the same UTC date as "Today". A persistent daily quest, or one completed today, is then listed under both columns, and no column shows the UTC yesterday.
    - The model uses one day number for both readings. So `Timetable.ListedUnderOneDay` and the per-day iffs of `Timetable.QuestsForDate` hold only for a clock running at UTC.
  - the locale text of `toLocaleDateString`, which becomes `Timetable.Dated(day)`. The source's label has no year, so days a whole number of years apart can share a label. `Timetable.LabelsDistinguishDays` therefore speaks only of the 15 timeline days, the only days the heading is drawn for;
  - the `setMonth` overflow in `navigateMonth`.
- Calendar.GenerateCalendarDays: cells are (previous/current/next month, day of the month) rather than `Date` objects. Its inputs — the month's first and last weekday and the lengths of the month and the previous month — are parameters, not derived from a year and month.
- Not modelled because `useStore.ts` does not have them:
  - failing or unchecking quests;
  - daily refresh and default-quest seeding;
  - reset and per-user storage keys;
  - per-date completion instances and a once-per-day completion guard;
  - multi-level jumps and an exponential XP curve.
- `src/types/index.ts` is not part of this model: it is a separate data model the store does not use.
- `src/middleware.ts`, the authentication route and `next.config.js` are not part of this model. They configure a foreign library.

## Findings

| source | as written | input that shows it | evidently intended | confidence | as-written member | corrected member |
|---|---|---|---|---|---|---|
| src/stores/useStore.ts:63-68 | the streak grows iff the difference of the two days of the month (`getDate()`) is 1 | a completion on 2024-01-31, then one on 2024-02-01: the streak restarts at 1, although the days are consecutive (the same happens at every month end) | the streak grows when the completion falls on the calendar day after the last one | high; not executed | Streaks.AsWrittenBreaksAtMonthEnd | Streaks.ConsecutiveDaysGrowsOnNextDay |
| src/stores/useStore.ts:63-68 | the same day-of-month test ignores the month | a completion on 2024-01-01, then one on 2024-02-02: the streak grows, although 32 days passed | a gap of more than one day restarts the streak | high; not executed | Streaks.AsWrittenContinuesAcrossMonthGap | Streaks.ConsecutiveDaysGapResets |
| src/stores/useStore.ts:62-69 | a second completion on the same day has difference 0 and restarts the streak at 1 | streak 5, last completion today, complete another quest today: the streak becomes 1 | a second completion on the same day leaves the streak unchanged | medium; not executed | Streaks.AsWrittenSameDayResets | Streaks.ConsecutiveDaysSameDayKeeps |
| src/components/QuestCalendar.tsx:146 | the headings run Sun..Sat, but the cells are laid out Monday-first (line 28) | January 2024 starts on a Monday, so it gets no leading pad: 1 January sits in the first column, headed "Sun" | headings Mon..Sun | high; not executed | Calendar.SundayHeaderMislabelsEveryDay | Calendar.MondayHeaderLabelsEveryDay |

The streak rule is a parameter of `Store.CompleteQuestWith`:

- `Streaks.ConsecutiveDays` is the corrected rule. It compares `EpochDay` numbers and leaves the streak unchanged on a second completion the same day.
- `Streaks.DayOfMonthDifference` is the rule as written. `Store.CompleteQuest` uses it.
- Every store lemma holds for both rules.
- `Streaks.RulesAgreeWithinMonth` shows that the two rules agree on different days of the same month.
