# Habit tracker engine in Dafny

A model of the bookkeeping core of the HabitForge habit tracker (`app.js`).
The user keeps a list of habits. Each habit records the dates on which it was
completed. Completing a habit earns experience points, and experience raises
a level that comes with a title. The dashboard shows:

- a global streak of consecutive active days;
- a streak for each habit;
- the number of habits completed today;
- a weekly completion percentage;
- the total experience.

Structure of the model:

- `Seqs`: the array operations the engine uses, stated on sequences:
  `indexOf`, `splice`, `filter`, and the sort-then-reverse that orders dates
  newest first.
- `Progression`: the `(level, xp)` record. It covers crediting and debiting
  experience, the level titles, and the total-experience display.
- `Habits`: the habit record and the completion toggle on a habit's dates. It
  also covers lookup and removal by id, the category filter, and the
  completed-today count.
- `Streaks`: the streak count over dates sorted newest first. A set-based
  reference definition `DayRun` says what a streak is, independently of the
  loop.
- `Weekly`: the weekly ratio. This is the ISO day of the week, rounding a
  half up, and completions since Monday.
- `Tracker`: the class `HabitTracker`. It holds the state the engine changes
  in place (`habits`, `level`, `xp`, `filter`). Its methods are the
  operations the user triggers and the loop-based statistics.

Dates are integer day numbers, so consecutive days differ by one. The engine
stores zero-padded `YYYY-MM-DD` strings. Those sort chronologically, and
parsing them at UTC midnight makes date differences whole days, so day
numbers keep every comparison and difference the engine relies on. The
clock is a set of parameters: today, Monday of the current week, and the
weekday (`getDay`, Sunday being 0). New habit ids and creation stamps are
parameters too.

In these places the code behaves differently from what one might expect, and
the model follows the code:

- `addHabit` does not reject an empty name.
- Toggling or deleting an unknown id is a silent no-op, not an error.
- `addXP` performs at most one level-up per call, not a loop.
- Toggling acts on the first habit carrying the id (`find`).

## Model

| member | source | states |
|---|---|---|
| Tracker.HabitTracker.constructor | app.js:2-9 | Initial state: no habits, level 1, 0 xp, filter "all"; the state invariant holds |
| Tracker.HabitTracker.AddHabit | app.js:43-57 | Appends exactly one habit with the given fields and no completed dates; earlier habits, level, xp and filter are unchanged; preserves the invariant |
| Tracker.HabitTracker.DeleteHabit | app.js:86-93 | The new list is `WithoutId` of the old one, i.e. exactly the habits whose id differs, in order; progress and filter unchanged; preserves the invariant |
| Tracker.HabitTracker.ToggleHabit | app.js:59-84 | Unknown id: nothing changes and the result is false. Otherwise, for the first habit with the id: completed exactly when today was absent; only that habit's dates change, to `Toggled`; the progress becomes `Credit` or `Debit` of XP_PER_HABIT accordingly; preserves the invariant |
| Tracker.HabitTracker.AddXP | app.js:95-110 | The new `(level, xp)` is `Credit` of the old; `leveledUp` holds exactly when the level rose by one; credits of 0..100 keep the bounds; habits and filter unchanged |
| Tracker.HabitTracker.RemoveXP | app.js:112-120 | The new `(level, xp)` is `Debit` of the old; non-negative debits keep the bounds; habits and filter unchanged |
| Tracker.HabitTracker.CalculateStreak | app.js:123-173 | Equals `DayRun` of the set of all completed dates, which is at most the number of distinct dates |
| Tracker.HabitTracker.CalculateHabitStreak | app.js:297-323 | Sorts that habit's dates newest first in place; the result is `Streak` of the sorted dates and equals `DayRun` of the habit's date set; progress and filter unchanged |
| Tracker.HabitTracker.CalculateWeeklyProgress | app.js:175-197 | Equals `WeeklyRatio` of the completions on or after Monday, the habit count and the weekday |
| Tracker.HabitTracker.ShownHabits | app.js:242-246 | A habit is shown iff it is in the list and the filter is "all" or equals its category |
| Tracker.HabitTracker.SetFilter | app.js:381 | Sets the filter, changing nothing else |
| Progression.Credit | app.js:95-107 | The level rises by exactly one iff xp + amount reaches level*100; the experience earned overall grows by exactly `amount` |
| Progression.Debit | app.js:112-118 | The level never changes; xp becomes max(0, xp - amount) |
| Progression.CreditKeepsBounds | app.js:97-103 | From `1 <= level`, `0 <= xp < level*100`, a credit of 0..100 keeps those bounds |
| Progression.DebitKeepsBounds | app.js:113-118 | A non-negative debit keeps those bounds |
| Progression.DebitKeepsLevelUp | app.js:101-118 | A debit after a credit never undoes the credit's level-up |
| Progression.CompleteThenUndo | app.js:95-118 | Completing then un-completing restores the progress iff the completion crossed no level threshold |
| Progression.SingleStepLevelUp | app.js:100-103 | One credit performs a single level-up step: a credit of 300 at level 1 leaves level 2 with 200 xp, out of bounds |
| Progression.LevelUpThenDebitExample | app.js:95-118 | 95 xp at level 1: completing gives level 2 with 5 xp, un-completing gives level 2 with 0 xp |
| Progression.TitleIndex | app.js:219 | The index is within the title table, equals level - 1 up to level 8 and the last index from level 8 on |
| Progression.Title | app.js:219-220 | The shown title is one of LEVEL_TITLES |
| Progression.TitleIndexMonotone | app.js:219 | Titles never go back as the level rises |
| Progression.LevelCost | app.js:100-103 | Experience consumed to reach a level: 0 at level 1, 100 at level 2, at least (level-1)*100 above |
| Progression.AccumulatedXP | app.js:95-107 | All experience earned lies between the cost of the current level and that of the next |
| Progression.TotalXP | app.js:217 | The displayed total equals the accumulated experience iff the level is 1 or 2 |
| Progression.LevelCostAboveFlat | app.js:217 | From level 3 on, the levels climbed cost more than 100 each |
| Progression.TotalXPOnLevelUp | app.js:217 | On a level-up the displayed total changes by amount - (level-1)*100 |
| Progression.TotalXPDropExample | app.js:217 | Level 2 with 190 xp shows 290; one completion gives level 3 with 0 xp, which shows 200, while the experience earned grows from 290 to 300 |
| Habits.Toggled | app.js:64-80 | Adds one occurrence of today when it is absent and removes one when it is present, leaving the length changed by one accordingly |
| Habits.ToggleDirection | app.js:64-80 | On repeat-free dates, today is present after the toggle iff it was absent, and the count changes by one in that direction |
| Habits.ToggleOnlyTouchesToday | app.js:64-80 | The toggle leaves the occurrences of every other day unchanged |
| Habits.ToggleKeepsNoDup | app.js:68-77 | A toggle keeps a habit's dates free of repeats |
| Habits.ToggleTwice | app.js:63-80 | Toggling the same day twice restores the same dates, as a set and as a multiset |
| Habits.FindHabit | app.js:60-61 | -1 iff no habit has the id; otherwise the position of the first habit with it |
| Habits.AllDates | app.js:128-131 | Every date of every habit is in the union |
| Habits.AllDatesOnlyHabitDates | app.js:128-131 | Conversely, every day in the union was completed by some habit, so the union is exactly the distinct completed dates |
| Habits.WithoutId | app.js:88 | A habit remains iff it was in the list and its id differs |
| Habits.WithoutIdKeepsOrder | app.js:88 | Deleting distributes over concatenation, so the survivors keep their order |
| Habits.WithoutUnknownId | app.js:88 | Deleting an id no habit has leaves the list as it was |
| Habits.Visible | app.js:243-246 | A habit is shown iff it is in the list and the filter is "all" or equals its category; "all" shows the list itself |
| Habits.VisibleKeepsOrder | app.js:245 | The category filter keeps the shown habits in list order |
| Habits.CompletedToday | app.js:226-227 | Equals the number of positions whose habit has today among its dates; hence at most the number of habits, and 0 iff no habit has today |
| Habits.ToggleShiftsCompletedToday | app.js:227 | Toggling one habit moves the completed-today count by exactly one, in the toggle's direction |
| Streaks.Streak | app.js:133-172 | At most the number of dates; 0 iff there are none or the newest is neither today nor yesterday |
| Streaks.RunLength | app.js:156-170 | Between 1 and the length for a non-empty list |
| Streaks.RunLengthStopsAtGap | app.js:159-170 | The counted dates step back one day at a time and the count stops at the first gap |
| Streaks.CountStreak | app.js:143-172 | The counting loop returns `Streak` of the sorted dates |
| Streaks.CountBackIsRun | app.js:156-170 | Every day of the counted run is completed, and the day before the run is not |
| Streaks.RunLengthIsCountBack | app.js:156-170 | On strictly decreasing dates the run length equals the count back from the newest date |
| Streaks.StreakIsDayRun | app.js:133-172 | The loop's streak over sorted distinct dates equals the set-based definition `DayRun` |
| Streaks.StreakExamples | app.js:143-172 | {today, yesterday, today-2} give 3; {today, today-3} give 1; a completion two days ago gives 0; no dates give 0 |
| Weekly.DaysPassed | app.js:192 | Always in 1..7: 7 on a Sunday, the weekday otherwise |
| Weekly.RoundHalfUp | app.js:196 | The result is num/den rounded to the nearest integer, halves rounded up |
| Weekly.DatesSince | app.js:185-187 | Its length is the number of positions of the habit's dates holding a day on or after Monday |
| Weekly.NoDatesSince | app.js:185-187 | A habit contributes nothing exactly when all its dates lie before Monday |
| Weekly.CountDatesSince | app.js:185-187 | The inner counting loop returns the number of the habit's dates on or after Monday |
| Weekly.CompletionsSince | app.js:183-188 | 0 exactly when no completed date of any habit is on or after Monday |
| Weekly.DatesSinceStep | app.js:185-187 | Counting one more date adds one exactly when it is on or after Monday |
| Weekly.CompletionsSinceStep | app.js:184-188 | Counting one more habit adds its dates on or after Monday |
| Weekly.WeeklyRatio | app.js:192-196 | 0 with no habits; otherwise 100*completions/(habits*daysPassed) rounded half up |
| Weekly.WeeklyRatioAtMostHundred | app.js:193-196 | The ratio is in 0..100 while completions stay within habits*daysPassed |
| Weekly.DatesSinceBound | app.js:185-187 | A habit's repeat-free dates between Monday and today number at most the days between them |
| Weekly.CompletionsWithinWeek | app.js:183-188 | With repeat-free dates none after today, the week's completions are at most habits times the days since Monday |
| Weekly.WeeklyProgressAtMostHundred | app.js:183-196 | When Monday and the weekday agree on the days passed and every habit's dates are repeat-free and none after today, the weekly percentage is between 0 and 100 |
| Weekly.WeeklyRoundingAtHalf | app.js:196 | 8 habits on a Friday with 23 completions: exactly 57.5 percent, which the model rounds to 58 |
| Weekly.WeeklyExample | app.js:192-196 | Two habits, one completion, on a Wednesday: 17 percent |
| Seqs.IndexOf | app.js:64 | -1 iff the value is absent; otherwise the position of its first occurrence |
| Seqs.RemoveAt | app.js:77 | Removes exactly the element at the position: one occurrence fewer, the rest in order |
| Seqs.Filter | app.js:88 | Keeps at most as many elements as the input has |
| Seqs.FilterCountsPositions | app.js:227 | The length of a filtered array is the number of positions whose element passes the condition |
| Seqs.FilterMembers | app.js:88 | Filtering keeps exactly the elements satisfying the condition, never more often than they occur |
| Seqs.Insert | app.js:133 | Inserting into dates sorted newest first keeps them sorted and adds exactly that date |
| Seqs.SortDescending | app.js:133 | The result is sorted newest first and is a permutation of the input |
| Seqs.SortNoDupIsStrict | app.js:128-133 | Sorting distinct dates gives a strictly decreasing list with the same dates |

## Left out

- Persistence (`loadData`, `saveData`, app.js:28-40) is left out, because `localStorage` and JSON are I/O. The class fields stand for the persisted state.
- All DOM work is left out: rendering, event listeners, theme, toasts, confetti, icons, and the daily wisdom. `data.js` is only constant text. `triggerConfetti` and `updateDailyWisdom` also use animation frames and randomness.
- The `confirm` dialog in `deleteHabit` is left out. `DeleteHabit` is the confirmed branch; a refused dialog changes nothing.
- Clock reads are left out, and so is the mix of local and UTC time between Monday and "today" (app.js:63, 176-180). `today`, `monday` and `weekday` are parameters, and yesterday is `today - 1`. The Monday arithmetic with `getDate`/`setDate` is not modelled.
- Dates as strings are left out. The model uses day numbers, which assumes every stored date is a well-formed zero-padded ISO date. The engine's string comparisons `d >= monday` and `sort()` then agree with integer order.
- Tracker.HabitTracker.CalculateStreak: the loop collects the distinct dates in first-seen order, as `Array.from(Set)` does, but no contract states that order, since only the set of distinct dates matters after the sort.
- Tracker.HabitTracker.CalculateHabitStreak: it takes the habit's position instead of the habit object, so aliasing between the rendered habit and the list entry is not modelled.
- Tracker.HabitTracker.AddXP: it keeps the bounds only for credits of 0 to 100, the range the engine uses (it always passes 10). The arithmetic itself is stated for every amount.
- Floating point is left out. `Math.round(c / t * 100)` is modelled as exact rational rounding with halves up, so the two can differ by one near a half. With 8 habits on a Friday (40 possible) and 23 completions, the engine computes `Math.round(57.49999999999999)` = 57, while `Weekly.WeeklyRoundingAtHalf` shows the model gives 58. The XP bar width `xpPercent` (app.js:208) is not modelled.
- The streak loops' `Math.ceil`/`Math.floor` of millisecond differences are modelled as the exact day difference. This equals them on UTC-midnight dates.
- Habit ids come from `Date.now()` and are parameters. Nothing forces them to be unique, and the model does not assume they are.

## Findings

| source | as written | input that shows it | evidently intended | confidence | as-written member | corrected member |
|---|---|---|---|---|---|---|
| app.js:217 | The total experience is displayed as `(level-1)*100 + xp`, which the line's own comment calls a "Total accumulated approximation", but leaving level N costs N*100 | Level 2 with 190 xp (reachable in steps of 10) displays 290; one completion (+10) gives level 3 with 0 xp, which displays 200 | The total of all experience earned, which never falls when experience is credited | not executed | Progression.TotalXPDropExample | Progression.AccumulatedXP |

`Progression.TotalXP` models the display as written. `TotalXPOnLevelUp` shows it falls on every level-up from level 2 on. `AccumulatedXP` is the cost of the levels climbed plus the current xp. `Credit` proves that it grows by exactly the credited amount.
