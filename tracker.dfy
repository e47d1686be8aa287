/** The application state the engine updates in place: the habit list, the
    user's level and experience, and the category filter, with the
    operations the user triggers and the statistics derived from them.
    Today's date, Monday's date and the weekday are passed in. */
module Tracker {
  import opened Seqs
  import opened Progression
  import opened Habits
  import opened Streaks
  import opened Weekly

  class HabitTracker {
    var habits: seq<Habit>
    var level: int
    var xp: int
    var filter: string

    /** At rest the progress is within its level's bounds and no habit has
        completed a date twice. */
    ghost predicate Valid()
      reads this
    {
      && InBounds(Progress(level, xp))
      && forall k :: 0 <= k < |habits| ==> NoDup(habits[k].completedDates)
    }

    /** The initial state: no habits, level 1, no experience, filter "all". */
    constructor ()
      ensures Valid()
      ensures habits == [] && level == 1 && xp == 0 && filter == ALL
    {
      habits := [];
      level := 1;
      xp := 0;
      filter := ALL;
    }

    /** The habits the current category filter shows. */
    function ShownHabits(): (shown: seq<Habit>)
      reads this
      ensures forall h :: h in shown <==> h in habits && (filter == ALL || h.category == filter)
    {
      Visible(habits, filter)
    }

    /** Selecting a category filter. */
    method SetFilter(category: string)
      modifies this
      ensures filter == category
      ensures habits == old(habits) && level == old(level) && xp == old(xp)
    {
      filter := category;
    }

    /** `addHabit`: appends a new habit with no completed dates. The id and
        creation time come from the clock and are passed in. */
    method AddHabit(id: string, name: string, category: string, target: string, createdAt: string)
      requires Valid()
      modifies this
      ensures Valid()
      ensures habits == old(habits) + [Habit(id, name, category, target, [], createdAt)]
      ensures level == old(level) && xp == old(xp) && filter == old(filter)
    {
      var newHabit := Habit(id, name, category, target, [], createdAt);
      habits := habits + [newHabit];
    }

    /** `deleteHabit`, once confirmed: drops every habit with `id`. */
    method DeleteHabit(id: string)
      requires Valid()
      modifies this
      ensures Valid()
      ensures habits == WithoutId(old(habits), id)
      ensures level == old(level) && xp == old(xp) && filter == old(filter)
    {
      habits := WithoutId(habits, id);
      forall k | 0 <= k < |habits|
        ensures NoDup(habits[k].completedDates)
      {
        assert habits[k] in old(habits);
      }
    }

    /** `addXP`: credits experience with at most one level-up;
        `leveledUp` tells whether the level-up message is shown. */
    method AddXP(amount: int) returns (leveledUp: bool)
      modifies this
      ensures old(Valid()) && 0 <= amount <= XP_PER_LEVEL ==> Valid()
      ensures Progress(level, xp) == Credit(old(Progress(level, xp)), amount)
      ensures leveledUp <==> level == old(level) + 1
      ensures habits == old(habits) && filter == old(filter)
    {
      if Valid() && 0 <= amount <= XP_PER_LEVEL {
        CreditKeepsBounds(Progress(level, xp), amount);
      }
      xp := xp + amount;
      var nextLevelXP := level * XP_PER_LEVEL;
      leveledUp := xp >= nextLevelXP;
      if leveledUp {
        level := level + 1;
        xp := xp - nextLevelXP;
      }
    }

    /** `removeXP`: debits experience, flooring it at 0. */
    method RemoveXP(amount: int)
      modifies this
      ensures old(Valid()) && 0 <= amount ==> Valid()
      ensures Progress(level, xp) == Debit(old(Progress(level, xp)), amount)
      ensures habits == old(habits) && filter == old(filter)
    {
      if xp >= amount {
        xp := xp - amount;
      } else {
        xp := 0;
      }
    }

    /** `toggleHabit`: completes or un-completes today for the first habit
        with `id`, crediting or debiting XP_PER_HABIT; an unknown id changes
        nothing. */
    method ToggleHabit(id: string, today: Day) returns (isCompleted: bool)
      requires Valid()
      modifies this
      ensures Valid()
      ensures filter == old(filter)
      ensures var k := FindHabit(old(habits), id);
              if k == -1 then
                && habits == old(habits) && level == old(level) && xp == old(xp)
                && !isCompleted
              else
                var dates := old(habits)[k].completedDates;
                && isCompleted == (today !in dates)
                && habits == old(habits)[k := old(habits)[k].(completedDates := Toggled(dates, today))]
                && Progress(level, xp) ==
                   if isCompleted then Credit(old(Progress(level, xp)), XP_PER_HABIT)
                   else Debit(old(Progress(level, xp)), XP_PER_HABIT)
    {
      var k := FindHabit(habits, id);
      if k == -1 {
        return false;
      }
      var habit := habits[k];
      var index := IndexOf(habit.completedDates, today);
      ToggleKeepsNoDup(habit.completedDates, today);
      if index == -1 {
        habits := habits[k := habit.(completedDates := habit.completedDates + [today])];
        var _ := AddXP(XP_PER_HABIT);
        isCompleted := true;
      } else {
        habits := habits[k := habit.(completedDates := RemoveAt(habit.completedDates, index))];
        RemoveXP(XP_PER_HABIT);
        isCompleted := false;
      }
    }

    /** `calculateStreak`: gathers the distinct completed dates of all habits,
        sorts them newest first and counts the run back from the newest. */
    method CalculateStreak(today: Day) returns (streak: nat)
      ensures streak == DayRun(AllDates(habits), today)
      ensures streak <= |AllDates(habits)|
    {
      var allDates: seq<Day> := [];
      var i := 0;
      while i < |habits|
        invariant 0 <= i <= |habits|
        invariant NoDup(allDates)
        invariant Elems(allDates) == AllDates(habits[..i])
      {
        var dates := habits[i].completedDates;
        var j := 0;
        while j < |dates|
          invariant 0 <= j <= |dates|
          invariant NoDup(allDates)
          invariant Elems(allDates) == AllDates(habits[..i]) + Elems(dates[..j])
        {
          ghost var before := allDates;
          if dates[j] !in allDates {
            AppendFreshKeepsNoDup(allDates, dates[j]);
            allDates := allDates + [dates[j]];
          }
          assert Elems(allDates) == Elems(before) + {dates[j]};
          assert dates[..j + 1] == dates[..j] + [dates[j]];
          assert Elems(dates[..j + 1]) == Elems(dates[..j]) + {dates[j]};
          j := j + 1;
        }
        assert dates[..j] == dates;
        assert habits[..i + 1][..i] == habits[..i];
        i := i + 1;
      }
      assert habits[..i] == habits;
      var sortedDates := SortDescending(allDates);
      SortNoDupIsStrict(allDates);
      StreakIsDayRun(sortedDates, today);
      streak := CountStreak(sortedDates, today);
    }

    /** `calculateHabitStreak` for the habit at position `k`: sorts that
        habit's dates newest first in place and counts the run back from the
        newest. */
    method CalculateHabitStreak(k: nat, today: Day) returns (streak: nat)
      requires Valid() && k < |habits|
      modifies this
      ensures Valid()
      ensures var dates := old(habits)[k].completedDates;
              && habits == old(habits)[k := old(habits)[k].(completedDates := SortDescending(dates))]
              && streak == Streak(SortDescending(dates), today)
              && streak == DayRun(Elems(dates), today)
      ensures level == old(level) && xp == old(xp) && filter == old(filter)
    {
      var habit := habits[k];
      var dates := SortDescending(habit.completedDates);
      SortNoDupIsStrict(habit.completedDates);
      StreakIsDayRun(dates, today);
      habits := habits[k := habit.(completedDates := dates)];
      streak := CountStreak(dates, today);
    }

    /** `calculateWeeklyProgress`: counts the completions on or after
        `monday` and rates them against habits times the days of the week so
        far. `weekday` is the clock's day of the week, Sunday being 0. */
    method CalculateWeeklyProgress(monday: Day, weekday: int) returns (percent: int)
      requires 0 <= weekday <= 6
      ensures percent == WeeklyRatio(CompletionsSince(habits, monday), |habits|, weekday)
    {
      var completions := 0;
      var i := 0;
      while i < |habits|
        invariant 0 <= i <= |habits|
        invariant completions == CompletionsSince(habits[..i], monday)
      {
        var count := CountDatesSince(habits[i].completedDates, monday);
        completions := completions + count;
        CompletionsSinceStep(habits, i, monday);
        i := i + 1;
      }
      assert habits[..i] == habits;
      var daysPassed := (weekday + 6) % 7 + 1;
      assert daysPassed == DaysPassed(weekday);
      var totalPossible := |habits| * daysPassed;
      if totalPossible == 0 {
        return 0;
      }
      percent := RoundHalfUp(100 * completions, totalPossible);
    }
  }
}
