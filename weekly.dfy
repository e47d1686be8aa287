/** The weekly ratio: completions since Monday against the completions the
    habits could have had on the days of the week so far. */
module Weekly {
  import opened Seqs
  import opened Habits

  /** Day of the ISO week (Monday 1 .. Sunday 7) from a `getDay` value
      (Sunday 0 .. Saturday 6). */
  function DaysPassed(weekday: int): (n: int)
    requires 0 <= weekday <= 6
    ensures 1 <= n <= 7
    ensures n == if weekday == 0 then 7 else weekday
  {
    (weekday + 6) % 7 + 1
  }

  /** `Math.round(num / den)` on exact rationals: the nearest integer, a
      half rounded up. */
  function RoundHalfUp(num: int, den: int): (r: int)
    requires den > 0
    ensures 2 * den * r - den <= 2 * num < 2 * den * r + den
  {
    var q := (2 * num + den) / (2 * den);
    assert 2 * num + den == (2 * den) * q + (2 * num + den) % (2 * den);
    q
  }

  /** The dates of one habit on or after `monday`. */
  function DatesSince(dates: seq<Day>, monday: Day): (r: seq<Day>)
    ensures |r| == |set k: nat | k < |dates| && dates[k] >= monday|
  {
    OnOrAfterCountsPositions(dates, monday);
    Filter(dates, OnOrAfter(monday))
  }

  function OnOrAfter(monday: Day): Day -> bool
  {
    (d: Day) => d >= monday
  }

  lemma OnOrAfterCountsPositions(dates: seq<Day>, monday: Day)
    ensures |Filter(dates, OnOrAfter(monday))| == |set k: nat | k < |dates| && dates[k] >= monday|
  {
    FilterCountsPositions(dates, OnOrAfter(monday));
    var a := Positions(dates, OnOrAfter(monday));
    var b := set k: nat | k < |dates| && dates[k] >= monday;
    assert a == b;
  }

  /** Counting one more date of a habit adds one when it is on or after
      `monday`. */
  lemma DatesSinceStep(dates: seq<Day>, j: nat, monday: Day)
    requires j < |dates|
    ensures |DatesSince(dates[..j + 1], monday)| ==
            |DatesSince(dates[..j], monday)| + (if dates[j] >= monday then 1 else 0)
  {
    assert dates[..j + 1][..j] == dates[..j];
  }

  /** The inner counting loop of `calculateWeeklyProgress`: how many of
      one habit's dates are on or after `monday`. */
  method CountDatesSince(dates: seq<Day>, monday: Day) returns (count: nat)
    ensures count == |DatesSince(dates, monday)|
  {
    count := 0;
    var j := 0;
    while j < |dates|
      invariant 0 <= j <= |dates|
      invariant count == |DatesSince(dates[..j], monday)|
    {
      DatesSinceStep(dates, j, monday);
      if dates[j] >= monday {
        count := count + 1;
      }
      j := j + 1;
    }
    assert dates[..j] == dates;
  }

  /** Completions across all habits on or after `monday`, a date counted
      once per habit that has it. */
  ghost function CompletionsSince(habits: seq<Habit>, monday: Day): (c: nat)
    ensures c == 0 <==> forall d :: d in AllDates(habits) ==> d < monday
  {
    if |habits| == 0 then 0
    else
      var n := |habits| - 1;
      var init, dates := habits[..n], habits[n].completedDates;
      NoDatesSince(dates, monday);
      assert AllDates(habits) == AllDates(init) + Elems(dates);
      CompletionsSince(init, monday) + |DatesSince(dates, monday)|
  }

  /** A habit has no date on or after `monday` exactly when all its dates
      lie before. */
  lemma NoDatesSince(dates: seq<Day>, monday: Day)
    ensures |DatesSince(dates, monday)| == 0 <==> forall d :: d in Elems(dates) ==> d < monday
  {
    var since := DatesSince(dates, monday);
    FilterMembers(dates, OnOrAfter(monday));
    if |since| > 0 {
      var d := since[0];
      assert d in since;
      assert d in Elems(dates) && d >= monday;
    } else {
      forall d | d in Elems(dates)
        ensures d < monday
      {
        assert d in dates;
        assert d !in since;
      }
    }
  }

  /** Counting one more habit adds its dates on or after `monday`. */
  lemma CompletionsSinceStep(habits: seq<Habit>, i: nat, monday: Day)
    requires i < |habits|
    ensures CompletionsSince(habits[..i + 1], monday) ==
            CompletionsSince(habits[..i], monday) + |DatesSince(habits[i].completedDates, monday)|
  {
    assert habits[..i + 1][..i] == habits[..i];
  }

  /** The ratio as a percentage: 0 with no habits, otherwise
      `round(100 * completions / (habits * daysPassed))`. */
  function WeeklyRatio(completions: int, habitCount: nat, weekday: int): (percent: int)
    requires 0 <= weekday <= 6
    ensures habitCount == 0 ==> percent == 0
    ensures habitCount > 0 ==>
              var possible := habitCount * DaysPassed(weekday);
              2 * possible * percent - possible <= 200 * completions < 2 * possible * percent + possible
  {
    var totalPossible := habitCount * DaysPassed(weekday);
    if totalPossible == 0 then 0 else RoundHalfUp(100 * completions, totalPossible)
  }

  /** A ratio never exceeds 100 while the completions stay within what the
      habits could have had. */
  lemma WeeklyRatioAtMostHundred(completions: int, habitCount: nat, weekday: int)
    requires 0 <= weekday <= 6
    requires 0 <= completions <= habitCount * DaysPassed(weekday)
    ensures 0 <= WeeklyRatio(completions, habitCount, weekday) <= 100
  {
    if habitCount > 0 {
      var possible := habitCount * DaysPassed(weekday);
      var percent := WeeklyRatio(completions, habitCount, weekday);
      assert possible > 0 by {
        MulStrictMono(habitCount, 0, DaysPassed(weekday));
      }
      assert 2 * possible * percent - possible == possible * (2 * percent - 1);
      assert 2 * possible * percent + possible == possible * (2 * percent + 1);
      if percent > 100 {
        MulStrictMono(possible, 200, 2 * percent - 1);
      }
      if percent < 0 {
        MulStrictMono(possible, 2 * percent + 1, 0);
      }
    }
  }

  /** Multiplying by a positive factor keeps a strict order. */
  lemma MulStrictMono(p: int, a: int, b: int)
    requires p > 0 && a < b
    ensures p * a < p * b
  {
  }

  /** Repeat-free dates between `monday` and `today` number at most the days
      between them. */
  lemma DatesSinceBound(dates: seq<Day>, monday: Day, today: Day)
    requires UpTo(dates, today) && monday <= today + 1
    ensures |DatesSince(dates, monday)| <= today - monday + 1
  {
    FilterMembers(dates, OnOrAfter(monday));
    FilterKeepsNoDup(dates, OnOrAfter(monday));
    NoDupWithinSpan(DatesSince(dates, monday), monday, today);
  }

  /** A habit's dates are free of repeats and none lies after `today`. */
  ghost predicate UpTo(dates: seq<Day>, today: Day)
  {
    NoDup(dates) && forall d :: d in dates ==> d <= today
  }

  /** With repeat-free dates none after today, the week's completions are
      at most habits times the days since Monday. */
  lemma {:induction false} CompletionsWithinWeek(habits: seq<Habit>, monday: Day, today: Day)
    requires monday <= today + 1
    requires forall h :: h in habits ==> UpTo(h.completedDates, today)
    ensures CompletionsSince(habits, monday) <= |habits| * (today - monday + 1)
  {
    if |habits| > 0 {
      var n := |habits| - 1;
      var init, last := habits[..n], habits[n];
      var week := today - monday + 1;
      assert CompletionsSince(habits, monday) ==
             CompletionsSince(init, monday) + |DatesSince(last.completedDates, monday)|;
      assert forall h :: h in init ==> h in habits;
      CompletionsWithinWeek(init, monday, today);
      assert last in habits;
      assert UpTo(last.completedDates, today);
      DatesSinceBound(last.completedDates, monday, today);
      MulSucc(n, week);
    }
  }

  /** The week's ratio never exceeds 100 percent when Monday and the weekday
      agree on how many days of the week have passed. The engine reads Monday
      in local time and today in UTC, which can break that agreement. */
  lemma WeeklyProgressAtMostHundred(habits: seq<Habit>, monday: Day, today: Day, weekday: int)
    requires 0 <= weekday <= 6 && today - monday + 1 == DaysPassed(weekday)
    requires forall h :: h in habits ==> UpTo(h.completedDates, today)
    ensures 0 <= WeeklyRatio(CompletionsSince(habits, monday), |habits|, weekday) <= 100
  {
    CompletionsWithinWeek(habits, monday, today);
    WeeklyRatioAtMostHundred(CompletionsSince(habits, monday), |habits|, weekday);
  }

  /** Worked case where exact half-up rounding and the engine's floating
      point part ways: 23 of 40 is exactly 57.5 percent, rounded to 58. */
  lemma WeeklyRoundingAtHalf()
    ensures DaysPassed(5) == 5
    ensures WeeklyRatio(23, 8, 5) == 58
  {
  }

  lemma MulSucc(n: int, k: int)
    ensures n * k + k == (n + 1) * k
  {
  }

  /** Worked example: two habits, one completion, a Wednesday: 17 percent. */
  lemma WeeklyExample()
    ensures DaysPassed(3) == 3
    ensures WeeklyRatio(1, 2, 3) == 17
  {
  }
}
