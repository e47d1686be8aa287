/** Streak computation. Both the global streak and the per-habit streak sort
    their dates newest first and then walk back from the newest date while
    each date is exactly one day before the one counted last. */
module Streaks {
  import opened Seqs

  /** The length of the run at the front of `s` in which every date is one
      day before the previous one. */
  function RunLength(s: seq<int>): (n: nat)
    ensures n <= |s|
    ensures |s| > 0 ==> n >= 1
  {
    if |s| <= 1 then |s|
    else if s[0] == s[1] + 1 then 1 + RunLength(s[1..])
    else 1
  }

  /** The first `n` dates of `s` step back one day at a time. */
  ghost predicate OneDaySteps(s: seq<int>, n: nat)
    requires n <= |s|
  {
    forall j :: 0 < j < n ==> s[j - 1] == s[j] + 1
  }

  /** The run is a chain of one-day steps that stops at the first gap. */
  lemma {:induction false} RunLengthStopsAtGap(s: seq<int>)
    ensures OneDaySteps(s, RunLength(s))
    ensures 0 < RunLength(s) < |s| ==> s[RunLength(s) - 1] != s[RunLength(s)] + 1
  {
    if |s| > 1 && s[0] == s[1] + 1 {
      RunLengthStopsAtGap(s[1..]);
    }
  }

  /** The streak of dates sorted newest first: 0 when there are none or the
      newest is neither today nor yesterday, otherwise the run length. */
  function Streak(sorted: seq<int>, today: int): (n: nat)
    ensures n <= |sorted|
    ensures n == 0 <==> |sorted| == 0 || (sorted[0] != today && sorted[0] != today - 1)
  {
    if |sorted| == 0 then 0
    else if sorted[0] != today && sorted[0] != today - 1 then 0
    else RunLength(sorted)
  }

  /** The counting loop shared by `calculateStreak` and
      `calculateHabitStreak`, over dates already sorted newest first. */
  method CountStreak(sorted: seq<int>, today: int) returns (streak: nat)
    ensures streak == Streak(sorted, today)
  {
    if |sorted| == 0 {
      return 0;
    }
    if sorted[0] != today && sorted[0] != today - 1 {
      return 0;
    }
    streak := 1;
    var last := sorted[0];
    var i := 1;
    while i < |sorted|
      invariant 1 <= i <= |sorted|
      invariant last == sorted[i - 1]
      invariant RunLength(sorted) == (streak - 1) + RunLength(sorted[i - 1..])
      invariant streak == i
    {
      var prev := sorted[i];
      assert sorted[i - 1..][1..] == sorted[i..];
      if last - prev == 1 {
        streak := streak + 1;
        last := prev;
      } else {
        break;
      }
      i := i + 1;
    }
  }

  /** Reference definition on a set of days: how many days in a row, going
      back from `d`, belong to `days`. */
  ghost function CountBack(days: set<int>, d: int): (n: nat)
    ensures n <= |days|
    decreases |days|
  {
    if d in days then 1 + CountBack(days - {d}, d - 1) else 0
  }

  /** Reference definition of a streak on the set of completed days: 0 when
      some day lies after today, otherwise the days in a row ending today, or
      ending yesterday when today is not completed. */
  ghost function DayRun(days: set<int>, today: int): (n: nat)
    ensures n <= |days|
  {
    if exists d :: d in days && d > today then 0
    else if today in days then CountBack(days, today)
    else CountBack(days, today - 1)
  }

  /** Every day of the run lies in the set and the day before the run does
      not: older runs behind a gap are not counted. */
  lemma {:induction false} CountBackIsRun(days: set<int>, d: int)
    ensures forall e :: d - CountBack(days, d) < e <= d ==> e in days
    ensures d - CountBack(days, d) !in days
    decreases |days|
  {
    if d in days {
      var rest := days - {d};
      CountBackIsRun(rest, d - 1);
      assert CountBack(days, d) == 1 + CountBack(rest, d - 1);
      forall e | d - CountBack(days, d) < e <= d
        ensures e in days
      {
        if e < d {
          assert e in rest;
        }
      }
    }
  }

  /** On strictly decreasing dates the run length is the count back from the
      newest date. */
  lemma {:induction false} RunLengthIsCountBack(s: seq<int>)
    requires |s| > 0 && StrictlyDescending(s)
    ensures RunLength(s) == CountBack(Elems(s), s[0])
  {
    var days := Elems(s);
    assert s == [s[0]] + s[1..];
    var rest := days - {s[0]};
    assert rest == Elems(s[1..]);
    if |s| == 1 {
      assert rest == {};
    } else if s[0] == s[1] + 1 {
      RunLengthIsCountBack(s[1..]);
    } else {
      assert s[0] - 1 !in rest;
    }
  }

  /** The sorted streak equals the set-based reference definition. */
  lemma StreakIsDayRun(s: seq<int>, today: int)
    requires StrictlyDescending(s)
    ensures Streak(s, today) == DayRun(Elems(s), today)
  {
    var days := Elems(s);
    if |s| > 0 {
      assert forall d :: d in days ==> d <= s[0];
      RunLengthIsCountBack(s);
      if s[0] > today {
        assert s[0] in days;
      } else if s[0] == today - 1 {
        assert today !in days;
      } else if s[0] < today - 1 {
        assert today !in days && today - 1 !in days;
      }
    } else {
      assert days == {};
    }
  }

  /** Worked examples: days {today, yesterday, today-2} give 3; {today,
      today-3} give 1; a single completion two days ago gives 0. */
  lemma StreakExamples(today: int)
    ensures Streak([today, today - 1, today - 2], today) == 3
    ensures Streak([today, today - 3], today) == 1
    ensures Streak([today - 2], today) == 0
    ensures Streak([], today) == 0
  {
    var s := [today, today - 1, today - 2];
    assert s[1..][1..] == [today - 2];
    assert RunLength(s[1..]) == 2;
    assert [today, today - 3][1..] == [today - 3];
  }
}
