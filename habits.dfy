/** Habit records and the pure operations on the habit list: the completion
    toggle on a habit's dates, lookup by id, removal by id, the category
    filter and the count of habits completed today. Dates are day numbers. */
module Habits {
  import opened Seqs

  /** A calendar date as a day number: consecutive days differ by one. */
  type Day = int

  /** A persisted habit record. */
  datatype Habit = Habit(
    id: string,
    name: string,
    category: string,
    target: string,
    completedDates: seq<Day>,
    createdAt: string)

  /** The category filter that shows every habit. */
  const ALL: string := "all"

  /** A habit's dates after toggling `today`: appended when absent, its first
      occurrence removed when present. */
  function Toggled(dates: seq<Day>, today: Day): (r: seq<Day>)
    ensures today !in dates ==> multiset(r) == multiset(dates) + multiset{today}
    ensures today in dates ==> multiset(r) == multiset(dates) - multiset{today}
    ensures today in dates ==> |r| == |dates| - 1
    ensures today !in dates ==> |r| == |dates| + 1
  {
    var index := IndexOf(dates, today);
    if index == -1 then
      assert multiset(dates + [today]) == multiset(dates) + multiset{today};
      dates + [today]
    else
      RemoveAt(dates, index)
  }

  /** Toggling completes the day when it was not completed and un-completes
      it when it was, changing the number of dates by one. */
  lemma ToggleDirection(dates: seq<Day>, today: Day)
    requires NoDup(dates)
    ensures today in Toggled(dates, today) <==> today !in dates
    ensures |Toggled(dates, today)| == if today in dates then |dates| - 1 else |dates| + 1
  {
    if today in dates {
      var r := Toggled(dates, today);
      assert multiset(dates)[today] == 1;
      assert multiset(r)[today] == 0;
    }
  }

  /** Toggling touches no other day. */
  lemma ToggleOnlyTouchesToday(dates: seq<Day>, today: Day, d: Day)
    requires d != today
    ensures multiset(Toggled(dates, today))[d] == multiset(dates)[d]
  {
  }

  /** Toggling keeps a habit's dates free of repeats. */
  lemma ToggleKeepsNoDup(dates: seq<Day>, today: Day)
    requires NoDup(dates)
    ensures NoDup(Toggled(dates, today))
  {
    if today !in dates {
      AppendFreshKeepsNoDup(dates, today);
    }
  }

  /** Toggling the same day twice restores the same dates (up to order). */
  lemma {:induction false} ToggleTwice(dates: seq<Day>, today: Day)
    requires NoDup(dates)
    ensures multiset(Toggled(Toggled(dates, today), today)) == multiset(dates)
    ensures Elems(Toggled(Toggled(dates, today), today)) == Elems(dates)
  {
    var once := Toggled(dates, today);
    var twice := Toggled(once, today);
    ToggleDirection(dates, today);
    if today in dates {
      assert multiset(dates)[today] == 1;
      assert multiset(once) == multiset(dates) - multiset{today};
      assert multiset(twice) == multiset(once) + multiset{today};
    } else {
      assert IndexOf(once, today) == |dates|;
      assert twice == dates;
    }
    forall x ensures x in twice <==> x in dates {
      assert x in twice <==> x in multiset(twice);
      assert x in dates <==> x in multiset(dates);
    }
  }

  /** Every date any habit has completed, each once. */
  ghost function AllDates(habits: seq<Habit>): (days: set<Day>)
    ensures forall k, d :: 0 <= k < |habits| && d in habits[k].completedDates ==> d in days
  {
    if |habits| == 0 then {}
    else AllDates(habits[..|habits| - 1]) + Elems(habits[|habits| - 1].completedDates)
  }

  /** The union holds nothing but habit dates: every day in it was
      completed by some habit. */
  lemma {:induction false} AllDatesOnlyHabitDates(habits: seq<Habit>, d: Day)
    requires d in AllDates(habits)
    ensures exists k :: 0 <= k < |habits| && d in habits[k].completedDates
  {
    var n := |habits| - 1;
    if d !in habits[n].completedDates {
      var init := habits[..n];
      AllDatesOnlyHabitDates(init, d);
      var k :| 0 <= k < n && d in init[k].completedDates;
      assert init[k] == habits[k];
    }
  }

  /** The ids of the habits, in list order. */
  function Ids(habits: seq<Habit>): (ids: seq<string>)
    ensures |ids| == |habits|
    ensures forall k :: 0 <= k < |habits| ==> ids[k] == habits[k].id
  {
    seq(|habits|, k requires 0 <= k < |habits| => habits[k].id)
  }

  /** Position of the first habit with `id`, or -1 (JavaScript `find`). */
  function FindHabit(habits: seq<Habit>, id: string): (k: int)
    ensures k == -1 <==> forall j :: 0 <= j < |habits| ==> habits[j].id != id
    ensures k != -1 ==> 0 <= k < |habits| && habits[k].id == id &&
                        forall j :: 0 <= j < k ==> habits[j].id != id
  {
    var ids := Ids(habits);
    var k := IndexOf(ids, id);
    assert k != -1 ==> forall j :: 0 <= j < k ==> ids[..k][j] == habits[j].id;
    assert k == -1 ==> forall j :: 0 <= j < |habits| ==> ids[j] != id;
    k
  }

  /** The filter conditions the engine passes to `filter`. */
  function KeepsOtherIds(id: string): Habit -> bool
  {
    (h: Habit) => h.id != id
  }

  function InCategory(category: string): Habit -> bool
  {
    (h: Habit) => h.category == category
  }

  function DoneOn(day: Day): Habit -> bool
  {
    (h: Habit) => day in h.completedDates
  }

  /** The habit list without the habits carrying `id`. */
  function WithoutId(habits: seq<Habit>, id: string): (r: seq<Habit>)
    ensures forall h :: h in r <==> h in habits && h.id != id
  {
    FilterMembers(habits, KeepsOtherIds(id));
    Filter(habits, KeepsOtherIds(id))
  }

  /** Deleting keeps the other habits in their original order. */
  lemma WithoutIdKeepsOrder(a: seq<Habit>, b: seq<Habit>, id: string)
    ensures WithoutId(a + b, id) == WithoutId(a, id) + WithoutId(b, id)
  {
    FilterAppend(a, b, KeepsOtherIds(id));
  }

  /** Deleting an id no habit has leaves the list as it was. */
  lemma WithoutUnknownId(habits: seq<Habit>, id: string)
    requires forall h :: h in habits ==> h.id != id
    ensures WithoutId(habits, id) == habits
  {
    FilterKeepsAll(habits, KeepsOtherIds(id));
  }

  /** The habits a category filter shows: all of them for "all", otherwise
      those whose category equals the filter. */
  function Visible(habits: seq<Habit>, filter: string): (r: seq<Habit>)
    ensures forall h :: h in r <==> h in habits && (filter == ALL || h.category == filter)
    ensures filter == ALL ==> r == habits
  {
    if filter != ALL then
      FilterMembers(habits, InCategory(filter));
      Filter(habits, InCategory(filter))
    else habits
  }

  /** The category filter keeps the shown habits in list order. */
  lemma VisibleKeepsOrder(a: seq<Habit>, b: seq<Habit>, filter: string)
    ensures Visible(a + b, filter) == Visible(a, filter) + Visible(b, filter)
  {
    if filter != ALL {
      FilterAppend(a, b, InCategory(filter));
    }
  }

  /** The number of habits whose dates include `today`. */
  function CompletedToday(habits: seq<Habit>, today: Day): (n: nat)
    ensures n <= |habits|
    ensures n == 0 <==> forall h :: h in habits ==> today !in h.completedDates
    ensures n == |set k: nat | k < |habits| && today in habits[k].completedDates|
  {
    var done := Filter(habits, DoneOn(today));
    FilterMembers(habits, DoneOn(today));
    DoneOnCountsPositions(habits, today);
    assert |done| > 0 ==> done[0] in done;
    |done|
  }

  lemma DoneOnCountsPositions(habits: seq<Habit>, today: Day)
    ensures |Filter(habits, DoneOn(today))| ==
            |set k: nat | k < |habits| && today in habits[k].completedDates|
  {
    FilterCountsPositions(habits, DoneOn(today));
    var a := Positions(habits, DoneOn(today));
    var b := set k: nat | k < |habits| && today in habits[k].completedDates;
    assert a == b;
  }

  /** Toggling one habit moves today's completed count by exactly one, up
      when the habit becomes completed and down when it is un-completed. */
  lemma ToggleShiftsCompletedToday(habits: seq<Habit>, k: nat, today: Day)
    requires k < |habits| && NoDup(habits[k].completedDates)
    ensures var h := habits[k];
            CompletedToday(habits[k := h.(completedDates := Toggled(h.completedDates, today))], today) ==
            if today in h.completedDates then CompletedToday(habits, today) - 1
            else CompletedToday(habits, today) + 1
  {
    var h := habits[k];
    ToggleDirection(h.completedDates, today);
    FilterCountUpdate(habits, k, h.(completedDates := Toggled(h.completedDates, today)),
                      DoneOn(today));
  }
}
