/**
 * The home page's month widget: blank padding cells up to the weekday of the
 * 1st, then one cell per day of the displayed month, each linking to that
 * day's workout editor and showing a dot for a planned or completed workout.
 */
module CalendarWidget {
  import opened Wrappers
  import opened Types
  import opened Dates
  import Lists
  import WorkoutEditing

  const DayHeaders: seq<string> := ["S", "M", "T", "W", "T", "F", "S"]

  /** The three states of a day cell's marker. */
  datatype Dot = NoDot | Planned | Completed

  datatype DayCell = DayCell(date: Date, link: string, isToday: bool, dot: Dot)

  datatype MonthView = MonthView(padding: nat, days: seq<DayCell>)

  /** `eachDayOfInterval(startOfMonth, endOfMonth)`. */
  function MonthDays(y: int, m: int): (r: seq<Date>)
    requires 1 <= m <= 12
    ensures |r| == DaysInMonth(y, m)
    ensures forall i :: 0 <= i < |r| ==> r[i] == Date(y, m, i + 1) && ValidDate(r[i])
  {
    seq(DaysInMonth(y, m), i requires 0 <= i < DaysInMonth(y, m) => Date(y, m, i + 1))
  }

  /** The month's days run from the 1st to the last day, each the day after the one before. */
  lemma MonthDaysConsecutive(y: int, m: int)
    requires 1 <= m <= 12
    ensures MonthDays(y, m)[0] == Date(y, m, 1)
    ensures MonthDays(y, m)[|MonthDays(y, m)| - 1] == Date(y, m, DaysInMonth(y, m))
    ensures forall i :: 0 <= i < |MonthDays(y, m)| - 1 ==> NextDay(MonthDays(y, m)[i]) == MonthDays(y, m)[i + 1]
  {
  }

  /** `workouts.find(w => w.date === format(date, 'yyyy-MM-dd'))`. */
  function WorkoutForDate(ws: seq<Workout>, d: Date): Option<Workout>
    requires ValidDate(d)
  {
    Lists.FindFirst(ws, WorkoutDateOf, FormatYMD(d))
  }

  function DotOf(found: Option<Workout>): Dot
  {
    match found
    case None => NoDot
    case Some(w) => if w.completed then Completed else Planned
  }

  function DayLink(d: Date): string
    requires ValidDate(d)
  {
    "/workout/" + FormatYMD(d)
  }

  function Cell(d: Date, today: Date, ws: seq<Workout>): DayCell
    requires ValidDate(d)
  {
    DayCell(d, DayLink(d), d == today, DotOf(WorkoutForDate(ws, d)))
  }

  /** The grid for the month that contains current. */
  function View(current: Date, today: Date, ws: seq<Workout>): (v: MonthView)
    requires ValidDate(current)
    ensures v.padding == Weekday(Date(current.year, current.month, 1))
    ensures |v.days| == DaysInMonth(current.year, current.month)
    ensures forall i :: 0 <= i < |v.days| ==> v.days[i] == Cell(Date(current.year, current.month, i + 1), today, ws)
  {
    var days := MonthDays(current.year, current.month);
    MonthView(Weekday(days[0]), seq(|days|, i requires 0 <= i < |days| => Cell(days[i], today, ws)))
  }

  /** With the padding in front, every day lands in the column of its weekday. */
  lemma DaysInWeekdayColumns(current: Date, today: Date, ws: seq<Workout>, i: nat)
    requires ValidDate(current)
    requires i < DaysInMonth(current.year, current.month)
    ensures var v := View(current, today, ws);
            Weekday(v.days[i].date) == (v.padding + i) % 7
  {
    DayNumberInMonth(current.year, current.month, 1, i + 1);
  }

  /**
   * A day shows a dot exactly when some workout has that day's date; the dot is
   * "completed" exactly when the first such workout is completed.
   */
  lemma DotSpec(ws: seq<Workout>, d: Date)
    requires ValidDate(d)
    ensures DotOf(WorkoutForDate(ws, d)) != NoDot <==> exists j :: 0 <= j < |ws| && ws[j].date == FormatYMD(d)
    ensures DotOf(WorkoutForDate(ws, d)) == Completed <==>
            exists j :: 0 <= j < |ws| && ws[j].date == FormatYMD(d) && ws[j].completed &&
                        forall k :: 0 <= k < j ==> ws[k].date != FormatYMD(d)
  {
    var key := FormatYMD(d);
    if exists j :: 0 <= j < |ws| && ws[j].date == key && ws[j].completed &&
                   forall k :: 0 <= k < j ==> ws[k].date != key {
      var j :| 0 <= j < |ws| && ws[j].date == key && ws[j].completed &&
               forall k :: 0 <= k < j ==> ws[k].date != key;
      Lists.FindFirstIsAt(ws, WorkoutDateOf, key, j);
    }
  }

  /**
   * A cell's link names its own date, and the editor it opens is read-only
   * exactly for days before today.
   */
  lemma LinkOpensDay(d: Date, today: Date)
    requires ValidDate(d) && 1 <= d.year <= 9999
    ensures DayLink(d) == "/workout/" + FormatYMD(d)
    ensures ParseISODate(DayLink(d)[|"/workout/"|..]) == Some(d)
    ensures WorkoutEditing.IsReadOnly(DayLink(d)[|"/workout/"|..], today) <==> Before(d, today)
  {
    assert DayLink(d)[|"/workout/"|..] == FormatYMD(d);
    ParseFormatYMD(d);
    WorkoutEditing.ReadOnlyIffPast(d, today);
  }

  /** The arrows: `addMonths(currentDate, 1)` and `subMonths(currentDate, 1)`. */
  function NextMonthDate(d: Date): (r: Date)
    requires ValidDate(d)
    ensures ValidDate(r)
    ensures MonthIndex(r.year, r.month) == MonthIndex(d.year, d.month) + 1
  {
    AddMonths(d, 1)
  }

  function PrevMonthDate(d: Date): (r: Date)
    requires ValidDate(d)
    ensures ValidDate(r)
    ensures MonthIndex(r.year, r.month) == MonthIndex(d.year, d.month) - 1
  {
    SubMonths(d, 1)
  }

  /** The grid depends only on the displayed year and month, not on the day within it. */
  lemma ViewDependsOnMonthOnly(a: Date, b: Date, today: Date, ws: seq<Workout>)
    requires ValidDate(a) && ValidDate(b)
    requires MonthIndex(a.year, a.month) == MonthIndex(b.year, b.month)
    ensures View(a, today, ws) == View(b, today, ws)
  {
    IndexOfMonth(a.year, a.month);
    IndexOfMonth(b.year, b.month);
  }

  /** Forward then back shows the same grid again, although the day may have been clamped. */
  lemma NextThenPrevSameView(d: Date, today: Date, ws: seq<Workout>)
    requires ValidDate(d)
    ensures View(PrevMonthDate(NextMonthDate(d)), today, ws) == View(d, today, ws)
  {
    ViewDependsOnMonthOnly(PrevMonthDate(NextMonthDate(d)), d, today, ws);
  }

  /** The clamp: from January 31st one month forward is the last day of February. */
  lemma NextMonthClampsDay()
    ensures NextMonthDate(Date(2025, 1, 31)) == Date(2025, 2, 28)
    ensures NextMonthDate(Date(2024, 1, 31)) == Date(2024, 2, 29)
  {
    assert MonthIndex(2025, 1) + 1 == 24301 && 24301 / 12 == 2025 && 24301 % 12 == 1;
    assert MonthIndex(2024, 1) + 1 == 24289 && 24289 / 12 == 2024 && 24289 % 12 == 1;
  }
}
