/**
 * The training calendar: whole weeks from the Sunday on or before the 1st to
 * the Saturday on or after the last day of the month, each day marked when the
 * weekly plan has exercises for its weekday name, and dimmed outside the month.
 */
module MonthCalendar {
  import opened Wrappers
  import opened Dates

  /** `new Date(2025, 10, 25)`: the month shown first is November 2025. */
  const InitialMonth: Date := Date(2025, 11, 25)

  /** The trailing days of the month before that fill the first week. */
  function LeadingDays(y: int, m: int): (r: seq<Date>)
    requires 1 <= m <= 12
    ensures |r| == Weekday(Date(y, m, 1))
  {
    var wf := Weekday(Date(y, m, 1));
    var (py, pm) := PrevMonth(y, m);
    var dp := DaysInMonth(py, pm);
    seq(wf, i requires 0 <= i < wf => Date(py, pm, dp - wf + 1 + i))
  }

  /** The first days of the month after that complete the last week. */
  function TrailingDays(y: int, m: int): (r: seq<Date>)
    requires 1 <= m <= 12
    ensures |r| == 6 - Weekday(Date(y, m, DaysInMonth(y, m)))
  {
    var wl := Weekday(Date(y, m, DaysInMonth(y, m)));
    var (ny, nm) := NextMonth(y, m);
    seq(6 - wl, i requires 0 <= i < 6 - wl => Date(ny, nm, i + 1))
  }

  function MonthDays(y: int, m: int): (r: seq<Date>)
    requires 1 <= m <= 12
    ensures |r| == DaysInMonth(y, m)
    ensures forall i :: 0 <= i < |r| ==> r[i] == Date(y, m, i + 1)
  {
    seq(DaysInMonth(y, m), i requires 0 <= i < DaysInMonth(y, m) => Date(y, m, i + 1))
  }

  /** `eachDayOfInterval(startOfWeek(startOfMonth), endOfWeek(endOfMonth))`. */
  function WeekGrid(y: int, m: int): (g: seq<Date>)
    requires 1 <= m <= 12
    ensures forall i :: 0 <= i < |g| ==> ValidDate(g[i])
  {
    LeadingDays(y, m) + MonthDays(y, m) + TrailingDays(y, m)
  }

  /** The month's days sit right after the leading days: cell wf + k - 1 is day k. */
  lemma GridContainsMonth(y: int, m: int)
    requires 1 <= m <= 12
    ensures Weekday(Date(y, m, 1)) + DaysInMonth(y, m) <= |WeekGrid(y, m)|
    ensures forall i :: Weekday(Date(y, m, 1)) <= i < Weekday(Date(y, m, 1)) + DaysInMonth(y, m) ==>
              WeekGrid(y, m)[i] == Date(y, m, i - Weekday(Date(y, m, 1)) + 1)
  {
    var lead, days, trail := LeadingDays(y, m), MonthDays(y, m), TrailingDays(y, m);
    var wf := Weekday(Date(y, m, 1));
    assert |lead| == wf;
    forall i | wf <= i < wf + DaysInMonth(y, m)
      ensures WeekGrid(y, m)[i] == Date(y, m, i - wf + 1)
    {
      MiddleIndex(lead, days, trail, i - wf);
    }
  }

  lemma MiddleIndex<T>(a: seq<T>, b: seq<T>, c: seq<T>, i: nat)
    requires i < |b|
    ensures |a| + i < |a + b + c| && (a + b + c)[|a| + i] == b[i]
  {
  }

  /** A cell is in the displayed month exactly when it lies in the month's stretch of the grid. */
  lemma InMonthIffInStretch(y: int, m: int)
    requires 1 <= m <= 12
    ensures var g := WeekGrid(y, m);
            var wf := Weekday(Date(y, m, 1));
            forall i :: 0 <= i < |g| ==>
              (InMonth(g[i], Date(y, m, 1)) <==> wf <= i < wf + DaysInMonth(y, m))
  {
    var (py, pm) := PrevMonth(y, m);
    var (ny, nm) := NextMonth(y, m);
    assert MonthIndex(py, pm) != MonthIndex(y, m) && MonthIndex(ny, nm) != MonthIndex(y, m);
  }

  /** Each cell is the day after the cell before it. */
  lemma GridConsecutive(y: int, m: int)
    requires 1 <= m <= 12
    ensures var g := WeekGrid(y, m);
            forall i :: 0 <= i < |g| - 1 ==> NextDay(g[i]) == g[i + 1]
  {
    var g := WeekGrid(y, m);
    var lead, days, trail := LeadingDays(y, m), MonthDays(y, m), TrailingDays(y, m);
    var wf, dim := |lead|, |days|;
    forall i | 0 <= i < |g| - 1
      ensures NextDay(g[i]) == g[i + 1]
    {
      if i < wf - 1 {
      } else if i == wf - 1 {
        FirstAfterPrevLast(y, m);
      } else if i < wf + dim - 1 {
      } else if i == wf + dim - 1 {
        assert g[i] == Date(y, m, dim);
      } else {
      }
    }
  }

  /** The first cell is a Sunday. */
  lemma GridStartsSunday(y: int, m: int)
    requires 1 <= m <= 12
    ensures |WeekGrid(y, m)| > 0 && Weekday(WeekGrid(y, m)[0]) == 0
  {
    var g := WeekGrid(y, m);
    var wf := Weekday(Date(y, m, 1));
    if wf > 0 {
      var (py, pm) := PrevMonth(y, m);
      var dp := DaysInMonth(py, pm);
      var first := Date(py, pm, dp - wf + 1);
      var last := Date(py, pm, dp);
      assert g[0] == first;
      var w0 := Weekday(first);
      DayNumberInMonth(py, pm, dp - wf + 1, dp);
      FirstAfterPrevLast(y, m);
      WeekdayCountsOn(last, Date(y, m, 1), w0 + wf - 1);
      ZeroOffset(w0, wf);
    }
  }

  lemma ZeroOffset(w0: int, wf: int)
    requires 0 <= w0 < 7 && 0 < wf < 7 && (w0 + wf) % 7 == wf
    ensures w0 == 0
  {
  }

  /** Cell i falls on weekday i mod 7. */
  lemma {:induction false} GridWeekday(y: int, m: int, i: nat)
    requires 1 <= m <= 12
    requires i < |WeekGrid(y, m)|
    ensures Weekday(WeekGrid(y, m)[i]) == i % 7
  {
    if i == 0 {
      GridStartsSunday(y, m);
    } else {
      var g := WeekGrid(y, m);
      GridWeekday(y, m, i - 1);
      GridConsecutive(y, m);
      WeekdayCountsOn(g[i - 1], g[i], i - 1);
    }
  }

  /** The grid is whole weeks, ending on a Saturday. */
  lemma GridWholeWeeks(y: int, m: int)
    requires 1 <= m <= 12
    ensures |WeekGrid(y, m)| % 7 == 0
    ensures Weekday(WeekGrid(y, m)[|WeekGrid(y, m)| - 1]) == 6
  {
    var len := |WeekGrid(y, m)|;
    var q := (Weekday(Date(y, m, 1)) + DaysInMonth(y, m) - 1) / 7;
    GridLength(y, m);
    assert len == 7 * (q + 1) && len - 1 == 7 * q + 6;
    MultipleOfSeven(q + 1);
    MultipleOfSeven(q);
    GridWeekday(y, m, len - 1);
  }

  /** The grid runs from the first column to the last column of the weeks it spans. */
  lemma GridLength(y: int, m: int)
    requires 1 <= m <= 12
    ensures |WeekGrid(y, m)| == 7 * ((Weekday(Date(y, m, 1)) + DaysInMonth(y, m) - 1) / 7 + 1)
  {
    var dim := DaysInMonth(y, m);
    var wf := Weekday(Date(y, m, 1));
    DayNumberInMonth(y, m, 1, dim);
    var n := wf + dim - 1;
    var q := n / 7;
    assert Weekday(Date(y, m, dim)) == n % 7;
    assert n == 7 * q + n % 7;
  }

  lemma MultipleOfSeven(q: int)
    ensures (7 * q) % 7 == 0 && (7 * q + 6) % 7 == 6
  {
  }

  /** The initial view: six weeks, from Sunday, October 26th to Saturday, December 6th, 2025. */
  lemma InitialGrid()
    ensures |WeekGrid(InitialMonth.year, InitialMonth.month)| == 42
    ensures WeekGrid(InitialMonth.year, InitialMonth.month)[0] == Date(2025, 10, 26)
    ensures WeekGrid(InitialMonth.year, InitialMonth.month)[41] == Date(2025, 12, 6)
  {
    WeekdayOfNovemberFirst2025();
    DayNumberInMonth(2025, 11, 1, 30);
  }

  /** `isSameMonth(day, currentMonth)`. */
  predicate InMonth(d: Date, current: Date)
  {
    d.year == current.year && d.month == current.month
  }

  /** `workoutData[format(day, 'EEEE')]` is present and non-empty. */
  predicate HasWorkout<T>(workoutData: map<string, seq<T>>, d: Date)
    requires ValidDate(d)
  {
    WeekdayName(d) in workoutData && |workoutData[WeekdayName(d)]| > 0
  }

  /** The plan is weekly: cells in the same column of the grid agree on having a workout. */
  lemma HasWorkoutPerColumn<T>(workoutData: map<string, seq<T>>, y: int, m: int, i: nat, j: nat)
    requires 1 <= m <= 12
    requires i < |WeekGrid(y, m)| && j < |WeekGrid(y, m)| && i % 7 == j % 7
    ensures HasWorkout(workoutData, WeekGrid(y, m)[i]) == HasWorkout(workoutData, WeekGrid(y, m)[j])
  {
    GridWeekday(y, m, i);
    GridWeekday(y, m, j);
  }

  /** `/training/` followed by the day as yyyy-MM-dd. */
  function DayTarget(d: Date): string
    requires ValidDate(d)
  {
    "/training/" + FormatYMD(d)
  }

  /** The click target names the clicked day: its date part reads back as that day. */
  lemma DayTargetNamesDay(d: Date)
    requires ValidDate(d) && 1 <= d.year <= 9999
    ensures DayTarget(d)[..|"/training/"|] == "/training/"
    ensures ParseISODate(DayTarget(d)[|"/training/"|..]) == Some(d)
  {
    assert DayTarget(d)[|"/training/"|..] == FormatYMD(d);
    ParseFormatYMD(d);
  }

  datatype CalendarCell = CalendarCell(date: Date, inMonth: bool, isToday: bool, hasWorkout: bool, target: string)

  function Cells<T>(current: Date, today: Date, workoutData: map<string, seq<T>>): seq<CalendarCell>
    requires 1 <= current.month <= 12
  {
    var g := WeekGrid(current.year, current.month);
    seq(|g|, i requires 0 <= i < |g| =>
      CalendarCell(g[i], InMonth(g[i], current), g[i] == today, HasWorkout(workoutData, g[i]), DayTarget(g[i])))
  }

  /** The dimmed cells are exactly those outside the month's stretch of the grid. */
  lemma DimmedOutsideMonth<T>(current: Date, today: Date, workoutData: map<string, seq<T>>, i: nat)
    requires ValidDate(current)
    requires i < |WeekGrid(current.year, current.month)|
    ensures var wf := Weekday(Date(current.year, current.month, 1));
            !Cells(current, today, workoutData)[i].inMonth <==>
              i < wf || wf + DaysInMonth(current.year, current.month) <= i
  {
    InMonthIffInStretch(current.year, current.month);
  }
}
