/**
 * The spreadsheet-to-program converter: the Day column is forward-filled, then
 * every row whose Turkish day name is one of the mapped days is appended, as
 * an exercise, to the list of the corresponding English day name.
 */
module ConvertData {
  import opened Wrappers
  import opened Dates
  import MonthCalendar

  /** A spreadsheet cell: None is an empty (NaN) cell. */
  type Cell = Option<string>

  datatype Row = Row(day: Cell, exercise: Cell, setsReps: Cell, rir: Cell)

  /** One exercise of the output; a missing RIR becomes the empty text. */
  datatype JsonExercise = JsonExercise(name: Cell, setsReps: Cell, rir: string)

  /** The day names the converter keeps; Pazartesi (Monday) and Cuma (Friday) are not among them. */
  const DayMap: map<string, string> := map[
    "Salı" := "Tuesday",
    "Çarşamba" := "Wednesday",
    "Perşembe" := "Thursday",
    "Cumartesi" := "Saturday",
    "Pazar" := "Sunday"]

  const OutputDays: set<string> := {"Tuesday", "Wednesday", "Thursday", "Saturday", "Sunday"}

  lemma DayMapValues()
    ensures forall k :: k in DayMap ==> DayMap[k] in OutputDays
    ensures "Pazartesi" !in DayMap && "Cuma" !in DayMap
  {
  }

  // ----- Forward fill -----

  /** The last non-empty cell of s, or None when every cell is empty. */
  function LastPresent(s: seq<Cell>): Cell
  {
    if |s| == 0 then None
    else if s[|s| - 1].Some? then s[|s| - 1]
    else LastPresent(s[..|s| - 1])
  }

  /** It is empty exactly when every cell is. */
  lemma {:induction false} LastPresentNoneIff(s: seq<Cell>)
    ensures LastPresent(s).None? <==> forall j :: 0 <= j < |s| ==> s[j].None?
  {
    if |s| > 0 && s[|s| - 1].None? {
      var init := s[..|s| - 1];
      LastPresentNoneIff(init);
      assert forall j :: 0 <= j < |init| ==> init[j] == s[j];
    }
  }

  /** Otherwise it is one of the cells, and only empty cells come after it. */
  lemma {:induction false} LastPresentIsLast(s: seq<Cell>)
    ensures LastPresent(s).Some? ==>
              exists j :: 0 <= j < |s| && s[j] == LastPresent(s) && forall k :: j < k < |s| ==> s[k].None?
  {
    if |s| > 0 && s[|s| - 1].None? {
      var init := s[..|s| - 1];
      LastPresentIsLast(init);
      if LastPresent(s).Some? {
        var j :| 0 <= j < |init| && init[j] == LastPresent(init) && forall k :: j < k < |init| ==> init[k].None?;
        assert s[j] == LastPresent(s);
        assert forall k :: j < k < |s| ==> s[k].None? by {
          assert forall k :: j < k < |init| ==> init[k] == s[k];
        }
      }
    } else if |s| > 0 {
      assert s[|s| - 1] == LastPresent(s);
    }
  }

  /** `ffill()`: each empty cell takes the nearest non-empty cell above it. */
  function Filled(s: seq<Cell>): (r: seq<Cell>)
    ensures |r| == |s|
    ensures forall i :: 0 <= i < |s| ==> r[i] == LastPresent(s[..i + 1])
  {
    seq(|s|, i requires 0 <= i < |s| => LastPresent(s[..i + 1]))
  }

  /** A non-empty cell keeps its value; an empty one copies the filled cell above it. */
  lemma FilledStep(s: seq<Cell>, i: nat)
    requires i < |s|
    ensures s[i].Some? ==> Filled(s)[i] == s[i]
    ensures s[i].None? && i > 0 ==> Filled(s)[i] == Filled(s)[i - 1]
    ensures s[i].None? && i == 0 ==> Filled(s)[i] == None
  {
    assert s[..i + 1][..i] == s[..i];
    if s[i].None? {
      assert LastPresent(s[..i + 1]) == LastPresent(s[..i]);
      assert i == 0 ==> LastPresent(s[..i]) == None;
    }
  }

  /** The in-place forward fill of the Day column. */
  method ForwardFill(col: array<Cell>)
    modifies col
    ensures col[..] == Filled(old(col[..]))
  {
    ghost var original := col[..];
    ghost var target := Filled(original);
    var i := 0;
    while i < col.Length
      invariant 0 <= i <= col.Length
      invariant forall k :: 0 <= k < i ==> col[k] == target[k]
      invariant forall k :: i <= k < col.Length ==> col[k] == original[k]
    {
      FilledStep(original, i);
      if col[i].None? && i > 0 {
        col[i] := col[i - 1];
      }
      i := i + 1;
    }
    assert col[..] == target;
  }

  // ----- Grouping -----

  /** One JSON exercise per row: name and sets_reps copied, a missing RIR written as "". */
  function ExerciseOf(row: Row): JsonExercise
  {
    JsonExercise(row.exercise, row.setsReps, if row.rir.Some? then row.rir.value else "")
  }

  /** The English day a row is filed under, if it is kept. */
  function DayOf(row: Row): Option<string>
  {
    if row.day.Some? && row.day.value in DayMap then Some(DayMap[row.day.value]) else None
  }

  /** One iteration of the row loop. */
  function AddRow(program: map<string, seq<JsonExercise>>, row: Row): map<string, seq<JsonExercise>>
  {
    match DayOf(row)
    case None => program
    case Some(en) => program[en := (if en in program then program[en] else []) + [ExerciseOf(row)]]
  }

  /** The program built from the rows in order. */
  function Group(rows: seq<Row>): map<string, seq<JsonExercise>>
  {
    if |rows| == 0 then map[] else AddRow(Group(rows[..|rows| - 1]), rows[|rows| - 1])
  }

  /** The exercises of the rows filed under day en, in row order. */
  function RowsFor(rows: seq<Row>, en: string): (r: seq<JsonExercise>)
    ensures |r| <= |rows|
  {
    if |rows| == 0 then []
    else RowsFor(rows[..|rows| - 1], en) + (if DayOf(rows[|rows| - 1]) == Some(en) then [ExerciseOf(rows[|rows| - 1])] else [])
  }

  /**
   * A day is a key exactly when some row is filed under it, and its list is
   * those rows' exercises in row order.
   */
  lemma {:induction false} GroupSpec(rows: seq<Row>, en: string)
    ensures en in Group(rows) <==> |RowsFor(rows, en)| > 0
    ensures en in Group(rows) ==> Group(rows)[en] == RowsFor(rows, en)
    ensures en in Group(rows) ==> forall e :: e in Group(rows)[en] ==> FromRowOf(rows, en, e)
  {
    if |rows| > 0 {
      GroupSpec(rows[..|rows| - 1], en);
    }
    RowsForFromRows(rows, en);
  }

  /** e is the exercise of some row filed under en, with a missing RIR written as "". */
  predicate FromRowOf(rows: seq<Row>, en: string, e: JsonExercise)
  {
    exists i :: 0 <= i < |rows| && DayOf(rows[i]) == Some(en) &&
                e.name == rows[i].exercise && e.setsReps == rows[i].setsReps &&
                e.rir == (if rows[i].rir.Some? then rows[i].rir.value else "")
  }

  lemma {:induction false} RowsForFromRows(rows: seq<Row>, en: string)
    ensures forall e :: e in RowsFor(rows, en) ==> FromRowOf(rows, en, e)
  {
    if |rows| > 0 {
      var init := rows[..|rows| - 1];
      RowsForFromRows(init, en);
      forall e | e in RowsFor(rows, en)
        ensures FromRowOf(rows, en, e)
      {
        if e in RowsFor(init, en) {
          var i :| 0 <= i < |init| && DayOf(init[i]) == Some(en) &&
                   e.name == init[i].exercise && e.setsReps == init[i].setsReps &&
                   e.rir == (if init[i].rir.Some? then init[i].rir.value else "");
          assert rows[i] == init[i];
        } else {
          assert rows[|rows| - 1] == rows[|rows| - 1];
        }
      }
    }
  }

  /** Only mapped English day names appear as keys: never Monday or Friday. */
  lemma {:induction false} GroupKeys(rows: seq<Row>)
    ensures forall en :: en in Group(rows) ==> en in OutputDays
  {
    DayMapValues();
    if |rows| > 0 {
      GroupKeys(rows[..|rows| - 1]);
    }
  }

  /** convert_excel_to_json without the file I/O: forward-fill the days, then group the rows. */
  method Convert(rows: seq<Row>) returns (program: map<string, seq<JsonExercise>>)
    ensures var days := Filled(seq(|rows|, i requires 0 <= i < |rows| => rows[i].day));
            program == Group(seq(|rows|, i requires 0 <= i < |rows| => rows[i].(day := days[i])))
  {
    var dayColumn := new Cell[|rows|](i requires 0 <= i < |rows| => rows[i].day);
    ghost var column := seq(|rows|, i requires 0 <= i < |rows| => rows[i].day);
    assert dayColumn[..] == column;
    ForwardFill(dayColumn);
    var filledDays := dayColumn[..];
    assert filledDays == Filled(column);
    var filledRows := seq(|rows|, i requires 0 <= i < |rows| => rows[i].(day := filledDays[i]));
    program := GroupRows(filledRows);
  }

  /** The row loop: each kept row's exercise is appended to its English day's list. */
  method GroupRows(rows: seq<Row>) returns (program: map<string, seq<JsonExercise>>)
    ensures program == Group(rows)
  {
    program := map[];
    var index := 0;
    while index < |rows|
      invariant 0 <= index <= |rows|
      invariant program == Group(rows[..index])
    {
      var row := rows[index];
      assert rows[..index + 1][..index] == rows[..index];
      ghost var expected := AddRow(program, row);
      var dayTr := row.day;
      if dayTr.Some? && dayTr.value in DayMap {
        var dayEn := DayMap[dayTr.value];
        if dayEn !in program {
          program := program[dayEn := []];
        }
        program := program[dayEn := program[dayEn] + [ExerciseOf(row)]];
      }
      assert program == expected;
      index := index + 1;
    }
    assert rows[..index] == rows;
  }

  /** With a converted program, the training calendar marks no Monday and no Friday. */
  lemma NoWorkoutOnDroppedDays(rows: seq<Row>, d: Date)
    requires ValidDate(d)
    requires MonthCalendar.HasWorkout(Group(rows), d)
    ensures WeekdayName(d) in OutputDays
    ensures WeekdayName(d) != "Monday" && WeekdayName(d) != "Friday"
  {
    GroupKeys(rows);
  }
}
