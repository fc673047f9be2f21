/**
 * The legacy single-page app: a user record kept in the browser store, a month
 * calendar driven by a fixed weekly program, and per-date set forms whose
 * inputs are saved under `workout_<date>` as a map from `<exercise>_<set>` to
 * the typed weight and reps.
 */
module LegacyApp {
  import opened Wrappers
  import opened Strings
  import opened Dates
  import ExerciseCard
  import MonthCalendar

  /** The login form's fields, all kept as the text typed. */
  datatype LegacyUser = LegacyUser(firstName: string, lastName: string, age: string, weight: string, gender: string)

  /** An entry of the weekly program: sets_reps may be missing. */
  datatype LegacyExercise = LegacyExercise(name: string, setsReps: Option<string>, rir: Option<string>)

  /** `new Date('2025-11-25')`: the month shown first. */
  const StartDate: Date := Date(2025, 11, 25)

  const DayHeaders: seq<string> := ["Sun", "Mon", "Tue", "Wed", "Thu", "Fri", "Sat"]

  // ----- Month navigation -----

  /**
   * `viewDate.setMonth(viewDate.getMonth() + k)`: the same day k months later;
   * a day past the end of that month runs over into the month after it.
   */
  function ShiftMonth(d: Date, k: int): (r: Date)
    requires ValidDate(d)
    ensures ValidDate(r)
    ensures var i := MonthIndex(d.year, d.month) + k;
            var dim := DaysInMonth(YearOfIndex(i), MonthOfIndex(i));
            if d.day <= dim then MonthIndex(r.year, r.month) == i && r.day == d.day
            else MonthIndex(r.year, r.month) == i + 1 && r.day == d.day - dim
  {
    var i := MonthIndex(d.year, d.month) + k;
    var y, m := YearOfIndex(i), MonthOfIndex(i);
    IndexRoundTrip(i);
    var dim := DaysInMonth(y, m);
    if d.day <= dim then Date(y, m, d.day)
    else
      var (ny, nm) := NextMonth(y, m);
      Date(ny, nm, d.day - dim)
  }

  /** Up to the 28th, the shift moves exactly k months and keeps the day. */
  lemma ShiftMonthExact(d: Date, k: int)
    requires ValidDate(d) && d.day <= 28
    ensures MonthIndex(ShiftMonth(d, k).year, ShiftMonth(d, k).month) == MonthIndex(d.year, d.month) + k
    ensures ShiftMonth(d, k).day == d.day
  {
  }

  /** Later in the month the shift can skip a month: January 31st, 2025 goes to March 3rd. */
  lemma ShiftMonthOverflows()
    ensures ShiftMonth(Date(2025, 1, 31), 1) == Date(2025, 3, 3)
  {
    assert MonthIndex(2025, 1) + 1 == 24301 && 24301 / 12 == 2025 && 24301 % 12 == 1;
  }

  // ----- Set forms -----

  /** `ex.sets_reps || '3x10'`, then the count before the first 'x' (3 when unparseable or 0). */
  function LegacySetCount(setsReps: Option<string>): int
  {
    ExerciseCard.SetCount(if setsReps == None || setsReps == Some("") then "3x10" else setsReps.value)
  }

  /** A missing or empty sets_reps gives three sets. */
  lemma LegacySetCountDefault(setsReps: Option<string>)
    requires setsReps == None || setsReps == Some("")
    ensures LegacySetCount(setsReps) == 3
  {
    assert NatToString(3) == "3";
    assert "3x10" == NatToString(3) + "x" + "10";
    ExerciseCard.SetCountOfCount(3, "10");
  }

  datatype Kind = WeightInput | RepsInput

  /** The `data-type` of an input. */
  function KindName(k: Kind): string
  {
    match k
    case WeightInput => "weight"
    case RepsInput => "reps"
  }

  /** One input of the workout view: exercise index, set number from 1, and its value. */
  datatype Input = Input(ex: nat, setNo: nat, kind: Kind, value: string)

  /** `${ex}_${set}`. */
  function SlotKey(ex: nat, setNo: nat): string
  {
    NatToString(ex) + "_" + NatToString(setNo)
  }

  lemma SlotKeyInjective(e1: nat, s1: nat, e2: nat, s2: nat)
    requires SlotKey(e1, s1) == SlotKey(e2, s2)
    ensures e1 == e2 && s1 == s2
  {
    DigitsHaveNoSeparator(s1, '_');
    DigitsHaveNoSeparator(s2, '_');
    assert SlotKey(e1, s1) == NatToString(e1) + ['_'] + NatToString(s1);
    assert SlotKey(e2, s2) == NatToString(e2) + ['_'] + NatToString(s2);
    SplitAtLastSeparator(NatToString(e1), NatToString(s1), NatToString(e2), NatToString(s2), '_');
    ParseIntOfNatToString(e1);
    ParseIntOfNatToString(e2);
    ParseIntOfNatToString(s1);
    ParseIntOfNatToString(s2);
  }

  /** What saveWorkout stores for one date: `data[ex_set][type] = value`. */
  type SavedData = map<string, map<string, string>>

  /** `data[key][type] = val`, creating `data[key]` when it is missing. */
  function Put(data: SavedData, input: Input): SavedData
  {
    var key := SlotKey(input.ex, input.setNo);
    var entry := if key in data then data[key] else map[];
    data[key := entry[KindName(input.kind) := input.value]]
  }

  /** The map saveWorkout builds from the inputs in document order; a later input wins. */
  function SaveMap(inputs: seq<Input>): SavedData
  {
    if |inputs| == 0 then map[] else Put(SaveMap(inputs[..|inputs| - 1]), inputs[|inputs| - 1])
  }

  /** `savedData[`${ex}_${set}`]?.[type] || ''`. */
  function Lookup(data: SavedData, ex: nat, setNo: nat, kind: Kind): string
  {
    var key := SlotKey(ex, setNo);
    if key in data && KindName(kind) in data[key] then data[key][KindName(kind)] else ""
  }

  /** Two inputs fill the same slot of the saved map. */
  predicate SameSlot(a: Input, b: Input)
  {
    a.ex == b.ex && a.setNo == b.setNo && a.kind == b.kind
  }

  predicate DistinctSlots(inputs: seq<Input>)
  {
    forall i, j :: 0 <= i < j < |inputs| ==> !SameSlot(inputs[i], inputs[j])
  }

  /** Writing one slot leaves every other slot's lookup as it was. */
  lemma LookupAfterPut(data: SavedData, input: Input, ex: nat, setNo: nat, kind: Kind)
    ensures Lookup(Put(data, input), ex, setNo, kind) ==
            if input.ex == ex && input.setNo == setNo && input.kind == kind then input.value
            else Lookup(data, ex, setNo, kind)
  {
    if SlotKey(input.ex, input.setNo) == SlotKey(ex, setNo) {
      SlotKeyInjective(input.ex, input.setNo, ex, setNo);
    }
  }

  /** With one input per slot, the saved map holds each input's value under its slot. */
  lemma {:induction false} SaveMapLookup(inputs: seq<Input>, k: nat)
    requires DistinctSlots(inputs)
    requires k < |inputs|
    ensures Lookup(SaveMap(inputs), inputs[k].ex, inputs[k].setNo, inputs[k].kind) == inputs[k].value
  {
    var n := |inputs| - 1;
    var init := inputs[..n];
    LookupAfterPut(SaveMap(init), inputs[n], inputs[k].ex, inputs[k].setNo, inputs[k].kind);
    if k < n {
      assert !SameSlot(inputs[k], inputs[n]);
      assert DistinctSlots(init);
      SaveMapLookup(init, k);
    }
  }

  /** The slots of one exercise's rows: sets 1 to count, a weight and a reps input each. */
  function ExerciseSlots(ex: nat, count: int): (r: seq<Input>)
    ensures |r| == if count < 0 then 0 else 2 * count
    ensures forall k :: 0 <= k < |r| ==>
              r[k] == Input(ex, k / 2 + 1, if k % 2 == 0 then WeightInput else RepsInput, "")
  {
    if count <= 0 then []
    else ExerciseSlots(ex, count - 1) + [Input(ex, count, WeightInput, ""), Input(ex, count, RepsInput, "")]
  }

  /** The inputs of the whole view, exercise by exercise, with empty values. */
  function FormSlots(counts: seq<int>): (r: seq<Input>)
    ensures forall k :: 0 <= k < |r| ==> r[k].ex < |counts| && r[k].value == ""
  {
    if |counts| == 0 then [] else FormSlots(counts[..|counts| - 1]) + ExerciseSlots(|counts| - 1, counts[|counts| - 1])
  }

  lemma ExerciseSlotsDistinct(ex: nat, count: int)
    ensures DistinctSlots(ExerciseSlots(ex, count))
  {
    var r := ExerciseSlots(ex, count);
    forall i, j | 0 <= i < j < |r|
      ensures !SameSlot(r[i], r[j])
    {
      if i / 2 == j / 2 {
        assert i % 2 != j % 2;
      }
    }
  }

  lemma {:induction false} FormSlotsDistinct(counts: seq<int>)
    ensures DistinctSlots(FormSlots(counts))
  {
    if |counts| > 0 {
      var n := |counts| - 1;
      FormSlotsDistinct(counts[..n]);
      ExerciseSlotsDistinct(n, counts[n]);
      var a, b := FormSlots(counts[..n]), ExerciseSlots(n, counts[n]);
      assert forall i :: 0 <= i < |a| ==> a[i].ex < n;
      assert forall j :: 0 <= j < |b| ==> b[j].ex == n;
      assert FormSlots(counts) == a + b;
    }
  }

  /** An input filled from the saved data. */
  function Filled(slot: Input, saved: SavedData): Input
  {
    slot.(value := Lookup(saved, slot.ex, slot.setNo, slot.kind))
  }

  /** openWorkout's inputs: every slot, with its saved value or the empty text. */
  function Form(counts: seq<int>, saved: SavedData): (r: seq<Input>)
    ensures |r| == |FormSlots(counts)|
    ensures forall k :: 0 <= k < |r| ==> r[k] == Filled(FormSlots(counts)[k], saved)
  {
    var slots := FormSlots(counts);
    seq(|slots|, k requires 0 <= k < |slots| => Filled(slots[k], saved))
  }

  /**
   * Saving the view's inputs, whatever the user typed into them, and opening
   * the same day again shows exactly the saved values.
   */
  lemma SaveThenOpen(counts: seq<int>, edited: seq<Input>)
    requires |edited| == |FormSlots(counts)|
    requires forall k :: 0 <= k < |edited| ==> edited[k].(value := "") == FormSlots(counts)[k]
    ensures Form(counts, SaveMap(edited)) == edited
  {
    var slots := FormSlots(counts);
    FormSlotsDistinct(counts);
    assert DistinctSlots(edited) by {
      forall i, j | 0 <= i < j < |edited|
        ensures !SameSlot(edited[i], edited[j])
      {
        assert !SameSlot(slots[i], slots[j]);
        assert edited[i].(value := "") == slots[i] && edited[j].(value := "") == slots[j];
      }
    }
    forall k | 0 <= k < |edited|
      ensures Form(counts, SaveMap(edited))[k] == edited[k]
    {
      SaveMapLookup(edited, k);
      assert edited[k].(value := "") == slots[k];
    }
  }

  // ----- Calendar -----

  datatype DayKind = RestDay | HasWorkout(completed: bool)

  datatype LegacyCell = Header(text: string) | Empty | Day(day: int, isToday: bool, kind: DayKind)

  /** `workout_${dateString}`. */
  function DateKey(dateString: string): string
  {
    "workout_" + dateString
  }

  /** One day cell: a rest day when the weekday's program is absent or empty. */
  function DayCell(d: Date, today: Date, program: map<string, seq<LegacyExercise>>,
                   saved: map<string, SavedData>): LegacyCell
    requires ValidDate(d)
  {
    var name := WeekdayName(d);
    var kind := if name in program && |program[name]| > 0 then HasWorkout(DateKey(FormatYMD(d)) in saved) else RestDay;
    Day(d.day, d == today, kind)
  }

  /** Cell i of renderCalendar's grid: 7 headers, one empty cell per weekday before the 1st, the days. */
  function CellAt(y: int, m: int, today: Date, program: map<string, seq<LegacyExercise>>,
                  saved: map<string, SavedData>, i: nat): LegacyCell
    requires 1 <= m <= 12
    requires i < 7 + Weekday(Date(y, m, 1)) + DaysInMonth(y, m)
  {
    var wf := Weekday(Date(y, m, 1));
    if i < 7 then Header(DayHeaders[i])
    else if i < 7 + wf then Empty
    else DayCell(Date(y, m, i - 6 - wf), today, program, saved)
  }

  function Cells(y: int, m: int, today: Date, program: map<string, seq<LegacyExercise>>,
                 saved: map<string, SavedData>): (r: seq<LegacyCell>)
    requires 1 <= m <= 12
    ensures |r| == 7 + Weekday(Date(y, m, 1)) + DaysInMonth(y, m)
  {
    var n := 7 + Weekday(Date(y, m, 1)) + DaysInMonth(y, m);
    seq(n, i requires 0 <= i < n => CellAt(y, m, today, program, saved, i))
  }

  /**
   * A legacy day has a workout by the same rule as the training calendar's
   * marker, and is completed exactly when something is saved for its date.
   */
  lemma DayCellClassification(d: Date, today: Date, program: map<string, seq<LegacyExercise>>,
                              saved: map<string, SavedData>)
    requires ValidDate(d)
    ensures DayCell(d, today, program, saved).kind.HasWorkout? <==> MonthCalendar.HasWorkout(program, d)
    ensures DayCell(d, today, program, saved).kind.HasWorkout? ==>
              (DayCell(d, today, program, saved).kind.completed <==> DateKey(FormatYMD(d)) in saved)
  {
  }

  /** The day cells sit after the 7 headers and the padding, one per day of the month in order. */
  lemma CellsLayout(y: int, m: int, today: Date, program: map<string, seq<LegacyExercise>>,
                    saved: map<string, SavedData>)
    requires 1 <= m <= 12
    ensures var r := Cells(y, m, today, program, saved);
            var wf := Weekday(Date(y, m, 1));
            (forall i :: 0 <= i < 7 ==> r[i] == Header(DayHeaders[i])) &&
            (forall i :: 7 <= i < 7 + wf ==> r[i] == Empty) &&
            (forall i :: 7 + wf <= i < |r| ==> r[i].Day? && r[i].day == i - 6 - wf &&
                                                 r[i] == DayCell(Date(y, m, i - 6 - wf), today, program, saved))
  {
  }

  class App {
    var currentUser: Option<LegacyUser>
    /** The `fitol_user` key of the browser store. */
    var storedUser: Option<LegacyUser>
    var viewDate: Date
    /** The `workout_<date>` keys of the browser store. */
    var saved: map<string, SavedData>

    constructor (storedUser: Option<LegacyUser>, saved: map<string, SavedData>)
      ensures currentUser == None && this.storedUser == storedUser && this.saved == saved
      ensures viewDate == StartDate
      ensures Valid()
    {
      currentUser := None;
      this.storedUser := storedUser;
      viewDate := StartDate;
      this.saved := saved;
    }

    predicate Valid()
      reads this
    {
      ValidDate(viewDate)
    }

    /** loadUser: a stored user becomes the current user. */
    method LoadUser()
      modifies this
      ensures currentUser == if old(storedUser).Some? then old(storedUser) else old(currentUser)
      ensures storedUser == old(storedUser) && viewDate == old(viewDate) && saved == old(saved)
    {
      if storedUser.Some? {
        currentUser := storedUser;
      }
    }

    /** saveUser: the user is stored and becomes the current user. */
    method SaveUser(user: LegacyUser)
      modifies this
      ensures storedUser == Some(user) && currentUser == Some(user)
      ensures viewDate == old(viewDate) && saved == old(saved)
    {
      storedUser := Some(user);
      currentUser := Some(user);
    }

    /** The page load: a fresh state, loadUser, then the app when a user is known, else the login. */
    method PageLoad() returns (showsApp: bool)
      modifies this
      ensures currentUser == old(storedUser)
      ensures showsApp <==> old(storedUser).Some?
      ensures storedUser == old(storedUser) && saved == old(saved) && viewDate == StartDate
    {
      currentUser := None;
      viewDate := StartDate;
      LoadUser();
      showsApp := currentUser.Some?;
    }

    method PrevMonth()
      requires Valid()
      modifies this
      ensures Valid() && viewDate == ShiftMonth(old(viewDate), -1)
      ensures currentUser == old(currentUser) && storedUser == old(storedUser) && saved == old(saved)
    {
      viewDate := ShiftMonth(viewDate, -1);
    }

    method NextMonth()
      requires Valid()
      modifies this
      ensures Valid() && viewDate == ShiftMonth(old(viewDate), 1)
      ensures currentUser == old(currentUser) && storedUser == old(storedUser) && saved == old(saved)
    {
      viewDate := ShiftMonth(viewDate, 1);
    }

    /** renderCalendar: the grid's cells in the order they are appended. */
    method RenderCalendar(today: Date, program: map<string, seq<LegacyExercise>>) returns (grid: seq<LegacyCell>)
      requires Valid()
      ensures grid == Cells(viewDate.year, viewDate.month, today, program, saved)
    {
      var year, month := viewDate.year, viewDate.month;
      var daysInMonth := DaysInMonth(year, month);
      var startDayOfWeek := Weekday(Date(year, month, 1));
      grid := [];
      var h := 0;
      while h < 7
        invariant 0 <= h <= 7 && |grid| == h
        invariant forall k :: 0 <= k < |grid| ==> grid[k] == CellAt(year, month, today, program, saved, k)
      {
        grid := grid + [Header(DayHeaders[h])];
        h := h + 1;
      }
      var i := 0;
      while i < startDayOfWeek
        invariant 0 <= i <= startDayOfWeek && |grid| == 7 + i
        invariant forall k :: 0 <= k < |grid| ==> grid[k] == CellAt(year, month, today, program, saved, k)
      {
        grid := grid + [Empty];
        i := i + 1;
      }
      var day := 1;
      while day <= daysInMonth
        invariant 1 <= day <= daysInMonth + 1 && |grid| == 6 + startDayOfWeek + day
        invariant forall k :: 0 <= k < |grid| ==> grid[k] == CellAt(year, month, today, program, saved, k)
      {
        grid := grid + [DayCell(Date(year, month, day), today, program, saved)];
        day := day + 1;
      }
      var expected := Cells(year, month, today, program, saved);
      assert |grid| == |expected|;
      assert forall k :: 0 <= k < |grid| ==> grid[k] == expected[k];
    }

    /** openWorkout: for each exercise, its sets numbered from 1, each filled from the saved data. */
    method OpenWorkout(dateString: string, exercises: seq<LegacyExercise>) returns (inputs: seq<Input>)
      ensures inputs == Form(Counts(exercises), if DateKey(dateString) in saved then saved[DateKey(dateString)] else map[])
    {
      var savedData: SavedData := if DateKey(dateString) in saved then saved[DateKey(dateString)] else map[];
      inputs := [];
      var exIndex := 0;
      while exIndex < |exercises|
        invariant 0 <= exIndex <= |exercises|
        invariant inputs == Form(Counts(exercises[..exIndex]), savedData)
      {
        var numSets := LegacySetCount(exercises[exIndex].setsReps);
        var row := SetRows(exIndex, numSets, savedData);
        FormOfMoreExercises(exercises, exIndex, savedData);
        inputs := inputs + row;
        exIndex := exIndex + 1;
      }
      assert exercises[..exIndex] == exercises;
    }

    /** saveWorkout: every input's value under its slot, stored for the date. */
    method SaveWorkout(dateString: string, inputs: seq<Input>)
      modifies this
      ensures saved == old(saved)[DateKey(dateString) := SaveMap(inputs)]
      ensures currentUser == old(currentUser) && storedUser == old(storedUser) && viewDate == old(viewDate)
    {
      var data: SavedData := map[];
      var k := 0;
      while k < |inputs|
        invariant 0 <= k <= |inputs|
        invariant data == SaveMap(inputs[..k])
      {
        assert inputs[..k + 1][..k] == inputs[..k];
        data := Put(data, inputs[k]);
        k := k + 1;
      }
      assert inputs[..k] == inputs;
      saved := saved[DateKey(dateString) := data];
    }
  }

  function SlotsFilled(slots: seq<Input>, saved: SavedData): (r: seq<Input>)
    ensures |r| == |slots| && forall k :: 0 <= k < |r| ==> r[k] == Filled(slots[k], saved)
  {
    seq(|slots|, k requires 0 <= k < |slots| => Filled(slots[k], saved))
  }

  /** The form for one more exercise is the form so far followed by that exercise's filled rows. */
  lemma FormStep(counts: seq<int>, n: nat, saved: SavedData)
    requires n < |counts|
    ensures Form(counts[..n + 1], saved) ==
            Form(counts[..n], saved) + SlotsFilled(ExerciseSlots(n, counts[n]), saved)
  {
    assert counts[..n + 1][..n] == counts[..n];
    assert FormSlots(counts[..n + 1]) == FormSlots(counts[..n]) + ExerciseSlots(n, counts[n]);
  }

  /** The set counts of the program's exercises. */
  function Counts(exercises: seq<LegacyExercise>): (r: seq<int>)
    ensures |r| == |exercises|
    ensures forall k :: 0 <= k < |r| ==> r[k] == LegacySetCount(exercises[k].setsReps)
  {
    seq(|exercises|, k requires 0 <= k < |exercises| => LegacySetCount(exercises[k].setsReps))
  }

  lemma FormOfMoreExercises(exercises: seq<LegacyExercise>, n: nat, saved: SavedData)
    requires n < |exercises|
    ensures Form(Counts(exercises[..n + 1]), saved) ==
            Form(Counts(exercises[..n]), saved) + SlotsFilled(ExerciseSlots(n, LegacySetCount(exercises[n].setsReps)), saved)
  {
    var c := Counts(exercises[..n + 1]);
    assert c[..n] == Counts(exercises[..n]);
    assert c[n] == LegacySetCount(exercises[n].setsReps);
    FormStep(c, n, saved);
  }

  /** The inner loop of openWorkout: the rows for sets 1 to numSets of one exercise. */
  method SetRows(exIndex: nat, numSets: int, savedData: SavedData) returns (row: seq<Input>)
    ensures row == SlotsFilled(ExerciseSlots(exIndex, numSets), savedData)
  {
    row := [];
    var i := 1;
    while i <= numSets
      invariant 1 <= i && (numSets >= 0 ==> i <= numSets + 1) && (numSets < 0 ==> i == 1)
      invariant |row| == 2 * (i - 1)
      invariant forall k :: 0 <= k < |row| ==>
                  row[k] == Filled(Input(exIndex, k / 2 + 1, if k % 2 == 0 then WeightInput else RepsInput, ""), savedData)
    {
      row := row + [Filled(Input(exIndex, i, WeightInput, ""), savedData), Filled(Input(exIndex, i, RepsInput, ""), savedData)];
      i := i + 1;
    }
    var expected := SlotsFilled(ExerciseSlots(exIndex, numSets), savedData);
    assert |row| == |expected|;
    assert forall k :: 0 <= k < |row| ==> row[k] == expected[k];
  }
}
