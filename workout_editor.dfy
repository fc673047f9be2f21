/**
 * The workout editor for one date: it starts from an empty workout or the one
 * stored for the date, can be filled from a program template, edits sets one at
 * a time, and saves or resets through the data layer. Dates before today are
 * read-only.
 */
module WorkoutEditing {
  import opened Wrappers
  import opened Types
  import opened Dates
  import Lists
  import Storage

  /** `Array.from({ length: n })`: a negative length gives an empty array. */
  function ArrayLength(n: int): nat
  {
    if n < 0 then 0 else n
  }

  /** The sets of the i-th program exercise: fresh ids, the default reps, weight 0, not completed. */
  function TemplateSets(e: ProgramExercise, i: nat, setId: (nat, nat) -> string): (r: seq<WorkoutSet>)
    ensures |r| == ArrayLength(e.defaultSets)
    ensures r == [] <==> e.defaultSets <= 0
    ensures forall j :: 0 <= j < |r| ==>
              r[j].id == setId(i, j) && r[j].reps == Num(e.defaultReps as real) &&
              r[j].weight == Num(0.0) && !r[j].completed
  {
    seq(ArrayLength(e.defaultSets), (j: nat) => WorkoutSet(setId(i, j), Num(e.defaultReps as real), Num(0.0), false))
  }

  /** One workout exercise per program exercise, in the program's order. */
  function TemplateExercises(p: Program, exId: nat -> string, setId: (nat, nat) -> string): (r: seq<WorkoutExercise>)
    ensures |r| == |p.exercises|
    ensures forall i :: 0 <= i < |r| ==>
              r[i].id == exId(i) && r[i].name == p.exercises[i].name &&
              r[i].sets == TemplateSets(p.exercises[i], i, setId)
  {
    seq(|p.exercises|, i requires 0 <= i < |p.exercises| =>
      WorkoutExercise(exId(i), p.exercises[i].name, TemplateSets(p.exercises[i], i, setId)))
  }

  /** A workout filled from a program carries exactly the program's exercise names. */
  lemma TemplateKeepsNames(p: Program, exId: nat -> string, setId: (nat, nat) -> string)
    ensures Storage.NamesOfExercises(TemplateExercises(p, exId, setId)) == Storage.NamesOfProgramExercises(p.exercises)
  {
    var es := TemplateExercises(p, exId, setId);
    assert forall x :: x in Storage.NamesOfExercises(es) ==> x in Storage.NamesOfProgramExercises(p.exercises) by {
      forall x | x in Storage.NamesOfExercises(es)
        ensures x in Storage.NamesOfProgramExercises(p.exercises)
      {
        var k :| 0 <= k < |es| && es[k].name == x;
        assert p.exercises[k].name == x;
      }
    }
    assert forall x :: x in Storage.NamesOfProgramExercises(p.exercises) ==> x in Storage.NamesOfExercises(es) by {
      forall x | x in Storage.NamesOfProgramExercises(p.exercises)
        ensures x in Storage.NamesOfExercises(es)
      {
        var k :| 0 <= k < |p.exercises| && p.exercises[k].name == x;
        assert es[k].name == x;
      }
    }
  }

  /**
   * The workout after choosing a program in the selector. An empty choice, an
   * unknown id, or a declined replacement of existing exercises keeps the workout.
   */
  function SelectProgram(w: Workout, programs: seq<Program>, programId: string, confirmed: bool,
                         exId: nat -> string, setId: (nat, nat) -> string): (r: Workout)
    ensures programId == "" || Lists.FindFirst(programs, ProgramIdOf, programId).None? ==> r == w
    ensures |w.exercises| > 0 && !confirmed ==> r == w
    ensures programId != "" && (|w.exercises| == 0 || confirmed) ==>
              match Lists.FindFirst(programs, ProgramIdOf, programId)
              case None => r == w
              case Some(p) =>
                p.id == programId && r.programId == Some(programId) && r.programName == Some(p.name) &&
                r.exercises == TemplateExercises(p, exId, setId)
    ensures r.id == w.id && r.date == w.date && r.completed == w.completed
  {
    if programId == "" then w
    else match Lists.FindFirst(programs, ProgramIdOf, programId)
      case None => w
      case Some(p) =>
        if |w.exercises| > 0 && !confirmed then w
        else w.(programId := Some(p.id), programName := Some(p.name), exercises := TemplateExercises(p, exId, setId))
  }

  /** The set appended by "Add Set": a copy of the last set's reps and weight, or 10 and 0, not completed. */
  function NextSet(sets: seq<WorkoutSet>, id: string): WorkoutSet
  {
    if |sets| > 0 then WorkoutSet(id, sets[|sets| - 1].reps, sets[|sets| - 1].weight, false)
    else WorkoutSet(id, Num(10.0), Num(0.0), false)
  }

  /** The field an input or the check button writes; text inputs deliver their value as text. */
  datatype SetUpdate = SetWeight(weight: NumOrText) | SetReps(reps: NumOrText) | SetCompleted(completed: bool)

  function ApplyUpdate(s: WorkoutSet, u: SetUpdate): (r: WorkoutSet)
    ensures r.id == s.id
    ensures u.SetWeight? ==> r.weight == u.weight && r.reps == s.reps && r.completed == s.completed
    ensures u.SetReps? ==> r.reps == u.reps && r.weight == s.weight && r.completed == s.completed
    ensures u.SetCompleted? ==> r.completed == u.completed && r.reps == s.reps && r.weight == s.weight
  {
    match u
    case SetWeight(v) => s.(weight := v)
    case SetReps(v) => s.(reps := v)
    case SetCompleted(b) => s.(completed := b)
  }

  /** Writing a field twice keeps only the second value. */
  lemma ApplyUpdateTwice(s: WorkoutSet, u: SetUpdate, v: SetUpdate)
    requires u.SetWeight? == v.SetWeight? && u.SetReps? == v.SetReps?
    ensures ApplyUpdate(ApplyUpdate(s, u), v) == ApplyUpdate(s, v)
  {
  }

  /**
   * `isBefore(startOfDay(parseISO(date)), startOfDay(today))`. A text parseISO
   * rejects is an invalid date, and comparisons with it are false.
   */
  predicate IsReadOnly(date: string, today: Date)
  {
    match ParseISODate(date)
    case None => false
    case Some(d) => Before(d, today)
  }

  /** For a well-formed date text, read-only is exactly "strictly before today". */
  lemma ReadOnlyIffPast(d: Date, today: Date)
    requires ValidDate(d) && 1 <= d.year <= 9999
    ensures IsReadOnly(FormatYMD(d), today) <==> Before(d, today)
  {
    ParseFormatYMD(d);
  }

  /** Today's own date is editable, and so is every later one. */
  lemma TodayIsEditable(d: Date, today: Date)
    requires ValidDate(d) && 1 <= d.year <= 9999
    requires !Before(d, today)
    ensures !IsReadOnly(FormatYMD(d), today)
  {
    ReadOnlyIffPast(d, today);
  }

  /** Which parts of the editor are visible or enabled. */
  datatype View = View(banner: bool, selector: bool, inputsDisabled: bool, actionBar: bool, resetButton: bool)

  /** storedForDate: whether the data layer currently holds a workout for the editor's date. */
  function EditorView(readOnly: bool, w: Workout, storedForDate: bool): View
  {
    var bar := !readOnly && |w.exercises| > 0;
    View(readOnly && |w.exercises| > 0, !readOnly, readOnly, bar, bar && w.id != "" && storedForDate)
  }

  /**
   * The editor for the date d, with today's date and the stored workouts ws:
   * a date before today shows no selector, action bar or reset and disables the
   * inputs; an editable date with exercises shows the action bar, and reset is
   * offered exactly when the workout has an id and some stored workout has the date.
   */
  lemma EditorViewOfDate(d: Date, today: Date, w: Workout, ws: seq<Workout>)
    requires ValidDate(d) && 1 <= d.year <= 9999
    ensures var date := FormatYMD(d);
            var v := EditorView(IsReadOnly(date, today), w, Lists.FindFirst(ws, WorkoutDateOf, date).Some?);
            (v.selector <==> !Before(d, today)) &&
            (v.inputsDisabled <==> Before(d, today)) &&
            (v.banner <==> Before(d, today) && |w.exercises| > 0) &&
            (Before(d, today) ==> !v.actionBar && !v.resetButton) &&
            (v.actionBar <==> !Before(d, today) && |w.exercises| > 0) &&
            (!Before(d, today) && |w.exercises| > 0 ==>
               (v.resetButton <==> w.id != "" && exists k :: 0 <= k < |ws| && ws[k].date == date))
  {
    ReadOnlyIffPast(d, today);
  }

  /** In read-only mode nothing that edits, saves or resets is offered. */
  lemma ReadOnlyOffersNoEditing(w: Workout, storedForDate: bool)
    ensures var v := EditorView(true, w, storedForDate);
            !v.selector && v.inputsDisabled && !v.actionBar && !v.resetButton
  {
  }

  class WorkoutEditor {
    const date: string
    const store: Storage.LocalStore
    var workout: Workout
    var programs: seq<Program>
    var selectedProgramId: string
    var isSaving: bool

    /** The initial state before the stored data is loaded, with a fresh id. */
    constructor (date: string, freshId: string, store: Storage.LocalStore)
      ensures this.date == date && this.store == store
      ensures workout == Workout(freshId, date, None, None, [], false)
      ensures programs == [] && selectedProgramId == "" && !isSaving
    {
      this.date := date;
      this.store := store;
      workout := Workout(freshId, date, None, None, [], false);
      programs := [];
      selectedProgramId := "";
      isSaving := false;
    }

    /** The effect on mount: the programs, and the stored workout for the date if there is one. */
    method Load()
      modifies this
      ensures programs == if store.hasWindow then store.programs else []
      ensures var found := if store.hasWindow then Lists.FindFirst(store.workouts, WorkoutDateOf, date) else None;
              match found
              case None => workout == old(workout) && selectedProgramId == old(selectedProgramId)
              case Some(e) =>
                workout == e && e.date == date &&
                selectedProgramId == (if e.programId.Some? && e.programId.value != "" then e.programId.value
                                      else old(selectedProgramId))
      ensures isSaving == old(isSaving)
    {
      programs := store.GetPrograms();
      var existing := store.GetWorkoutByDate(date);
      if existing.Some? {
        workout := existing.value;
        if existing.value.programId.Some? && existing.value.programId.value != "" {
          selectedProgramId := existing.value.programId.value;
        }
      }
    }

    method HandleProgramSelect(programId: string, confirmed: bool, exId: nat -> string, setId: (nat, nat) -> string)
      modifies this
      ensures selectedProgramId == programId
      ensures workout == SelectProgram(old(workout), programs, programId, confirmed, exId, setId)
      ensures programs == old(programs) && isSaving == old(isSaving)
    {
      selectedProgramId := programId;
      if programId == "" { return; }
      var program := Lists.FindFirst(programs, ProgramIdOf, programId);
      if program.None? { return; }
      if |workout.exercises| > 0 && !confirmed { return; }
      var p := program.value;
      workout := workout.(programId := Some(p.id), programName := Some(p.name),
                          exercises := TemplateExercises(p, exId, setId));
    }

    /** Appends one set to exercise exerciseIndex; no other exercise changes. */
    method AddSet(exerciseIndex: nat, newSetId: string)
      requires exerciseIndex < |workout.exercises|
      modifies this
      ensures |workout.exercises| == |old(workout.exercises)|
      ensures var before := old(workout.exercises[exerciseIndex]);
              workout.exercises[exerciseIndex] == before.(sets := before.sets + [NextSet(before.sets, newSetId)])
    ensures var before := old(workout.exercises[exerciseIndex].sets);
            var added := workout.exercises[exerciseIndex].sets[|before|];
            added.id == newSetId && !added.completed &&
            (|before| > 0 ==> added.reps == before[|before| - 1].reps && added.weight == before[|before| - 1].weight) &&
            (|before| == 0 ==> added.reps == Num(10.0) && added.weight == Num(0.0))
      ensures forall k :: 0 <= k < |workout.exercises| && k != exerciseIndex ==>
                workout.exercises[k] == old(workout.exercises[k])
      ensures workout == old(workout).(exercises := workout.exercises)
      ensures programs == old(programs) && selectedProgramId == old(selectedProgramId) && isSaving == old(isSaving)
    {
      var newExercises := workout.exercises;
      var exercise := newExercises[exerciseIndex];
      var sets := exercise.sets;
      sets := sets + [NextSet(exercise.sets, newSetId)];
      newExercises := newExercises[exerciseIndex := exercise.(sets := sets)];
      workout := workout.(exercises := newExercises);
    }

    /** Deletes the set at setIndex of one exercise; an index past the end removes nothing. */
    method RemoveSet(exerciseIndex: nat, setIndex: nat)
      requires exerciseIndex < |workout.exercises|
      modifies this
      ensures |workout.exercises| == |old(workout.exercises)|
      ensures var before := old(workout.exercises[exerciseIndex]);
              workout.exercises[exerciseIndex] == before.(sets := Lists.RemoveAt(before.sets, setIndex))
      ensures forall k :: 0 <= k < |workout.exercises| && k != exerciseIndex ==>
                workout.exercises[k] == old(workout.exercises[k])
      ensures workout == old(workout).(exercises := workout.exercises)
      ensures programs == old(programs) && selectedProgramId == old(selectedProgramId) && isSaving == old(isSaving)
    {
      var newExercises := workout.exercises;
      var exercise := newExercises[exerciseIndex];
      var sets := Lists.RemoveAt(exercise.sets, setIndex);
      newExercises := newExercises[exerciseIndex := exercise.(sets := sets)];
      workout := workout.(exercises := newExercises);
    }

    /** Writes one field of one set; every other set and field keeps its value. */
    method UpdateSet(exerciseIndex: nat, setIndex: nat, u: SetUpdate)
      requires exerciseIndex < |workout.exercises|
      requires setIndex < |workout.exercises[exerciseIndex].sets|
      modifies this
      ensures |workout.exercises| == |old(workout.exercises)|
      ensures var before := old(workout.exercises[exerciseIndex]);
              workout.exercises[exerciseIndex] ==
                before.(sets := before.sets[setIndex := ApplyUpdate(before.sets[setIndex], u)])
      ensures forall k :: 0 <= k < |workout.exercises| && k != exerciseIndex ==>
                workout.exercises[k] == old(workout.exercises[k])
      ensures workout == old(workout).(exercises := workout.exercises)
      ensures programs == old(programs) && selectedProgramId == old(selectedProgramId) && isSaving == old(isSaving)
    {
      var newExercises := workout.exercises;
      var exercise := newExercises[exerciseIndex];
      var sets := exercise.sets;
      sets := sets[setIndex := ApplyUpdate(sets[setIndex], u)];
      newExercises := newExercises[exerciseIndex := exercise.(sets := sets)];
      workout := workout.(exercises := newExercises);
    }

    /** Marks the editor as saving and stores the current workout. */
    method HandleSave()
      modifies this, store
      ensures isSaving
      ensures store.workouts == if store.hasWindow then Lists.Upsert(old(store.workouts), workout, WorkoutIdOf)
                                else old(store.workouts)
      ensures store.profile == old(store.profile) && store.programs == old(store.programs)
      ensures store.version == old(store.version)
      ensures workout == old(workout) && programs == old(programs) && selectedProgramId == old(selectedProgramId)
    {
      isSaving := true;
      store.SaveWorkout(workout);
    }

    /** Deletes every stored workout of the editor's date when the user confirms. */
    method HandleReset(confirmed: bool)
      modifies store
      ensures store.workouts == if confirmed && store.hasWindow then Lists.RemoveKey(old(store.workouts), WorkoutDateOf, date)
                                else old(store.workouts)
      ensures store.profile == old(store.profile) && store.programs == old(store.programs)
      ensures store.version == old(store.version)
    {
      if confirmed {
        store.DeleteWorkout(date);
      }
    }

    /**
     * "Finish Workout" as written: the state update to completed is queued,
     * and the save stores the workout value the handler was created with.
     */
    method FinishWorkoutAsWritten()
      modifies this, store
      ensures workout == old(workout).(completed := true) && isSaving
      ensures store.workouts == if store.hasWindow then Lists.Upsert(old(store.workouts), old(workout), WorkoutIdOf)
                                else old(store.workouts)
      ensures store.profile == old(store.profile) && store.programs == old(store.programs)
      ensures store.version == old(store.version)
    {
      var captured := workout;
      workout := workout.(completed := true);
      isSaving := true;
      store.SaveWorkout(captured);
    }

    /** "Finish Workout" as intended: the stored record is the completed workout. */
    method FinishWorkout()
      modifies this, store
      ensures workout == old(workout).(completed := true) && isSaving
      ensures store.workouts == if store.hasWindow then Lists.Upsert(old(store.workouts), workout, WorkoutIdOf)
                                else old(store.workouts)
      ensures store.profile == old(store.profile) && store.programs == old(store.programs)
      ensures store.version == old(store.version)
    {
      workout := workout.(completed := true);
      HandleSave();
    }
  }

  /**
   * The stale save: finishing a workout that was not completed leaves the stored
   * record under its id not completed, although the editor shows it completed.
   */
  lemma StaleFinishStoresIncomplete(ws: seq<Workout>, w: Workout)
    requires !w.completed
    ensures match Lists.FindFirst(Lists.Upsert(ws, w, WorkoutIdOf), WorkoutIdOf, w.id)
            case None => false
            case Some(stored) => !stored.completed && stored != w.(completed := true)
  {
    Lists.FindByKeyAfterUpsert(ws, w, WorkoutIdOf);
  }

  /** With the intended save, the stored record under the workout's id is completed. */
  lemma FinishStoresCompleted(ws: seq<Workout>, w: Workout)
    ensures match Lists.FindFirst(Lists.Upsert(ws, w.(completed := true), WorkoutIdOf), WorkoutIdOf, w.id)
            case None => false
            case Some(stored) => stored.completed && stored == w.(completed := true)
  {
    Lists.FindByKeyAfterUpsert(ws, w.(completed := true), WorkoutIdOf);
  }
}
