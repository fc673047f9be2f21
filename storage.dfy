/**
 * The data access layer over the browser's key-value store: the profile, the
 * workout list and the program list, each under its own key, and the version
 * marker that gates the reseed of the default programs. Without a browser
 * window (server-side rendering) every read gives null or an empty list and
 * every write does nothing.
 */
module Storage {
  import opened Wrappers
  import opened Types
  import opened Strings
  import Lists

  const CurrentVersion: string := "v3_text_updates"

  /** The names of a list of workout exercises, in any order. */
  function NamesOfExercises(es: seq<WorkoutExercise>): set<string>
  {
    set k | 0 <= k < |es| :: es[k].name
  }

  function NamesOfProgramExercises(es: seq<ProgramExercise>): set<string>
  {
    set k | 0 <= k < |es| :: es[k].name
  }

  /** The names added to the set by `workouts.forEach(w => w.exercises.forEach(e => add(e.name)))`. */
  function WorkoutNames(ws: seq<Workout>): set<string>
  {
    if |ws| == 0 then {} else WorkoutNames(ws[..|ws| - 1]) + NamesOfExercises(ws[|ws| - 1].exercises)
  }

  function ProgramNames(ps: seq<Program>): set<string>
  {
    if |ps| == 0 then {} else ProgramNames(ps[..|ps| - 1]) + NamesOfProgramExercises(ps[|ps| - 1].exercises)
  }

  /** A name occurs in the workouts exactly when some exercise of some workout carries it. */
  lemma {:induction false} WorkoutNamesSpec(ws: seq<Workout>, x: string)
    ensures x in WorkoutNames(ws) <==>
            exists i, j :: 0 <= i < |ws| && 0 <= j < |ws[i].exercises| && ws[i].exercises[j].name == x
  {
    if |ws| > 0 {
      var init := ws[..|ws| - 1];
      WorkoutNamesSpec(init, x);
      if x in WorkoutNames(ws) {
        if x in WorkoutNames(init) {
          var i, j :| 0 <= i < |init| && 0 <= j < |init[i].exercises| && init[i].exercises[j].name == x;
          assert ws[i] == init[i];
        } else {
          var j :| 0 <= j < |ws[|ws| - 1].exercises| && ws[|ws| - 1].exercises[j].name == x;
        }
      }
      if exists i, j :: 0 <= i < |ws| && 0 <= j < |ws[i].exercises| && ws[i].exercises[j].name == x {
        var i, j :| 0 <= i < |ws| && 0 <= j < |ws[i].exercises| && ws[i].exercises[j].name == x;
        if i < |init| {
          assert init[i] == ws[i];
        }
      }
    }
  }

  /** No name is collected exactly when no workout has an exercise. */
  lemma {:induction false} WorkoutNamesEmpty(ws: seq<Workout>)
    ensures WorkoutNames(ws) == {} <==> forall w :: w in ws ==> |w.exercises| == 0
  {
    if |ws| > 0 {
      var init := ws[..|ws| - 1];
      var last := ws[|ws| - 1];
      WorkoutNamesEmpty(init);
      assert |last.exercises| > 0 ==> last.exercises[0].name in NamesOfExercises(last.exercises);
      assert forall w :: w in ws <==> w in init || w == last;
    }
  }

  lemma {:induction false} ProgramNamesSpec(ps: seq<Program>, x: string)
    ensures x in ProgramNames(ps) <==>
            exists i, j :: 0 <= i < |ps| && 0 <= j < |ps[i].exercises| && ps[i].exercises[j].name == x
  {
    if |ps| > 0 {
      var init := ps[..|ps| - 1];
      ProgramNamesSpec(init, x);
      if x in ProgramNames(ps) {
        if x in ProgramNames(init) {
          var i, j :| 0 <= i < |init| && 0 <= j < |init[i].exercises| && init[i].exercises[j].name == x;
          assert ps[i] == init[i];
        } else {
          var j :| 0 <= j < |ps[|ps| - 1].exercises| && ps[|ps| - 1].exercises[j].name == x;
        }
      }
      if exists i, j :: 0 <= i < |ps| && 0 <= j < |ps[i].exercises| && ps[i].exercises[j].name == x {
        var i, j :| 0 <= i < |ps| && 0 <= j < |ps[i].exercises| && ps[i].exercises[j].name == x;
        if i < |init| {
          assert init[i] == ps[i];
        }
      }
    }
  }

  lemma NamesOfExercisesStep(es: seq<WorkoutExercise>, j: nat)
    requires j < |es|
    ensures NamesOfExercises(es[..j + 1]) == NamesOfExercises(es[..j]) + {es[j].name}
  {
    var a, b := es[..j + 1], es[..j];
    forall x | x in NamesOfExercises(a)
      ensures x in NamesOfExercises(b) + {es[j].name}
    {
      var k :| 0 <= k < |a| && a[k].name == x;
      if k < j {
        assert b[k] == a[k];
      }
    }
    forall x | x in NamesOfExercises(b) + {es[j].name}
      ensures x in NamesOfExercises(a)
    {
      if x == es[j].name {
        assert a[j] == es[j];
      } else {
        var k :| 0 <= k < |b| && b[k].name == x;
        assert a[k] == b[k];
      }
    }
  }

  lemma NamesOfProgramExercisesStep(es: seq<ProgramExercise>, j: nat)
    requires j < |es|
    ensures NamesOfProgramExercises(es[..j + 1]) == NamesOfProgramExercises(es[..j]) + {es[j].name}
  {
    var a, b := es[..j + 1], es[..j];
    forall x | x in NamesOfProgramExercises(a)
      ensures x in NamesOfProgramExercises(b) + {es[j].name}
    {
      var k :| 0 <= k < |a| && a[k].name == x;
      if k < j {
        assert b[k] == a[k];
      }
    }
    forall x | x in NamesOfProgramExercises(b) + {es[j].name}
      ensures x in NamesOfProgramExercises(a)
    {
      if x == es[j].name {
        assert a[j] == es[j];
      } else {
        var k :| 0 <= k < |b| && b[k].name == x;
        assert a[k] == b[k];
      }
    }
  }

  /** The nested `forEach` over the workouts' exercises, adding each name to a set. */
  method CollectWorkoutNames(ws: seq<Workout>, names0: set<string>) returns (names: set<string>)
    ensures names == names0 + WorkoutNames(ws)
  {
    names := names0;
    var i := 0;
    while i < |ws|
      invariant 0 <= i <= |ws|
      invariant names == names0 + WorkoutNames(ws[..i])
    {
      var es := ws[i].exercises;
      var j := 0;
      while j < |es|
        invariant 0 <= j <= |es|
        invariant names == names0 + WorkoutNames(ws[..i]) + NamesOfExercises(es[..j])
      {
        NamesOfExercisesStep(es, j);
        names := names + {es[j].name};
        j := j + 1;
      }
      assert es[..j] == es;
      assert ws[..i + 1][..i] == ws[..i];
      i := i + 1;
    }
    assert ws[..i] == ws;
  }

  method CollectProgramNames(ps: seq<Program>, names0: set<string>) returns (names: set<string>)
    ensures names == names0 + ProgramNames(ps)
  {
    names := names0;
    var i := 0;
    while i < |ps|
      invariant 0 <= i <= |ps|
      invariant names == names0 + ProgramNames(ps[..i])
    {
      var es := ps[i].exercises;
      var j := 0;
      while j < |es|
        invariant 0 <= j <= |es|
        invariant names == names0 + ProgramNames(ps[..i]) + NamesOfProgramExercises(es[..j])
      {
        NamesOfProgramExercisesStep(es, j);
        names := names + {es[j].name};
        j := j + 1;
      }
      assert es[..j] == es;
      assert ps[..i + 1][..i] == ps[..i];
      i := i + 1;
    }
    assert ps[..i] == ps;
  }

  /**
   * `Array.from(set).sort()`: the names in ascending code-unit order, each once.
   * By AscendingUnique this list is the only one with these two properties.
   */
  method SortNames(names: set<string>) returns (r: seq<string>)
    ensures StrictlyAscending(r)
    ensures forall x :: x in r <==> x in names
  {
    r := [];
    var rest := names;
    while rest != {}
      invariant rest <= names
      invariant StrictlyAscending(r)
      invariant forall x :: x in r <==> x in names && x !in rest
      decreases |rest|
    {
      var x :| x in rest;
      InsertSortedProperties(r, x);
      r := InsertSorted(r, x);
      rest := rest - {x};
    }
  }

  /** The programs written by the version-gated reseed, in this order. */
  function DefaultPrograms(): seq<Program>
  {
    [
      Program("mon", "Pazartesi (Chest & Shoulders)", [
        ProgramExercise("Bench Press", 4, 8),
        ProgramExercise("Incline Dumbbell Press", 4, 8),
        ProgramExercise("Cable Cross", 3, 12),
        ProgramExercise("Overhead Press", 4, 10),
        ProgramExercise("Lateral Raise", 4, 12),
        ProgramExercise("Rear Delt", 3, 12),
        ProgramExercise("Triceps Pushdown", 4, 10)]),
      Program("tue", "Salı (Back & Arms)", [
        ProgramExercise("Lat Pulldown", 4, 10),
        ProgramExercise("Barbell Row", 4, 10),
        ProgramExercise("Cable Row", 3, 12),
        ProgramExercise("Pullover", 3, 12),
        ProgramExercise("Pull Up", 1, 10),
        ProgramExercise("Barbell Curl", 4, 10),
        ProgramExercise("Dumbell Curl", 4, 10)]),
      Program("wed", "Çarşamba (Legs)", [
        ProgramExercise("Squat", 4, 10),
        ProgramExercise("Leg Press", 4, 10),
        ProgramExercise("Leg Curl", 5, 12),
        ProgramExercise("Calf Raise", 4, 15)]),
      Program("fri", "Cuma (Upper Body)", [
        ProgramExercise("Incline Dumbbell Press", 4, 8),
        ProgramExercise("Cable Cross", 3, 12),
        ProgramExercise("Overhead Press", 4, 10),
        ProgramExercise("Lateral Raise", 3, 10),
        ProgramExercise("Rear Delt", 3, 12),
        ProgramExercise("Triceps Pushdown", 4, 10)]),
      Program("sat", "Cumartesi (Full Body / Mix)", [
        ProgramExercise("Lat Pulldown", 4, 10),
        ProgramExercise("Cable Row", 4, 12),
        ProgramExercise("Romanian Deadlift", 4, 10),
        ProgramExercise("Dumbell Curl", 4, 10),
        ProgramExercise("Leg Press", 5, 10),
        ProgramExercise("Calf Raise", 4, 15)])
    ]
  }

  /** The default programs are five, with the ids mon, tue, wed, fri and sat in this order. */
  lemma DefaultProgramIds()
    ensures |DefaultPrograms()| == 5
    ensures forall i :: 0 <= i < 5 ==> DefaultPrograms()[i].id == ["mon", "tue", "wed", "fri", "sat"][i]
  {
  }

  /**
   * The effect of initializeDefaults on the version marker and the program list:
   * a marker other than the current version (an absent one included) overwrites
   * the programs with the defaults and stores the current version.
   */
  function Reseed(version: Option<string>, programs: seq<Program>): (r: (Option<string>, seq<Program>))
    ensures r.0 == Some(CurrentVersion)
    ensures version == Some(CurrentVersion) ==> r.1 == programs
    ensures version != Some(CurrentVersion) ==> r.1 == DefaultPrograms()
  {
    if version != Some(CurrentVersion) then (Some(CurrentVersion), DefaultPrograms()) else (version, programs)
  }

  /** Running the reseed a second time changes nothing. */
  lemma ReseedIdempotent(version: Option<string>, programs: seq<Program>)
    ensures var (v, ps) := Reseed(version, programs); Reseed(v, ps) == (v, ps)
  {
  }

  /** The browser store as the data layer sees it. */
  class LocalStore {
    /** `typeof window !== 'undefined'`: fixed for the lifetime of the page. */
    const hasWindow: bool
    var profile: Option<UserProfile>
    var workouts: seq<Workout>
    var programs: seq<Program>
    var version: Option<string>

    /** A store with none of the keys set. */
    constructor (hasWindow: bool)
      ensures this.hasWindow == hasWindow
      ensures profile == None && workouts == [] && programs == [] && version == None
    {
      this.hasWindow := hasWindow;
      profile, workouts, programs, version := None, [], [], None;
    }

    method GetUserProfile() returns (r: Option<UserProfile>)
      ensures !hasWindow ==> r == None
      ensures hasWindow ==> r == profile
    {
      if !hasWindow { return None; }
      r := profile;
    }

    /** Overwrites the profile wholesale, with no validation. */
    method SaveUserProfile(p: UserProfile)
      modifies this
      ensures profile == if hasWindow then Some(p) else old(profile)
      ensures workouts == old(workouts) && programs == old(programs) && version == old(version)
    {
      if !hasWindow { return; }
      profile := Some(p);
    }

    method GetWorkouts() returns (r: seq<Workout>)
      ensures !hasWindow ==> r == []
      ensures hasWindow ==> r == workouts
    {
      if !hasWindow { return []; }
      r := workouts;
    }

    /** Replaces the stored workout with the same id, or appends the workout. */
    method SaveWorkout(w: Workout)
      modifies this
      ensures workouts == if hasWindow then Lists.Upsert(old(workouts), w, WorkoutIdOf) else old(workouts)
      ensures profile == old(profile) && programs == old(programs) && version == old(version)
    {
      if !hasWindow { return; }
      var ws := GetWorkouts();
      var index := Lists.FindIndex(ws, WorkoutIdOf, w.id);
      if index >= 0 {
        ws := ws[index := w];
      } else {
        ws := ws + [w];
      }
      workouts := ws;
    }

    /** The first stored workout whose date is the given one. */
    method GetWorkoutByDate(date: string) returns (r: Option<Workout>)
      ensures !hasWindow ==> r == None
      ensures hasWindow ==> r == Lists.FindFirst(workouts, WorkoutDateOf, date)
      ensures r.Some? ==> r.value in workouts && r.value.date == date
    {
      var ws := GetWorkouts();
      r := Lists.FindFirst(ws, WorkoutDateOf, date);
    }

    /** Rewrites the workout list without any workout of the given date. */
    method DeleteWorkout(date: string)
      modifies this
      ensures workouts == if hasWindow then Lists.RemoveKey(old(workouts), WorkoutDateOf, date) else old(workouts)
      ensures profile == old(profile) && programs == old(programs) && version == old(version)
    {
      if !hasWindow { return; }
      var ws := GetWorkouts();
      workouts := Lists.RemoveKey(ws, WorkoutDateOf, date);
    }

    method GetPrograms() returns (r: seq<Program>)
      ensures !hasWindow ==> r == []
      ensures hasWindow ==> r == programs
    {
      if !hasWindow { return []; }
      r := programs;
    }

    /** Replaces the stored program with the same id, or appends the program. */
    method SaveProgram(p: Program)
      modifies this
      ensures programs == if hasWindow then Lists.Upsert(old(programs), p, ProgramIdOf) else old(programs)
      ensures profile == old(profile) && workouts == old(workouts) && version == old(version)
    {
      if !hasWindow { return; }
      var ps := GetPrograms();
      var index := Lists.FindIndex(ps, ProgramIdOf, p.id);
      if index >= 0 {
        ps := ps[index := p];
      } else {
        ps := ps + [p];
      }
      programs := ps;
    }

    /**
     * Every exercise name of every workout and every program, compared
     * case-sensitively, each once, in ascending order.
     */
    method GetUniqueExercises() returns (r: seq<string>)
      ensures !hasWindow ==> r == []
      ensures StrictlyAscending(r)
      ensures hasWindow ==> forall x :: x in r <==> x in WorkoutNames(workouts) || x in ProgramNames(programs)
    {
      if !hasWindow { return []; }
      var ws := GetWorkouts();
      var ps := GetPrograms();
      var names := CollectWorkoutNames(ws, {});
      names := CollectProgramNames(ps, names);
      r := SortNames(names);
    }

    /** The version-gated destructive reseed of the default programs. */
    method InitializeDefaults()
      modifies this
      ensures hasWindow ==> (version, programs) == Reseed(old(version), old(programs))
      ensures !hasWindow ==> version == old(version) && programs == old(programs)
      ensures profile == old(profile) && workouts == old(workouts)
    {
      if !hasWindow { return; }
      var storedVersion := version;
      if storedVersion != Some(CurrentVersion) {
        programs := DefaultPrograms();
        version := Some(CurrentVersion);
      }
    }
  }

  /**
   * After saving w, the lookup by w's date returns w exactly when no workout
   * stored before w's position has the same date.
   */
  lemma SavedWorkoutFoundByDate(ws: seq<Workout>, w: Workout)
    ensures Lists.FindFirst(Lists.Upsert(ws, w, WorkoutIdOf), WorkoutDateOf, w.date) == Some(w) <==>
            forall j :: 0 <= j < Lists.UpsertPosition(ws, w, WorkoutIdOf) ==> ws[j].date != w.date
  {
    Lists.FindAfterUpsert(ws, w, WorkoutIdOf, WorkoutDateOf);
  }

  /** An earlier workout of the same date shadows a newly saved one. */
  lemma EarlierSameDateShadowsSave(a: Workout, w: Workout)
    requires a.date == w.date && a.id != w.id
    ensures Lists.FindFirst(Lists.Upsert([a], w, WorkoutIdOf), WorkoutDateOf, w.date) == Some(a)
  {
    Lists.UpsertAppends([a], w, WorkoutIdOf);
    Lists.FindFirstIsAt([a, w], WorkoutDateOf, w.date, 0);
  }

  /** Names are compared case-sensitively: "Bench Press" and "bench press" are two entries. */
  lemma NamesCaseSensitive(id: string, date: string, setsA: seq<WorkoutSet>, setsB: seq<WorkoutSet>)
    ensures var w := Workout(id, date, None, None,
                             [WorkoutExercise("a", "Bench Press", setsA), WorkoutExercise("b", "bench press", setsB)], false);
            "Bench Press" in WorkoutNames([w]) && "bench press" in WorkoutNames([w]) &&
            "Bench Press" != "bench press"
  {
    var w := Workout(id, date, None, None,
                     [WorkoutExercise("a", "Bench Press", setsA), WorkoutExercise("b", "bench press", setsB)], false);
    assert [w][..0] == [];
    assert w.exercises[0].name == "Bench Press" && w.exercises[1].name == "bench press";
    assert "Bench Press"[0] != "bench press"[0];
  }

  /** After deleting a date, no workout of that date is found. */
  lemma DeletedDateNotFound(ws: seq<Workout>, date: string)
    ensures Lists.FindFirst(Lists.RemoveKey(ws, WorkoutDateOf, date), WorkoutDateOf, date) == None
  {
  }
}
