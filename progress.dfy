/** The progress page's list of exercise names, taken from the stored workouts only. */
module Progress {
  import opened Strings
  import Storage

  /** The "No exercises recorded yet" message is shown exactly for the empty list. */
  predicate ShowsEmptyState(names: seq<string>)
  {
    |names| == 0
  }

  /**
   * Names of all exercises of all stored workouts, each once, ascending.
   * Names that occur only in programs are not listed, and the empty-state
   * message appears exactly when no stored workout has an exercise.
   */
  method ExerciseNames(store: Storage.LocalStore) returns (r: seq<string>)
    ensures StrictlyAscending(r)
    ensures forall x :: x in r <==> store.hasWindow && x in Storage.WorkoutNames(store.workouts)
    ensures ShowsEmptyState(r) <==> !store.hasWindow || forall w :: w in store.workouts ==> |w.exercises| == 0
  {
    var workouts := store.GetWorkouts();
    var uniqueExercises := Storage.CollectWorkoutNames(workouts, {});
    r := Storage.SortNames(uniqueExercises);
    if store.hasWindow {
      Storage.WorkoutNamesEmpty(store.workouts);
      if |r| > 0 {
        assert r[0] in Storage.WorkoutNames(store.workouts);
      }
      if x :| x in Storage.WorkoutNames(store.workouts) {
        assert x in r;
      }
    }
  }
}
