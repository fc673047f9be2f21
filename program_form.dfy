/**
 * The "Create Program" page: a program name, the list of exercises added so
 * far, the inputs for the next exercise, and the autocomplete suggestions taken
 * from the names already known to the data layer.
 */
module ProgramAuthoring {
  import opened Types
  import opened Strings
  import Lists
  import Storage

  /** `ex.toLowerCase().includes(typed.toLowerCase())`. */
  predicate MatchesIgnoringCase(name: string, typed: string)
  {
    Contains(ToLower(name), ToLower(typed))
  }

  /** The known names that contain the typed text, ignoring case, in their original order. */
  function Suggestions(names: seq<string>, typed: string): (r: seq<string>)
    ensures forall j :: 0 <= j < |r| ==> r[j] in names && MatchesIgnoringCase(r[j], typed)
    ensures forall j :: 0 <= j < |names| && MatchesIgnoringCase(names[j], typed) ==> names[j] in r
  {
    Lists.Filter(names, x => MatchesIgnoringCase(x, typed))
  }

  /** The typed text's case does not matter. */
  lemma SuggestionsIgnoreCase(names: seq<string>, typed: string)
    ensures Suggestions(names, typed) == Suggestions(names, ToLower(typed))
  {
    ToLowerIdempotent(typed);
    Lists.FilterCongruent(names, x => MatchesIgnoringCase(x, typed), x => MatchesIgnoringCase(x, ToLower(typed)));
  }

  /** Filtering keeps the known names' ascending order, so the suggestions are sorted and distinct. */
  lemma {:induction false} SuggestionsAscending(names: seq<string>, typed: string)
    requires StrictlyAscending(names)
    ensures StrictlyAscending(Suggestions(names, typed))
  {
    if |names| > 0 {
      var rest := names[1..];
      assert StrictlyAscending(rest) by {
        assert forall i :: 0 <= i < |rest| ==> rest[i] == names[i + 1];
      }
      SuggestionsAscending(rest, typed);
      var tail := Suggestions(rest, typed);
      assert Suggestions(names, typed) == (if MatchesIgnoringCase(names[0], typed) then [names[0]] else []) + tail;
      forall j | 0 <= j < |tail|
        ensures StrLess(names[0], tail[j])
      {
        var k :| 0 <= k < |rest| && rest[k] == tail[j];
        assert names[k + 1] == tail[j];
      }
    }
  }

  /** The suggestion list is on screen only while suggestions are enabled and the text is non-empty. */
  predicate SuggestionsShown(showSuggestions: bool, typed: string)
  {
    showSuggestions && typed != ""
  }

  class NewProgramPage {
    const store: Storage.LocalStore
    var name: string
    var exercises: seq<ProgramExercise>
    var newExerciseName: string
    var showSuggestions: bool
    var defaultSets: int
    var defaultReps: int

    constructor (store: Storage.LocalStore)
      ensures this.store == store
      ensures name == "" && exercises == [] && newExerciseName == "" && !showSuggestions
      ensures defaultSets == 3 && defaultReps == 10
    {
      this.store := store;
      name, exercises, newExerciseName, showSuggestions := "", [], "", false;
      defaultSets, defaultReps := 3, 10;
    }

    /** Typing in the exercise-name input turns the suggestions on. */
    method TypeExerciseName(text: string)
      modifies this
      ensures newExerciseName == text && showSuggestions
      ensures name == old(name) && exercises == old(exercises)
      ensures defaultSets == old(defaultSets) && defaultReps == old(defaultReps)
    {
      newExerciseName := text;
      showSuggestions := true;
    }

    /** Focusing the exercise-name input turns the suggestions on as well. */
    method FocusExerciseName()
      modifies this
      ensures showSuggestions && newExerciseName == old(newExerciseName)
      ensures name == old(name) && exercises == old(exercises)
      ensures defaultSets == old(defaultSets) && defaultReps == old(defaultReps)
    {
      showSuggestions := true;
    }

    /** Typing in the program-name input replaces the name and nothing else. */
    method SetName(text: string)
      modifies this
      ensures name == text
      ensures exercises == old(exercises) && newExerciseName == old(newExerciseName)
      ensures showSuggestions == old(showSuggestions)
      ensures defaultSets == old(defaultSets) && defaultReps == old(defaultReps)
    {
      name := text;
    }

    /** The sets input: its value, read as a number, becomes the default set count. */
    method SetDefaultSets(value: int)
      modifies this
      ensures defaultSets == value
      ensures name == old(name) && exercises == old(exercises)
      ensures newExerciseName == old(newExerciseName) && showSuggestions == old(showSuggestions)
      ensures defaultReps == old(defaultReps)
    {
      defaultSets := value;
    }

    /** The reps input: its value, read as a number, becomes the default rep count. */
    method SetDefaultReps(value: int)
      modifies this
      ensures defaultReps == value
      ensures name == old(name) && exercises == old(exercises)
      ensures newExerciseName == old(newExerciseName) && showSuggestions == old(showSuggestions)
      ensures defaultSets == old(defaultSets)
    {
      defaultReps := value;
    }

    /** Picking a suggestion copies it into the input and hides the list. */
    method PickSuggestion(suggestion: string)
      modifies this
      ensures newExerciseName == suggestion && !showSuggestions
      ensures !SuggestionsShown(showSuggestions, newExerciseName)
      ensures name == old(name) && exercises == old(exercises)
      ensures defaultSets == old(defaultSets) && defaultReps == old(defaultReps)
    {
      newExerciseName := suggestion;
      showSuggestions := false;
    }

    /**
     * A blank exercise name adds nothing. Otherwise the exercise, with its name
     * as typed (untrimmed), is appended and the inputs go back to '', 3 and 10.
     */
    method AddExercise()
      modifies this
      ensures IsBlank(old(newExerciseName)) ==>
                exercises == old(exercises) && newExerciseName == old(newExerciseName) &&
                defaultSets == old(defaultSets) && defaultReps == old(defaultReps)
      ensures !IsBlank(old(newExerciseName)) ==>
                exercises == old(exercises) + [ProgramExercise(old(newExerciseName), old(defaultSets), old(defaultReps))] &&
                newExerciseName == "" && defaultSets == 3 && defaultReps == 10
      ensures name == old(name) && showSuggestions == old(showSuggestions)
    {
      TrimEmptyIffBlank(newExerciseName);
      if Trim(newExerciseName) == [] { return; }
      exercises := exercises + [ProgramExercise(newExerciseName, defaultSets, defaultReps)];
      newExerciseName := "";
      defaultSets := 3;
      defaultReps := 10;
    }

    /** Removes exactly the exercise at index, keeping the others in order. */
    method RemoveExercise(index: nat)
      modifies this
      ensures exercises == Lists.RemoveAt(old(exercises), index)
      ensures name == old(name) && newExerciseName == old(newExerciseName) && showSuggestions == old(showSuggestions)
      ensures defaultSets == old(defaultSets) && defaultReps == old(defaultReps)
    {
      var newExercises := exercises;
      newExercises := Lists.RemoveAt(newExercises, index);
      exercises := newExercises;
    }

    /**
     * Saves the program under a fresh id when the name is not blank and there is
     * at least one exercise; otherwise stores nothing.
     */
    method Save(newId: string) returns (saved: bool)
      modifies store
      ensures saved <==> !IsBlank(name) && |exercises| > 0
      ensures !saved ==> store.programs == old(store.programs)
      ensures saved ==> store.programs == if store.hasWindow then Lists.Upsert(old(store.programs), Program(newId, name, exercises), ProgramIdOf)
                                          else old(store.programs)
      ensures saved && store.hasWindow && (forall j :: 0 <= j < |old(store.programs)| ==> old(store.programs)[j].id != newId) ==>
                store.programs == old(store.programs) + [Program(newId, name, exercises)]
      ensures store.profile == old(store.profile) && store.workouts == old(store.workouts)
      ensures store.version == old(store.version)
    {
      TrimEmptyIffBlank(name);
      if Trim(name) == [] || |exercises| == 0 {
        return false;
      }
      var newProgram := Program(newId, name, exercises);
      if forall j :: 0 <= j < |store.programs| ==> store.programs[j].id != newId {
        Lists.UpsertAppends(store.programs, newProgram, ProgramIdOf);
      }
      store.SaveProgram(newProgram);
      saved := true;
    }

    /** The suggestions on screen: none while hidden, otherwise the filtered known names. */
    method VisibleSuggestions() returns (r: seq<string>)
      ensures !SuggestionsShown(showSuggestions, newExerciseName) ==> r == []
      ensures StrictlyAscending(r)
      ensures SuggestionsShown(showSuggestions, newExerciseName) ==>
                forall x :: x in r <==>
                  store.hasWindow && (x in Storage.WorkoutNames(store.workouts) || x in Storage.ProgramNames(store.programs)) &&
                  MatchesIgnoringCase(x, newExerciseName)
    {
      if !SuggestionsShown(showSuggestions, newExerciseName) {
        return [];
      }
      var unique := store.GetUniqueExercises();
      SuggestionsAscending(unique, newExerciseName);
      r := Suggestions(unique, newExerciseName);
      assert forall x :: x in unique ==> exists j :: 0 <= j < |unique| && unique[j] == x;
    }
  }
}
