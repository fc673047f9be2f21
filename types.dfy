/**
 * The stored records of FitOl: the user profile, workouts with their exercises
 * and sets, and programs (named templates of exercises).
 */
module Types {
  import opened Wrappers

  /** The gender union as the record type declares it. */
  datatype DeclaredGender = DeclaredMale | DeclaredFemale

  /** The values the profile forms offer, which the profile record holds at run time. */
  datatype Gender = Male | Female | Other

  /** The single user's profile; height and image are optional. */
  datatype UserProfile = UserProfile(
    firstName: string,
    lastName: string,
    gender: Gender,
    weight: real,
    age: real,
    height: Option<real>,
    image: Option<string>)

  /** A set's reps and weight are a number, or the text an input field produced. */
  datatype NumOrText = Num(n: real) | Text(t: string)

  datatype WorkoutSet = WorkoutSet(id: string, reps: NumOrText, weight: NumOrText, completed: bool)

  datatype WorkoutExercise = WorkoutExercise(id: string, name: string, sets: seq<WorkoutSet>)

  /** A workout for one calendar date; the program reference is an optional snapshot. */
  datatype Workout = Workout(
    id: string,
    date: string,
    programId: Option<string>,
    programName: Option<string>,
    exercises: seq<WorkoutExercise>,
    completed: bool)

  datatype ProgramExercise = ProgramExercise(name: string, defaultSets: int, defaultReps: int)

  datatype Program = Program(id: string, name: string, exercises: seq<ProgramExercise>)

  /** The keys the data layer looks records up by. */
  function WorkoutIdOf(w: Workout): string { w.id }
  function WorkoutDateOf(w: Workout): string { w.date }
  function ProgramIdOf(p: Program): string { p.id }

  /** The options of the gender selector in the profile and onboarding forms. */
  const GenderFormOptions: seq<string> := ["Male", "Female", "Other"]

  /** Reading a form option into the declared union: only two of the three options have a value. */
  function DeclaredGenderOf(s: string): (r: Option<DeclaredGender>)
    ensures r.Some? <==> s == "Male" || s == "Female"
  {
    if s == "Male" then Some(DeclaredMale) else if s == "Female" then Some(DeclaredFemale) else None
  }

  /** The declared union has no value for the form's third option. */
  lemma DeclaredGenderMissesOther()
    ensures exists o :: o in GenderFormOptions && DeclaredGenderOf(o) == None
  {
    var o := GenderFormOptions[2];
    assert o == "Other" && o != "Male" && o != "Female";
    assert o in GenderFormOptions && DeclaredGenderOf(o) == None;
  }

  function GenderName(g: Gender): string
  {
    match g
    case Male => "Male"
    case Female => "Female"
    case Other => "Other"
  }

  function GenderOf(s: string): Option<Gender>
  {
    if s == "Male" then Some(Male) else if s == "Female" then Some(Female)
    else if s == "Other" then Some(Other) else None
  }

  /** Every form option is a gender, and a gender's name reads back as that gender. */
  lemma GenderCoversFormOptions()
    ensures forall o :: o in GenderFormOptions ==> GenderOf(o).Some? && GenderName(GenderOf(o).value) == o
    ensures forall g :: GenderOf(GenderName(g)) == Some(g)
  {
  }
}
