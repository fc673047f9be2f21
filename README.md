# FitOl data layer and views, modelled in Dafny

FitOl is a small fitness tracker. It keeps a user profile, a list of workouts
(one per calendar date, each with exercises and sets) and a list of programs
(named templates of exercises with default sets and reps) in the browser's
local key-value store. This project models the parts of FitOl that compute or
change state and proves what they do:

- the data access layer (`src/lib/storage.ts`). It is a class `Storage.LocalStore`
  whose fields are the stored keys. Its operations are upsert-by-id, first-match
  lookup by date, delete-by-date, the sorted union of exercise names, and the
  version-gated reseed of the default programs. Without a browser window every
  read gives null or `[]` and every write does nothing;
- the workout editor: the template fill from a program, add, remove and update of
  a set, save, reset, and the read-only gate for past dates;
- the "Create Program" page: add and remove an exercise, the save validation,
  and the case-insensitive suggestion filter;
- the progress page's list of exercise names;
- the two month calendars, the set-count parsing of `"NxM"` texts, and the
  per-set save maps of the exercise card and of the legacy app;
- the spreadsheet converter's forward fill and its grouping by weekday.

One Dafny module per source file. Four helper modules sit beside them:

- `Wrappers` holds `Option`;
- `Lists` holds `findIndex`, `find`, `filter`, `splice` and the upsert;
- `Strings` holds `trim`, `toLowerCase`, `includes`, `split`, `parseInt` and the
  code-unit order of `sort`;
- `Dates` holds Gregorian days-in-month, weekday, month shifts and `yyyy-MM-dd`.

The current date, uuids and the answers to `confirm()` are parameters.

## Behaviour worth knowing

- A sets text without an `x`, such as `"10"`, gives 10 sets, because
  `split('x')[0]` is the whole text (src/components/ExerciseCard.tsx:16).
- The lookup by date returns the first stored workout with that date
  (src/lib/storage.ts:42-45). A workout just saved is found by its date only
  when no earlier stored workout has the same date.
- The gender select offers `Other` besides `Male` and `Female`
  (src/components/profile/ProfileForm.tsx:87), so a stored profile's gender can be `Other`.

## Model

| member | source | states |
|---|---|---|
| Types.DeclaredGenderOf | src/types/index.ts:4 | the declared gender union accepts exactly the texts "Male" and "Female" |
| Types.DeclaredGenderMissesOther | src/types/index.ts:4 | some option the forms offer ("Other") has no value in the declared union |
| Types.GenderCoversFormOptions | src/types/index.ts:1-9 | the profile's gender type holds every form option, and a gender's name reads back as that gender |
| Storage.LocalStore.constructor | src/lib/storage.ts:3-7 | a fresh store has no profile, no workouts, no programs and no version marker |
| Storage.LocalStore.GetUserProfile | src/lib/storage.ts:10-14 | the stored profile, or null when there is no window |
| Storage.LocalStore.SaveUserProfile | src/lib/storage.ts:16-19 | the profile is overwritten wholesale and the other keys are unchanged; no-op without a window |
| Storage.LocalStore.GetWorkouts | src/lib/storage.ts:22-26 | the stored workouts in stored order, or [] when there is no window |
| Storage.LocalStore.SaveWorkout | src/lib/storage.ts:28-40 | the workout list becomes the upsert by id of the workout; nothing else changes; no-op without a window |
| Lists.UpsertReplacesInPlace | src/lib/storage.ts:31-34 | with the id already stored, the element at that index is replaced and length and all other elements are unchanged |
| Lists.UpsertAppends | src/lib/storage.ts:35-37 | with an id not yet stored, the element is appended and the prefix is the old list |
| Lists.UpsertContains | src/lib/storage.ts:28-39 | after the upsert the record is stored and the length grew by at most one |
| Lists.FindIndex | src/lib/storage.ts:31 | the first index whose key matches, -1 exactly when no element matches |
| Storage.LocalStore.GetWorkoutByDate | src/lib/storage.ts:42-45 | the first stored workout whose date equals the argument, or none when there is none |
| Lists.FindFirst | src/lib/storage.ts:44 | none exactly when no element has the key; otherwise an element with the key and no earlier element has it |
| Lists.FindFirstIsAt | src/lib/storage.ts:44 | the element at the first matching position is the one found |
| Storage.SavedWorkoutFoundByDate | src/lib/storage.ts:28-45 | after saving w, the lookup by w's date returns w if and only if no workout stored before w's position has that date |
| Storage.EarlierSameDateShadowsSave | src/lib/storage.ts:42-45 | an earlier workout with the same date but another id shadows a newly saved one |
| Lists.FindAfterUpsert | src/lib/storage.ts:28-45 | for any second key, a lookup right after an upsert returns the upserted element iff no earlier element shares that key |
| Lists.FindByKeyAfterUpsert | src/lib/storage.ts:28-45 | a lookup by the upsert's own key right after the upsert returns the upserted record |
| Storage.LocalStore.DeleteWorkout | src/lib/storage.ts:47-52 | the workout list is rewritten without the workouts of the date; nothing else changes; no-op without a window |
| Lists.RemoveKey | src/lib/storage.ts:50 | every kept element is from the list and has another date; every element with another date is kept |
| Lists.RemoveKeyCounts | src/lib/storage.ts:50 | each workout with another date keeps its number of occurrences, and those with the date are gone |
| Lists.RemoveKeyAppend | src/lib/storage.ts:50 | the filter works element by element, so the kept workouts stay in their original order |
| Lists.RemoveAbsentKey | src/lib/storage.ts:47-52 | deleting a date no workout has leaves the list unchanged |
| Storage.DeletedDateNotFound | src/lib/storage.ts:42-52 | after deleting a date, the lookup by that date finds nothing |
| Storage.LocalStore.GetPrograms | src/lib/storage.ts:55-59 | the stored programs, or [] when there is no window |
| Storage.LocalStore.SaveProgram | src/lib/storage.ts:61-73 | the program list becomes the upsert by id of the program; nothing else changes; no-op without a window |
| Storage.LocalStore.GetUniqueExercises | src/lib/storage.ts:75-86 | strictly ascending (so duplicate-free), and it holds exactly the names that occur in some workout's or program's exercises; [] without a window |
| Storage.CollectWorkoutNames | src/lib/storage.ts:82 | the nested loop adds exactly the names of all exercises of all workouts to the set |
| Storage.CollectProgramNames | src/lib/storage.ts:83 | the nested loop adds exactly the names of all exercises of all programs to the set |
| Storage.WorkoutNamesSpec | src/lib/storage.ts:82 | a name is collected iff some exercise of some workout carries it |
| Storage.WorkoutNamesEmpty | src/app/progress/page.tsx:16-20 | no name is collected exactly when no workout has an exercise |
| Storage.ProgramNamesSpec | src/lib/storage.ts:83 | a name is collected iff some exercise of some program carries it |
| Storage.SortNames | src/lib/storage.ts:85 | the sorted array of the set is strictly ascending in code-unit order and holds exactly the set's elements |
| Strings.AscendingUnique | src/lib/storage.ts:85 | a strictly ascending list is determined by its elements, so the sorted name list is unique |
| Strings.AscendingDistinct | src/lib/storage.ts:85 | a strictly ascending list has no duplicates |
| Strings.InsertSortedProperties | src/lib/storage.ts:85 | inserting a name into a strictly ascending list keeps it strictly ascending and adds exactly that name |
| Strings.StrLessTransitive | src/lib/storage.ts:85 | the code-unit order used by sort is transitive |
| Strings.StrLessTotal | src/lib/storage.ts:85 | of two different names one sorts before the other |
| Storage.NamesCaseSensitive | src/lib/storage.ts:80-82 | "Bench Press" and "bench press" are two distinct collected names |
| Storage.LocalStore.InitializeDefaults | src/lib/storage.ts:89-162 | with a window, version and programs become the reseed of the old ones; profile and workouts are unchanged |
| Storage.Reseed | src/lib/storage.ts:93-161 | the marker becomes the current version; a mismatched (or absent) marker overwrites programs with the defaults, a matching one keeps them |
| Storage.ReseedIdempotent | src/lib/storage.ts:89-162 | a second reseed changes nothing |
| Storage.DefaultProgramIds | src/lib/storage.ts:97-158 | the defaults are five programs with ids mon, tue, wed, fri and sat in this order |
| WorkoutEditing.WorkoutEditor.constructor | src/components/workout/WorkoutEditor.tsx:17-25 | the editor starts with a workout of the given date and fresh id, no exercises, not completed, no programs and no selection |
| WorkoutEditing.WorkoutEditor.Load | src/components/workout/WorkoutEditor.tsx:33-40 | programs are loaded; the first stored workout of the date replaces the initial one, and its non-empty program id is selected |
| WorkoutEditing.TemplateSets | src/components/workout/WorkoutEditor.tsx:57-62 | exactly defaultSets sets, each with reps defaultReps, weight 0 and not completed; no sets at all exactly when defaultSets is 0 or negative, as `Array.from({length})` gives |
| WorkoutEditing.TemplateExercises | src/components/workout/WorkoutEditor.tsx:54-63 | one exercise per program exercise, in order, with the same name and its template sets |
| WorkoutEditing.TemplateKeepsNames | src/components/workout/WorkoutEditor.tsx:54-63 | a workout filled from a program carries exactly the program's exercise names |
| WorkoutEditing.SelectProgram | src/components/workout/WorkoutEditor.tsx:42-71 | an empty or unknown id, or a declined confirm, keeps the workout; otherwise the exercises come from the program's template and programId and programName are set; id, date and completed never change |
| WorkoutEditing.WorkoutEditor.HandleProgramSelect | src/components/workout/WorkoutEditor.tsx:42-71 | the selection becomes the id and the workout becomes the program selection |
| WorkoutEditing.WorkoutEditor.AddSet | src/components/workout/WorkoutEditor.tsx:73-84 | one set is appended to the chosen exercise, with the new id, not completed, copying reps and weight of the last set or taking 10 and 0 when there is none; every other exercise and field is unchanged |
| WorkoutEditing.WorkoutEditor.RemoveSet | src/components/workout/WorkoutEditor.tsx:86-90 | exactly the set at setIndex of the chosen exercise is removed; the rest keep their order; other exercises are unchanged |
| Lists.RemoveAt | src/components/workout/WorkoutEditor.tsx:88 | `splice(i, 1)`: the element at i is dropped and the others keep their order; an index past the end removes nothing |
| WorkoutEditing.ApplyUpdate | src/components/workout/WorkoutEditor.tsx:94-97 | the set keeps its id and every field except the updated one |
| WorkoutEditing.ApplyUpdateTwice | src/components/workout/WorkoutEditor.tsx:92-99 | writing the same field twice keeps only the second value |
| WorkoutEditing.WorkoutEditor.UpdateSet | src/components/workout/WorkoutEditor.tsx:92-99 | only the named field of one set changes; every other set and exercise is unchanged |
| WorkoutEditing.ReadOnlyIffPast | src/components/workout/WorkoutEditor.tsx:27-30 | for a well-formed date, read-only holds iff the date is strictly before today |
| WorkoutEditing.TodayIsEditable | src/components/workout/WorkoutEditor.tsx:27-30 | today and later dates are editable |
| WorkoutEditing.EditorViewOfDate | src/components/workout/WorkoutEditor.tsx:120-253 | for the editor's own date, today and stored workouts: a date before today shows the banner (with exercises), no selector, action bar or reset, and disables the inputs; an editable date with exercises shows the action bar, and reset exactly when the workout has an id and some stored workout has the date |
| WorkoutEditing.ReadOnlyOffersNoEditing | src/components/workout/WorkoutEditor.tsx:248-253 | in read-only mode no selector, action bar or reset is offered and the inputs are disabled |
| WorkoutEditing.WorkoutEditor.HandleSave | src/components/workout/WorkoutEditor.tsx:101-108 | the current workout is upserted into the store and the editor is saving |
| WorkoutEditing.WorkoutEditor.HandleReset | src/components/workout/WorkoutEditor.tsx:110-115 | on confirm every stored workout of the date is deleted, otherwise nothing changes |
| WorkoutEditing.WorkoutEditor.FinishWorkoutAsWritten | src/components/workout/WorkoutEditor.tsx:260-262 | the editor shows the workout completed, but the store receives the workout as it was before |
| WorkoutEditing.StaleFinishStoresIncomplete | src/components/workout/WorkoutEditor.tsx:260-262 | after the stale save the record stored under the workout's id is still not completed |
| WorkoutEditing.WorkoutEditor.FinishWorkout | src/components/workout/WorkoutEditor.tsx:260-262 | corrected: the completed workout is what is stored |
| WorkoutEditing.FinishStoresCompleted | src/components/workout/WorkoutEditor.tsx:260-262 | corrected: after finishing, the record stored under the id is the completed workout |
| ProgramAuthoring.NewProgramPage.constructor | src/app/programs/new/page.tsx:14-19 | the page starts with empty name, no exercises, empty input, suggestions hidden, 3 sets and 10 reps |
| ProgramAuthoring.NewProgramPage.TypeExerciseName | src/app/programs/new/page.tsx:89-92 | typing sets the input text and turns the suggestions on |
| ProgramAuthoring.NewProgramPage.FocusExerciseName | src/app/programs/new/page.tsx:93 | focusing the input turns the suggestions on |
| ProgramAuthoring.NewProgramPage.SetName | src/app/programs/new/page.tsx:75 | the program-name input replaces the name; every other field is unchanged |
| ProgramAuthoring.NewProgramPage.SetDefaultSets | src/app/programs/new/page.tsx:122 | the sets input replaces the default set count; every other field is unchanged |
| ProgramAuthoring.NewProgramPage.SetDefaultReps | src/app/programs/new/page.tsx:131 | the reps input replaces the default rep count; every other field is unchanged |
| ProgramAuthoring.NewProgramPage.PickSuggestion | src/app/programs/new/page.tsx:104-107 | picking a suggestion copies it into the input and hides the list |
| ProgramAuthoring.NewProgramPage.AddExercise | src/app/programs/new/page.tsx:21-34 | a blank name changes nothing; otherwise {name, sets, reps} is appended and the inputs reset to '', 3 and 10 |
| Strings.TrimEmptyIffBlank | src/app/programs/new/page.tsx:22 | the trimmed text is empty iff the text is white space only |
| ProgramAuthoring.NewProgramPage.RemoveExercise | src/app/programs/new/page.tsx:36-40 | exactly exercise i is removed and the rest keep their order |
| ProgramAuthoring.NewProgramPage.Save | src/app/programs/new/page.tsx:42-56 | saves iff the name is not blank and there is an exercise; a valid save with a fresh id appends {id, name, exercises} to the programs |
| ProgramAuthoring.Suggestions | src/app/programs/new/page.tsx:99-100 | every suggestion is a known name containing the typed text ignoring case, and every such name is suggested |
| ProgramAuthoring.SuggestionsAscending | src/app/programs/new/page.tsx:99-100 | filtering keeps the original order, so suggestions from the sorted list are sorted and distinct |
| ProgramAuthoring.SuggestionsIgnoreCase | src/app/programs/new/page.tsx:100 | the case of the typed text does not change the suggestions |
| Lists.Filter | src/app/programs/new/page.tsx:100 | `filter`: the kept elements are exactly those satisfying the predicate |
| Lists.FilterAppend | src/app/programs/new/page.tsx:100 | filtering works piece by piece, so kept elements keep their relative order |
| ProgramAuthoring.NewProgramPage.VisibleSuggestions | src/app/programs/new/page.tsx:97-100 | nothing while hidden or the text is empty; otherwise exactly the known names that contain the text ignoring case, ascending |
| Progress.ExerciseNames | src/app/progress/page.tsx:12-48 | strictly ascending and duplicate-free; exactly the names in some workout's exercises (program-only names excluded); the "No exercises recorded yet" message shows exactly when no stored workout has an exercise or there is no window |
| CalendarWidget.MonthDays | src/components/calendar/CalendarWidget.tsx:21-23 | the month's days, one per day from the 1st to the last, ascending |
| CalendarWidget.MonthDaysConsecutive | src/components/calendar/CalendarWidget.tsx:21-23 | the list starts on the 1st, ends on the last day, and each day follows the one before |
| CalendarWidget.View | src/components/calendar/CalendarWidget.tsx:21-27 | padding equals the weekday of the 1st; one cell per day of the month, in order |
| CalendarWidget.DaysInWeekdayColumns | src/components/calendar/CalendarWidget.tsx:59-64 | after the padding, every day sits in the column of its weekday |
| CalendarWidget.DotSpec | src/components/calendar/CalendarWidget.tsx:29-32 | a day has a dot iff some workout has its yyyy-MM-dd date; the dot is completed iff the first such workout is completed |
| CalendarWidget.LinkOpensDay | src/components/calendar/CalendarWidget.tsx:71 | a day links to /workout/ and its own date, and that editor is read-only iff the day is before today |
| CalendarWidget.NextMonthDate | src/components/calendar/CalendarWidget.tsx:18 | the displayed month moves forward by exactly one |
| CalendarWidget.PrevMonthDate | src/components/calendar/CalendarWidget.tsx:19 | the displayed month moves back by exactly one |
| CalendarWidget.NextThenPrevSameView | src/components/calendar/CalendarWidget.tsx:18-19 | forward then back shows the same grid again |
| CalendarWidget.NextMonthClampsDay | src/components/calendar/CalendarWidget.tsx:18 | addMonths clamps the day: January 31st plus one month is the last day of February |
| Dates.AddMonths | src/components/calendar/CalendarWidget.tsx:18 | the same day k months later, clamped to the month's last day |
| Dates.DaysInMonth | src/components/calendar/CalendarWidget.tsx:22 | 28 to 31 days; 29 iff February of a leap year |
| Dates.WeekdayNext | src/components/calendar/CalendarWidget.tsx:26 | the weekday of the next day is one further modulo 7 |
| Dates.WeekdayOfNovemberFirst2025 | src/components/Calendar.tsx:14 | 1 November 2025 is a Saturday |
| Dates.ParseFormatYMD | src/components/calendar/CalendarWidget.tsx:30 | parsing the yyyy-MM-dd text of a date gives that date back |
| Dates.FormatYMDInjective | src/components/calendar/CalendarWidget.tsx:30-31 | distinct dates have distinct yyyy-MM-dd texts |
| MonthCalendar.WeekGrid | src/components/Calendar.tsx:17-20 | every grid cell is a valid date |
| MonthCalendar.GridContainsMonth | src/components/Calendar.tsx:17-20 | the grid contains every day of the month, in order, after the leading days |
| MonthCalendar.GridConsecutive | src/components/Calendar.tsx:17-20 | every cell is the day after the cell before it |
| MonthCalendar.GridStartsSunday | src/components/Calendar.tsx:18 | the first cell is a Sunday |
| MonthCalendar.GridWeekday | src/components/Calendar.tsx:17-20 | cell i falls on weekday i mod 7 |
| MonthCalendar.GridWholeWeeks | src/components/Calendar.tsx:19 | the grid's length is a multiple of 7 and it ends on a Saturday |
| MonthCalendar.GridLength | src/components/Calendar.tsx:17-20 | the grid spans exactly the weeks from the 1st to the last day |
| MonthCalendar.InitialGrid | src/components/Calendar.tsx:14 | the initial November 2025 view runs from 26 October to 6 December, 42 cells |
| MonthCalendar.InMonthIffInStretch | src/components/Calendar.tsx:56 | a cell is in the month iff it lies in the month's stretch of the grid |
| MonthCalendar.DimmedOutsideMonth | src/components/Calendar.tsx:66 | dimmed cells are exactly those before or after the month's days |
| MonthCalendar.HasWorkoutPerColumn | src/components/Calendar.tsx:27-30 | the workout flag depends only on the weekday name, so a column agrees |
| MonthCalendar.DayTargetNamesDay | src/components/Calendar.tsx:22-25 | clicking a day goes to /training/ and the day's own yyyy-MM-dd date |
| ExerciseCard.SetCount | src/components/ExerciseCard.tsx:16 | the count is never 0: a prefix that is 0 or not a number falls back to 3 |
| ExerciseCard.SetCountOfCount | src/components/ExerciseCard.tsx:16 | "NxM" with N > 0 gives N sets |
| ExerciseCard.SetCountOfBareCount | src/components/ExerciseCard.tsx:16 | a bare count without 'x' gives that count |
| ExerciseCard.SetCountOfZero | src/components/ExerciseCard.tsx:16 | a zero or missing count gives 3 |
| Strings.PrefixBeforeSeparator | src/components/ExerciseCard.tsx:16 | split('x')[0] is the text before the first 'x' |
| Strings.ParseIntOfNatToString | src/components/ExerciseCard.tsx:16 | parseInt reads back the decimal text of every non-negative integer |
| ExerciseCard.SavedOrBlank | src/components/ExerciseCard.tsx:24-25 | saved weight and reps for an index, or '' when nothing is saved |
| ExerciseCard.InitialSets | src/components/ExerciseCard.tsx:22-27 | one entry per index below the count, each from the saved data or blank |
| ExerciseCard.Card.constructor | src/components/ExerciseCard.tsx:11-12 | the card starts with no sets |
| ExerciseCard.Card.Init | src/components/ExerciseCard.tsx:15-29 | the sets become the initial sets for the parsed count and the saved entry under the card's key |
| ExerciseCard.Card.HandleChange | src/components/ExerciseCard.tsx:31-42 | only one field of one set changes, and the index-to-set map is stored under the card's key |
| ExerciseCard.IndexMap | src/components/ExerciseCard.tsx:37-40 | the reduced map has exactly the keys 0 to n-1, key i holding set i |
| ExerciseCard.InitialSetsOfIndexMap | src/components/ExerciseCard.tsx:20-41 | rebuilding from a saved map with the same count gives the same sets |
| ExerciseCard.ReloadAfterChange | src/components/ExerciseCard.tsx:15-41 | after a change, a reload with the same count shows exactly the sets shown before |
| ExerciseCard.CardKeyInjective | src/components/ExerciseCard.tsx:20 | distinct (date, index) pairs have distinct storage keys |
| LegacyApp.App.constructor | legacy/app.js:2-7 | no current user; the view starts at 25 November 2025, a valid date |
| LegacyApp.App.LoadUser | legacy/app.js:65-70 | a stored user becomes the current user; otherwise nothing changes |
| LegacyApp.App.SaveUser | legacy/app.js:72-75 | the user is stored and becomes the current user |
| LegacyApp.App.PageLoad | legacy/app.js:21-30 | after load the app is shown iff a user was stored, and that user is the current one |
| LegacyApp.App.PrevMonth | legacy/app.js:48-51 | the view date becomes setMonth(month - 1) of the old one |
| LegacyApp.App.NextMonth | legacy/app.js:53-56 | the view date becomes setMonth(month + 1) of the old one |
| LegacyApp.ShiftMonth | legacy/app.js:49 | same day k months later; a day past that month's end runs over into the next month |
| LegacyApp.ShiftMonthExact | legacy/app.js:49-54 | up to the 28th the shift moves exactly k months and keeps the day |
| LegacyApp.ShiftMonthOverflows | legacy/app.js:54 | 31 January 2025 plus one month is 3 March 2025 |
| LegacyApp.App.RenderCalendar | legacy/app.js:93-157 | the grid is the cells in append order: 7 headers, padding, then the days |
| LegacyApp.Cells | legacy/app.js:103-124 | the grid has 7 + weekday of the 1st + days-in-month cells |
| LegacyApp.CellsLayout | legacy/app.js:103-124 | 7 headers, one empty cell per weekday offset of the 1st, then day k in order |
| LegacyApp.DayCellClassification | legacy/app.js:140-153 | a day has a workout iff its weekday's program is non-empty; it is completed iff something is saved under workout_<date> |
| LegacyApp.LegacySetCountDefault | legacy/app.js:176-178 | a missing or empty sets_reps gives 3 sets |
| LegacyApp.App.OpenWorkout | legacy/app.js:160-208 | the inputs are each exercise's sets numbered from 1, each filled from the saved data |
| LegacyApp.SetRows | legacy/app.js:181-192 | one exercise's rows: sets 1 to the count, weight and reps each, filled from the saved data |
| LegacyApp.App.SaveWorkout | legacy/app.js:220-235 | the map from ex_set to type to value is stored under workout_<date> |
| LegacyApp.SlotKeyInjective | legacy/app.js:230 | distinct (exercise, set) pairs have distinct ex_set keys |
| LegacyApp.LookupAfterPut | legacy/app.js:231-232 | writing one slot leaves every other slot as it was |
| LegacyApp.SaveMapLookup | legacy/app.js:224-233 | with one input per slot, the saved map holds each input's value under its slot |
| LegacyApp.FormSlotsDistinct | legacy/app.js:172-192 | the inputs openWorkout creates occupy distinct slots |
| LegacyApp.SaveThenOpen | legacy/app.js:181-235 | saving the view's inputs and opening the day again shows exactly the saved values |
| ConvertData.Filled | convert_data.py:11 | each cell is the nearest non-missing cell at or above it |
| ConvertData.FilledStep | convert_data.py:11 | a present cell keeps its value; a missing one copies the filled cell above it, or stays missing at the top |
| ConvertData.LastPresentIsLast | convert_data.py:11 | the fill value is a present cell with only missing cells after it |
| ConvertData.LastPresentNoneIff | convert_data.py:11 | the fill value is missing iff every cell so far is missing |
| ConvertData.ForwardFill | convert_data.py:11 | the in-place fill turns the column into its forward fill |
| ConvertData.DayMapValues | convert_data.py:17-23 | the mapped values are English day names, and Pazartesi and Cuma are not keys |
| ConvertData.GroupRows | convert_data.py:25-42 | the row loop builds the grouping of the rows |
| ConvertData.GroupSpec | convert_data.py:27-42 | a day is a key iff some kept row maps to it, and its list is those rows' exercises in row order; each entry copies a row's name and sets_reps, with rir "" when missing |
| ConvertData.GroupKeys | convert_data.py:29-32 | the output keys are only mapped English day names |
| ConvertData.Convert | convert_data.py:5-42 | the program is the grouping of the rows after the forward fill of their Day column |
| ConvertData.NoWorkoutOnDroppedDays | convert_data.py:17-30 | with a converted program, no Monday or Friday has a workout on the training calendar |

## Left out

- JSON text: the store holds typed values. Encoding, decoding and the uncaught
  throw on a malformed blob are not modelled. An absent key is `None` or `[]`.
- The store is four class fields, not one map of string blobs under the keys
  `fitol_user`, `fitol_workouts`, `fitol_programs` and `fitol_version`.
- The clock: "today" and the legacy dates are parameters. The legacy app forms
  its `workout_<date>` key with `toISOString`, which is UTC. The model writes
  that key from the local calendar date, so the time-zone shift is not captured.
- uuids are caller-supplied ids. `confirm()` answers are booleans. `alert()`
  only shows text and is not modelled.
- Rendering, CSS, animation, the `setTimeout` that clears `isSaving`, and
  navigation. Only the link and click-target strings are kept.
- WorkoutEditing.WorkoutEditor.AddSet, RemoveSet, UpdateSet: the source pushes
  into and splices the `sets` array, which the previous state object shares
  through a shallow copy. The model works on values, so that aliasing is not
  captured.
- ProgramAuthoring.NewProgramPage.AddExercise: sets and reps are integers here.
  The source runs them through `Number(...)`, which can give fractions or NaN.
  That is floating point.
- ProgramAuthoring.NewProgramPage.SetDefaultSets: the value is an integer, while
  `Number(...)` of the input can give a fraction or NaN.
- ProgramAuthoring.NewProgramPage.SetDefaultReps: the value is an integer, while
  `Number(...)` of the input can give a fraction or NaN.
- Dates.ParseISODate: only the ten-character `yyyy-MM-dd` form is read. date-fns
  `parseISO` also reads `yyyy`, `yyyy-MM`, `yyyyMMdd` and texts with a time part.
  So a route such as `/workout/2020-01` is read-only in the source, where it is
  1 January 2020, but editable here, since `WorkoutEditing.IsReadOnly` is false
  for a text the model cannot parse. The calendar links always use `yyyy-MM-dd`.
- Types.UserProfile: weight, age and height are `real`. JavaScript numbers are
  IEEE doubles.
- Strings.ToLower: only ASCII letters are lower-cased. Full Unicode case mapping
  is not modelled.
- The weekday name comes from date-fns `EEEE` or `toLocaleDateString('en-US')`.
  Both are modelled as the English name table.
- `pd.read_excel`, `json.dump` and the column renaming: rows are an input
  sequence of the four columns used.
- Strings.StrLess: it compares Unicode scalar values, while `sort` compares UTF-16
  code units. The two orders differ only between characters above U+FFFF and
  characters from U+E000 to U+FFFF.
- The max-weight history chart. Its page is not part of this model.

## Findings

| source | as written | input that shows it | evidently intended | confidence | as-written member | corrected member |
|---|---|---|---|---|---|---|
| src/components/workout/WorkoutEditor.tsx:260-262 | "Finish Workout" queues `completed: true`, then saves the `workout` value the handler captured, which is still not completed | any workout with completed = false, then pressing Finish Workout | the stored record is completed | high, not executed | WorkoutEditing.StaleFinishStoresIncomplete | WorkoutEditing.FinishStoresCompleted |
| src/types/index.ts:4 | the profile's gender admits only 'Male' and 'Female' | the forms' 'Other' option | a gender type that includes 'Other' | medium, not executed | Types.DeclaredGenderMissesOther | Types.GenderCoversFormOptions |
