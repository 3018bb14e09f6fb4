# Mapty workouts in Dafny

A model of the workout domain of the Mapty activity tracker (`script.js`): the `Workout`
records with their two kinds, Running and Cycling, the description and id every record
carries, the input validation of `App._newWorkout`, and the in-memory `#workouts` list that a
submission appends to, a click looks up by id and start-up replaces with the stored list.

- `wrappers.dfy`: module `Wrappers`, `Option` and `Result`.
- `numbers.dfy`: module `Numbers`, the JavaScript numbers the form yields. A number is a
  finite value (an exact `real`), `NaN`, or one of the two infinities. The module also holds
  `Number.isFinite`, `> 0` and `every` over a list of inputs.
- `text.dfy`: module `Text`, the decimal numeral of a non-negative integer, `slice(-k)` for k >= 1,
  first-letter upper-casing, and the lemmas that read numerals back.
- `workouts.dfy`: module `Workouts`, the `Workout` datatype (`Running | Cycling`), the
  constructors with `calcPace` / `calcSpeed`, `_setDescription`, the id, and the invariant
  `WellFormed` that every constructed record satisfies.
- `app.dfy`: module `Mapty`, the form submission, the validation, the append, the lookup,
  the restore and the start-up.

The clock is a parameter: the constructors take the calendar fields of `new Date()` (month
index and day) and the millisecond timestamp of `Date.now()` separately, since the source reads
the clock twice. The stored value of `localStorage` is a parameter of `Restore`:
`None` is an absent key, `Some(list)` the records it holds.

The source's field `discription` is called `description` here.

Behaviour of the code worth knowing:
- No duplicate-id check exists. Two records created in the same millisecond share an id. So
  do two records whose timestamps differ by a multiple of 10^10 ms (about 115.7 days), since
  the id keeps only the last ten digits (`Workouts.WorkoutIdValue`); the stored list persists
  across sessions, so this is reachable. `Mapty.FindIndexAppend` shows that lookup then always
  finds the earlier record.
- Restore does not rebuild typed records: a present stored list replaces `#workouts` as it
  is, with the pace or speed and description stored on each record (`Mapty.Restore`, `Mapty.WellFormedRunningIsRebuilt`).
- Cycling accepts any finite elevation gain, negative ones included.
- Every rejection raises the same alert, whichever rule failed; there is no error per rule.

## Model

| member | source | states |
|---|---|---|
| `Numbers.AllFinite` | script.js:139-140 | `validInputs` holds exactly when every input is a finite number |
| `Numbers.AllPositive` | script.js:143 | `allPositive` holds exactly when every input is greater than zero (positive infinity counts, NaN does not) |
| `Workouts.WorkoutId` | script.js:15 | the id is the suffix of the timestamp's decimal numeral whose length is ten, or the whole numeral when that is shorter; it is all digits, and a short id has no leading zero |
| `Workouts.WorkoutIdValue` | script.js:15 | the id reads back as the timestamp modulo 10^10, i.e. its last ten decimal digits |
| `Text.DecimalString` | script.js:15 | `n + ''` of a non-negative integer is a non-empty string of digits with no leading zero, one character long exactly when n < 10; it reads back as n (`Text.ParseDecimalString`) |
| `Text.ParseDecimalString` | script.js:29 | the numeral of any non-negative integer, the unpadded day included, reads back as that integer |
| `Text.ParseLastDigits` | script.js:15 | for any k, the last k characters of a numeral are digits that denote the number modulo 10^k |
| `Text.TakeLast` | script.js:15 | for k >= 1, `slice(-k)` returns the suffix of s whose length is the smaller of k and the length of s (the only call is `slice(-10)`) |
| `Text.Capitalize` | script.js:29 | the first letter becomes its upper case, no longer a lower-case letter, and the rest of the word is unchanged |
| `Workouts.TitlesDiffer` | script.js:29 | "Running" and "Cycling", the capitalised types, are seven letters each and distinct |
| `Workouts.Describe` | script.js:25-30 | for every type and valid date, the description is the capitalised type in its first seven characters, then " on ", then the month name, a space and the unpadded day |
| `Workouts.DescribeExample` | script.js:25-30 | a Running record of 12 April is described "Running on April 12" (month index 3, unpadded day) |
| `Workouts.DescribeInjective` | script.js:25-30 | two descriptions are equal only when type, month and day are equal, so the description determines all three |
| `Workouts.NewRunning` | script.js:34-50 | a constructed Running record has type "running", carries the given coords, distance, duration, cadence, date and id, and is well formed: pace is duration / distance and the description matches its type and date |
| `Workouts.NewCycling` | script.js:54-71 | a constructed Cycling record has type "cycling", carries the given fields, and is well formed: speed is distance / (duration / 60) and the description matches |
| `Workouts.CalcPace` | script.js:47-50 | `calcPace`: the pace times the distance gives back the duration |
| `Workouts.CalcSpeed` | script.js:68-71 | `calcSpeed`: the speed times the duration in hours gives back the distance |
| `Workouts.PaceTimesDistance` | script.js:47-50 | in any well-formed Running record, stored pace times distance gives back duration |
| `Workouts.SpeedTimesHours` | script.js:68-71 | in any well-formed Cycling record, stored speed times duration in hours gives back distance |
| `Mapty.Validate` | script.js:153-173 | the guard accepts exactly the acceptable inputs: Running needs all three finite and positive; Cycling needs all three finite but only distance and duration positive; an accepted input has positive distance and duration |
| `Mapty.Build` | script.js:146-175 | a record is built exactly when the input is acceptable; it is well formed, of the submitted kind, and carries the submitted values, coords, date and id |
| `Mapty.NewWorkout` | script.js:136-177 | the outcome is the record built from the submission or the alert; a rejected submission leaves the list unchanged; an accepted one makes it one longer, keeps every earlier entry in place and puts that built record last |
| `Mapty.NewWorkoutKeepsWellFormed` | script.js:177 | appending an accepted workout keeps every record of the list well formed |
| `Mapty.FindIndex` | script.js:278 | the index returned holds the id and no earlier entry does; no index means no entry holds the id |
| `Mapty.Find` | script.js:278 | `find` returns the first record with the id, and returns nothing exactly when no record has it |
| `Mapty.FindIndexAppend` | script.js:278 | after an append, lookup finds the same earlier record if one had the id, else the new record if it has the id, else nothing |
| `Mapty.FindAfterNewWorkout` | script.js:278 | the same, for the list an accepted submission produced |
| `Mapty.Restore` | script.js:297-303 | an absent stored value leaves the list as it was; a present one replaces it entry for entry in stored order |
| `Mapty.Startup` | script.js:80-93 | start-up gives an empty list when nothing is stored, and exactly the stored list otherwise |
| `Mapty.WellFormedRunningIsRebuilt` | script.js:297-303 | a stored well-formed Running record whose id came from timestamp `now` equals the record its own raw fields rebuild at `now` (same pace and description), so restoring plain data loses no derived field |
| `Mapty.WellFormedCyclingIsRebuilt` | script.js:297-303 | the same for a Cycling record and its speed |
| `Mapty.RestoreKeepsWellFormed` | script.js:303 | restoring well-formed stored records keeps the list well formed, derived fields included |
| `Mapty.ValidationExamples` | script.js:156-173 | Running with distance -1, duration NaN, cadence 0 or cadence Infinity is rejected; Cycling with elevation -5 is accepted, with elevation NaN rejected |
| `Mapty.RunningExample` | script.js:153-177 | a 5 km, 25 min run at cadence 180 is accepted, appended last and stored with pace 5 |

## Left out

- The DOM: form queries, show/hide, `setTimeout`, clearing inputs and the HTML of the list, `toFixed` included (script.js:3-9, 125-134, 212-267). These are UI.
- The Leaflet map, markers, popups, tile layer and `setView` in `_moveToPopUp` (script.js:109-123, 194-210, 282-287). These are calls into a foreign library. Only the lookup of `_moveToPopUp` is modelled, not what a missing record would make `setView` do.
- Geolocation, `prompt` and `alert` (script.js:97-107, 160, 173). These are browser I/O. The alert is the `Failure(InputsNotPositive)` outcome.
- The string-to-number conversion with unary `+` (script.js:148-149, 154, 167). The model receives the resulting numbers.
- `localStorage`, `JSON.stringify`, `JSON.parse`, `_setLocalStorage`, `reset` and `location.reload` (script.js:290-295, 299, 312-315). These are library and I/O calls. Restore takes the stored list as a parameter, and a reset followed by reload is `Startup(None)`. Not modelled: JSON text, the conversion of `date` to a string, a malformed stored value, and any other falsy stored value.
- IEEE-754 rounding: finite numbers are exact reals, so pace and speed are exact quotients.
- Workouts.NewRunning: requires a non-zero distance where JavaScript would store Infinity or NaN as the pace, because the constructor is only reached after validation has made the distance positive.
- Workouts.NewCycling: requires a non-zero duration where JavaScript would store Infinity or NaN as the speed, for the same reason.
- Text.Capitalize: upper-cases ASCII letters only, because `toUpperCase` is applied only to the first letter of "running" or "cycling".
- Workouts.WorkoutId: takes the timestamp as a non-negative integer; a clock before 1970, whose numeral starts with "-", is not modelled.
- The `Date` object itself: a record keeps only the month index and day that the description reads.
- A `type` other than "running" or "cycling", which would push `undefined` (script.js:146, 177): the select offers only the two kinds, so the type is a closed datatype.
