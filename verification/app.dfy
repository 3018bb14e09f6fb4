/**
 The application state of the tracker, reduced to the list of workouts it owns, and the
 operations of `App` that read or change that list: validating and appending a submitted
 workout (`_newWorkout`), looking one up by id (`_moveToPopUp`) and replacing it with the
 stored list at start-up (`_getLocalStorage`).
 */
module Mapty {
  import opened Wrappers
  import opened Numbers
  import opened Workouts

  /** The form fields `_newWorkout` reads, already converted with unary `+`; the select picks the variant. */
  datatype Submission =
    | RunningForm(distance: Num, duration: Num, cadence: Num)
    | CyclingForm(distance: Num, duration: Num, elevation: Num)

  /** The single alert of `_newWorkout`: "Inputs have to be positive numbers!". */
  datatype Alert = InputsNotPositive

  /** `#workouts`; the map, the map event and the zoom level are not part of this model. */
  datatype App = App(workouts: seq<Workout>)

  /**
   What the form may hold for a workout to be created, field by field: for Running all three
   numbers finite and positive; for Cycling all three finite but only distance and duration
   positive, so a zero or negative elevation gain is accepted.
   */
  predicate Acceptable(sub: Submission) {
    match sub
    case RunningForm(d, t, c) =>
      && d.Finite? && t.Finite? && c.Finite?
      && d.value > 0.0 && t.value > 0.0 && c.value > 0.0
    case CyclingForm(d, t, e) =>
      && d.Finite? && t.Finite? && e.Finite?
      && d.value > 0.0 && t.value > 0.0
  }

  /** The guard of `_newWorkout`, written with `validInputs` and `allPositive` as the source does. */
  function Validate(sub: Submission): (ok: bool)
    ensures ok <==> Acceptable(sub)
    ensures ok ==> sub.distance.Finite? && sub.distance.value > 0.0
    ensures ok ==> sub.duration.Finite? && sub.duration.value > 0.0
  {
    match sub
    case RunningForm(d, t, c) =>
      assert [d, t, c][0] == d && [d, t, c][1] == t && [d, t, c][2] == c;
      !(!AllFinite([d, t, c]) || !AllPositive([d, t, c]))
    case CyclingForm(d, t, e) =>
      assert [d, t, e][0] == d && [d, t, e][1] == t && [d, t, e][2] == e;
      assert [d, t][0] == d && [d, t][1] == t;
      !(!AllFinite([d, t, e]) || !AllPositive([d, t]))
  }

  /**
   Validation followed by construction: the record `_newWorkout` creates, or the alert. The
   constructors' divisions are defined because validation only lets positive distances and
   durations through.
   */
  function Build(sub: Submission, coords: Coords, date: Date, now: nat): (r: Result<Workout, Alert>)
    requires date.Valid()
    ensures r.Success? <==> Acceptable(sub)
    ensures r.Success? ==> WellFormed(r.value)
    ensures r.Success? ==> (r.value.Running? <==> sub.RunningForm?)
    ensures r.Success? ==> r.value.distance == sub.distance.value && r.value.duration == sub.duration.value
    ensures r.Success? && sub.RunningForm? ==> r.value.cadence == sub.cadence.value
    ensures r.Success? && sub.CyclingForm? ==> r.value.elevationGain == sub.elevation.value
    ensures r.Success? ==> r.value.coords == coords && r.value.date == date && r.value.id == WorkoutId(now)
  {
    if !Validate(sub) then Failure(InputsNotPositive)
    else match sub
      case RunningForm(d, t, c) => Success(NewRunning(coords, d.value, t.value, c.value, date, now))
      case CyclingForm(d, t, e) => Success(NewCycling(coords, d.value, t.value, e.value, date, now))
  }

  /**
   `_newWorkout` on the workouts list: a rejected submission leaves the list as it was; an
   accepted one adds exactly the new record at the tail, every earlier entry in its place.
   */
  function NewWorkout(app: App, sub: Submission, coords: Coords, date: Date, now: nat)
    : (r: (App, Result<Workout, Alert>))
    requires date.Valid()
    ensures r.1 == Build(sub, coords, date, now)
    ensures r.1.Success? <==> Acceptable(sub)
    ensures r.1.Failure? ==> r.0 == app
    ensures r.1.Success? ==> |r.0.workouts| == |app.workouts| + 1
    ensures r.1.Success? ==> forall i :: 0 <= i < |app.workouts| ==> r.0.workouts[i] == app.workouts[i]
    ensures r.1.Success? ==> r.0.workouts[|app.workouts|] == r.1.value
  {
    match Build(sub, coords, date, now)
    case Failure(e) => (app, Failure(e))
    case Success(w) => (App(app.workouts + [w]), Success(w))
  }

  predicate AllWellFormed(ws: seq<Workout>) {
    forall i :: 0 <= i < |ws| ==> WellFormed(ws[i])
  }

  /** Adding a workout keeps every record in the list well formed. */
  lemma NewWorkoutKeepsWellFormed(app: App, sub: Submission, coords: Coords, date: Date, now: nat)
    requires date.Valid() && AllWellFormed(app.workouts)
    ensures AllWellFormed(NewWorkout(app, sub, coords, date, now).0.workouts)
  {
    var r := NewWorkout(app, sub, coords, date, now);
    if r.1.Success? {
      forall i | 0 <= i < |r.0.workouts|
        ensures WellFormed(r.0.workouts[i])
      {
        if i < |app.workouts| {
          assert r.0.workouts[i] == app.workouts[i];
        }
      }
    }
  }

  /** The position of the first workout with the given id, walking the list from the front. */
  function FindIndex(ws: seq<Workout>, id: string): (r: Option<nat>)
    ensures r.Some? ==> r.value < |ws| && ws[r.value].id == id
    ensures r.Some? ==> forall j :: 0 <= j < r.value ==> ws[j].id != id
    ensures r.None? ==> forall j :: 0 <= j < |ws| ==> ws[j].id != id
  {
    if |ws| == 0 then None
    else if ws[0].id == id then Some(0)
    else match FindIndex(ws[1..], id)
      case None => None
      case Some(i) => Some(i + 1)
  }

  /** `this.#workouts.find(val => val.id === id)`: the first record with that id, if any. */
  function Find(app: App, id: string): (r: Option<Workout>)
    ensures r.None? <==> forall j :: 0 <= j < |app.workouts| ==> app.workouts[j].id != id
    ensures r.Some? ==> exists i :: 0 <= i < |app.workouts| && app.workouts[i] == r.value
                                   && r.value.id == id
                                   && forall j :: 0 <= j < i ==> app.workouts[j].id != id
  {
    match FindIndex(app.workouts, id)
    case None => None
    case Some(i) => Some(app.workouts[i])
  }

  /**
   Looking up after an append: an id already in the list still finds the earlier record, so
   a later record with a repeated id is never found; otherwise the new record is found when it
   carries the id.
   */
  lemma {:induction false} FindIndexAppend(ws: seq<Workout>, w: Workout, id: string)
    ensures FindIndex(ws + [w], id) ==
      if FindIndex(ws, id).Some? then FindIndex(ws, id)
      else if w.id == id then Some(|ws|)
      else None
    decreases |ws|
  {
    if |ws| > 0 && ws[0].id != id {
      assert (ws + [w])[1..] == ws[1..] + [w];
      FindIndexAppend(ws[1..], w, id);
    }
  }

  /** Find on the list a successful `_newWorkout` produced. */
  lemma FindAfterNewWorkout(app: App, sub: Submission, coords: Coords, date: Date, now: nat, id: string)
    requires date.Valid()
    ensures var r := NewWorkout(app, sub, coords, date, now);
      r.1.Success? ==>
        Find(r.0, id) == if Find(app, id).Some? then Find(app, id)
                         else if r.1.value.id == id then Some(r.1.value)
                         else None
  {
    var r := NewWorkout(app, sub, coords, date, now);
    if r.1.Success? {
      assert r.0.workouts == app.workouts + [r.1.value];
      FindIndexAppend(app.workouts, r.1.value, id);
    }
  }

  /**
   `_getLocalStorage`: an absent stored value leaves the list as it was; a present one
   replaces the list wholesale, in its stored order, with the plain records as stored.
   */
  function Restore(app: App, stored: Option<seq<Workout>>): (r: App)
    ensures stored.None? ==> r == app
    ensures stored.Some? ==> |r.workouts| == |stored.value|
    ensures stored.Some? ==> forall i :: 0 <= i < |r.workouts| ==> r.workouts[i] == stored.value[i]
  {
    match stored
    case None => app
    case Some(data) => App(data)
  }

  /** `new App()`: an empty list, then whatever start-up restores. */
  function Startup(stored: Option<seq<Workout>>): (app: App)
    ensures stored.None? ==> app.workouts == []
    ensures stored.Some? ==> app.workouts == stored.value
  {
    Restore(App([]), stored)
  }

  /** Restored records are as well formed as the ones that were saved. */
  lemma RestoreKeepsWellFormed(app: App, stored: Option<seq<Workout>>)
    requires AllWellFormed(app.workouts)
    requires stored.Some? ==> AllWellFormed(stored.value)
    ensures AllWellFormed(Restore(app, stored).workouts)
  {
  }

  /**
   A stored Running record, whose id came from the timestamp `now`, is exactly the record that
   rebuilding it from its own raw fields would give: same pace, same description. A restored
   plain record therefore loses nothing by not being re-constructed.
   */
  lemma WellFormedRunningIsRebuilt(w: Workout, now: nat)
    requires WellFormed(w) && w.Running? && w.id == WorkoutId(now)
    ensures NewRunning(w.coords, w.distance, w.duration, w.cadence, w.date, now) == w
  {
  }

  /** The same for a stored Cycling record and its speed. */
  lemma WellFormedCyclingIsRebuilt(w: Workout, now: nat)
    requires WellFormed(w) && w.Cycling? && w.id == WorkoutId(now)
    ensures NewCycling(w.coords, w.distance, w.duration, w.elevationGain, w.date, now) == w
  {
  }

  /** Validation outcomes at the boundary inputs. */
  lemma ValidationExamples()
    ensures !Validate(RunningForm(Finite(-1.0), Finite(25.0), Finite(180.0)))
    ensures !Validate(RunningForm(Finite(5.0), NaN, Finite(180.0)))
    ensures !Validate(RunningForm(Finite(5.0), Finite(25.0), Finite(0.0)))
    ensures !Validate(RunningForm(Finite(5.0), Finite(25.0), PosInfinity))
    ensures Validate(CyclingForm(Finite(20.0), Finite(60.0), Finite(-5.0)))
    ensures !Validate(CyclingForm(Finite(20.0), Finite(60.0), NaN))
  {
  }

  /** A 5 km run of 25 minutes at cadence 180 is accepted and stored with pace 5. */
  lemma RunningExample(app: App, date: Date, now: nat)
    requires date.Valid()
    ensures var r := NewWorkout(app, RunningForm(Finite(5.0), Finite(25.0), Finite(180.0)),
                                Coords(51.5, -0.1), date, now);
      && r.1.Success? && r.1.value.Running? && r.1.value.pace == 5.0
      && r.0.workouts == app.workouts + [r.1.value]
  {
    var r := NewWorkout(app, RunningForm(Finite(5.0), Finite(25.0), Finite(180.0)),
                        Coords(51.5, -0.1), date, now);
    assert r.0.workouts == app.workouts + [r.1.value];
  }
}
