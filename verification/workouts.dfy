/**
 The workout records: a `Workout` base (creation date, id, coordinates, distance in km,
 duration in min) and its two kinds, `Running` (cadence, derived pace in min/km) and
 `Cycling` (elevation gain, derived speed in km/h). The derived metric and the
 description are computed once, when the record is built, and stored on it.
 */
module Workouts {
  import opened Text

  /** The `type` discriminant; the form's select offers exactly these two. */
  datatype WorkoutType = RunningType | CyclingType

  /** `[lat, lng]` of the map click. */
  datatype Coords = Coords(lat: real, lng: real)

  /** The calendar fields of the creation `Date` the record reads: `getMonth()` (0-based) and `getDate()`. */
  datatype Date = Date(month: nat, day: nat) {
    predicate Valid() {
      month < 12 && 1 <= day <= 31
    }
  }

  /** A workout record with every field the constructors store on it. */
  datatype Workout =
    | Running(date: Date, id: string, coords: Coords, distance: real, duration: real,
              cadence: real, pace: real, description: string)
    | Cycling(date: Date, id: string, coords: Coords, distance: real, duration: real,
              elevationGain: real, speed: real, description: string)
  {
    function Type(): (t: WorkoutType) {
      if Running? then RunningType else CyclingType
    }
  }

  /** The string stored in the `type` field. */
  function TypeName(t: WorkoutType): (name: string) {
    match t
    case RunningType => "running"
    case CyclingType => "cycling"
  }

  const MonthNames: seq<string> :=
    ["January", "February", "March", "April", "May", "June",
     "July", "August", "September", "October", "November", "December"]

  /** `_setDescription`: the type with its first letter upper-cased, " on ", the month name, " ", the day. */
  function Describe(t: WorkoutType, date: Date): (d: string)
    requires date.Valid()
    ensures |d| > 11 && d[..7] == Capitalize(TypeName(t)) && d[7..11] == " on "
    ensures d[11..] == MonthNames[date.month] + " " + DecimalString(date.day)
  {
    TitlesDiffer(t, t);
    var title, rest := Capitalize(TypeName(t)), MonthNames[date.month] + " " + DecimalString(date.day);
    assert (title + " on " + rest)[11..] == rest;
    title + " on " + rest
  }

  /**
   What an id looks like: ten decimal digits, or, for a timestamp of fewer than ten digits,
   that whole numeral, which has no leading zero.
   */
  predicate IsWorkoutId(id: string) {
    && 0 < |id| <= 10
    && AllDigits(id)
    && (|id| < 10 && |id| > 1 ==> id[0] != '0')
  }

  /** `(Date.now() + '').slice(-10)` for the millisecond timestamp `now`. */
  function WorkoutId(now: nat): (id: string)
    ensures IsWorkoutId(id)
    ensures |id| == if |DecimalString(now)| < 10 then |DecimalString(now)| else 10
    ensures IsSuffix(id, DecimalString(now))
    ensures |DecimalString(now)| <= 10 ==> id == DecimalString(now)
  {
    ParseLastDigits(now, 10);
    TakeLast(DecimalString(now), 10)
  }

  /** The id reads back as the timestamp modulo 10^10: its last ten decimal digits. */
  lemma WorkoutIdValue(now: nat)
    ensures ParseDecimal(WorkoutId(now)) == now % Pow10(10)
  {
    ParseLastDigits(now, 10);
  }

  /** `calcPace`: minutes per kilometre. */
  function CalcPace(distance: real, duration: real): (pace: real)
    requires distance != 0.0
    ensures pace * distance == duration
  {
    DivMulCancel(duration, distance);
    duration / distance
  }

  /** `calcSpeed`: kilometres per hour, the duration being in minutes. */
  function CalcSpeed(distance: real, duration: real): (speed: real)
    requires duration != 0.0
    ensures speed * (duration / 60.0) == distance
  {
    DivMulCancel(distance, duration / 60.0);
    distance / (duration / 60.0)
  }

  /**
   The invariant every constructed record satisfies: its id has the shape of an id, its
   description matches its type and date, and its derived metric agrees with its own
   distance and duration.
   */
  predicate WellFormed(w: Workout) {
    && w.date.Valid()
    && IsWorkoutId(w.id)
    && w.description == Describe(w.Type(), w.date)
    && match w
       case Running(_, _, _, distance, duration, _, pace, _) =>
         distance != 0.0 && pace == CalcPace(distance, duration)
       case Cycling(_, _, _, distance, duration, _, speed, _) =>
         duration != 0.0 && speed == CalcSpeed(distance, duration)
  }

  /**
   `new Running(coords, distance, duration, cadence)`. The constructor does not check its
   inputs; the pace division needs a non-zero distance, which the caller's validation provides.
   */
  function NewRunning(coords: Coords, distance: real, duration: real, cadence: real,
                      date: Date, now: nat): (w: Workout)
    requires distance != 0.0 && date.Valid()
    ensures w.Running? && TypeName(w.Type()) == "running"
    ensures w.coords == coords && w.distance == distance && w.duration == duration
    ensures w.cadence == cadence && w.date == date && w.id == WorkoutId(now)
    ensures WellFormed(w)
  {
    Running(date, WorkoutId(now), coords, distance, duration, cadence,
            CalcPace(distance, duration), Describe(RunningType, date))
  }

  /**
   `new Cycling(coords, distance, duration, elevationGain)`. The speed divides by the
   duration in hours, which needs a non-zero duration.
   */
  function NewCycling(coords: Coords, distance: real, duration: real, elevationGain: real,
                      date: Date, now: nat): (w: Workout)
    requires duration != 0.0 && date.Valid()
    ensures w.Cycling? && TypeName(w.Type()) == "cycling"
    ensures w.coords == coords && w.distance == distance && w.duration == duration
    ensures w.elevationGain == elevationGain && w.date == date && w.id == WorkoutId(now)
    ensures WellFormed(w)
  {
    Cycling(date, WorkoutId(now), coords, distance, duration, elevationGain,
            CalcSpeed(distance, duration), Describe(CyclingType, date))
  }

  /** A well-formed Running record's pace, times its distance, gives back its duration. */
  lemma PaceTimesDistance(w: Workout)
    requires WellFormed(w) && w.Running?
    ensures w.pace * w.distance == w.duration
  {
    DivMulCancel(w.duration, w.distance);
  }

  /** A well-formed Cycling record's speed, times its duration in hours, gives back its distance. */
  lemma SpeedTimesHours(w: Workout)
    requires WellFormed(w) && w.Cycling?
    ensures w.speed * (w.duration / 60.0) == w.distance
  {
    DivMulCancel(w.distance, w.duration / 60.0);
  }

  lemma DivMulCancel(a: real, b: real)
    requires b != 0.0
    ensures (a / b) * b == a
  {
  }

  predicate NoSpace(s: string) {
    forall i :: 0 <= i < |s| ==> s[i] != ' '
  }

  /** In `x + " " + y` with a space-free `x`, the first space sits at index `|x|`. */
  lemma FirstSpace(x: string, y: string)
    requires NoSpace(x)
    ensures (x + " " + y)[|x|] == ' '
    ensures forall i :: 0 <= i < |x| ==> (x + " " + y)[i] != ' '
  {
    var a := x + " " + y;
    forall i | 0 <= i < |x|
      ensures a[i] != ' '
    {
      assert a[i] == x[i];
    }
  }

  /** Splitting at the first space: a space-free head is determined by the string. */
  lemma SplitAtSpace(x: string, y: string, u: string, v: string)
    requires NoSpace(x) && NoSpace(u)
    requires x + " " + y == u + " " + v
    ensures x == u && y == v
  {
    var a := x + " " + y;
    FirstSpace(x, y);
    FirstSpace(u, v);
    assert |x| == |u|;
    assert x == a[..|x|] && u == a[..|u|];
    assert y == a[|x| + 1..] && v == a[|u| + 1..];
  }

  lemma MonthNamesWellShaped()
    ensures forall m :: 0 <= m < 12 ==> NoSpace(MonthNames[m])
    ensures forall m, n :: 0 <= m < 12 && 0 <= n < 12 && MonthNames[m] == MonthNames[n] ==> m == n
  {
  }

  /** The description of a Running record on 12 April. */
  lemma DescribeExample()
    ensures Describe(RunningType, Date(3, 12)) == "Running on April 12"
  {
    assert DecimalString(12) == "12";
  }

  /** The capitalised type names, "Running" and "Cycling", are both seven letters long and differ. */
  lemma TitlesDiffer(t1: WorkoutType, t2: WorkoutType)
    ensures |Capitalize(TypeName(t1))| == 7
    ensures Capitalize(TypeName(t1)) == Capitalize(TypeName(t2)) ==> t1 == t2
  {
    assert Capitalize("running")[0] == 'R' && Capitalize("cycling")[0] == 'C';
  }

  /** The description names the type, the month and the day unambiguously. */
  lemma DescribeInjective(t1: WorkoutType, d1: Date, t2: WorkoutType, d2: Date)
    requires d1.Valid() && d2.Valid()
    ensures Describe(t1, d1) == Describe(t2, d2) ==> t1 == t2 && d1 == d2
  {
    if Describe(t1, d1) == Describe(t2, d2) {
      TitlesDiffer(t1, t2);
      MonthNamesWellShaped();
      SplitAtSpace(MonthNames[d1.month], DecimalString(d1.day), MonthNames[d2.month], DecimalString(d2.day));
      DecimalStringInjective(d1.day, d2.day);
    }
  }
}
