/** Validation and construction: the part of `_newWorkout` that turns the form's
    field values into a `Running` or `Cycling` workout, or refuses them. */
module Factory {
  import opened Wrappers
  import opened JsNumbers
  import opened WorkoutIds
  import opened Workouts

  /** The value of a numeric input: empty, or text whose numeric conversion is
      `n` (the conversion of non-empty text is not modelled). */
  datatype Field = Blank | Entered(n: JsNumber)

  /** The four numeric inputs of the form. */
  datatype Fields = Fields(distance: Field, duration: Field, temp: Field, climb: Field)

  /** The fields after `value = ''` was assigned to each of them. */
  const ClearedFields: Fields := Fields(Blank, Blank, Blank, Blank)

  /** Unary `+` on a field value; `+''` is 0. */
  function Coerce(f: Field): JsNumber
  {
    match f
    case Blank => Finite(0.0)
    case Entered(n) => n
  }

  /** The input a kind reads its extra value from: temp for running, climb for cycling. */
  function ExtraField(k: Kind, f: Fields): Field
  {
    match k
    case Running => f.temp
    case Cycling => f.climb
  }

  /** The refusal `_newWorkout` reports with `alert('Choose correct answer')`. */
  datatype ValidationError = ChooseCorrectAnswer

  /** The rule the guard implements, stated value by value: all three numbers
      finite, distance and duration positive, and for running the extra
      value positive too. */
  ghost predicate Admissible(k: Kind, distance: JsNumber, duration: JsNumber, extra: JsNumber)
  {
    && distance.Finite? && duration.Finite? && extra.Finite?
    && distance.value > 0.0 && duration.value > 0.0
    && (k == Running ==> extra.value > 0.0)
  }

  /** The guard of `_newWorkout`, as written with `areNumbers` and
      `areNumbersPositive`; true when the submission is let through, which is
      exactly when it is admissible: cycling does not ask for a positive climb. */
  predicate Accepts(k: Kind, distance: JsNumber, duration: JsNumber, extra: JsNumber)
    ensures Accepts(k, distance, duration, extra) <==> Admissible(k, distance, duration, extra)
  {
    var all, pair := [distance, duration, extra], [distance, duration];
    assert all[0] == pair[0] == distance && all[1] == pair[1] == duration && all[2] == extra;
    match k
    case Running => AllFinite(all) && AllPositive(all)
    case Cycling => AllFinite(all) && AllPositive(pair)
  }

  /** A form's fields pass validation for kind `k`. */
  ghost predicate FieldsAdmissible(k: Kind, f: Fields)
  {
    Admissible(k, Coerce(f.distance), Coerce(f.duration), Coerce(ExtraField(k, f)))
  }

  /** Validate the fields and build the workout: the body of `_newWorkout` from
      reading the inputs to `new Running` / `new Cycling`. */
  function NewWorkout(k: Kind, coords: Coords, f: Fields, now: nat, dateLabel: string)
    : (r: Result<Workout, ValidationError>)
    ensures r.Success? <==> FieldsAdmissible(k, f)
    ensures r.Success? ==> WellFormed(r.value)
    ensures r.Success? ==>
      && r.value.Type() == k
      && r.value.id == IdOf(now)
      && r.value.coords == coords
      && Finite(r.value.distance) == Coerce(f.distance)
      && Finite(r.value.duration) == Coerce(f.duration)
      && Finite(r.value.Extra()) == Coerce(ExtraField(k, f))
      && ParseDescription(r.value.description) == Some((k, dateLabel))
  {
    var distance, duration, extra := Coerce(f.distance), Coerce(f.duration), Coerce(ExtraField(k, f));
    if !Accepts(k, distance, duration, extra) then Failure(ChooseCorrectAnswer)
    else match k
      case Running =>
        Success(NewRunning(now, dateLabel, coords, distance.value, duration.value, extra.value))
      case Cycling =>
        Success(NewCycling(now, dateLabel, coords, distance.value, duration.value, extra.value))
  }

  /** Only the extra input of the submitted kind is read: the other one may
      hold anything. */
  lemma OtherExtraFieldIgnored(k: Kind, coords: Coords, f: Fields, g: Fields, now: nat, dateLabel: string)
    requires f.distance == g.distance && f.duration == g.duration
    requires ExtraField(k, f) == ExtraField(k, g)
    ensures NewWorkout(k, coords, f, now, dateLabel) == NewWorkout(k, coords, g, now, dateLabel)
  {
  }

  /** A cycling submission whose climb input is left empty is accepted with a
      climb of 0, since `+''` is 0 and climb is not required to be positive;
      the same empty input is refused for running's temp. */
  lemma BlankExtraField(coords: Coords, d: real, t: real, now: nat, dateLabel: string)
    requires d > 0.0 && t > 0.0
    ensures NewWorkout(Cycling, coords, Fields(Entered(Finite(d)), Entered(Finite(t)), Blank, Blank), now, dateLabel).Success?
    ensures NewWorkout(Cycling, coords, Fields(Entered(Finite(d)), Entered(Finite(t)), Blank, Blank), now, dateLabel).value.Extra() == 0.0
    ensures NewWorkout(Running, coords, Fields(Entered(Finite(d)), Entered(Finite(t)), Blank, Blank), now, dateLabel).Failure?
  {
  }

  /** An empty form is refused for either kind: a blank distance is 0. */
  lemma ClearedFieldsRefused(k: Kind, coords: Coords, now: nat, dateLabel: string)
    ensures NewWorkout(k, coords, ClearedFields, now, dateLabel) == Failure(ChooseCorrectAnswer)
  {
  }
}
