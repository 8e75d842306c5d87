/** The workout value types: `Workout` and its two variants `Running` and
    `Cycling`, as one tagged datatype whose fields never change after
    construction. */
module Workouts {
  import opened Wrappers
  import opened JsNumbers
  import opened WorkoutIds

  /** A map position, `[lat, lng]`. */
  datatype Coords = Coords(lat: real, lng: real)

  /** The activity kind: the value `'running'` or `'cycling'` of `type`. */
  datatype Kind = Running | Cycling

  /** The variant part: the extra input and the metric derived from it. */
  datatype Variant =
    | RunningData(temp: real, pace: JsNumber)
    | CyclingData(climb: real, speed: JsNumber)

  /** A recorded workout. `dateLabel` is the creation date as the locale
      formatter renders it; it is an input to the model, not computed. */
  datatype Workout = Workout(
    id: string,
    dateLabel: string,
    coords: Coords,
    distance: real,
    duration: real,
    variant: Variant,
    description: string)
  {
    /** `workout.type` */
    function Type(): Kind
    {
      if variant.RunningData? then Running else Cycling
    }

    /** The submitted extra value: `temp` for running, `climb` for cycling. */
    function Extra(): real
    {
      match variant
      case RunningData(t, _) => t
      case CyclingData(c, _) => c
    }

    /** The derived metric: `pace` for running, `speed` for cycling. */
    function Metric(): JsNumber
    {
      match variant
      case RunningData(_, p) => p
      case CyclingData(_, s) => s
    }
  }

  /** `distance / (duration / 60)`, the formula both `calculatePace` and
      `calculateSpeed` use: distance per hour when duration is in minutes. */
  function Rate(distance: real, duration: real): (r: JsNumber)
    ensures duration != 0.0 ==> r == Finite(distance * 60.0 / duration)
    ensures duration == 0.0 ==> !r.Finite?
    ensures distance > 0.0 && duration > 0.0 ==> r.Finite? && r.value > 0.0
  {
    Divide(distance, duration / 60.0)
  }

  const RunningPrefix: string := "Пробіжка "
  const CyclingPrefix: string := "Вело "

  /** The label `_setDescription` puts in front of the date. */
  function Prefix(k: Kind): string
  {
    match k
    case Running => RunningPrefix
    case Cycling => CyclingPrefix
  }

  /** `_setDescription`: the kind's label, a space, then the formatted date.
      The description determines both the kind and the date label. */
  function Describe(k: Kind, dateLabel: string): (d: string)
    ensures ParseDescription(d) == Some((k, dateLabel))
  {
    var d := Prefix(k) + dateLabel;
    assert d[..|Prefix(k)|] == Prefix(k);
    assert k == Cycling ==> d[0] != RunningPrefix[0];
    d
  }

  /** Reads a description back into its kind and date label. */
  function ParseDescription(d: string): (r: Option<(Kind, string)>)
    ensures r.Some? ==> Prefix(r.value.0) + r.value.1 == d
  {
    if RunningPrefix <= d then Some((Running, d[|RunningPrefix|..]))
    else if CyclingPrefix <= d then Some((Cycling, d[|CyclingPrefix|..]))
    else None
  }

  /** `new Running(coords, distance, duration, temp)`, with the clock readings
      that the field initialisers take supplied as `now` and `dateLabel`. */
  function NewRunning(now: nat, dateLabel: string, coords: Coords,
                      distance: real, duration: real, temp: real): (w: Workout)
    ensures w.Type() == Running && w.Extra() == temp
    ensures w.id == IdOf(now) && w.coords == coords
    ensures w.distance == distance && w.duration == duration
    ensures ParseDescription(w.description) == Some((Running, dateLabel))
    ensures duration > 0.0 ==> w.Metric() == Finite(distance * 60.0 / duration)
  {
    Workout(IdOf(now), dateLabel, coords, distance, duration,
            RunningData(temp, Rate(distance, duration)),
            Describe(Running, dateLabel))
  }

  /** `new Cycling(coords, distance, duration, climb)`. */
  function NewCycling(now: nat, dateLabel: string, coords: Coords,
                      distance: real, duration: real, climb: real): (w: Workout)
    ensures w.Type() == Cycling && w.Extra() == climb
    ensures w.id == IdOf(now) && w.coords == coords
    ensures w.distance == distance && w.duration == duration
    ensures ParseDescription(w.description) == Some((Cycling, dateLabel))
    ensures duration > 0.0 ==> w.Metric() == Finite(distance * 60.0 / duration)
  {
    Workout(IdOf(now), dateLabel, coords, distance, duration,
            CyclingData(climb, Rate(distance, duration)),
            Describe(Cycling, dateLabel))
  }

  /** What every workout the application records satisfies. */
  ghost predicate WellFormed(w: Workout)
  {
    && w.distance > 0.0
    && w.duration > 0.0
    && (w.Type() == Running ==> w.Extra() > 0.0)
    && w.Metric() == Finite(w.distance * 60.0 / w.duration)
    && w.Metric().value > 0.0
    && 1 <= |w.id| <= IdLength
    && ParseDescription(w.description) == Some((w.Type(), w.dateLabel))
  }
}
