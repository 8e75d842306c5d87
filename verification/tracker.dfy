/** The `App` controller: the pending map click, the form's visibility and
    inputs, and the workout list, with one transition per event handler. */
module Tracker {
  import opened Wrappers
  import opened JsNumbers
  import opened Workouts
  import opened Factory
  import opened Registry

  /** The form element: whether it carries the `hidden` class, the selected
      kind, the four numeric inputs, and whether the temp row and the climb row
      carry `form__row--hidden`. */
  datatype Form = Form(
    hidden: bool,
    kind: Kind,
    fields: Fields,
    tempRowHidden: bool,
    climbRowHidden: bool)

  /** The controller's state: `#workouts`, and the coordinates of `#mapEvent`
      (None until the first map click). */
  datatype AppState = AppState(workouts: seq<Workout>, mapEvent: Option<Coords>, form: Form)

  /** Once the map has loaded: nothing recorded, no click yet, the form hidden
      and empty with running selected and only the temp row shown. */
  const Initial: AppState :=
    AppState([], None, Form(true, Running, ClearedFields, false, true))

  /** The row of the selected kind is shown and the other one hidden. */
  predicate RowsMatchKind(f: Form)
  {
    f.tempRowHidden == (f.kind == Cycling) && f.climbRowHidden == (f.kind == Running)
  }

  /** Exactly one of the two extra rows is shown. */
  predicate OneExtraRowShown(f: Form)
  {
    f.tempRowHidden != f.climbRowHidden
  }

  /** `_showForm(e)`: remember the click position and reveal the form; the
      inputs keep whatever they hold. */
  function ShowForm(s: AppState, at: Coords): (t: AppState)
    ensures t.mapEvent == Some(at) && !t.form.hidden
    ensures t.workouts == s.workouts
    ensures t.form == s.form.(hidden := false)
  {
    s.(mapEvent := Some(at), form := s.form.(hidden := false))
  }

  /** `_hideForm()`: empty the four inputs and hide the form. */
  function HideForm(f: Form): (g: Form)
    ensures g.hidden && g.fields == ClearedFields
    ensures g.kind == f.kind && g.tempRowHidden == f.tempRowHidden && g.climbRowHidden == f.climbRowHidden
  {
    f.(hidden := true, fields := ClearedFields)
  }

  /** `_toggleClimbField()`: flip the hidden class on both extra rows and empty
      the four inputs. */
  function ToggleClimbField(f: Form): (g: Form)
    ensures g.tempRowHidden == !f.tempRowHidden && g.climbRowHidden == !f.climbRowHidden
    ensures g.fields == ClearedFields
    ensures g.hidden == f.hidden && g.kind == f.kind
    ensures OneExtraRowShown(g) <==> OneExtraRowShown(f)
  {
    f.(tempRowHidden := !f.tempRowHidden, climbRowHidden := !f.climbRowHidden, fields := ClearedFields)
  }

  function OtherKind(k: Kind): (o: Kind)
    ensures o != k
  {
    match k
    case Running => Cycling
    case Cycling => Running
  }

  /** A `change` of the two-option kind select: the browser selects the other
      kind, then `_toggleClimbField` runs. */
  function ChangeKind(s: AppState): (t: AppState)
    ensures t.form.kind != s.form.kind
    ensures RowsMatchKind(t.form) <==> RowsMatchKind(s.form)
    ensures t.form.fields == ClearedFields
    ensures t.workouts == s.workouts && t.mapEvent == s.mapEvent && t.form.hidden == s.form.hidden
  {
    s.(form := ToggleClimbField(s.form.(kind := OtherKind(s.form.kind))))
  }

  /** An exception a handler lets escape. */
  datatype HandlerError =
    | MapEventUndefined   // `#mapEvent.latlng` read before any map click
    | WorkoutUndefined    // `workout.coords` read when no workout has the clicked id

  /** What a handler asks of the collaborators outside the model, or the
      exception that ended it. */
  datatype Effect =
    | PlaceMarker(at: Coords, kind: Kind)   // `_displayWorkout`
    | ListEntry(workout: Workout)            // `_displayWorkoutOnSidebar`
    | Alert(message: string)
    | Uncaught(error: HandlerError)

  const RejectMessage: string := "Choose correct answer"

  datatype Outcome = Outcome(state: AppState, effects: seq<Effect>)

  /** `_newWorkout(e)`. Without a prior map click, reading `#mapEvent.latlng`
      throws a TypeError before anything changes. A refused submission alerts and returns
      early, leaving every part of the state as it was. An accepted one appends
      the workout, places its marker, lists it, and hides and empties the form.
      `now` and `dateLabel` are the clock readings the new workout takes. */
  function Submit(s: AppState, now: nat, dateLabel: string): (o: Outcome)
    ensures s.mapEvent.None? ==> o == Outcome(s, [Uncaught(MapEventUndefined)])
    ensures s.mapEvent.Some? && !FieldsAdmissible(s.form.kind, s.form.fields) ==>
      o == Outcome(s, [Alert(RejectMessage)])
    ensures s.mapEvent.Some? && FieldsAdmissible(s.form.kind, s.form.fields) ==>
      && |o.state.workouts| == |s.workouts| + 1
      && o.state.workouts[..|s.workouts|] == s.workouts
      && var w := o.state.workouts[|s.workouts|];
      && WellFormed(w)
      && w.Type() == s.form.kind
      && w.coords == s.mapEvent.value
      && Finite(w.distance) == Coerce(s.form.fields.distance)
      && Finite(w.duration) == Coerce(s.form.fields.duration)
      && Finite(w.Extra()) == Coerce(ExtraField(s.form.kind, s.form.fields))
      && o.state.form.hidden
      && o.state.form.fields == ClearedFields
      && o.state.form.kind == s.form.kind
      && o.state.mapEvent == s.mapEvent
      && o.effects == [PlaceMarker(s.mapEvent.value, s.form.kind), ListEntry(w)]
  {
    match s.mapEvent
    case None => Outcome(s, [Uncaught(MapEventUndefined)])
    case Some(at) =>
      match NewWorkout(s.form.kind, at, s.form.fields, now, dateLabel)
      case Failure(_) => Outcome(s, [Alert(RejectMessage)])
      case Success(w) =>
        Outcome(s.(workouts := Append(s.workouts, w), form := HideForm(s.form)),
                [PlaceMarker(w.coords, w.Type()), ListEntry(w)])
  }

  /** What a click in the workout list resolves to. */
  datatype Selection =
    | NoEntry                 // the click was outside any `.workout` element
    | Selected(workout: Workout)
    | UnknownId(id: string)   // `find` yields undefined; the recentring line then throws

  /** The lookup of `_moveToWorkOut(e)`; `entryId` is the `data-id` of the
      `.workout` element around the click target, if any. */
  function SelectEntry(ws: seq<Workout>, entryId: Option<string>): (r: Selection)
    ensures r.NoEntry? <==> entryId.None?
    ensures r.Selected? ==>
      && Some(r.workout.id) == entryId
      && exists i :: 0 <= i < |ws| && ws[i] == r.workout
                     && forall j :: 0 <= j < i ==> ws[j].id != r.workout.id
    ensures r.UnknownId? ==>
      Some(r.id) == entryId && forall i :: 0 <= i < |ws| ==> ws[i].id != r.id
  {
    match entryId
    case None => NoEntry
    case Some(id) =>
      match Find(ws, id)
      case Some(w) => Selected(w)
      case None => UnknownId(id)
  }

  /** Which numeric input the user typed into. */
  datatype Input = DistanceInput | DurationInput | TempInput | ClimbInput

  /** The events the page reacts to. Typing into an input is the browser's
      doing; it only changes that input's value. */
  datatype Event =
    | MapClicked(at: Coords)
    | KindChanged
    | Typed(input: Input, value: Field)
    | FormSubmitted(now: nat, dateLabel: string)
    | EntryClicked(entryId: Option<string>)

  function SetInput(f: Fields, input: Input, v: Field): Fields
  {
    match input
    case DistanceInput => f.(distance := v)
    case DurationInput => f.(duration := v)
    case TempInput => f.(temp := v)
    case ClimbInput => f.(climb := v)
  }

  /** One event and its handler. Only a submission changes the workout list,
      and by at most one entry appended at the end; a list click changes no
      state (its only effect, recentring the map, is outside the model); every
      handler keeps the controller invariant. */
  function Step(s: AppState, e: Event): (o: Outcome)
    ensures s.workouts <= o.state.workouts
    ensures |o.state.workouts| <= |s.workouts| + 1
    ensures !e.FormSubmitted? ==> o.state.workouts == s.workouts
    ensures e.EntryClicked? ==> o.state == s
    ensures e.EntryClicked? ==>
      (o.effects == [Uncaught(WorkoutUndefined)] <==> SelectEntry(s.workouts, e.entryId).UnknownId?)
    ensures Valid(s) ==> Valid(o.state)
  {
    match e
    case MapClicked(at) => Outcome(ShowForm(s, at), [])
    case KindChanged => Outcome(ChangeKind(s), [])
    case Typed(input, v) => Outcome(s.(form := s.form.(fields := SetInput(s.form.fields, input, v))), [])
    case FormSubmitted(now, dateLabel) => Submit(s, now, dateLabel)
    case EntryClicked(entryId) =>
      match SelectEntry(s.workouts, entryId)
      case UnknownId(_) => Outcome(s, [Uncaught(WorkoutUndefined)])
      case _ => Outcome(s, [])
  }

  /** The state after a sequence of events, handled one at a time. */
  function Run(s: AppState, es: seq<Event>): AppState
    decreases |es|
  {
    if |es| == 0 then s else Run(Step(s, es[0]).state, es[1..])
  }

  /** The invariant the controller keeps: every recorded workout is well
      formed, the extra row on show is the selected kind's, and the form is
      only ever shown after a map click. */
  ghost predicate Valid(s: AppState)
  {
    && RowsMatchKind(s.form)
    && (!s.form.hidden ==> s.mapEvent.Some?)
    && forall i :: 0 <= i < |s.workouts| ==> WellFormed(s.workouts[i])
  }

  lemma InitialValid()
    ensures Valid(Initial) && OneExtraRowShown(Initial.form)
  {
  }

  /** While the form is on show, submitting it never throws: the TypeError of
      a submission without a map click needs the hidden form to be submitted. */
  lemma ShownFormSubmitNeverThrows(s: AppState, now: nat, dateLabel: string)
    requires Valid(s) && !s.form.hidden
    ensures Uncaught(MapEventUndefined) !in Submit(s, now, dateLabel).effects
  {
  }

  /** Every reachable state satisfies the invariant. */
  lemma {:induction false} RunPreservesValid(s: AppState, es: seq<Event>)
    requires Valid(s)
    ensures Valid(Run(s, es))
    decreases |es|
  {
    if |es| > 0 {
      RunPreservesValid(Step(s, es[0]).state, es[1..]);
    }
  }

  /** The workout list only grows at its end, by at most one entry per event. */
  lemma {:induction false} RunAppendOnly(s: AppState, es: seq<Event>)
    ensures s.workouts <= Run(s, es).workouts
    ensures |Run(s, es).workouts| <= |s.workouts| + |es|
    decreases |es|
  {
    if |es| > 0 {
      RunAppendOnly(Step(s, es[0]).state, es[1..]);
    }
  }

  /** Changing the kind twice brings the rows back and leaves the inputs empty. */
  lemma ChangeKindTwice(s: AppState)
    ensures ChangeKind(ChangeKind(s)) == s.(form := s.form.(fields := ClearedFields))
  {
  }
}
