# Workout tracker core, modelled in Dafny

A model of the core of a map-based activity tracker (`script.js`). The user
clicks a point on a map, fills in a form (distance, duration, and a temp value
for running or a climb value for cycling), and the page records a workout. The
modelled core is:

- the workout value types `Workout`, `Running` and `Cycling`, with their
  derived metric and description (module `Workouts`), and the id derived from
  the creation time (module `WorkoutIds`);
- the validate-and-construct part of `_newWorkout` (module `Factory`), over
  JavaScript numbers that may be NaN or infinite (module `JsNumbers`);
- the workout list, which is appended to and searched by id (module `Registry`);
- the controller's form state machine (`_showForm`, `_hideForm`,
  `_toggleClimbField`, `_newWorkout`) and the lookup of `_moveToWorkOut`, with
  a step function over events and an invariant kept by every reachable state
  (module `Tracker`);
- concrete runs of the controller (module `Scenarios`).

Modelling decisions:

- A form input is `Blank` or `Entered(n)`, where `n` is the number that unary
  `+` produced. `+''` is 0, so a blank input counts as 0. Converting non-empty
  text to a number is not modelled.
- Numbers are `Finite(real) | NaN | PosInf | NegInf`. The two checks
  `Number.isFinite` and `> 0` are modelled exactly on these four cases.
- The creation time (`Date.now()`) and the formatted date are parameters of
  the submission (`now`, `dateLabel`). The id is computed from `now` as the
  source does.
- The kind select has two options, so a `change` event always selects the
  other kind.
- The initial form state comes from the page markup, which is not part of this
  model. It is taken to be hidden and empty, with running selected and only
  the temp row shown.

Two behaviours of the code are worth stating plainly:

- A click on a list entry whose id no workout has is not a no-op: `find`
  yields `undefined` and script.js:253 throws. The lookup reports `UnknownId`,
  and the list-click handler records the uncaught TypeError.
- Climb may be any finite number, negative included (script.js:159-160 check
  only distance and duration for positivity).

## Model

| member | source | states |
|---|---|---|
| JsNumbers.AllFinite | script.js:126-127 | `areNumbers`, a left-to-right `every` scan, holds exactly when every argument is a finite number |
| JsNumbers.AllPositive | script.js:128 | `areNumbersPositive`, a left-to-right `every` scan, holds exactly when every argument is greater than zero |
| JsNumbers.Divide | script.js:40 | on exact reals (no overflow), the quotient is finite iff the divisor is non-zero, and then it inverts multiplication. It is NaN only for 0/0, and it is greater than zero exactly when the signs agree (a positive dividend over zero gives +Infinity) |
| WorkoutIds.IdOf | script.js:13 | an id has between 1 and 10 characters, all of them decimal digits |
| WorkoutIds.IdCollision | script.js:13 | for creation times from 10^9 ms on, two ids are equal exactly when the times agree modulo 10^10 ms |
| WorkoutIds.IdsDistinctWithinWindow | script.js:13 | two workouts created less than 10^10 ms apart (about 115 days) never share an id |
| Workouts.Rate | script.js:39-41 | the pace/speed formula gives distance*60/duration for any non-zero duration. It is never finite for a zero duration, and it is finite and positive when distance and duration are positive |
| Workouts.ParseDescription | script.js:19-27 | a description that parses rebuilds exactly from its parsed kind and date |
| Workouts.Describe | script.js:19-27 | a description determines its kind ("Пробіжка " prefix for running, "Вело " for cycling) and the date label after the prefix: parsing it gives both back |
| Workouts.NewRunning | script.js:30-42 | a constructed running workout keeps the coordinates, distance, duration and temp it was given. Its id is derived from the creation time, its description parses back to running and its date, and its pace is distance*60/duration |
| Workouts.NewCycling | script.js:44-56 | the same for cycling: it keeps its inputs and climb, its description parses back to cycling, and its speed is distance*60/duration |
| Factory.Accepts | script.js:135-164 | the guard lets a submission through iff distance, duration and extra are all finite and distance and duration are positive. Running also needs the extra value positive; cycling does not |
| Factory.NewWorkout | script.js:129-164 | a workout is built iff the fields are admissible for the selected kind. The result is well formed, has that kind and the clicked coordinates, and carries the submitted numbers unchanged |
| Factory.OtherExtraFieldIgnored | script.js:135-164 | running never reads the climb input and cycling never reads the temp input |
| Factory.BlankExtraField | script.js:152-164 | cycling with an empty climb input is accepted with climb 0; running with an empty temp input is refused |
| Factory.ClearedFieldsRefused | script.js:138-162 | submitting a form with all inputs empty is refused for either kind |
| Registry.Append | script.js:169 | push grows the list by one, keeps every earlier entry in place, and puts the new workout last |
| Registry.Find | script.js:250-252 | lookup gives nothing iff no workout has the id; otherwise it gives the first workout with that id |
| Registry.FindAfterAppend | script.js:250-252 | after an append, a lookup that succeeded before returns the same workout. One that failed before finds the new workout iff its id matches |
| Registry.AddThenFind | script.js:169 | a workout added under a fresh id is what a lookup of that id returns |
| Tracker.ShowForm | script.js:97-101 | a map click records its coordinates and reveals the form. The list and the inputs stay as they were |
| Tracker.HideForm | script.js:102-111 | hiding empties all four inputs and leaves the selected kind and row visibility alone |
| Tracker.ToggleClimbField | script.js:112-120 | the kind handler flips both extra rows and empties all four inputs, so "exactly one extra row shown" is preserved |
| Tracker.ChangeKind | script.js:112-120 | a kind change selects the other kind and preserves "the shown row is the selected kind's". It empties the inputs and touches nothing else |
| Tracker.Submit | script.js:121-177 | with no prior map click, the handler throws a TypeError and the state is unchanged. A refused submission only alerts, and every part of the state stays as it was, including the open form and its inputs. An accepted one appends exactly one well-formed workout at the clicked point, with the submitted values. It keeps earlier entries, emits one marker and one list entry for it, and hides the form with its inputs empty |
| Tracker.SelectEntry | script.js:247-252 | a click outside any entry selects nothing. A click on an entry selects the first workout whose id equals the entry's id, or reports that no workout has that id |
| Tracker.InitialValid | script.js:61 | the start state, with an empty list, satisfies the controller invariant with exactly one extra row shown |
| Tracker.Step | script.js:63-71 | of the wired handlers only a submission changes the list, by appending at most one entry and never altering earlier ones. A list click leaves the state as it was, and it records an uncaught TypeError exactly when the lookup finds no workout with the clicked id (script.js:250-253). Every handler keeps the controller invariant: workouts well formed, the shown row matching the kind, the form shown only after a map click |
| Tracker.ShownFormSubmitNeverThrows | script.js:97-124 | in a valid state with the form on show, submitting never hits the TypeError at line 124, because the form is only revealed by a map click |
| Tracker.RunPreservesValid | script.js:63-71 | any sequence of events from a valid state ends in a valid state |
| Tracker.RunAppendOnly | script.js:63-71 | over any sequence of events, the list at the start stays a prefix, and it grows by at most one entry per event |
| Tracker.ChangeKindTwice | script.js:112-120 | two kind changes restore the kind and both rows, leaving only the inputs emptied |
| Scenarios.RunningPaceExample | script.js:39-41 | 5 km in 30 minutes gives a pace of 10 |
| Scenarios.ClickAndSubmitRun | script.js:121-177 | click at (50.45, 30.52), enter a 5 km, 25 minute run with temp 2, and submit. The result is one running workout there with pace 12 and a running description, one marker at that point, and the form hidden |
| Scenarios.NegativeDistanceRefused | script.js:152-162 | after a map click, a switch to cycling and entering distance -3, duration 20 and climb 100, the state is valid, and submitting only alerts: nothing is recorded, no marker is placed, and the form keeps its inputs |
| Scenarios.NegativeClimbAccepted | script.js:152-164 | cycling 10 km in 40 minutes with climb -5 is accepted with speed 15 |

## Left out

- Map rendering: creating the map, the tile layer, markers, popups and recentring. These are calls into the mapping library. Marker placement is kept only as the abstract `PlaceMarker` effect, and recentring is not modelled.
- Geolocation and `_loadMap`: a one-shot asynchronous browser request. The model starts from the state after the map has loaded.
- Sidebar HTML (`_displayWorkoutOnSidebar`): template text, `toFixed(1)` and `insertAdjacentHTML` are output formatting. They are kept only as the abstract `ListEntry` effect. Every entry hard-codes the class `workout--running` (script.js:199), whatever its kind.
- Clock and locale: `Date.now()`, `new Date()` and `Intl.DateTimeFormat('ua-UA')` are inputs (`now`, `dateLabel`), not computed.
- `alert` and the `focus`/`blur` calls are UI side effects. Only the refusal's alert is kept, as the `Alert` effect.
- Text-to-number conversion of a non-empty input: the model takes the converted number as given (`Entered(n)`). Only the empty string's conversion to 0 is modelled.
- JsNumbers.Divide: a quotient of finite IEEE-754 numbers can overflow to Infinity (`1e308 / 1e-10`); finite numbers are reals here, so the model never overflows.
- Workouts.Rate: IEEE-754 rounding, overflow and signed zero are not modelled. Finite numbers are reals, so the metric is the exact quotient.
- Workouts.NewRunning: the constructors accept only finite reals. Only the factory calls them, and only after validation; the source's behaviour on NaN or infinite arguments is not modelled.
- Tracker.SelectEntry: when no workout has the clicked id, the source throws at script.js:253. The lookup reports `UnknownId`, and `Tracker.Step` records it as the `Uncaught(WorkoutUndefined)` effect with the state unchanged. What the browser does with the uncaught exception is not modelled.
- A `type` value other than running or cycling, for which the source would push `undefined` (script.js:169). Kind is a two-valued datatype.
