/** Concrete runs of the controller. */
module Scenarios {
  import opened JsNumbers
  import opened Workouts
  import opened Factory
  import opened Tracker

  /** Any creation time and date label will do for these runs. */
  const Now: nat := 1_700_000_000_000
  const Today: string := "11.10.2026"
  const Kyiv: Coords := Coords(50.45, 30.52)

  function Num(x: real): Field
  {
    Entered(Finite(x))
  }

  /** Running 5 km in 30 minutes: a pace of 10. */
  lemma RunningPaceExample()
    ensures NewWorkout(Running, Kyiv, Fields(Num(5.0), Num(30.0), Num(2.0), Blank), Now, Today).Success?
    ensures NewWorkout(Running, Kyiv, Fields(Num(5.0), Num(30.0), Num(2.0), Blank), Now, Today).value.Metric()
            == Finite(10.0)
  {
  }

  /** Click the map, fill in a run of 5 km in 25 minutes at temp 2, submit:
      one running workout at the clicked point with pace 12, one marker there,
      and the form hidden again. */
  lemma ClickAndSubmitRun()
    ensures var s1 := Step(Initial, MapClicked(Kyiv)).state;
            var s2 := Step(s1, Typed(DistanceInput, Num(5.0))).state;
            var s3 := Step(s2, Typed(DurationInput, Num(25.0))).state;
            var s4 := Step(s3, Typed(TempInput, Num(2.0))).state;
            var o := Step(s4, FormSubmitted(Now, Today));
            && |o.state.workouts| == 1
            && o.state.workouts[0].Type() == Running
            && o.state.workouts[0].coords == Kyiv
            && o.state.workouts[0].Metric() == Finite(12.0)
            && RunningPrefix <= o.state.workouts[0].description
            && o.effects == [PlaceMarker(Kyiv, Running), ListEntry(o.state.workouts[0])]
            && o.state.form.hidden
  {
    var s1 := Step(Initial, MapClicked(Kyiv)).state;
    var s2 := Step(s1, Typed(DistanceInput, Num(5.0))).state;
    var s3 := Step(s2, Typed(DurationInput, Num(25.0))).state;
    var s4 := Step(s3, Typed(TempInput, Num(2.0))).state;
    assert s4.form.fields == Fields(Num(5.0), Num(25.0), Num(2.0), Blank);
    assert FieldsAdmissible(Running, s4.form.fields);
    var w := Step(s4, FormSubmitted(Now, Today)).state.workouts[0];
    assert w.description == Describe(Running, Today);
  }

  /** Click the map, switch to cycling, enter distance -3, duration 20 and
      climb 100, submit: the submission is refused with only the alert,
      nothing is recorded, no marker is placed and the form keeps its inputs. */
  lemma NegativeDistanceRefused()
    ensures var s1 := Step(Initial, MapClicked(Kyiv)).state;
            var s2 := Step(s1, KindChanged).state;
            var s3 := Step(s2, Typed(DistanceInput, Num(-3.0))).state;
            var s4 := Step(s3, Typed(DurationInput, Num(20.0))).state;
            var s5 := Step(s4, Typed(ClimbInput, Num(100.0))).state;
            && Valid(s5)
            && s5.form.kind == Cycling
            && Step(s5, FormSubmitted(Now, Today)) == Outcome(s5, [Alert(RejectMessage)])
            && |s5.workouts| == 0
  {
    InitialValid();
  }

  /** Cycling 10 km in 40 minutes with a climb of -5 is accepted: climb is not
      required to be positive, and the speed is 15. */
  lemma NegativeClimbAccepted()
    ensures var r := NewWorkout(Cycling, Kyiv, Fields(Num(10.0), Num(40.0), Blank, Num(-5.0)), Now, Today);
            r.Success? && r.value.Extra() == -5.0 && r.value.Metric() == Finite(15.0)
  {
  }
}
