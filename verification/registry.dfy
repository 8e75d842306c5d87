/** The workout list `#workouts`: appended to on every accepted submission and
    searched by id when a sidebar entry is clicked. */
module Registry {
  import opened Wrappers
  import opened Workouts

  /** `workouts.push(w)`. */
  function Append(ws: seq<Workout>, w: Workout): (r: seq<Workout>)
    ensures |r| == |ws| + 1
    ensures r[..|ws|] == ws
    ensures r[|ws|] == w
  {
    ws + [w]
  }

  /** `workouts.find(item => item.id == id)`: the first workout with that id,
      or `undefined` (None) when there is none. */
  function Find(ws: seq<Workout>, id: string): (r: Option<Workout>)
    ensures r.None? <==> forall i :: 0 <= i < |ws| ==> ws[i].id != id
    ensures r.Some? ==> exists i :: 0 <= i < |ws| && ws[i] == r.value
                                 && (forall j :: 0 <= j < i ==> ws[j].id != id)
    ensures r.Some? ==> r.value.id == id
  {
    if |ws| == 0 then None
    else if ws[0].id == id then Some(ws[0])
    else
      var r := Find(ws[1..], id);
      assert forall i :: 1 <= i < |ws| ==> ws[i] == ws[1..][i - 1];
      if r.Some? then
        var i :| 0 <= i < |ws[1..]| && ws[1..][i] == r.value
               && (forall j :: 0 <= j < i ==> ws[1..][j].id != id);
        assert ws[i + 1] == r.value;
        r
      else r
  }

  /** Appending never changes what an earlier lookup found, and a lookup that
      found nothing before finds the new workout exactly when its id matches. */
  lemma FindAfterAppend(ws: seq<Workout>, w: Workout, id: string)
    ensures Find(Append(ws, w), id) ==
      if Find(ws, id).Some? then Find(ws, id)
      else if w.id == id then Some(w)
      else None
  {
  }

  /** A workout just added under a fresh id is what a lookup of that id returns. */
  lemma AddThenFind(ws: seq<Workout>, w: Workout)
    requires forall i :: 0 <= i < |ws| ==> ws[i].id != w.id
    ensures Find(Append(ws, w), w.id) == Some(w)
  {
    FindAfterAppend(ws, w, w.id);
  }
}
