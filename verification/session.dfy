/** The Streamlit session state of dashboard.py as an object: the tracker
    dictionary and the two dismissal dictionaries, updated in place by the
    refresh loop and by the operator's buttons. */
module StopSession {
  import opened Text
  import opened Status
  import opened Snapshot
  import opened StopTracking
  import opened Alerts

  class Session {
    var lastMove: map<string, int>            // unidades_stop_state
    var stopDismissed: map<string, bool>      // alertas_descartadas
    var speedDismissed: map<string, bool>     // alertas_velocidad_descartadas

    function State(): StopState
      reads this
    {
      StopState(lastMove, stopDismissed, speedDismissed)
    }

    /** The session starts with empty dictionaries. */
    constructor ()
      ensures State() == StopState(map[], map[], map[])
    {
      lastMove := map[];
      stopDismissed := map[];
      speedDismissed := map[];
    }

    /** One pass of the main loop from the stop tracking to the alert lists:
        updates the tracker row by row (not at all in fallback mode), fills in
        each row's stop duration, and returns the pending stop alerts and, in
        the newer revision, the speed candidates. */
    method Refresh(rev: Revision, rows: seq<Row>, now: int)
      returns (durations: seq<int>, stops: seq<StopAlert>, speeding: seq<Row>)
      requires TracksStops(rev) && |rows| >= 1
      requires !IsFallback(rows) ==> AllKeyed(rev, rows)
      modifies this
      ensures (State(), durations) == StopTracking.Refresh(rev, old(State()), rows, now)
      ensures stops == PendingStops(rows, durations, stopDismissed)
      ensures speeding == if rev == StopAndSpeed then SpeedCandidates(rows) else []
    {
      if IsFallback(rows) {
        durations := Zeros(|rows|);
      } else {
        durations := Track(rev, rows, now);
      }
      stops := PendingStops(rows, durations, stopDismissed);
      speeding := if rev == StopAndSpeed then SpeedCandidates(rows) else [];
    }

    /** The `for index, row in df.iterrows()` loop. */
    method Track(rev: Revision, rows: seq<Row>, now: int) returns (durations: seq<int>)
      requires TracksStops(rev) && AllKeyed(rev, rows)
      modifies this
      ensures (State(), durations) == Run(rev, old(State()), rows, now)
    {
      durations := Zeros(|rows|);
      var i := 0;
      assert rows[0..] == rows && durations[..0] == [];
      ghost var whole := Run(rev, State(), rows, now);
      assert [] + whole.1 == whole.1;
      while i < |rows|
        invariant 0 <= i <= |rows| && |durations| == |rows|
        invariant forall j :: i <= j < |rows| ==> durations[j] == 0
        invariant whole.0 == Run(rev, State(), rows[i..], now).0
        invariant whole.1 == durations[..i] + Run(rev, State(), rows[i..], now).1
      {
        RunUnfold(rev, State(), rows, i, now);
        var d := TrackRow(rev, rows[i], now);
        PrefixGrows(durations, i, d, Run(rev, State(), rows[i + 1..], now).1);
        durations := durations[i := d];
        i := i + 1;
      }
      assert durations[..|rows|] == durations;
      assert rows[|rows|..] == [];
      assert durations + [] == durations;
    }

    /** Writing the `i`-th column cell extends the written prefix by it. */
    static lemma PrefixGrows(xs: seq<int>, i: nat, d: int, rest: seq<int>)
      requires i < |xs|
      ensures xs[i := d][..i + 1] + rest == xs[..i] + ([d] + rest)
    {
      assert xs[i := d][..i + 1] == xs[..i] + [d];
    }

    /** One iteration: seed a new unit, or reset a moving one (clearing its
        dismissals), or measure a stopped one. Returns the row's stop duration
        (the column keeps 0 unless it is written). */
    method TrackRow(rev: Revision, r: Row, now: int) returns (d: int)
      requires TracksStops(rev) && Keyed(rev, r)
      modifies this
      ensures (State(), d) == Step(rev, old(State()), r, now)
    {
      d := 0;
      var k := Key(rev, r);
      if k !in lastMove {
        lastMove := lastMove[k := now];
        return;
      }
      if IsMoving(r) {
        lastMove := lastMove[k := now];
        stopDismissed := stopDismissed - {r.name};
        if rev == StopAndSpeed {
          speedDismissed := speedDismissed - {r.name};
        }
      } else {
        d := now - lastMove[k];
      }
    }

    /** `descartar_alerta_stop` (and the older `descartar_alerta`): flag the
        unit's stop alert as dismissed; nothing else changes. */
    method DismissStop(name: string)
      modifies this
      ensures stopDismissed == Dismiss(old(stopDismissed), name)
      ensures lastMove == old(lastMove) && speedDismissed == old(speedDismissed)
    {
      stopDismissed := stopDismissed[name := true];
    }

    /** `descartar_alerta_velocidad`: flag the unit's speed alert as
        dismissed; nothing else changes. */
    method DismissSpeed(name: string)
      modifies this
      ensures speedDismissed == Dismiss(old(speedDismissed), name)
      ensures lastMove == old(lastMove) && stopDismissed == old(stopDismissed)
    {
      speedDismissed := speedDismissed[name := true];
    }

    /** The "accept all pending alerts" button: dismiss each listed unit in
        turn; the tracker is untouched. */
    method DismissAllStops(names: seq<string>)
      modifies this
      ensures stopDismissed == DismissAll(old(stopDismissed), names)
      ensures lastMove == old(lastMove) && speedDismissed == old(speedDismissed)
    {
      var i := 0;
      while i < |names|
        invariant 0 <= i <= |names|
        invariant stopDismissed == DismissAll(old(stopDismissed), names[..i])
        invariant lastMove == old(lastMove) && speedDismissed == old(speedDismissed)
      {
        assert names[..i + 1][..i] == names[..i];
        DismissStop(names[i]);
        i := i + 1;
      }
      assert names[..|names|] == names;
    }
  }
}
