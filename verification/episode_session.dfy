/** The Streamlit session state of Dashboard.py as an object: the tracker
    dictionary, the two dismissal dictionaries, the two audio flags and the
    event log, updated in place by the refresh loop and by the operator's
    buttons. */
module EpisodeSession {
  import opened Basics
  import opened Text
  import opened Status
  import opened Snapshot
  import opened SpeedEpisodes
  import Alerts

  class Tracker {
    var entries: map<string, Entry>            // unidades_stop_state
    var stopDismissed: map<string, bool>       // alertas_descartadas
    var speedDismissed: map<string, bool>      // alertas_velocidad_descartadas
    var playStopAudio: bool                    // reproducir_audio_alerta
    var playSpeedAudio: bool                   // reproducir_audio_velocidad
    var log: seq<LogEntry>                     // log_historial, newest first

    function State(): EpisodeState
      reads this
    {
      EpisodeState(entries, log)
    }

    /** What every refresh keeps: entries are well shaped, no entry records
        a stop alert (true of the visible code only: the code that would arm
        one lies past line 508 of Dashboard.py), and every logged speed line
        is above the threshold and at least the debounce long. */
    predicate Valid()
      reads this
    {
      AllOk(entries) && NoStopAlerted(entries) && LogOk(log)
    }

    /** The session starts with empty dictionaries, both audio flags off and
        an empty log. */
    constructor ()
      ensures State() == EpisodeState(map[], [])
      ensures stopDismissed == map[] && speedDismissed == map[]
      ensures !playStopAudio && !playSpeedAudio
      ensures Valid()
    {
      entries := map[];
      stopDismissed := map[];
      speedDismissed := map[];
      playStopAudio := false;
      playSpeedAudio := false;
      log := [];
    }

    /** One pass of the tracking loop over a refresh's rows; in fallback mode
        nothing changes. Dismissals and audio flags are not touched here. */
    method Refresh(rows: seq<Row>, now: int)
      requires |rows| >= 1
      requires !IsFallback(rows) ==> AllHaveIds(rows)
      requires Valid()
      modifies this
      ensures State() == SpeedEpisodes.Refresh(old(State()), rows, now)
      ensures Valid()
      ensures stopDismissed == old(stopDismissed) && speedDismissed == old(speedDismissed)
      ensures playStopAudio == old(playStopAudio) && playSpeedAudio == old(playSpeedAudio)
    {
      if IsFallback(rows) {
        return;
      }
      WalkKeepsShape(State(), rows, now);
      WalkNeverAlertsStops(State(), rows, now);
      ghost var whole := Walk(State(), rows, now);
      assert rows[0..] == rows;
      var i := 0;
      while i < |rows|
        invariant 0 <= i <= |rows|
        invariant whole == Walk(State(), rows[i..], now)
        invariant stopDismissed == old(stopDismissed) && speedDismissed == old(speedDismissed)
        invariant playStopAudio == old(playStopAudio) && playSpeedAudio == old(playSpeedAudio)
      {
        WalkUnfold(State(), rows, i, now);
        UpdateRow(rows[i], now);
        i := i + 1;
      }
      assert rows[|rows|..] == [];
    }

    /** One iteration: register a new unit id, or open, extend or close its
        speed episode, logging a closed episode that lasted long enough. */
    method UpdateRow(r: Row, now: int)
      requires r.unitId.Some?
      modifies this
      ensures State() == RowStep(old(State()), r, now)
      ensures stopDismissed == old(stopDismissed) && speedDismissed == old(speedDismissed)
      ensures playStopAudio == old(playStopAudio) && playSpeedAudio == old(playSpeedAudio)
    {
      var k := r.unitId.value;
      if k !in entries {
        entries := entries[k := NewEntry(now)];
        return;
      }
      var e := entries[k];
      if Speeding(r) && OutOfHq(r.status) {
        if e.speedStart == None {
          e := e.(speedStart := Some(now));
        }
        if r.speed > e.peakKph {
          e := e.(peakKph := r.speed);
        }
      } else if !Speeding(r) && e.speedStart.Some? {
        var d := now - e.speedStart.value;
        if Alerts.Minutes(d) >= DEBOUNCE_MINUTES {
          log := [SpeedEnded(now, DisplayName(r.name), e.peakKph, d, r.location)] + log;
        }
        e := e.(speedStart := None, peakKph := 0.0);
      }
      entries := entries[k := e];
    }

    /** The long-stop "accept" button: mark the unit dismissed and silence
        the stop alarm. */
    method DismissStop(id: string)
      modifies this
      ensures stopDismissed == Alerts.Dismiss(old(stopDismissed), id) && !playStopAudio
      ensures entries == old(entries) && log == old(log)
      ensures speedDismissed == old(speedDismissed) && playSpeedAudio == old(playSpeedAudio)
    {
      stopDismissed := stopDismissed[id := true];
      playStopAudio := false;
    }

    /** The speeding "accept" button: mark the unit dismissed and silence the
        speed alarm. */
    method DismissSpeed(id: string)
      modifies this
      ensures speedDismissed == Alerts.Dismiss(old(speedDismissed), id) && !playSpeedAudio
      ensures entries == old(entries) && log == old(log)
      ensures stopDismissed == old(stopDismissed) && playStopAudio == old(playStopAudio)
    {
      speedDismissed := speedDismissed[id := true];
      playSpeedAudio := false;
    }
  }
}
