/** The speed-episode tracker of Dashboard.py. Per unit id, a tracker entry
    remembers when an episode of speeding away from headquarters started and
    the highest speed seen during it; when the unit slows down again, an
    episode that lasted long enough is written to the front of the event log.
    This module gives the per-row update and the walk over one refresh as
    pure functions, and the lemmas about them. */
module SpeedEpisodes {
  import opened Basics
  import opened Text
  import opened Status
  import opened Snapshot
  import StopTracking
  import Alerts

  /** One value of `unidades_stop_state`: `last_move_time`,
      `alerted_stop_minutes`, `speed_alert_start_time` (ms) and
      `last_recorded_speed` (the peak of the open episode, km/h). */
  datatype Entry = Entry(
    lastMove: int,
    alertedStopMinutes: Option<real>,
    speedStart: Option<int>,
    peakKph: real)

  /** One line of `log_historial`. Both carry the refresh time and the
      unit's display name; a speed line also carries the location text. The
      stop line is known only up to the display name (the rest of its text is
      not part of this model). The timestamp formatting is not modelled. */
  datatype LogEntry =
    | SpeedEnded(atMs: int, unit: string, peakKph: real, durationMs: int, location: string)
    | StopEnded(atMs: int, unit: string, minutes: real)

  /** An episode shorter than this (in minutes) is not logged. */
  const DEBOUNCE_MINUTES: real := 0.166

  /** The first sighting of a unit id creates this entry: no episode is
      open, so it already satisfies the entry invariant, and no stop alert is
      armed. */
  function NewEntry(now: int): (e: Entry)
    ensures EntryOk(e) && !EpisodeOpen(e) && e.alertedStopMinutes == None
  {
    Entry(now, None, None, 0.0)
  }

  /** `velocidad >= SPEED_THRESHOLD_KPH`: note the non-strict comparison. */
  predicate Speeding(r: Row)
  {
    r.speed >= Alerts.SPEED_THRESHOLD_KPH
  }

  /** The debounce in minutes is exactly 9960 ms. */
  lemma DebounceInMs(ms: int)
    ensures Alerts.Minutes(ms) >= DEBOUNCE_MINUTES <==> ms >= 9960
  {
  }

  /** The episode part of one loop iteration on a known unit: the updated
      entry and the log line it writes, if any. Speeding away from
      headquarters opens an episode (or keeps the open one) and raises the
      peak; not speeding closes an open episode, logging it when it lasted
      at least the debounce. Speeding at headquarters changes nothing. */
  function SpeedStep(e: Entry, r: Row, now: int): (res: (Entry, Option<LogEntry>))
    ensures res.0.lastMove == e.lastMove && res.0.alertedStopMinutes == e.alertedStopMinutes
    ensures res.1.Some? <==>
      !Speeding(r) && e.speedStart.Some? && Alerts.Minutes(now - e.speedStart.value) >= DEBOUNCE_MINUTES
    ensures res.1.Some? ==>
      res.1.value == SpeedEnded(now, DisplayName(r.name), e.peakKph, now - e.speedStart.value, r.location)
  {
    if Speeding(r) && OutOfHq(r.status) then
      var start := if e.speedStart == None then now else e.speedStart.value;
      var peak := if r.speed > e.peakKph then r.speed else e.peakKph;
      (e.(speedStart := Some(start), peakKph := peak), None)
    else if !Speeding(r) && e.speedStart.Some? then
      var d := now - e.speedStart.value;
      var line := if Alerts.Minutes(d) >= DEBOUNCE_MINUTES
        then Some(SpeedEnded(now, DisplayName(r.name), e.peakKph, d, r.location))
        else None;
      (e.(speedStart := None, peakKph := 0.0), line)
    else
      (e, None)
  }

  /** The end-of-stop log line the loop builds for a moving unit whose
      `alerted_stop_minutes` is truthy (present and non-zero). */
  function StopEndLine(e: Entry, r: Row, now: int): (line: Option<LogEntry>)
    ensures line.Some? <==>
      StopTracking.IsMoving(r) && e.alertedStopMinutes.Some? && e.alertedStopMinutes.value != 0.0
    ensures line.Some? ==>
      line.value.StopEnded? && line.value.atMs == now && line.value.minutes == e.alertedStopMinutes.value
      && line.value.unit == DisplayName(r.name) && line.value.unit <= r.name && '-' !in line.value.unit
  {
    DisplayNamePrefix(r.name);
    if StopTracking.IsMoving(r) && e.alertedStopMinutes.Some? && e.alertedStopMinutes.value != 0.0
    then Some(StopEnded(now, DisplayName(r.name), e.alertedStopMinutes.value))
    else None
  }

  /** The speed branch of the loop runs before the stop-end test and never
      touches `alerted_stop_minutes`, so the test sees the value the entry had
      when the row arrived. */
  lemma SpeedStepKeepsStopEnd(e: Entry, r: Row, now: int)
    ensures StopEndLine(SpeedStep(e, r, now).0, r, now) == StopEndLine(e, r, now)
  {
  }

  /** A moving unit whose entry holds a non-zero stop alert of `m` minutes
      gets, after the speed branch, the line "stop ended after `m` minutes"
      under its display name and stamped with the refresh time. */
  lemma ArmedStopEndLine(e: Entry, r: Row, now: int, m: real)
    requires StopTracking.IsMoving(r) && e.alertedStopMinutes == Some(m) && m != 0.0
    ensures StopEndLine(SpeedStep(e, r, now).0, r, now) == Some(StopEnded(now, DisplayName(r.name), m))
  {
    SpeedStepKeepsStopEnd(e, r, now);
  }

  /** The tracker and the log, newest line first. */
  datatype EpisodeState = EpisodeState(entries: map<string, Entry>, log: seq<LogEntry>)

  /** Puts an optional line at the front of the log (`insert(0, ...)`). */
  function Prepend(line: Option<LogEntry>, log: seq<LogEntry>): (r: seq<LogEntry>)
    ensures line.None? ==> r == log
    ensures line.Some? ==> |r| == |log| + 1 && r[0] == line.value && r[1..] == log
  {
    if line.Some? then [line.value] + log else log
  }

  /** One iteration of the loop, keyed by the API's unit id: a new id gets a
      fresh entry and nothing else happens to it this refresh. */
  function RowStep(s: EpisodeState, r: Row, now: int): (t: EpisodeState)
    requires r.unitId.Some?
    ensures t.entries.Keys == s.entries.Keys + {r.unitId.value}
    ensures forall k :: k in s.entries && k != r.unitId.value ==> t.entries[k] == s.entries[k]
  {
    var k := r.unitId.value;
    if k !in s.entries then
      EpisodeState(s.entries[k := NewEntry(now)], s.log)
    else
      var (e1, line) := SpeedStep(s.entries[k], r, now);
      EpisodeState(s.entries[k := e1], Prepend(line, s.log))
  }

  predicate AllHaveIds(rows: seq<Row>)
  {
    forall i :: 0 <= i < |rows| ==> rows[i].unitId.Some?
  }

  /** The loop over one refresh's rows, in order. */
  function Walk(s: EpisodeState, rows: seq<Row>, now: int): (t: EpisodeState)
    requires AllHaveIds(rows)
    decreases |rows|
  {
    if rows == [] then s else Walk(RowStep(s, rows[0], now), rows[1..], now)
  }

  /** Walking from row `i` is one step followed by walking from row `i + 1`. */
  lemma WalkUnfold(s: EpisodeState, rows: seq<Row>, i: nat, now: int)
    requires AllHaveIds(rows) && i < |rows|
    ensures Walk(s, rows[i..], now) == Walk(RowStep(s, rows[i], now), rows[i + 1..], now)
  {
    assert rows[i..][0] == rows[i] && rows[i..][1..] == rows[i + 1..];
  }

  /** One refresh: nothing is tracked in fallback mode. */
  function Refresh(s: EpisodeState, rows: seq<Row>, now: int): (t: EpisodeState)
    requires |rows| >= 1
    requires !IsFallback(rows) ==> AllHaveIds(rows)
    ensures IsFallback(rows) ==> t == s
  {
    if IsFallback(rows) then s else Walk(s, rows, now)
  }

  // ---------------------------------------------------------------------
  // The shape of an entry.

  /** Without an open episode the recorded peak is back at 0.0; with one,
      the peak is at least the threshold, because only a speeding row opens
      or updates an episode. */
  predicate EpisodeOpen(e: Entry)
  {
    e.speedStart.Some?
  }

  predicate EntryOk(e: Entry)
  {
    (e.speedStart.None? ==> e.peakKph == 0.0)
    && (e.speedStart.Some? ==> e.peakKph >= Alerts.SPEED_THRESHOLD_KPH)
  }

  predicate AllOk(m: map<string, Entry>)
  {
    forall k :: k in m ==> EntryOk(m[k])
  }

  /** Every logged speed line reports a peak at or above the threshold and a
      duration of at least the debounce. */
  predicate LineOk(line: LogEntry)
  {
    line.SpeedEnded? ==> line.peakKph >= Alerts.SPEED_THRESHOLD_KPH && line.durationMs >= 9960
  }

  predicate LogOk(log: seq<LogEntry>)
  {
    forall i :: 0 <= i < |log| ==> LineOk(log[i])
  }

  lemma SpeedStepKeepsShape(e: Entry, r: Row, now: int)
    requires EntryOk(e)
    ensures EntryOk(SpeedStep(e, r, now).0)
    ensures SpeedStep(e, r, now).1.Some? ==> LineOk(SpeedStep(e, r, now).1.value)
  {
    var line := SpeedStep(e, r, now).1;
    if line.Some? {
      DebounceInMs(now - e.speedStart.value);
    }
  }

  lemma {:induction false} WalkKeepsShape(s: EpisodeState, rows: seq<Row>, now: int)
    requires AllHaveIds(rows) && AllOk(s.entries) && LogOk(s.log)
    ensures AllOk(Walk(s, rows, now).entries) && LogOk(Walk(s, rows, now).log)
    decreases |rows|
  {
    if rows != [] {
      var r := rows[0];
      var k := r.unitId.value;
      var t := RowStep(s, r, now);
      if k in s.entries {
        SpeedStepKeepsShape(s.entries[k], r, now);
      }
      assert AllOk(t.entries);
      assert LogOk(t.log);
      WalkKeepsShape(t, rows[1..], now);
    }
  }

  // ---------------------------------------------------------------------
  // The life of one episode.

  /** An open episode keeps its start time while the unit keeps speeding away
      from headquarters, and the peak is the maximum of the old peak and the
      current speed. */
  lemma OpenEpisodeContinues(e: Entry, r: Row, now: int)
    requires Speeding(r) && OutOfHq(r.status)
    ensures var e1 := SpeedStep(e, r, now).0;
      (e.speedStart.Some? ==> e1.speedStart == e.speedStart)
      && (e.speedStart.None? ==> e1.speedStart == Some(now))
      && e1.peakKph >= e.peakKph && e1.peakKph >= r.speed
      && (e1.peakKph == e.peakKph || e1.peakKph == r.speed)
      && SpeedStep(e, r, now).1 == None
  {
  }

  /** Speeding at headquarters neither opens, updates nor closes an episode. */
  lemma SpeedingAtHqIgnored(e: Entry, r: Row, now: int)
    requires Speeding(r) && !OutOfHq(r.status)
    ensures SpeedStep(e, r, now) == (e, None)
  {
  }

  /** Slowing down closes any open episode and resets the peak, whether or
      not the episode was long enough to be logged. */
  lemma SlowingCloses(e: Entry, r: Row, now: int)
    requires !Speeding(r)
    ensures SpeedStep(e, r, now).0 == (if e.speedStart.Some? then e.(speedStart := None, peakKph := 0.0) else e)
  {
  }

  /** A unit seen for the first time is only registered: its speed does not
      open an episode in that refresh. */
  lemma FirstSightingOnlyRegisters(s: EpisodeState, r: Row, now: int)
    requires r.unitId.Some? && r.unitId.value !in s.entries
    ensures RowStep(s, r, now).entries[r.unitId.value] == NewEntry(now)
    ensures RowStep(s, r, now).log == s.log
  {
  }

  // ---------------------------------------------------------------------
  // The log.

  /** `b` is what is left of `a` after dropping some lines from its front. */
  predicate EndsWith(a: seq<LogEntry>, b: seq<LogEntry>)
  {
    |b| <= |a| && a[|a| - |b|..] == b
  }

  lemma EndsWithTrans(a: seq<LogEntry>, b: seq<LogEntry>, c: seq<LogEntry>)
    requires EndsWith(a, b) && EndsWith(b, c)
    ensures EndsWith(a, c)
  {
    assert a[|a| - |c|..] == a[|a| - |b|..][|b| - |c|..];
  }

  /** One row adds at most one line, at the front. */
  lemma RowStepPrependsLog(s: EpisodeState, r: Row, now: int)
    requires r.unitId.Some?
    ensures var t := RowStep(s, r, now);
      EndsWith(t.log, s.log) && |t.log| <= |s.log| + 1
  {
    var t := RowStep(s, r, now);
    assert t.log == s.log || t.log[1..] == s.log;
  }

  /** A refresh only ever adds lines at the front: the old log is a suffix of
      the new one, and each row adds at most one line. */
  lemma {:induction false} WalkPrependsLog(s: EpisodeState, rows: seq<Row>, now: int)
    requires AllHaveIds(rows)
    ensures var t := Walk(s, rows, now);
      EndsWith(t.log, s.log) && |t.log| <= |s.log| + |rows|
    decreases |rows|
  {
    if rows != [] {
      var t1 := RowStep(s, rows[0], now);
      RowStepPrependsLog(s, rows[0], now);
      WalkPrependsLog(t1, rows[1..], now);
      EndsWithTrans(Walk(t1, rows[1..], now).log, t1.log, s.log);
    }
  }

  /** No entry has a stop alert recorded. */
  predicate NoStopAlerted(m: map<string, Entry>)
  {
    forall k :: k in m ==> m[k].alertedStopMinutes == None
  }

  /** Nothing in the visible loop of Dashboard.py (up to line 508) sets
      `alerted_stop_minutes`, so starting from the empty session no entry
      gets one and the end-of-stop line is never built. The code that arms
      the long-stop alert lies past the end of the text, so this is a fact
      about the visible code only, not about the whole program. */
  lemma {:induction false} WalkNeverAlertsStops(s: EpisodeState, rows: seq<Row>, now: int)
    requires AllHaveIds(rows) && NoStopAlerted(s.entries)
    ensures NoStopAlerted(Walk(s, rows, now).entries)
    decreases |rows|
  {
    if rows != [] {
      var t := RowStep(s, rows[0], now);
      assert NoStopAlerted(t.entries);
      WalkNeverAlertsStops(t, rows[1..], now);
    }
  }

  /** With no stop alert recorded (as in the visible code), the end-of-stop
      line is never built. */
  lemma StopEndNeverBuilt(m: map<string, Entry>, k: string, r: Row, now: int)
    requires NoStopAlerted(m) && k in m
    ensures StopEndLine(m[k], r, now) == None
  {
  }

  /** A unit that runs at 85 km/h away from headquarters for 30 s and then
      drops to 20 km/h produces exactly one log line: peak 85, 30000 ms. */
  lemma ThirtySecondsAtEightyFive(s: EpisodeState, fast: Row, slow: Row, t: int)
    requires fast.unitId.Some? && slow.unitId == fast.unitId
    requires fast.unitId.value in s.entries
    requires s.entries[fast.unitId.value].speedStart == None
    requires s.entries[fast.unitId.value].peakKph == 0.0
    requires fast.speed == 85.0 && fast.status == ON_ROUTE
    requires slow.speed == 20.0
    ensures var s1 := RowStep(s, fast, t);
      var s2 := RowStep(s1, slow, t + 30000);
      s2.log == [SpeedEnded(t + 30000, DisplayName(slow.name), 85.0, 30000, slow.location)] + s.log
      && s2.entries[fast.unitId.value].speedStart == None
  {
    OutOfHqIffAway(Episodes, true, false);
    var k := fast.unitId.value;
    var s1 := RowStep(s, fast, t);
    assert s1.entries[k].speedStart == Some(t) && s1.entries[k].peakKph == 85.0;
    DebounceInMs(30000);
  }

  /** An episode of 9.9 s is closed without being logged. */
  lemma ShortBurstNotLogged(e: Entry, r: Row, now: int)
    requires !Speeding(r) && e.speedStart == Some(now - 9900)
    ensures SpeedStep(e, r, now) == (e.(speedStart := None, peakKph := 0.0), None)
  {
    DebounceInMs(9900);
  }
}
