/** The stop tracker of dashboard.py: per unit, the time it was last seen
    moving; per unit name, the operator's dismissals, which movement clears.
    One refresh walks the rows in order (`for index, row in
    df.iterrows()`); this module gives that walk as pure functions on the
    session state, and the lemmas about them. */
module StopTracking {
  import opened Basics
  import opened Text
  import opened Status
  import opened Snapshot

  /** The session-state dictionaries the tracker reads and writes:
      `unidades_stop_state` (tracker key to `last_move_time`, in ms),
      `alertas_descartadas` and `alertas_velocidad_descartadas` (unit name to
      dismissal flag). */
  datatype StopState = StopState(
    lastMove: map<string, int>,
    stopDismissed: map<string, bool>,
    speedDismissed: map<string, bool>)

  /** Speeds strictly above this (km/h) count as moving. */
  const MOVING_KPH: real := 1.0

  predicate IsMoving(r: Row)
  {
    r.speed > MOVING_KPH
  }

  /** The dashboard.py revisions track stops; Dashboard.py's stop tracker lies
      past the end of the available text. */
  predicate TracksStops(rev: Revision)
  {
    rev != Episodes
  }

  /** A row carries the key its revision tracks it by. */
  predicate Keyed(rev: Revision, r: Row)
  {
    rev == StopOnly || r.unitId.Some?
  }

  predicate AllKeyed(rev: Revision, rows: seq<Row>)
  {
    forall i :: 0 <= i < |rows| ==> Keyed(rev, rows[i])
  }

  /** The older revision tracks by unit name, the newer by the API's unit id. */
  function Key(rev: Revision, r: Row): string
    requires Keyed(rev, r)
  {
    if rev == StopOnly then r.name else r.unitId.value
  }

  /** One iteration of the tracking loop: the new state and the row's stop
      duration in ms (the STOP_DURATION column, zero unless computed). */
  function Step(rev: Revision, s: StopState, r: Row, now: int): (StopState, int)
    requires TracksStops(rev) && Keyed(rev, r)
  {
    var k := Key(rev, r);
    if k !in s.lastMove then
      // first sighting: seed the entry, skip the rest of the iteration
      (s.(lastMove := s.lastMove[k := now]), 0)
    else if IsMoving(r) then
      (StopState(
         s.lastMove[k := now],
         s.stopDismissed - {r.name},
         if rev == StopAndSpeed then s.speedDismissed - {r.name} else s.speedDismissed),
       0)
    else
      (s, now - s.lastMove[k])
  }

  /** The whole loop over one refresh's rows. */
  function Run(rev: Revision, s: StopState, rows: seq<Row>, now: int): (res: (StopState, seq<int>))
    requires TracksStops(rev) && AllKeyed(rev, rows)
    ensures |res.1| == |rows|
    ensures s.lastMove.Keys <= res.0.lastMove.Keys
    ensures forall i :: 0 <= i < |rows| ==> Key(rev, rows[i]) in res.0.lastMove
    decreases |rows|
  {
    if rows == [] then (s, [])
    else
      var (s1, d) := Step(rev, s, rows[0], now);
      var (s2, ds) := Run(rev, s1, rows[1..], now);
      (s2, [d] + ds)
  }

  /** Running from row `i` is one step followed by running from row `i + 1`. */
  lemma RunUnfold(rev: Revision, s: StopState, rows: seq<Row>, i: nat, now: int)
    requires TracksStops(rev) && AllKeyed(rev, rows) && i < |rows|
    ensures var (s1, d) := Step(rev, s, rows[i], now);
      Run(rev, s, rows[i..], now) == (Run(rev, s1, rows[i + 1..], now).0, [d] + Run(rev, s1, rows[i + 1..], now).1)
  {
    assert rows[i..][0] == rows[i] && rows[i..][1..] == rows[i + 1..];
  }

  function Zeros(n: nat): (z: seq<int>)
    ensures |z| == n && forall i :: 0 <= i < n ==> z[i] == 0
  {
    seq(n, _ => 0)
  }

  /** One refresh: in fallback mode the tracker is left alone and every
      duration stays zero. */
  function Refresh(rev: Revision, s: StopState, rows: seq<Row>, now: int): (res: (StopState, seq<int>))
    requires TracksStops(rev) && |rows| >= 1
    requires !IsFallback(rows) ==> AllKeyed(rev, rows)
    ensures |res.1| == |rows|
    ensures IsFallback(rows) ==> res.0 == s && forall i :: 0 <= i < |rows| ==> res.1[i] == 0
  {
    if IsFallback(rows) then (s, Zeros(|rows|)) else Run(rev, s, rows, now)
  }

  // ---------------------------------------------------------------------
  // Frame: what a refresh may change.

  function Keys(rev: Revision, rows: seq<Row>): set<string>
    requires AllKeyed(rev, rows)
  {
    set i | 0 <= i < |rows| :: Key(rev, rows[i])
  }

  function MovingNames(rows: seq<Row>): set<string>
  {
    set i | 0 <= i < |rows| && IsMoving(rows[i]) :: rows[i].name
  }

  lemma KeysSplit(rev: Revision, rows: seq<Row>)
    requires AllKeyed(rev, rows) && rows != []
    ensures Keys(rev, rows) == {Key(rev, rows[0])} + Keys(rev, rows[1..])
    ensures MovingNames(rows) == (if IsMoving(rows[0]) then {rows[0].name} else {}) + MovingNames(rows[1..])
  {
    forall k | k in Keys(rev, rows) ensures k in {Key(rev, rows[0])} + Keys(rev, rows[1..]) {
      var i :| 0 <= i < |rows| && Key(rev, rows[i]) == k;
      if i > 0 { assert rows[1..][i - 1] == rows[i]; }
    }
    forall k | k in Keys(rev, rows[1..]) ensures k in Keys(rev, rows) {
      var i :| 0 <= i < |rows[1..]| && Key(rev, rows[1..][i]) == k;
      assert rows[1..][i] == rows[i + 1];
    }
    forall n | n in MovingNames(rows)
      ensures n in (if IsMoving(rows[0]) then {rows[0].name} else {}) + MovingNames(rows[1..])
    {
      var i :| 0 <= i < |rows| && IsMoving(rows[i]) && rows[i].name == n;
      if i > 0 { assert rows[1..][i - 1] == rows[i]; }
    }
    forall n | n in MovingNames(rows[1..]) ensures n in MovingNames(rows) {
      var i :| 0 <= i < |rows[1..]| && IsMoving(rows[1..][i]) && rows[1..][i].name == n;
      assert rows[1..][i] == rows[i + 1];
    }
  }

  /** A refresh adds an entry for every tracked key it saw and no other; an
      entry it changes is set to `now`; entries of units not in the batch are
      untouched. */
  lemma {:induction false} RunTrackerFrame(rev: Revision, s: StopState, rows: seq<Row>, now: int)
    requires TracksStops(rev) && AllKeyed(rev, rows)
    ensures var t := Run(rev, s, rows, now).0;
      && t.lastMove.Keys == s.lastMove.Keys + Keys(rev, rows)
      && (forall k :: k in t.lastMove ==> t.lastMove[k] == now || (k in s.lastMove && t.lastMove[k] == s.lastMove[k]))
      && (forall k :: k in s.lastMove && k !in Keys(rev, rows) ==> t.lastMove[k] == s.lastMove[k])
    decreases |rows|
  {
    if rows != [] {
      var s1 := Step(rev, s, rows[0], now).0;
      RunTrackerFrame(rev, s1, rows[1..], now);
      StepTrackerFrame(rev, s, rows[0], now);
      KeysSplit(rev, rows);
    }
  }

  /** One row adds or rewrites only its own unit's entry, and a rewritten
      entry is set to `now`. */
  lemma StepTrackerFrame(rev: Revision, s: StopState, r: Row, now: int)
    requires TracksStops(rev) && Keyed(rev, r)
    ensures var t := Step(rev, s, r, now).0; var k := Key(rev, r);
      && t.lastMove.Keys == s.lastMove.Keys + {k}
      && (t.lastMove[k] == now || (k in s.lastMove && t.lastMove[k] == s.lastMove[k]))
      && (forall k' :: k' in s.lastMove && k' != k ==> t.lastMove[k'] == s.lastMove[k'])
  {
  }

  /** Dismissals are only ever removed, only under names of units seen moving,
      and the older revision leaves the speed dismissals alone. */
  lemma {:induction false} RunDismissalFrame(rev: Revision, s: StopState, rows: seq<Row>, now: int)
    requires TracksStops(rev) && AllKeyed(rev, rows)
    ensures var t := Run(rev, s, rows, now).0;
      && t.stopDismissed.Keys <= s.stopDismissed.Keys
      && (forall n :: n in t.stopDismissed ==> t.stopDismissed[n] == s.stopDismissed[n])
      && (forall n :: n in s.stopDismissed && n !in MovingNames(rows) ==> n in t.stopDismissed)
      && t.speedDismissed.Keys <= s.speedDismissed.Keys
      && (forall n :: n in t.speedDismissed ==> t.speedDismissed[n] == s.speedDismissed[n])
      && (forall n :: n in s.speedDismissed && n !in MovingNames(rows) ==> n in t.speedDismissed)
      && (rev == StopOnly ==> t.speedDismissed == s.speedDismissed)
    decreases |rows|
  {
    if rows != [] {
      var s1 := Step(rev, s, rows[0], now).0;
      RunDismissalFrame(rev, s1, rows[1..], now);
      KeysSplit(rev, rows);
    }
  }

  // ---------------------------------------------------------------------
  // The per-unit promises of one refresh.

  /** A unit whose entry is new this refresh (or was already reset at this
      very time) ends the refresh with `last_move_time == now`, and every row
      of it in the batch reports a zero stop duration. */
  lemma {:induction false} FreshUnitReportsZero(rev: Revision, s: StopState, rows: seq<Row>, now: int, k: string)
    requires TracksStops(rev) && AllKeyed(rev, rows)
    requires k !in s.lastMove || s.lastMove[k] == now
    ensures var (t, ds) := Run(rev, s, rows, now);
      && (k in t.lastMove ==> t.lastMove[k] == now)
      && forall i :: 0 <= i < |rows| && Key(rev, rows[i]) == k ==> ds[i] == 0
    decreases |rows|
  {
    if rows != [] {
      var s1 := Step(rev, s, rows[0], now).0;
      FreshUnitReportsZero(rev, s1, rows[1..], now, k);
      var ds := Run(rev, s, rows, now).1;
      var ds1 := Run(rev, s1, rows[1..], now).1;
      assert ds == [Step(rev, s, rows[0], now).1] + ds1;
      forall i | 0 < i < |rows| && Key(rev, rows[i]) == k ensures ds[i] == 0 {
        assert rows[1..][i - 1] == rows[i];
      }
    }
  }

  /** A unit already tracked that is seen moving ends the refresh with
      `last_move_time == now`, a zero stop duration for that row, and no stop
      dismissal (nor, in the newer revision, speed dismissal) under its name. */
  lemma {:induction false} MovingResets(rev: Revision, s: StopState, rows: seq<Row>, now: int, i: nat)
    requires TracksStops(rev) && AllKeyed(rev, rows)
    requires i < |rows| && IsMoving(rows[i]) && Key(rev, rows[i]) in s.lastMove
    ensures var (t, ds) := Run(rev, s, rows, now);
      && t.lastMove[Key(rev, rows[i])] == now
      && ds[i] == 0
      && rows[i].name !in t.stopDismissed
      && (rev == StopAndSpeed ==> rows[i].name !in t.speedDismissed)
    decreases |rows|
  {
    var s1 := Step(rev, s, rows[0], now).0;
    var k := Key(rev, rows[i]);
    if i == 0 {
      RunDismissalFrame(rev, s1, rows[1..], now);
      FreshUnitReportsZero(rev, s1, rows[1..], now, k);
    } else {
      assert rows[1..][i - 1] == rows[i];
      MovingResets(rev, s1, rows[1..], now, i - 1);
    }
  }

  /** A tracked unit seen stopped, with no earlier moving row of it in the
      batch, reports `now - last_move_time` (its stop so far); if no row of it
      moves, its `last_move_time` is unchanged. */
  lemma {:induction false} StoppedReportsElapsed(rev: Revision, s: StopState, rows: seq<Row>, now: int, i: nat)
    requires TracksStops(rev) && AllKeyed(rev, rows)
    requires i < |rows| && !IsMoving(rows[i]) && Key(rev, rows[i]) in s.lastMove
    requires forall j :: 0 <= j < i && Key(rev, rows[j]) == Key(rev, rows[i]) ==> !IsMoving(rows[j])
    ensures var (t, ds) := Run(rev, s, rows, now);
      && ds[i] == now - s.lastMove[Key(rev, rows[i])]
      && ((forall j :: 0 <= j < |rows| && Key(rev, rows[j]) == Key(rev, rows[i]) ==> !IsMoving(rows[j]))
            ==> t.lastMove[Key(rev, rows[i])] == s.lastMove[Key(rev, rows[i])])
    decreases |rows|
  {
    var s1 := Step(rev, s, rows[0], now).0;
    var k := Key(rev, rows[i]);
    assert s1.lastMove[k] == s.lastMove[k];
    if i > 0 {
      assert rows[1..][i - 1] == rows[i];
      forall j | 0 <= j < i - 1 && Key(rev, rows[1..][j]) == k ensures !IsMoving(rows[1..][j]) {
        assert rows[1..][j] == rows[j + 1];
      }
      StoppedReportsElapsed(rev, s1, rows[1..], now, i - 1);
    }
    if forall j :: 0 <= j < |rows| && Key(rev, rows[j]) == k ==> !IsMoving(rows[j]) {
      StopKeepsLastMove(rev, s1, rows[1..], now, k);
    }
  }

  /** A key none of whose rows moves keeps its `last_move_time`. */
  lemma {:induction false} StopKeepsLastMove(rev: Revision, s: StopState, rows: seq<Row>, now: int, k: string)
    requires TracksStops(rev) && AllKeyed(rev, rows) && k in s.lastMove
    requires forall j :: 0 <= j < |rows| && Key(rev, rows[j]) == k ==> !IsMoving(rows[j])
    ensures Run(rev, s, rows, now).0.lastMove[k] == s.lastMove[k]
    decreases |rows|
  {
    if rows != [] {
      var s1 := Step(rev, s, rows[0], now).0;
      assert s1.lastMove[k] == s.lastMove[k];
      forall j | 0 <= j < |rows[1..]| && Key(rev, rows[1..][j]) == k ensures !IsMoving(rows[1..][j]) {
        assert rows[1..][j] == rows[j + 1];
      }
      StopKeepsLastMove(rev, s1, rows[1..], now, k);
    }
  }

  // ---------------------------------------------------------------------
  // Repeating a refresh at the same instant.

  /** Everything a refresh at `now` would establish already holds. */
  predicate Settled(rev: Revision, t: StopState, rows: seq<Row>, now: int)
    requires AllKeyed(rev, rows)
  {
    forall i :: 0 <= i < |rows| ==>
      && Key(rev, rows[i]) in t.lastMove
      && (IsMoving(rows[i]) ==>
            && t.lastMove[Key(rev, rows[i])] == now
            && rows[i].name !in t.stopDismissed
            && (rev == StopAndSpeed ==> rows[i].name !in t.speedDismissed))
  }

  /** From a settled state, a refresh changes nothing. */
  lemma {:induction false} SettledIsFixed(rev: Revision, t: StopState, all: seq<Row>, rows: seq<Row>, now: int)
    requires TracksStops(rev) && AllKeyed(rev, all) && Settled(rev, t, all, now)
    requires forall j :: 0 <= j < |rows| ==> rows[j] in all
    ensures AllKeyed(rev, rows) && Run(rev, t, rows, now).0 == t
    decreases |rows|
  {
    forall j | 0 <= j < |rows| ensures Keyed(rev, rows[j]) {
      var m :| 0 <= m < |all| && all[m] == rows[j];
    }
    if rows != [] {
      var r := rows[0];
      var m :| 0 <= m < |all| && all[m] == r;
      var k := Key(rev, r);
      if IsMoving(r) {
        assert t.lastMove[k := now] == t.lastMove;
        assert t.stopDismissed - {r.name} == t.stopDismissed;
        assert rev == StopAndSpeed ==> t.speedDismissed - {r.name} == t.speedDismissed;
      }
      assert Step(rev, t, r, now).0 == t;
      forall j | 0 <= j < |rows[1..]| ensures rows[1..][j] in all {
        assert rows[1..][j] == rows[j + 1];
      }
      SettledIsFixed(rev, t, all, rows[1..], now);
    }
  }

  /** Once every unit of the batch is tracked, refreshing the same batch again
      at the same instant leaves the tracker and the dismissals as they are:
      repeated stopped samples do not move `last_move_time`, repeated moving
      samples set it to the same instant. */
  lemma RefreshIdempotent(rev: Revision, s: StopState, rows: seq<Row>, now: int)
    requires TracksStops(rev) && AllKeyed(rev, rows)
    requires forall i :: 0 <= i < |rows| ==> Key(rev, rows[i]) in s.lastMove
    ensures var t := Run(rev, s, rows, now).0;
      Run(rev, t, rows, now).0 == t
  {
    var t := Run(rev, s, rows, now).0;
    forall i | 0 <= i < |rows| && IsMoving(rows[i])
      ensures t.lastMove[Key(rev, rows[i])] == now
      ensures rows[i].name !in t.stopDismissed
      ensures rev == StopAndSpeed ==> rows[i].name !in t.speedDismissed
    {
      MovingResets(rev, s, rows, now, i);
    }
    assert Settled(rev, t, rows, now);
    SettledIsFixed(rev, t, rows, rows, now);
  }

  /** A unit seen moving and then, at a later refresh, stopped reports exactly
      the time since that movement: movement resets the stop clock. */
  lemma MoveThenStop(rev: Revision, s: StopState, moving: Row, stopped: Row, t1: int, t2: int)
    requires TracksStops(rev) && Keyed(rev, moving) && Keyed(rev, stopped)
    requires Key(rev, moving) == Key(rev, stopped) && IsMoving(moving) && !IsMoving(stopped)
    ensures var s1 := Run(rev, s, [moving], t1).0;
      Run(rev, s1, [stopped], t2).1 == [t2 - t1]
  {
  }
}
