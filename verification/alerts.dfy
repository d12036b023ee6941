/** The alert registry of dashboard.py: which units are listed as long stops
    (sorted, longest first) and as speeding candidates, and the operator's
    dismissals that hide them. */
module Alerts {
  import opened Basics
  import opened Text
  import opened Status
  import opened Snapshot

  /** A stop-alert line: the row and its stop duration in ms. */
  datatype StopAlert = StopAlert(row: Row, durationMs: int)

  const STOP_THRESHOLD_MINUTES: real := 5.0
  const SPEED_THRESHOLD_KPH: real := 70.0

  /** `total_seconds() / 60.0` for a duration of `ms` milliseconds. */
  function Minutes(ms: int): real
  {
    ms as real / 60000.0
  }

  /** The threshold in minutes is exactly 300000 ms. */
  lemma LongStopInMs(ms: int)
    ensures Minutes(ms) > STOP_THRESHOLD_MINUTES <==> ms > 300000
  {
  }

  /** `STOP_DURATION_MINUTES > STOP_THRESHOLD_MINUTES` and the status is not
      at headquarters (pandas pattern "(Sede)|Resguardo"). */
  predicate LongStop(a: StopAlert)
  {
    Minutes(a.durationMs) > STOP_THRESHOLD_MINUTES && OutOfHqPattern(a.row.status)
  }

  /** `dismissed.get(name) == True`. */
  predicate Dismissed(dismissed: map<string, bool>, name: string)
  {
    name in dismissed && dismissed[name]
  }

  predicate PendingStop(a: StopAlert, dismissed: map<string, bool>)
  {
    LongStop(a) && !Dismissed(dismissed, a.row.name)
  }

  /** The rows paired with their stop durations (the
      `STOP_DURATION_MINUTES` column). */
  function Paired(rows: seq<Row>, durations: seq<int>): (ps: seq<StopAlert>)
    requires |durations| == |rows|
    ensures |ps| == |rows| && forall i :: 0 <= i < |rows| ==> ps[i] == StopAlert(rows[i], durations[i])
  {
    seq(|rows|, i requires 0 <= i < |rows| => StopAlert(rows[i], durations[i]))
  }

  /** The boolean mask of the pending stop-alert filter. */
  function PendingMask(dismissed: map<string, bool>): StopAlert -> bool
  {
    a => PendingStop(a, dismissed)
  }

  /** Rows paired with their durations, keeping those that are long stops and
      not dismissed: one alert per such row, in row order. */
  function PendingInOrder(rows: seq<Row>, durations: seq<int>, dismissed: map<string, bool>): (ps: seq<StopAlert>)
    requires |durations| == |rows|
    ensures KeptInOrder(Paired(rows, durations), ps, PendingMask(dismissed))
    ensures forall a :: a in ps <==>
      exists i :: 0 <= i < |rows| && a == StopAlert(rows[i], durations[i]) && PendingStop(a, dismissed)
  {
    var all := Paired(rows, durations);
    assert forall a :: a in all <==> exists i :: 0 <= i < |rows| && a == StopAlert(rows[i], durations[i]);
    Filter(all, PendingMask(dismissed))
  }

  predicate SortedDesc(s: seq<StopAlert>)
  {
    forall i, j :: 0 <= i < j < |s| ==> s[i].durationMs >= s[j].durationMs
  }

  /** Putting an alert at least as long as all of a sorted list in front of
      it keeps the list sorted. */
  lemma ConsSorted(h: StopAlert, t: seq<StopAlert>)
    requires SortedDesc(t)
    requires forall x :: x in t ==> x.durationMs <= h.durationMs
    ensures SortedDesc([h] + t)
  {
    var r := [h] + t;
    forall i, j | 0 <= i < j < |r| ensures r[i].durationMs >= r[j].durationMs {
      assert r[j] == t[j - 1] && t[j - 1] in t;
      if i > 0 {
        assert r[i] == t[i - 1];
      }
    }
  }

  /** The head of a sorted list is at least as long as every later alert. */
  lemma SortedHeadBound(s: seq<StopAlert>)
    requires SortedDesc(s) && s != []
    ensures forall x :: x in s ==> x.durationMs <= s[0].durationMs
  {
  }

  /** Insert into a list sorted longest first, after the alerts at least as long. */
  function Insert(a: StopAlert, s: seq<StopAlert>): (r: seq<StopAlert>)
    requires SortedDesc(s)
    ensures SortedDesc(r) && multiset(r) == multiset(s) + multiset{a}
    ensures |r| == |s| + 1
  {
    if s == [] then [a]
    else
      SortedHeadBound(s);
      if s[0].durationMs >= a.durationMs then
        var tail := Insert(a, s[1..]);
        assert multiset(s) == multiset{s[0]} + multiset(s[1..]) by { assert s == [s[0]] + s[1..]; }
        forall x | x in tail ensures x.durationMs <= s[0].durationMs {
          assert x in multiset(tail);
          assert x in s[1..] || x == a;
        }
        ConsSorted(s[0], tail);
        [s[0]] + tail
      else
        ConsSorted(a, s);
        [a] + s
  }

  /** `sort_values(by='STOP_DURATION_MINUTES', ascending=False)`. */
  function SortDesc(s: seq<StopAlert>): (r: seq<StopAlert>)
    ensures SortedDesc(r) && multiset(r) == multiset(s)
  {
    if s == [] then []
    else
      assert s == [s[0]] + s[1..];
      Insert(s[0], SortDesc(s[1..]))
  }

  /** The pending stop-alert list of one refresh (empty in fallback mode). */
  function PendingStops(rows: seq<Row>, durations: seq<int>, dismissed: map<string, bool>): seq<StopAlert>
    requires |rows| >= 1 && |durations| == |rows|
  {
    if IsFallback(rows) then [] else SortDesc(PendingInOrder(rows, durations, dismissed))
  }

  /** The speed-alert candidates of dashboard.py (at or above 70 km/h and out
      of HQ), in row order, before the dismissal filter. */
  function SpeedCandidates(rows: seq<Row>): seq<Row>
    requires |rows| >= 1
  {
    if IsFallback(rows) then [] else SpeedingInOrder(rows)
  }

  predicate Speeding(r: Row)
  {
    r.speed >= SPEED_THRESHOLD_KPH && OutOfHqPattern(r.status)
  }

  /** The rows at or above the speed threshold and away from headquarters,
      each once and in row order. */
  function SpeedingInOrder(rows: seq<Row>): (rs: seq<Row>)
    ensures KeptInOrder(rows, rs, Speeding)
    ensures forall r :: r in rs <==> r in rows && Speeding(r)
  {
    Filter(rows, Speeding)
  }

  // ---------------------------------------------------------------------

  /** Outside fallback mode the stop-alert list holds exactly the rows whose
      stop is over the threshold, whose status is not at headquarters and whose
      name is not dismissed, each once per row, longest stop first. */
  lemma PendingStopsExact(rows: seq<Row>, durations: seq<int>, dismissed: map<string, bool>)
    requires |rows| >= 1 && |durations| == |rows| && !IsFallback(rows)
    ensures var ps := PendingStops(rows, durations, dismissed);
      && SortedDesc(ps)
      && multiset(ps) == multiset(PendingInOrder(rows, durations, dismissed))
      && forall a :: a in ps <==>
           exists i :: 0 <= i < |rows| && a == StopAlert(rows[i], durations[i])
             && Minutes(durations[i]) > STOP_THRESHOLD_MINUTES
             && OutOfHqPattern(rows[i].status)
             && !Dismissed(dismissed, rows[i].name)
  {
    var q := PendingInOrder(rows, durations, dismissed);
    SameMembers(SortDesc(q), q);
  }

  /** Sequences with the same multiset have the same members. */
  lemma SameMembers(s: seq<StopAlert>, t: seq<StopAlert>)
    requires multiset(s) == multiset(t)
    ensures forall a :: a in s <==> a in t
  {
    forall a ensures a in s <==> a in t {
      assert a in s <==> a in multiset(s);
      assert a in t <==> a in multiset(t);
    }
  }

  /** In fallback mode neither alert list has entries. */
  lemma FallbackListsEmpty(rows: seq<Row>, durations: seq<int>, dismissed: map<string, bool>)
    requires |rows| >= 1 && |durations| == |rows| && IsFallback(rows)
    ensures PendingStops(rows, durations, dismissed) == [] && SpeedCandidates(rows) == []
  {
  }

  /** Outside fallback mode the speed candidates are exactly the rows at or
      above 70 km/h whose status is not at headquarters. */
  lemma SpeedCandidatesExact(rows: seq<Row>)
    requires |rows| >= 1 && !IsFallback(rows)
    ensures forall r :: r in SpeedCandidates(rows) <==>
      r in rows && r.speed >= SPEED_THRESHOLD_KPH && OutOfHqPattern(r.status)
  {
  }

  /** A unit reported at headquarters is never listed, whatever its stop time
      or speed. */
  lemma AtBaseNeverListed(rev: Revision, units: seq<RawUnit>, i: nat,
                          durations: seq<int>, dismissed: map<string, bool>)
    requires |units| > 0 && i < |units| && units[i].atBase
    requires |durations| == |units|
    ensures var rows := Fetch(rev, Received(units));
      && (forall a :: a in PendingStops(rows, durations, dismissed) ==> a.row != rows[i])
      && rows[i] !in SpeedCandidates(rows)
  {
    var rows := Fetch(rev, Received(units));
    var u := units[i];
    OutOfHqIffAway(rev, IgnitionOn(u.ignition), u.atBase);
    assert !OutOfHqPattern(rows[i].status);
    if !IsFallback(rows) {
      PendingStopsExact(rows, durations, dismissed);
    }
  }

  // ---------------------------------------------------------------------
  // Dismissals (pure view of the callbacks)

  /** `descartar_alerta_stop(name)` / `descartar_alerta(name)`. */
  function Dismiss(dismissed: map<string, bool>, name: string): map<string, bool>
  {
    dismissed[name := true]
  }

  /** The "accept all" button: dismiss every listed name, in list order. */
  function DismissAll(dismissed: map<string, bool>, names: seq<string>): (m: map<string, bool>)
    decreases |names|
  {
    if names == [] then dismissed
    else Dismiss(DismissAll(dismissed, names[..|names| - 1]), names[|names| - 1])
  }

  /** Dismissing all sets the flag of every listed name and changes no other
      entry. */
  lemma {:induction false} DismissAllSets(dismissed: map<string, bool>, names: seq<string>)
    ensures var m := DismissAll(dismissed, names);
      && m.Keys == dismissed.Keys + (set n | n in names)
      && (forall n :: n in names ==> Dismissed(m, n))
      && (forall n :: n in dismissed && n !in names ==> m[n] == dismissed[n])
    decreases |names|
  {
    if names != [] {
      var init := names[..|names| - 1];
      DismissAllSets(dismissed, init);
      assert forall n :: n in names <==> n in init || n == names[|names| - 1] by {
        assert names == init + [names[|names| - 1]];
      }
    }
  }

  function Names(alerts: seq<StopAlert>): seq<string>
  {
    seq(|alerts|, i requires 0 <= i < |alerts| => alerts[i].row.name)
  }

  /** After "accept all" on the current list, recomputing the list from the
      same rows and durations gives nothing. */
  lemma DismissAllEmptiesList(rows: seq<Row>, durations: seq<int>, dismissed: map<string, bool>)
    requires |rows| >= 1 && |durations| == |rows|
    ensures var listed := PendingStops(rows, durations, dismissed);
      PendingStops(rows, durations, DismissAll(dismissed, Names(listed))) == []
  {
    var listed := PendingStops(rows, durations, dismissed);
    var names := Names(listed);
    var m := DismissAll(dismissed, names);
    if !IsFallback(rows) {
      PendingStopsExact(rows, durations, dismissed);
      DismissAllSets(dismissed, names);
      forall i | 0 <= i < |rows| ensures !PendingStop(StopAlert(rows[i], durations[i]), m) {
        var a := StopAlert(rows[i], durations[i]);
        if PendingStop(a, dismissed) {
          assert a in listed;
          var j :| 0 <= j < |listed| && listed[j] == a;
          assert names[j] == rows[i].name;
        }
      }
      NothingPending(rows, durations, m);
    }
  }

  lemma NothingPending(rows: seq<Row>, durations: seq<int>, dismissed: map<string, bool>)
    requires |durations| == |rows|
    requires forall i :: 0 <= i < |rows| ==> !PendingStop(StopAlert(rows[i], durations[i]), dismissed)
    ensures PendingInOrder(rows, durations, dismissed) == []
  {
    NoneAccepted(Paired(rows, durations), PendingMask(dismissed));
  }

  /** A dismissed name is not listed, and only the dismissed name disappears. */
  lemma DismissHides(rows: seq<Row>, durations: seq<int>, dismissed: map<string, bool>, name: string)
    requires |rows| >= 1 && |durations| == |rows| && !IsFallback(rows)
    ensures forall a :: a in PendingStops(rows, durations, Dismiss(dismissed, name)) <==>
      a in PendingStops(rows, durations, dismissed) && a.row.name != name
  {
    PendingStopsExact(rows, durations, dismissed);
    PendingStopsExact(rows, durations, Dismiss(dismissed, name));
  }
}
