/** What dashboard.py derives from the rows for display: the stop-time
    labels, the sidebar counters, the top of the stop-alert list and the
    grid of unit cards, five per row. */
module Display {
  import opened Basics
  import opened Text
  import opened Status
  import opened Snapshot
  import opened Alerts

  // ---------------------------------------------------------------------
  // Stop-time labels

  /** `int(total_seconds // 60)` and `int(total_seconds % 60)` for a duration
      of `ms` milliseconds: whole minutes and the whole seconds left over.
      Python's floor division and modulo agree with Dafny's for the positive
      divisors used here. */
  function MinSec(ms: int): (p: (int, nat))
    ensures p.1 < 60
    ensures p.0 * 60000 + p.1 * 1000 <= ms < p.0 * 60000 + p.1 * 1000 + 1000
  {
    var t := ms / 1000;
    assert t * 1000 <= ms < t * 1000 + 1000;
    assert (t / 60) * 60000 + (t % 60) * 1000 == ((t / 60) * 60 + t % 60) * 1000;
    (t / 60, t % 60)
  }

  /** `f"{n:02}"` for a number below 100: two digits, zero-padded. */
  function Pad2(n: nat): (s: string)
    requires n < 100
    ensures |s| == 2 && AllDigits(s) && ParseDigits(s) == n
  {
    var s := [DigitChar(n / 10), DigitChar(n % 10)];
    assert s[..1] == [DigitChar(n / 10)] && s[..1][..0] == [];
    assert "0123456789"[n / 10] == ('0' as int + n / 10) as char;
    assert "0123456789"[n % 10] == ('0' as int + n % 10) as char;
    assert ParseDigits(s[..1]) == n / 10;
    assert ParseDigits(s) == ParseDigits(s[..1]) * 10 + DigitValue(s[1]);
    s
  }

  /** `f"{minutes}{minWord}{seconds:02}{secWord}"`. */
  function Label(ms: int, minWord: string, secWord: string): string
  {
    var (m, s) := MinSec(ms);
    IntText(m) + minWord + Pad2(s) + secWord
  }

  /** The label of the stop-alert message, "Xmin YYseg". */
  function AlertLabel(ms: int): string
  {
    Label(ms, "min ", "seg")
  }

  /** The label of a card's details panel, "X min YY seg". */
  function CardLabel(ms: int): string
  {
    Label(ms, " min ", " seg")
  }

  /** Digits followed by a text that starts with a non-digit split apart in
      only one way. */
  lemma DigitsPrefixUnique(d1: string, w1: string, d2: string, w2: string)
    requires AllDigits(d1) && AllDigits(d2) && |w1| > 0 && |w2| > 0
    requires !('0' <= w1[0] <= '9') && !('0' <= w2[0] <= '9')
    requires d1 + w1 == d2 + w2
    ensures d1 == d2 && w1 == w2
  {
    var l := d1 + w1;
    assert l[|d1|] == w1[0];
    assert l[|d2|] == w2[0];
    assert forall k :: 0 <= k < |d1| ==> l[k] == d1[k];
    assert forall k :: 0 <= k < |d2| ==> l[k] == d2[k];
    assert |d1| == |d2|;
    assert d1 == l[..|d1|] == d2;
  }

  /** For non-negative durations, two labels are equal exactly when the
      durations have the same number of whole seconds: the label loses the
      milliseconds and nothing else. */
  lemma LabelSeconds(a: int, b: int, minWord: string, secWord: string)
    requires a >= 0 && b >= 0
    requires |minWord| > 0 && !('0' <= minWord[0] <= '9')
    ensures Label(a, minWord, secWord) == Label(b, minWord, secWord) <==> a / 1000 == b / 1000
  {
    if Label(a, minWord, secWord) == Label(b, minWord, secWord) {
      LabelParts(a, b, minWord, secWord);
      WholeSeconds(a);
      WholeSeconds(b);
    }
  }

  /** Equal labels of non-negative durations come from equal minute and
      second parts. */
  lemma LabelParts(a: int, b: int, minWord: string, secWord: string)
    requires a >= 0 && b >= 0
    requires |minWord| > 0 && !('0' <= minWord[0] <= '9')
    requires Label(a, minWord, secWord) == Label(b, minWord, secWord)
    ensures MinSec(a) == MinSec(b)
  {
    var (m1, s1) := MinSec(a);
    var (m2, s2) := MinSec(b);
    var w1 := minWord + Pad2(s1) + secWord;
    var w2 := minWord + Pad2(s2) + secWord;
    assert Label(a, minWord, secWord) == Digits(m1) + w1;
    assert Label(b, minWord, secWord) == Digits(m2) + w2;
    DigitsPrefixUnique(Digits(m1), w1, Digits(m2), w2);
    DigitsInjective(m1, m2);
    var n := |minWord|;
    assert Pad2(s1) == w1[n..n + 2] == w2[n..n + 2] == Pad2(s2);
  }

  /** The two parts together are the whole seconds of the duration. */
  lemma WholeSeconds(ms: int)
    ensures MinSec(ms).0 * 60 + MinSec(ms).1 == ms / 1000
  {
  }

  /** Both labels in use keep exactly the whole seconds. */
  lemma AlertAndCardLabelsSeconds(a: int, b: int)
    requires a >= 0 && b >= 0
    ensures AlertLabel(a) == AlertLabel(b) <==> a / 1000 == b / 1000
    ensures CardLabel(a) == CardLabel(b) <==> a / 1000 == b / 1000
  {
    LabelSeconds(a, b, "min ", "seg");
    LabelSeconds(a, b, " min ", " seg");
  }

  /** The alert message takes `name.split('-')[0]` without checking for a
      hyphen; that is the same display name the cards and the log use. */
  lemma AlertNameIsDisplayName(name: string)
    ensures SplitOn(name, "-")[0] == DisplayName(name)
  {
    if !Contains(name, "-") {
      SplitWithoutSeparator(name, "-");
    }
  }

  // ---------------------------------------------------------------------
  // The top of the stop-alert list

  /** `head(5)`: the message names at most five alerts. */
  function Shown(alerts: seq<StopAlert>): (shown: seq<StopAlert>)
    ensures |shown| == if |alerts| < 5 then |alerts| else 5
    ensures shown <= alerts
  {
    if |alerts| < 5 then alerts else alerts[..5]
  }

  /** The alerts named in the message are the longest pending stops: each of
      them has stopped at least as long as any pending alert left out. */
  lemma ShownAreLongest(rows: seq<Row>, durations: seq<int>, dismissed: map<string, bool>, i: nat, j: nat)
    requires |rows| >= 1 && |durations| == |rows|
    requires var ps := PendingStops(rows, durations, dismissed);
      i < |Shown(ps)| && |Shown(ps)| <= j < |ps|
    ensures var ps := PendingStops(rows, durations, dismissed);
      Shown(ps)[i].durationMs >= ps[j].durationMs
  {
    var ps := PendingStops(rows, durations, dismissed);
    assert ps != [];
    assert SortedDesc(ps);
    assert Shown(ps)[i] == ps[i];
  }

  // ---------------------------------------------------------------------
  // Sidebar counters

  /** The mask `status.str.contains(keyword)`. */
  function HasKeyword(keyword: string): Row -> bool
  {
    (r: Row) => Contains(r.status, keyword)
  }

  /** Rows whose status text contains `keyword`
      (`str.contains(keyword)` then `shape[0]`): the number of positions the
      mask accepts. */
  function CountContaining(rows: seq<Row>, keyword: string): (n: nat)
    ensures n == |Positions(rows, HasKeyword(keyword))|
    ensures n <= |rows|
    decreases |rows|
  {
    if rows == [] then 0
    else
      var rest := CountContaining(rows[1..], keyword);
      PositionsBound(rows, HasKeyword(keyword));
      (if Contains(rows[0].status, keyword) then 1 else 0) + rest
  }

  datatype Metrics = Metrics(total: int, on: int, sheltered: int, off: int)

  /** The sidebar counters; in fallback mode the total shows "Error" and
      there are no counters. "On" and "sheltered" count the rows whose status
      mentions "Encendida" and "Resguardo"; "off", computed as what remains of
      the total, is exactly the number of "Apagada" rows (so never negative)
      whenever every status is one the classifier produces. */
  function SidebarMetrics(rows: seq<Row>): (m: Option<Metrics>)
    requires |rows| >= 1
    ensures m.None? <==> IsFallback(rows)
    ensures m.Some? ==>
      && m.value.total == |rows|
      && m.value.on == CountContaining(rows, "Encendida")
      && m.value.sheltered == CountContaining(rows, "Resguardo")
    ensures m.Some? && AllDisplayStatuses(rows) ==>
      m.value.off == CountContaining(rows, "Apagada") && m.value.off >= 0
  {
    if IsFallback(rows) then None
    else
      var on := CountContaining(rows, "Encendida");
      var sheltered := CountContaining(rows, "Resguardo");
      assert AllDisplayStatuses(rows) ==>
        |rows| - on - sheltered == CountContaining(rows, "Apagada") by {
        if AllDisplayStatuses(rows) {
          KeywordCountsPartition(rows);
        }
      }
      Some(Metrics(|rows|, on, sheltered, |rows| - on - sheltered))
  }

  predicate AllDisplayStatuses(rows: seq<Row>)
  {
    forall i :: 0 <= i < |rows| ==> IsDisplayStatus(rows[i].status)
  }

  /** When every status is one the classifier produces, the three keyword
      counts add up to the number of rows. */
  lemma {:induction false} KeywordCountsPartition(rows: seq<Row>)
    requires AllDisplayStatuses(rows)
    ensures CountContaining(rows, "Encendida") + CountContaining(rows, "Resguardo")
          + CountContaining(rows, "Apagada") == |rows|
    decreases |rows|
  {
    if rows != [] {
      KeywordsPartition(rows[0].status);
      assert AllDisplayStatuses(rows[1..]) by {
        forall i | 0 <= i < |rows[1..]| ensures IsDisplayStatus(rows[1..][i].status) {
          assert rows[1..][i] == rows[i + 1];
        }
      }
      KeywordCountsPartition(rows[1..]);
    }
  }

  /** In particular for every snapshot built from a non-empty answer. */
  lemma ReceivedMetrics(rev: Revision, units: seq<RawUnit>)
    requires |units| > 0
    ensures var rows := Fetch(rev, Received(units));
      !IsFallback(rows) ==> SidebarMetrics(rows).value.off == CountContaining(rows, "Apagada")
  {
    var rows := Fetch(rev, Received(units));
    forall i | 0 <= i < |rows| ensures IsDisplayStatus(rows[i].status) {
      ReceivedRows(rev, units, i);
    }
  }

  // ---------------------------------------------------------------------
  // The "away from headquarters" checkbox

  /** The mask `~IGNICION.str.contains("(Sede)|Resguardo")`. */
  predicate Away(r: Row)
  {
    OutOfHqPattern(r.status)
  }

  /** The rows whose status does not match the pattern "(Sede)|Resguardo",
      each once and in their original order. */
  function AwayRows(rows: seq<Row>): (away: seq<Row>)
    ensures KeptInOrder(rows, away, Away)
    ensures forall r :: r in away <==> r in rows && Away(r)
  {
    Filter(rows, Away)
  }

  /** The rows the grid shows: with the checkbox ticked (and not in fallback
      mode) only the units away from headquarters, in order, otherwise all of
      them. */
  function DisplayedRows(rows: seq<Row>, awayOnly: bool): (shown: seq<Row>)
    requires |rows| >= 1
    ensures !awayOnly || IsFallback(rows) ==> shown == rows
    ensures awayOnly && !IsFallback(rows) ==> KeptInOrder(rows, shown, Away)
  {
    if !IsFallback(rows) && awayOnly then AwayRows(rows) else rows
  }

  /** For a snapshot built from an answer, the checkbox keeps exactly the
      units that the proximity test put away from headquarters. */
  lemma AwayRowsAreAway(rev: Revision, units: seq<RawUnit>, i: nat)
    requires |units| > 0 && i < |units|
    ensures var rows := Fetch(rev, Received(units));
      rows[i] in AwayRows(rows) <==> !units[i].atBase
  {
    var u := units[i];
    ReceivedRows(rev, units, i);
    OutOfHqIffAway(rev, IgnitionOn(u.ignition), u.atBase);
  }

  // ---------------------------------------------------------------------
  // The card grid

  const COLUMNS_PER_ROW: nat := 5

  /** `[xs[i:i + 5] for i in range(0, len(xs), 5)]`: the cards laid out in
      grid rows of `COLUMNS_PER_ROW`. */
  function Chunks<T>(xs: seq<T>): (cs: seq<seq<T>>)
    ensures |cs| == (|xs| + 4) / 5
    ensures forall k :: 0 <= k < |cs| ==> 1 <= |cs[k]| <= COLUMNS_PER_ROW
    decreases |xs|
  {
    if xs == [] then []
    else if |xs| <= 5 then [xs]
    else [xs[..5]] + Chunks(xs[5..])
  }

  function Flatten<T>(cs: seq<seq<T>>): seq<T>
    decreases |cs|
  {
    if cs == [] then [] else cs[0] + Flatten(cs[1..])
  }

  /** Laying the cards out in rows loses and reorders nothing. */
  lemma {:induction false} ChunksFlatten<T>(xs: seq<T>)
    ensures Flatten(Chunks(xs)) == xs
    decreases |xs|
  {
    if xs == [] {
    } else if |xs| <= 5 {
      assert Flatten([xs]) == xs + Flatten([xs][1..]);
      assert [xs][1..] == [];
    } else {
      var cs := Chunks(xs);
      ChunksFlatten(xs[5..]);
      assert cs[0] == xs[..5] && cs[1..] == Chunks(xs[5..]);
      assert xs[..5] + xs[5..] == xs;
    }
  }

  /** Grid row `k` holds exactly the cards `5 * k` up to `5 * k + 5`. */
  lemma {:induction false} ChunkAt<T>(xs: seq<T>, k: nat)
    requires k < |Chunks(xs)|
    ensures 5 * k < |xs|
    ensures Chunks(xs)[k] == xs[5 * k .. if 5 * k + 5 < |xs| then 5 * k + 5 else |xs|]
    decreases k
  {
    if |xs| <= 5 {
      assert Chunks(xs) == [xs];
    } else if k > 0 {
      var rest := xs[5..];
      assert Chunks(xs)[k] == Chunks(rest)[k - 1];
      ChunkAt(rest, k - 1);
      var hi := if 5 * (k - 1) + 5 < |rest| then 5 * (k - 1) + 5 else |rest|;
      assert rest[5 * (k - 1) .. hi] == xs[5 * k .. hi + 5];
    }
  }

  /** Every grid row but the last is full. */
  lemma ChunksFull<T>(xs: seq<T>, k: nat)
    requires k + 1 < |Chunks(xs)|
    ensures |Chunks(xs)[k]| == COLUMNS_PER_ROW
  {
    ChunkAt(xs, k);
    ChunkAt(xs, k + 1);
  }
}
