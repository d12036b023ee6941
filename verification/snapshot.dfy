/** One refresh's snapshot of the fleet: the classified rows built from the
    telemetry answer (`obtener_datos_unidades`), or the single fallback row
    that stands for a failed or empty answer (`get_fallback_data`). */
module Snapshot {
  import opened Basics
  import opened Text
  import opened Status

  /** One unit as the telemetry API reports it. Absent keys are `None`.
      `atBase` is the result of the headquarters proximity test
      (`haversine(...) <= PROXIMIDAD_KM`), taken as an input. */
  datatype RawUnit = RawUnit(
    name: Option<string>,
    unitId: Option<string>,
    ignition: Option<string>,
    speed: Option<real>,
    lat: Option<real>,
    lon: Option<real>,
    location: Option<string>,
    atBase: bool)

  /** One dashboard row. `unitId` is `None` where the revision has no
      UNIT_ID column (the older revision, and the fallback row of
      dashboard.py). */
  datatype Row = Row(
    name: string,
    unitId: Option<string>,
    status: string,
    speed: real,
    lat: real,
    lon: real,
    location: string,
    cardStyle: string)

  /** What the HTTP exchange produced. */
  datatype FetchResult =
    | Received(units: seq<RawUnit>)
    | HttpFailure(statusCode: nat)   // raise_for_status() raised HTTPError
    | NetworkFailure                 // a requests exception raised without a response:
                                     // connection error, timeout, undecodable JSON

  const FALLBACK_NAME: string := "FALLBACK"
  const FALLBACK_PREFIX: string := "FALLBACK - "
  const CAUSE_SEPARATOR: string := " - "
  const EMPTY_LIST_CAUSE: string := "Lista de Unidades Vacía (Revisa IDs)"
  const AUTH_CAUSE: string := "AUTENTICACIÓN (401)"
  const HTTP_CAUSE_PREFIX: string := "HTTP Error: "
  const NETWORK_CAUSE: string := "Error de Conexión/Red"
  const API_CAUSE: string := "Error de Conexión/API"
  const NO_NAME: string := "N/A"
  const NO_STATUS: string := "N/A"
  const NO_LOCATION: string := "Dirección no disponible"

  /** `get_fallback_data(error_type)`: a single row whose name is "FALLBACK"
      and whose location text carries the cause. */
  function FallbackRow(rev: Revision, cause: string): Row
  {
    Row(FALLBACK_NAME, if rev == Episodes then Some("FALLBACK_ID") else None,
        NO_STATUS, 0.0, 0.0, 0.0, FALLBACK_PREFIX + cause, CardStyle(RED))
  }

  /** The cause handed to the fallback row for a failed exchange. The two
      dashboard.py revisions tell authentication, other HTTP statuses and
      network errors apart; Dashboard.py reports one cause for all. */
  function FailureCause(rev: Revision, f: FetchResult): string
    requires !f.Received?
  {
    if rev == Episodes then API_CAUSE
    else match f
      case HttpFailure(code) =>
        if code == 401 then AUTH_CAUSE else HTTP_CAUSE_PREFIX + Digits(code)
      case NetworkFailure => NETWORK_CAUSE
  }

  /** The ignition is on when the reported field, lower-cased, reads "true";
      a missing field counts as "false". */
  predicate IgnitionOn(raw: Option<string>)
  {
    Lower(raw.GetOr("false")) == "true"
  }

  /** The row built for one reported unit. */
  function ToRow(rev: Revision, u: RawUnit): Row
  {
    var c := Classify(rev, IgnitionOn(u.ignition), u.atBase);
    var name := u.name.GetOr(NO_NAME);
    Row(name,
        if rev == StopOnly then None else Some(u.unitId.GetOr(name)),
        c.display,
        u.speed.GetOr(0.0),
        u.lat.GetOr(0.0),
        u.lon.GetOr(0.0),
        u.location.GetOr(NO_LOCATION),
        CardStyle(c.color))
  }

  /** `obtener_datos_unidades` after the transport: one row per unit, or the
      fallback row. For Dashboard.py this is the behaviour its handler
      evidently intends on a network failure; `FetchAsWritten` is the code as
      written. */
  function Fetch(rev: Revision, f: FetchResult): (rows: seq<Row>)
    ensures |rows| >= 1
  {
    match f
    case Received(units) =>
      if |units| == 0 then [FallbackRow(rev, EMPTY_LIST_CAUSE)]
      else seq(|units|, i requires 0 <= i < |units| => ToRow(rev, units[i]))
    case _ => [FallbackRow(rev, FailureCause(rev, f))]
  }

  /** What `obtener_datos_unidades` returns as written: rows, or an exception
      that escapes it. */
  datatype FetchOutcome = Rows(rows: seq<Row>) | Raised

  /** The `e.response.status_code` that Dashboard.py's handler formats. Every
      exception of the requests library has a `response` attribute, set to
      None when no response arrived, so the `hasattr` guard always passes;
      reading the code of a None response raises AttributeError (`None`
      here). */
  function HandlerStatusCode(f: FetchResult): Option<nat>
    requires !f.Received?
  {
    match f
    case HttpFailure(code) => Some(code)
    case NetworkFailure => None
  }

  /** `obtener_datos_unidades` as written: in Dashboard.py the handler raises
      while building its message when no response arrived, so a network
      failure escapes the function instead of giving the fallback row. In
      every other case the outcome is `Fetch`. */
  function FetchAsWritten(rev: Revision, f: FetchResult): (r: FetchOutcome)
    ensures r.Raised? <==> rev == Episodes && f.NetworkFailure?
    ensures r.Rows? ==> r.rows == Fetch(rev, f)
  {
    if rev == Episodes && !f.Received? && HandlerStatusCode(f).None? then Raised
    else Rows(Fetch(rev, f))
  }

  /** A connection error or timeout in Dashboard.py raises out of the fetch,
      where the intended behaviour (and that of dashboard.py) is a fallback
      row whose banner names the cause. */
  lemma NetworkFailureRaises()
    ensures FetchAsWritten(Episodes, NetworkFailure) == Raised
    ensures FetchAsWritten(StopAndSpeed, NetworkFailure) == Rows(Fetch(StopAndSpeed, NetworkFailure))
    ensures var rows := Fetch(Episodes, NetworkFailure);
      IsFallback(rows) && Cause(rows[0].location) == Some(API_CAUSE)
  {
    FailureIsFallback(Episodes, NetworkFailure);
  }

  /** A refresh is in fallback mode when the first row's name contains
      "FALLBACK"; later rows are not looked at. */
  predicate IsFallback(rows: seq<Row>)
    requires |rows| >= 1
  {
    Contains(rows[0].name, FALLBACK_NAME)
  }

  /** `df['UBICACION_TEXTO'].iloc[0].split(' - ')[1]`; `None` where Python
      would raise IndexError. */
  function Cause(location: string): Option<string>
  {
    var fields := SplitOn(location, CAUSE_SEPARATOR);
    if |fields| >= 2 then Some(fields[1]) else None
  }

  // ---------------------------------------------------------------------

  /** The cause is recovered from the fallback row exactly when the cause
      itself contains no " - ". */
  lemma CauseRoundTrip(rev: Revision, cause: string)
    requires !Contains(cause, CAUSE_SEPARATOR)
    ensures Cause(FallbackRow(rev, cause).location) == Some(cause)
  {
    assert FALLBACK_PREFIX + cause == FALLBACK_NAME + CAUSE_SEPARATOR + cause;
    SplitPair(FALLBACK_NAME, CAUSE_SEPARATOR, cause);
  }

  /** No cause the fetcher produces contains a hyphen, so none contains " - ". */
  lemma FailureCauseHasNoSeparator(rev: Revision, f: FetchResult)
    requires !f.Received?
    ensures !Contains(FailureCause(rev, f), CAUSE_SEPARATOR)
  {
    var c := FailureCause(rev, f);
    if rev != Episodes && f.HttpFailure? && f.statusCode != 401 {
      var d := Digits(f.statusCode);
      assert c == HTTP_CAUSE_PREFIX + d;
      forall k | 0 <= k < |c| ensures c[k] != '-' {
        if k >= |HTTP_CAUSE_PREFIX| {
          assert c[k] == d[k - |HTTP_CAUSE_PREFIX|];
        }
      }
    }
    MissingCharNotContains(c, CAUSE_SEPARATOR, '-');
  }

  /** Distinct failures of the dashboard.py revisions produce distinct causes,
      so the banner identifies the failure (the status code included). */
  lemma FailureCauseInjective(rev: Revision, f: FetchResult, g: FetchResult)
    requires rev != Episodes && !f.Received? && !g.Received?
    requires FailureCause(rev, f) == FailureCause(rev, g)
    ensures f == g
  {
    HttpCausePrefix(rev, f);
    HttpCausePrefix(rev, g);
    if f.HttpFailure? && g.HttpFailure? && f.statusCode != 401 && g.statusCode != 401 {
      var p := HTTP_CAUSE_PREFIX;
      assert (p + Digits(f.statusCode))[|p|..] == Digits(f.statusCode);
      assert (p + Digits(g.statusCode))[|p|..] == Digits(g.statusCode);
      DigitsInjective(f.statusCode, g.statusCode);
    }
  }

  /** Only a non-401 HTTP status yields a cause beginning "HTTP Error: ". */
  lemma HttpCausePrefix(rev: Revision, f: FetchResult)
    requires rev != Episodes && !f.Received?
    ensures var c := FailureCause(rev, f);
      (|c| >= |HTTP_CAUSE_PREFIX| && c[..|HTTP_CAUSE_PREFIX|] == HTTP_CAUSE_PREFIX)
        <==> (f.HttpFailure? && f.statusCode != 401)
  {
    var c := FailureCause(rev, f);
    if f.HttpFailure? && f.statusCode != 401 {
      assert c[..|HTTP_CAUSE_PREFIX|] == HTTP_CAUSE_PREFIX;
    } else if f.HttpFailure? {
      assert c[0] != HTTP_CAUSE_PREFIX[0];
    } else {
      assert c[0] != HTTP_CAUSE_PREFIX[0];
    }
  }

  /** A failed or empty exchange is seen as fallback mode, and its banner
      shows the cause the fetcher recorded. */
  lemma FailureIsFallback(rev: Revision, f: FetchResult)
    requires !f.Received? || |f.units| == 0
    ensures var rows := Fetch(rev, f);
      && |rows| == 1
      && IsFallback(rows)
      && Cause(rows[0].location)
           == Some(if f.Received? then EMPTY_LIST_CAUSE else FailureCause(rev, f))
  {
    var rows := Fetch(rev, f);
    assert OccursAt(rows[0].name, FALLBACK_NAME, 0);
    if f.Received? {
      MissingCharNotContains(EMPTY_LIST_CAUSE, CAUSE_SEPARATOR, '-');
      CauseRoundTrip(rev, EMPTY_LIST_CAUSE);
    } else {
      FailureCauseHasNoSeparator(rev, f);
      CauseRoundTrip(rev, FailureCause(rev, f));
    }
  }

  /** A non-empty answer gives one classified row per unit, in order: its
      status is the classification of the unit's flags, its card style is the
      one `get_card_style` gives that status, and (except in the older
      revision) it carries a tracker id. */
  lemma ReceivedRows(rev: Revision, units: seq<RawUnit>, i: nat)
    requires |units| > 0 && i < |units|
    ensures var rows := Fetch(rev, Received(units));
      && |rows| == |units|
      && rows[i].status == Classify(rev, IgnitionOn(units[i].ignition), units[i].atBase).display
      && IsDisplayStatus(rows[i].status)
      && rows[i].cardStyle == GetCardStyle(rev, rows[i].status)
      && (rev != StopOnly ==> rows[i].unitId.Some?)
      && (OutOfHq(rows[i].status) <==> !units[i].atBase)
  {
    var u := units[i];
    ClassifyDecodes(rev, IgnitionOn(u.ignition), u.atBase);
    CardColorAgrees(rev, IgnitionOn(u.ignition), u.atBase);
    OutOfHqIffAway(rev, IgnitionOn(u.ignition), u.atBase);
  }

  /** The raw ignition text counts as "on" exactly when it spells "true" in
      any mix of upper and lower case; an absent flag counts as off. */
  lemma IgnitionOnSpelling(raw: Option<string>)
    ensures IgnitionOn(raw) <==>
      raw.Some? && |raw.value| == 4
      && LowerChar(raw.value[0]) == 't' && LowerChar(raw.value[1]) == 'r'
      && LowerChar(raw.value[2]) == 'u' && LowerChar(raw.value[3]) == 'e'
  {
    var l := Lower(raw.GetOr("false"));
    if raw.None? {
      assert l[0] == 'f';
    }
    if raw.Some? && |raw.value| == 4 && LowerChar(raw.value[0]) == 't' && LowerChar(raw.value[1]) == 'r'
      && LowerChar(raw.value[2]) == 'u' && LowerChar(raw.value[3]) == 'e' {
      assert l == "true";
    }
  }
}
