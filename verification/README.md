# Fleet dashboard: unit tracking and alert engine

This project models, in Dafny, the per-refresh engine of a Streamlit
dashboard that monitors a fleet of vehicles. Each refresh does the following:

- It turns the telemetry answer into one row per unit. Each row gets a display
  status ("Encendida (Sede)", "Encendida", "Resguardo (Sede)" or "Apagada") and
  a card colour. A failed or empty answer gives a single "FALLBACK" row that
  carries the error cause instead.
- It updates a session-state tracker keyed by unit.
  - A unit that moves resets its stop clock and clears its dismissals.
  - A unit that is stopped reports how long it has been stopped.
  - In the later revision, each unit also carries an open speeding episode
    with its peak speed. An episode that ends is logged at the front of an
    event history when it lasted at least 0.166 minutes.
- It selects the pending alerts:
  - units stopped longer than the threshold and away from headquarters, not
    dismissed, longest first;
  - units at or above 70 km/h away from headquarters.
- It computes the sidebar counters, the stop-time labels and the grid of
  unit cards, five per row.

Two source files are modelled.

- `dashboard.py` holds two revisions of the script one after the other:
  - lines 1-515 are the revision keyed by UNIT_ID, with stop and speed
    alerts;
  - lines 516-1131 are an older revision keyed by unit name, with stop alerts
    only.
- `Dashboard.py` is the speed-episode revision. Its text ends at line 508.

The datatype `Status.Revision` names the three revisions: `StopAndSpeed`,
`StopOnly` and `Episodes`. Where the revisions differ, the model follows each
one:

- the on-at-headquarters colour;
- the tracker key;
- the failure causes;
- the fallback row's UNIT_ID.

Time is an integer number of milliseconds. Speeds are exact reals. Whether a
unit is at headquarters is an input boolean; the source computes it with the
haversine formula.

The files are:

- `basics.dfy`: the `Option` type, and row selection by a boolean mask
  (`df[mask]`) with its specification: the accepted elements, each once, in
  order.
- `text.dfy`: substring search, `str.split`, decimal text, lower case and the
  unit display name.
- `status.dfy`: the classification, `get_card_style` and the two "out of
  headquarters" tests. `get_card_style` is defined in every revision but
  never called; the classifier sets the colours inline. The model proves
  that the two agree.
- `snapshot.dfy`: rows, the fallback row, failure causes and the cause
  extraction.
- `stoptracking.dfy`: the stop tracker of `dashboard.py` as pure functions.
- `session.dfy`: that tracker's session state as a class whose loop is proved
  against those functions.
- `alerts.dfy`: the stop and speed alert lists and the dismissals.
- `episodes.dfy` and `episode_session.dfy`: the speed-episode tracker of
  `Dashboard.py`, first as functions and then as a class.
- `display.dfy`: the time labels, the top-five message, the sidebar counters,
  the headquarters checkbox and the card grid.

Notes on the code:

- The code has no GPS-staleness exclusion.
- Headquarters is decided from the status string alone.
- pandas `str.contains("(Sede)|Resguardo")` is a regular expression. Its
  parentheses form a group, so it tests for "Sede" or "Resguardo". This is
  `Status.OutOfHqPattern`.
- `Dashboard.py` and the card code test the literal text "(Sede)". This is
  `Status.OutOfHq`.
- The two tests are proved to agree on every status the classifier
  produces.

## Model

| member | source | states |
|---|---|---|
| Basics.Positions | dashboard.py:891-893 | the positions a boolean mask accepts, strictly increasing, each accepted and none missing |
| Basics.Filter | dashboard.py:891-893 | `df[mask]` keeps exactly the accepted rows, each once, in their order |
| Text.FindFirst | dashboard.py:1065 | a reported index is an occurrence of the pattern and no occurrence starts earlier |
| Text.FindFirstNone | dashboard.py:1065 | the search finds nothing exactly when `pat in s` is false |
| Text.SplitJoin | dashboard.py:978 | joining the fields of `str.split(sep)` with `sep` gives back the original string |
| Text.SplitFieldsFree | dashboard.py:978 | no field produced by `str.split(sep)` contains `sep` |
| Text.SplitWithoutSeparator | dashboard.py:488 | a string without the separator splits into a one-element list holding itself, which is why `split('-')[0]` is the whole name then |
| Text.SplitPair | dashboard.py:978 | `p + sep + t` splits into exactly `[p, t]` when `p` lacks the separator's first character and `t` lacks the separator |
| Text.Digits | dashboard.py:268 | the decimal text of a status code is non-empty, all digits and has no leading zero |
| Text.DigitsRoundTrip | dashboard.py:268 | reading the decimal text of `n` back gives `n` |
| Text.DigitsInjective | dashboard.py:268 | distinct numbers have distinct decimal texts |
| Text.IntText | dashboard.py:491-493 | the text of a minute count starts with '-' exactly when the count is negative |
| Text.Lower | dashboard.py:228 | `lower()` keeps the length and lowers each character |
| Text.DisplayNamePrefix | dashboard.py:1065 | the display name is the longest hyphen-free prefix of the name: a prefix, without '-', shorter exactly when the name has a '-', and then followed by '-' |
| Status.CardColor | dashboard.py:127-158 | `get_card_style` picks one of blue, the revision's on-at-base colour, red or the green default |
| Status.OnAtBaseKeywords | dashboard.py:244 | which keywords ("Encendida", "(Sede)", "Sede", "Resguardo", "Apagada") the on-at-base status contains |
| Status.OnRouteKeywords | dashboard.py:246 | which keywords the on-route status contains |
| Status.ShelteredKeywords | dashboard.py:249 | which keywords the sheltered status contains |
| Status.OffKeywords | dashboard.py:239 | which keywords the off status contains |
| Status.ClassifyDecodes | dashboard.py:234-249 | the classification is one of the four display strings; it contains "Encendida" exactly when ignition is on and "(Sede)" exactly when the unit is at headquarters, so the four cases are exclusive and recoverable |
| Status.CardColorAgrees | dashboard.py:714-721 | in every revision, `get_card_style` applied to a classified status gives back the colour the classifier chose, including the older revision's #F7B736 and the later revisions' #B37305 for on-at-base |
| Status.OutOfHqIffAway | Dashboard.py:457 | the literal "(Sede)"/"Resguardo" test and the pandas pattern test both hold exactly when the unit is not at headquarters |
| Status.KeywordsPartition | dashboard.py:957-960 | every display status contains exactly one of "Encendida", "Resguardo" and "Apagada" |
| Snapshot.Fetch | dashboard.py:192-273 | the fetch always yields at least one row (for `Dashboard.py`, the intended behaviour; see Findings) |
| Snapshot.FetchAsWritten | Dashboard.py:258-313 | as written, the fetch raises exactly for a network failure in `Dashboard.py`; otherwise it gives the rows `Fetch` gives |
| Snapshot.NetworkFailureRaises | Dashboard.py:310-313 | a connection error in `Dashboard.py` escapes the fetch, while the intended fallback row would name the cause |
| Snapshot.CauseRoundTrip | dashboard.py:176-188 | `split(' - ')[1]` of the fallback row's location gives back the cause when the cause has no " - " |
| Snapshot.FailureCauseHasNoSeparator | dashboard.py:266-273 | no failure cause contains " - " |
| Snapshot.FailureCauseInjective | dashboard.py:266-273 | in the dashboard.py revisions, different failures (401, another HTTP status, a network error) give different causes |
| Snapshot.HttpCausePrefix | dashboard.py:268 | a cause starts with "HTTP Error: " exactly when the failure is an HTTP status other than 401 |
| Snapshot.FailureIsFallback | dashboard.py:222-223 | a failed or empty answer gives exactly one row; that row is seen as fallback mode and its banner cause is the recorded cause |
| Snapshot.ReceivedRows | dashboard.py:226-264 | a non-empty answer gives one row per unit; each row has the classified status, the card style `get_card_style` gives it and (in the later revisions) a tracker id; the row is out of headquarters exactly when the unit is |
| Snapshot.IgnitionOnSpelling | dashboard.py:228-234 | ignition counts as on exactly when the raw flag is present and spells "true" in any case |
| StopTracking.Run | dashboard.py:402-436 | one stop duration per row; no tracker entry is dropped; every row's key is tracked afterwards |
| StopTracking.Refresh | dashboard.py:399-402 | in fallback mode the tracker and dismissals are unchanged and every duration stays 0 |
| StopTracking.RunTrackerFrame | dashboard.py:408-417 | the tracker's keys become the old keys plus the batch's keys; every entry is either `now` or unchanged; units outside the batch keep their entry |
| StopTracking.StepTrackerFrame | dashboard.py:408-417 | one row adds or rewrites only its own unit's entry, and a rewritten entry is `now` |
| StopTracking.RunDismissalFrame | dashboard.py:421-427 | dismissals are only removed, never added or changed, and only under names of units seen moving; the older revision never touches speed dismissals |
| StopTracking.FreshUnitReportsZero | dashboard.py:408-410 | a unit first seen this refresh ends with `last_move_time == now` and reports a stop of 0 on all its rows |
| StopTracking.MovingResets | dashboard.py:414-427 | a known unit moving faster than 1 km/h gets `last_move_time := now`, duration 0, and loses its stop dismissal (and, keyed by UNIT_ID, its speed dismissal) |
| StopTracking.StoppedReportsElapsed | dashboard.py:429-434 | a known stopped unit reports `now - last_move_time`, and keeps its `last_move_time` when it does not move in the batch |
| StopTracking.StopKeepsLastMove | dashboard.py:870-879 | a unit that is stopped on every row of the batch keeps its `last_move_time` |
| StopTracking.SettledIsFixed | dashboard.py:846-882 | a state that already reflects a batch at `now` is left unchanged by running any rows of that batch again |
| StopTracking.RefreshIdempotent | dashboard.py:870-879 | for known units, running the same batch twice at the same `now` gives the same tracker as running it once |
| StopTracking.MoveThenStop | dashboard.py:860-879 | a unit moving at `t1` and stopped at `t2` reports exactly `t2 - t1` |
| Alerts.LongStopInMs | dashboard.py:361 | more than 5.0 minutes is exactly more than 300000 ms |
| Alerts.PendingInOrder | dashboard.py:464-477 | the unsorted pending list keeps, in row order and once per row, exactly the rows over the threshold, away from headquarters by the pandas pattern and not dismissed |
| Alerts.Insert | dashboard.py:478 | inserting into a list sorted longest first keeps it sorted and adds exactly that alert |
| Alerts.SortDesc | dashboard.py:478 | the result is sorted by stop duration, longest first, and is a permutation of the input |
| Alerts.PendingStopsExact | dashboard.py:907-925 | outside fallback mode the stop-alert list is sorted longest first, is a permutation of the filtered rows, and holds exactly the long stops away from headquarters whose name is not dismissed |
| Alerts.FallbackListsEmpty | dashboard.py:461 | in fallback mode both alert lists are empty |
| Alerts.SpeedingInOrder | dashboard.py:510-513 | the speed candidates keep, in row order and once per row, exactly the rows at or above 70 km/h away from headquarters |
| Alerts.SpeedCandidatesExact | dashboard.py:507-513 | outside fallback mode a row is a speed candidate exactly when it is at or above 70 km/h and away from headquarters |
| Alerts.AtBaseNeverListed | dashboard.py:464-467 | a unit the proximity test puts at headquarters is never in either alert list |
| Alerts.DismissAllSets | dashboard.py:1026 | "accept all" sets the flag of every listed name and leaves every other entry unchanged |
| Alerts.DismissAllEmptiesList | dashboard.py:1020-1028 | after "accept all", the pending list recomputed from the same rows is empty |
| Alerts.DismissHides | dashboard.py:469-473 | dismissing a name removes exactly the alerts under that name from the list |
| StopSession.Session.constructor | dashboard.py:284-293 | the session starts with an empty tracker and empty dismissal maps |
| StopSession.Session.Refresh | dashboard.py:391-513 | one refresh: the tracker state and durations are those of `StopTracking.Refresh`; the stop list is `PendingStops`; the speed list is the candidates (later revision) or empty |
| StopSession.Session.Track | dashboard.py:403-436 | the in-place loop leaves the state and durations that `StopTracking.Run` specifies |
| StopSession.Session.TrackRow | dashboard.py:404-436 | one iteration updates the state and the row's duration as `StopTracking.Step` specifies |
| StopSession.Session.DismissStop | dashboard.py:161-165 | sets only that name's stop-dismissal flag; the tracker and speed dismissals are unchanged |
| StopSession.Session.DismissSpeed | dashboard.py:168-172 | sets only that name's speed-dismissal flag; the tracker and stop dismissals are unchanged |
| StopSession.Session.DismissAllStops | dashboard.py:1026 | dismisses every listed name as `Alerts.DismissAll` specifies; the tracker is unchanged |
| SpeedEpisodes.NewEntry | Dashboard.py:446-453 | a new entry already satisfies the entry invariant (no open episode, peak 0.0) and has no stop alert armed |
| SpeedEpisodes.DebounceInMs | Dashboard.py:478 | at least 0.166 minutes is exactly at least 9960 ms |
| SpeedEpisodes.SpeedStep | Dashboard.py:455-494 | a log line is written exactly when the unit is not speeding, an episode is open and it lasted at least 0.166 min; the line carries the display name, the peak and the duration; the stop fields are unchanged |
| SpeedEpisodes.StopEndLine | Dashboard.py:497-508 | the stop-end line is built exactly when the unit is moving and `alerted_stop_minutes` is truthy; it carries the refresh time, the recorded minutes and the display name, which is a dash-free prefix of the unit's name |
| SpeedEpisodes.SpeedStepKeepsStopEnd | Dashboard.py:461-499 | the speed branch runs before the stop-end test and leaves its outcome unchanged |
| SpeedEpisodes.ArmedStopEndLine | Dashboard.py:461-508 | after the speed branch, a moving unit with a non-zero recorded stop of `m` minutes gets the stop-end line for `m` minutes under its display name |
| SpeedEpisodes.RowStep | Dashboard.py:440-494 | one iteration adds the row's id to the tracker and changes no other unit's entry |
| SpeedEpisodes.Refresh | Dashboard.py:439 | in fallback mode the tracker and the log are unchanged |
| SpeedEpisodes.SpeedStepKeepsShape | Dashboard.py:461-494 | keeps the invariant "no open episode ⇒ peak 0.0; open episode ⇒ peak ≥ 70"; every logged line has a peak ≥ 70 and a duration ≥ 9960 ms |
| SpeedEpisodes.WalkKeepsShape | Dashboard.py:439-494 | a whole refresh keeps that invariant for every entry and every log line |
| SpeedEpisodes.OpenEpisodeContinues | Dashboard.py:458-468 | when speeding away from headquarters, an open start is kept (an unset one becomes `now`); the peak becomes the larger of the old peak and the speed, so it never decreases; nothing is logged |
| SpeedEpisodes.SpeedingAtHqIgnored | Dashboard.py:457-471 | speeding at headquarters leaves the entry unchanged (an open episode stays open) and logs nothing |
| SpeedEpisodes.SlowingCloses | Dashboard.py:471-494 | not speeding closes any open episode and resets the peak to 0.0, whether or not it was logged |
| SpeedEpisodes.FirstSightingOnlyRegisters | Dashboard.py:446-453 | a unit seen for the first time only gets a new entry, and the log is unchanged |
| SpeedEpisodes.WalkPrependsLog | Dashboard.py:490 | a refresh only adds lines at the front of the log (the old log is its suffix), at most one per row |
| SpeedEpisodes.WalkNeverAlertsStops | Dashboard.py:446-453 | no step of the visible loop sets `alerted_stop_minutes`, so entries without one stay without one (the arming code lies past line 508, so this holds of the visible text only) |
| SpeedEpisodes.StopEndNeverBuilt | Dashboard.py:499 | with no stop alert recorded, the stop-end line is never built (in the visible text no stop alert is ever recorded) |
| SpeedEpisodes.ThirtySecondsAtEightyFive | Dashboard.py:461-494 | 85 km/h on route followed 30 s later by 20 km/h logs exactly one line (peak 85.0, 30000 ms) and closes the episode |
| SpeedEpisodes.ShortBurstNotLogged | Dashboard.py:477-478 | an episode of 9.9 s is closed without being logged |
| EpisodeSession.Tracker.constructor | Dashboard.py:320-333 | empty tracker, dismissal maps and log; both audio flags off |
| EpisodeSession.Tracker.Refresh | Dashboard.py:439-494 | the in-place loop leaves the tracker and log that `SpeedEpisodes.Refresh` specifies; it keeps the entry/log invariant and leaves dismissals and audio flags alone |
| EpisodeSession.Tracker.UpdateRow | Dashboard.py:440-494 | one in-place iteration leaves the state `SpeedEpisodes.RowStep` specifies |
| EpisodeSession.Tracker.DismissStop | Dashboard.py:201-206 | sets the unit's stop-dismissal flag and turns the stop audio off; nothing else changes |
| EpisodeSession.Tracker.DismissSpeed | Dashboard.py:210-216 | sets the unit's speed-dismissal flag and turns the speed audio off; nothing else changes |
| Display.MinSec | dashboard.py:938-940 | the minute part is whole minutes and the second part is below 60; together they bracket the duration to within one second |
| Display.Pad2 | dashboard.py:941 | `{s:02}` is two digits that read back as `s` |
| Display.LabelSeconds | dashboard.py:938-941 | for non-negative durations, two labels are equal exactly when the durations have the same whole seconds |
| Display.AlertAndCardLabelsSeconds | dashboard.py:1115-1119 | both the "Xmin YYseg" and "X min YY seg" labels keep exactly the whole seconds |
| Display.AlertNameIsDisplayName | dashboard.py:935 | `name.split('-')[0]` without the hyphen check is the same display name the cards use |
| Display.Shown | dashboard.py:934 | `head(5)` is a prefix of at most five alerts |
| Display.ShownAreLongest | dashboard.py:925-934 | every alert named in the message has stopped at least as long as any pending alert left out |
| Display.CountContaining | dashboard.py:958-959 | a keyword count is the number of row positions whose status contains the keyword, so never more than the rows |
| Display.SidebarMetrics | dashboard.py:955-979 | no counters in fallback mode; otherwise the total is the row count, "on" and "sheltered" are the keyword counts, and the remainder `apagadas = total - encendidas - resguardo` equals the number of "Apagada" rows and is never negative |
| Display.KeywordCountsPartition | dashboard.py:957-960 | with classified statuses the "Encendida", "Resguardo" and "Apagada" counts add up to the total |
| Display.ReceivedMetrics | dashboard.py:957-960 | that holds for every snapshot built from an answer |
| Display.AwayRows | dashboard.py:892-894 | the checkbox keeps, in order and once per row, exactly the rows not matching "(Sede)|Resguardo" |
| Display.DisplayedRows | dashboard.py:887-897 | with the checkbox off or in fallback mode all rows are shown; otherwise exactly the rows away from headquarters, in order and once per row |
| Display.AwayRowsAreAway | dashboard.py:892 | a received unit survives the checkbox exactly when the proximity test put it away from headquarters |
| Display.Chunks | dashboard.py:1053-1055 | there are ceil(n / 5) grid rows, each holding 1 to 5 cards |
| Display.ChunksFlatten | dashboard.py:1055 | concatenating the grid rows gives back the cards in order |
| Display.ChunkAt | dashboard.py:1055 | grid row `k` is exactly `cards[5k : 5k + 5]` |
| Display.ChunksFull | dashboard.py:1055-1060 | every grid row but the last holds exactly 5 cards |

## Left out

- The Streamlit page, CSS, placeholders, buttons, expanders and card HTML are not modelled. This includes the red/amber card highlighting decided inside the card loop at dashboard.py:1071-1091. It is presentation.
- The HTTP request, JSON decoding and `float()` parsing of the API fields are not modelled. The answer enters as `Snapshot.FetchResult`, with fields already typed.
- A requests exception other than `HTTPError` that still carries a response (for example `TooManyRedirects`) is not modelled. `Snapshot.NetworkFailure` stands for the exceptions raised without a response: connection errors, timeouts and undecodable JSON.
- The `st.cache_data` TTL and cache clearing, the `while True` polling loop and `time.sleep` are not modelled. One refresh is one call.
- Audio encoding and playback are left out. The two audio flags are modelled as booleans.
- The haversine distance and the `PROXIMIDAD_KM` comparison are left out. "At headquarters" is an input boolean.
- `strftime` and the time zone of `now` are left out. Log lines and labels carry raw millisecond times, and the `.1f` renderings of peaks and minutes are not modelled.
- The fleet configuration tables, the sidebar fleet selector and the `filtro_sede` flag are left out. The checkbox enters `Display.DisplayedRows` as a parameter.
- Text.Lower: lowers ASCII letters only. Python's `lower()` also maps non-ASCII letters, but the only text compared after it is "true".
- Alerts.SortDesc: is a stable insertion sort. pandas `sort_values` does not promise an order for equal durations, so the contract states only "sorted longest first and a permutation".
- `Dashboard.py` stops at line 508, in the middle of building the stop-end message. The following parts of that revision are not part of this model:
  - what happens to that message;
  - its stop-duration bookkeeping (resetting `last_move_time`, computing durations, arming `alerted_stop_minutes`);
  - its alert lists.
- SpeedEpisodes.StopEndLine: is modelled as a pure function that is never inserted into the log, because the insertion is past the end of the text.
- StopTracking.Refresh: requires a revision of `dashboard.py`, because `Dashboard.py`'s stop tracker is not visible.
- The speed-dismissal filter and the speed alert message of `dashboard.py` after line 515 are cut off in the text and are not modelled. `Alerts.SpeedCandidates` stops at the candidate list.
- A unit listed first whose real name contains "FALLBACK" would switch a refresh into fallback mode, because only the first row's name is checked (dashboard.py:391 and 834, Dashboard.py:427). A later row with such a name has no effect. The model keeps this behaviour of the code (`Snapshot.IsFallback` looks at the first row only).
- Floating-point rounding is not modelled. Speeds and minutes are exact reals, and `int(total_seconds // 60)` is computed on whole milliseconds.

## Findings

| source | as written | input that shows it | evidently intended | confidence | as-written member | corrected member |
|---|---|---|---|---|---|---|
| Dashboard.py:310-313 | the handler formats `e.response.status_code` whenever the exception has a `response` attribute; every requests exception has one, set to None when no response arrived, so the handler raises AttributeError and the exception escapes the unguarded call at Dashboard.py:425 | a connection error or timeout while fetching (`NetworkFailure` in the `Episodes` revision) | the fallback row with the cause "Error de Conexión/API", as the handler's `return` and dashboard.py:271-273 do | not executed; relies on the requests library setting `response` to None | Snapshot.FetchAsWritten, Snapshot.NetworkFailureRaises | Snapshot.Fetch, Snapshot.FailureIsFallback |
