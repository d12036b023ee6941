/** Status classification: how a unit's ignition flag and its "at headquarters"
    flag become one of four display strings and a card colour, and how the rest
    of the dashboard reads those strings back (the "out of HQ" tests, the fleet
    counters). Each revision also defines `get_card_style`, which maps a status
    string to a colour but is never called: the colours are set inline by the
    classifier. `CardColor` models it and `CardColorAgrees` shows the two
    agree. */
module Status {
  import opened Text

  /** The three revisions of the dashboard script that hold the engine.
      StopOnly: dashboard.py lines 516-1131 (trackers keyed by unit name, stop
      alerts only). StopAndSpeed: dashboard.py lines 1-515 (keyed by the API's
      unit id, stop and speed alerts). Episodes: Dashboard.py (speed episodes,
      event log, audio flags). */
  datatype Revision = StopOnly | StopAndSpeed | Episodes

  // The four display strings (with their emoji, as the dashboard shows them).
  const ON_AT_BASE: string := "Encendida (Sede) \U{1F525}"
  const ON_ROUTE: string := "Encendida \U{1F525}"
  const SHELTERED: string := "Resguardo (Sede) \U{1F6E1}\U{FE0F}"
  const OFF: string := "Apagada \U{2744}\U{FE0F}"

  // Card background colours.
  const GREEN: string := "#4CAF50"
  const BLUE: string := "#337ab7"
  const ORANGE: string := "#B37305"
  const AMBER: string := "#F7B736"
  const RED: string := "#D32F2F"

  /** The older revision (dashboard.py lines 516-1131) colours "on at base"
      amber; the later ones orange. */
  function OnAtBaseColor(rev: Revision): string
  {
    if rev == StopOnly then AMBER else ORANGE
  }

  datatype Classified = Classified(display: string, color: string)

  /** The classification branch of `obtener_datos_unidades`. */
  function Classify(rev: Revision, ignitionOn: bool, atBase: bool): Classified
  {
    if ignitionOn then
      if atBase then Classified(ON_AT_BASE, OnAtBaseColor(rev)) else Classified(ON_ROUTE, GREEN)
    else
      if atBase then Classified(SHELTERED, BLUE) else Classified(OFF, RED)
  }

  /** The inline style of a unit card with the given background colour. */
  function CardStyle(color: string): string
  {
    "background-color: " + color + "; padding: 15px; border-radius: 5px; color: white; margin-bottom: 0px;"
  }

  /** `get_card_style`: the colour a status string is drawn with, chosen by
      substring in a fixed order (the speed argument is unused). */
  function CardColor(rev: Revision, status: string): (c: string)
    ensures c in {BLUE, OnAtBaseColor(rev), RED, GREEN}
  {
    if Contains(status, "Resguardo (Sede)") then BLUE
    else if Contains(status, "Encendida (Sede)") then OnAtBaseColor(rev)
    else if Contains(status, "Apagada") then RED
    else GREEN
  }

  function GetCardStyle(rev: Revision, status: string): string
  {
    CardStyle(CardColor(rev, status))
  }

  /** The strings the classifier can produce. */
  predicate IsDisplayStatus(s: string)
  {
    s == ON_AT_BASE || s == ON_ROUTE || s == SHELTERED || s == OFF
  }

  /** Out of HQ as Dashboard.py and the card code test it:
      `not ("(Sede)" in s or "Resguardo" in s)`. */
  predicate OutOfHq(s: string)
  {
    !(Contains(s, "(Sede)") || Contains(s, "Resguardo"))
  }

  /** Out of HQ as the alert filters of dashboard.py test it: pandas
      `str.contains("(Sede)|Resguardo")` is a regular expression, so the
      parentheses group and the test is for "Sede" or "Resguardo". */
  predicate OutOfHqPattern(s: string)
  {
    !(Contains(s, "Sede") || Contains(s, "Resguardo"))
  }

  // ---------------------------------------------------------------------
  // Which keywords each display string contains.

  /** Keyword facts about "Encendida (Sede) 🔥". */
  lemma OnAtBaseKeywords()
    ensures Contains(ON_AT_BASE, "Encendida (Sede)") && Contains(ON_AT_BASE, "Encendida")
    ensures Contains(ON_AT_BASE, "(Sede)") && Contains(ON_AT_BASE, "Sede")
    ensures !Contains(ON_AT_BASE, "Resguardo (Sede)") && !Contains(ON_AT_BASE, "Resguardo")
    ensures !Contains(ON_AT_BASE, "Apagada")
  {
    assert OccursAt(ON_AT_BASE, "Encendida (Sede)", 0);
    assert OccursAt(ON_AT_BASE, "Encendida", 0);
    assert OccursAt(ON_AT_BASE, "(Sede)", 10);
    assert OccursAt(ON_AT_BASE, "Sede", 11);
    MissingCharNotContains(ON_AT_BASE, "Resguardo (Sede)", 'R');
    MissingCharNotContains(ON_AT_BASE, "Resguardo", 'R');
    MissingCharNotContains(ON_AT_BASE, "Apagada", 'A');
  }

  /** Keyword facts about "Encendida 🔥". */
  lemma OnRouteKeywords()
    ensures Contains(ON_ROUTE, "Encendida")
    ensures !Contains(ON_ROUTE, "Encendida (Sede)") && !Contains(ON_ROUTE, "(Sede)") && !Contains(ON_ROUTE, "Sede")
    ensures !Contains(ON_ROUTE, "Resguardo (Sede)") && !Contains(ON_ROUTE, "Resguardo")
    ensures !Contains(ON_ROUTE, "Apagada")
  {
    assert OccursAt(ON_ROUTE, "Encendida", 0);
    MissingCharNotContains(ON_ROUTE, "Encendida (Sede)", '(');
    MissingCharNotContains(ON_ROUTE, "(Sede)", '(');
    MissingCharNotContains(ON_ROUTE, "Sede", 'S');
    MissingCharNotContains(ON_ROUTE, "Resguardo (Sede)", 'R');
    MissingCharNotContains(ON_ROUTE, "Resguardo", 'R');
    MissingCharNotContains(ON_ROUTE, "Apagada", 'A');
  }

  /** Keyword facts about "Resguardo (Sede) 🛡️". */
  lemma ShelteredKeywords()
    ensures Contains(SHELTERED, "Resguardo (Sede)") && Contains(SHELTERED, "Resguardo")
    ensures Contains(SHELTERED, "(Sede)") && Contains(SHELTERED, "Sede")
    ensures !Contains(SHELTERED, "Encendida (Sede)") && !Contains(SHELTERED, "Encendida")
    ensures !Contains(SHELTERED, "Apagada")
  {
    assert OccursAt(SHELTERED, "Resguardo (Sede)", 0);
    assert OccursAt(SHELTERED, "Resguardo", 0);
    assert OccursAt(SHELTERED, "(Sede)", 10);
    assert OccursAt(SHELTERED, "Sede", 11);
    MissingCharNotContains(SHELTERED, "Encendida (Sede)", 'E');
    MissingCharNotContains(SHELTERED, "Encendida", 'E');
    MissingCharNotContains(SHELTERED, "Apagada", 'A');
  }

  /** Keyword facts about "Apagada ❄️". */
  lemma OffKeywords()
    ensures Contains(OFF, "Apagada")
    ensures !Contains(OFF, "Encendida (Sede)") && !Contains(OFF, "Encendida")
    ensures !Contains(OFF, "(Sede)") && !Contains(OFF, "Sede")
    ensures !Contains(OFF, "Resguardo (Sede)") && !Contains(OFF, "Resguardo")
  {
    assert OccursAt(OFF, "Apagada", 0);
    MissingCharNotContains(OFF, "Encendida (Sede)", 'E');
    MissingCharNotContains(OFF, "Encendida", 'E');
    MissingCharNotContains(OFF, "(Sede)", '(');
    MissingCharNotContains(OFF, "Sede", 'S');
    MissingCharNotContains(OFF, "Resguardo (Sede)", 'R');
    MissingCharNotContains(OFF, "Resguardo", 'R');
  }

  // ---------------------------------------------------------------------
  // What the rest of the dashboard reads back from a classified status.

  /** Classification is exclusive: the ignition and at-base flags can be read
      back from the display string alone ("Encendida" marks ignition on,
      "(Sede)" marks headquarters), so distinct inputs give distinct strings. */
  lemma ClassifyDecodes(rev: Revision, ignitionOn: bool, atBase: bool)
    ensures var s := Classify(rev, ignitionOn, atBase).display;
      && IsDisplayStatus(s)
      && (Contains(s, "Encendida") <==> ignitionOn)
      && (Contains(s, "(Sede)") <==> atBase)
  {
    OnAtBaseKeywords();
    OnRouteKeywords();
    ShelteredKeywords();
    OffKeywords();
  }

  /** `get_card_style` applied to a classified status picks exactly the colour
      the classifier assigned to it, in every revision. */
  lemma CardColorAgrees(rev: Revision, ignitionOn: bool, atBase: bool)
    ensures var c := Classify(rev, ignitionOn, atBase);
      CardColor(rev, c.display) == c.color
  {
    OnAtBaseKeywords();
    OnRouteKeywords();
    ShelteredKeywords();
    OffKeywords();
  }

  /** Both "out of HQ" tests agree on every display string, and a classified
      unit is out of HQ exactly when it is not at headquarters. */
  lemma OutOfHqIffAway(rev: Revision, ignitionOn: bool, atBase: bool)
    ensures var s := Classify(rev, ignitionOn, atBase).display;
      && (OutOfHq(s) <==> !atBase)
      && (OutOfHqPattern(s) <==> !atBase)
  {
    OnAtBaseKeywords();
    OnRouteKeywords();
    ShelteredKeywords();
    OffKeywords();
  }

  /** Each display string contains exactly one of the three counter keywords
      ("Encendida", "Resguardo", "Apagada"). */
  lemma KeywordsPartition(s: string)
    requires IsDisplayStatus(s)
    ensures (if Contains(s, "Encendida") then 1 else 0)
          + (if Contains(s, "Resguardo") then 1 else 0)
          + (if Contains(s, "Apagada") then 1 else 0) == 1
  {
    OnAtBaseKeywords();
    OnRouteKeywords();
    ShelteredKeywords();
    OffKeywords();
  }
}
