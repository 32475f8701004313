/** The per-row formatting inside `main`: year extraction, the localized summary,
    the description and the UID of each event. */
module Formatter {
  import opened Wrappers
  import opened Text
  import opened Escaping
  import opened Percent
  import opened Dates
  import opened Calendar

  datatype Mode = Births | Deaths

  /** One binding of a SPARQL result row. A missing `personLabel`, `date` or `occLabel`
      is `None`; `person` is required, as `quote(None)` raises. */
  datatype Row = Row(person: string, personLabel: Option<string>, date: Option<string>, occLabel: Option<string>)

  /** What stays the same for every event of one run: the target date, the DTSTAMP text
      and the label language. */
  datatype Run = Run(target: CalendarDate, stamp: string, lang: string)

  /** An f-string field: `None` is rendered as the text `None`. */
  function Shown(v: Option<string>): string
  {
    if v.None? then "None" else v.value
  }

  /** The year is the first four characters of a date value that is present and has
      at least four characters. */
  function Year(dateValue: Option<string>): (y: Option<string>)
    ensures y.Some? <==> dateValue.Some? && |dateValue.value| >= 4
    ensures y.Some? ==> |y.value| == 4 && dateValue.value == y.value + dateValue.value[4..]
  {
    if dateValue.Some? && dateValue.value != "" && |dateValue.value| >= 4 then Some(dateValue.value[..4])
    else None
  }

  function Icon(mode: Mode): string
  {
    match mode
    case Births => "\U{1F389}"
    case Deaths => "\U{271D}\U{FE0F}"
  }

  /** The labels of `birth_summary` and `death_summary`; any language other than
      `hr`, `de` and `en` gets the Croatian label. */
  function Label(mode: Mode, lang: string): string
  {
    match mode
    case Births =>
      if lang == "de" then "Geburtstag" else if lang == "en" then "Birthday" else "Ro\U{0111}endan"
    case Deaths =>
      if lang == "de" then "Todestag" else if lang == "en" then "Death anniversary" else "Obljetnica smrti"
  }

  const Dash := " \U{2013} "

  /** `birth_summary(name, year, occ)` and `death_summary(name, year, occ)`. */
  function Summary(mode: Mode, lang: string, name: Option<string>, year: Option<string>, occ: Option<string>): string
  {
    var lead := Lead(mode, lang, name);
    if year.Some? && year.value != "" then lead + (" (" + year.value + ")") + Dash + Shown(occ)
    else lead + Dash + Shown(occ)
  }

  /** The part of a summary before the year: icon, label and name. */
  function Lead(mode: Mode, lang: string, name: Option<string>): string
  {
    Icon(mode) + " " + Label(mode, lang) + ": " + Shown(name)
  }

  /** `f"{name} – {occ}\\nWikidata: {entity}"`: the `\\n` is a backslash and an `n`,
      not a line feed. */
  function Description(name: Option<string>, occ: Option<string>, entity: string): string
  {
    Shown(name) + Dash + Shown(occ) + "\\n" + "Wikidata: " + entity
  }

  function ModeTag(mode: Mode): string
  {
    match mode
    case Births => "-B-"
    case Deaths => "-D-"
  }

  /** `f"{month:02d}{day:02d}-B-{quote(entity)}"`, with `-D-` for deaths. */
  function Uid(month: nat, day: nat, mode: Mode, entity: string): string
  {
    ZeroPad(month, 2) + ZeroPad(day, 2) + ModeTag(mode) + Quote(entity)
  }

  /** The event `main` appends for one row. */
  function RowEvent(row: Row, mode: Mode, run: Run): Option<string>
  {
    var name := row.personLabel;
    var occ := row.occLabel;
    var summary := Summary(mode, run.lang, name, Year(row.date), occ);
    var desc := Description(name, occ, row.person);
    var uid := Uid(run.target.month, run.target.day, mode, row.person);
    MakeEvent(run.target, run.stamp, summary, desc, uid)
  }

  // ---- properties ----

  /** An unrecognized language falls back to the Croatian labels. */
  lemma LabelFallback(mode: Mode, lang: string)
    requires lang != "hr" && lang != "de" && lang != "en"
    ensures Label(mode, lang) == Label(mode, "hr")
  {
  }

  /** In every language the birth and the death label differ. */
  lemma LabelsDistinguishModes(lang: string)
    ensures Label(Births, lang) != Label(Deaths, lang)
  {
    if lang == "de" {
    } else if lang == "en" {
    } else {
    }
  }

  /** Adding a year inserts ` (<year>)` just before the dash and changes nothing else.
      The summary always starts with the mode's icon. */
  lemma SummaryYear(mode: Mode, lang: string, name: Option<string>, y: string, occ: Option<string>)
    requires y != ""
    ensures var with := Summary(mode, lang, name, Some(y), occ);
      var without := Summary(mode, lang, name, None, occ);
      var k := |without| - |Dash + Shown(occ)|;
      0 <= k && with == without[..k] + (" (" + y + ")") + without[k..]
  {
    var lead, mid := Lead(mode, lang, name), " (" + y + ")";
    var with, without := Summary(mode, lang, name, Some(y), occ), Summary(mode, lang, name, None, occ);
    assert without == lead + Dash + Shown(occ);
    assert with == lead + mid + Dash + Shown(occ);
    InsertBefore(with, without, lead, mid, Dash, Shown(occ));
  }

  /** Every summary opens with the icon of its mode. */
  lemma SummaryIcon(mode: Mode, lang: string, name: Option<string>, year: Option<string>, occ: Option<string>)
    ensures |Icon(mode)| <= |Summary(mode, lang, name, year, occ)|
    ensures Summary(mode, lang, name, year, occ)[..|Icon(mode)|] == Icon(mode)
  {
    var lead := Lead(mode, lang, name);
    var k := |Icon(mode)|;
    LeadIcon(mode, lang, name);
    if year.Some? && year.value != "" {
      PrefixKept(lead, " (" + year.value + ")", k);
      PrefixKept(lead + (" (" + year.value + ")"), Dash, k);
      PrefixKept(lead + (" (" + year.value + ")") + Dash, Shown(occ), k);
    } else {
      PrefixKept(lead, Dash, k);
      PrefixKept(lead + Dash, Shown(occ), k);
    }
  }

  lemma LeadIcon(mode: Mode, lang: string, name: Option<string>)
    ensures |Icon(mode)| <= |Lead(mode, lang, name)|
    ensures Lead(mode, lang, name)[..|Icon(mode)|] == Icon(mode)
  {
    var icon, k := Icon(mode), |Icon(mode)|;
    PrefixKept(icon, " ", k);
    PrefixKept(icon + " ", Label(mode, lang), k);
    PrefixKept(icon + " " + Label(mode, lang), ": ", k);
    PrefixKept(icon + " " + Label(mode, lang) + ": ", Shown(name), k);
  }

  lemma PrefixKept(a: string, b: string, k: nat)
    requires k <= |a|
    ensures (a + b)[..k] == a[..k]
  {
  }

  /** Putting `mid` between `lead` and `d + o` is inserting it right before `d + o`. */
  lemma InsertBefore(with: string, without: string, lead: string, mid: string, d: string, o: string)
    requires with == lead + mid + d + o && without == lead + d + o
    ensures var k := |without| - |d + o|;
      0 <= k && with == without[..k] + mid + without[k..]
  {
    assert without[..|lead|] == lead;
    assert without[|lead|..] == d + o;
  }


  /** A row yields a year in its summary exactly when its date value holds a year. */
  lemma SummaryHasYearIff(mode: Mode, lang: string, name: Option<string>, date: Option<string>, occ: Option<string>)
    ensures Year(date).Some? ==>
      (Summary(mode, lang, name, Year(date), occ)
        == Icon(mode) + " " + Label(mode, lang) + ": " + Shown(name) + " (" + date.value[..4] + ")" + Dash + Shown(occ))
    ensures Year(date).None? ==>
      (Summary(mode, lang, name, Year(date), occ)
        == Icon(mode) + " " + Label(mode, lang) + ": " + Shown(name) + Dash + Shown(occ))
  {
  }

  /** The description's `\n` reaches the file as `\\n`: sanitizing doubles its backslash.
      Unescaping the DESCRIPTION value therefore gives a backslash and an `n`, never a
      line break. */
  lemma DescriptionBackslash(name: Option<string>, occ: Option<string>, entity: string)
    ensures var head := Shown(name) + Dash + Shown(occ);
      SanitizeText(Some(Description(name, occ, entity)))
        == Escaped(head) + "\\\\n" + "Wikidata: " + Escaped(entity)
    ensures Unescape(SanitizeText(Some(Description(name, occ, entity)))) == Description(name, occ, entity)
  {
    var head := Shown(name) + Dash + Shown(occ);
    var d := Description(name, occ, entity);
    assert d == head + "\\n" + ("Wikidata: " + entity);
    SanitizeIsEscaped(d);
    EscapedDescription(head, entity);
    UnescapeEscaped(d);
  }

  lemma EscapedDescription(head: string, entity: string)
    ensures Escaped(head + "\\n" + ("Wikidata: " + entity))
      == Escaped(head) + "\\\\n" + "Wikidata: " + Escaped(entity)
  {
    EscapedThree(head, "\\n", "Wikidata: " + entity);
    EscapedAppend("Wikidata: ", entity);
    DescriptionPieces();
  }

  lemma EscapedThree(a: string, b: string, c: string)
    ensures Escaped(a + b + c) == Escaped(a) + Escaped(b) + Escaped(c)
  {
    EscapedAppend(a + b, c);
    EscapedAppend(a, b);
  }

  /** The fixed pieces of the description: the two-character `\n` is escaped to three
      characters, and the reference label has nothing to escape. */
  lemma DescriptionPieces()
    ensures Escaped("\\n") == "\\\\n"
    ensures Escaped("Wikidata: ") == "Wikidata: "
  {
    assert "\\n" == ['\\'] + "n";
    EscapedAppend(['\\'], "n");
    EscapedPlain("Wikidata: ");
  }

  lemma ModeTagFacts(mode: Mode)
    ensures |ModeTag(mode)| == 3 && ModeTag(mode)[1] == (if mode == Births then 'B' else 'D')
  {
  }

  /** The UID determines the day, the mode and the entity: distinct (month, day, mode,
      entity) tuples of a calendar date never share a UID. In particular the birth and
      the death event of one person differ. */
  lemma UidInjective(m1: nat, d1: nat, mode1: Mode, e1: string, m2: nat, d2: nat, mode2: Mode, e2: string)
    requires m1 < 100 && d1 < 100 && m2 < 100 && d2 < 100
    requires Uid(m1, d1, mode1, e1) == Uid(m2, d2, mode2, e2)
    ensures m1 == m2 && d1 == d2 && mode1 == mode2 && e1 == e2
  {
    ZeroPadWidth(m1, 2);
    ZeroPadWidth(d1, 2);
    ZeroPadWidth(m2, 2);
    ZeroPadWidth(d2, 2);
    ModeTagFacts(mode1);
    ModeTagFacts(mode2);
    UidPieces(ZeroPad(m1, 2), ZeroPad(d1, 2), ModeTag(mode1), Quote(e1));
    UidPieces(ZeroPad(m2, 2), ZeroPad(d2, 2), ModeTag(mode2), Quote(e2));
    assert ZeroPad(m1, 2) == ZeroPad(m2, 2) && ZeroPad(d1, 2) == ZeroPad(d2, 2);
    assert ModeTag(mode1) == ModeTag(mode2);
    QuoteInjective(e1, e2);
  }

  lemma UidPieces(mm: string, dd: string, tag: string, q: string)
    requires |mm| == 2 && |dd| == 2 && |tag| == 3
    ensures var u := mm + dd + tag + q;
      u[..2] == mm && u[2..4] == dd && u[4..7] == tag && u[7..] == q
  {
  }

  /** A UID holds no line feed, so it stays on its UID line. */
  lemma UidNoLineFeed(month: nat, day: nat, mode: Mode, entity: string)
    ensures '\n' !in Uid(month, day, mode, entity)
  {
    QuoteIsOneToken(entity);
    assert '\n' !in ModeTag(mode);
  }

  /** A row's event exists exactly when the target date has a successor. */
  lemma RowEventExists(row: Row, mode: Mode, run: Run)
    ensures RowEvent(row, mode, run).Some? <==> NextDay(run.target).Some?
  {
  }

  /** A row's event, when it exists, ends in a line feed and opens exactly one event. */
  lemma RowEventBlock(row: Row, mode: Mode, run: Run)
    requires '\n' !in run.stamp
    ensures RowEvent(row, mode, run).Some? ==>
      EndsLine(RowEvent(row, mode, run).value) && LineCount(RowEvent(row, mode, run).value, EventBegin) == 1
  {
    var summary := Summary(mode, run.lang, row.personLabel, Year(row.date), row.occLabel);
    var desc := Description(row.personLabel, row.occLabel, row.person);
    var uid := Uid(run.target.month, run.target.day, mode, row.person);
    UidNoLineFeed(run.target.month, run.target.day, mode, row.person);
    EventBlock(run.target, run.stamp, summary, desc, uid);
  }
}
