/** The iCalendar text blocks: `ical_header`, `make_event` and `ical_footer`. Each
    triple-quoted template is its list of lines, each line ending in a line feed. */
module Calendar {
  import opened Wrappers
  import opened Text
  import opened Escaping
  import opened Dates

  function HeaderLines(title: string, tz: string): seq<string>
  {
    [ "BEGIN:VCALENDAR",
      "VERSION:2.0",
      "PRODID:-//TV Wien//Cultural Calendar//HR",
      "CALSCALE:GREGORIAN",
      "METHOD:PUBLISH",
      "X-WR-CALNAME:" + SanitizeText(Some(title)),
      "X-WR-TIMEZONE:" + tz ]
  }

  /** `ical_header(title, tz)`: the title is escaped, the time-zone name is inserted as is. */
  function Header(title: string, tz: string): string
  {
    Terminated(HeaderLines(title, tz))
  }

  const FooterLine := "END:VCALENDAR"

  /** `ical_footer()`. */
  function Footer(): string
  {
    Terminated([FooterLine])
  }

  /** The line that opens an event. */
  const EventBegin := "BEGIN:VEVENT"

  /** The lines of the `make_event` template around its six field texts, which come
      in already formatted and escaped. */
  function EventLines(uid: string, stamp: string, start: string, end: string, summary: string, description: string)
    : seq<string>
  {
    [ EventBegin,
      "UID:" + uid,
      "DTSTAMP:" + stamp,
      "DTSTART;VALUE=DATE:" + start,
      "DTEND;VALUE=DATE:" + end,
      "SUMMARY:" + summary,
      "DESCRIPTION:" + description,
      "END:VEVENT" ]
  }

  /** The template's lines for an event on `date` ending on `end`. */
  function EventText(date: Date, end: Date, stamp: string, summary: string, description: string, uid: string)
    : seq<string>
    requires ValidDate(date) && ValidDate(end)
  {
    EventLines(uid, stamp, FormatYmd(date), FormatYmd(end),
               SanitizeText(Some(summary)), SanitizeText(Some(description)))
  }

  /** `make_event(date, summary, description, uid)`, with the `dtstamp()` reading passed
      in as `stamp`; `None` where computing the day after `date` raises. */
  function MakeEvent(date: Date, stamp: string, summary: string, description: string, uid: string): Option<string>
    requires ValidDate(date)
  {
    match NextDay(date)
    case None => None
    case Some(end) => Some(Terminated(EventText(date, end, stamp, summary, description, uid)))
  }

  // The fixed text of the template lines holds no line feed (a few lines per lemma, as
  // the verifier checks a literal character by character).
  lemma CalendarOpeningNoLineFeed()
    ensures '\n' !in "BEGIN:VCALENDAR" && '\n' !in "VERSION:2.0"
  {
  }

  lemma ProductLineNoLineFeed()
    ensures '\n' !in "PRODID:-//TV Wien//Cultural Calendar//HR"
  {
  }

  /** The CALSCALE and METHOD lines and the tags of the two inserted header lines. */
  lemma HeaderTagsNoLineFeed()
    ensures '\n' !in "CALSCALE:GREGORIAN" && '\n' !in "METHOD:PUBLISH"
      && '\n' !in "X-WR-CALNAME:" && '\n' !in "X-WR-TIMEZONE:"
  {
  }

  /** BEGIN:VEVENT and the tags of the UID, DTSTAMP, DTSTART and DTEND lines. */
  lemma EventOpeningNoLineFeed()
    ensures '\n' !in EventBegin && '\n' !in "UID:" && '\n' !in "DTSTAMP:"
      && '\n' !in "DTSTART;VALUE=DATE:" && '\n' !in "DTEND;VALUE=DATE:"
  {
  }

  /** The tags of the SUMMARY and DESCRIPTION lines, and END:VEVENT. */
  lemma EventClosingNoLineFeed()
    ensures '\n' !in "SUMMARY:" && '\n' !in "DESCRIPTION:" && '\n' !in "END:VEVENT"
  {
  }

  lemma FooterLineNoLineFeed()
    ensures '\n' !in FooterLine
  {
  }

  lemma SanitizedNoLineFeed(s: string)
    ensures '\n' !in SanitizeText(Some(s))
  {
    SanitizeIsEscaped(s);
    EscapedNoLineFeed(s);
  }

  lemma DigitsNoLineFeed(s: string)
    requires AllDigits(s)
    ensures '\n' !in s
  {
  }

  lemma HeaderLinesNoLineFeed(title: string, tz: string)
    requires '\n' !in tz
    ensures NoLineFeeds(HeaderLines(title, tz))
  {
    CalendarOpeningNoLineFeed();
    ProductLineNoLineFeed();
    HeaderTagsNoLineFeed();
    SanitizedNoLineFeed(title);
    var lines := HeaderLines(title, tz);
    forall i | 0 <= i < |lines| ensures '\n' !in lines[i] {
    }
  }

  lemma EventLinesNoLineFeed(uid: string, stamp: string, start: string, end: string, summary: string, description: string)
    requires '\n' !in uid && '\n' !in stamp && '\n' !in start && '\n' !in end
    requires '\n' !in summary && '\n' !in description
    ensures NoLineFeeds(EventLines(uid, stamp, start, end, summary, description))
  {
    EventOpeningNoLineFeed();
    EventClosingNoLineFeed();
    var lines := EventLines(uid, stamp, start, end, summary, description);
    forall i | 0 <= i < |lines| ensures '\n' !in lines[i] {
    }
  }

  lemma EventTextNoLineFeed(date: Date, end: Date, stamp: string, summary: string, description: string, uid: string)
    requires ValidDate(date) && ValidDate(end)
    requires '\n' !in stamp && '\n' !in uid
    ensures NoLineFeeds(EventText(date, end, stamp, summary, description, uid))
  {
    SanitizedNoLineFeed(summary);
    SanitizedNoLineFeed(description);
    DigitsNoLineFeed(FormatYmd(date));
    DigitsNoLineFeed(FormatYmd(end));
    EventLinesNoLineFeed(uid, stamp, FormatYmd(date), FormatYmd(end),
                         SanitizeText(Some(summary)), SanitizeText(Some(description)));
  }

  /** The header is seven content lines, in order, with the title escaped so that
      unescaping the X-WR-CALNAME value gives the title back. */
  lemma HeaderLayout(title: string, tz: string)
    requires '\n' !in tz
    ensures SplitOn(Header(title, tz), '\n') == HeaderLines(title, tz) + [""]
    ensures Unescape(HeaderLines(title, tz)[5][|"X-WR-CALNAME:"|..]) == title
  {
    HeaderLinesNoLineFeed(title, tz);
    SplitLines(HeaderLines(title, tz));
    SanitizeIsEscaped(title);
    UnescapeEscaped(title);
    var line := HeaderLines(title, tz)[5];
    assert line[|"X-WR-CALNAME:"|..] == SanitizeText(Some(title));
  }

  /** An event exists exactly when the start date has a successor; it is then the eight
      lines BEGIN, UID, DTSTAMP, DTSTART, DTEND, SUMMARY, DESCRIPTION, END in that order:
      DTSTART is the event date and DTEND the next calendar day, both as `YYYYMMDD`; the
      UID is verbatim and the SUMMARY and DESCRIPTION values unescape to the texts given.
      No line feed in a field can split a line, because the escaped fields hold none. */
  lemma EventLayout(date: Date, stamp: string, summary: string, description: string, uid: string)
    requires ValidDate(date)
    requires '\n' !in stamp && '\n' !in uid
    ensures MakeEvent(date, stamp, summary, description, uid).Some? <==> NextDay(date).Some?
    ensures MakeEvent(date, stamp, summary, description, uid).Some? ==>
      var end := NextDay(date).value;
      var lines := EventText(date, end, stamp, summary, description, uid);
      SplitOn(MakeEvent(date, stamp, summary, description, uid).value, '\n') == lines + [""] &&
      lines[3][|"DTSTART;VALUE=DATE:"|..] == FormatYmd(date) &&
      lines[4][|"DTEND;VALUE=DATE:"|..] == FormatYmd(end) &&
      Before(date, end) &&
      lines[1][|"UID:"|..] == uid &&
      Unescape(lines[5][|"SUMMARY:"|..]) == summary &&
      Unescape(lines[6][|"DESCRIPTION:"|..]) == description
  {
    if NextDay(date).Some? {
      var end := NextDay(date).value;
      var lines := EventText(date, end, stamp, summary, description, uid);
      EventTextNoLineFeed(date, end, stamp, summary, description, uid);
      SplitLines(lines);
      EventFields(date, end, stamp, summary, description, uid);
      NextDayIsSuccessor(date, end);
    }
  }

  lemma EventFields(date: Date, end: Date, stamp: string, summary: string, description: string, uid: string)
    requires ValidDate(date) && ValidDate(end)
    ensures var lines := EventText(date, end, stamp, summary, description, uid);
      lines[3][|"DTSTART;VALUE=DATE:"|..] == FormatYmd(date) &&
      lines[4][|"DTEND;VALUE=DATE:"|..] == FormatYmd(end) &&
      lines[1][|"UID:"|..] == uid &&
      lines[2][|"DTSTAMP:"|..] == stamp &&
      Unescape(lines[5][|"SUMMARY:"|..]) == summary &&
      Unescape(lines[6][|"DESCRIPTION:"|..]) == description
  {
    var start, finish := FormatYmd(date), FormatYmd(end);
    var sum, desc := SanitizeText(Some(summary)), SanitizeText(Some(description));
    EventValues(uid, stamp, start, finish, sum, desc);
    SanitizeIsEscaped(summary);
    SanitizeIsEscaped(description);
    UnescapeEscaped(summary);
    UnescapeEscaped(description);
  }

  /** Each field line of the template holds its value right after its tag. */
  lemma EventValues(uid: string, stamp: string, start: string, end: string, summary: string, description: string)
    ensures var lines := EventLines(uid, stamp, start, end, summary, description);
      lines[1][|"UID:"|..] == uid &&
      lines[2][|"DTSTAMP:"|..] == stamp &&
      lines[3][|"DTSTART;VALUE=DATE:"|..] == start &&
      lines[4][|"DTEND;VALUE=DATE:"|..] == end &&
      lines[5][|"SUMMARY:"|..] == summary &&
      lines[6][|"DESCRIPTION:"|..] == description
  {
  }

  // ---- event counts ----

  /** The header ends in a line feed and opens no event. */
  lemma HeaderBlock(title: string, tz: string)
    requires '\n' !in tz
    ensures EndsLine(Header(title, tz)) && LineCount(Header(title, tz), EventBegin) == 0
  {
    var lines := HeaderLines(title, tz);
    TerminatedEndsLine(lines);
    HeaderLinesNoLineFeed(title, tz);
    SplitLines(lines);
    HeaderNotEvent(title, tz);
    CountAbsent(lines + [""], EventBegin);
  }

  lemma HeaderNotEvent(title: string, tz: string)
    ensures forall k :: 0 <= k < |HeaderLines(title, tz) + [""]| ==> (HeaderLines(title, tz) + [""])[k] != EventBegin
  {
    var lines := HeaderLines(title, tz) + [""];
    assert lines[5][0] == 'X' && lines[6][0] == 'X';
  }

  /** The footer ends in a line feed and opens no event. */
  lemma FooterBlock()
    ensures EndsLine(Footer()) && LineCount(Footer(), EventBegin) == 0
  {
    TerminatedEndsLine([FooterLine]);
    FooterLineNoLineFeed();
    SplitLines([FooterLine]);
    CountAbsent([FooterLine, ""], EventBegin);
  }

  /** An event ends in a line feed and opens exactly one event: BEGIN:VEVENT is its
      first line and none of its other lines. */
  lemma EventBlock(date: Date, stamp: string, summary: string, description: string, uid: string)
    requires ValidDate(date)
    requires '\n' !in stamp && '\n' !in uid
    ensures MakeEvent(date, stamp, summary, description, uid).Some? ==>
      EndsLine(MakeEvent(date, stamp, summary, description, uid).value) &&
      LineCount(MakeEvent(date, stamp, summary, description, uid).value, EventBegin) == 1
  {
    if NextDay(date).Some? {
      var end := NextDay(date).value;
      var lines := EventText(date, end, stamp, summary, description, uid);
      EventTextNoLineFeed(date, end, stamp, summary, description, uid);
      EventNotBegin(uid, stamp, FormatYmd(date), FormatYmd(end),
                    SanitizeText(Some(summary)), SanitizeText(Some(description)));
      OpeningLine(lines, EventBegin);
    }
  }

  lemma EventNotBegin(uid: string, stamp: string, start: string, end: string, summary: string, description: string)
    ensures var lines := EventLines(uid, stamp, start, end, summary, description);
      lines[0] == EventBegin && forall k :: 1 <= k < |lines| ==> lines[k] != EventBegin
  {
    var lines := EventLines(uid, stamp, start, end, summary, description);
    assert lines[1][0] == 'U' && lines[2][0] == 'D' && lines[3][0] == 'D' && lines[4][0] == 'D';
    assert lines[5][0] == 'S' && lines[6][0] == 'D';
  }
}
