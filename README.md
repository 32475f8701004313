# Cultural calendar generator: a verified model

`scripts/generate_calendar.py` writes a daily iCalendar file of birthdays and death
anniversaries of artists. It asks Wikidata with two SPARQL queries, one for people born
on the target month and day and one for people who died on it. It then turns every
result row into an all-day VEVENT and writes the header, the birth events, the death
events and the footer to one `.ics` file. Finally it prints how many events were
written.

This project models the deterministic text-building core of that script in Dafny:

- **Escaping** models `sanitize_text` as `Escaping.SanitizeText`. This is the TEXT
  escaping of section 3.3.11 of RFC 5545, written as the four successive `str.replace`
  passes.
- **Percent** models `urllib.parse.quote` with its default `safe='/'` as
  `Percent.Quote`. It is UTF-8 encoding followed by percent-encoding.
- **Dates** models the Gregorian calendar, `date + timedelta(days=1)` as
  `Dates.NextDay` and `strftime("%Y%m%d")` as `Dates.FormatYmd`.
- **Query** models `build_sparql_query` as `Query.BuildSparqlQuery`, the literal query
  string.
- **Calendar** models `ical_header` as `Calendar.Header`, `ical_footer` as
  `Calendar.Footer` and `make_event` as `Calendar.MakeEvent`.
- **Formatter** models the per-row formatting that `main` does inline. The year is
  `Formatter.Year`. `birth_summary` and `death_summary` are `Formatter.Summary`. The
  description is `Formatter.Description`, the UID `Formatter.Uid`, and the event
  appended for one row `Formatter.RowEvent`.
- **Pipeline** models the assembly of the `ics` list in `main`. Two `for` loops are
  modelled as the method `Pipeline.AppendEvents` with loop invariants.
  `Pipeline.Generate` builds the whole list, and `Pipeline.Document` states what that
  list is. `Pipeline.FileText` is the text written to the file, `"".join(ics)`.
  `Pipeline.ReportedCount` is the number printed at the end, `len(ics) - 2`.
- **Text** holds the shared string tools: splitting at a separator, joining, line
  counting, and decimal and zero-padded numbers.
- **Wrappers** holds the `Option` type.

Every triple-quoted template is modelled as its list of lines, each followed by a line
feed (`Terminated`). For the header and the event templates that is the whole text, and
splitting it at line feeds gives the lines back and a final empty piece
(`Text.SplitLines`). The query template also has its closing indentation after the last
line feed: `Query.BuildSparqlQuery` is the terminated lines followed by the four spaces
`Query.QueryTail`, and splitting it gives the lines followed by those four spaces
(`Text.SplitTerminated`, used in `Query.QueryLayout`). A few things raise an exception in Python; they become `None`.
These are the day after 9999-12-31 and, through it, `make_event` and `main`.

Missing `personLabel` and `occLabel` bindings go through the f-strings as the text
`None` (`Formatter.Shown`), not as an empty string.

One quirk of the source appears in the model as written. The description template
holds the two characters backslash and `n`. `sanitize_text` doubles the backslash, so
the DESCRIPTION line carries `\\n`. A calendar client unescapes that to a backslash
followed by `n`, not to a line break (`Formatter.DescriptionBackslash`).

## Model

| member | source | states |
|---|---|---|
| Escaping.SanitizeFalsy | scripts/generate_calendar.py:62-64 | `sanitize_text` gives `""` exactly when its argument is `None` or the empty string |
| Escaping.SanitizeIsEscaped | scripts/generate_calendar.py:62-66 | the four replace passes, backslash first, equal escaping each character on its own (`\` `;` `,` and line feed become two-character escapes; every other character is unchanged) |
| Escaping.EscapedPlain | scripts/generate_calendar.py:66 | a text without the four special characters is left unchanged |
| Escaping.EscapedNoLineFeed | scripts/generate_calendar.py:66 | escaped text never holds a raw line feed |
| Escaping.UnescapeEscaped | scripts/generate_calendar.py:66 | unescaping per section 3.3.11 of RFC 5545 gives back the original text exactly |
| Escaping.EscapedInjective | scripts/generate_calendar.py:66 | distinct texts escape to distinct texts |
| Escaping.EscapedAppend | scripts/generate_calendar.py:66 | escaping a concatenation is the concatenation of the escaped parts |
| Escaping.EscapedLength | scripts/generate_calendar.py:66 | escaping never shortens a text |
| Percent.Quote | scripts/generate_calendar.py:20 | the output of `quote` consists only of safe ASCII characters, `%` and upper-case hex digits |
| Percent.Utf8RoundTrip | scripts/generate_calendar.py:154 | decoding the UTF-8 bytes of a string gives the string back |
| Percent.UnquoteQuote | scripts/generate_calendar.py:154 | percent-decoding and then UTF-8-decoding `quote(s)` gives `s` back |
| Percent.QuoteInjective | scripts/generate_calendar.py:154 | distinct entities quote to distinct texts |
| Percent.QuoteIsOneToken | scripts/generate_calendar.py:154 | `quote(s)` holds no line feed and no space |
| Dates.NextDay | scripts/generate_calendar.py:91 | `date + timedelta(days=1)` is a valid date whenever it exists |
| Dates.NextDayIsSuccessor | scripts/generate_calendar.py:91 | the next day is later than the date, and no valid date lies strictly between the two (month, year and leap-day rollover included) |
| Dates.NextDayOverflow | scripts/generate_calendar.py:91 | only 9999-12-31 has no next day, where Python raises `OverflowError` |
| Dates.FormatYmd | scripts/generate_calendar.py:86 | `strftime("%Y%m%d")` is eight decimal digits |
| Dates.ParseFormatYmd | scripts/generate_calendar.py:86 | reading the `YYYYMMDD` text back as year, month and day gives the date |
| Dates.FormatYmdInjective | scripts/generate_calendar.py:86 | distinct dates give distinct `YYYYMMDD` texts |
| Query.DateProperty | scripts/generate_calendar.py:33 | mode `"births"` selects `wdt:P569`, and every other mode string selects `wdt:P570` |
| Query.OccupationItems | scripts/generate_calendar.py:34 | one item per identifier, in order, each the identifier prefixed with `wd:` |
| Query.OccupationFilterItems | scripts/generate_calendar.py:34 | when no identifier holds a space, the occupation list splits on single spaces into exactly the `wd:` items, and an empty identifier list gives the empty text (`IN ()`) |
| Query.QueryLayout | scripts/generate_calendar.py:37-51 | the query text is exactly the thirteen template lines then its closing indentation, with the date property, the occupation list and the language each in its template line, and month and day together in the date FILTER line |
| Query.DateFilterValues | scripts/generate_calendar.py:43 | month and day appear in one `MONTH(?date) = m && DAY(?date) = d` filter, unpadded, and read back as the numbers asked for |
| Calendar.HeaderLayout | scripts/generate_calendar.py:71-79 | the header is exactly its seven lines, with the title escaped so that it unescapes back to the title, and the time zone inserted as is |
| Calendar.HeaderBlock | scripts/generate_calendar.py:71-79 | the header ends in a line feed and holds no BEGIN:VEVENT line |
| Calendar.FooterBlock | scripts/generate_calendar.py:81-82 | the footer is the single line `END:VCALENDAR` and opens no event |
| Calendar.EventLayout | scripts/generate_calendar.py:84-95 | an event exists exactly when its date has a next day. It is then eight lines in order: BEGIN, UID (verbatim), DTSTAMP, DTSTART (`YYYYMMDD` of the date), DTEND (`YYYYMMDD` of the next day), SUMMARY and DESCRIPTION (escaped, unescaping to the texts given), then END |
| Calendar.EventFields | scripts/generate_calendar.py:87-93 | each of the six field lines carries its value right after its tag: the UID and DTSTAMP verbatim, DTSTART and DTEND as `YYYYMMDD`, and SUMMARY and DESCRIPTION escaped so that they unescape to the texts given |
| Calendar.EventBlock | scripts/generate_calendar.py:84-95 | an event ends in a line feed and holds exactly one BEGIN:VEVENT line |
| Formatter.Year | scripts/generate_calendar.py:149-151 | a year exists exactly when the date value is present with at least four characters, and it is then the first four characters |
| Formatter.LabelFallback | scripts/generate_calendar.py:136 | any language other than `hr`, `de` and `en` gets the Croatian label |
| Formatter.LabelsDistinguishModes | scripts/generate_calendar.py:136-141 | in every language the birthday label and the death-anniversary label differ |
| Formatter.SummaryHasYearIff | scripts/generate_calendar.py:137-152 | the summary is `<icon> <label>: <name> (<year>) – <occ>` when the date value holds a year, and the same without ` (<year>)` otherwise |
| Formatter.SummaryYear | scripts/generate_calendar.py:137 | a year inserts ` (<year>)` right before the dash and changes nothing else |
| Formatter.SummaryIcon | scripts/generate_calendar.py:137-141 | every summary starts with 🎉 for births and ✝️ for deaths |
| Formatter.DescriptionBackslash | scripts/generate_calendar.py:153 | the sanitized description carries `\\n` between the name part and `Wikidata:`, and unescapes to the description with a backslash and `n`, not a line break |
| Formatter.UidInjective | scripts/generate_calendar.py:154-167 | the UID `MMDD-B-quote(entity)` / `MMDD-D-quote(entity)` determines month, day, mode and entity, so the birth and the death UID of one entity differ |
| Formatter.UidNoLineFeed | scripts/generate_calendar.py:154 | a UID holds no line feed |
| Formatter.RowEventExists | scripts/generate_calendar.py:155 | a row's event exists exactly when the target date has a next day |
| Formatter.RowEventBlock | scripts/generate_calendar.py:144-155 | a row's event ends in a line feed and opens exactly one event |
| Pipeline.AppendEvents | scripts/generate_calendar.py:144-168 | one loop of `main` appends, in row order, the event of every row to the list built so far, and fails if one row cannot be rendered |
| Pipeline.Generate | scripts/generate_calendar.py:123-170 | the `ics` list `main` builds is the header, the birth events, the death events and the footer (`Document`) |
| Pipeline.RenderedAll | scripts/generate_calendar.py:144-155 | the loop succeeds exactly when every row renders, and then gives one text per row in row order |
| Pipeline.RowEventsExist | scripts/generate_calendar.py:144-168 | one query's events fail exactly when it returned a row and the target date has no next day; otherwise the events are one per row, in row order |
| Pipeline.DocumentFails | scripts/generate_calendar.py:123-170 | building the `ics` list raises exactly when some row exists and the target date is the last representable one |
| Pipeline.DocumentCount | scripts/generate_calendar.py:178 | the list holds two more texts than there are rows, so the printed count `len(ics)-2` is births plus deaths |
| Pipeline.DocumentFrame | scripts/generate_calendar.py:124-170 | the list opens with the header and closes with the footer |
| Pipeline.DocumentBirths | scripts/generate_calendar.py:144-155 | after the header comes the event of each birth row, in returned order |
| Pipeline.DocumentDeaths | scripts/generate_calendar.py:157-168 | after the birth events comes the event of each death row, in returned order |
| Pipeline.EmptyDocument | scripts/generate_calendar.py:123-170 | the list is the header and the footer alone exactly when both queries return no rows |
| Pipeline.FileEventCount | scripts/generate_calendar.py:176-178 | the written text `"".join(ics)` holds exactly as many BEGIN:VEVENT lines as the printed count says |
| Text.SplitLines | scripts/generate_calendar.py:72-79 | splitting at line feeds gives back the lines of a template that have no line feeds of their own |
| Text.IntToStringRoundTrip | scripts/generate_calendar.py:43 | the decimal text of an integer reads back as that integer |
| Text.ZeroPad | scripts/generate_calendar.py:154 | `{n:02d}` is decimal digits, at least two of them, that read back as `n` |
| Text.ZeroPadWidth | scripts/generate_calendar.py:154 | a number below 100 pads to exactly two digits |

## Left out

- `load_occupations`: the configuration file and JSON reading are I/O. The occupation identifiers are an input sequence.
- `run_sparql`: this is the HTTP request to Wikidata. The rows of each result set are an input sequence of `Row` values, where the `personLabel`, `date` and `occLabel` bindings may each be missing and `person` is required.
- `parse_args`: argparse and the `LANG`, `TITLE` and `TZ` environment defaults are not modelled. The title, time zone and language are inputs.
- Timezone resolution: `pytz`, `datetime.now` and the `--date` parsing are not modelled. The target date is an input.
- `dtstamp`: the wall-clock reading is one `stamp` text per run (`Formatter.Run`). The source reads the clock once per event, so the model does not capture stamps that differ between events of one file.
- Directory creation, the file write and the final `print` are I/O. The model keeps the text that is written (`Pipeline.FileText`) and the count that is printed (`Pipeline.ReportedCount`).
- SPARQL semantics: `Query` models only the string. It claims nothing about whether the query is valid SPARQL. In particular, the space-separated `IN` list and the empty `IN ()` are not examined.
- A missing `person` binding makes `quote(None)` raise. This is not modelled, because the entity is a required field of `Row`.
- Dates.FormatYmd: `%Y` is modelled as four zero-padded digits. Some C libraries do not pad years below 1000.
- Percent.Utf8: Dafny characters are Unicode scalar values. A Python string holding a lone surrogate, which `quote` would reject, is not modelled.
- Formatter.Label: `lang` is any string. argparse checks `choices` only for a value given on the command line, not for the default `os.getenv("LANG", "hr")`. A run without `--lang` under a locale such as `en_US.UTF-8` therefore gets the Croatian labels (lines 136 and 140), and that locale string goes into the query's language line (line 44). The model covers this case; the argument parsing itself is not modelled.
- Pipeline.FileEventCount: requires line-feed-free time-zone and DTSTAMP texts. With a line feed in an unescaped field, the line structure is not claimed.
- Calendar.HeaderLayout and Calendar.EventLayout: these also require line-feed-free time-zone, DTSTAMP and UID texts, because those are inserted unescaped.
- Query.QueryLayout: requires line-feed-free identifiers and language code, because those are inserted unescaped.
- Pipeline.AppendEvents: the two loops of `main` are one method, called once with the birth renderer and once with the death renderer. The two loop bodies in the source differ only in the summary helper and the UID tag.
