/** Document assembly in `main`: the header, one event per birth row, one event per
    death row, the footer, and the reported event count. */
module Pipeline {
  import opened Wrappers
  import opened Text
  import opened Dates
  import opened Calendar
  import opened Formatter

  /** The texts a loop appending `render(row)` for each row collects, in order; `None`
      as soon as one row cannot be rendered. */
  function Rendered(rows: seq<Row>, render: Row -> Option<string>): Option<seq<string>>
    decreases |rows|
  {
    if rows == [] then Some([])
    else
      match Rendered(rows[..|rows| - 1], render)
      case None => None
      case Some(texts) =>
        match render(rows[|rows| - 1])
        case None => None
        case Some(t) => Some(texts + [t])
  }

  /** The event of each row of one query, for one run. */
  function Renderer(mode: Mode, run: Run): Row -> Option<string>
  {
    row => RowEvent(row, mode, run)
  }

  /** The events the loop over one query's rows appends. */
  function RowEvents(rows: seq<Row>, mode: Mode, run: Run): Option<seq<string>>
  {
    Rendered(rows, Renderer(mode, run))
  }

  /** The header, then the birth texts, then the death texts, then the footer; `None`
      when either query's texts could not be rendered. */
  function Assembled(header: string, b: Option<seq<string>>, d: Option<seq<string>>, footer: string)
    : Option<seq<string>>
  {
    if b.None? || d.None? then None else Some([header] + b.value + d.value + [footer])
  }

  /** The `ics` list at the end of `main`, or `None` when building it raises. */
  function Document(title: string, tz: string, run: Run, births: seq<Row>, deaths: seq<Row>): Option<seq<string>>
  {
    Assembled(Header(title, tz), RowEvents(births, Births, run), RowEvents(deaths, Deaths, run), Footer())
  }

  /** The text written to the output file: `"".join(ics)`. */
  function FileText(ics: seq<string>): string
  {
    Concat(ics)
  }

  /** The count printed at the end of `main`: `len(ics) - 2`. */
  function ReportedCount(ics: seq<string>): int
  {
    |ics| - 2
  }

  /** One of the two `for` loops of `main`: append the event of each row, in order, to
      the list built so far; `None` when rendering a row raises. */
  method AppendEvents(ics: seq<string>, rows: seq<Row>, render: Row -> Option<string>)
    returns (result: Option<seq<string>>)
    ensures result == match Rendered(rows, render)
      case None => None
      case Some(texts) => Some(ics + texts)
  {
    var parts := ics;
    for i := 0 to |rows|
      invariant Rendered(rows[..i], render).Some?
      invariant parts == ics + Rendered(rows[..i], render).value
    {
      var event := render(rows[i]);
      if event.None? {
        RenderedAll(rows, render);
        return None;
      }
      assert rows[..i + 1][..i] == rows[..i];
      parts := parts + [event.value];
    }
    assert rows[..|rows|] == rows;
    return Some(parts);
  }

  /** The list-building part of `main`: the header, the events of the birth rows, the
      events of the death rows, the footer. The two result sets, the target date, the
      DTSTAMP text and the language come in as parameters. `None` stands for the
      exception of a row whose event cannot be rendered. */
  method Generate(title: string, tz: string, run: Run, births: seq<Row>, deaths: seq<Row>)
    returns (ics: Option<seq<string>>)
    ensures ics == Document(title, tz, run, births, deaths)
  {
    var header := Header(title, tz);
    var withBirths := AppendEvents([header], births, Renderer(Births, run));
    if withBirths.None? {
      return None;
    }
    var withDeaths := AppendEvents(withBirths.value, deaths, Renderer(Deaths, run));
    if withDeaths.None? {
      return None;
    }
    return Some(withDeaths.value + [Footer()]);
  }

  // ---- properties ----

  /** Rendering succeeds exactly when every row renders, and then gives one text per
      row, in row order. */
  lemma {:induction false} RenderedAll(rows: seq<Row>, render: Row -> Option<string>)
    ensures Rendered(rows, render).Some? <==> forall i :: 0 <= i < |rows| ==> render(rows[i]).Some?
    ensures Rendered(rows, render).Some? ==>
      |Rendered(rows, render).value| == |rows| &&
      forall i :: 0 <= i < |rows| ==> Rendered(rows, render).value[i] == render(rows[i]).value
  {
    if rows != [] {
      var init := rows[..|rows| - 1];
      RenderedAll(init, render);
      assert forall i :: 0 <= i < |init| ==> rows[i] == init[i];
    }
  }

  /** One query's events fail exactly when it returned a row and the target date is the
      last one a date can hold; otherwise there is one event per row, in row order. */
  lemma RowEventsExist(rows: seq<Row>, mode: Mode, run: Run)
    ensures RowEvents(rows, mode, run).Some? <==> rows == [] || NextDay(run.target).Some?
    ensures RowEvents(rows, mode, run).Some? ==>
      |RowEvents(rows, mode, run).value| == |rows| &&
      forall i :: 0 <= i < |rows| ==> RowEvents(rows, mode, run).value[i] == RowEvent(rows[i], mode, run).value
  {
    var render := Renderer(mode, run);
    RenderedAll(rows, render);
    forall i | 0 <= i < |rows| ensures render(rows[i]).Some? <==> NextDay(run.target).Some? {
      RowEventExists(rows[i], mode, run);
    }
  }

  /** Building the `ics` list raises exactly when some row exists and the target date
      has no successor. */
  lemma DocumentFails(title: string, tz: string, run: Run, births: seq<Row>, deaths: seq<Row>)
    ensures Document(title, tz, run, births, deaths).None? <==>
      NextDay(run.target).None? && |births| + |deaths| > 0
  {
    RowEventsExist(births, Births, run);
    RowEventsExist(deaths, Deaths, run);
  }

  /** The document holds one text per row plus the header and the footer, so the printed
      count is the number of rows. */
  lemma DocumentCount(title: string, tz: string, run: Run, births: seq<Row>, deaths: seq<Row>)
    requires Document(title, tz, run, births, deaths).Some?
    ensures var ics := Document(title, tz, run, births, deaths).value;
      |ics| == |births| + |deaths| + 2 && ReportedCount(ics) == |births| + |deaths|
  {
    RowEventsExist(births, Births, run);
    RowEventsExist(deaths, Deaths, run);
  }

  /** The document opens with the header and closes with the footer. */
  lemma DocumentFrame(title: string, tz: string, run: Run, births: seq<Row>, deaths: seq<Row>)
    requires Document(title, tz, run, births, deaths).Some?
    ensures var ics := Document(title, tz, run, births, deaths).value;
      ics[0] == Header(title, tz) && ics[|ics| - 1] == Footer()
  {
  }

  /** After the header come the birth events, one per birth row in returned order. */
  lemma DocumentBirths(title: string, tz: string, run: Run, births: seq<Row>, deaths: seq<Row>)
    requires Document(title, tz, run, births, deaths).Some?
    ensures var ics := Document(title, tz, run, births, deaths).value;
      forall i :: 0 <= i < |births| ==>
        1 + i < |ics| && RowEvent(births[i], Births, run) == Some(ics[1 + i])
  {
    AssembledRows(Header(title, tz), births, deaths, Renderer(Births, run), Renderer(Deaths, run), Footer());
  }

  /** After the birth events come the death events, one per death row in returned
      order, and then the footer. */
  lemma DocumentDeaths(title: string, tz: string, run: Run, births: seq<Row>, deaths: seq<Row>)
    requires Document(title, tz, run, births, deaths).Some?
    ensures var ics := Document(title, tz, run, births, deaths).value;
      forall j :: 0 <= j < |deaths| ==>
        1 + |births| + j < |ics| && RowEvent(deaths[j], Deaths, run) == Some(ics[1 + |births| + j])
  {
    AssembledRows(Header(title, tz), births, deaths, Renderer(Births, run), Renderer(Deaths, run), Footer());
  }

  /** Where the rendered rows sit in an assembled list. */
  lemma AssembledRows(header: string, births: seq<Row>, deaths: seq<Row>,
                      rb: Row -> Option<string>, rd: Row -> Option<string>, footer: string)
    requires Assembled(header, Rendered(births, rb), Rendered(deaths, rd), footer).Some?
    ensures var ics := Assembled(header, Rendered(births, rb), Rendered(deaths, rd), footer).value;
      |ics| == |births| + |deaths| + 2 && ics[0] == header && ics[|ics| - 1] == footer &&
      (forall i :: 0 <= i < |births| ==> rb(births[i]) == Some(ics[1 + i])) &&
      (forall j :: 0 <= j < |deaths| ==> rd(deaths[j]) == Some(ics[1 + |births| + j]))
  {
    RenderedAll(births, rb);
    RenderedAll(deaths, rd);
    var b, d := Rendered(births, rb).value, Rendered(deaths, rd).value;
    Framed(header, b, d, footer);
  }

  /** Where the pieces of `[header] + b + d + [footer]` sit. */
  lemma Framed(header: string, b: seq<string>, d: seq<string>, footer: string)
    ensures var ics := [header] + b + d + [footer];
      |ics| == |b| + |d| + 2 && ics[0] == header && ics[|ics| - 1] == footer &&
      (forall i :: 0 <= i < |b| ==> ics[1 + i] == b[i]) &&
      (forall j :: 0 <= j < |d| ==> ics[1 + |b| + j] == d[j])
  {
  }

  /** The document is the header and the footer alone exactly when both queries return
      no rows. */
  lemma EmptyDocument(title: string, tz: string, run: Run, births: seq<Row>, deaths: seq<Row>)
    ensures Document(title, tz, run, births, deaths) == Some([Header(title, tz), Footer()])
      <==> births == [] && deaths == []
  {
    if Document(title, tz, run, births, deaths).Some? {
      DocumentCount(title, tz, run, births, deaths);
    }
    if births == [] && deaths == [] {
      var h, f := Header(title, tz), Footer();
      assert [h] + [] + [] + [f] == [h, f];
    }
  }

  /** The printed count is true to the file: the written text has exactly as many
      BEGIN:VEVENT lines as the count says, given line-feed-free DTSTAMP and time-zone
      texts. */
  lemma FileEventCount(title: string, tz: string, run: Run, births: seq<Row>, deaths: seq<Row>)
    requires Document(title, tz, run, births, deaths).Some?
    requires '\n' !in tz && '\n' !in run.stamp
    ensures var ics := Document(title, tz, run, births, deaths).value;
      LineCount(FileText(ics), EventBegin) == ReportedCount(ics)
  {
    var rb, rd := Renderer(Births, run), Renderer(Deaths, run);
    forall row | true ensures rb(row).Some? ==> EndsLine(rb(row).value) && LineCount(rb(row).value, EventBegin) == 1 {
      RowEventBlock(row, Births, run);
    }
    forall row | true ensures rd(row).Some? ==> EndsLine(rd(row).value) && LineCount(rd(row).value, EventBegin) == 1 {
      RowEventBlock(row, Deaths, run);
    }
    RenderedBlocks(births, rb, EventBegin);
    RenderedBlocks(deaths, rd, EventBegin);
    var h, f := Header(title, tz), Footer();
    var b, d := RowEvents(births, Births, run).value, RowEvents(deaths, Deaths, run).value;
    HeaderBlock(title, tz);
    FooterBlock();
    ConcatFramed(h, b, d, f);
    LineCountAppend(h, Concat(b) + (Concat(d) + f), EventBegin);
    LineCountConcat(b, Concat(d) + f, EventBegin);
    LineCountConcat(d, f, EventBegin);
    DocumentCount(title, tz, run, births, deaths);
  }

  /** Rendered texts each end in a line feed and open one event, when every text the
      renderer gives does. */
  lemma RenderedBlocks(rows: seq<Row>, render: Row -> Option<string>, x: string)
    requires forall row :: render(row).Some? ==> EndsLine(render(row).value) && LineCount(render(row).value, x) == 1
    requires Rendered(rows, render).Some?
    ensures var texts := Rendered(rows, render).value;
      forall k :: 0 <= k < |texts| ==> EndsLine(texts[k]) && LineCount(texts[k], x) == 1
  {
    RenderedAll(rows, render);
  }

  lemma ConcatFramed(h: string, b: seq<string>, d: seq<string>, f: string)
    ensures Concat([h] + b + d + [f]) == h + (Concat(b) + (Concat(d) + f))
  {
    ConcatAppend([h] + b + d, [f]);
    ConcatAppend([h] + b, d);
    ConcatAppend([h], b);
    assert Concat([h]) == h + Concat([]);
    assert Concat([f]) == f + Concat([]);
  }
}
