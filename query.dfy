/** `build_sparql_query`: the text of the SPARQL query sent to the Wikidata endpoint.
    Only the string is modelled; nothing is claimed about what the query means. */
module Query {
  import opened Text

  /** The date property: date of birth (P569) for mode `"births"`, date of death (P570)
      for every other mode string. */
  function DateProperty(mode: string): (p: string)
    ensures p == "wdt:P569" <==> mode == "births"
    ensures p == "wdt:P570" <==> mode != "births"
  {
    if mode == "births" then "wdt:P569" else "wdt:P570"
  }

  /** The occupation items of the `IN (...)` list: each identifier prefixed with `wd:`. */
  function OccupationItems(ids: seq<string>): (items: seq<string>)
    ensures |items| == |ids|
    ensures forall i :: 0 <= i < |ids| ==> items[i] == "wd:" + ids[i]
  {
    if ids == [] then [] else ["wd:" + ids[0]] + OccupationItems(ids[1..])
  }

  /** `" ".join([f"wd:{qid}" for qid in occ_qids])`. */
  function OccupationFilter(ids: seq<string>): string
  {
    Join(OccupationItems(ids), ' ')
  }

  /** The lines of the triple-quoted template around its five inserted texts, in
      order; the text after the last line feed is the closing indentation `QueryTail`.
      (The two longest lines are written as two literals each, which keeps the
      verifier's reasoning about literals cheap.) */
  function QueryTemplate(property: string, filter: string, month: string, day: string, lang: string)
    : seq<string>
  {
    [ "",
      "    SELECT ?person ?personLabel" + " ?date ?occLabel WHERE {",
      "      ?person wdt:P31 wd:Q5 .",
      "      OPTIONAL { ?person " + property + " ?date . }",
      "      ?person wdt:P106 ?occ .",
      "      FILTER(?occ IN (" + filter + "))",
      "      FILTER(MONTH(?date) = " + month + " && DAY(?date) = " + day + ")",
      "      SERVICE wikibase:label {" + " bd:serviceParam wikibase:language \"" + lang + ",en\".",
      "        ?person rdfs:label ?personLabel.",
      "        ?occ rdfs:label ?occLabel.",
      "      }",
      "    }",
      "    ORDER BY ?personLabel" ]
  }

  /** The template's lines for one query: month and day are written with `str`, without
      padding. */
  function QueryLines(ids: seq<string>, month: int, day: int, lang: string, mode: string): seq<string>
  {
    QueryTemplate(DateProperty(mode), OccupationFilter(ids), IntToString(month), IntToString(day), lang)
  }

  const QueryTail := "    "

  /** `build_sparql_query(occ_qids, month, day, lang, mode)`. */
  function BuildSparqlQuery(ids: seq<string>, month: int, day: int, lang: string, mode: string): string
  {
    Terminated(QueryLines(ids, month, day, lang, mode)) + QueryTail
  }

  lemma {:induction false} OccupationItemsNoLineFeed(ids: seq<string>)
    requires NoLineFeeds(ids)
    ensures NoLineFeeds(OccupationItems(ids))
  {
    forall i | 0 <= i < |ids|
      ensures '\n' !in OccupationItems(ids)[i]
    {
      assert ids[i] in ids;
      assert OccupationItems(ids)[i] == "wd:" + ids[i];
      assert '\n' !in ids[i];
    }
  }

  lemma {:induction false} JoinNoLineFeed(xs: seq<string>)
    requires NoLineFeeds(xs)
    ensures '\n' !in Join(xs, ' ')
  {
    if |xs| > 1 {
      JoinNoLineFeed(xs[1..]);
    }
  }

  /** With line-feed-free identifiers and language code, the query text consists of
      exactly the thirteen template lines and the closing indentation: the date
      property stands alone in the OPTIONAL line, the occupation list in the first
      FILTER line and the unpadded month and day in one second FILTER line. */
  lemma QueryLayout(ids: seq<string>, month: int, day: int, lang: string, mode: string)
    requires NoLineFeeds(ids) && '\n' !in lang
    ensures SplitOn(BuildSparqlQuery(ids, month, day, lang, mode), '\n')
      == QueryLines(ids, month, day, lang, mode) + [QueryTail]
  {
    QueryLinesNoLineFeed(ids, month, day, lang, mode);
    SplitTerminated(QueryLines(ids, month, day, lang, mode), QueryTail);
    SplitNone(QueryTail, '\n');
  }

  lemma QueryLinesNoLineFeed(ids: seq<string>, month: int, day: int, lang: string, mode: string)
    requires NoLineFeeds(ids) && '\n' !in lang
    ensures NoLineFeeds(QueryLines(ids, month, day, lang, mode))
  {
    OccupationItemsNoLineFeed(ids);
    JoinNoLineFeed(OccupationItems(ids));
    assert '\n' !in IntToString(month) && '\n' !in IntToString(day);
    assert '\n' !in DateProperty(mode);
    TemplateNoLineFeed(DateProperty(mode), OccupationFilter(ids), IntToString(month), IntToString(day), lang);
  }

  lemma TemplateNoLineFeed(property: string, filter: string, month: string, day: string, lang: string)
    requires '\n' !in property && '\n' !in filter && '\n' !in month && '\n' !in day && '\n' !in lang
    ensures NoLineFeeds(QueryTemplate(property, filter, month, day, lang))
  {
    var lines := QueryTemplate(property, filter, month, day, lang);
    SelectLineNoLineFeed();
    HumanLineNoLineFeed();
    OptionalLineNoLineFeed();
    OccupationLineNoLineFeed();
    OccupationFilterLineNoLineFeed();
    DateFilterLineNoLineFeed();
    ServiceLineNoLineFeed();
    ServiceParamNoLineFeed();
    PersonLabelLineNoLineFeed();
    OccupationLabelLineNoLineFeed();
    ClosingLinesNoLineFeed();
    forall i | 0 <= i < |lines| ensures '\n' !in lines[i] {
    }
  }

  // The fixed text of each template line holds no line feed (one lemma per line, as
  // the verifier checks a literal character by character).
  lemma SelectLineNoLineFeed()
    ensures '\n' !in "    SELECT ?person ?personLabel" && '\n' !in " ?date ?occLabel WHERE {"
  {
  }

  lemma HumanLineNoLineFeed()
    ensures '\n' !in "      ?person wdt:P31 wd:Q5 ."
  {
  }

  lemma OptionalLineNoLineFeed()
    ensures '\n' !in "      OPTIONAL { ?person " && '\n' !in " ?date . }"
  {
  }

  lemma OccupationLineNoLineFeed()
    ensures '\n' !in "      ?person wdt:P106 ?occ ."
  {
  }

  /** The occupation FILTER line, and the `wd:` prefix of its items. */
  lemma OccupationFilterLineNoLineFeed()
    ensures '\n' !in "      FILTER(?occ IN (" && '\n' !in "))" && '\n' !in "wd:"
  {
  }

  lemma DateFilterLineNoLineFeed()
    ensures '\n' !in "      FILTER(MONTH(?date) = " && '\n' !in " && DAY(?date) = " && '\n' !in ")"
  {
  }

  /** The label SERVICE line: its opening and the `,en".` after the inserted language. */
  lemma ServiceLineNoLineFeed()
    ensures '\n' !in "      SERVICE wikibase:label {" && '\n' !in ",en\"."
  {
  }

  /** The label SERVICE line: the text between its opening and the inserted language. */
  lemma ServiceParamNoLineFeed()
    ensures '\n' !in " bd:serviceParam wikibase:language \""
  {
  }

  lemma PersonLabelLineNoLineFeed()
    ensures '\n' !in "        ?person rdfs:label ?personLabel."
  {
  }

  lemma OccupationLabelLineNoLineFeed()
    ensures '\n' !in "        ?occ rdfs:label ?occLabel."
  {
  }

  /** The two closing braces and the ORDER BY line. */
  lemma ClosingLinesNoLineFeed()
    ensures '\n' !in "      }" && '\n' !in "    }" && '\n' !in "    ORDER BY ?personLabel"
  {
  }

  /** The occupation list splits on single spaces into the `wd:`-prefixed identifiers, in
      order, as long as no identifier holds a space; an empty list gives `IN ()`. */
  lemma OccupationFilterItems(ids: seq<string>)
    requires forall i :: 0 <= i < |ids| ==> ' ' !in ids[i]
    ensures ids == [] ==> OccupationFilter(ids) == ""
    ensures ids != [] ==> SplitOn(OccupationFilter(ids), ' ') == OccupationItems(ids)
  {
    if ids != [] {
      var items := OccupationItems(ids);
      forall i | 0 <= i < |items| ensures ' ' !in items[i] {
        assert items[i] == "wd:" + ids[i];
      }
      SplitJoin(items, ' ');
    }
  }

  /** The date FILTER line reads back the month and day that were asked for, written
      without zero padding. */
  lemma DateFilterValues(ids: seq<string>, month: int, day: int, lang: string, mode: string)
    ensures var line := QueryLines(ids, month, day, lang, mode)[6];
      var m := IntToString(month);
      var d := IntToString(day);
      line == "      FILTER(MONTH(?date) = " + m + " && DAY(?date) = " + d + ")" &&
      ParseInt(m) == month && ParseInt(d) == day &&
      (month > 0 ==> m[0] != '0') && (day > 0 ==> d[0] != '0')
  {
    IntToStringRoundTrip(month);
    IntToStringRoundTrip(day);
    DateFilterLine(DateProperty(mode), OccupationFilter(ids), IntToString(month), IntToString(day), lang);
  }

  lemma DateFilterLine(property: string, filter: string, month: string, day: string, lang: string)
    ensures QueryTemplate(property, filter, month, day, lang)[6]
      == "      FILTER(MONTH(?date) = " + month + " && DAY(?date) = " + day + ")"
  {
  }
}
