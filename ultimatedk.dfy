/**
 * The live.ultimate.dk scraper: the race page lists the distances of one event in a drop-down;
 * the results of every distance come from a data URL built from the event id and the distance id.
 */
module UltimateDk {
  import opened Wrappers
  import opened Errors
  import opened Text
  import opened Numbers
  import opened Urls
  import opened Tables

  /** An `option` element: its `value` attribute, when present, and its text. */
  datatype Choice = Choice(value: Option<string>, text: string)

  /** What the scraper reads from a downloaded page; None marks an element that is not there. */
  datatype Page = Page(
    raceName: Option<string>,              // the second cell of the race table in `#main_screen`
    distances: Option<seq<Choice>>,        // the options of `#search_distance`
    table: Option<seq<seq<Cell>>>)         // the `tr` elements of `table.search_result_table`

  /** One distance: its id and its name, None for the implicit single distance. */
  datatype Distance = Distance(id: Option<int>, name: Option<string>)

  type Fetch = Url -> Option<Page>

  // ---------------------------------------------------------------------------------------
  // The race URL

  /**
   * `_fix_main_page_url`: the `eventid` parameter of the lower-cased query, on the same scheme and
   * host, under `/desktop/front/`; None when there is no such parameter.
   */
  function FixMainPageUrl(u: Url): Option<Url> {
    match EventId(u)
    case Some(v) => Some(Build(u.scheme, u.netloc, "/desktop/front/", "eventid=" + v, ""))
    case None => None
  }

  /** The first `eventid` value of the lower-cased query. */
  function EventId(u: Url): Option<string> {
    FirstValue(ParseQs(Lower(u.query)), "eventid")
  }

  lemma FixMainPageUrlDefined(u: Url)
    ensures FixMainPageUrl(u).Some? <==> "eventid" in Keys(ParseQs(Lower(u.query)))
  {
    ParseQsWellFormed(Lower(u.query));
    FirstValueOfWellFormed(ParseQs(Lower(u.query)), "eventid");
  }

  /** The fixed URL keeps the scheme and host and carries exactly the event id, which reads back unchanged. */
  lemma FixMainPageUrlQuery(u: Url, name: string)
    requires EventId(u).Some?
    ensures var r := FixMainPageUrl(u).value;
      var v := EventId(u).value;
      && r.scheme == u.scheme && r.netloc == u.netloc && r.path == "/desktop/front/" && r.fragment == ""
      && Lookup(ParseQs(r.query), name) == (if name == "eventid" then Some([v]) else None)
      && FirstValue(ParseQs(r.query), "eventid") == Some(v)
  {
    var q := ParseQs(Lower(u.query));
    var v := EventId(u).value;
    assert FixMainPageUrl(u) == Some(Build(u.scheme, u.netloc, "/desktop/front/", "eventid=" + v, ""));
    ParseQsWellFormed(Lower(u.query));
    FirstValueOfWellFormed(q, "eventid");
    assert "eventid=" + v == "eventid" + "=" + v;
    ParseQsOne("eventid", v, name);
  }

  /** The parameter name is matched in any case, and the event id is lower-cased with it. */
  lemma FixMainPageUrlCaseInsensitive(u: Url, key: string, value: string)
    requires Lower(key) == "eventid" && value != "" && '&' !in value
    requires u.query == key + "=" + value
    ensures FixMainPageUrl(u) == Some(Build(u.scheme, u.netloc, "/desktop/front/", "eventid=" + Lower(value), ""))
  {
    LowerAppend(key, "=" + value);
    LowerAppend("=", value);
    assert Lower("=") == "=";
    assert Lower(u.query) == "eventid" + "=" + Lower(value);
    forall i | 0 <= i < |value| ensures Lower(value)[i] != '&' {
      assert value[i] != '&';
    }
    ParseQsOne("eventid", Lower(value), "eventid");
  }

  // ---------------------------------------------------------------------------------------
  // Distances

  predicate Skipped(c: Choice) {
    c.value.None? || c.value == Some("")
  }

  /**
   * The options with a value, in order, each read as `int(value)`; the first value that is not an
   * integer raises inside the generator, which is caught and ends the list there.
   */
  function OptionDistances(choices: seq<Choice>): (r: seq<Distance>)
    ensures |r| <= |choices|
    ensures forall i :: 0 <= i < |r| ==> r[i].id.Some? && r[i].name.Some?
  {
    if choices == [] then []
    else
      var c := choices[0];
      if Skipped(c) then OptionDistances(choices[1..])
      else
        match ParseInt(c.value.value)
        case None => []
        case Some(id) => [Distance(Some(id), Some(c.text))] + OptionDistances(choices[1..])
  }

  /**
   * `_get_distances`: no drop-down gives no distances, a drop-down without options one implicit
   * distance, otherwise the distances of the options.
   */
  function Distances(p: Page): seq<Distance> {
    match p.distances
    case None => []
    case Some(choices) => if choices == [] then [Distance(None, None)] else OptionDistances(choices)
  }

  method GetDistances(p: Page) returns (r: seq<Distance>)
    ensures r == Distances(p)
  {
    if p.distances.None? {
      return [];
    }
    var choices := p.distances.value;
    if |choices| == 0 {
      return [Distance(None, None)];
    }
    r := [];
    var i := 0;
    while i < |choices|
      invariant 0 <= i <= |choices|
      invariant OptionDistances(choices) == r + OptionDistances(choices[i..])
    {
      assert choices[i..][1..] == choices[i + 1..];
      var c := choices[i];
      if !Skipped(c) {
        var id := ParseInt(c.value.value);
        if id.None? {
          assert r + [] == r;
          return r;
        }
        r := r + [Distance(Some(id.value), Some(c.text))];
      }
      i := i + 1;
    }
    assert r + [] == r;
  }

  /** A value that is not an integer ends the list: the options after it are never read. */
  lemma {:induction false} OptionDistancesStop(choices: seq<Choice>, k: nat)
    requires k < |choices| && !Skipped(choices[k]) && ParseInt(choices[k].value.value).None?
    ensures OptionDistances(choices) == OptionDistances(choices[..k])
  {
    if k == 0 {
      OptionDistancesHeadStops(choices);
      assert choices[..0] == [];
    } else {
      var rest, init := choices[1..], choices[..k];
      assert OptionDistances(rest) == OptionDistances(init[1..]) by {
        assert rest[k - 1] == choices[k];
        OptionDistancesStop(rest, k - 1);
        assert rest[..k - 1] == init[1..];
      }
      OptionDistancesSameHead(choices, init);
    }
  }

  lemma OptionDistancesHeadStops(choices: seq<Choice>)
    requires choices != [] && !Skipped(choices[0]) && ParseInt(choices[0].value.value).None?
    ensures OptionDistances(choices) == []
  {
  }

  /** Two lists of options with the same first option and the same distances after it. */
  lemma OptionDistancesSameHead(a: seq<Choice>, b: seq<Choice>)
    requires a != [] && b != [] && a[0] == b[0] && OptionDistances(a[1..]) == OptionDistances(b[1..])
    ensures OptionDistances(a) == OptionDistances(b)
  {
  }

  /** The options that carry a value, in order. */
  function Valued(choices: seq<Choice>): (r: seq<Choice>)
    ensures forall c :: c in r <==> c in choices && !Skipped(c)
  {
    if choices == [] then []
    else (if Skipped(choices[0]) then [] else [choices[0]]) + Valued(choices[1..])
  }

  function AsDistance(c: Choice): Distance
    requires !Skipped(c)
  {
    Distance(ParseInt(c.value.value), Some(c.text))
  }

  /** Every option read as a distance. */
  function AsDistances(cs: seq<Choice>): (r: seq<Distance>)
    requires forall c :: c in cs ==> !Skipped(c)
    ensures |r| == |cs| && forall i :: 0 <= i < |cs| ==> r[i] == AsDistance(cs[i])
  {
    if cs == [] then [] else [AsDistance(cs[0])] + AsDistances(cs[1..])
  }

  /** When every value is an integer, the distances are the options with a value, each read in order. */
  lemma {:induction false} OptionDistancesAll(choices: seq<Choice>)
    requires forall c :: c in choices && !Skipped(c) ==> ParseInt(c.value.value).Some?
    ensures OptionDistances(choices) == AsDistances(Valued(choices))
  {
    if choices != [] {
      var c, rest := choices[0], choices[1..];
      assert forall x :: x in rest ==> x in choices;
      OptionDistancesAll(rest);
      if !Skipped(c) {
        var w := [c] + Valued(rest);
        assert Valued(choices) == w;
        assert w[1..] == Valued(rest);
      } else {
        assert Valued(choices) == [] + Valued(rest);
        assert [] + Valued(rest) == Valued(rest);
      }
    }
  }

  // ---------------------------------------------------------------------------------------
  // The data URL

  /** The query of `DATA_URL_TEMPLATE` with the event id and the distance id filled in, field by field. */
  function DataParams(eventId: string, distanceId: int): seq<(string, string)> {
    [("results_startrecord", "1000000"), ("eventid", eventId), ("mode", "results"),
     ("distance", IntToString(distanceId)), ("category", ""), ("language", "us")]
  }

  function DataUrl(eventId: string, distanceId: int): Url {
    Build("https", "live.ultimate.dk", "/desktop/front/data.php", JoinWith(Written(DataParams(eventId, distanceId)), '&'), "")
  }

  /** The data URL carries the event id and the distance id, and the distance id reads back as the integer. */
  lemma DataUrlQuery(eventId: string, distanceId: int)
    requires eventId != "" && '&' !in eventId
    ensures var q := ParseQs(DataUrl(eventId, distanceId).query);
      && Lookup(q, "eventid") == Some([eventId])
      && Lookup(q, "distance") == Some([IntToString(distanceId)])
      && ParseInt(FirstValue(q, "distance").value) == Some(distanceId)
      && Lookup(q, "category") == None
  {
    var d := IntToString(distanceId);
    var ps := DataParams(eventId, distanceId);
    DigitsNoAmpersand(distanceId);
    DataParamsShape(eventId, distanceId);
    LookupWritten(ps, "eventid");
    LookupWritten(ps, "distance");
    LookupWritten(ps, "category");
    DataNonBlank(eventId, d);
    DataValues(eventId, d);
    ParseIntToString(distanceId);
  }

  lemma DigitsNoAmpersand(i: int)
    ensures '&' !in IntToString(i)
  {
    var s := IntToString(i);
    var digits := NatToString(if i < 0 then -i else i);
    forall k | 0 <= k < |digits| ensures digits[k] != '&' {
      assert IsDigit(digits[k]);
    }
    if i < 0 {
      assert s == "-" + digits;
    }
  }

  lemma DataParamsShape(eventId: string, distanceId: int)
    requires '&' !in eventId && '&' !in IntToString(distanceId)
    ensures var ps := DataParams(eventId, distanceId);
      forall i :: 0 <= i < |ps| ==> '=' !in ps[i].0 && '&' !in ps[i].0 && '&' !in ps[i].1
  {
    var ps := DataParams(eventId, distanceId);
    forall i | 0 <= i < |ps| ensures '=' !in ps[i].0 && '&' !in ps[i].0 && '&' !in ps[i].1 {
      if i == 0 {
        assert ps[i] == ("results_startrecord", "1000000");
      } else if i == 1 {
        assert ps[i] == ("eventid", eventId);
      } else if i == 2 {
        assert ps[i] == ("mode", "results");
      } else if i == 3 {
        assert ps[i] == ("distance", IntToString(distanceId));
      } else if i == 4 {
        assert ps[i] == ("category", "");
      } else {
        assert ps[i] == ("language", "us");
      }
    }
  }

  function DataPairs(eventId: string, d: string): seq<(string, string)> {
    [("results_startrecord", "1000000"), ("eventid", eventId), ("mode", "results"), ("distance", d), ("language", "us")]
  }

  lemma DataNonBlank(eventId: string, d: string)
    requires eventId != "" && d != ""
    ensures NonBlank([("results_startrecord", "1000000"), ("eventid", eventId), ("mode", "results"),
      ("distance", d), ("category", ""), ("language", "us")]) == DataPairs(eventId, d)
  {
    NonBlankSix(("results_startrecord", "1000000"), ("eventid", eventId), ("mode", "results"),
      ("distance", d), ("category", ""), ("language", "us"));
  }

  lemma NonBlankSix(p0: (string, string), p1: (string, string), p2: (string, string), p3: (string, string),
                    p4: (string, string), p5: (string, string))
    requires p0.1 != "" && p1.1 != "" && p2.1 != "" && p3.1 != "" && p4.1 == "" && p5.1 != ""
    ensures NonBlank([p0, p1, p2, p3, p4, p5]) == [p0, p1, p2, p3, p5]
  {
    var t5 := [p5];
    var t4 := [p4] + t5;
    var t3 := [p3] + t4;
    var t2 := [p2] + t3;
    var t1 := [p1] + t2;
    var t0 := [p0] + t1;
    assert t0 == [p0, p1, p2, p3, p4, p5];
    NonBlankCons(p5, []);
    assert [p5] + [] == t5;
    NonBlankCons(p4, t5);
    NonBlankCons(p3, t4);
    NonBlankCons(p2, t3);
    NonBlankCons(p1, t2);
    NonBlankCons(p0, t1);
    assert NonBlank(t0) == [p0] + ([p1] + ([p2] + ([p3] + [p5])));
  }

  lemma NonBlankCons(p: (string, string), rest: seq<(string, string)>)
    ensures NonBlank([p] + rest) == (if p.1 == "" then [] else [p]) + NonBlank(rest)
  {
    assert ([p] + rest)[1..] == rest;
  }

  lemma DataValues(eventId: string, d: string)
    ensures ValuesOf(DataPairs(eventId, d), "eventid") == [eventId]
    ensures ValuesOf(DataPairs(eventId, d), "distance") == [d]
    ensures ValuesOf(DataPairs(eventId, d), "category") == []
  {
    var ps := DataPairs(eventId, d);
    ValuesOfFive(ps, "eventid");
    ValuesOfFive(ps, "distance");
    ValuesOfFive(ps, "category");
    assert "distance"[0] != "language"[0] && "category"[0] != "language"[0] && "category"[0] != "distance"[0];
  }

  function ValueIf(p: (string, string), name: string): seq<string> {
    if p.0 == name then [p.1] else []
  }

  lemma ValuesOfFive(ps: seq<(string, string)>, name: string)
    requires |ps| == 5
    ensures ValuesOf(ps, name) ==
      ValueIf(ps[0], name) + ValueIf(ps[1], name) + ValueIf(ps[2], name) + ValueIf(ps[3], name) + ValueIf(ps[4], name)
  {
    var v0, v1, v2, v3, v4 := ValueIf(ps[0], name), ValueIf(ps[1], name), ValueIf(ps[2], name), ValueIf(ps[3], name), ValueIf(ps[4], name);
    assert ValuesOf(ps[..1], name) == v0 by {
      assert ValuesOf(ps[..0], name) == [];
      ValuesOfStep(ps, 0, name);
    }
    assert ValuesOf(ps[..2], name) == v0 + v1 by { ValuesOfStep(ps, 1, name); }
    assert ValuesOf(ps[..3], name) == v0 + v1 + v2 by { ValuesOfStep(ps, 2, name); }
    assert ValuesOf(ps[..4], name) == v0 + v1 + v2 + v3 by { ValuesOfStep(ps, 3, name); }
    assert ValuesOf(ps[..5], name) == v0 + v1 + v2 + v3 + v4 by { ValuesOfStep(ps, 4, name); }
    assert ps[..5] == ps;
  }

  lemma ValuesOfStep(ps: seq<(string, string)>, k: nat, name: string)
    requires k < |ps|
    ensures ValuesOf(ps[..k + 1], name) == ValuesOf(ps[..k], name) + ValueIf(ps[k], name)
  {
    assert ps[..k + 1][..k] == ps[..k];
  }

  // ---------------------------------------------------------------------------------------
  // The results of one distance

  /** The results table's cells: `td` only, header row included. */
  const DataCells: set<string> := {"td"}

  /**
   * `_get_results_from_distance`: a failed download gives no rows; a page without the results
   * table or with an empty one raises; every `td` of the first row names a column, and every
   * later row is labelled by its `td` cells.
   */
  function DistanceRows(page: Option<Page>): Result<seq<Row>, Error> {
    match page
    case None => Ok([])
    case Some(p) =>
      match p.table
      case None => Err(Crash("AttributeError: the page has no results table"))
      case Some(rows) =>
        if rows == [] then Err(Crash("IndexError: the results table has no rows"))
        else
          Ok(LabelledRows(HeaderMap(Filter(rows[0], DataCells), false), rows[1..]))
  }

  /** Every row after the header, labelled by its `td` cells. */
  function LabelledRows(h: Headers, body: seq<seq<Cell>>): seq<Row> {
    seq(|body|, i requires 0 <= i < |body| => Label(h, Filter(body[i], DataCells)))
  }

  /** The row loop of `_get_results_from_distance`: one labelled row per body row, in order. */
  method LabelDistanceRows(h: Headers, body: seq<seq<Cell>>) returns (out: seq<Row>)
    ensures |out| == |body|
    ensures forall k :: 0 <= k < |body| ==> out[k] == Label(h, Filter(body[k], DataCells))
  {
    out := [];
    var i := 0;
    while i < |body|
      invariant 0 <= i <= |body|
      invariant |out| == i
      invariant forall k :: 0 <= k < i ==> out[k] == Label(h, Filter(body[k], DataCells))
    {
      var row := LabelRow(h, Filter(body[i], DataCells));
      out := out + [row];
      i := i + 1;
    }
  }

  method ResultsFromDistance(u: Url, fetch: Fetch) returns (r: Result<seq<Row>, Error>)
    ensures r == DistanceRows(fetch(u))
  {
    var page := fetch(u);
    if page.None? {
      return Ok([]);
    }
    if page.value.table.None? {
      return Err(Crash("AttributeError: the page has no results table"));
    }
    var rows := page.value.table.value;
    if |rows| == 0 {
      return Err(Crash("IndexError: the results table has no rows"));
    }
    var headers := HeaderMap(Filter(rows[0], DataCells), false);
    var out := LabelDistanceRows(headers, rows[1..]);
    assert out == LabelledRows(headers, rows[1..]);
    r := Ok(out);
  }

  /** Every header cell names a column: unlike the other scrapers, none is skipped. */
  lemma DistanceHeaders(rows: seq<seq<Cell>>, i: nat)
    requires rows != [] && i < |Filter(rows[0], DataCells)|
    ensures var h := HeaderMap(Filter(rows[0], DataCells), false);
      i in h && h[i] == ColumnName(Filter(rows[0], DataCells)[i])
  {
  }

  // ---------------------------------------------------------------------------------------
  // The race page

  /** The rows of all distances in order, each stamped with the race and the distance name, or the first error. */
  function DistanceResults(ds: seq<Distance>, race: string, eventId: string, fetch: Fetch): Result<seq<Row>, Error> {
    if ds == [] then Ok([])
    else
      match DistanceResults(ds[..|ds| - 1], race, eventId, fetch)
      case Err(e) => Err(e)
      case Ok(rows) =>
        var d := ds[|ds| - 1];
        match DistanceRows(fetch(DataUrl(eventId, d.id.GetOr(1))))
        case Err(e) => Err(e)
        case Ok(more) => Ok(rows + Stamped(more, race, d.name.GetOr(race)))
  }

  /**
   * `_get_results_from_main`: a page without the race name raises, and so does a race URL without
   * an `eventid` parameter.
   */
  function MainResults(p: Page, base: Url, fetch: Fetch): Result<seq<Row>, Error> {
    match p.raceName
    case None => Err(Crash("AttributeError: the page has no race name"))
    case Some(race) =>
      match FirstValue(ParseQs(base.query), "eventid")
      case None => Err(Crash("KeyError: the race URL has no eventid"))
      case Some(eventId) => DistanceResults(Distances(p), race, eventId, fetch)
  }

  lemma {:induction false} DistanceResultsErr(ds: seq<Distance>, race: string, eventId: string, fetch: Fetch, k: nat)
    requires k <= |ds|
    requires DistanceResults(ds[..k], race, eventId, fetch).Err?
    ensures DistanceResults(ds, race, eventId, fetch) == DistanceResults(ds[..k], race, eventId, fetch)
    decreases |ds|
  {
    if k < |ds| {
      var init := ds[..|ds| - 1];
      assert init[..k] == ds[..k];
      DistanceResultsErr(init, race, eventId, fetch, k);
    } else {
      assert ds[..k] == ds;
    }
  }

  lemma DistanceResultsStep(ds: seq<Distance>, race: string, eventId: string, fetch: Fetch, i: nat, rows: seq<Row>)
    requires i < |ds| && DistanceResults(ds[..i], race, eventId, fetch) == Ok(rows)
    ensures DistanceResults(ds[..i + 1], race, eventId, fetch) ==
      match DistanceRows(fetch(DataUrl(eventId, ds[i].id.GetOr(1))))
      case Err(e) => Err(e)
      case Ok(more) => Ok(rows + Stamped(more, race, ds[i].name.GetOr(race)))
  {
    assert ds[..i + 1][..i] == ds[..i];
  }

  /** The rows of one distance, stamped; the implicit distance has id 1 and the race's name. */
  method DistanceStep(d: Distance, race: string, eventId: string, fetch: Fetch) returns (r: Result<seq<Row>, Error>)
    ensures r == match DistanceRows(fetch(DataUrl(eventId, d.id.GetOr(1))))
      case Err(e) => Err(e)
      case Ok(more) => Ok(Stamped(more, race, d.name.GetOr(race)))
  {
    var id := if d.id.None? then 1 else d.id.value;
    var name := if d.name.None? then race else d.name.value;
    var results := ResultsFromDistance(DataUrl(eventId, id), fetch);
    if results.Err? {
      return Err(results.error);
    }
    var stamped := Stamp(results.value, race, name);
    r := Ok(stamped);
  }

  method ResultsFromMain(p: Page, base: Url, fetch: Fetch) returns (r: Result<seq<Row>, Error>)
    ensures r == MainResults(p, base, fetch)
  {
    if p.raceName.None? {
      return Err(Crash("AttributeError: the page has no race name"));
    }
    var race := p.raceName.value;
    var eventId := FirstValue(ParseQs(base.query), "eventid");
    if eventId.None? {
      return Err(Crash("KeyError: the race URL has no eventid"));
    }
    var ds := GetDistances(p);
    var rows: seq<Row> := [];
    var i := 0;
    while i < |ds|
      invariant 0 <= i <= |ds|
      invariant DistanceResults(ds[..i], race, eventId.value, fetch) == Ok(rows)
    {
      var step := DistanceStep(ds[i], race, eventId.value, fetch);
      DistanceResultsStep(ds, race, eventId.value, fetch, i, rows);
      if step.Err? {
        DistanceResultsErr(ds, race, eventId.value, fetch, i + 1);
        return Err(step.error);
      }
      rows := rows + step.value;
      i := i + 1;
    }
    assert ds[..|ds|] == ds;
    r := Ok(rows);
  }

  /** `get_results`: an unfixable URL or a failed download gives no rows. */
  method GetResults(u: Url, fetch: Fetch) returns (r: Result<seq<Row>, Error>)
    ensures FixMainPageUrl(u).None? ==> r == Ok([])
    ensures FixMainPageUrl(u).Some? && fetch(FixMainPageUrl(u).value).None? ==> r == Ok([])
    ensures FixMainPageUrl(u).Some? && fetch(FixMainPageUrl(u).value).Some? ==>
      r == MainResults(fetch(FixMainPageUrl(u).value).value, FixMainPageUrl(u).value, fetch)
  {
    var url := FixMainPageUrl(u);
    if url.None? {
      return Ok([]);
    }
    var page := fetch(url.value);
    if page.None? {
      return Ok([]);
    }
    r := ResultsFromMain(page.value, url.value, fetch);
  }

  // ---------------------------------------------------------------------------------------
  // Properties of the whole scrape

  /** After the URL is fixed the event id is always found, so the KeyError cannot happen. */
  lemma FixedUrlHasEventId(u: Url)
    requires EventId(u).Some?
    ensures FirstValue(ParseQs(FixMainPageUrl(u).value.query), "eventid") == EventId(u)
  {
    FixMainPageUrlQuery(u, "eventid");
  }

  /** Every row carries the race name, and the name of one of the distances. */
  lemma {:induction false} DistanceResultsStamped(ds: seq<Distance>, race: string, eventId: string, fetch: Fetch)
    requires DistanceResults(ds, race, eventId, fetch).Ok?
    ensures forall row :: row in DistanceResults(ds, race, eventId, fetch).value ==>
      "RaceName" in row && row["RaceName"] == race &&
      "EventName" in row && exists d :: d in ds && row["EventName"] == d.name.GetOr(race)
    decreases |ds|
  {
    if ds != [] {
      var init, d := ds[..|ds| - 1], ds[|ds| - 1];
      DistanceResultsStamped(init, race, eventId, fetch);
      var rows := DistanceResults(init, race, eventId, fetch).value;
      var more := DistanceRows(fetch(DataUrl(eventId, d.id.GetOr(1)))).value;
      forall row | row in DistanceResults(ds, race, eventId, fetch).value
        ensures "RaceName" in row && row["RaceName"] == race
        ensures "EventName" in row && exists e :: e in ds && row["EventName"] == e.name.GetOr(race)
      {
        if row in rows {
          var e :| e in init && row["EventName"] == e.name.GetOr(race);
          assert e in ds;
        } else {
          assert row in Stamped(more, race, d.name.GetOr(race));
          assert d in ds;
        }
      }
    }
  }

  /** `DistanceResults` is the generic stamped read of the distances. */
  lemma {:induction false} DistanceResultsRead(ds: seq<Distance>, race: string, eventId: string, fetch: Fetch)
    ensures DistanceResults(ds, race, eventId, fetch) ==
      StampedReads(ds, race, (d: Distance) => DistanceRows(fetch(DataUrl(eventId, d.id.GetOr(1)))), (d: Distance) => d.name.GetOr(race))
    decreases |ds|
  {
    if ds != [] {
      DistanceResultsRead(ds[..|ds| - 1], race, eventId, fetch);
    }
  }

  /**
   * Block i is the rows of the data page of distance i (id 1 when it has none), stamped with the
   * race name and the name of distance i (the race name when it has none).
   */
  ghost predicate DistanceBlocks(blocks: seq<seq<Row>>, ds: seq<Distance>, race: string, eventId: string, fetch: Fetch) {
    |blocks| == |ds| &&
    forall i :: 0 <= i < |ds| ==>
      DistanceRows(fetch(DataUrl(eventId, ds[i].id.GetOr(1)))).Ok? &&
      blocks[i] == Stamped(DistanceRows(fetch(DataUrl(eventId, ds[i].id.GetOr(1)))).value, race, ds[i].name.GetOr(race))
  }

  /** The rows of the race are one block per distance, in the order of the distances. */
  lemma DistanceResultsBlocks(ds: seq<Distance>, race: string, eventId: string, fetch: Fetch)
    requires DistanceResults(ds, race, eventId, fetch).Ok?
    ensures exists blocks ::
        DistanceBlocks(blocks, ds, race, eventId, fetch) && Flatten(blocks) == DistanceResults(ds, race, eventId, fetch).value
  {
    var read := (d: Distance) => DistanceRows(fetch(DataUrl(eventId, d.id.GetOr(1))));
    var name := (d: Distance) => d.name.GetOr(race);
    DistanceResultsRead(ds, race, eventId, fetch);
    StampedReadsBlocks(ds, race, read, name);
    var blocks :| ReadBlocks(blocks, ds, race, read, name) && Flatten(blocks) == DistanceResults(ds, race, eventId, fetch).value;
    assert DistanceBlocks(blocks, ds, race, eventId, fetch);
  }

  /** A drop-down without options means one distance, id 1, named after the race. */
  lemma ImplicitDistance(p: Page, base: Url, fetch: Fetch)
    requires p.raceName.Some? && p.distances == Some([])
    requires FirstValue(ParseQs(base.query), "eventid").Some?
    ensures var eventId := FirstValue(ParseQs(base.query), "eventid").value;
      MainResults(p, base, fetch) ==
        match DistanceRows(fetch(DataUrl(eventId, 1)))
        case Ok(rows) => Ok(Stamped(rows, p.raceName.value, p.raceName.value))
        case Err(e) => Err(e)
  {
    var eventId := FirstValue(ParseQs(base.query), "eventid").value;
    var ds := Distances(p);
    var race := p.raceName.value;
    assert ds == [Distance(None, None)];
    DistanceResultsRead(ds, race, eventId, fetch);
    StampedReadsOne(ds, race, (d: Distance) => DistanceRows(fetch(DataUrl(eventId, d.id.GetOr(1)))), (d: Distance) => d.name.GetOr(race));
  }

  /** Without the drop-down there is nothing to read. */
  lemma NoDistancesNoRows(p: Page, base: Url, fetch: Fetch)
    requires p.raceName.Some? && p.distances.None?
    requires FirstValue(ParseQs(base.query), "eventid").Some?
    ensures MainResults(p, base, fetch) == Ok([])
  {
  }
}
