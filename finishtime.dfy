/**
 * The results.finishtime.co.za scraper. A race page lists its events either as links or as a
 * drop-down; every event's results are spread over numbered pages, each holding one results
 * grid; every row is stamped with the race and event names.
 *
 * Fetching a page is the parameter `fetch`: it returns the page as far as the scraper looks at
 * it, or None when the download failed.
 */
module Finishtime {
  import opened Wrappers
  import opened Errors
  import opened Text
  import opened Numbers
  import opened Urls
  import opened Tables

  /** An event link: its text and its `href`, already resolved against the race URL. */
  datatype Anchor = Anchor(text: string, href: Option<Url>)

  /** A `li` of the event list, with its first `a` if it has one. */
  datatype EventItem = EventItem(anchor: Option<Anchor>)

  /** An `option` of the event drop-down: its text and its `value` attribute. */
  datatype Choice = Choice(text: string, value: Option<string>)

  /** The page's `aspnetForm`, and its `action`, already resolved against the race URL. */
  datatype Form = NoForm | Form(action: Option<Url>)

  /** What the scraper reads from a downloaded page; None marks an element that is not there. */
  datatype Page = Page(
    raceName: Option<string>,               // ctl00_lblRaceName
    eventList: Option<seq<EventItem>>,      // the `li` elements of ctl00_Content_Main_divEvents
    dropdown: Option<seq<Choice>>,          // the `option` elements of ctl00_Content_Main_cbEvent
    form: Form,
    pagerLabel: Option<string>,             // ctl00_Content_Main_lblTopPager
    pagerCells: Option<seq<string>>,        // the `td` texts of ctl00_Content_Main_grdTopPager
    grid: Option<seq<seq<Cell>>>)           // the `tr` elements of ctl00_Content_Main_divGrid

  /** An event: its name and URL, None for the implicit single event. */
  datatype Event = Event(name: Option<string>, url: Option<Url>)

  type Fetch = Url -> Option<Page>

  // ---------------------------------------------------------------------------------------
  // The race URL

  /** `_fix_main_page_url`: keep scheme, host and path, and only the first `CId` and `RId`. */
  function FixMainPageUrl(u: Url): Option<Url> {
    var q := ParseQs(u.query);
    match (FirstValue(q, "CId"), FirstValue(q, "RId"))
    case (Some(cid), Some(rid)) => Some(Build(u.scheme, u.netloc, u.path, "CId" + "=" + cid + "&" + "RId" + "=" + rid, ""))
    case _ => None
  }

  /** The URL can be fixed exactly when both `CId` and `RId` are present, compared case-sensitively. */
  lemma FixMainPageUrlDefined(u: Url)
    ensures FixMainPageUrl(u).Some? <==> "CId" in Keys(ParseQs(u.query)) && "RId" in Keys(ParseQs(u.query))
  {
    ParseQsWellFormed(u.query);
    FirstValueOfWellFormed(ParseQs(u.query), "CId");
    FirstValueOfWellFormed(ParseQs(u.query), "RId");
  }

  /**
   * The fixed URL keeps scheme, host and path, drops the fragment, and its query holds exactly the
   * first `CId` and the first `RId` of the original.
   */
  lemma FixMainPageUrlQuery(u: Url, name: string)
    requires FixMainPageUrl(u).Some?
    ensures var r := FixMainPageUrl(u).value;
      && r.scheme == u.scheme && r.netloc == u.netloc && r.path == u.path && r.fragment == ""
      && Lookup(ParseQs(r.query), name) ==
        if name == "CId" then Some([FirstValue(ParseQs(u.query), "CId").value])
        else if name == "RId" then Some([FirstValue(ParseQs(u.query), "RId").value])
        else None
  {
    var q := ParseQs(u.query);
    ParseQsWellFormed(u.query);
    FirstValueOfWellFormed(q, "CId");
    FirstValueOfWellFormed(q, "RId");
    var cid, rid := FirstValue(q, "CId").value, FirstValue(q, "RId").value;
    var r := FixMainPageUrl(u).value;
    assert r.query == "CId" + "=" + cid + "&" + "RId" + "=" + rid;
    assert "CId"[0] != "RId"[0];
    TwoFieldQuery(r.query, "CId", cid, "RId", rid, name);
  }

  // ---------------------------------------------------------------------------------------
  // Overriding query parameters

  /** `_append_query_parameters`: parse the query, update it with the additions, encode it again. */
  function AppendQuery(u: Url, additions: seq<(string, string)>): Url {
    Build(u.scheme, u.netloc, u.path, Encode(SetAll(ParseQs(u.query), additions)), u.fragment)
  }

  method AppendQueryParameters(u: Url, additions: seq<(string, string)>) returns (r: Url)
    ensures r == AppendQuery(u, additions)
  {
    var params := ParseQs(u.query);
    var i := 0;
    while i < |additions|
      invariant 0 <= i <= |additions|
      invariant params == SetAll(ParseQs(u.query), additions[..i])
    {
      assert additions[..i + 1][..i] == additions[..i];
      params := Set(params, additions[i].0, additions[i].1);
      i := i + 1;
    }
    assert additions[..|additions|] == additions;
    r := Build(u.scheme, u.netloc, u.path, Encode(params), u.fragment);
  }

  /**
   * After the update every added name has its last added value as its only value, and every other
   * name keeps all its values; scheme, host, path and fragment are kept.
   */
  lemma AppendQueryLookup(u: Url, additions: seq<(string, string)>, name: string)
    requires forall i :: 0 <= i < |additions| ==> GoodPair(additions[i])
    ensures var r := AppendQuery(u, additions);
      && r.scheme == u.scheme && r.netloc == u.netloc && r.path == u.path && r.fragment == u.fragment
      && Lookup(ParseQs(r.query), name) ==
        match LastValue(additions, name) case Some(v) => Some([v]) case None => Lookup(ParseQs(u.query), name)
  {
    ParseQsWellFormed(u.query);
    SetAllWellFormed(ParseQs(u.query), additions);
    ParseQsEncode(SetAll(ParseQs(u.query), additions), name);
    LookupSetAll(ParseQs(u.query), additions, name);
  }

  /** The URL of one results page: `dt=0` and `PageNo=<page>` set over the event URL's query. */
  function PageUrl(u: Url, page: nat): Url {
    AppendQuery(u, [("dt", "0"), ("PageNo", NatToString(page))])
  }

  function PageUrls(u: Url, n: nat): (r: seq<Url>)
    ensures |r| == n
    ensures forall i :: 0 <= i < n ==> r[i] == PageUrl(u, i + 1)
  {
    if n == 0 then [] else PageUrls(u, n - 1) + [PageUrl(u, n)]
  }

  lemma DigitsHaveNoAmpersand(s: string)
    requires AllDigits(s)
    ensures '&' !in s
  {
    forall i | 0 <= i < |s| ensures s[i] != '&' {
      assert IsDigit(s[i]);
    }
  }

  lemma PageAdditions(d: string, name: string)
    requires AllDigits(d) && d != ""
    ensures var additions := [("dt", "0"), ("PageNo", d)];
      && (forall i :: 0 <= i < |additions| ==> GoodPair(additions[i]))
      && LastValue(additions, "PageNo") == Some(d)
      && LastValue(additions, "dt") == Some("0")
      && (name != "dt" && name != "PageNo" ==> LastValue(additions, name).None?)
  {
    DigitsHaveNoAmpersand(d);
    LastValueTwo("dt", "0", "PageNo", d, "PageNo");
    LastValueTwo("dt", "0", "PageNo", d, "dt");
    LastValueTwo("dt", "0", "PageNo", d, name);
  }

  /**
   * A page URL yields the page number back as `PageNo` and `0` as `dt`; every other parameter of
   * the event URL is unchanged.
   */
  lemma PageUrlQuery(u: Url, page: nat, name: string)
    ensures var q := ParseQs(PageUrl(u, page).query);
      && FirstValue(q, "PageNo") == Some(NatToString(page))
      && ParseInt(FirstValue(q, "PageNo").value) == Some(page)
      && Lookup(q, "dt") == Some(["0"])
      && (name != "dt" && name != "PageNo" ==> Lookup(q, name) == Lookup(ParseQs(u.query), name))
  {
    var additions := [("dt", "0"), ("PageNo", NatToString(page))];
    PageAdditions(NatToString(page), name);
    AppendQueryLookup(u, additions, "PageNo");
    AppendQueryLookup(u, additions, "dt");
    AppendQueryLookup(u, additions, name);
    ParseIntToString(page);
  }

  // ---------------------------------------------------------------------------------------
  // The number of pages

  /** Where `.*of (\d+)` can place its `of `: no line break before it, a digit after it. */
  predicate OfAt(t: string, i: nat) {
    i + 3 < |t| && t[i..i + 3] == "of " && IsDigit(t[i + 3]) && '\n' !in t[..i]
  }

  /** The last such place before `k`: the greedy `.*` backtracks from the right. */
  function LastOfAt(t: string, k: nat): (r: Option<nat>)
    requires k <= |t|
    ensures r.Some? ==> r.value < k && OfAt(t, r.value) && forall j: nat :: r.value < j < k ==> !OfAt(t, j)
    ensures r.None? ==> forall j: nat :: j < k ==> !OfAt(t, j)
  {
    if k == 0 then None
    else if OfAt(t, k - 1) then Some(k - 1)
    else LastOfAt(t, k - 1)
  }

  /** The digits `(\d+)` takes at the start of `s`, as a number, when there is at least one. */
  function LeadingCount(s: string): (r: Option<nat>)
    ensures r.Some? <==> s != [] && IsDigit(s[0])
  {
    var n := DigitRun(s);
    if n == 0 then None else Some(DecimalValue(s[..n]))
  }

  /** `re.match(r".*of (\d+).*", label)`, as the number its group gives. */
  function LabelCount(caption: string): (r: Option<nat>)
    ensures r.Some? <==> exists i: nat :: OfAt(caption, i)
  {
    match LastOfAt(caption, |caption|)
    case Some(i) => LeadingCount(caption[i + 3..])
    case None => None
  }

  /** `_get_number_of_pages`; every failure (a missing page, label or pager grid, an empty grid) gives 0. */
  function NumberOfPages(page: Option<Page>): nat {
    match page
    case None => 0
    case Some(p) =>
      match p.pagerLabel
      case None => 0
      case Some(caption) =>
        match LabelCount(caption)
        case Some(n) => n
        case None =>
          match p.pagerCells
          case None => 0
          case Some(cells) =>
            if cells == [] then 0
            else LeadingCount(cells[|cells| - 1]).GetOr(0)
  }

  lemma DigitRunAll(s: string)
    requires AllDigits(s)
    ensures DigitRun(s) == |s|
  {
    if s != [] {
      assert AllDigits(s[1..]) by {
        forall i | 0 <= i < |s[1..]| ensures IsDigit(s[1..][i]) {
          assert s[1..][i] == s[i + 1];
        }
      }
      DigitRunAll(s[1..]);
    }
  }

  /** A pager label written as `<text> of <n>` gives back `n`. */
  lemma LabelCountOfWritten(prefix: string, n: nat)
    requires '\n' !in prefix
    ensures LabelCount(prefix + "of " + NatToString(n)) == Some(n)
  {
    var d := NatToString(n);
    var t := prefix + "of " + d;
    var p := |prefix|;
    assert t[..p] == prefix && t[p..p + 3] == "of " && t[p + 3..] == d;
    assert t[p + 3] == d[0];
    assert OfAt(t, p);
    forall j: nat | p < j < |t| ensures !OfAt(t, j) {
      if j + 3 < |t| {
        assert t[j..j + 3][0] == t[j];
        if j < p + 3 {
          assert t[j] == "of "[j - p];
        } else {
          assert t[j] == d[j - p - 3];
        }
      }
    }
    var i := LastOfAt(t, |t|).value;
    assert i == p;
    DigitRunAll(d);
    assert d[..|d|] == d;
  }

  /** A pager label `<text> of <n>` gives `n` pages, whatever the pager grid holds. */
  lemma NumberOfPagesFromLabel(p: Page, prefix: string, n: nat)
    requires '\n' !in prefix && p.pagerLabel == Some(prefix + "of " + NatToString(n))
    ensures NumberOfPages(Some(p)) == n
  {
    LabelCountOfWritten(prefix, n);
  }

  /** A cell written as `<n>` followed by no further digit gives back `n`. */
  lemma LeadingCountOfWritten(n: nat, rest: string)
    requires rest == [] || !IsDigit(rest[0])
    ensures LeadingCount(NatToString(n) + rest) == Some(n)
  {
    var d := NatToString(n);
    var s := d + rest;
    DigitRunPrefix(d, rest);
    assert s[..|d|] == d;
  }

  /** Digits followed by a non-digit (or nothing) are exactly the leading run. */
  lemma {:induction false} DigitRunPrefix(d: string, rest: string)
    requires AllDigits(d) && (rest == [] || !IsDigit(rest[0]))
    ensures DigitRun(d + rest) == |d|
  {
    if d == [] {
      assert d + rest == rest;
    } else {
      assert AllDigits(d[1..]) by {
        forall i | 0 <= i < |d[1..]| ensures IsDigit(d[1..][i]) {
          assert d[1..][i] == d[i + 1];
        }
      }
      DigitRunPrefix(d[1..], rest);
      assert (d + rest)[1..] == d[1..] + rest;
    }
  }

  /**
   * A pager label without a matching `of <digits>` leaves the count to the pager grid: its last
   * cell written as `<n>` followed by no digit gives `n` pages.
   */
  lemma NumberOfPagesFromGrid(p: Page, c: string, cs: seq<string>, n: nat, rest: string)
    requires p.pagerLabel == Some(c) && LabelCount(c).None?
    requires p.pagerCells == Some(cs) && cs != [] && cs[|cs| - 1] == NatToString(n) + rest
    requires rest == [] || !IsDigit(rest[0])
    ensures NumberOfPages(Some(p)) == n
  {
    LeadingCountOfWritten(n, rest);
  }

  // ---------------------------------------------------------------------------------------
  // One page of results

  const BodyTags: set<string> := {"td", "th"}

  /** The rows of a grid after its header row, labelled by the header. */
  function BodyRows(h: Headers, rows: seq<seq<Cell>>): (r: seq<Row>)
    ensures |r| == |rows|
    ensures forall k :: 0 <= k < |r| ==> r[k] == Label(h, Filter(rows[k], BodyTags))
  {
    seq(|rows|, i requires 0 <= i < |rows| => Label(h, Filter(rows[i], BodyTags)))
  }

  /**
   * `_get_results_from_page`: the header map of the first row's `th` cells without the
   * small-screen ones, then one row per later `tr`. A missing page or grid, or a grid without
   * rows, raises.
   */
  function PageRows(page: Option<Page>): Result<seq<Row>, Error> {
    match page
    case None => Err(Crash("AttributeError: the results page was not downloaded"))
    case Some(p) =>
      match p.grid
      case None => Err(Crash("AttributeError: the page has no results grid"))
      case Some(rows) =>
        if rows == [] then Err(Crash("IndexError: the results grid has no rows"))
        else Ok(BodyRows(HeaderMap(Filter(rows[0], {"th"}), true), rows[1..]))
  }

  method ResultsFromPage(page: Option<Page>) returns (r: Result<seq<Row>, Error>)
    ensures r == PageRows(page)
  {
    if page.None? {
      return Err(Crash("AttributeError: the results page was not downloaded"));
    }
    if page.value.grid.None? {
      return Err(Crash("AttributeError: the page has no results grid"));
    }
    var rows := page.value.grid.value;
    if |rows| == 0 {
      return Err(Crash("IndexError: the results grid has no rows"));
    }
    var headers := HeaderMap(Filter(rows[0], {"th"}), true);
    var out: seq<Row> := [];
    var i := 1;
    while i < |rows|
      invariant 1 <= i <= |rows|
      invariant |out| == i - 1
      invariant forall k :: 0 <= k < i - 1 ==> out[k] == Label(headers, Filter(rows[k + 1], BodyTags))
    {
      var cells := Filter(rows[i], BodyTags);
      var result := LabelRow(headers, cells);
      out := out + [result];
      i := i + 1;
    }
    assert out == BodyRows(headers, rows[1..]);
    r := Ok(out);
  }

  // ---------------------------------------------------------------------------------------
  // All pages of one event

  /** The rows of pages 1 to n, or the error of the first page that raises. */
  function PagesResults(u: Url, fetch: Fetch, n: nat): Result<seq<Row>, Error> {
    if n == 0 then Ok([])
    else
      match PagesResults(u, fetch, n - 1)
      case Err(e) => Err(e)
      case Ok(rows) =>
        match PageRows(fetch(PageUrl(u, n)))
        case Err(e) => Err(e)
        case Ok(more) => Ok(rows + more)
  }

  /** `_get_results_from_event`. */
  function EventResults(u: Url, fetch: Fetch): Result<seq<Row>, Error> {
    PagesResults(u, fetch, NumberOfPages(fetch(u)))
  }

  /** Once a page raises, the later pages change nothing. */
  lemma {:induction false} PagesResultsErr(u: Url, fetch: Fetch, k: nat, m: nat)
    requires k <= m
    requires PagesResults(u, fetch, k).Err?
    ensures PagesResults(u, fetch, m) == PagesResults(u, fetch, k)
    decreases m
  {
    if k < m {
      PagesResultsErr(u, fetch, k, m - 1);
      PagesResultsErrStep(u, fetch, m);
    }
  }

  lemma PagesResultsErrStep(u: Url, fetch: Fetch, m: nat)
    requires m >= 1 && PagesResults(u, fetch, m - 1).Err?
    ensures PagesResults(u, fetch, m) == PagesResults(u, fetch, m - 1)
  {
  }

  lemma PagesResultsStep(u: Url, fetch: Fetch, k: nat, rows: seq<Row>)
    requires k >= 1 && PagesResults(u, fetch, k - 1) == Ok(rows)
    ensures PagesResults(u, fetch, k) ==
      match PageRows(fetch(PageUrl(u, k))) case Err(e) => Err(e) case Ok(more) => Ok(rows + more)
  {
  }

  /**
   * The page loop: pages 1 to N are requested in order, N being the page count of the event page,
   * and their rows are concatenated. `requested` lists the page URLs asked for.
   */
  method ResultsFromEvent(u: Url, fetch: Fetch) returns (r: Result<seq<Row>, Error>, requested: seq<Url>)
    ensures r == EventResults(u, fetch)
    ensures |requested| <= NumberOfPages(fetch(u)) && requested == PageUrls(u, |requested|)
    ensures r.Ok? ==> |requested| == NumberOfPages(fetch(u))
  {
    var n := NumberOfPages(fetch(u));
    var rows: seq<Row> := [];
    requested := [];
    var page := 1;
    while page <= n
      invariant 1 <= page <= n + 1
      invariant PagesResults(u, fetch, page - 1) == Ok(rows)
      invariant requested == PageUrls(u, page - 1)
    {
      var url := AppendQueryParameters(u, [("dt", "0"), ("PageNo", NatToString(page))]);
      assert url == PageUrl(u, page);
      requested := requested + [url];
      assert requested == PageUrls(u, page);
      assert |requested| == page;
      var more := ResultsFromPage(fetch(url));
      PagesResultsStep(u, fetch, page, rows);
      if more.Err? {
        PagesResultsErr(u, fetch, page, n);
        return Err(more.error), requested;
      }
      rows := rows + more.value;
      page := page + 1;
    }
    assert |requested| == n;
    r := Ok(rows);
  }

  // ---------------------------------------------------------------------------------------
  // Events

  predicate Usable(item: EventItem) {
    item.anchor.Some? && item.anchor.value.href.Some?
  }

  /** The linked events, up to the first `li` without a link or without an `href`. */
  function AnchorEvents(items: seq<EventItem>): (r: seq<Event>)
    ensures |r| <= |items|
    ensures forall i :: 0 <= i < |r| ==>
      Usable(items[i]) && r[i] == Event(Some(items[i].anchor.value.text), items[i].anchor.value.href)
    ensures |r| < |items| ==> !Usable(items[|r|])
  {
    if items == [] || !Usable(items[0]) then []
    else [Event(Some(items[0].anchor.value.text), items[0].anchor.value.href)] + AnchorEvents(items[1..])
  }

  /** The drop-down events, up to the first option without a `value`; each sets `EId` on the form URL. */
  function ChoiceEvents(choices: seq<Choice>, raceUrl: Url): (r: seq<Event>)
    ensures |r| <= |choices|
    ensures forall i :: 0 <= i < |r| ==> choices[i].value.Some? && r[i] == ChoiceEvent(choices[i], raceUrl)
    ensures |r| < |choices| ==> choices[|r|].value.None?
  {
    if choices == [] || choices[0].value.None? then []
    else [ChoiceEvent(choices[0], raceUrl)] + ChoiceEvents(choices[1..], raceUrl)
  }

  /** The event of one option: its text, and the form URL with `EId` set to its value. */
  function ChoiceEvent(c: Choice, raceUrl: Url): Event
    requires c.value.Some?
  {
    Event(Some(c.text), Some(AppendQuery(raceUrl, [("EId", c.value.value)])))
  }

  /** A drop-down event's URL is the form URL with `EId` set to the option's value. */
  lemma ChoiceEventUrl(raceUrl: Url, value: string, name: string)
    requires value != "" && '&' !in value
    ensures Lookup(ParseQs(AppendQuery(raceUrl, [("EId", value)]).query), name) ==
      if name == "EId" then Some([value]) else Lookup(ParseQs(raceUrl.query), name)
  {
    var additions := [("EId", value)];
    assert additions[..0] == [];
    assert LastValue(additions, name) == if name == "EId" then Some(value) else LastValue([], name);
    AppendQueryLookup(raceUrl, additions, name);
  }

  /**
   * `_get_events`. An event list without entries is one implicit event. Without an event list the
   * drop-down is used, with the form's action as the race URL; a missing form or action ends
   * discovery with no events.
   */
  function Events(p: Page): seq<Event> {
    match p.eventList
    case Some(items) => if items == [] then [Event(None, None)] else AnchorEvents(items)
    case None =>
      match p.dropdown
      case None => []
      case Some(choices) =>
        match p.form
        case Form(Some(raceUrl)) => ChoiceEvents(choices, raceUrl)
        case _ => []
  }

  // ---------------------------------------------------------------------------------------
  // The race page

  /** The stamped rows of the given events, in order, or the first error. */
  function EventRows(events: seq<Event>, race: string, base: Url, fetch: Fetch): Result<seq<Row>, Error> {
    if events == [] then Ok([])
    else
      match EventRows(events[..|events| - 1], race, base, fetch)
      case Err(e) => Err(e)
      case Ok(rows) =>
        var ev := events[|events| - 1];
        match EventResults(ev.url.GetOr(base), fetch)
        case Err(e) => Err(e)
        case Ok(more) => Ok(rows + Stamped(more, race, ev.name.GetOr(race)))
  }

  /** `_get_results_from_main`: a page without the race name raises. */
  function MainResults(p: Page, base: Url, fetch: Fetch): Result<seq<Row>, Error> {
    match p.raceName
    case None => Err(Crash("AttributeError: the page has no race name"))
    case Some(race) => EventRows(Events(p), race, base, fetch)
  }

  lemma {:induction false} EventRowsErr(events: seq<Event>, race: string, base: Url, fetch: Fetch, k: nat)
    requires k <= |events|
    requires EventRows(events[..k], race, base, fetch).Err?
    ensures EventRows(events, race, base, fetch) == EventRows(events[..k], race, base, fetch)
    decreases |events|
  {
    if k < |events| {
      var init := events[..|events| - 1];
      assert init[..k] == events[..k];
      EventRowsErr(init, race, base, fetch, k);
    } else {
      assert events[..k] == events;
    }
  }

  lemma EventRowsStep(events: seq<Event>, race: string, base: Url, fetch: Fetch, i: nat, rows: seq<Row>)
    requires i < |events| && EventRows(events[..i], race, base, fetch) == Ok(rows)
    ensures EventRows(events[..i + 1], race, base, fetch) ==
      match EventResults(events[i].url.GetOr(base), fetch)
      case Err(e) => Err(e)
      case Ok(more) => Ok(rows + Stamped(more, race, events[i].name.GetOr(race)))
  {
    assert events[..i + 1][..i] == events[..i];
  }

  /** The rows of one event, stamped; an unnamed event is named after the race, an event without URL reads the race URL. */
  method EventStep(ev: Event, race: string, base: Url, fetch: Fetch) returns (r: Result<seq<Row>, Error>)
    ensures r == match EventResults(ev.url.GetOr(base), fetch)
      case Err(e) => Err(e)
      case Ok(more) => Ok(Stamped(more, race, ev.name.GetOr(race)))
  {
    var name := if ev.name.None? then race else ev.name.value;
    var url := if ev.url.None? then base else ev.url.value;
    var results, _ := ResultsFromEvent(url, fetch);
    if results.Err? {
      return Err(results.error);
    }
    var stamped := Stamp(results.value, race, name);
    r := Ok(stamped);
  }

  method ResultsFromMain(p: Page, base: Url, fetch: Fetch) returns (r: Result<seq<Row>, Error>)
    ensures r == MainResults(p, base, fetch)
  {
    if p.raceName.None? {
      return Err(Crash("AttributeError: the page has no race name"));
    }
    var race := p.raceName.value;
    var events := Events(p);
    var rows: seq<Row> := [];
    var i := 0;
    while i < |events|
      invariant 0 <= i <= |events|
      invariant EventRows(events[..i], race, base, fetch) == Ok(rows)
    {
      var step := EventStep(events[i], race, base, fetch);
      EventRowsStep(events, race, base, fetch, i, rows);
      if step.Err? {
        EventRowsErr(events, race, base, fetch, i + 1);
        return Err(step.error);
      }
      rows := rows + step.value;
      i := i + 1;
    }
    assert events[..|events|] == events;
    r := Ok(rows);
  }

  /** `get_results`: an unfixable URL or a failed download gives no rows. */
  method GetResults(u: Url, fetch: Fetch) returns (r: Result<seq<Row>, Error>)
    ensures FixMainPageUrl(u).None? ==> r == Ok([])
    ensures FixMainPageUrl(u).Some? && fetch(FixMainPageUrl(u).value).None? ==> r == Ok([])
    ensures FixMainPageUrl(u).Some? && fetch(FixMainPageUrl(u).value).Some? ==>
      r == MainResults(fetch(FixMainPageUrl(u).value).value, FixMainPageUrl(u).value, fetch)
  {
    var url := FixMainPageUrl(u);
    if url.None? {
      return Ok([]);
    }
    var page := fetch(url.value);
    if page.None? {
      return Ok([]);
    }
    r := ResultsFromMain(page.value, url.value, fetch);
  }

  // ---------------------------------------------------------------------------------------
  // Properties of the whole scrape

  /** Every row carries the race name, and the name of one of the events. */
  lemma {:induction false} EventRowsStamped(events: seq<Event>, race: string, base: Url, fetch: Fetch)
    requires EventRows(events, race, base, fetch).Ok?
    ensures forall row :: row in EventRows(events, race, base, fetch).value ==>
      "RaceName" in row && row["RaceName"] == race &&
      "EventName" in row && exists ev :: ev in events && row["EventName"] == ev.name.GetOr(race)
    decreases |events|
  {
    if events != [] {
      var init, ev := events[..|events| - 1], events[|events| - 1];
      EventRowsStamped(init, race, base, fetch);
      var rows := EventRows(init, race, base, fetch).value;
      var more := EventResults(ev.url.GetOr(base), fetch).value;
      forall row | row in EventRows(events, race, base, fetch).value
        ensures "RaceName" in row && row["RaceName"] == race
        ensures "EventName" in row && exists e :: e in events && row["EventName"] == e.name.GetOr(race)
      {
        if row in rows {
          var e :| e in init && row["EventName"] == e.name.GetOr(race);
          assert e in events;
        } else {
          assert row in Stamped(more, race, ev.name.GetOr(race));
          assert ev in events;
        }
      }
    }
  }

  /** `EventRows` is the generic stamped read of the events. */
  lemma {:induction false} EventRowsRead(events: seq<Event>, race: string, base: Url, fetch: Fetch)
    ensures EventRows(events, race, base, fetch) ==
      StampedReads(events, race, (ev: Event) => EventResults(ev.url.GetOr(base), fetch), (ev: Event) => ev.name.GetOr(race))
    decreases |events|
  {
    if events != [] {
      EventRowsRead(events[..|events| - 1], race, base, fetch);
    }
  }

  /**
   * Block i is the rows event i read, stamped with the race name and the name of event i (the
   * race name for an unnamed event).
   */
  ghost predicate EventBlocks(blocks: seq<seq<Row>>, events: seq<Event>, race: string, base: Url, fetch: Fetch) {
    |blocks| == |events| &&
    forall i :: 0 <= i < |events| ==>
      EventResults(events[i].url.GetOr(base), fetch).Ok? &&
      blocks[i] == Stamped(EventResults(events[i].url.GetOr(base), fetch).value, race, events[i].name.GetOr(race))
  }

  /** The rows of the race are one block per event, in event order. */
  lemma EventRowsBlocks(events: seq<Event>, race: string, base: Url, fetch: Fetch)
    requires EventRows(events, race, base, fetch).Ok?
    ensures exists blocks ::
        EventBlocks(blocks, events, race, base, fetch) && Flatten(blocks) == EventRows(events, race, base, fetch).value
  {
    var read := (ev: Event) => EventResults(ev.url.GetOr(base), fetch);
    var name := (ev: Event) => ev.name.GetOr(race);
    EventRowsRead(events, race, base, fetch);
    StampedReadsBlocks(events, race, read, name);
    var blocks :| ReadBlocks(blocks, events, race, read, name) && Flatten(blocks) == EventRows(events, race, base, fetch).value;
    assert EventBlocks(blocks, events, race, base, fetch);
  }

  /** An event list without entries means one event, named after the race, read from the race URL. */
  lemma ImplicitEvent(p: Page, base: Url, fetch: Fetch)
    requires p.raceName.Some? && p.eventList == Some([])
    ensures MainResults(p, base, fetch) ==
      match EventResults(base, fetch)
      case Ok(rows) => Ok(Stamped(rows, p.raceName.value, p.raceName.value))
      case Err(e) => Err(e)
  {
    var events := Events(p);
    assert events == [Event(None, None)];
    assert events[..0] == [] && events[..1] == events;
    EventRowsStep(events, p.raceName.value, base, fetch, 0, []);
    match EventResults(base, fetch)
    case Ok(rows) =>
      var race := p.raceName.value;
      assert [] + Stamped(rows, race, race) == Stamped(rows, race, race);
    case Err(e) =>
  }

  /**
   * A drop-down without a form, or a form without an action, raises inside `_get_events`; the
   * exception is caught there, so no event is yielded and there is nothing to read.
   */
  lemma DropdownWithoutActionNoRows(p: Page, base: Url, fetch: Fetch)
    requires p.raceName.Some? && p.eventList.None? && p.dropdown.Some?
    requires !(p.form.Form? && p.form.action.Some?)
    ensures MainResults(p, base, fetch) == Ok([])
  {
  }

  /**
   * An event page that was not downloaded, has no pager label, or has a label without a count
   * and no pager cells, counts 0 pages, so the event gives no rows.
   */
  lemma NoPagerNoRows(u: Url, fetch: Fetch)
    requires fetch(u).None? || fetch(u).value.pagerLabel.None?
      || (LabelCount(fetch(u).value.pagerLabel.value).None?
          && (fetch(u).value.pagerCells.None? || fetch(u).value.pagerCells.value == []))
    ensures EventResults(u, fetch) == Ok([])
  {
  }

  /** Without an event list and without a drop-down there is nothing to read. */
  lemma NoEventsNoRows(p: Page, base: Url, fetch: Fetch)
    requires p.raceName.Some? && p.eventList.None? && p.dropdown.None?
    ensures MainResults(p, base, fetch) == Ok([])
  {
  }
}
