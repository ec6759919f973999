/**
 * The bouttime.co.za scraper: one page holds one distance of one race in a single table; every
 * row starts out with the race and distance names, and a `Name (License)` cell is split in two.
 */
module Bouttime {
  import opened Wrappers
  import opened Errors
  import opened Text
  import opened Urls
  import opened Tables

  /** What the scraper reads from the page; None marks an element that is not there. */
  datatype Page = Page(
    raceName: Option<string>,           // ContentPlaceHolder1_lblRaceName
    distanceName: Option<string>,       // ContentPlaceHolder1_lblDistance
    table: Option<seq<seq<Cell>>>)      // the `tr` elements of `div.container table`

  type Fetch = Url -> Option<Page>

  // ---------------------------------------------------------------------------------------
  // `re.match(r"(.*)\s\((.*)\)", text)`

  /**
   * The match can split at whitespace `g` followed by `(`, with group 2 ending before a `)` at `j`:
   * the groups are `.*` and so contain no line break.
   */
  predicate SplitAt(t: string, g: nat, j: nat) {
    g + 2 <= j < |t| && '\n' !in t[..g] && IsSpace(t[g]) && t[g + 1] == '(' && t[j] == ')'
      && '\n' !in t[g + 2..j]
  }

  /** The last `)` before `k` that closes group 2 for a split at `g`: the greedy second `.*`. */
  function CloseFor(t: string, g: nat, k: nat): (r: Option<nat>)
    requires k <= |t|
    ensures r.Some? ==> r.value < k && SplitAt(t, g, r.value) && forall j: nat :: r.value < j < k ==> !SplitAt(t, g, j)
    ensures r.None? ==> forall j: nat :: j < k ==> !SplitAt(t, g, j)
  {
    if k == 0 then None
    else if SplitAt(t, g, k - 1) then Some(k - 1)
    else CloseFor(t, g, k - 1)
  }

  /** The last split point before `k` that has a closing `)`: the greedy first `.*` backtracks from the right. */
  function SplitPoint(t: string, k: nat): (r: Option<(nat, nat)>)
    requires k <= |t|
    ensures r.Some? ==> r.value.0 < k && SplitAt(t, r.value.0, r.value.1)
    ensures r.Some? ==> forall j: nat :: r.value.1 < j ==> !SplitAt(t, r.value.0, j)
    ensures r.Some? ==> forall g: nat, j: nat :: r.value.0 < g < k ==> !SplitAt(t, g, j)
    ensures r.None? ==> forall g: nat, j: nat :: g < k ==> !SplitAt(t, g, j)
  {
    if k == 0 then None
    else
      match CloseFor(t, k - 1, |t|)
      case Some(j) => Some((k - 1, j))
      case None => SplitPoint(t, k - 1)
  }

  /** The two groups of the match, or None when the pattern does not match. */
  function SplitName(t: string): (r: Option<(string, string)>)
    ensures r.Some? <==> exists g: nat, j: nat :: SplitAt(t, g, j)
  {
    match SplitPoint(t, |t|)
    case Some((g, j)) => Some((t[..g], t[g + 2..j]))
    case None => None
  }

  /** A name followed by a space and a parenthesised license number splits into the two. */
  lemma SplitNameWritten(name: string, license: string)
    requires '\n' !in name && '\n' !in license && '(' !in license
    ensures SplitName(name + " (" + license + ")") == Some((name, license))
  {
    var t := name + " (" + license + ")";
    var g, j := |name|, |t| - 1;
    assert t[..g] == name && t[g] == ' ' && t[g + 1] == '(' && t[g + 2..j] == license;
    assert IsSpace(' ');
    assert SplitAt(t, g, j);
    forall g': nat, j': nat | g < g' ensures !SplitAt(t, g', j') {
      if g' + 2 <= j' < |t| {
        assert t[g' + 1] == license[g' + 1 - g - 2] || g' + 1 == g + 1;
      }
    }
    var r := SplitPoint(t, |t|).value;
    assert r.0 == g;
    assert r.1 == j;
  }

  /** `John Doe (AB123)` gives `John Doe` and `AB123`. */
  lemma SplitNameExample()
    ensures SplitName("John Doe (AB123)") == Some(("John Doe", "AB123"))
  {
    assert "John Doe" + " (" + "AB123" + ")" == "John Doe (AB123)";
    SplitNameWritten("John Doe", "AB123");
  }

  /** Without whitespace right before a `(` the pattern does not match. */
  lemma SplitNameNeedsSpace(t: string)
    requires forall i :: 0 <= i < |t| - 1 && t[i + 1] == '(' ==> !IsSpace(t[i])
    ensures SplitName(t) == None
  {
  }

  // ---------------------------------------------------------------------------------------
  // One row

  /** The entries every row starts with. */
  function Seed(race: string, distance: string): Row {
    map["RaceName" := race, "EventName" := distance]
  }

  /**
   * Storing one mapped cell: a `Name` cell holding `(` is split into `Name` and `LicenseNr`, which
   * raises when the pattern does not match; any other cell sets its column to the text.
   */
  function PutCell(row: Row, name: string, text: string): (out: Result<Row, Error>)
    ensures out.Err? <==> name == "Name" && '(' in text && SplitName(text).None?
    ensures out.Ok? ==> out.value.Keys >= row.Keys
    ensures out.Ok? ==> forall k :: k in row && k != name && k != "LicenseNr" ==> out.value[k] == row[k]
    ensures !(name == "Name" && '(' in text) ==> out == Ok(row[name := text])
  {
    if name == "Name" && '(' in text then
      match SplitName(text)
      case None => Err(Crash("AttributeError: the Name cell does not match the license pattern"))
      case Some((first, license)) => Ok(row["Name" := first]["LicenseNr" := license])
    else
      Ok(row[name := text])
  }

  /** The row filled in cell by cell over the seed, every mapped position through `PutCell`. */
  function BoutLabel(h: Headers, cells: seq<Cell>, seed: Row): Result<Row, Error>
    decreases |cells|
  {
    if cells == [] then Ok(seed)
    else
      var n := |cells| - 1;
      match BoutLabel(h, cells[..n], seed)
      case Err(e) => Err(e)
      case Ok(r) => if n !in h then Ok(r) else PutCell(r, h[n], CellText(cells[n]))
  }

  method BoutRow(h: Headers, cells: seq<Cell>, race: string, distance: string) returns (r: Result<Row, Error>)
    ensures r == BoutLabel(h, cells, Seed(race, distance))
  {
    ghost var seed := Seed(race, distance);
    var result := map["RaceName" := race, "EventName" := distance];
    var i := 0;
    while i < |cells|
      invariant 0 <= i <= |cells|
      invariant BoutLabel(h, cells[..i], seed) == Ok(result)
    {
      BoutLabelStep(h, cells, seed, i, result);
      if i in h {
        var text := CellText(cells[i]);
        if h[i] == "Name" && '(' in text {
          var m := SplitName(text);
          if m.None? {
            assert BoutLabel(h, cells[..i + 1], seed).Err?;
            BoutLabelErr(h, cells, seed, i + 1);
            return Err(Crash("AttributeError: the Name cell does not match the license pattern"));
          }
          var next := result["Name" := m.value.0]["LicenseNr" := m.value.1];
          assert PutCell(result, h[i], text) == Ok(next);
          result := next;
        } else {
          assert PutCell(result, h[i], text) == Ok(result[h[i] := text]);
          result := result[h[i] := text];
        }
      }
      i := i + 1;
    }
    assert cells[..|cells|] == cells;
    r := Ok(result);
  }

  /** One cell of the loop: an unmapped cell changes nothing, a mapped one goes through `PutCell`. */
  lemma BoutLabelStep(h: Headers, cells: seq<Cell>, seed: Row, i: nat, row: Row)
    requires i < |cells| && BoutLabel(h, cells[..i], seed) == Ok(row)
    ensures BoutLabel(h, cells[..i + 1], seed) ==
      if i in h then PutCell(row, h[i], CellText(cells[i])) else Ok(row)
  {
    assert cells[..i + 1][..i] == cells[..i];
  }

  lemma {:induction false} BoutLabelErr(h: Headers, cells: seq<Cell>, seed: Row, k: nat)
    requires k <= |cells|
    requires BoutLabel(h, cells[..k], seed).Err?
    ensures BoutLabel(h, cells, seed) == BoutLabel(h, cells[..k], seed)
    decreases |cells|
  {
    if k < |cells| {
      var init := cells[..|cells| - 1];
      assert init[..k] == cells[..k];
      BoutLabelErr(h, init, seed, k);
    } else {
      assert cells[..k] == cells;
    }
  }

  /** Without a `Name` column a row is the seed overwritten by the plain labelling of its cells. */
  lemma {:induction false} BoutLabelWithoutName(h: Headers, cells: seq<Cell>, seed: Row)
    requires forall i :: i in h ==> h[i] != "Name"
    ensures BoutLabel(h, cells, seed) == Ok(seed + Label(h, cells))
    decreases |cells|
  {
    if cells == [] {
      assert seed + map[] == seed;
    } else {
      var n := |cells| - 1;
      var init := cells[..n];
      var l := Label(h, init);
      assert BoutLabel(h, init, seed) == Ok(seed + l) by {
        BoutLabelWithoutName(h, init, seed);
      }
      LabelUnfold(h, cells);
      if n in h {
        var t := CellText(cells[n]);
        assert BoutLabel(h, cells, seed) == PutCell(seed + l, h[n], t);
        UnionUpdate(seed, l, h[n], t);
      }
    }
  }

  lemma UnionUpdate(a: Row, b: Row, k: string, v: string)
    ensures (a + b)[k := v] == a + b[k := v]
  {
  }

  /** The race and distance names stay in every row, and are kept unless a column of that name overwrites them. */
  lemma {:induction false} BoutLabelSeed(h: Headers, cells: seq<Cell>, race: string, distance: string)
    requires BoutLabel(h, cells, Seed(race, distance)).Ok?
    ensures var r := BoutLabel(h, cells, Seed(race, distance)).value;
      && "RaceName" in r && "EventName" in r
      && ((forall i :: i in h ==> h[i] != "RaceName") ==> r["RaceName"] == race)
      && ((forall i :: i in h ==> h[i] != "EventName") ==> r["EventName"] == distance)
    decreases |cells|
  {
    if cells != [] {
      var n := |cells| - 1;
      assert BoutLabel(h, cells[..n], Seed(race, distance)).Ok?;
      BoutLabelSeed(h, cells[..n], race, distance);
    }
  }

  /** A split `Name` cell sets both the name and the license number. */
  lemma BoutLabelSplitsName(h: Headers, cells: seq<Cell>, seed: Row)
    requires cells != [] && |cells| - 1 in h && h[|cells| - 1] == "Name"
    requires BoutLabel(h, cells[..|cells| - 1], seed).Ok?
    requires '(' in CellText(cells[|cells| - 1])
    ensures var t := CellText(cells[|cells| - 1]);
      match SplitName(t)
      case None => BoutLabel(h, cells, seed).Err?
      case Some((name, license)) =>
        BoutLabel(h, cells, seed).Ok? &&
        BoutLabel(h, cells, seed).value["Name"] == name && BoutLabel(h, cells, seed).value["LicenseNr"] == license
  {
    var n := |cells| - 1;
    var t := CellText(cells[n]);
    var prev := BoutLabel(h, cells[..n], seed).value;
    assert BoutLabel(h, cells, seed) == PutCell(prev, "Name", t);
    match SplitName(t)
    case None =>
    case Some((name, license)) =>
      PutSplitName(prev, t, name, license);
  }

  lemma PutSplitName(row: Row, t: string, name: string, license: string)
    requires '(' in t && SplitName(t) == Some((name, license))
    ensures PutCell(row, "Name", t).Ok?
    ensures PutCell(row, "Name", t).value["Name"] == name && PutCell(row, "Name", t).value["LicenseNr"] == license
  {
  }

  // ---------------------------------------------------------------------------------------
  // The page

  /** The rows after the header row, in order, or the first error. */
  function BoutRows(h: Headers, rows: seq<seq<Cell>>, race: string, distance: string): Result<seq<Row>, Error> {
    if rows == [] then Ok([])
    else
      match BoutRows(h, rows[..|rows| - 1], race, distance)
      case Err(e) => Err(e)
      case Ok(done) =>
        match BoutLabel(h, Filter(rows[|rows| - 1], {"td", "th"}), Seed(race, distance))
        case Err(e) => Err(e)
        case Ok(row) => Ok(done + [row])
  }

  /**
   * `_get_results_from_main`: a missing race or distance label raises, a missing table gives no
   * rows, a table without rows raises; the header map skips the small-screen `th` cells.
   */
  function MainResults(p: Page): Result<seq<Row>, Error> {
    match (p.raceName, p.distanceName)
    case (None, _) => Err(Crash("AttributeError: the page has no race name"))
    case (_, None) => Err(Crash("AttributeError: the page has no distance name"))
    case (Some(race), Some(distance)) =>
      match p.table
      case None => Ok([])
      case Some(rows) =>
        if rows == [] then Err(Crash("IndexError: the results table has no rows"))
        else BoutRows(HeaderMap(Filter(rows[0], {"th"}), true), rows[1..], race, distance)
  }

  lemma {:induction false} BoutRowsErr(h: Headers, rows: seq<seq<Cell>>, race: string, distance: string, k: nat)
    requires k <= |rows|
    requires BoutRows(h, rows[..k], race, distance).Err?
    ensures BoutRows(h, rows, race, distance) == BoutRows(h, rows[..k], race, distance)
    decreases |rows|
  {
    if k < |rows| {
      var init := rows[..|rows| - 1];
      assert init[..k] == rows[..k];
      BoutRowsErr(h, init, race, distance, k);
    } else {
      assert rows[..k] == rows;
    }
  }

  method ResultsFromMain(p: Page) returns (r: Result<seq<Row>, Error>)
    ensures r == MainResults(p)
  {
    if p.raceName.None? {
      return Err(Crash("AttributeError: the page has no race name"));
    }
    if p.distanceName.None? {
      return Err(Crash("AttributeError: the page has no distance name"));
    }
    var race, distance := p.raceName.value, p.distanceName.value;
    if p.table.None? {
      return Ok([]);
    }
    var rows := p.table.value;
    if |rows| == 0 {
      return Err(Crash("IndexError: the results table has no rows"));
    }
    var headers := HeaderMap(Filter(rows[0], {"th"}), true);
    var body := rows[1..];
    var out: seq<Row> := [];
    var i := 0;
    while i < |body|
      invariant 0 <= i <= |body|
      invariant BoutRows(headers, body[..i], race, distance) == Ok(out)
    {
      assert body[..i + 1][..i] == body[..i];
      var row := BoutRow(headers, Filter(body[i], {"td", "th"}), race, distance);
      if row.Err? {
        BoutRowsErr(headers, body, race, distance, i + 1);
        return Err(row.error);
      }
      out := out + [row.value];
      i := i + 1;
    }
    assert body[..|body|] == body;
    r := Ok(out);
  }

  /**
   * `get_results` as written: the view-state removal dereferences the downloaded page before
   * the check for a failed download, so a failed download raises.
   */
  function UrlResultsAsWritten(u: Url, fetch: Fetch): Result<seq<Row>, Error> {
    match fetch(u)
    case None => Err(Crash("AttributeError: the page was not downloaded"))
    case Some(p) => MainResults(p)
  }

  /** `get_results` with the download checked first, as its error message intends. */
  function UrlResults(u: Url, fetch: Fetch): Result<seq<Row>, Error> {
    match fetch(u)
    case None => Ok([])
    case Some(p) => MainResults(p)
  }

  method GetResultsAsWritten(u: Url, fetch: Fetch) returns (r: Result<seq<Row>, Error>)
    ensures r == UrlResultsAsWritten(u, fetch)
    ensures fetch(u).None? ==> r == Err(Crash("AttributeError: the page was not downloaded"))
    ensures fetch(u).Some? ==> r == MainResults(fetch(u).value)
  {
    var page := fetch(u);
    if page.None? {
      return Err(Crash("AttributeError: the page was not downloaded"));
    }
    r := ResultsFromMain(page.value);
  }

  method GetResults(u: Url, fetch: Fetch) returns (r: Result<seq<Row>, Error>)
    ensures r == UrlResults(u, fetch)
    ensures fetch(u).None? ==> r == Ok([])
    ensures fetch(u).Some? ==> r == MainResults(fetch(u).value)
  {
    var page := fetch(u);
    if page.None? {
      return Ok([]);
    }
    r := ResultsFromMain(page.value);
  }

  /**
   * The two versions of `get_results` differ exactly on a failed download: the code as written
   * raises there, the corrected code returns no rows.
   */
  lemma FailedDownload(u: Url, fetch: Fetch)
    ensures UrlResultsAsWritten(u, fetch) != UrlResults(u, fetch) <==> fetch(u).None?
    ensures fetch(u).None? ==> UrlResultsAsWritten(u, fetch).Err? && UrlResults(u, fetch) == Ok([])
  {
  }
}
