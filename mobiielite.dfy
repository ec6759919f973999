/**
 * The live.mobii.com scraper: the race page names a display; the display's layout lists the
 * columns, and the results engine returns one JSON record per participant, which the columns
 * project onto a row. The rows are sorted by event and position and stamped with the race name.
 */
module MobiiElite {
  import opened Wrappers
  import opened Errors
  import opened Text
  import opened Numbers
  import opened Urls
  import opened Sorting

  // ---------------------------------------------------------------------------------------
  // GUIDs after a marker

  /** Where a GUID has its dashes: 8-4-4-4-12. */
  predicate DashAt(i: int) {
    i == 8 || i == 13 || i == 18 || i == 23
  }

  /** The text of `[0-9a-fA-F]{8}-[0-9a-fA-F]{4}-[0-9a-fA-F]{4}-[0-9a-fA-F]{4}-[0-9a-fA-F]{12}`. */
  predicate IsGuid(g: string) {
    |g| == 36 && forall i :: 0 <= i < 36 ==> if DashAt(i) then g[i] == '-' else IsHexDigit(g[i])
  }

  /** The pattern `marker(guid)` matches at position `i` of `s`. */
  predicate GuidAt(s: string, marker: string, i: int) {
    OccursAt(s, marker, i) && i + |marker| + 36 <= |s| && IsGuid(s[i + |marker|..i + |marker| + 36])
  }

  /** The leftmost match at or after `k`, as `re.search` scans. */
  function FirstGuidAt(s: string, marker: string, k: nat): (r: Option<nat>)
    ensures r.Some? ==> k <= r.value && GuidAt(s, marker, r.value)
    ensures r.Some? ==> forall j :: k <= j < r.value ==> !GuidAt(s, marker, j)
    ensures r.None? ==> forall j :: k <= j ==> !GuidAt(s, marker, j)
    decreases |s| - k
  {
    if |s| < k + |marker| + 36 then None
    else if GuidAt(s, marker, k) then Some(k)
    else FirstGuidAt(s, marker, k + 1)
  }

  /** `re.search(marker + "(" + guid_pattern + ")", s).group(1)`, None when nothing matches. */
  function SearchGuid(s: string, marker: string): (r: Option<string>)
    ensures r.Some? ==> IsGuid(r.value)
    ensures r.None? <==> forall i :: !GuidAt(s, marker, i)
  {
    match FirstGuidAt(s, marker, 0)
    case Some(i) => Some(s[i + |marker|..i + |marker| + 36])
    case None => None
  }

  /** A match with no match before it is the one found. */
  lemma SearchGuidFirst(s: string, marker: string, i: nat)
    requires GuidAt(s, marker, i)
    requires forall j :: 0 <= j < i ==> !GuidAt(s, marker, j)
    ensures SearchGuid(s, marker) == Some(s[i + |marker|..i + |marker| + 36])
  {
    var f := FirstGuidAt(s, marker, 0);
    assert f.Some?;
    assert f.value == i;
  }

  /** `_get_race_id`: the GUID after the first `/RaceID/` that is followed by one. */
  function RaceId(url: string): Option<string> {
    SearchGuid(url, "/RaceID/")
  }

  /** `_get_display_id_from_data_src`: the GUID after the first `DisplayId=` followed by one. */
  function DisplayIdOf(dataSrc: string): Option<string> {
    SearchGuid(dataSrc, "DisplayId=")
  }

  // ---------------------------------------------------------------------------------------
  // The race URL

  /**
   * `_fix_main_page_url`: `scheme://netloc/results/RaceID/<race id>` on the host of the given URL,
   * with Python's `None` written out when there is no race id. It never fails, so the caller's
   * check for a missing URL never fires.
   */
  function FixMainPageUrl(u: Url, raceId: Option<string>): Url {
    Build(u.scheme, u.netloc, "/results/RaceID/" + raceId.GetOr("None"), "", "")
  }

  /** The race id written into the fixed URL is the one the scraper finds there again. */
  lemma {:induction false} FixedUrlRaceId(u: Url, g: string)
    requires IsGuid(g)
    requires '/' !in u.scheme && '/' !in u.netloc
    ensures RaceId(FixMainPageUrl(u, Some(g)).text) == Some(g)
  {
    var s := FixMainPageUrl(u, Some(g)).text;
    var p := u.scheme + "://" + u.netloc + "/results";
    assert s == p + "/RaceID/" + g;
    forall j | 0 <= j < |p| ensures !GuidAt(s, "/RaceID/", j) {
      NoMarkerBefore(u.scheme, u.netloc, s, g, j);
    }
    SearchGuidAfter(s, p, "/RaceID/", g);
  }

  /** A GUID right after the marker, with no earlier match, is the one found. */
  lemma SearchGuidAfter(s: string, p: string, marker: string, g: string)
    requires IsGuid(g) && s == p + marker + g
    requires forall j :: 0 <= j < |p| ==> !GuidAt(s, marker, j)
    ensures SearchGuid(s, marker) == Some(g)
  {
    var at := |p|;
    assert s[at..at + |marker|] == marker;
    assert s[at + |marker|..at + |marker| + 36] == g;
    SearchGuidFirst(s, marker, at);
  }

  /** No match of `/RaceID/<guid>` starts inside `scheme://netloc/results`. */
  lemma NoMarkerBefore(scheme: string, netloc: string, s: string, g: string, j: nat)
    requires '/' !in scheme && '/' !in netloc && IsGuid(g)
    requires s == scheme + "://" + netloc + "/results" + "/RaceID/" + g
    requires j < |scheme| + 3 + |netloc| + 8
    ensures !GuidAt(s, "/RaceID/", j)
  {
    var n, m := |scheme|, |netloc|;
    if j <= n + 1 {
      NoMarkerInScheme(scheme, netloc, s, g, j);
    } else if j == n + 2 {
      NoMarkerAtSlash(scheme, netloc, s, g);
    } else {
      NoMarkerInHost(scheme, netloc, s, g, j);
    }
  }

  lemma NoMarkerInScheme(scheme: string, netloc: string, s: string, g: string, j: nat)
    requires '/' !in scheme && '/' !in netloc && IsGuid(g)
    requires s == scheme + "://" + netloc + "/results" + "/RaceID/" + g
    requires j <= |scheme| + 1
    ensures !OccursAt(s, "/RaceID/", j)
  {
    var n := |scheme|;
    if j < n {
      assert s[j] == scheme[j];
      MismatchAt(s, "/RaceID/", j, 0);
    } else if j == n {
      assert s[j] == ':';
      MismatchAt(s, "/RaceID/", j, 0);
    } else {
      assert s[j + 1] == '/';
      MismatchAt(s, "/RaceID/", j, 1);
    }
  }

  lemma NoMarkerAtSlash(scheme: string, netloc: string, s: string, g: string)
    requires '/' !in scheme && '/' !in netloc && IsGuid(g)
    requires s == scheme + "://" + netloc + "/results" + "/RaceID/" + g
    ensures !GuidAt(s, "/RaceID/", |scheme| + 2)
  {
    var j, m := |scheme| + 2, |netloc|;
    var marker := "/RaceID/";
    if m < 6 {
      assert s[j + m + 1] == '/';
      assert marker[m + 1] != '/';
      MismatchAt(s, marker, j, m + 1);
    } else if m == 6 {
      assert s[j + 8..j + 44][0] == 'r' && !IsHexDigit('r');
    } else {
      assert s[j + 7] == netloc[6];
      MismatchAt(s, marker, j, 7);
    }
  }

  lemma NoMarkerInHost(scheme: string, netloc: string, s: string, g: string, j: nat)
    requires '/' !in scheme && '/' !in netloc && IsGuid(g)
    requires s == scheme + "://" + netloc + "/results" + "/RaceID/" + g
    requires |scheme| + 3 <= j < |scheme| + 3 + |netloc| + 8
    ensures !OccursAt(s, "/RaceID/", j)
  {
    var n, m := |scheme|, |netloc|;
    if j < n + 3 + m {
      assert s[j] == netloc[j - n - 3];
      MismatchAt(s, "/RaceID/", j, 0);
    } else if j == n + 3 + m {
      assert s[j + 1] == 'r';
      MismatchAt(s, "/RaceID/", j, 1);
    } else {
      assert s[j] == "/results"[j - n - 3 - m];
      MismatchAt(s, "/RaceID/", j, 0);
    }
  }

  /** A pattern does not occur where one of its characters differs from the text. */
  lemma MismatchAt(s: string, p: string, i: nat, k: nat)
    requires k < |p| && i + k < |s| && s[i + k] != p[k]
    ensures !OccursAt(s, p, i)
  {
    if i + |p| <= |s| {
      assert s[i..i + |p|][k] == s[i + k];
    }
  }

  // ---------------------------------------------------------------------------------------
  // JSON records and the columns of a display layout

  /** A JSON value; of an array or an object only the number of its entries matters here. */
  datatype JVal = JNull | JBool(b: bool) | JNum(n: int) | JStr(s: string) | JComposite(size: nat)

  /** Python's truth value of a decoded JSON value. */
  predicate Truthy(v: JVal) {
    match v
    case JNull => false
    case JBool(b) => b
    case JNum(n) => n != 0
    case JStr(s) => s != ""
    case JComposite(size) => size > 0
  }

  /** One participant as the results engine returns it. */
  type Record = map<string, JVal>

  /** A column of the display layout: its `JSONField`, `Field` and `Name` entries, when present. */
  datatype Column = Column(jsonField: Option<string>, field: Option<string>, name: Option<string>)

  /** One display layout: its `Columns` entry, when present. */
  datatype Layout = Layout(columns: Option<seq<Column>>)

  /**
   * A value of an output row: a JSON value copied as it is, or a duration or a point in time,
   * both kept as the milliseconds the record gave.
   */
  datatype Value = Plain(v: JVal) | Duration(ms: int) | Timestamp(ms: int)

  type Row = map<string, Value>

  /** The column appended to every layout, so that each row names its event. */
  const EventNameColumn := Column(Some("cn"), None, Some("EventName"))

  // ---------------------------------------------------------------------------------------
  // Projecting one record

  /** The milliseconds `value / 1000` can divide: a number, or a boolean as 0 or 1. */
  function Millis(v: JVal): Option<int> {
    match v
    case JNum(n) => Some(n)
    case JBool(b) => Some(if b then 1 else 0)
    case _ => None
  }

  /**
   * The value a column stores for the record's value `v` under `key`: `t` and `p` become
   * durations and `sti` a timestamp, and dividing anything but a number raises; every other key
   * keeps its value.
   */
  function Convert(key: string, v: JVal): (r: Result<Value, Error>)
    ensures (key == "t" || key == "p") ==>
      (r.Ok? <==> Millis(v).Some?) && (r.Ok? ==> r.value == Duration(Millis(v).value))
    ensures key == "sti" ==>
      (r.Ok? <==> Millis(v).Some?) && (r.Ok? ==> r.value == Timestamp(Millis(v).value))
    ensures key != "t" && key != "p" && key != "sti" ==> r == Ok(Plain(v))
  {
    if key == "t" || key == "p" || key == "sti" then
      match Millis(v)
      case None => Err(Crash("TypeError: unsupported operand type for /"))
      case Some(ms) => Ok(if key == "sti" then Timestamp(ms) else Duration(ms))
    else
      Ok(Plain(v))
  }

  /** A column takes part in a record when it has a `JSONField` the record has. */
  predicate Contributes(c: Column, rec: Record) {
    c.jsonField.Some? && c.jsonField.value in rec
  }

  /** The output name of a column: `Club` for `gi`, else its `Field`, else its `Name`, else the key. */
  function FieldName(c: Column): (n: string)
    requires c.jsonField.Some?
    ensures c.jsonField.value == "gi" ==> n == "Club"
    ensures c.jsonField.value != "gi" && c.field.Some? ==> n == c.field.value
    ensures c.jsonField.value != "gi" && c.field.None? && c.name.Some? ==> n == c.name.value
    ensures c.jsonField.value != "gi" && c.field.None? && c.name.None? ==> n == c.jsonField.value
  {
    var key := c.jsonField.value;
    if key == "gi" then "Club"
    else if c.field.Some? then c.field.value
    else if c.name.Some? then c.name.value
    else key
  }

  /** The column stores a value under the name `n`. */
  predicate Yields(c: Column, rec: Record, n: string) {
    Contributes(c, rec) && FieldName(c) == n
  }

  /** The value a contributing column stores. */
  function ColumnValue(c: Column, rec: Record): Result<Value, Error>
    requires Contributes(c, rec)
  {
    Convert(c.jsonField.value, rec[c.jsonField.value])
  }

  /** One step of the column loop. */
  function Put(row: Row, c: Column, rec: Record): Result<Row, Error> {
    if !Contributes(c, rec) then Ok(row)
    else
      match ColumnValue(c, rec)
      case Err(e) => Err(e)
      case Ok(v) => Ok(row[FieldName(c) := v])
  }

  /** The row the column loop builds for the record, or the error it raises. */
  function Project(columns: seq<Column>, rec: Record): Result<Row, Error> {
    if columns == [] then Ok(map[])
    else
      match Project(columns[..|columns| - 1], rec)
      case Err(e) => Err(e)
      case Ok(row) => Put(row, columns[|columns| - 1], rec)
  }

  /** The last column that stores a value under `n`. */
  function LastYielding(columns: seq<Column>, rec: Record, n: string): (r: Option<nat>)
    ensures r.Some? ==> r.value < |columns| && Yields(columns[r.value], rec, n)
    ensures r.Some? ==> forall j :: r.value < j < |columns| ==> !Yields(columns[j], rec, n)
    ensures r.None? ==> forall j :: 0 <= j < |columns| ==> !Yields(columns[j], rec, n)
  {
    if columns == [] then None
    else if Yields(columns[|columns| - 1], rec, n) then Some(|columns| - 1)
    else LastYielding(columns[..|columns| - 1], rec, n)
  }

  /** The column loop fails exactly when a contributing column's value cannot be converted. */
  lemma {:induction false} ProjectErr(columns: seq<Column>, rec: Record)
    ensures Project(columns, rec).Err? <==>
      exists j :: 0 <= j < |columns| && Contributes(columns[j], rec) && ColumnValue(columns[j], rec).Err?
  {
    if columns != [] {
      var init, last := columns[..|columns| - 1], columns[|columns| - 1];
      ProjectErr(init, rec);
      if exists j :: 0 <= j < |init| && Contributes(init[j], rec) && ColumnValue(init[j], rec).Err? {
        var j :| 0 <= j < |init| && Contributes(init[j], rec) && ColumnValue(init[j], rec).Err?;
        assert columns[j] == init[j];
      }
      if exists j :: 0 <= j < |columns| && Contributes(columns[j], rec) && ColumnValue(columns[j], rec).Err? {
        var j :| 0 <= j < |columns| && Contributes(columns[j], rec) && ColumnValue(columns[j], rec).Err?;
        if j < |init| {
          assert init[j] == columns[j];
        }
      }
    }
  }

  /**
   * The row holds a name exactly when some contributing column yields it, and then the value of
   * the last such column: a later column of the same name overwrites an earlier one.
   */
  lemma {:induction false} ProjectValue(columns: seq<Column>, rec: Record, n: string)
    requires Project(columns, rec).Ok?
    ensures n in Project(columns, rec).value <==> LastYielding(columns, rec, n).Some?
    ensures LastYielding(columns, rec, n).Some? ==>
      ColumnValue(columns[LastYielding(columns, rec, n).value], rec) == Ok(Project(columns, rec).value[n])
  {
    if columns != [] {
      var init, last := columns[..|columns| - 1], columns[|columns| - 1];
      assert Project(init, rec).Ok?;
      ProjectValue(init, rec, n);
    }
  }

  /**
   * A `gi` column stores the record's `gi` value, unconverted, under `Club`, whatever its `Field`
   * and `Name` say, unless a later column also stores under `Club`.
   */
  lemma GiIsClub(columns: seq<Column>, rec: Record, j: nat)
    requires j < |columns| && columns[j].jsonField == Some("gi") && "gi" in rec
    requires forall k :: j < k < |columns| ==> !Yields(columns[k], rec, "Club")
    requires Project(columns, rec).Ok?
    ensures "Club" in Project(columns, rec).value && Project(columns, rec).value["Club"] == Plain(rec["gi"])
  {
    assert Yields(columns[j], rec, "Club");
    ProjectValue(columns, rec, "Club");
  }

  /**
   * A contributing `t`, `p` or `sti` column of a record that projects holds a number of
   * milliseconds, and stores it under its name as a duration (`t`, `p`) or a timestamp (`sti`),
   * unless a later column stores under the same name.
   */
  lemma TimeColumn(columns: seq<Column>, rec: Record, j: nat)
    requires j < |columns| && Contributes(columns[j], rec)
    requires columns[j].jsonField.value in {"t", "p", "sti"}
    requires forall k :: j < k < |columns| ==> !Yields(columns[k], rec, FieldName(columns[j]))
    requires Project(columns, rec).Ok?
    ensures Millis(rec[columns[j].jsonField.value]).Some?
    ensures var row, ms := Project(columns, rec).value, Millis(rec[columns[j].jsonField.value]).value;
      FieldName(columns[j]) in row &&
      row[FieldName(columns[j])] == if columns[j].jsonField.value == "sti" then Timestamp(ms) else Duration(ms)
  {
    ProjectErr(columns, rec);
    assert ColumnValue(columns[j], rec).Ok?;
    ProjectValue(columns, rec, FieldName(columns[j]));
  }

  /** The column loop over one record, filling the row column by column. */
  method ProjectRecord(columns: seq<Column>, rec: Record) returns (r: Result<Row, Error>)
    ensures r == Project(columns, rec)
  {
    var row: Row := map[];
    var i := 0;
    while i < |columns|
      invariant 0 <= i <= |columns|
      invariant Project(columns[..i], rec) == Ok(row)
    {
      assert columns[..i + 1][..i] == columns[..i];
      var c := columns[i];
      if c.jsonField.Some? && c.jsonField.value in rec {
        var key := c.jsonField.value;
        var value := Convert(key, rec[key]);
        if value.Err? {
          assert Project(columns[..i + 1], rec) == Err(value.error);
          ProjectStopped(columns, rec, i + 1);
          return Err(value.error);
        }
        row := row[FieldName(c) := value.value];
      }
      i := i + 1;
    }
    assert columns[..i] == columns;
    r := Ok(row);
  }

  /** Once the column loop has raised, the later columns do not matter. */
  lemma {:induction false} ProjectStopped(columns: seq<Column>, rec: Record, i: nat)
    requires i <= |columns| && Project(columns[..i], rec).Err?
    ensures Project(columns, rec) == Project(columns[..i], rec)
    decreases |columns| - i
  {
    if i < |columns| {
      assert columns[..i + 1][..i] == columns[..i];
      ProjectStopped(columns, rec, i + 1);
    } else {
      assert columns[..i] == columns;
    }
  }

  /** The record with the aliases `csp := cp` and `ctp := gp` added; looking up a missing one raises. */
  function Alias(rec: Record): (r: Result<Record, Error>)
    ensures r.Ok? <==> "cp" in rec && "gp" in rec
    ensures r.Ok? ==> r.value.Keys == rec.Keys + {"csp", "ctp"}
    ensures r.Ok? ==> r.value["csp"] == rec["cp"] && r.value["ctp"] == rec["gp"]
    ensures r.Ok? ==> forall k :: k in rec && k != "csp" && k != "ctp" ==> r.value[k] == rec[k]
  {
    if "cp" !in rec then Err(Crash("KeyError: 'cp'"))
    else if "gp" !in rec then Err(Crash("KeyError: 'gp'"))
    else Ok(rec["csp" := rec["cp"]]["ctp" := rec["gp"]])
  }

  /** Keys the include-all branch passes over. */
  predicate Skipped(key: string) {
    EndsWith(key, "Key") || EndsWith(key, "id")
  }

  /**
   * `next((c for c in columns if c["JSONField"] == key), None)`: the first column for `key`; a
   * column without a `JSONField` met before it raises.
   */
  function FindColumn(columns: seq<Column>, key: string): (r: Result<Option<Column>, Error>)
    ensures r == Ok(None) <==>
      forall j :: 0 <= j < |columns| ==> columns[j].jsonField.Some? && columns[j].jsonField.value != key
    ensures r.Ok? && r.value.Some? ==> r.value.value in columns && r.value.value.jsonField == Some(key)
  {
    if columns == [] then Ok(None)
    else if columns[0].jsonField.None? then Err(Crash("KeyError: 'JSONField'"))
    else if columns[0].jsonField.value == key then Ok(Some(columns[0]))
    else
      var r := FindColumn(columns[1..], key);
      assert forall j :: 1 <= j < |columns| ==> columns[j] == columns[1..][j - 1];
      r
  }

  /** The keys the include-all branch copies: those no column names, unless they are skipped. */
  predicate Unclaimed(columns: seq<Column>, rec: Record, key: string) {
    key in rec && !Skipped(key) && FindColumn(columns, key) == Ok(None)
  }

  /**
   * The include-all branch: every unclaimed key of the record is copied as it is, over what the
   * columns stored. A claimed key adds nothing, because the column loop has already marked every
   * column handled.
   */
  function IncludeAll(columns: seq<Column>, rec: Record, row: Row): (r: Result<Row, Error>)
    ensures r.Ok? <==> forall k :: k in rec && !Skipped(k) ==> FindColumn(columns, k).Ok?
    ensures r.Ok? ==> forall k :: k in r.value <==> k in row || Unclaimed(columns, rec, k)
    ensures r.Ok? ==> forall k :: Unclaimed(columns, rec, k) ==> r.value[k] == Plain(rec[k])
    ensures r.Ok? ==> forall k :: k in row && !Unclaimed(columns, rec, k) ==> r.value[k] == row[k]
  {
    if exists k :: k in rec && !Skipped(k) && FindColumn(columns, k).Err? then
      Err(Crash("KeyError: 'JSONField'"))
    else
      Ok(row + map k | k in rec.Keys && Unclaimed(columns, rec, k) :: Plain(rec[k]))
  }

  /** One kept record: the aliases, the column loop and, when asked for, the include-all branch. */
  function ParseOne(columns: seq<Column>, rec: Record, includeAll: bool): Result<Row, Error> {
    match Alias(rec)
    case Err(e) => Err(e)
    case Ok(r) =>
      match Project(columns, r)
      case Err(e) => Err(e)
      case Ok(row) => if includeAll then IncludeAll(columns, r, row) else Ok(row)
  }

  /** A record the engine marks active: an `ia` entry with a truthy value. */
  predicate Active(rec: Record) {
    "ia" in rec && Truthy(rec["ia"])
  }

  /** The records `_parse_results` keeps, in their order. */
  function Kept(records: seq<Record>): (r: seq<Record>)
    ensures |r| <= |records|
    ensures forall x :: x in r <==> x in records && Active(x)
  {
    if records == [] then []
    else
      var init, last := records[..|records| - 1], records[|records| - 1];
      assert records == init + [last];
      Kept(init) + (if Active(last) then [last] else [])
  }

  /** The filter keeps the order: filtering a concatenation concatenates the filtered parts. */
  lemma {:induction false} KeptAppend(a: seq<Record>, b: seq<Record>)
    ensures Kept(a + b) == Kept(a) + Kept(b)
    decreases |b|
  {
    if b == [] {
      assert a + b == a;
    } else {
      var init, last := b[..|b| - 1], b[|b| - 1];
      var tail: seq<Record> := if Active(last) then [last] else [];
      var c := a + b;
      assert Kept(c) == Kept(a + init) + tail by {
        assert c[..|c| - 1] == a + init && c[|c| - 1] == last;
      }
      assert Kept(b) == Kept(init) + tail;
      KeptAppend(a, init);
      assert Kept(a) + Kept(init) + tail == Kept(a) + (Kept(init) + tail);
    }
  }

  /** `ParseOne` as a value, so that the lemmas about the record loop need not look inside it. */
  function Parser(columns: seq<Column>, includeAll: bool): Record -> Result<Row, Error> {
    rec => ParseOne(columns, rec, includeAll)
  }

  /** The results of `f` on the records in order, or the first error it gives. */
  function RunAll(f: Record -> Result<Row, Error>, kept: seq<Record>): Result<seq<Row>, Error> {
    if kept == [] then Ok([])
    else
      match RunAll(f, kept[..|kept| - 1])
      case Err(e) => Err(e)
      case Ok(rows) =>
        match f(kept[|kept| - 1])
        case Err(e) => Err(e)
        case Ok(row) => Ok(rows + [row])
  }

  /** The rows of the kept records in order, or the first error one of them raises. */
  function ParseAll(columns: seq<Column>, kept: seq<Record>, includeAll: bool): Result<seq<Row>, Error> {
    RunAll(Parser(columns, includeAll), kept)
  }

  lemma {:induction false} RunAllStopped(f: Record -> Result<Row, Error>, kept: seq<Record>, i: nat)
    requires i <= |kept| && RunAll(f, kept[..i]).Err?
    ensures RunAll(f, kept) == RunAll(f, kept[..i])
    decreases |kept| - i
  {
    if i < |kept| {
      assert kept[..i + 1][..i] == kept[..i];
      RunAllStopped(f, kept, i + 1);
    } else {
      assert kept[..i] == kept;
    }
  }

  /** Once a record has raised, the later records do not matter. */
  lemma ParseAllStopped(columns: seq<Column>, kept: seq<Record>, includeAll: bool, i: nat)
    requires i <= |kept| && ParseAll(columns, kept[..i], includeAll).Err?
    ensures ParseAll(columns, kept, includeAll) == ParseAll(columns, kept[..i], includeAll)
  {
    RunAllStopped(Parser(columns, includeAll), kept, i);
  }

  /** `_parse_results`, drawn out completely. */
  function ParseResults(columns: seq<Column>, records: seq<Record>, includeAll: bool): Result<seq<Row>, Error> {
    ParseAll(columns, Kept(records), includeAll)
  }

  lemma RunAllStep(f: Record -> Result<Row, Error>, kept: seq<Record>, i: nat, rows: seq<Row>)
    requires i < |kept| && RunAll(f, kept[..i]) == Ok(rows)
    ensures RunAll(f, kept[..i + 1]) == match f(kept[i]) case Err(e) => Err(e) case Ok(row) => Ok(rows + [row])
  {
    assert kept[..i + 1][..i] == kept[..i];
  }

  /** One more record: its row is appended, or its error ends the parse. */
  lemma ParseAllStep(columns: seq<Column>, kept: seq<Record>, includeAll: bool, i: nat, rows: seq<Row>)
    requires i < |kept| && ParseAll(columns, kept[..i], includeAll) == Ok(rows)
    ensures ParseAll(columns, kept[..i + 1], includeAll) ==
      match ParseOne(columns, kept[i], includeAll) case Err(e) => Err(e) case Ok(row) => Ok(rows + [row])
  {
    RunAllStep(Parser(columns, includeAll), kept, i, rows);
  }

  lemma {:induction false} RunAllRow(f: Record -> Result<Row, Error>, kept: seq<Record>, i: nat)
    requires i < |kept| && RunAll(f, kept).Ok?
    ensures |RunAll(f, kept).value| == |kept|
    ensures f(kept[i]) == Ok(RunAll(f, kept).value[i])
    decreases |kept|
  {
    var n := |kept| - 1;
    var init := kept[..n];
    var prev := RunAll(f, init);
    var one := f(kept[n]);
    var all := RunAll(f, kept).value;
    assert prev.Ok? && one.Ok? && all == prev.value + [one.value];
    if n == 0 {
      assert init == [];
    } else if i < n {
      RunAllRow(f, init, i);
      assert kept[i] == init[i];
    } else {
      RunAllRow(f, init, 0);
    }
  }

  /** Kept records only: one row for each, in order, each the projection of its record. */
  lemma ParseAllRows(columns: seq<Column>, kept: seq<Record>, includeAll: bool)
    requires ParseAll(columns, kept, includeAll).Ok?
    ensures |ParseAll(columns, kept, includeAll).value| == |kept|
    ensures forall i :: 0 <= i < |kept| ==>
      ParseOne(columns, kept[i], includeAll) == Ok(ParseAll(columns, kept, includeAll).value[i])
  {
    var f := Parser(columns, includeAll);
    if kept != [] {
      RunAllRow(f, kept, 0);
      forall i | 0 <= i < |kept|
        ensures ParseOne(columns, kept[i], includeAll) == Ok(ParseAll(columns, kept, includeAll).value[i])
      {
        RunAllRow(f, kept, i);
      }
    }
  }

  lemma {:induction false} RunAllErr(f: Record -> Result<Row, Error>, kept: seq<Record>)
    ensures RunAll(f, kept).Err? <==> exists i :: 0 <= i < |kept| && f(kept[i]).Err?
  {
    if kept != [] {
      var init := kept[..|kept| - 1];
      RunAllErr(f, init);
      if exists i :: 0 <= i < |init| && f(init[i]).Err? {
        var i :| 0 <= i < |init| && f(init[i]).Err?;
        assert kept[i] == init[i];
      }
      if exists i :: 0 <= i < |kept| && f(kept[i]).Err? {
        var i :| 0 <= i < |kept| && f(kept[i]).Err?;
        if i < |init| {
          assert init[i] == kept[i];
        }
      }
    }
  }

  /** The records fail to parse exactly when one of them does. */
  lemma ParseAllErr(columns: seq<Column>, kept: seq<Record>, includeAll: bool)
    ensures ParseAll(columns, kept, includeAll).Err? <==>
      exists i :: 0 <= i < |kept| && ParseOne(columns, kept[i], includeAll).Err?
  {
    var f := Parser(columns, includeAll);
    RunAllErr(f, kept);
    assert forall i :: 0 <= i < |kept| ==> f(kept[i]) == ParseOne(columns, kept[i], includeAll);
  }

  /** One kept record: the aliases are written into it, then the column loop fills its row. */
  method ParseRecord(columns: seq<Column>, rec: Record, includeAll: bool) returns (r: Result<Row, Error>)
    ensures r == ParseOne(columns, rec, includeAll)
  {
    var aliased := rec;
    if "cp" !in aliased {
      return Err(Crash("KeyError: 'cp'"));
    }
    aliased := aliased["csp" := aliased["cp"]];
    if "gp" !in aliased {
      return Err(Crash("KeyError: 'gp'"));
    }
    aliased := aliased["ctp" := aliased["gp"]];
    assert Alias(rec) == Ok(aliased);
    r := ProjectRecord(columns, aliased);
    if r.Ok? && includeAll {
      r := IncludeAll(columns, aliased, r.value);
    }
  }

  /**
   * `_parse_results` as the loop it is: the aliases are written into each kept record, then the
   * column loop fills its row.
   */
  method ParseRecords(columns: seq<Column>, records: seq<Record>, includeAll: bool) returns (r: Result<seq<Row>, Error>)
    ensures r == ParseResults(columns, records, includeAll)
  {
    var kept := Kept(records);
    var rows: seq<Row> := [];
    var i := 0;
    while i < |kept|
      invariant 0 <= i <= |kept|
      invariant ParseAll(columns, kept[..i], includeAll) == Ok(rows)
    {
      ParseAllStep(columns, kept, includeAll, i, rows);
      var rec := kept[i];
      var step := ParseRecord(columns, rec, includeAll);
      if step.Err? {
        assert ParseAll(columns, kept[..i + 1], includeAll) == Err(step.error);
        ParseAllStopped(columns, kept, includeAll, i + 1);
        return Err(step.error);
      }
      assert ParseAll(columns, kept[..i + 1], includeAll) == Ok(rows + [step.value]);
      rows := rows + [step.value];
      i := i + 1;
    }
    assert kept[..i] == kept;
    r := Ok(rows);
  }

  /** The appended `cn` column names each row's event after the record's `cn`, whatever came before. */
  lemma EventNameFromCn(columns: seq<Column>, rec: Record)
    requires "cn" in rec
    requires Project(columns + [EventNameColumn], rec).Ok?
    ensures Project(columns + [EventNameColumn], rec).value["EventName"] == Plain(rec["cn"])
  {
    var cs := columns + [EventNameColumn];
    assert cs[..|cs| - 1] == columns;
  }

  /** Without a `cn` entry and without another column named `EventName`, a row has no event name. */
  lemma NoEventName(columns: seq<Column>, rec: Record)
    requires "cn" !in rec
    requires forall j :: 0 <= j < |columns| ==> !Yields(columns[j], rec, "EventName")
    requires Project(columns + [EventNameColumn], rec).Ok?
    ensures "EventName" !in Project(columns + [EventNameColumn], rec).value
  {
    var cs := columns + [EventNameColumn];
    ProjectValue(cs, rec, "EventName");
    assert forall j :: 0 <= j < |columns| ==> cs[j] == columns[j];
    assert !Yields(cs[|cs| - 1], rec, "EventName");
  }

  // ---------------------------------------------------------------------------------------
  // Sorting by event and position

  /** How Python orders a row value, None for one `<` refuses (None, arrays, objects). */
  function OrdOf(v: Value): Option<Ord> {
    match v
    case Plain(JNum(n)) => Some(ONum(n))
    case Plain(JBool(b)) => Some(ONum(if b then 1 else 0))
    case Plain(JStr(s)) => Some(OStr(s))
    case Duration(ms) => Some(ODur(ms))
    case Timestamp(ms) => Some(OTime(ms))
    case _ => None
  }

  /** The row has the two entries the sort key reads. */
  predicate HasKeys(row: Row) {
    "EventName" in row && "CoursePosition" in row
  }

  /** Both entries of the sort key can be ordered. */
  predicate Orderable(row: Row) {
    HasKeys(row) && OrdOf(row["EventName"]).Some? && OrdOf(row["CoursePosition"]).Some?
  }

  /** `(x["EventName"], x["CoursePosition"])`. */
  function KeyOf(row: Row): Key
    requires Orderable(row)
  {
    (OrdOf(row["EventName"]).value, OrdOf(row["CoursePosition"]).value)
  }

  predicate SameKinds(a: Key, b: Key) {
    Rank(a.0) == Rank(b.0) && Rank(a.1) == Rank(b.1)
  }

  /** Every key can be ordered, and all event names and all positions are of one kind each. */
  predicate Comparable(rows: seq<Row>) {
    (forall i :: 0 <= i < |rows| ==> Orderable(rows[i])) &&
    forall i :: 0 <= i < |rows| ==> SameKinds(KeyOf(rows[i]), KeyOf(rows[0]))
  }

  /** The rows beside their keys, computed once each as `sorted` does. */
  function Decorate(rows: seq<Row>): (r: seq<(Key, Row)>)
    requires forall i :: 0 <= i < |rows| ==> Orderable(rows[i])
    ensures |r| == |rows| && forall i :: 0 <= i < |rows| ==> r[i] == (KeyOf(rows[i]), rows[i])
  {
    seq(|rows|, i requires 0 <= i < |rows| => (KeyOf(rows[i]), rows[i]))
  }

  /** Rows that were compared have keys, and a row's key is never above a later row's. */
  predicate Ascending(rows: seq<Row>) {
    |rows| >= 2 ==>
      (forall i :: 0 <= i < |rows| ==> Orderable(rows[i])) &&
      forall i, j :: 0 <= i < j < |rows| ==> KeyLe(KeyOf(rows[i]), KeyOf(rows[j]))
  }

  /** The rows ordered by their keys. */
  function SortByKey(rows: seq<Row>): seq<Row>
    requires forall i :: 0 <= i < |rows| ==> Orderable(rows[i])
  {
    Values(Sort(Decorate(rows)))
  }

  /**
   * `sorted(parsed, key=lambda x: (x["EventName"], x["CoursePosition"]))`: a row without either
   * entry raises a KeyError; with two rows or more, keys that cannot be ordered against each other
   * raise a TypeError.
   */
  function SortRows(rows: seq<Row>): (r: Result<seq<Row>, Error>)
    ensures r.Err? <==> (exists i :: 0 <= i < |rows| && !HasKeys(rows[i])) || (|rows| >= 2 && !Comparable(rows))
  {
    if exists i :: 0 <= i < |rows| && !HasKeys(rows[i]) then
      Err(Crash("KeyError: a row has no EventName or CoursePosition"))
    else if |rows| < 2 then
      Ok(rows)
    else if !Comparable(rows) then
      Err(Crash("TypeError: '<' not supported between the sort keys"))
    else
      Ok(SortByKey(rows))
  }

  /** The rows with key `k`, in order. */
  function WithKey(rows: seq<Row>, k: Key): seq<Row> {
    if rows == [] then []
    else (if Orderable(rows[0]) && KeyOf(rows[0]) == k then [rows[0]] else []) + WithKey(rows[1..], k)
  }

  lemma {:induction false} SelectWithKey(s: seq<(Key, Row)>, k: Key)
    requires forall i :: 0 <= i < |s| ==> Orderable(s[i].1) && s[i].0 == KeyOf(s[i].1)
    ensures Values(Select(s, k)) == WithKey(Values(s), k)
  {
    if s != [] {
      SelectWithKey(s[1..], k);
      assert Values(s)[1..] == Values(s[1..]);
      ValuesAppend(if s[0].0 == k then [s[0]] else [], Select(s[1..], k));
    }
  }

  /** Each element of the sorted rows still carries its own row's key. */
  lemma SortedDecorated(rows: seq<Row>)
    requires forall i :: 0 <= i < |rows| ==> Orderable(rows[i])
    ensures forall i :: 0 <= i < |Sort(Decorate(rows))| ==>
      Orderable(Sort(Decorate(rows))[i].1) && Sort(Decorate(rows))[i].0 == KeyOf(Sort(Decorate(rows))[i].1)
  {
    var d := Decorate(rows);
    var s := Sort(d);
    forall i | 0 <= i < |s| ensures Orderable(s[i].1) && s[i].0 == KeyOf(s[i].1) {
      assert s[i] in multiset(s);
      assert s[i] in multiset(d);
      var j :| 0 <= j < |d| && d[j] == s[i];
    }
  }

  lemma SortByKeyPermutes(rows: seq<Row>)
    requires forall i :: 0 <= i < |rows| ==> Orderable(rows[i])
    ensures multiset(SortByKey(rows)) == multiset(rows)
  {
    var d := Decorate(rows);
    assert Values(d) == rows;
    SortValues(d);
  }

  lemma SortByKeyAscending(rows: seq<Row>)
    requires forall i :: 0 <= i < |rows| ==> Orderable(rows[i])
    ensures Ascending(SortByKey(rows))
  {
    var s := Sort(Decorate(rows));
    SortSorted(Decorate(rows));
    SortedDecorated(rows);
    var out := SortByKey(rows);
    assert forall i :: 0 <= i < |out| ==> out[i] == s[i].1;
  }

  lemma SortByKeyStable(rows: seq<Row>, k: Key)
    requires forall i :: 0 <= i < |rows| ==> Orderable(rows[i])
    ensures WithKey(SortByKey(rows), k) == WithKey(rows, k)
  {
    var d := Decorate(rows);
    assert Values(d) == rows;
    SortStable(d, k);
    SortedDecorated(rows);
    SelectWithKey(Sort(d), k);
    SelectWithKey(d, k);
  }

  /**
   * The sorted rows are a permutation of the parsed rows, ascending by key, and rows of equal key
   * keep their order: the sort is stable.
   */
  lemma SortRowsSpec(rows: seq<Row>)
    requires SortRows(rows).Ok?
    ensures multiset(SortRows(rows).value) == multiset(rows)
    ensures Ascending(SortRows(rows).value)
    ensures forall k :: WithKey(SortRows(rows).value, k) == WithKey(rows, k)
  {
    if |rows| >= 2 {
      assert SortRows(rows).value == SortByKey(rows);
      SortByKeyPermutes(rows);
      SortByKeyAscending(rows);
      forall k ensures WithKey(SortByKey(rows), k) == WithKey(rows, k) {
        SortByKeyStable(rows, k);
      }
    } else {
      assert SortRows(rows).value == rows;
    }
  }

  // ---------------------------------------------------------------------------------------
  // Stamping

  /** Each row with `RaceName` set to the race, over any column of that name. */
  function RaceStamped(rows: seq<Row>, race: string): (r: seq<Row>)
    ensures |r| == |rows|
    ensures forall i :: 0 <= i < |rows| ==> r[i].Keys == rows[i].Keys + {"RaceName"}
    ensures forall i :: 0 <= i < |rows| ==> r[i]["RaceName"] == Plain(JStr(race))
    ensures forall i, k :: 0 <= i < |rows| && k in rows[i] && k != "RaceName" ==> r[i][k] == rows[i][k]
  {
    seq(|rows|, i requires 0 <= i < |rows| => rows[i]["RaceName" := Plain(JStr(race))])
  }

  /** The stamping loop of `_get_results_from_main`. */
  method StampRace(rows: seq<Row>, race: string) returns (r: seq<Row>)
    ensures r == RaceStamped(rows, race)
  {
    r := [];
    var i := 0;
    while i < |rows|
      invariant 0 <= i <= |rows|
      invariant r == RaceStamped(rows[..i], race)
    {
      var row := rows[i];
      row := row["RaceName" := Plain(JStr(race))];
      r := r + [row];
      i := i + 1;
    }
    assert rows[..i] == rows;
  }

  // ---------------------------------------------------------------------------------------
  // The race page

  /** What the scraper reads from the race page; None marks an element that is not there. */
  datatype Page = Page(
    title: Option<string>,              // the text of `title`
    dataSrcs: Option<seq<string>>)      // the `data-src` of each `div[data-src]` in `#myTabContent2`

  type Fetch = Url -> Option<Page>

  /** The display layouts for a display id (Python's `None` when there is none), or None when the request failed. */
  type LayoutsFor = Option<string> -> Option<seq<Layout>>

  /** The `Results` list the engine returns for a race id and a session id, or None when there is none. */
  type Engine = (Option<string>, string) -> Option<seq<Record>>

  /** The switch that turns on the include-all branch; off in the scraper as shipped. */
  const IncludeAllFields: bool := false

  /**
   * `_get_display_id`: the display id of the first `data-src` mentioning `DisplayId`, even when
   * no GUID follows it there; None when no `data-src` mentions it.
   */
  function DisplayId(srcs: seq<string>): (r: Option<string>)
    ensures r.Some? ==> IsGuid(r.value)
    ensures (forall i :: 0 <= i < |srcs| ==> !Contains(srcs[i], "DisplayId")) ==> r.None?
  {
    if srcs == [] then None
    else if Contains(srcs[0], "DisplayId") then DisplayIdOf(srcs[0])
    else DisplayId(srcs[1..])
  }

  /** Only the first `data-src` that mentions `DisplayId` is looked at. */
  lemma {:induction false} DisplayIdFirst(srcs: seq<string>, i: nat)
    requires i < |srcs| && Contains(srcs[i], "DisplayId")
    requires forall j :: 0 <= j < i ==> !Contains(srcs[j], "DisplayId")
    ensures DisplayId(srcs) == DisplayIdOf(srcs[i])
  {
    if i > 0 {
      assert forall j :: 0 <= j < i - 1 ==> srcs[1..][j] == srcs[j + 1];
      DisplayIdFirst(srcs[1..], i - 1);
    }
  }

  /** The columns of the first layout with the event-name column appended. */
  function LayoutColumns(layouts: Option<seq<Layout>>): (r: Result<seq<Column>, Error>)
    ensures r.Ok? ==> |r.value| >= 1 && r.value[|r.value| - 1] == EventNameColumn
    ensures r.Ok? <==> layouts.Some? && |layouts.value| >= 1 && layouts.value[0].columns.Some?
  {
    match layouts
    case None => Err(Crash("TypeError: 'NoneType' object is not subscriptable"))
    case Some(ls) =>
      if |ls| == 0 then Err(Crash("IndexError: no display layout"))
      else if ls[0].columns.None? then Err(Crash("KeyError: 'Columns'"))
      else Ok(ls[0].columns.value + [EventNameColumn])
  }

  /** `_get_results_from_main` for a downloaded race page. */
  function MainResults(p: Page, raceId: Option<string>, layouts: LayoutsFor, engine: Engine,
                       draw: nat, includeAll: bool): Result<seq<Row>, Error>
  {
    if p.title.None? then Err(Crash("AttributeError: the page has no title"))
    else if p.dataSrcs.None? then Err(Crash("AttributeError: the page has no #myTabContent2"))
    else
      match LayoutColumns(layouts(DisplayId(p.dataSrcs.value)))
      case Err(e) => Err(e)
      case Ok(columns) =>
        match engine(raceId, SessionId(draw))
        case None => Err(Crash("TypeError: the results engine returned no Results"))
        case Some(records) =>
          match ParseResults(columns, records, includeAll)
          case Err(e) => Err(e)
          case Ok(parsed) =>
            match SortRows(parsed)
            case Err(e) => Err(e)
            case Ok(sorted) => Ok(RaceStamped(sorted, p.title.value))
  }

  method ResultsFromMain(p: Page, raceId: Option<string>, layouts: LayoutsFor, engine: Engine,
                         draw: nat, includeAll: bool) returns (r: Result<seq<Row>, Error>)
    ensures r == MainResults(p, raceId, layouts, engine, draw, includeAll)
  {
    if p.title.None? {
      return Err(Crash("AttributeError: the page has no title"));
    }
    var race := p.title.value;
    if p.dataSrcs.None? {
      return Err(Crash("AttributeError: the page has no #myTabContent2"));
    }
    var displayId := DisplayId(p.dataSrcs.value);
    var columns := LayoutColumns(layouts(displayId));
    if columns.Err? {
      return Err(columns.error);
    }
    var response := engine(raceId, SessionId(draw));
    if response.None? {
      return Err(Crash("TypeError: the results engine returned no Results"));
    }
    var parsed := ParseRecords(columns.value, response.value, includeAll);
    if parsed.Err? {
      return Err(parsed.error);
    }
    var sorted := SortRows(parsed.value);
    if sorted.Err? {
      return Err(sorted.error);
    }
    var stamped := StampRace(sorted.value, race);
    r := Ok(stamped);
  }

  /**
   * What a successful scrape of a race page returns: one row per active record, each naming the
   * race, in ascending order of (EventName, CoursePosition).
   */
  lemma MainResultsRows(p: Page, raceId: Option<string>, layouts: LayoutsFor, engine: Engine,
                        draw: nat, includeAll: bool)
    requires MainResults(p, raceId, layouts, engine, draw, includeAll).Ok?
    ensures p.title.Some? && engine(raceId, SessionId(draw)).Some?
    ensures |MainResults(p, raceId, layouts, engine, draw, includeAll).value|
      == |Kept(engine(raceId, SessionId(draw)).value)|
    ensures forall i :: 0 <= i < |MainResults(p, raceId, layouts, engine, draw, includeAll).value| ==>
      MainResults(p, raceId, layouts, engine, draw, includeAll).value[i]["RaceName"] == Plain(JStr(p.title.value))
    ensures Ascending(MainResults(p, raceId, layouts, engine, draw, includeAll).value)
  {
    var columns := LayoutColumns(layouts(DisplayId(p.dataSrcs.value))).value;
    var records := engine(raceId, SessionId(draw)).value;
    assert ParseResults(columns, records, includeAll).Ok?;
    var parsed := ParseResults(columns, records, includeAll).value;
    assert SortRows(parsed).Ok?;
    assert MainResults(p, raceId, layouts, engine, draw, includeAll) == Ok(RaceStamped(SortRows(parsed).value, p.title.value));
    ParsedSortedStamped(columns, records, includeAll, p.title.value);
  }

  /** The parse, the sort and the stamping together. */
  lemma ParsedSortedStamped(columns: seq<Column>, records: seq<Record>, includeAll: bool, race: string)
    requires ParseResults(columns, records, includeAll).Ok?
    requires SortRows(ParseResults(columns, records, includeAll).value).Ok?
    ensures |RaceStamped(SortRows(ParseResults(columns, records, includeAll).value).value, race)| == |Kept(records)|
    ensures forall i :: 0 <= i < |RaceStamped(SortRows(ParseResults(columns, records, includeAll).value).value, race)| ==>
      RaceStamped(SortRows(ParseResults(columns, records, includeAll).value).value, race)[i]["RaceName"] == Plain(JStr(race))
    ensures Ascending(RaceStamped(SortRows(ParseResults(columns, records, includeAll).value).value, race))
  {
    var parsed := ParseResults(columns, records, includeAll).value;
    ParseAllRows(columns, Kept(records), includeAll);
    SortRowsSpec(parsed);
    var sorted := SortRows(parsed).value;
    assert |sorted| == |parsed| by {
      assert |multiset(sorted)| == |multiset(parsed)|;
    }
    RaceStampedAscending(sorted, race);
  }

  /** Stamping the race name leaves the sort keys as they were. */
  lemma RaceStampedAscending(rows: seq<Row>, race: string)
    requires Ascending(rows)
    ensures Ascending(RaceStamped(rows, race))
  {
    var r := RaceStamped(rows, race);
    if |rows| >= 2 {
      forall i | 0 <= i < |r| ensures Orderable(r[i]) && KeyOf(r[i]) == KeyOf(rows[i]) {
        StampedKey(rows, race, i);
      }
    }
  }

  lemma StampedKey(rows: seq<Row>, race: string, i: nat)
    requires i < |rows| && Orderable(rows[i])
    ensures Orderable(RaceStamped(rows, race)[i]) && KeyOf(RaceStamped(rows, race)[i]) == KeyOf(rows[i])
  {
    var r := RaceStamped(rows, race)[i];
    assert "EventName" in r && "CoursePosition" in r;
    assert r["EventName"] == rows[i]["EventName"] && r["CoursePosition"] == rows[i]["CoursePosition"];
  }

  /** The scraper object for a live.mobii.com race URL; `GetResults` records the race id it found. */
  class MobiiEliteScraper {
    var url: Url
    var raceId: Option<string>

    constructor (url: Url)
      ensures this.url == url && raceId == None
    {
      this.url := url;
      raceId := None;
    }

    /**
     * `get_results`: the race id of the URL, the fixed race URL, and the results of its page; a
     * failed download gives no rows. `draw` is the random draw behind the session id.
     */
    method GetResults(fetch: Fetch, layouts: LayoutsFor, engine: Engine, draw: nat) returns (r: Result<seq<Row>, Error>)
      modifies this
      ensures url == old(url) && raceId == RaceId(url.text)
      ensures fetch(FixMainPageUrl(url, raceId)).None? ==> r == Ok([])
      ensures fetch(FixMainPageUrl(url, raceId)).Some? ==>
        r == MainResults(fetch(FixMainPageUrl(url, raceId)).value, raceId, layouts, engine, draw, IncludeAllFields)
    {
      raceId := RaceId(url.text);
      var fixed := FixMainPageUrl(url, raceId);
      var page := fetch(fixed);
      if page.None? {
        return Ok([]);
      }
      r := ResultsFromMain(page.value, raceId, layouts, engine, draw, IncludeAllFields);
    }
  }

  // ---------------------------------------------------------------------------------------
  // The session id

  /** `str.zfill(width)` on a string without a sign: left-padded with zeros up to `width`. */
  function ZFill(s: string, width: nat): (r: string)
    ensures |r| == if |s| < width then width else |s|
    ensures s == r[|r| - |s|..]
    ensures forall i :: 0 <= i < |r| - |s| ==> r[i] == '0'
  {
    if |s| < width then seq(width - |s|, _ => '0') + s else s
  }

  /**
   * `_generate_session_id` for the integer `draw` that `int(random.random() * pow(36, 4))` gave:
   * the last four characters of `("0000" + format(draw, "x")).zfill(4)`.
   */
  function SessionId(draw: nat): (id: string)
    ensures |id| == 4 && AllHex(id)
    ensures HexValue(id) == draw % 65536
  {
    var h := "0000" + Hex(draw);
    var s := ZFill(h, 4);
    assert s == h;
    HexLeadingZeros(Hex(draw));
    HexLastFour(h);
    s[|s| - 4..]
  }
}
