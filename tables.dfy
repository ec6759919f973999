/**
 * Turning an HTML results table into dictionaries, as the Finishtime, Bouttime and UltimateDk
 * scrapers do: the header row becomes a map from column position to a proper-cased column name,
 * and every body row becomes a dictionary holding the stripped text of the cells at the mapped
 * positions.
 */
module Tables {
  import opened Wrappers
  import opened Text

  /** An element of a table row: its tag name, its CSS classes and its text. */
  datatype Cell = Cell(tag: string, classes: seq<string>, text: string)

  /** A results row, column name to cell text. */
  type Row = map<string, string>

  /** Column position to column name. */
  type Headers = map<nat, string>

  /** The class that marks a header cell shown only on small screens. */
  const ExcludedClass := "d-xs-table-cell"

  /** The elements whose tag is one of `tags`, in document order. */
  function Filter(cells: seq<Cell>, tags: set<string>): (r: seq<Cell>)
    ensures |r| <= |cells|
    ensures forall c :: c in r <==> c in cells && c.tag in tags
  {
    if cells == [] then []
    else (if cells[0].tag in tags then [cells[0]] else []) + Filter(cells[1..], tags)
  }

  /** Filtering keeps document order: the kept cells of two runs are those of each, in turn. */
  lemma {:induction false} FilterAppend(a: seq<Cell>, b: seq<Cell>, tags: set<string>)
    ensures Filter(a + b, tags) == Filter(a, tags) + Filter(b, tags)
  {
    if a == [] {
      assert a + b == b;
    } else {
      assert (a + b)[1..] == a[1..] + b;
      FilterAppend(a[1..], b, tags);
    }
  }

  predicate Kept(c: Cell, skipExcluded: bool) {
    !skipExcluded || ExcludedClass !in c.classes
  }

  /** The column name a header cell gives. */
  function ColumnName(c: Cell): string {
    ProperCase(c.text)
  }

  /**
   * `dict((i, propercase(c.text)) for i, c in enumerate(cells) if keep(c))`: positions count every
   * header cell, also the ones that are skipped.
   */
  function HeaderMap(cells: seq<Cell>, skipExcluded: bool): Headers {
    map i: nat | i < |cells| && Kept(cells[i], skipExcluded) :: ColumnName(cells[i])
  }

  /** Skipping one more header cell removes exactly its position and renumbers nothing. */
  lemma HeaderMapExclude(cells: seq<Cell>, i: nat, c: Cell)
    requires i < |cells|
    requires ExcludedClass in c.classes
    ensures HeaderMap(cells[i := c], true) == HeaderMap(cells, true) - {i}
  {
    ExcludeKeys(cells, i, c);
    ExcludeValues(cells, i, c);
  }

  lemma ExcludeKeys(cells: seq<Cell>, i: nat, c: Cell)
    requires i < |cells|
    requires ExcludedClass in c.classes
    ensures HeaderMap(cells[i := c], true).Keys == HeaderMap(cells, true).Keys - {i}
  {
    var cs := cells[i := c];
    var a, b := HeaderMap(cs, true), HeaderMap(cells, true) - {i};
    forall j: nat ensures j in a <==> j in b {
      if j < |cells| && j != i {
        assert cs[j] == cells[j];
      }
    }
  }

  lemma ExcludeValues(cells: seq<Cell>, i: nat, c: Cell)
    requires i < |cells|
    ensures forall j :: j in HeaderMap(cells[i := c], true) && j != i ==>
      j in HeaderMap(cells, true) && HeaderMap(cells[i := c], true)[j] == HeaderMap(cells, true)[j]
  {
    var cs := cells[i := c];
    forall j | j in HeaderMap(cs, true) && j != i
      ensures j in HeaderMap(cells, true) && HeaderMap(cs, true)[j] == HeaderMap(cells, true)[j]
    {
      assert cs[j] == cells[j];
    }
  }

  /** The header names of the kept cells, at their positions. */
  lemma HeaderMapLookup(cells: seq<Cell>, skipExcluded: bool, i: nat)
    ensures i in HeaderMap(cells, skipExcluded) <==> i < |cells| && Kept(cells[i], skipExcluded)
    ensures i in HeaderMap(cells, skipExcluded) ==> HeaderMap(cells, skipExcluded)[i] == ColumnName(cells[i])
  {
  }

  // ---------------------------------------------------------------------------------------
  // Body rows

  /** `cell.text.strip()` */
  function CellText(c: Cell): string {
    Strip(c.text)
  }

  /** The row filled in cell by cell: a mapped position sets its column to the stripped text. */
  function Label(h: Headers, cells: seq<Cell>): Row
    decreases |cells|
  {
    if cells == [] then map[]
    else
      var n := |cells| - 1;
      var r := Label(h, cells[..n]);
      if n in h then r[h[n] := CellText(cells[n])] else r
  }

  /** One more cell of a prefix: a mapped position sets its column, any other changes nothing. */
  lemma LabelPrefixStep(h: Headers, cells: seq<Cell>, i: nat)
    requires i < |cells|
    ensures Label(h, cells[..i + 1])
      == if i in h then Label(h, cells[..i])[h[i] := CellText(cells[i])] else Label(h, cells[..i])
  {
    assert cells[..i + 1][..i] == cells[..i];
  }

  /** `result = {}; for i, cell in enumerate(cells): if i in headers: result[headers[i]] = cell.text.strip()` */
  method LabelRow(h: Headers, cells: seq<Cell>) returns (r: Row)
    ensures r == Label(h, cells)
  {
    r := map[];
    var i := 0;
    while i < |cells|
      invariant 0 <= i <= |cells|
      invariant r == Label(h, cells[..i])
    {
      LabelPrefixStep(h, cells, i);
      if i in h {
        r := r[h[i] := CellText(cells[i])];
      }
      i := i + 1;
    }
    assert cells[..|cells|] == cells;
  }

  /** A column is present exactly when some cell sits at a position the header maps to it. */
  lemma {:induction false} LabelKeys(h: Headers, cells: seq<Cell>, name: string)
    ensures name in Label(h, cells) <==> exists i: nat :: i < |cells| && i in h && h[i] == name
    decreases |cells|
  {
    if cells != [] {
      var n := |cells| - 1;
      LabelKeys(h, cells[..n], name);
      if name in Label(h, cells[..n]) {
        var i: nat :| i < n && i in h && h[i] == name;
        assert i < |cells|;
      }
    }
  }

  /** One step of the labelling: the last cell, when mapped, sets its column over the earlier cells' row. */
  lemma LabelUnfold(h: Headers, cells: seq<Cell>)
    requires cells != []
    ensures var n := |cells| - 1;
      Label(h, cells) == if n in h then Label(h, cells[..n])[h[n] := CellText(cells[n])] else Label(h, cells[..n])
  {
  }

  /** The last cell either sets its column or leaves the row as the earlier cells made it. */
  lemma LabelLast(h: Headers, cells: seq<Cell>, k: string)
    requires cells != []
    ensures var n := |cells| - 1;
      k in Label(h, cells) <==> (n in h && h[n] == k) || k in Label(h, cells[..n])
    ensures var n := |cells| - 1;
      k in Label(h, cells) ==>
        Label(h, cells)[k] == if n in h && h[n] == k then CellText(cells[n]) else Label(h, cells[..n])[k]
  {
  }

  /** Cells that do not map to `k` leave the entry for `k` as the earlier cells made it. */
  lemma {:induction false} LabelFrame(h: Headers, cells: seq<Cell>, m: nat, k: string)
    requires m <= |cells|
    requires forall j: nat :: m <= j < |cells| && j in h ==> h[j] != k
    ensures k in Label(h, cells) <==> k in Label(h, cells[..m])
    ensures k in Label(h, cells) ==> Label(h, cells)[k] == Label(h, cells[..m])[k]
    decreases |cells|
  {
    if |cells| == m {
      assert cells[..m] == cells;
    } else {
      var n := |cells| - 1;
      LabelLast(h, cells, k);
      assert n in h ==> h[n] != k;
      LabelFrame(h, cells[..n], m, k);
      assert cells[..n][..m] == cells[..m];
    }
  }

  /** A column holds the stripped text of the last cell mapped to it. */
  lemma LabelValue(h: Headers, cells: seq<Cell>, i: nat)
    requires i < |cells| && i in h
    requires forall j: nat :: i < j < |cells| && j in h ==> h[j] != h[i]
    ensures h[i] in Label(h, cells) && Label(h, cells)[h[i]] == CellText(cells[i])
  {
    var prefix := cells[..i + 1];
    LabelFrame(h, cells, i + 1, h[i]);
    LabelLast(h, prefix, h[i]);
    assert prefix[i] == cells[i];
  }

  /** Cells past the last header position are dropped. */
  lemma {:induction false} LabelWidth(h: Headers, cells: seq<Cell>, w: nat)
    requires w <= |cells|
    requires forall i :: i in h ==> i < w
    ensures Label(h, cells) == Label(h, cells[..w])
    decreases |cells|
  {
    if w < |cells| {
      var n := |cells| - 1;
      assert cells[..n][..w] == cells[..w];
      LabelWidth(h, cells[..n], w);
    } else {
      assert cells[..w] == cells;
    }
  }

  // ---------------------------------------------------------------------------------------
  // Stamping rows with the race and event names

  /** `row["RaceName"] = race; row["EventName"] = event` */
  function StampRow(row: Row, race: string, event: string): (r: Row)
    ensures r.Keys == row.Keys + {"RaceName", "EventName"}
    ensures r["RaceName"] == race && r["EventName"] == event
    ensures forall k :: k in row && k != "RaceName" && k != "EventName" ==> r[k] == row[k]
  {
    row["RaceName" := race]["EventName" := event]
  }

  function Stamped(rows: seq<Row>, race: string, event: string): (r: seq<Row>)
    ensures |r| == |rows|
    ensures forall i :: 0 <= i < |rows| ==> r[i] == StampRow(rows[i], race, event)
  {
    seq(|rows|, i requires 0 <= i < |rows| => StampRow(rows[i], race, event))
  }

  /** The rows of several events, one block after the other. */
  function Flatten(blocks: seq<seq<Row>>): seq<Row>
    decreases |blocks|
  {
    if blocks == [] then [] else Flatten(blocks[..|blocks| - 1]) + blocks[|blocks| - 1]
  }

  /**
   * The rows of several sources (the events or distances of a race) read one after the other,
   * each block stamped with the race name and its source's name, or the first error.
   */
  function StampedReads<S, E>(sources: seq<S>, race: string, read: S -> Result<seq<Row>, E>, name: S -> string): Result<seq<Row>, E>
    decreases |sources|
  {
    if sources == [] then Ok([])
    else
      match StampedReads(sources[..|sources| - 1], race, read, name)
      case Err(e) => Err(e)
      case Ok(rows) =>
        match read(sources[|sources| - 1])
        case Err(e) => Err(e)
        case Ok(more) => Ok(rows + Stamped(more, race, name(sources[|sources| - 1])))
  }

  /** A single source gives its own rows, stamped with its name. */
  lemma StampedReadsOne<S, E>(sources: seq<S>, race: string, read: S -> Result<seq<Row>, E>, name: S -> string)
    requires |sources| == 1
    ensures read(sources[0]).Ok? ==>
      StampedReads(sources, race, read, name) == Ok(Stamped(read(sources[0]).value, race, name(sources[0])))
    ensures read(sources[0]).Err? ==> StampedReads(sources, race, read, name) == Err(read(sources[0]).error)
  {
    assert sources[..0] == [];
    if read(sources[0]).Ok? {
      var stamped := Stamped(read(sources[0]).value, race, name(sources[0]));
      assert [] + stamped == stamped;
    }
  }

  /** Block i is the rows source i read, stamped with the race name and source i's name. */
  predicate ReadBlocks<S, E>(blocks: seq<seq<Row>>, sources: seq<S>, race: string, read: S -> Result<seq<Row>, E>, name: S -> string) {
    |blocks| == |sources| &&
    forall i :: 0 <= i < |sources| ==>
      read(sources[i]).Ok? && blocks[i] == Stamped(read(sources[i]).value, race, name(sources[i]))
  }

  /** A successful read is one block per source, in source order. */
  lemma {:induction false} StampedReadsBlocks<S, E>(sources: seq<S>, race: string, read: S -> Result<seq<Row>, E>, name: S -> string)
    requires StampedReads(sources, race, read, name).Ok?
    ensures exists blocks ::
        ReadBlocks(blocks, sources, race, read, name) && Flatten(blocks) == StampedReads(sources, race, read, name).value
    decreases |sources|
  {
    if sources == [] {
      var blocks: seq<seq<Row>> := [];
      assert ReadBlocks(blocks, sources, race, read, name) && Flatten(blocks) == [];
    } else {
      var init, last := sources[..|sources| - 1], sources[|sources| - 1];
      StampedReadsBlocks(init, race, read, name);
      var bs :| ReadBlocks(bs, init, race, read, name) && Flatten(bs) == StampedReads(init, race, read, name).value;
      var blocks := bs + [Stamped(read(last).value, race, name(last))];
      assert blocks[..|blocks| - 1] == bs;
      assert Flatten(blocks) == StampedReads(sources, race, read, name).value;
      forall i | 0 <= i < |sources|
        ensures read(sources[i]).Ok? && blocks[i] == Stamped(read(sources[i]).value, race, name(sources[i]))
      {
        if i < |init| {
          assert sources[i] == init[i] && blocks[i] == bs[i];
        }
      }
      assert ReadBlocks(blocks, sources, race, read, name);
    }
  }

  /** Every row of a stamped block carries the race name and the block's name, and keeps its other entries. */
  lemma StampedCarries(rows: seq<Row>, race: string, event: string, j: nat)
    requires j < |rows|
    ensures j < |Stamped(rows, race, event)|
    ensures var r := Stamped(rows, race, event)[j];
      "RaceName" in r && r["RaceName"] == race && "EventName" in r && r["EventName"] == event &&
      forall k :: k in rows[j] && k != "RaceName" && k != "EventName" ==> k in r && r[k] == rows[j][k]
  {
  }

  /** The stamping loop over the rows of one event. */
  method Stamp(rows: seq<Row>, race: string, event: string) returns (r: seq<Row>)
    ensures r == Stamped(rows, race, event)
  {
    r := [];
    var i := 0;
    while i < |rows|
      invariant 0 <= i <= |rows|
      invariant r == Stamped(rows[..i], race, event)
    {
      var row := rows[i];
      row := row["RaceName" := race];
      row := row["EventName" := event];
      r := r + [row];
      i := i + 1;
    }
    assert rows[..|rows|] == rows;
  }
}
