/** The row layout of `write_to_csv`. The reference layout groups the tree
    into blocks (maximal runs of consecutive entries with the same table
    name, their columns concatenated) and renders the blocks one after the
    other with a single blank row between neighbours. WriteToCsv follows the
    source's loop, which tracks the previous table name, and is proved to
    produce exactly the reference layout. */
module CsvLayout {
  import opened Report

  /** One CSV record, as the list of cells handed to the csv writer. */
  type Row = seq<string>

  /** The separator record written between two blocks. */
  const Blank: Row := []

  /** The first row of a block: `Table:` and the table name. */
  function TitleRow(name: string): Row
  {
    ["Table:", name]
  }

  /** The second row of a block, left for a hand-written description. */
  const DescriptionRow: Row := ["Description:"]

  /** The column header row, six cells with a trailing empty one. */
  const HeaderRow: Row := ["Column Name", "Data Type", "Nullable", "Constraints", "Description", ""]

  /** The record written for one column, five cells with a trailing empty one. */
  function DataRow(c: Column): Row
  {
    [c.name, c.dataType, c.isNullable, c.constraints, ""]
  }

  /** The records of a column list, one per column, in order. */
  function DataRows(cs: seq<Column>): seq<Row>
  {
    seq(|cs|, i requires 0 <= i < |cs| => DataRow(cs[i]))
  }

  /** A group of columns written under one header. */
  datatype Block = Block(name: string, columns: seq<Column>)

  /** The rows of one block: title, description, header, one row per column. */
  function BlockRows(b: Block): seq<Row>
  {
    [TitleRow(b.name), DescriptionRow, HeaderRow] + DataRows(b.columns)
  }

  /** Groups the tree into blocks: an entry whose table name equals the name
      of the block before it extends that block, any other entry opens a new one. */
  function Blocks(ts: seq<TableInfo>): (bs: seq<Block>)
    ensures |bs| <= |ts|
    ensures bs == [] <==> ts == []
    ensures bs != [] ==> bs[0].name == ts[0].tableName
    ensures bs != [] ==> bs[|bs| - 1].name == ts[|ts| - 1].tableName
    decreases |ts|
  {
    if ts == [] then []
    else
      var bs := Blocks(ts[..|ts| - 1]);
      var t := ts[|ts| - 1];
      if bs != [] && bs[|bs| - 1].name == t.tableName then
        bs[..|bs| - 1] + [Block(t.tableName, bs[|bs| - 1].columns + t.columns)]
      else
        bs + [Block(t.tableName, t.columns)]
  }

  /** The rows of the first m blocks, in order, with one blank row between
      neighbours. */
  function SheetOf(bs: seq<Block>, m: nat): seq<Row>
    requires m <= |bs|
  {
    if m == 0 then []
    else if m == 1 then BlockRows(bs[0])
    else SheetOf(bs, m - 1) + [Blank] + BlockRows(bs[m - 1])
  }

  /** The rows of all blocks. */
  function Sheet(bs: seq<Block>): seq<Row>
  {
    SheetOf(bs, |bs|)
  }

  /** The rows of the first m blocks depend on those blocks only. */
  lemma {:induction false} SheetOfAgree(bs: seq<Block>, cs: seq<Block>, m: nat)
    requires m <= |bs| && m <= |cs|
    requires forall i :: 0 <= i < m ==> bs[i] == cs[i]
    ensures SheetOf(bs, m) == SheetOf(cs, m)
  {
    if m > 1 {
      SheetOfAgree(bs, cs, m - 1);
    }
  }

  /** The reference layout of a whole tree. */
  function Layout(ts: seq<TableInfo>): seq<Row>
  {
    Sheet(Blocks(ts))
  }

  /** The concatenation of the rows of two column lists is the rows of
      their concatenation. */
  lemma DataRowsAppend(a: seq<Column>, b: seq<Column>)
    ensures DataRows(a + b) == DataRows(a) + DataRows(b)
  {
  }

  /** An entry whose name differs from the previous entry's (or that comes
      first) adds a blank separator unless it is first, then a whole new block. */
  lemma LayoutAppendNew(ts: seq<TableInfo>, t: TableInfo)
    requires ts == [] || ts[|ts| - 1].tableName != t.tableName
    ensures Layout(ts + [t]) ==
      Layout(ts) + (if ts == [] then [] else [Blank]) + BlockRows(Block(t.tableName, t.columns))
  {
    assert (ts + [t])[..|ts|] == ts;
    var bs := Blocks(ts);
    var bs' := Blocks(ts + [t]);
    assert bs' == bs + [Block(t.tableName, t.columns)];
    if ts != [] {
      SheetOfAgree(bs, bs', |bs|);
    }
  }

  /** An entry whose name equals the previous entry's adds only its data rows:
      no blank row and no header rows. */
  lemma LayoutAppendSame(ts: seq<TableInfo>, t: TableInfo)
    requires ts != [] && ts[|ts| - 1].tableName == t.tableName
    ensures Layout(ts + [t]) == Layout(ts) + DataRows(t.columns)
  {
    assert (ts + [t])[..|ts|] == ts;
    var bs := Blocks(ts);
    var last := bs[|bs| - 1];
    var init := bs[..|bs| - 1];
    var merged := Block(t.tableName, last.columns + t.columns);
    assert Blocks(ts + [t]) == init + [merged];
    assert bs == init + [last];
    DataRowsAppend(last.columns, t.columns);
    assert BlockRows(merged) == BlockRows(last) + DataRows(t.columns);
    if init != [] {
      SheetOfAgree(init + [merged], init + [last], |init|);
    }
  }

  /** The inner loop of `write_to_csv`: one record per column, in order. */
  method WriteColumns(cs: seq<Column>) returns (rows: seq<Row>)
    ensures |rows| == |cs|
    ensures forall j :: 0 <= j < |cs| ==> rows[j] == DataRow(cs[j])
  {
    rows := [];
    var j := 0;
    while j < |cs|
      invariant 0 <= j <= |cs|
      invariant |rows| == j
      invariant forall k :: 0 <= k < j ==> rows[k] == DataRow(cs[k])
    {
      rows := rows + [DataRow(cs[j])];
      j := j + 1;
    }
  }

  /** The rows one more entry contributes to the reference layout: its data
      rows under the open header when its name equals the previous entry's,
      otherwise a separator (unless it comes first) and a new block. */
  lemma LayoutStep(ts: seq<TableInfo>, i: nat)
    requires i < |ts|
    ensures Layout(ts[..i + 1]) == Layout(ts[..i]) +
      if i > 0 && ts[i - 1].tableName == ts[i].tableName then DataRows(ts[i].columns)
      else (if i == 0 then [] else [Blank]) + BlockRows(Block(ts[i].tableName, ts[i].columns))
  {
    assert ts[..i + 1] == ts[..i] + [ts[i]];
    if i > 0 && ts[i - 1].tableName == ts[i].tableName {
      LayoutAppendSame(ts[..i], ts[i]);
    } else {
      LayoutAppendNew(ts[..i], ts[i]);
    }
  }

  /** One iteration of the outer loop of `write_to_csv`: the rows written for
      entry t given the previous table name, and the new previous name. */
  method WriteEntry(current: Option<string>, t: TableInfo) returns (out: seq<Row>, next: Option<string>)
    ensures next == Some(t.tableName)
    ensures current == Some(t.tableName) ==> out == DataRows(t.columns)
    ensures current != Some(t.tableName) ==>
      out == (if current.Some? then [Blank] else []) + BlockRows(Block(t.tableName, t.columns))
  {
    out := [];
    next := current;
    if current != Some(t.tableName) {
      if current.Some? {
        out := out + [Blank];
      }
      next := Some(t.tableName);
      out := out + [TitleRow(t.tableName), DescriptionRow, HeaderRow];
    }
    var data := WriteColumns(t.columns);
    assert data == DataRows(t.columns);
    out := out + data;
  }

  /** `write_to_csv` without the file: the rows handed to the csv writer, in
      order. `current` is the source's `current_table`, None before the first entry. */
  method WriteToCsv(tables: seq<TableInfo>) returns (rows: seq<Row>)
    ensures rows == Layout(tables)
    ensures tables == [] ==> rows == []
  {
    rows := [];
    var current: Option<string> := None;
    var i := 0;
    while i < |tables|
      invariant 0 <= i <= |tables|
      invariant rows == Layout(tables[..i])
      invariant current == if i == 0 then None else Some(tables[i - 1].tableName)
    {
      var out;
      out, current := WriteEntry(current, tables[i]);
      LayoutStep(tables, i);
      rows := rows + out;
      i := i + 1;
    }
    assert tables[..i] == tables;
  }
}
