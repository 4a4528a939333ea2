/** What the reference layout means: blocks are the maximal runs of
    same-named entries, every column appears once and in order, each block
    sits whole at a known offset, and exactly one blank row separates
    neighbouring blocks. */
module LayoutFacts {
  import opened Report
  import opened CsvLayout

  /** All columns of the tree, entry after entry. */
  function TableColumns(ts: seq<TableInfo>): seq<Column>
    decreases |ts|
  {
    if ts == [] then [] else TableColumns(ts[..|ts| - 1]) + ts[|ts| - 1].columns
  }

  /** All columns of the blocks, block after block. */
  function BlockColumns(bs: seq<Block>): seq<Column>
    decreases |bs|
  {
    if bs == [] then [] else BlockColumns(bs[..|bs| - 1]) + bs[|bs| - 1].columns
  }

  /** The number of entries whose table name differs from the previous
      entry's (the first entry always counts): the number of header blocks. */
  function RunCount(ts: seq<TableInfo>): nat
    decreases |ts|
  {
    if ts == [] then 0
    else
      var n := |ts|;
      RunCount(ts[..n - 1]) + if n > 1 && ts[n - 2].tableName == ts[n - 1].tableName then 0 else 1
  }

  /** Neighbouring entries never share a table name. */
  predicate NamesChange(ts: seq<TableInfo>)
  {
    forall i :: 0 < i < |ts| ==> ts[i - 1].tableName != ts[i].tableName
  }

  /** The rows with exactly `width` cells, in order. Widths tell the row kinds
      apart: 0 blank, 1 description, 2 title, 5 data, 6 header. */
  function Select(rows: seq<Row>, width: nat): seq<Row>
    decreases |rows|
  {
    if rows == [] then []
    else
      var last := rows[|rows| - 1];
      Select(rows[..|rows| - 1], width) + if |last| == width then [last] else []
  }

  /** Row index at which block k begins: every earlier block plus its
      following separator. */
  function Start(bs: seq<Block>, k: nat): nat
    requires k <= |bs|
  {
    if k == 0 then 0 else Start(bs, k - 1) + |BlockRows(bs[k - 1])| + 1
  }

  lemma BlockColumnsAppend(bs: seq<Block>, b: Block)
    ensures BlockColumns(bs + [b]) == BlockColumns(bs) + b.columns
  {
  }

  /** Grouping loses no column and reorders none. */
  lemma {:induction false} BlocksKeepColumns(ts: seq<TableInfo>)
    ensures BlockColumns(Blocks(ts)) == TableColumns(ts)
    decreases |ts|
  {
    if ts != [] {
      var p := ts[..|ts| - 1];
      var t := ts[|ts| - 1];
      var bs := Blocks(p);
      BlocksKeepColumns(p);
      if bs != [] && bs[|bs| - 1].name == t.tableName {
        var init := bs[..|bs| - 1];
        var last := bs[|bs| - 1];
        assert bs == init + [last];
        BlockColumnsAppend(init, last);
        BlockColumnsAppend(init, Block(t.tableName, last.columns + t.columns));
      } else {
        BlockColumnsAppend(bs, Block(t.tableName, t.columns));
      }
    }
  }

  /** Neighbouring blocks have different names, so each block is a maximal
      run of equal names. */
  lemma {:induction false} BlocksAdjacentDistinct(ts: seq<TableInfo>)
    ensures forall k :: 0 < k < |Blocks(ts)| ==> Blocks(ts)[k - 1].name != Blocks(ts)[k].name
    decreases |ts|
  {
    if ts != [] {
      BlocksAdjacentDistinct(ts[..|ts| - 1]);
    }
  }

  /** There is one block per name change, counting the first entry. */
  lemma {:induction false} BlockCount(ts: seq<TableInfo>)
    ensures |Blocks(ts)| == RunCount(ts)
    decreases |ts|
  {
    if ts != [] {
      BlockCount(ts[..|ts| - 1]);
      if |ts| > 1 {
        assert ts[..|ts| - 1][|ts| - 2] == ts[|ts| - 2];
      }
    }
  }

  /** When every entry's name differs from the previous one, each entry is a
      block of its own, in order. */
  lemma {:induction false} DistinctNamesBlocks(ts: seq<TableInfo>)
    requires NamesChange(ts)
    ensures Blocks(ts) == seq(|ts|, i requires 0 <= i < |ts| => Block(ts[i].tableName, ts[i].columns))
    decreases |ts|
  {
    if ts != [] {
      var p := ts[..|ts| - 1];
      assert NamesChange(p) by {
        forall i | 0 < i < |p| ensures p[i - 1].tableName != p[i].tableName {
          assert p[i - 1] == ts[i - 1] && p[i] == ts[i];
        }
      }
      DistinctNamesBlocks(p);
    }
  }

  /** The first m blocks fill Start(bs, m) - 1 rows: the layout ends right
      after its last block. */
  lemma {:induction false} SheetLength(bs: seq<Block>, m: nat)
    requires 0 < m <= |bs|
    ensures |SheetOf(bs, m)| + 1 == Start(bs, m)
  {
    if m > 1 {
      SheetLength(bs, m - 1);
    }
  }

  /** Every block adds its three header rows, its data rows and one
      separator to the offsets. */
  lemma {:induction false} StartCount(bs: seq<Block>, m: nat)
    requires m <= |bs|
    ensures Start(bs, m) == 4 * m + |BlockColumns(bs[..m])|
  {
    if m > 0 {
      StartCount(bs, m - 1);
      assert bs[..m] == bs[..m - 1] + [bs[m - 1]];
      BlockColumnsAppend(bs[..m - 1], bs[m - 1]);
    }
  }

  /** Row j of block k is row Start(bs, k) + j of the layout. */
  lemma {:induction false} SheetRowAt(bs: seq<Block>, m: nat, k: nat, j: nat)
    requires k < m <= |bs| && j < |BlockRows(bs[k])|
    ensures Start(bs, k) + j < |SheetOf(bs, m)|
    ensures SheetOf(bs, m)[Start(bs, k) + j] == BlockRows(bs[k])[j]
  {
    if m > 1 {
      SheetLength(bs, m - 1);
      if k < m - 1 {
        SheetRowAt(bs, m - 1, k, j);
      }
    }
  }

  /** The row just before every block but the first is blank. */
  lemma {:induction false} SheetBlankBefore(bs: seq<Block>, m: nat, k: nat)
    requires 0 < k < m <= |bs|
    ensures Start(bs, k) - 1 < |SheetOf(bs, m)|
    ensures SheetOf(bs, m)[Start(bs, k) - 1] == Blank
  {
    SheetLength(bs, m - 1);
    if k < m - 1 {
      SheetBlankBefore(bs, m - 1, k);
    }
  }

  /** Block k occupies the rows from Start(bs, k) on, whole and unchanged,
      and the row just before it (for every block but the first) is blank. */
  lemma SheetBlockAt(bs: seq<Block>, k: nat)
    requires k < |bs|
    ensures Start(bs, k) + |BlockRows(bs[k])| <= |Sheet(bs)|
    ensures Sheet(bs)[Start(bs, k)..Start(bs, k) + |BlockRows(bs[k])|] == BlockRows(bs[k])
    ensures k > 0 ==> Sheet(bs)[Start(bs, k) - 1] == Blank
  {
    var rows := BlockRows(bs[k]);
    var a := Start(bs, k);
    SheetRowAt(bs, |bs|, k, |rows| - 1);
    forall j | 0 <= j < |rows|
      ensures Sheet(bs)[a + j] == rows[j]
    {
      SheetRowAt(bs, |bs|, k, j);
    }
    if k > 0 {
      SheetBlankBefore(bs, |bs|, k);
    }
  }

  /** Every block but the last is followed directly by a blank row, which is
      directly followed by the next block: one separator and nothing else. */
  lemma BlocksSeparatedByOneBlank(bs: seq<Block>, k: nat)
    requires k + 1 < |bs|
    ensures Start(bs, k) + |BlockRows(bs[k])| + 1 == Start(bs, k + 1)
    ensures Start(bs, k + 1) <= |Sheet(bs)|
    ensures Sheet(bs)[Start(bs, k) + |BlockRows(bs[k])|] == Blank
  {
    SheetBlockAt(bs, k + 1);
  }

  /** The layout starts with the first block's title row and does not end
      with a blank row. */
  lemma SheetEnds(bs: seq<Block>)
    requires bs != []
    ensures Sheet(bs)[0] == TitleRow(bs[0].name)
    ensures Sheet(bs)[|Sheet(bs)| - 1] != Blank
  {
    var n := |bs|;
    var last := BlockRows(bs[n - 1]);
    SheetRowAt(bs, n, 0, 0);
    SheetRowAt(bs, n, n - 1, |last| - 1);
    SheetLength(bs, n);
  }

  /** Row count of the blocks: three header rows per block, one row per
      column, one separator between neighbours. */
  lemma SheetRowCount(bs: seq<Block>)
    ensures |Sheet(bs)| == 3 * |bs| + (if bs == [] then 0 else |bs| - 1) + |BlockColumns(bs)|
  {
    StartCount(bs, |bs|);
    assert bs[..|bs|] == bs;
    if bs != [] {
      SheetLength(bs, |bs|);
    }
  }

  /** Row count of a laid-out tree: 3·B + (B − 1 when B > 0) + total columns,
      B being the number of maximal runs of equal names. */
  lemma LayoutRowCount(ts: seq<TableInfo>)
    ensures var b := RunCount(ts);
      |Layout(ts)| == 3 * b + (if b == 0 then 0 else b - 1) + |TableColumns(ts)|
  {
    BlockCount(ts);
    SheetRowCount(Blocks(ts));
    BlocksKeepColumns(ts);
  }

  lemma {:induction false} SelectAppend(a: seq<Row>, b: seq<Row>, width: nat)
    ensures Select(a + b, width) == Select(a, width) + Select(b, width)
    decreases |b|
  {
    if b != [] {
      var b' := b[..|b| - 1];
      var last := b[|b| - 1];
      assert (a + b)[..|a + b| - 1] == a + b';
      assert (a + b)[|a + b| - 1] == last;
      SelectAppend(a, b', width);
      assert Select(a + b, width) == Select(a + b', width) + if |last| == width then [last] else [];
      assert Select(b, width) == Select(b', width) + if |last| == width then [last] else [];
    } else {
      assert a + b == a;
    }
  }

  lemma {:induction false} SelectDataRows(cs: seq<Column>, width: nat)
    ensures Select(DataRows(cs), width) == if width == 5 then DataRows(cs) else []
    decreases |cs|
  {
    if cs != [] {
      var init := cs[..|cs| - 1];
      SelectDataRows(init, width);
      assert DataRows(cs)[..|cs| - 1] == DataRows(init);
    }
  }

  lemma SelectBlockRows(b: Block, width: nat)
    ensures Select(BlockRows(b), width) ==
      (if width == 2 then [TitleRow(b.name)] else []) +
      (if width == 1 then [DescriptionRow] else []) +
      (if width == 6 then [HeaderRow] else []) +
      (if width == 5 then DataRows(b.columns) else [])
  {
    var head := [TitleRow(b.name), DescriptionRow, HeaderRow];
    SelectAppend(head, DataRows(b.columns), width);
    SelectDataRows(b.columns, width);
    assert head[..2] == [TitleRow(b.name), DescriptionRow];
    assert head[..2][..1] == [TitleRow(b.name)];
    assert head[..2][..1][..0] == [];
    assert Select([TitleRow(b.name)], width) == if width == 2 then [TitleRow(b.name)] else [];
  }

  /** Selecting from the first m blocks: the first m - 1 blocks, the
      separator, then block m - 1. */
  lemma SelectSheetStep(bs: seq<Block>, m: nat, width: nat)
    requires 1 < m <= |bs|
    ensures Select(SheetOf(bs, m), width) ==
      Select(SheetOf(bs, m - 1), width) +
      (if width == 0 then [Blank] else []) +
      Select(BlockRows(bs[m - 1]), width)
  {
    var s := SheetOf(bs, m - 1);
    var b := BlockRows(bs[m - 1]);
    SelectAppend(s + [Blank], b, width);
    SelectAppend(s, [Blank], width);
    assert [Blank][..0] == [];
    assert Select([Blank], width) == if width == 0 then [Blank] else [];
  }

  /** The blank rows of the first m blocks: one fewer than the blocks. */
  lemma {:induction false} SheetBlankRows(bs: seq<Block>, m: nat)
    requires m <= |bs|
    ensures |Select(SheetOf(bs, m), 0)| == if m == 0 then 0 else m - 1
    ensures forall r :: r in Select(SheetOf(bs, m), 0) ==> r == Blank
  {
    if m == 1 {
      SelectBlockRows(bs[0], 0);
    } else if m > 1 {
      SelectSheetStep(bs, m, 0);
      SelectBlockRows(bs[m - 1], 0);
      SheetBlankRows(bs, m - 1);
      assert Select(SheetOf(bs, m), 0) == Select(SheetOf(bs, m - 1), 0) + [Blank];
    }
  }

  /** The title rows of the first m blocks: one per block, in block order. */
  lemma {:induction false} SheetTitles(bs: seq<Block>, m: nat)
    requires m <= |bs|
    ensures Select(SheetOf(bs, m), 2) == seq(m, k requires 0 <= k < m => TitleRow(bs[k].name))
  {
    if m > 0 {
      var titles := seq(m, k requires 0 <= k < m => TitleRow(bs[k].name));
      var before := seq(m - 1, k requires 0 <= k < m - 1 => TitleRow(bs[k].name));
      assert titles == before + [TitleRow(bs[m - 1].name)];
      SelectBlockRows(bs[m - 1], 2);
      if m > 1 {
        SheetTitles(bs, m - 1);
        SelectSheetStep(bs, m, 2);
      }
    }
  }

  /** The data rows of the first m blocks: one per column, in column order. */
  lemma {:induction false} SheetDataRows(bs: seq<Block>, m: nat)
    requires m <= |bs|
    ensures Select(SheetOf(bs, m), 5) == DataRows(BlockColumns(bs[..m]))
  {
    if m > 0 {
      var cs := bs[m - 1].columns;
      SelectBlockRows(bs[m - 1], 5);
      assert bs[..m] == bs[..m - 1] + [bs[m - 1]];
      BlockColumnsAppend(bs[..m - 1], bs[m - 1]);
      if m == 1 {
        assert bs[..m - 1] == [];
      } else {
        SheetDataRows(bs, m - 1);
        SelectSheetStep(bs, m, 5);
        DataRowsAppend(BlockColumns(bs[..m - 1]), cs);
      }
    }
  }

  /** Every column of the tree gets exactly one 5-cell data row, and the data
      rows appear in the order of the columns, entry after entry. */
  lemma LayoutDataRows(ts: seq<TableInfo>)
    ensures Select(Layout(ts), 5) == DataRows(TableColumns(ts))
  {
    var bs := Blocks(ts);
    SheetDataRows(bs, |bs|);
    assert bs[..|bs|] == bs;
    BlocksKeepColumns(ts);
  }

  /** The layout holds one blank row per name change after the first entry,
      and none when the tree is empty. */
  lemma LayoutBlankRows(ts: seq<TableInfo>)
    ensures |Select(Layout(ts), 0)| == if ts == [] then 0 else RunCount(ts) - 1
  {
    SheetBlankRows(Blocks(ts), |Blocks(ts)|);
    BlockCount(ts);
  }

  /** When every entry's name differs from the previous one, entry i is laid
      out as its own block: the title, description and header rows, then one
      row per column, preceded (unless it is first) by a blank row. */
  lemma DistinctTablesLayout(ts: seq<TableInfo>, i: nat)
    requires NamesChange(ts)
    requires i < |ts|
    ensures |Blocks(ts)| == |ts|
    ensures var at := Start(Blocks(ts), i);
      && at + 3 + |ts[i].columns| <= |Layout(ts)|
      && Layout(ts)[at..at + 3 + |ts[i].columns|] ==
           [TitleRow(ts[i].tableName), DescriptionRow, HeaderRow] + DataRows(ts[i].columns)
      && (i > 0 ==> Layout(ts)[at - 1] == Blank)
  {
    DistinctNamesBlocks(ts);
    SheetBlockAt(Blocks(ts), i);
  }
}
