/** The metadata fetcher of data_dictionary.py (`fetch_table_info`). The
    three catalog queries are abstracted as the answers a database gives:
    the table enumeration, the column query of each table (already in
    ordinal-position order) and the constraint query of each column. Any
    answer may be a query error, which aborts the whole fetch. */
module Catalog {
  import opened Report
  import Text

  /** A row of the table enumeration: (table_name, table_schema). */
  datatype TableRef = TableRef(name: string, schema: string)

  /** A row of the column query: (column_name, data_type, is_nullable). */
  datatype ColumnRow = ColumnRow(name: string, dataType: string, isNullable: string)

  /** A row of the constraint query: (constraint_name, constraint_type). */
  datatype ConstraintRow = ConstraintRow(name: string, kind: string)

  /** What one query yields: its fetched rows, or a database error. */
  datatype Answer<T> = Rows(rows: seq<T>) | QueryError(message: string)

  /** The database as seen through the three catalog queries. The column
      query is parameterised by the table (schema and name), the constraint
      query by the column name and the table. */
  datatype Database = Database(
    tables: Answer<TableRef>,
    columnsOf: TableRef -> Answer<ColumnRow>,
    constraintsOf: (string, TableRef) -> Answer<ConstraintRow>)

  /** One constraint as the report shows it: `name (type)`. */
  function Render(c: ConstraintRow): string
  {
    c.name + " (" + c.kind + ")"
  }

  /** The constraints cell of a column: every constraint rendered, in query
      order, joined by ", "; empty exactly when there is no constraint. */
  function ConstraintsCell(cs: seq<ConstraintRow>): (cell: string)
    ensures cell == "" <==> cs == []
    ensures |cs| == 1 ==> cell == Render(cs[0])
  {
    var parts := seq(|cs|, i requires 0 <= i < |cs| => Render(cs[i]));
    var cell := Text.Join(parts, ", ");
    assert cs != [] ==> cell[..|parts[0]|] == parts[0] && |parts[0]| >= 3;
    cell
  }

  /** A queried column row extended with its constraints cell. */
  function Assemble(row: ColumnRow, cs: seq<ConstraintRow>): Column
  {
    Column(row.name, row.dataType, row.isNullable, ConstraintsCell(cs))
  }

  /** Every constraint query issued for the given columns of table t answers. */
  predicate ConstraintQueriesSucceed(db: Database, t: TableRef, rows: seq<ColumnRow>)
  {
    forall j :: 0 <= j < |rows| ==> db.constraintsOf(rows[j].name, t).Rows?
  }

  /** Both the column query of t and every constraint query it leads to answer. */
  predicate TableQueriesSucceed(db: Database, t: TableRef)
  {
    db.columnsOf(t).Rows? && ConstraintQueriesSucceed(db, t, db.columnsOf(t).rows)
  }

  /** `cols` is exactly the queried columns, in order, each followed by
      the constraints cell of its own constraint query. */
  predicate AssembledFrom(db: Database, t: TableRef, rows: seq<ColumnRow>, cols: seq<Column>)
  {
    && ConstraintQueriesSucceed(db, t, rows)
    && |cols| == |rows|
    && forall j :: 0 <= j < |rows| ==>
         cols[j] == Assemble(rows[j], db.constraintsOf(rows[j].name, t).rows)
  }

  /** `info` is the entry the fetcher builds for table t. */
  predicate Fetched(db: Database, t: TableRef, info: TableInfo)
  {
    && db.columnsOf(t).Rows?
    && info.tableName == t.name
    && AssembledFrom(db, t, db.columnsOf(t).rows, info.columns)
  }

  /** The inner loop over the columns of table t: one constraint query per
      column; the first failing query makes the whole result None. */
  function FetchColumns(db: Database, t: TableRef, rows: seq<ColumnRow>): (r: Option<seq<Column>>)
    ensures r.Some? <==> ConstraintQueriesSucceed(db, t, rows)
    ensures r.Some? ==> AssembledFrom(db, t, rows, r.value)
    decreases |rows|
  {
    if rows == [] then Some([])
    else
      match db.constraintsOf(rows[0].name, t)
      case QueryError(_) => None
      case Rows(cs) =>
        match FetchColumns(db, t, rows[1..])
        case None => None
        case Some(rest) => Some([Assemble(rows[0], cs)] + rest)
  }

  /** The outer loop over the enumerated tables: the column query of each
      table, then its columns' constraint queries. */
  function FetchTables(db: Database, refs: seq<TableRef>): (r: Option<seq<TableInfo>>)
    ensures r.Some? <==> forall i :: 0 <= i < |refs| ==> TableQueriesSucceed(db, refs[i])
    ensures r.Some? ==> |r.value| == |refs|
    ensures r.Some? ==> forall i :: 0 <= i < |refs| ==> Fetched(db, refs[i], r.value[i])
    decreases |refs|
  {
    if refs == [] then Some([])
    else
      var t := refs[0];
      match db.columnsOf(t)
      case QueryError(_) => None
      case Rows(rows) =>
        match FetchColumns(db, t, rows)
        case None => None
        case Some(cols) =>
          match FetchTables(db, refs[1..])
          case None => None
          case Some(rest) => Some([TableInfo(t.name, cols)] + rest)
  }

  /** `fetch_table_info`: the whole tree, one entry per enumerated table in
      enumeration order, or None when any query fails (never a partial tree). */
  function FetchTableInfo(db: Database): (r: Option<seq<TableInfo>>)
    ensures r.Some? <==>
      db.tables.Rows? && forall i :: 0 <= i < |db.tables.rows| ==> TableQueriesSucceed(db, db.tables.rows[i])
    ensures r.Some? ==> |r.value| == |db.tables.rows|
    ensures r.Some? ==> forall i :: 0 <= i < |r.value| ==>
      r.value[i].tableName == db.tables.rows[i].name && Fetched(db, db.tables.rows[i], r.value[i])
    ensures db.tables == Rows([]) ==> r == Some([])
  {
    match db.tables
    case QueryError(_) => None
    case Rows(refs) => FetchTables(db, refs)
  }

  /** Adding one more constraint to a column appends ", " and its rendering
      to a non-empty cell, so the cell lists the constraints in query order. */
  lemma ConstraintsCellAppend(cs: seq<ConstraintRow>, c: ConstraintRow)
    ensures ConstraintsCell(cs + [c]) ==
      if cs == [] then Render(c) else ConstraintsCell(cs) + ", " + Render(c)
  {
    if cs != [] {
      var parts := seq(|cs|, i requires 0 <= i < |cs| => Render(cs[i]));
      var parts' := seq(|cs + [c]|, i requires 0 <= i < |cs + [c]| => Render((cs + [c])[i]));
      assert parts' == parts + [Render(c)];
      Text.JoinAppend(parts, Render(c), ", ");
    }
  }
}
