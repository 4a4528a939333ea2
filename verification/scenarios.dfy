/** Worked examples of the fetcher and the layout on small concrete databases. */
module Scenarios {
  import opened Report
  import opened Catalog
  import opened CsvLayout

  const Users := TableRef("users", "public")

  /** A database with one table `users`: `id` (integer, not null, primary
      key) and `email` (text, nullable, unique). */
  function UsersDb(): Database
  {
    Database(
      Rows([Users]),
      t => if t == Users then Rows([ColumnRow("id", "integer", "NO"), ColumnRow("email", "text", "YES")]) else Rows([]),
      (c, t) =>
        if t == Users && c == "id" then Rows([ConstraintRow("users_pkey", "PRIMARY KEY")])
        else if t == Users && c == "email" then Rows([ConstraintRow("users_email_key", "UNIQUE")])
        else Rows([]))
  }

  /** Two constraints are joined with ", " in query order. */
  lemma TwoConstraintsCell()
    ensures ConstraintsCell([ConstraintRow("pk", "PRIMARY KEY"), ConstraintRow("uq", "UNIQUE")])
         == "pk (PRIMARY KEY), uq (UNIQUE)"
  {
    var pk := ConstraintRow("pk", "PRIMARY KEY");
    var uq := ConstraintRow("uq", "UNIQUE");
    ConstraintsCellAppend([pk], uq);
    assert [pk] + [uq] == [pk, uq];
    assert ConstraintsCell([pk]) == Render(pk);
    assert Render(pk) == "pk (PRIMARY KEY)";
    assert Render(uq) == "uq (UNIQUE)";
  }

  /** The tree of the one-table database. */
  function UsersTree(): seq<TableInfo>
  {
    [TableInfo("users", [
      Column("id", "integer", "NO", "users_pkey (PRIMARY KEY)"),
      Column("email", "text", "YES", "users_email_key (UNIQUE)")])]
  }

  /** The columns of `users`, each with its formatted constraint string. */
  lemma UsersColumns()
    ensures FetchColumns(UsersDb(), Users, [ColumnRow("id", "integer", "NO"), ColumnRow("email", "text", "YES")])
         == Some(UsersTree()[0].columns)
  {
    var db := UsersDb();
    var rows := [ColumnRow("id", "integer", "NO"), ColumnRow("email", "text", "YES")];
    var pk := ConstraintRow("users_pkey", "PRIMARY KEY");
    var uq := ConstraintRow("users_email_key", "UNIQUE");
    assert db.constraintsOf(rows[0].name, Users) == Rows([pk]);
    assert db.constraintsOf(rows[1].name, Users) == Rows([uq]);
    assert ConstraintQueriesSucceed(db, Users, rows);
    var cols := FetchColumns(db, Users, rows).value;
    assert cols[0] == Assemble(rows[0], [pk]);
    assert cols[1] == Assemble(rows[1], [uq]);
    assert Render(pk) == "users_pkey (PRIMARY KEY)";
    assert Render(uq) == "users_email_key (UNIQUE)";
    assert cols == [cols[0], cols[1]];
  }

  /** The one-table database yields one entry whose columns carry their
      formatted constraint strings. */
  lemma UsersFetch()
    ensures FetchTableInfo(UsersDb()) == Some(UsersTree())
  {
    var db := UsersDb();
    UsersColumns();
    assert db.columnsOf(Users) == Rows([ColumnRow("id", "integer", "NO"), ColumnRow("email", "text", "YES")]);
    assert [Users][0] == Users && [Users][1..] == [];
    assert FetchTables(db, []) == Some([]);
    assert FetchTables(db, [Users]) == Some([TableInfo("users", UsersTree()[0].columns)] + []);
    assert [TableInfo("users", UsersTree()[0].columns)] + [] == UsersTree();
    assert db.tables == Rows([Users]);
  }

  /** The tree of the one-table database is laid out as a single block of
      five rows. */
  lemma UsersLayout()
    ensures Layout(UsersTree()) == [
      ["Table:", "users"],
      ["Description:"],
      ["Column Name", "Data Type", "Nullable", "Constraints", "Description", ""],
      ["id", "integer", "NO", "users_pkey (PRIMARY KEY)", ""],
      ["email", "text", "YES", "users_email_key (UNIQUE)", ""]]
  {
  }

  /** A failing constraint query loses the whole tree, not only its column. */
  lemma FailingQueryLosesTree()
    ensures FetchTableInfo(UsersDb().(constraintsOf := (c, t) =>
      if c == "email" then QueryError("permission denied") else Rows([]))) == None
  {
  }

  /** Two consecutive entries named `users` (from two schemas) are merged
      under one header: no blank row, one title row. */
  lemma SameNameMerged(a: seq<Column>, b: seq<Column>)
    ensures Layout([TableInfo("users", a), TableInfo("users", b)]) ==
      [TitleRow("users"), DescriptionRow, HeaderRow] + DataRows(a + b)
  {
    var first := TableInfo("users", a);
    var second := TableInfo("users", b);
    LayoutAppendNew([], first);
    assert [] + [first] == [first];
    assert Layout([first]) == [TitleRow("users"), DescriptionRow, HeaderRow] + DataRows(a);
    LayoutAppendSame([first], second);
    assert [first] + [second] == [first, second];
    DataRowsAppend(a, b);
  }

}
