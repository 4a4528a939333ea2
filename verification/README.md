# data-dictionary, modelled in Dafny

`data_dictionary.py` reads the catalog of a PostgreSQL database and writes a
CSV "data dictionary": one section per table, with a title row, a row left
for a description, a column header row and one row per column, and a blank
row between sections. This project models its two pieces of logic as pure
Dafny:

- **The metadata fetcher** (`fetch_table_info`), in `catalog.dfy`. The three
  catalog queries are abstracted as a `Database` value: the answer of the
  table enumeration, the answer of the column query of each table (rows
  already in ordinal-position order), and the answer of the constraint query
  for each (column name, table). An answer is either its rows or a
  `QueryError`. The fetcher builds the tree of `report.dfy`: one `TableInfo`
  per enumerated table, each column being the queried (name, data type,
  nullability) triple plus a constraints cell in which each constraint reads
  `name (type)` and neighbours are separated by `", "` (`text.dfy` models
  Python's `str.join`). Any failing query makes the result `None`.
- **The CSV row layout** (`write_to_csv`), in `layout.dfy`. It is a
  serialiser from the tree to a `seq<seq<string>>` of records.
  `CsvLayout.WriteToCsv` follows the source's loop, including its
  `current_table` variable. It is proved equal to a reference layout,
  `CsvLayout.Layout`. That layout first groups the tree into blocks, where a
  block is a maximal run of consecutive entries with the same table name and
  their columns concatenated. It then writes each block as title,
  description, header and data rows, with one blank row between neighbouring
  blocks. `layout_facts.dfy` proves what that means: where each block starts,
  how many rows there are, which rows are blank, and the order of the title
  and data rows.

The merge of consecutive same-named entries is a real behaviour of the code:
two schemas holding a table of the same name, enumerated one after the
other, end up under a single header. The model keeps that behaviour
(`CsvLayout.LayoutAppendSame`, `Scenarios.SameNameMerged`). Same-named
entries that are not adjacent still get separate blocks.

`scenarios.dfy` works through small examples: the one-table `users`
database, the two-constraint cell, a failing query and the same-name merge.

## Model

| member | source | states |
|---|---|---|
| Text.Join | data_dictionary.py:75 | `", ".join`: empty for no parts; otherwise the length is the sum of the parts plus one separator between each pair of neighbours, and the result begins with the first part |
| Text.JoinAppend | data_dictionary.py:75 | joining one more part appends the separator and that part, so the parts appear in list order |
| Catalog.ConstraintsCell | data_dictionary.py:73-75 | the constraints cell is `""` exactly when the column has no constraint; a single constraint renders as `name (type)` |
| Catalog.ConstraintsCellAppend | data_dictionary.py:73-75 | each further constraint adds `", "` and its `name (type)` to a non-empty cell, so constraints are listed in query order |
| Catalog.FetchColumns | data_dictionary.py:62-76 | the column list exists exactly when every per-column constraint query answers; it then has one column per queried row, in the same order, each being that row's triple followed by its own constraints cell |
| Catalog.FetchTables | data_dictionary.py:49-81 | the entry list exists exactly when every table's column query and all its constraint queries answer; it then has one entry per table, in enumeration order, each carrying that table's name and its assembled columns |
| Catalog.FetchTableInfo | data_dictionary.py:37-88 | `None` exactly when some query fails (the enumeration or any later one), never a partial tree; otherwise one entry per enumerated table in order, named after it; an empty enumeration gives `Some([])`, not a failure |
| CsvLayout.Blocks | data_dictionary.py:98-108 | there are never more blocks than entries; there are none exactly when the tree is empty; the first and last blocks carry the names of the first and last entries |
| CsvLayout.LayoutAppendNew | data_dictionary.py:102-111 | an entry whose name differs from the previous one adds one blank row (unless it is the first entry), then the title, description and header rows, then its data rows |
| CsvLayout.LayoutAppendSame | data_dictionary.py:102-111 | an entry whose name equals the previous one adds only its data rows: no blank row and no header rows |
| CsvLayout.LayoutStep | data_dictionary.py:98-111 | laying out one more entry appends exactly the rows of the matching case above to the layout of the earlier entries |
| CsvLayout.WriteColumns | data_dictionary.py:110-111 | one record per column, in column order, each `[name, data_type, is_nullable, constraints, '']` |
| CsvLayout.WriteEntry | data_dictionary.py:99-111 | one iteration of the outer loop: a same-named entry writes only data rows; any other writes a blank row when a table came before, then a fresh block; the tracked name becomes this entry's |
| CsvLayout.WriteToCsv | data_dictionary.py:96-111 | the rows written equal the reference layout (blocks of maximal same-name runs separated by single blank rows); an empty tree writes no row |
| LayoutFacts.BlocksKeepColumns | data_dictionary.py:98-111 | grouping into blocks loses, duplicates and reorders no column |
| LayoutFacts.BlocksAdjacentDistinct | data_dictionary.py:102-105 | neighbouring blocks have different names, so every block is a maximal run of equal names |
| LayoutFacts.BlockCount | data_dictionary.py:102-108 | the number of blocks is the number of entries whose name differs from the previous entry's, the first entry included |
| LayoutFacts.DistinctNamesBlocks | data_dictionary.py:102-111 | when neighbouring entries always differ in name, every entry is a block of its own, in order |
| LayoutFacts.SheetLength | data_dictionary.py:98-111 | the rows of the first m blocks end right after block m − 1, with no trailing blank row |
| LayoutFacts.StartCount | data_dictionary.py:102-111 | the first m blocks, each with its following separator, take four rows per block plus one per column |
| LayoutFacts.SheetRowAt | data_dictionary.py:102-111 | row j of block k is found at the block's offset plus j, for every block and every row in it |
| LayoutFacts.SheetBlankBefore | data_dictionary.py:103-104 | the row right before every block but the first is blank |
| LayoutFacts.SheetBlockAt | data_dictionary.py:102-111 | block k sits whole and unchanged at its offset, and the row before every block but the first is blank |
| LayoutFacts.BlocksSeparatedByOneBlank | data_dictionary.py:103-106 | between the end of one block and the start of the next there is exactly one row, and it is blank |
| LayoutFacts.SheetEnds | data_dictionary.py:103-106 | a non-empty layout begins with the first block's `Table:` row and does not end with a blank row |
| LayoutFacts.SheetRowCount | data_dictionary.py:102-111 | a layout of B blocks has 3·B + (B − 1 when B > 0) + (total columns) rows |
| LayoutFacts.LayoutRowCount | data_dictionary.py:96-111 | a laid-out tree has 3·B + (B − 1 when B > 0) + (total columns) rows, B being the number of name changes |
| LayoutFacts.SheetBlankRows | data_dictionary.py:103-104 | the rows of m blocks contain exactly m − 1 empty rows, none for no blocks: data, title, description and header rows are never empty |
| LayoutFacts.SheetTitles | data_dictionary.py:106 | the two-cell `Table:` rows are one per block, in block order, each naming its block |
| LayoutFacts.SheetDataRows | data_dictionary.py:110-111 | the 5-cell rows are exactly the data rows of the blocks' columns, in order |
| LayoutFacts.LayoutDataRows | data_dictionary.py:110-111 | every column of the tree gets exactly one 5-cell data row, and the data rows follow the columns' order, entry after entry |
| LayoutFacts.LayoutBlankRows | data_dictionary.py:103-104 | the number of blank rows is the number of name changes after the first entry; zero for an empty tree |
| LayoutFacts.DistinctTablesLayout | data_dictionary.py:102-111 | with all neighbouring names different, entry i is laid out at its offset as `Table:`/name, `Description:`, the six-cell header, then one row per column, with a blank row before it unless it is first |
| Scenarios.TwoConstraintsCell | data_dictionary.py:74-75 | constraints `pk (PRIMARY KEY)` and `uq (UNIQUE)` render as `pk (PRIMARY KEY), uq (UNIQUE)` |
| Scenarios.UsersColumns | data_dictionary.py:62-76 | the two columns of `users` come out in order, with `users_pkey (PRIMARY KEY)` and `users_email_key (UNIQUE)` as their constraint strings |
| Scenarios.UsersFetch | data_dictionary.py:37-83 | the one-table `users` database yields one entry whose two columns carry `users_pkey (PRIMARY KEY)` and `users_email_key (UNIQUE)` |
| Scenarios.UsersLayout | data_dictionary.py:96-111 | that tree is written as `Table:,users`, `Description:`, the header row and the two data rows |
| Scenarios.FailingQueryLosesTree | data_dictionary.py:85-88 | one failing constraint query makes the whole fetch `None` |
| Scenarios.SameNameMerged | data_dictionary.py:102-111 | two consecutive entries named `users` are written under one header with no blank row between them |

## Left out

- Argument parsing with argparse and its defaults (data_dictionary.py:8-17): a thin wrapper over a library.
- Connecting to the database, printing the confirmation and exiting with status 1 on failure (data_dictionary.py:20-34): foreign I/O and process control.
- The SQL text of the three catalog queries and the cursor handling (data_dictionary.py:40-73): the queries are inputs of the model. Their answers are arbitrary `Database` values, so the filtering of system schemas and the ordering by ordinal position are assumed of the answers rather than modelled.
- The printed error message on a query error (data_dictionary.py:86-87): only the `None` result is modelled.
- Opening the output file, the csv module's quoting and escaping, the success message and the IOError path (data_dictionary.py:93-94, 113-117): these belong to a library and the filesystem, so the model stops at rows as sequences of cells.
- The top-level script flow (data_dictionary.py:119-134): the output file name, the check at line 129 that treats an empty list as falsy and skips the write, and closing the connection only on the success path. This is process plumbing outside the two pure functions.
- Query order: a query error is one value of an answer. The order in which the source issues the queries, and the fact that it stops at the first failure, are not modelled because they do not change the result.
