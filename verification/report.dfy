/** The in-memory metadata tree that the fetcher builds and the CSV writer
    consumes: one TableInfo per enumerated table, each holding its columns
    in ordinal-position order. */
module Report {

  /** The fetcher's result: None stands for the `None` the source returns
      when a catalog query fails. */
  datatype Option<+T> = None | Some(value: T)

  /** One assembled column: the queried (name, data type, nullability)
      triple followed by the rendered constraints string. */
  datatype Column = Column(name: string, dataType: string, isNullable: string, constraints: string)

  /** One entry of the tree: a table name and its columns. */
  datatype TableInfo = TableInfo(tableName: string, columns: seq<Column>)
}
