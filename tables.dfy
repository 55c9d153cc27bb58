/**
 * Tables and columns as the engine sees them: a table has a name and a
 * sequence of named columns; everything else a column holds is opaque. The
 * operations of `Table` and `Column` that the engine calls are not part of
 * this model, so they are parameters: a `TableApi` value supplies them.
 */
module Tables {
  import opened Rust
  import opened Values

  /** The contents of a column other than its name. */
  type ColumnBody

  datatype Column = Column(name: string, body: ColumnBody)

  datatype Table = Table(name: string, columns: seq<Column>)

  /** A column to create: its name and whether it is unique. */
  type ColumnSpec = (string, bool)

  /** A column name paired with a value, as in `name = value`. */
  type Field = (string, Data)

  /**
   * The table and column operations called by the engine. An operation that
   * takes `&mut self` in the source returns the table as it is afterwards,
   * whether or not it reports an error.
   */
  datatype TableApi = TableApi(
    build: (string, seq<ColumnSpec>) -> Table,                  // Table::from((name, columns))
    newColumns: (Table, seq<ColumnSpec>) -> (Table, Success),
    newData: (Table, seq<Field>) -> (Table, Result<Success>),
    deleteData: (Table, seq<nat>) -> (Table, Result<Success>),
    updateData: (Table, seq<Field>, seq<nat>) -> (Table, Result<Success>),
    deleteColumn: (Table, string) -> (Table, Result<Success>),
    selectData: (Table, seq<string>, seq<nat>) -> Success,
    searchColumnData: (Table, string, Data) -> Result<seq<nat>>,
    searchForColumn: (Table, string) -> Result<nat>,
    len: Table -> nat,
    selectAllRows: Table -> seq<nat>,
    min: Column -> Success,
    max: Column -> Success)

  /** Everything outside the engine that a command consults. */
  datatype Env = Env(api: TableApi, data: DataApi)

  /** Some table is called `name`. */
  predicate HasTable(ts: seq<Table>, name: string)
  {
    exists i :: 0 <= i < |ts| && ts[i].name == name
  }

  /** The position of the first table called `name`, if any. */
  function FirstIndex(ts: seq<Table>, name: string): (r: Option<nat>)
    ensures r.Some? ==> r.value < |ts| && ts[r.value].name == name
    ensures r.Some? ==> forall j :: 0 <= j < r.value ==> ts[j].name != name
    ensures r.None? <==> !HasTable(ts, name)
  {
    if ts == [] then None
    else if ts[0].name == name then Some(0)
    else match FirstIndex(ts[1..], name)
      case None => None
      case Some(k) => Some(k + 1)
  }
}
