/** The DuckDB table that holds the flattened copy: what pkg/duckdb/engine.go relies on.
  * A statement is atomic and may fail; an insert fails on an unknown column or a repeated id. */
module Database {
  import opened Wrappers
  import opened Schema
  import opened Rows

  datatype Table = Table(columns: set<string>, rows: map<string, FlatRow>)

  predicate CanInsert(table: Option<Table>, data: FlatRow) {
    && table.Some?
    && ROW_ID in data && data[ROW_ID].Text?
    && data[ROW_ID].s !in table.value.rows
    && data.Keys - {ROW_ID} <= table.value.columns
  }

  /** The stored row: columns the statement does not name are NULL. */
  function Padded(columns: set<string>, data: FlatRow): FlatRow {
    map c | c in columns :: if c in data then data[c] else Null
  }

  /** The rows of a table that may not exist. */
  function RowsOf(table: Option<Table>): Option<map<string, FlatRow>> {
    if table.Some? then Some(table.value.rows) else None
  }

  class DuckDB {
    var table: Option<Table>
    ghost var trouble: bool  // a statement has failed for a reason of its own

    /** CREATE TABLE IF NOT EXISTS; repeated column names are an error. */
    method CreateTable(colDefs: seq<string>) returns (ok: bool)
      modifies this
      ensures old(trouble) ==> trouble
      ensures ok ==> table == if old(table).Some? then old(table)
                              else Some(Table((set c | c in colDefs) - {ROW_ID}, map[]))
      ensures !ok ==> table == old(table) && (trouble || !NoRepeats(colDefs))
    {
      if * {
        trouble := true;
        return false;
      }
      if table.Some? {
        return true;
      }
      for i := 0 to |colDefs|
        invariant NoRepeats(colDefs[..i])
      {
        if colDefs[i] in colDefs[..i] {
          return false;
        }
      }
      table := Some(Table((set c | c in colDefs) - {ROW_ID}, map[]));
      return true;
    }

    method TruncateTable() returns (ok: bool)
      modifies this
      ensures old(trouble) ==> trouble
      ensures ok ==> old(table).Some? && table == Some(old(table).value.(rows := map[]))
      ensures !ok ==> table == old(table) && (trouble || table.None?)
    {
      if * {
        trouble := true;
        return false;
      }
      if table.None? {
        return false;
      }
      table := Some(table.value.(rows := map[]));
      return true;
    }

    method InsertRow(data: FlatRow) returns (ok: bool)
      modifies this
      ensures old(trouble) ==> trouble
      ensures ok ==> CanInsert(old(table), data) &&
                     table == Some(old(table).value.(rows :=
                       old(table).value.rows[data[ROW_ID].s := Padded(old(table).value.columns, data)]))
      ensures !ok ==> table == old(table) && (trouble || !CanInsert(table, data))
    {
      if * {
        trouble := true;
        return false;
      }
      if !CanInsert(table, data) {
        return false;
      }
      table := Some(table.value.(rows := table.value.rows[data[ROW_ID].s := Padded(table.value.columns, data)]));
      return true;
    }

    method DeleteRow(id: string) returns (ok: bool)
      modifies this
      ensures old(trouble) ==> trouble
      ensures ok ==> old(table).Some? && table == Some(old(table).value.(rows := old(table).value.rows - {id}))
      ensures !ok ==> table == old(table) && (trouble || table.None?)
    {
      if * {
        trouble := true;
        return false;
      }
      if table.None? {
        return false;
      }
      table := Some(table.value.(rows := table.value.rows - {id}));
      return true;
    }

    method SelectIds() returns (ids: Option<set<string>>)
      modifies this`trouble
      ensures old(trouble) ==> trouble
      ensures ids.Some? ==> table.Some? && ids.value == table.value.rows.Keys
      ensures ids.None? ==> trouble || table.None?
    {
      if * {
        trouble := true;
        return None;
      }
      return if table.Some? then Some(table.value.rows.Keys) else None;
    }

    method CountRows() returns (count: Option<nat>)
      modifies this`trouble
      ensures old(trouble) ==> trouble
      ensures count.Some? ==> table.Some? && count.value == |table.value.rows|
      ensures count.None? ==> trouble || table.None?
    {
      if * {
        trouble := true;
        return None;
      }
      return if table.Some? then Some(|table.value.rows|) else None;
    }
  }
}
