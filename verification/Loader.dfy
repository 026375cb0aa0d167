/** Filling the DuckDB table from the row files: pkg/duckdb/loader.go. */
module Loader {
  import opened Wrappers
  import opened Schema
  import opened Rows
  import opened Storage
  import opened Assembler
  import opened Database

  function FlatNamesOf(cols: seq<QualifiedColumn>): seq<string> {
    seq(|cols|, i requires 0 <= i < |cols| => cols[i].FlatName())
  }

  /** The columns CREATE TABLE declares after the row id, in order. */
  function FlatNames(ts: TableSchema): seq<string> {
    FlatNamesOf(Columns(ts))
  }

  function FlatColumns(ts: TableSchema): set<string> {
    set q | q in Columns(ts) :: q.FlatName()
  }

  ghost function ColumnNamed(ts: TableSchema, key: string): QualifiedColumn
    requires key in FlatColumns(ts)
  {
    var q :| q in Columns(ts) && q.FlatName() == key;
    q
  }

  /** The flattened row: one value for every column of the schema. */
  ghost function Flatten(ts: TableSchema, groups: Groups): FlatRow
    requires FlatDistinct(ts)
  {
    map key | key in FlatColumns(ts) :: Lookup(groups, ColumnNamed(ts, key))
  }

  /** The stored columns of the schema's groups are columns of the schema. */
  ghost predicate Conforms(ts: TableSchema, groups: Groups) {
    forall q :: Has(groups, q) && q.group in GroupNames(ts) ==> q in Columns(ts)
  }

  /** No stored column is mistaken for another column or for the row id once it is flattened. */
  ghost predicate FlatSafe(ts: TableSchema, groups: Groups) {
    && FlatDistinct(ts)
    && forall q :: Has(groups, q) && q.group in GroupNames(ts) ==>
         q.FlatName() != ROW_ID && forall r :: r in Columns(ts) && r.FlatName() == q.FlatName() ==> r == q
  }

  /** The table as it should be: every listed row, flattened. */
  ghost function FlatAll(ts: TableSchema, files: Files): map<string, FlatRow>
    requires FlatDistinct(ts)
  {
    map id | id in files && !Hidden(id) :: Flatten(ts, files[id].groups)
  }

  ghost function FlatSome(ts: TableSchema, files: Files, ids: seq<string>): map<string, FlatRow>
    requires FlatDistinct(ts)
  {
    map id | id in ids && id in files :: Flatten(ts, files[id].groups)
  }

  ghost predicate AllSafe(ts: TableSchema, files: Files) {
    forall id :: id in Listed(files) ==> FlatSafe(ts, files[id].groups)
  }

  ghost predicate AllConform(ts: TableSchema, files: Files) {
    forall id :: id in Listed(files) ==> Conforms(ts, files[id].groups)
  }

  ghost predicate SubMap<K, V>(m: map<K, V>, m': map<K, V>) {
    forall k :: k in m ==> k in m' && m[k] == m'[k]
  }

  /** A load that may have stopped anywhere: each row of the table is as it was before or is
    * what the files say now. */
  ghost predicate TowardsFiles(ts: TableSchema, files: Files, before: Option<map<string, FlatRow>>, after: Option<map<string, FlatRow>>)
    requires FlatDistinct(ts)
  {
    && (before.Some? ==> after.Some?)
    && (after.Some? ==> forall id :: id in after.value ==> RowTowards(ts, files, before, id, after.value[id]))
  }

  ghost predicate RowTowards(ts: TableSchema, files: Files, before: Option<map<string, FlatRow>>, id: string, row: FlatRow)
    requires FlatDistinct(ts)
  {
    || (id in files && !Hidden(id) && row == Flatten(ts, files[id].groups))
    || (before.Some? && id in before.value && row == before.value[id])
  }

  lemma FlattenKnown(ts: TableSchema, stored: Groups)
    requires FlatDistinct(ts)
    ensures Flatten(ts, Known(GroupNames(ts), stored)) == Flatten(ts, stored)
    ensures Conforms(ts, Known(GroupNames(ts), stored)) <==> Conforms(ts, stored)
    ensures FlatSafe(ts, Known(GroupNames(ts), stored)) <==> FlatSafe(ts, stored)
  {
    var known := Known(GroupNames(ts), stored);
    forall q | q in Columns(ts) ensures Lookup(known, q) == Lookup(stored, q) {
      ColumnsAreTheDeclared(ts.columnGroups, q);
    }
    assert forall q: QualifiedColumn :: q.group in GroupNames(ts) ==> (Has(known, q) <==> Has(stored, q));
  }

  /** A row goes in exactly when its columns are the schema's, and then it goes in flattened. */
  lemma PaddedIsFlatten(ts: TableSchema, groups: Groups, flat: FlatRow, id: string)
    requires FlatSafe(ts, groups) && groups.Keys <= GroupNames(ts) && IsFlattening(flat, groups)
    ensures flat[ROW_ID := Text(id)].Keys - {ROW_ID} <= FlatColumns(ts) <==> Conforms(ts, groups)
    ensures Conforms(ts, groups) ==> Padded(FlatColumns(ts), flat[ROW_ID := Text(id)]) == Flatten(ts, groups)
  {
    var data := flat[ROW_ID := Text(id)];
    if data.Keys - {ROW_ID} <= FlatColumns(ts) {
      forall q | Has(groups, q) ensures q in Columns(ts) {
        assert q.FlatName() in data.Keys - {ROW_ID};
        var r :| r in Columns(ts) && r.FlatName() == q.FlatName();
      }
    }
    if Conforms(ts, groups) {
      forall key | key in data.Keys - {ROW_ID} ensures key in FlatColumns(ts) {
        var q :| ComesFrom(groups, q, key, flat[key]);
      }
      var padded := Padded(FlatColumns(ts), data);
      forall q | q in Columns(ts)
        ensures q.FlatName() in padded && padded[q.FlatName()] == Lookup(groups, q)
      {
      }
    }
  }

  class Loader {
    const engine: DuckDB
    const assembler: Assembler

    constructor (engine: DuckDB, assembler: Assembler)
      ensures this.engine == engine && this.assembler == assembler
    {
      this.engine := engine;
      this.assembler := assembler;
    }

    /** The table, if there is one, was made for this schema. */
    ghost predicate Valid()
      reads engine, assembler.storage
    {
      && FlatDistinct(assembler.schema)
      && assembler.storage.Valid()
      && (engine.table.Some? ==> engine.table.value.columns == FlatColumns(assembler.schema))
    }

    ghost predicate Trouble()
      reads engine, assembler.storage
    {
      engine.trouble || assembler.storage.trouble
    }

    method CreateDuckDBTable() returns (ok: bool)
      requires Valid()
      modifies engine
      ensures Valid() && (old(engine.trouble) ==> engine.trouble)
      ensures ok ==> RowsOf(engine.table) == if old(engine.table).Some? then RowsOf(old(engine.table)) else Some(map[])
      ensures !ok ==> engine.table == old(engine.table) &&
                      (engine.trouble || !NoRepeats([ROW_ID] + FlatNames(assembler.schema)))
    {
      var cols := assembler.schema.AllColumns();
      var colDefs := [ROW_ID];
      for i := 0 to |cols|
        invariant colDefs == [ROW_ID] + FlatNamesOf(cols)[..i]
      {
        colDefs := colDefs + [cols[i].group + "_" + cols[i].column];
      }
      assert FlatNamesOf(cols)[..|cols|] == FlatNamesOf(cols);
      DeclaredColumns(assembler.schema);
      ok := engine.CreateTable(colDefs);
    }

    method InsertRow(row: Row) returns (ok: bool)
      requires Valid() && FlatSafe(assembler.schema, row.Groups) && row.Groups.Keys <= GroupNames(assembler.schema)
      modifies engine
      ensures Valid() && (old(engine.trouble) ==> engine.trouble)
      ensures ok ==> && old(engine.table).Some? && row.ID !in old(engine.table).value.rows
                     && Conforms(assembler.schema, row.Groups)
                     && RowsOf(engine.table) == Some(old(engine.table).value.rows[row.ID := Flatten(assembler.schema, row.Groups)])
      ensures !ok ==> && engine.table == old(engine.table)
                      && (engine.trouble || engine.table.None? || row.ID in engine.table.value.rows
                          || !Conforms(assembler.schema, row.Groups))
    {
      var data := row.ToFlatMap();
      PaddedIsFlatten(assembler.schema, row.Groups, data, row.ID);
      data := data[ROW_ID := Text(row.ID)];
      ok := engine.InsertRow(data);
    }

    /** Reads one row from its files and inserts it. */
    method LoadRow(rowID: string) returns (ok: bool)
      requires Valid() && FlatSafe(assembler.schema, GroupsOf(assembler.storage.rows, rowID))
      modifies engine
      ensures Valid() && (old(engine.trouble) ==> engine.trouble)
      ensures ok ==> && old(engine.table).Some? && rowID !in old(engine.table).value.rows
                     && RowsOf(engine.table) == Some(old(engine.table).value.rows
                          [rowID := Flatten(assembler.schema, GroupsOf(assembler.storage.rows, rowID))])
      ensures !ok ==> && engine.table == old(engine.table)
                      && (engine.trouble || engine.table.None? || rowID in engine.table.value.rows
                          || !Conforms(assembler.schema, GroupsOf(assembler.storage.rows, rowID)))
    {
      var row := assembler.ReadRow(rowID);
      FlattenKnown(assembler.schema, GroupsOf(assembler.storage.rows, rowID));
      ok := InsertRow(row);
    }

    method RefreshRow(rowID: string) returns (ok: bool)
      requires Valid() && FlatSafe(assembler.schema, GroupsOf(assembler.storage.rows, rowID))
      modifies engine
      ensures Valid() && (old(engine.trouble) ==> engine.trouble)
      ensures ok ==> && old(engine.table).Some?
                     && Conforms(assembler.schema, GroupsOf(assembler.storage.rows, rowID))
                     && RowsOf(engine.table) == Some(old(engine.table).value.rows
                          [rowID := Flatten(assembler.schema, GroupsOf(assembler.storage.rows, rowID))])
      ensures !ok ==> && (engine.table == old(engine.table) ||
                          (old(engine.table).Some? && RowsOf(engine.table) == Some(old(engine.table).value.rows - {rowID})))
                      && (engine.trouble || engine.table.None? || !Conforms(assembler.schema, GroupsOf(assembler.storage.rows, rowID)))
    {
      var row := assembler.ReadRow(rowID);
      FlattenKnown(assembler.schema, GroupsOf(assembler.storage.rows, rowID));
      ok := engine.DeleteRow(rowID);
      if !ok {
        return false;
      }
      ghost var rest := engine.table.value.rows;
      ok := InsertRow(row);
      assert old(engine.table.value.rows)[rowID := Flatten(assembler.schema, row.Groups)] == rest[rowID := Flatten(assembler.schema, row.Groups)];
    }

    method DeleteRow(rowID: string) returns (ok: bool)
      requires Valid()
      modifies engine
      ensures Valid() && (old(engine.trouble) ==> engine.trouble)
      ensures ok ==> old(engine.table).Some? && RowsOf(engine.table) == Some(old(engine.table).value.rows - {rowID})
      ensures !ok ==> engine.table == old(engine.table) && (engine.trouble || engine.table.None?)
    {
      ok := engine.DeleteRow(rowID);
    }

    /** A load that succeeds leaves exactly the flattened listed rows. */
    method LoadTable() returns (ok: bool)
      requires Valid() && AllSafe(assembler.schema, assembler.storage.rows)
      modifies engine, assembler.storage`trouble
      ensures Valid() && (old(Trouble()) ==> Trouble())
      ensures ok ==> RowsOf(engine.table) == Some(FlatAll(assembler.schema, assembler.storage.rows))
      ensures TowardsFiles(assembler.schema, assembler.storage.rows, RowsOf(old(engine.table)), RowsOf(engine.table))
      ensures !ok ==> Trouble() || !AllConform(assembler.schema, assembler.storage.rows)
                      || !NoRepeats([ROW_ID] + FlatNames(assembler.schema))
    {
      ghost var ts, files := assembler.schema, assembler.storage.rows;
      ok := CreateDuckDBTable();
      if !ok {
        return false;
      }
      ok := engine.TruncateTable();
      if !ok {
        return false;
      }
      var listing := assembler.storage.ListDirs();
      if listing.None? {
        return false;
      }
      ok := LoadRows(listing.value);
    }

    /** Inserts all listed rows into the emptied table. */
    method LoadRows(rowIDs: seq<string>) returns (ok: bool)
      requires Valid() && AllSafe(assembler.schema, assembler.storage.rows) && RowsOf(engine.table) == Some(map[])
      requires NoRepeats(rowIDs) && forall id :: id in rowIDs <==> id in Listed(assembler.storage.rows)
      modifies engine
      ensures Valid() && (old(engine.trouble) ==> engine.trouble)
      ensures ok ==> RowsOf(engine.table) == Some(FlatAll(assembler.schema, assembler.storage.rows))
      ensures TowardsFiles(assembler.schema, assembler.storage.rows, Some(map[]), RowsOf(engine.table))
      ensures !ok ==> engine.trouble || !AllConform(assembler.schema, assembler.storage.rows)
    {
      ghost var ts, files := assembler.schema, assembler.storage.rows;
      for i := 0 to |rowIDs|
        invariant Valid() && (old(engine.trouble) ==> engine.trouble)
        invariant RowsOf(engine.table) == Some(FlatSome(ts, files, rowIDs[..i]))
      {
        assert rowIDs[i] in rowIDs;
        RowsTowards(ts, files, Some(map[]), map[], rowIDs[..i]);
        ok := LoadRow(rowIDs[i]);
        if !ok {
          assert rowIDs[i] !in rowIDs[..i];
          return false;
        }
        FlatOneMore(ts, files, rowIDs, i);
      }
      RowsTowards(ts, files, Some(map[]), map[], rowIDs);
      FlatSomeIsAll(ts, files, rowIDs);
      return true;
    }

    /** Rows that DuckDB already has are left as they are, so the result is that of a full load
      * exactly when none of them was out of date or orphaned. */
    method LoadTableIncremental() returns (ok: bool)
      requires Valid() && AllSafe(assembler.schema, assembler.storage.rows)
      modifies engine, assembler.storage`trouble
      ensures Valid() && (old(Trouble()) ==> Trouble())
      ensures ok ==> RowsOf(engine.table)
                     == Some(FlatAll(assembler.schema, assembler.storage.rows) + RowsBefore(old(engine.table)))
      ensures ok ==> (RowsOf(engine.table) == Some(FlatAll(assembler.schema, assembler.storage.rows))
                      <==> SubMap(RowsBefore(old(engine.table)), FlatAll(assembler.schema, assembler.storage.rows)))
      ensures !ok ==> Trouble() || !AllConform(assembler.schema, assembler.storage.rows)
                      || !NoRepeats([ROW_ID] + FlatNames(assembler.schema))
      ensures TowardsFiles(assembler.schema, assembler.storage.rows, RowsOf(old(engine.table)), RowsOf(engine.table))
    {
      ghost var ts, files := assembler.schema, assembler.storage.rows;
      ghost var before := RowsBefore(engine.table);
      ok := CreateDuckDBTable();
      if !ok {
        return false;
      }
      var selected := engine.SelectIds();
      var existingIDs := if selected.Some? then selected.value else {};
      var listing := assembler.storage.ListDirs();
      if listing.None? {
        return false;
      }
      ok := InsertMissing(existingIDs, listing.value);
      OverlaySame(FlatAll(ts, files), before);
    }

    /** Inserts the listed rows that are not among `existingIDs`. */
    method InsertMissing(existingIDs: set<string>, rowIDs: seq<string>) returns (ok: bool)
      requires Valid() && AllSafe(assembler.schema, assembler.storage.rows) && engine.table.Some?
      requires forall id :: id in rowIDs <==> id in Listed(assembler.storage.rows)
      requires existingIDs <= engine.table.value.rows.Keys
      requires NoRepeats(rowIDs)
      modifies engine
      ensures Valid() && (old(engine.trouble) ==> engine.trouble)
      ensures ok ==> RowsOf(engine.table) == Some(FlatAll(assembler.schema, assembler.storage.rows) + old(engine.table).value.rows)
      ensures TowardsFiles(assembler.schema, assembler.storage.rows, RowsOf(old(engine.table)), RowsOf(engine.table))
      ensures !ok ==> engine.trouble || !AllConform(assembler.schema, assembler.storage.rows)
                      || !(old(engine.table).value.rows.Keys <= existingIDs)
    {
      ghost var ts, files, before := assembler.schema, assembler.storage.rows, engine.table.value.rows;
      assert FlatSome(ts, files, rowIDs[..0]) + before == before;
      for i := 0 to |rowIDs|
        invariant Valid() && (old(engine.trouble) ==> engine.trouble)
        invariant RowsOf(engine.table) == Some(FlatSome(ts, files, rowIDs[..i]) + before)
      {
        assert rowIDs[i] in rowIDs;
        FlatOneMore(ts, files, rowIDs, i);
        RowsTowards(ts, files, RowsOf(old(engine.table)), before, rowIDs[..i]);
        UpdateUnder(FlatSome(ts, files, rowIDs[..i]), before, rowIDs[i], Flatten(ts, files[rowIDs[i]].groups));
        if rowIDs[i] !in existingIDs {
          ok := LoadRow(rowIDs[i]);
          if !ok {
            return false;
          }
        }
      }
      RowsTowards(ts, files, RowsOf(old(engine.table)), before, rowIDs);
      FlatSomeIsAll(ts, files, rowIDs);
      return true;
    }

    /** Inserts, updates and deletes; `sawIds` says whether the ids in DuckDB could be read. */
    method SyncTable() returns (ok: bool, ghost sawIds: bool)
      requires Valid() && AllSafe(assembler.schema, assembler.storage.rows)
      modifies engine, assembler.storage`trouble
      ensures Valid() && (old(Trouble()) ==> Trouble())
      ensures ok && sawIds ==> RowsOf(engine.table) == Some(FlatAll(assembler.schema, assembler.storage.rows))
      ensures ok && !sawIds ==> && Trouble()
                                && RowsBefore(old(engine.table)).Keys !! Listed(assembler.storage.rows)
                                && RowsOf(engine.table)
                                   == Some(RowsBefore(old(engine.table)) + FlatAll(assembler.schema, assembler.storage.rows))
      ensures !ok ==> Trouble() || !AllConform(assembler.schema, assembler.storage.rows)
                      || !NoRepeats([ROW_ID] + FlatNames(assembler.schema))
      ensures TowardsFiles(assembler.schema, assembler.storage.rows, RowsOf(old(engine.table)), RowsOf(engine.table))
    {
      ghost var before := RowsBefore(engine.table);
      sawIds := false;
      ok := CreateDuckDBTable();
      if !ok {
        return;
      }
      var selected := engine.SelectIds();
      sawIds := selected.Some?;
      var existingIDs := if selected.Some? then selected.value else {};
      var listing := assembler.storage.ListDirs();
      if listing.None? {
        return false, sawIds;
      }
      assert existingIDs == if sawIds then before.Keys else {};
      ok := SyncRows(existingIDs, listing.value);
      if ok && !sawIds {
        forall id | id in before ensures id !in Listed(assembler.storage.rows) {
        }
      }
    }

    /** Deletes what the listing does not have, then brings in what it has. */
    method SyncRows(existingIDs: set<string>, rowIDs: seq<string>) returns (ok: bool)
      requires Valid() && AllSafe(assembler.schema, assembler.storage.rows) && engine.table.Some?
      requires forall id :: id in rowIDs <==> id in Listed(assembler.storage.rows)
      requires NoRepeats(rowIDs)
      modifies engine
      ensures Valid() && (old(engine.trouble) ==> engine.trouble)
      ensures TowardsFiles(assembler.schema, assembler.storage.rows, RowsOf(old(engine.table)), RowsOf(engine.table))
      ensures ok && existingIDs == old(engine.table).value.rows.Keys ==>
                RowsOf(engine.table) == Some(FlatAll(assembler.schema, assembler.storage.rows))
      ensures ok && existingIDs == {} ==>
                && (forall id :: id in Listed(assembler.storage.rows) ==> id !in old(engine.table).value.rows)
                && RowsOf(engine.table) == Some(old(engine.table).value.rows + FlatAll(assembler.schema, assembler.storage.rows))
      ensures !ok ==> engine.trouble || !AllConform(assembler.schema, assembler.storage.rows)
                      || !(old(engine.table).value.rows.Keys <= existingIDs)
    {
      ghost var ts, files := assembler.schema, assembler.storage.rows;
      ghost var before := engine.table.value.rows;
      var jsonIDs := set id | id in rowIDs;
      ok := DeleteMissing(existingIDs, jsonIDs);
      ghost var kept := engine.table.value.rows;
      if !ok {
        return;
      }
      ok := RefreshAll(existingIDs, rowIDs);
      assert existingIDs == {} ==> kept == before;
      assert existingIDs == before.Keys ==> kept + FlatAll(ts, files) == FlatAll(ts, files);
    }

    method UpsertRow(rowID: string, present: bool) returns (ok: bool)
      requires Valid() && FlatSafe(assembler.schema, GroupsOf(assembler.storage.rows, rowID)) && engine.table.Some?
      modifies engine
      ensures Valid() && (old(engine.trouble) ==> engine.trouble) && engine.table.Some?
      ensures ok ==> && (present || rowID !in old(engine.table).value.rows)
                     && engine.table.value.rows == old(engine.table).value.rows
                          [rowID := Flatten(assembler.schema, GroupsOf(assembler.storage.rows, rowID))]
      ensures !ok ==> engine.table.value.rows == old(engine.table).value.rows
                      || engine.table.value.rows == old(engine.table).value.rows - {rowID}
      ensures !ok ==> engine.trouble || !Conforms(assembler.schema, GroupsOf(assembler.storage.rows, rowID))
                      || (!present && rowID in old(engine.table).value.rows)
    {
      if present {
        ok := RefreshRow(rowID);
      } else {
        ok := LoadRow(rowID);
      }
    }

    /** Refreshes the rows DuckDB has and inserts the others. */
    method RefreshAll(existingIDs: set<string>, rowIDs: seq<string>) returns (ok: bool)
      requires Valid() && AllSafe(assembler.schema, assembler.storage.rows) && engine.table.Some?
      requires forall id :: id in rowIDs <==> id in Listed(assembler.storage.rows)
      requires NoRepeats(rowIDs)
      modifies engine
      ensures Valid() && (old(engine.trouble) ==> engine.trouble) && engine.table.Some?
      ensures TowardsFiles(assembler.schema, assembler.storage.rows, RowsOf(old(engine.table)), RowsOf(engine.table))
      ensures ok ==> RowsOf(engine.table) == Some(old(engine.table).value.rows + FlatAll(assembler.schema, assembler.storage.rows))
      ensures ok ==> forall id :: id in rowIDs && id !in existingIDs ==> id !in old(engine.table).value.rows
      ensures !ok ==> engine.trouble || !AllConform(assembler.schema, assembler.storage.rows)
                      || !(old(engine.table).value.rows.Keys <= existingIDs)
    {
      ghost var ts, files := assembler.schema, assembler.storage.rows;
      ghost var kept := engine.table.value.rows;
      assert kept + FlatSome(ts, files, rowIDs[..0]) == kept;
      for i := 0 to |rowIDs|
        invariant Valid() && (old(engine.trouble) ==> engine.trouble)
        invariant engine.table.Some? && engine.table.value.rows == kept + FlatSome(ts, files, rowIDs[..i])
        invariant forall k :: 0 <= k < i && rowIDs[k] !in existingIDs ==> rowIDs[k] !in kept
      {
        assert rowIDs[i] in rowIDs;
        OverlayOneMore(ts, files, kept, rowIDs, i);
        ok := UpsertRow(rowIDs[i], rowIDs[i] in existingIDs);
        if !ok {
          assert rowIDs[i] !in rowIDs[..i];
          return;
        }
      }
      RowsTowards(ts, files, Some(kept), kept, rowIDs);
      FlatSomeIsAll(ts, files, rowIDs);
      return true;
    }

    /** Ids are visited in an unspecified order. */
    method DeleteMissing(existingIDs: set<string>, jsonIDs: set<string>) returns (ok: bool)
      requires Valid() && engine.table.Some?
      modifies engine
      ensures Valid() && (old(engine.trouble) ==> engine.trouble)
      ensures engine.table.Some? && SubMap(engine.table.value.rows, old(engine.table).value.rows)
      ensures ok ==> engine.table.value.rows == old(engine.table).value.rows - (existingIDs - jsonIDs)
      ensures !ok ==> engine.trouble
    {
      ghost var before := engine.table.value.rows;
      var todo := existingIDs;
      assert before - (existingIDs - todo - jsonIDs) == before;
      while todo != {}
        invariant Valid() && (old(engine.trouble) ==> engine.trouble)
        invariant todo <= existingIDs
        invariant engine.table.Some? && engine.table.value.rows == before - (existingIDs - todo - jsonIDs)
        decreases |todo|
      {
        var id :| id in todo;
        if id !in jsonIDs {
          ok := DeleteRow(id);
          if !ok {
            return;
          }
        }
        assert before - (existingIDs - (todo - {id}) - jsonIDs)
            == if id in jsonIDs then before - (existingIDs - todo - jsonIDs)
               else before - (existingIDs - todo - jsonIDs) - {id};
        todo := todo - {id};
      }
      assert existingIDs - {} - jsonIDs == existingIDs - jsonIDs;
      return true;
    }
  }

  function RowsBefore(table: Option<Table>): map<string, FlatRow> {
    if table.Some? then table.value.rows else map[]
  }

  lemma DeclaredColumns(ts: TableSchema)
    requires FlatDistinct(ts)
    ensures (set c | c in [ROW_ID] + FlatNames(ts)) - {ROW_ID} == FlatColumns(ts)
  {
    forall c ensures c in FlatNames(ts) <==> c in FlatColumns(ts) {
      if c in FlatColumns(ts) {
        var q :| q in Columns(ts) && q.FlatName() == c;
        var i :| 0 <= i < |Columns(ts)| && Columns(ts)[i] == q;
        assert FlatNames(ts)[i] == c;
      }
      if c in FlatNames(ts) {
        var i :| 0 <= i < |FlatNames(ts)| && FlatNames(ts)[i] == c;
        assert Columns(ts)[i] in Columns(ts);
      }
    }
  }

  lemma RowsTowards(ts: TableSchema, files: Files, before: Option<map<string, FlatRow>>, kept: map<string, FlatRow>, ids: seq<string>)
    requires FlatDistinct(ts)
    requires forall id :: id in ids ==> id in Listed(files)
    requires SubMap(kept, if before.Some? then before.value else map[])
    ensures TowardsFiles(ts, files, before, Some(kept + FlatSome(ts, files, ids)))
    ensures TowardsFiles(ts, files, before, Some(FlatSome(ts, files, ids) + kept))
    ensures map[] + FlatSome(ts, files, ids) == FlatSome(ts, files, ids)
  {
    var some := FlatSome(ts, files, ids);
    forall id | id in some ensures RowTowards(ts, files, before, id, some[id]) {
      assert id in Listed(files);
    }
    forall id | id in kept ensures RowTowards(ts, files, before, id, kept[id]) {
    }
  }

  lemma OverlayOneMore(ts: TableSchema, files: Files, kept: map<string, FlatRow>, ids: seq<string>, i: nat)
    requires FlatDistinct(ts) && i < |ids|
    requires forall id :: id in ids ==> id in Listed(files)
    ensures var rows := kept + FlatSome(ts, files, ids[..i]);
            && kept + FlatSome(ts, files, ids[..i + 1]) == rows[ids[i] := Flatten(ts, GroupsOf(files, ids[i]))]
            && TowardsFiles(ts, files, Some(kept), Some(rows))
            && TowardsFiles(ts, files, Some(kept), Some(rows - {ids[i]}))
  {
    assert ids[i] in ids;
    FlatOneMore(ts, files, ids, i);
    UpdateOver(kept, FlatSome(ts, files, ids[..i]), ids[i], Flatten(ts, GroupsOf(files, ids[i])));
    RowsTowards(ts, files, Some(kept), kept, ids[..i]);
  }

  lemma UpdateOver(under: map<string, FlatRow>, m: map<string, FlatRow>, id: string, row: FlatRow)
    ensures under + m[id := row] == (under + m)[id := row]
  {
  }

  lemma UpdateUnder(m: map<string, FlatRow>, over: map<string, FlatRow>, id: string, row: FlatRow)
    ensures m[id := row] + over == if id in over then m + over else (m + over)[id := row]
  {
  }

  lemma FlatOneMore(ts: TableSchema, files: Files, ids: seq<string>, i: nat)
    requires FlatDistinct(ts) && i < |ids| && ids[i] in files
    ensures FlatSome(ts, files, ids[..i + 1]) == FlatSome(ts, files, ids[..i])[ids[i] := Flatten(ts, files[ids[i]].groups)]
  {
    assert ids[..i + 1] == ids[..i] + [ids[i]];
  }

  lemma FlatSomeIsAll(ts: TableSchema, files: Files, ids: seq<string>)
    requires FlatDistinct(ts)
    requires forall id :: id in ids <==> id in Listed(files)
    ensures FlatSome(ts, files, ids[..|ids|]) == FlatAll(ts, files)
  {
    assert ids[..|ids|] == ids;
  }

  // ---------------------------------------------------------------------------------------

  lemma OverlaySame<K, V>(m: map<K, V>, over: map<K, V>)
    ensures m + over == m <==> SubMap(over, m)
  {
    if m + over == m {
      forall k | k in over ensures k in m && over[k] == m[k] {
        assert k in m + over && (m + over)[k] == over[k];
      }
    }
  }

  /** CREATE TABLE cannot fail on a repeated name once the schema is validated and its flat names
    * differ. */
  lemma DeclarationHasNoRepeats(ts: TableSchema)
    requires WellFormed(ts) && FlatDistinct(ts)
    ensures NoRepeats([ROW_ID] + FlatNames(ts))
  {
    ValidatedColumnsAreUnique(ts.columnGroups);
    var cols, all := Columns(ts), [ROW_ID] + FlatNames(ts);
    forall i, j | 0 <= i < j < |all| ensures all[i] != all[j] {
      assert all[j] == cols[j - 1].FlatName() && cols[j - 1] in cols;
      if i > 0 {
        assert all[i] == cols[i - 1].FlatName() && cols[i - 1] in cols;
      }
    }
  }
}
