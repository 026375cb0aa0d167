/** Index building and the row operations that write both stores: pkg/duckdb/indexer.go and the
  * two-store half of pkg/engine/engine.go. */
module Engine {
  import opened Wrappers
  import opened Schema
  import opened Rows
  import opened Storage
  import opened Assembler
  import opened Database
  import opened Loader
  import opened TwoStores

  class Indexer {
    const loader: Loader

    constructor (loader: Loader)
      ensures this.loader == loader
    {
      this.loader := loader;
    }

    ghost function State(): World
      reads loader.engine, loader.assembler.storage
    {
      World(loader.assembler.storage.rows, loader.assembler.storage.clock, loader.assembler.storage.meta,
            RowsOf(loader.engine.table))
    }

    ghost predicate Valid()
      reads loader.engine, loader.assembler.storage
    {
      loader.Valid() && AllSafe(loader.assembler.schema, loader.assembler.storage.rows)
    }

    /** The listed ids with their directories' modification times. */
    method ComputeDataHash() returns (hash: Option<Fingerprint>)
      modifies loader.assembler.storage`trouble
      ensures old(loader.Trouble()) || hash.None? ==> loader.Trouble()
      ensures hash.Some? ==> hash.value == FingerprintOf(loader.assembler.storage.rows)
    {
      var storage := loader.assembler.storage;
      var listing := storage.ListDirs();
      if listing.None? {
        return None;
      }
      var rowIDs := listing.value;
      var h: Fingerprint := map[];
      for i := 0 to |rowIDs|
        invariant h == map id | id in rowIDs[..i] && id in storage.rows :: storage.rows[id].mtime
      {
        assert rowIDs[i] in rowIDs;
        h := h[rowIDs[i] := storage.rows[rowIDs[i]].mtime];
        assert rowIDs[..i + 1] == rowIDs[..i] + [rowIDs[i]];
      }
      assert rowIDs[..|rowIDs|] == rowIDs;
      return Some(h);
    }

    /** False only when schema and data are the recorded ones; `ok` is false on an error. */
    method NeedsReindex() returns (needed: bool, ok: bool)
      modifies loader.assembler.storage`trouble
      ensures old(loader.Trouble()) ==> loader.Trouble()
      ensures !ok ==> loader.Trouble()
      ensures State().meta.Some? && State().meta.value.schemaHash.columnGroups != loader.assembler.schema.columnGroups ==> needed
      ensures State().meta.Some? && State().meta.value.schemaHash.updatedAt != loader.assembler.schema.updatedAt ==> needed
      ensures !needed ==> ok && Skips(loader.assembler.schema, State().(rows := Some(map[])), false)
      ensures needed ==> loader.Trouble() || !Skips(loader.assembler.schema, State().(rows := Some(map[])), false)
    {
      var meta := loader.assembler.storage.GetIndexMeta();
      if meta.None? {
        return true, true;
      }
      if meta.value.schemaHash != SchemaHashOf(loader.assembler.schema) {
        return true, true;
      }
      var dataHash := ComputeDataHash();
      if dataHash.None? {
        return true, false;
      }
      if meta.value.dataHash != dataHash.value {
        return true, true;
      }
      return false, true;
    }

    /** `counted` says whether the row count could be read; it is recorded as 0 otherwise. */
    method BuildIndex() returns (ok: bool, ghost counted: bool)
      requires Valid()
      modifies loader.engine, loader.assembler.storage`trouble, loader.assembler.storage`meta
      ensures Valid() && (old(loader.Trouble()) || !counted ==> loader.Trouble())
      ensures ok ==> Built(loader.assembler.schema, old(State()), State(), counted)
      ensures !ok ==> Bulk(loader.assembler.schema, old(State()), State())
      ensures !ok ==> loader.Trouble() || !AllConform(loader.assembler.schema, loader.assembler.storage.rows)
                      || !NoRepeats([ROW_ID] + FlatNames(loader.assembler.schema))
    {
      counted := true;
      ok := loader.LoadTable();
      if !ok {
        return;
      }
      var dataHash := ComputeDataHash();
      if dataHash.None? {
        return false, true;
      }
      var count := loader.engine.CountRows();
      var rowCount := if count.Some? then count.value else 0;
      counted := count.Some?;
      ok := loader.assembler.storage.SaveIndexMeta(IndexMeta(SchemaHashOf(loader.assembler.schema), dataHash.value, rowCount));
    }

    method SmartLoad() returns (rebuilt: bool, ok: bool, ghost counted: bool, ghost reread: bool)
      requires Valid()
      modifies loader.engine, loader.assembler.storage`trouble, loader.assembler.storage`meta
      ensures Valid() && (old(loader.Trouble()) || !counted || !reread ==> loader.Trouble())
      ensures ok ==> SmartLoaded(loader.assembler.schema, old(State()), State(), rebuilt, counted, reread)
      ensures rebuilt ==> loader.Trouble() || !Skips(loader.assembler.schema, old(State()), true)
      ensures !ok ==> Bulk(loader.assembler.schema, old(State()), State())
      ensures !ok ==> loader.Trouble() || !AllConform(loader.assembler.schema, loader.assembler.storage.rows)
                      || !NoRepeats([ROW_ID] + FlatNames(loader.assembler.schema))
    {
      rebuilt, counted, reread := false, true, true;
      var needed;
      needed, ok := NeedsReindex();
      if !ok {
        return;
      }
      if needed {
        ok, counted := BuildIndex();
        rebuilt := ok;
        return;
      }
      if loader.engine.table.None? {
        ok, counted := BuildIndex();
        rebuilt := ok;
        return;
      }
      var dbRowCount := loader.engine.CountRows();
      if dbRowCount.None? {
        return false, false, true, true;
      }
      var meta := loader.assembler.storage.GetIndexMeta();
      reread := meta.Some?;
      if meta.Some? && dbRowCount.value != meta.value.rowCount {
        ok, counted := BuildIndex();
        rebuilt := ok;
        return;
      }
      return false, true, true, reread;
    }
  }

  class Engine {
    const indexer: Indexer

    constructor (indexer: Indexer)
      ensures this.indexer == indexer
    {
      this.indexer := indexer;
    }

    /** What is stored for a row. */
    ghost function Stored(id: string): Groups
      reads indexer.loader.assembler.storage
    {
      GroupsOf(indexer.loader.assembler.storage.rows, id)
    }

    /** DuckDB has no table, or the stored row has a column that the table has not. */
    ghost predicate NotInserted(id: string)
      reads indexer.loader.engine, indexer.loader.assembler.storage
    {
      indexer.loader.engine.table.None? || !Conforms(indexer.loader.assembler.schema, Stored(id))
    }

    method InsertRow(row: Row) returns (ok: bool)
      requires indexer.loader.Valid()
      requires FlatSafe(indexer.loader.assembler.schema, Stored(row.ID) + Inserted(GroupNames(indexer.loader.assembler.schema), row.Groups))
      modifies indexer.loader.engine, indexer.loader.assembler.storage
      ensures indexer.loader.Valid() && (old(indexer.loader.Trouble()) ==> indexer.loader.Trouble())
      ensures RowWrite(indexer.loader.assembler.schema, old(indexer.State()), indexer.State(), row.ID, ok)
      ensures ok ==> Stored(row.ID) == old(Stored(row.ID)) + Inserted(GroupNames(indexer.loader.assembler.schema), row.Groups)
      ensures !ok ==> indexer.loader.Trouble() || NotInserted(row.ID)
    {
      ok := indexer.loader.assembler.InsertRow(row);
      if ok {
        ok := indexer.loader.RefreshRow(row.ID);
      }
    }

    method UpdateRow(row: Row) returns (ok: bool)
      requires indexer.loader.Valid()
      requires FlatSafe(indexer.loader.assembler.schema, Merged(Stored(row.ID), row.Groups))
      modifies indexer.loader.engine, indexer.loader.assembler.storage
      ensures indexer.loader.Valid() && (old(indexer.loader.Trouble()) ==> indexer.loader.Trouble())
      ensures RowWrite(indexer.loader.assembler.schema, old(indexer.State()), indexer.State(), row.ID, ok)
      ensures ok ==> Stored(row.ID) == Merged(old(Stored(row.ID)), row.Groups)
      ensures !ok ==> indexer.loader.Trouble() || row.ID !in old(indexer.loader.assembler.storage.rows) || NotInserted(row.ID)
      ensures row.ID !in old(indexer.loader.assembler.storage.rows) && !indexer.loader.Trouble() ==>
                !ok && indexer.State() == old(indexer.State())
    {
      ok := indexer.loader.assembler.UpdateRow(row);
      if ok {
        ok := indexer.loader.RefreshRow(row.ID);
      }
    }

    method UpdateColumnGroup(rowID: string, groupName: string, data: GroupData) returns (ok: bool)
      requires indexer.loader.Valid()
      requires FlatSafe(indexer.loader.assembler.schema, Stored(rowID)[groupName := data])
      modifies indexer.loader.engine, indexer.loader.assembler.storage
      ensures indexer.loader.Valid() && (old(indexer.loader.Trouble()) ==> indexer.loader.Trouble())
      ensures RowWrite(indexer.loader.assembler.schema, old(indexer.State()), indexer.State(), rowID, ok)
      ensures ok ==> Stored(rowID) == old(Stored(rowID))[groupName := data]
      ensures !ok ==> indexer.loader.Trouble() || NotInserted(rowID)
    {
      ok := indexer.loader.assembler.UpdateColumnGroup(rowID, groupName, data);
      if ok {
        ok := indexer.loader.RefreshRow(rowID);
      }
    }

    method DeleteRow(rowID: string) returns (ok: bool)
      requires indexer.loader.Valid()
      modifies indexer.loader.engine, indexer.loader.assembler.storage
      ensures indexer.loader.Valid() && (old(indexer.loader.Trouble()) ==> indexer.loader.Trouble())
      ensures RowDelete(old(indexer.State()), indexer.State(), rowID, ok)
      ensures !ok ==> indexer.loader.Trouble() || indexer.loader.engine.table.None?
    {
      ok := indexer.loader.assembler.DeleteRow(rowID);
      if ok {
        ok := indexer.loader.DeleteRow(rowID);
      }
    }
  }
}
