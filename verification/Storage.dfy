/** One table's directory under pkg/storage/disk.go: a directory per row holding a JSON file per
  * column group, and the index metadata file.  File operations are atomic; each may fail. */
module Storage {
  import opened Wrappers
  import opened Schema
  import opened Rows

  /** `mtime` is the directory's own modification time: creating a file in it moves it, writing
    * over a file that is there already does not. */
  datatype RowDir = RowDir(groups: Groups, mtime: nat)

  type Files = map<string, RowDir>

  /** The data fingerprint of a table: a hash of the listed row ids and the modification times
    * of their directories, taken to be injective and so represented by what it hashes. */
  type Fingerprint = map<string, nat>

  /** The schema hash, likewise: it leaves out the primary key. */
  datatype SchemaHash = SchemaHash(name: string, updatedAt: int, columnGroups: seq<ColumnGroup>)

  function SchemaHashOf(ts: TableSchema): SchemaHash {
    SchemaHash(ts.name, ts.updatedAt, ts.columnGroups)
  }

  datatype IndexMeta = IndexMeta(schemaHash: SchemaHash, dataHash: Fingerprint, rowCount: nat)

  /** Directory listings leave out names that begin with a dot or an underscore. */
  predicate Hidden(name: string) {
    name != "" && (name[0] == '.' || name[0] == '_')
  }

  function Listed(files: Files): set<string> {
    set id | id in files && !Hidden(id)
  }

  function FingerprintOf(files: Files): Fingerprint {
    map id | id in files && !Hidden(id) :: files[id].mtime
  }

  function GroupsOf(files: Files, id: string): Groups {
    if id in files then files[id].groups else map[]
  }

  function WithDir(files: Files, id: string, clock: nat): Files {
    if id in files then files else files[id := RowDir(map[], clock)]
  }

  function WithFile(files: Files, id: string, group: string, data: GroupData, clock: nat): Files {
    var groups := GroupsOf(files, id);
    files[id := RowDir(groups[group := data], if group in groups then files[id].mtime else clock)]
  }

  /** Nothing but the directory of `id` may have changed, and if files were created in it, its
    * modification time is later than any time before. */
  ghost predicate TouchedOnly(before: Files, c: nat, after: Files, c': nat, id: string) {
    && c <= c'
    && (forall k :: k != id ==> (k in before <==> k in after) && (k in before ==> before[k] == after[k]))
    && (id in before ==> id in after)
    && (id in after ==>
          if id in before && before[id].mtime == after[id].mtime
          then before[id].groups.Keys == after[id].groups.Keys
          else c <= after[id].mtime < c')
  }

  /** Every modification time lies in the past. */
  ghost predicate TimesPast(files: Files, clock: nat) {
    forall id :: id in files ==> files[id].mtime < clock
  }

  class DiskStorage {
    var rows: Files
    var clock: nat
    var meta: Option<IndexMeta>
    ghost var trouble: bool  // a file operation has failed

    ghost predicate Valid()
      reads this
    {
      TimesPast(rows, clock)
    }

    method MkdirAll(id: string) returns (ok: bool)
      requires Valid()
      modifies this`rows, this`clock, this`trouble
      ensures Valid() && (old(trouble) || !ok ==> trouble)
      ensures TouchedOnly(old(rows), old(clock), rows, clock, id)
      ensures ok ==> rows == WithDir(old(rows), id, old(clock))
      ensures !ok ==> rows == old(rows)
    {
      if * {
        trouble := true;
        return false;
      }
      rows := WithDir(rows, id, clock);
      clock := clock + 1;
      return true;
    }

    method WriteJSON(id: string, group: string, data: GroupData) returns (ok: bool)
      requires Valid()
      modifies this`rows, this`clock, this`trouble
      ensures Valid() && (old(trouble) || !ok ==> trouble)
      ensures TouchedOnly(old(rows), old(clock), rows, clock, id)
      ensures ok ==> rows == WithFile(old(rows), id, group, data, old(clock))
      ensures !ok ==> rows == old(rows)
    {
      if * {
        trouble := true;
        return false;
      }
      rows := WithFile(rows, id, group, data, clock);
      clock := clock + 1;
      return true;
    }

    method ReadJSON(id: string, group: string) returns (data: Option<GroupData>)
      ensures data == if group in GroupsOf(rows, id) then Some(rows[id].groups[group]) else None
    {
      if id in rows && group in rows[id].groups {
        return Some(rows[id].groups[group]);
      }
      return None;
    }

    method DeleteDir(id: string) returns (ok: bool)
      requires Valid()
      modifies this`rows, this`trouble
      ensures Valid() && (old(trouble) || !ok ==> trouble)
      ensures rows == if ok then old(rows) - {id} else old(rows)
    {
      if * {
        trouble := true;
        return false;
      }
      rows := rows - {id};
      return true;
    }

    method SaveIndexMeta(m: IndexMeta) returns (ok: bool)
      modifies this`meta, this`trouble
      ensures old(trouble) || !ok ==> trouble
      ensures meta == if ok then Some(m) else old(meta)
    {
      if * {
        trouble := true;
        return false;
      }
      meta := Some(m);
      return true;
    }

    /** None when there is no metadata file or it could not be read. */
    method GetIndexMeta() returns (m: Option<IndexMeta>)
      modifies this`trouble
      ensures old(trouble) ==> trouble
      ensures m.Some? ==> m == meta
      ensures m.None? ==> trouble || meta.None?
    {
      if * {
        trouble := true;
        return None;
      }
      return meta;
    }

    /** The visible entries, each once, in some order. */
    method ListDirs() returns (ids: Option<seq<string>>)
      modifies this`trouble
      ensures old(trouble) || ids.None? ==> trouble
      ensures ids.Some? ==> NoRepeats(ids.value) && forall id :: id in ids.value <==> id in Listed(rows)
      ensures ids.Some? ==> forall id :: id in ids.value <==> id in rows && !(|id| > 0 && (id[0] == '.' || id[0] == '_'))
    {
      if * {
        trouble := true;
        return None;
      }
      var dirs: seq<string> := [];
      var entries := rows.Keys;
      while entries != {}
        invariant entries <= rows.Keys
        invariant NoRepeats(dirs)
        invariant forall id :: id in dirs <==> id in Listed(rows) && id !in entries
        decreases |entries|
      {
        var name :| name in entries;
        if !Hidden(name) {
          dirs := dirs + [name];
        }
        entries := entries - {name};
      }
      return Some(dirs);
    }
  }
}
