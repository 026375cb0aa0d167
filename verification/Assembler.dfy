/** Reading and writing rows across column groups: the Assembler of pkg/colgroup/assembler.go. */
module Assembler {
  import opened Wrappers
  import opened Schema
  import opened Rows
  import opened Storage

  /** What an insert writes: a file for every group of the schema, empty where the row has none. */
  function Inserted(names: set<string>, row: Groups): Groups {
    map g | g in names :: if g in row then row[g] else map[]
  }

  /** The stored groups with those of `row` in `done` laid over them, column by column. */
  function MergedOver(stored: Groups, row: Groups, done: set<string>): Groups {
    map g | g in stored.Keys + (row.Keys * done) && (g in stored || row[g] != map[]) ::
      if g in row && g in done && row[g] != map[] then (if g in stored then stored[g] else map[]) + row[g] else stored[g]
  }

  function Merged(stored: Groups, row: Groups): Groups {
    MergedOver(stored, row, row.Keys)
  }

  /** What reading a row returns: the stored groups that the schema knows. */
  function Known(names: set<string>, stored: Groups): Groups {
    map g | g in names && g in stored :: stored[g]
  }

  function ReadGroups(ts: TableSchema, files: Files, id: string): Groups {
    Known(GroupNames(ts), GroupsOf(files, id))
  }

  function SelectedData(group: string, data: GroupData, columns: seq<QualifiedColumn>): GroupData {
    map c | c in data && QualifiedColumn(group, c) in columns :: data[c]
  }

  function GroupsIn(columns: seq<QualifiedColumn>): set<string> {
    set q | q in columns :: q.group
  }

  /** The requested columns of the stored groups. */
  function Selected(stored: Groups, columns: seq<QualifiedColumn>): Groups {
    map g | g in stored && g in GroupsIn(columns) ::
      SelectedData(g, stored[g], columns)
  }

  class Assembler {
    const storage: DiskStorage
    const schema: TableSchema

    constructor (storage: DiskStorage, schema: TableSchema)
      ensures this.storage == storage && this.schema == schema
    {
      this.storage := storage;
      this.schema := schema;
    }

    /** One file written in the row's directory, in the course of a change that began with
      * `files` at `c`. */
    method WriteGroup(id: string, name: string, data: GroupData, ghost files: Files, ghost c: nat) returns (ok: bool)
      requires storage.Valid() && TimesPast(files, c)
      requires TouchedOnly(files, c, storage.rows, storage.clock, id)
      modifies storage`rows, storage`clock, storage`trouble
      ensures storage.Valid() && (old(storage.trouble) || !ok ==> storage.trouble)
      ensures TouchedOnly(files, c, storage.rows, storage.clock, id)
      ensures ok ==> id in storage.rows && storage.rows[id].groups == old(GroupsOf(storage.rows, id))[name := data]
    {
      ghost var files', c' := storage.rows, storage.clock;
      ok := storage.WriteJSON(id, name, data);
    }

    method InsertRow(row: Row) returns (ok: bool)
      requires storage.Valid()
      modifies storage`rows, storage`clock, storage`trouble
      ensures storage.Valid() && (old(storage.trouble) || !ok ==> storage.trouble)
      ensures TouchedOnly(old(storage.rows), old(storage.clock), storage.rows, storage.clock, row.ID)
      ensures ok ==> row.ID in storage.rows &&
                     storage.rows[row.ID].groups == old(GroupsOf(storage.rows, row.ID)) + Inserted(GroupNames(schema), row.Groups)
    {
      ghost var stored := GroupsOf(storage.rows, row.ID);
      ok := storage.MkdirAll(row.ID);
      if !ok {
        return false;
      }
      var groups := schema.columnGroups;
      for i := 0 to |groups|
        invariant storage.Valid() && (old(storage.trouble) ==> storage.trouble)
        invariant TouchedOnly(old(storage.rows), old(storage.clock), storage.rows, storage.clock, row.ID)
        invariant row.ID in storage.rows
        invariant storage.rows[row.ID].groups == stored + Inserted(NamesOf(groups[..i]), row.Groups)
      {
        var name := groups[i].name;
        var groupData := if name in row.Groups then row.Groups[name] else map[];
        var written := WriteGroup(row.ID, name, groupData, old(storage.rows), old(storage.clock));
        if !written {
          return false;
        }
        InsertedOneMore(stored, groups, i, row.Groups);
      }
      assert groups[..|groups|] == groups;
      return true;
    }

    method ReadRow(rowID: string) returns (row: Row)
      ensures fresh(row) && row.ID == rowID
      ensures row.Groups == ReadGroups(schema, storage.rows, rowID)
    {
      row := new Row(rowID);
      var groups := schema.columnGroups;
      for i := 0 to |groups|
        invariant fresh(row) && row.ID == rowID
        invariant row.Groups == Known(NamesOf(groups[..i]), GroupsOf(storage.rows, rowID))
      {
        var groupData := storage.ReadJSON(rowID, groups[i].name);
        if groupData.Some? {
          row.Groups := row.Groups[groups[i].name := groupData.value];
        }
      }
      assert groups[..|groups|] == groups;
    }

    /** Groups are visited in an unspecified order. */
    method ReadRowColumns(rowID: string, columns: seq<QualifiedColumn>) returns (row: Row)
      ensures fresh(row) && row.ID == rowID
      ensures row.Groups == Selected(GroupsOf(storage.rows, rowID), columns)
    {
      var groupsNeeded := ByGroup(columns);
      row := new Row(rowID);
      ghost var stored := GroupsOf(storage.rows, rowID);
      var names := groupsNeeded.Keys;
      while names != {}
        invariant fresh(row) && row.ID == rowID
        invariant names <= groupsNeeded.Keys
        invariant forall g :: g in row.Groups <==> g in stored && g in groupsNeeded && g !in names
        invariant forall g :: g in row.Groups ==> row.Groups[g] == SelectedData(g, stored[g], columns)
        decreases |names|
      {
        var groupName :| groupName in names;
        var groupData := storage.ReadJSON(rowID, groupName);
        if groupData.Some? {
          var filteredData := FilterColumns(groupName, groupData.value, groupsNeeded[groupName], columns);
          row.Groups := row.Groups[groupName := filteredData];
        }
        names := names - {groupName};
      }
    }

    /** The row's groups are visited in an unspecified order. */
    method UpdateRow(row: Row) returns (ok: bool)
      requires storage.Valid()
      modifies storage`rows, storage`clock, storage`trouble
      ensures storage.Valid() && (old(storage.trouble) ==> storage.trouble)
      ensures TouchedOnly(old(storage.rows), old(storage.clock), storage.rows, storage.clock, row.ID)
      ensures ok ==> row.ID in old(storage.rows) && row.ID in storage.rows &&
                     storage.rows[row.ID].groups == Merged(old(GroupsOf(storage.rows, row.ID)), row.Groups)
      ensures !ok ==> storage.trouble ||
                      (row.ID !in old(storage.rows) && storage.rows == old(storage.rows) && storage.clock == old(storage.clock))
    {
      if row.ID !in storage.rows {
        return false;
      }
      ghost var stored := GroupsOf(storage.rows, row.ID);
      var names := row.Groups.Keys;
      while names != {}
        invariant storage.Valid() && (old(storage.trouble) ==> storage.trouble)
        invariant names <= row.Groups.Keys
        invariant TouchedOnly(old(storage.rows), old(storage.clock), storage.rows, storage.clock, row.ID)
        invariant row.ID in storage.rows
        invariant storage.rows[row.ID].groups == MergedOver(stored, row.Groups, row.Groups.Keys - names)
        decreases |names|
      {
        var groupName :| groupName in names;
        var groupData := row.Groups[groupName];
        ghost var rest := names - {groupName};
        MergedOneMore(stored, row.Groups, row.Groups.Keys - names, groupName);
        assert row.Groups.Keys - rest == (row.Groups.Keys - names) + {groupName};
        if groupData != map[] {
          var existing := storage.ReadJSON(row.ID, groupName);
          var existingData := if existing.Some? then existing.value else map[];
          var written := WriteGroup(row.ID, groupName, existingData + groupData, old(storage.rows), old(storage.clock));
          if !written {
            return false;
          }
        }
        names := names - {groupName};
      }
      assert row.Groups.Keys - {} == row.Groups.Keys;
      return true;
    }

    method DeleteRow(rowID: string) returns (ok: bool)
      requires storage.Valid()
      modifies storage`rows, storage`trouble
      ensures storage.Valid() && (old(storage.trouble) || !ok ==> storage.trouble)
      ensures storage.rows == if ok then old(storage.rows) - {rowID} else old(storage.rows)
    {
      ok := storage.DeleteDir(rowID);
    }

    method UpdateColumnGroup(rowID: string, groupName: string, data: GroupData) returns (ok: bool)
      requires storage.Valid()
      modifies storage`rows, storage`clock, storage`trouble
      ensures storage.Valid() && (old(storage.trouble) || !ok ==> storage.trouble)
      ensures TouchedOnly(old(storage.rows), old(storage.clock), storage.rows, storage.clock, rowID)
      ensures ok ==> rowID in storage.rows &&
                     storage.rows[rowID].groups == old(GroupsOf(storage.rows, rowID))[groupName := data]
    {
      ok := storage.MkdirAll(rowID);
      if !ok {
        return false;
      }
      ok := WriteGroup(rowID, groupName, data, old(storage.rows), old(storage.clock));
    }
  }

  ghost predicate NamesIn(group: string, names: seq<string>, columns: seq<QualifiedColumn>) {
    forall c :: c in names <==> QualifiedColumn(group, c) in columns
  }

  method ByGroup(columns: seq<QualifiedColumn>) returns (needed: map<string, seq<string>>)
    ensures needed.Keys == GroupsIn(columns)
    ensures forall g :: g in needed ==> NamesIn(g, needed[g], columns)
  {
    needed := map[];
    for i := 0 to |columns|
      invariant needed.Keys == GroupsIn(columns[..i])
      invariant forall g :: g in needed ==> NamesIn(g, needed[g], columns[..i])
    {
      var g := columns[i].group;
      ghost var front := columns[..i];
      assert columns[..i + 1] == front + [columns[i]];
      var names := if g in needed then needed[g] else [];
      assert NamesIn(g, names, front);
      assert NamesIn(g, names + [columns[i].column], columns[..i + 1]);
      needed := needed[g := names + [columns[i].column]];
    }
    assert columns[..|columns|] == columns;
  }

  method FilterColumns(group: string, data: GroupData, colNames: seq<string>, ghost columns: seq<QualifiedColumn>)
    returns (filtered: GroupData)
    requires NamesIn(group, colNames, columns)
    ensures filtered == SelectedData(group, data, columns)
  {
    filtered := map[];
    for i := 0 to |colNames|
      invariant filtered == map c | c in data && c in colNames[..i] :: data[c]
    {
      if colNames[i] in data {
        filtered := filtered[colNames[i] := data[colNames[i]]];
      }
      assert colNames[..i + 1] == colNames[..i] + [colNames[i]];
    }
    assert colNames[..|colNames|] == colNames;
  }

  lemma InsertedOneMore(stored: Groups, groups: seq<ColumnGroup>, i: nat, row: Groups)
    requires i < |groups|
    ensures var name := groups[i].name;
            stored + Inserted(NamesOf(groups[..i + 1]), row)
            == (stored + Inserted(NamesOf(groups[..i]), row))[name := if name in row then row[name] else map[]]
  {
    assert NamesOf(groups[..i + 1]) == NamesOf(groups[..i]) + {groups[i].name};
  }

  lemma MergedOneMore(stored: Groups, row: Groups, done: set<string>, g: string)
    requires g in row && g !in done
    ensures MergedOver(stored, row, done + {g})
            == if row[g] == map[] then MergedOver(stored, row, done)
               else MergedOver(stored, row, done)[g := (if g in stored then stored[g] else map[]) + row[g]]
    ensures g in MergedOver(stored, row, done) <==> g in stored
    ensures g in stored ==> MergedOver(stored, row, done)[g] == stored[g]
  {
  }

  // ---------------------------------------------------------------------------------------

  /** Reading after an update gives the old row overridden by the new one: a column has the new
    * value where the update names it and the old one everywhere else. */
  lemma ReadAfterUpdate(ts: TableSchema, before: Files, after: Files, id: string, row: Groups, q: QualifiedColumn)
    requires id in before && id in after
    requires after[id].groups == Merged(before[id].groups, row)
    requires q.group in GroupNames(ts)
    ensures Has(ReadGroups(ts, after, id), q) <==> Has(row, q) || Has(ReadGroups(ts, before, id), q)
    ensures Lookup(ReadGroups(ts, after, id), q)
            == if Has(row, q) then row[q.group][q.column] else Lookup(ReadGroups(ts, before, id), q)
  {
  }

  /** Reading after an insert gives exactly the row that was inserted, as far as the schema knows it. */
  lemma ReadAfterInsert(ts: TableSchema, before: Groups, after: Files, id: string, row: Groups, q: QualifiedColumn)
    requires id in after && after[id].groups == before + Inserted(GroupNames(ts), row)
    requires q.group in GroupNames(ts)
    ensures q.group in ReadGroups(ts, after, id)
    ensures Has(ReadGroups(ts, after, id), q) <==> Has(row, q)
    ensures Lookup(ReadGroups(ts, after, id), q) == Lookup(row, q)
  {
  }

  /** Reading after one group was replaced gives the new data in it and the old elsewhere. */
  lemma ReadAfterGroupUpdate(ts: TableSchema, before: Files, after: Files, id: string, group: string, data: GroupData, q: QualifiedColumn)
    requires id in after && after[id].groups == GroupsOf(before, id)[group := data]
    requires q.group in GroupNames(ts)
    ensures Has(ReadGroups(ts, after, id), q) <==> if q.group == group then q.column in data else Has(ReadGroups(ts, before, id), q)
    ensures Lookup(ReadGroups(ts, after, id), q)
            == if q.group == group then (if q.column in data then data[q.column] else Null) else Lookup(ReadGroups(ts, before, id), q)
  {
  }

  /** Reading some columns of a row is reading the row and keeping those columns. */
  lemma ReadColumnsRestrictsRead(ts: TableSchema, files: Files, id: string, columns: seq<QualifiedColumn>)
    requires forall q :: q in columns ==> q in Columns(ts)
    ensures Selected(GroupsOf(files, id), columns) == Selected(ReadGroups(ts, files, id), columns)
    ensures forall q :: Has(Selected(GroupsOf(files, id), columns), q)
                        <==> q in columns && Has(ReadGroups(ts, files, id), q)
    ensures forall q :: q in columns ==>
              Lookup(Selected(GroupsOf(files, id), columns), q) == Lookup(ReadGroups(ts, files, id), q)
  {
    forall q | q in columns ensures q.group in GroupNames(ts) {
      ColumnsAreTheDeclared(ts.columnGroups, q);
    }
    forall q | q in columns
      ensures Lookup(Selected(GroupsOf(files, id), columns), q) == Lookup(ReadGroups(ts, files, id), q)
    {
      assert q.group in GroupsIn(columns);
      assert QualifiedColumn(q.group, q.column) == q;
    }
  }
}
