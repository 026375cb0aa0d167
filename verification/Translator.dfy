/** From parsed `Group.Column` SQL to SQL over flat columns: pkg/query/translator.go. */
module Translator {
  import opened Wrappers
  import opened Schema
  import opened Text
  import opened Scanner
  import opened Parser
  import opened Loader
  import opened Manager

  datatype TranslateError =
    | NoTableName | TableNotFound(table: string)
    | GroupNotFound(group: string) | ColumnNotFound(column: string) | Ambiguous(column: string, groups: seq<string>)

  /** The columns of that name, in order. */
  function Named(cols: seq<QualifiedColumn>, name: string): seq<QualifiedColumn> {
    if cols == [] then []
    else
      var front, last := Named(cols[..|cols| - 1], name), cols[|cols| - 1];
      if last.column == name then front + [last] else front
  }

  function GroupsOfColumns(cols: seq<QualifiedColumn>): seq<string> {
    seq(|cols|, i requires 0 <= i < |cols| => cols[i].group)
  }

  function Resolved(ts: TableSchema, name: string): Result<QualifiedColumn, TranslateError> {
    var found := Named(Columns(ts), name);
    if |found| == 0 then Failure(ColumnNotFound(name))
    else if |found| > 1 then Failure(Ambiguous(name, GroupsOfColumns(found)))
    else Success(found[0])
  }

  function FirstGroup(groups: seq<ColumnGroup>, name: string): Option<ColumnGroup> {
    if groups == [] then None
    else if groups[0].name == name then Some(groups[0])
    else FirstGroup(groups[1..], name)
  }

  predicate IsFunctionCall(item: QualifiedColumn) {
    item.group == "" && Contains(item.column, "(")
  }

  predicate IsUnderscored(item: QualifiedColumn) {
    item.group == "" && "_" <= item.column
  }

  /** The select items a parsed item stands for. */
  function Emitted(ts: TableSchema, item: QualifiedColumn): Result<seq<string>, TranslateError> {
    if IsFunctionCall(item) then Success([TranslateRefs(item.column)])
    else if IsUnderscored(item) then Success([item.column])
    else if item.group == "" then
      var q := Resolved(ts, item.column);
      if q.Failure? then Failure(q.error) else Success([q.value.FlatName()])
    else if item.column == "*" then
      var group := FirstGroup(ts.columnGroups, item.group);
      if group.None? then Failure(GroupNotFound(item.group))
      else Success(FlatNamesOf(ColumnsOf(item.group, group.value.columns)))
    else Success([item.FlatName()])
  }

  function AllEmitted(ts: TableSchema, items: seq<QualifiedColumn>): Result<seq<string>, TranslateError> {
    if items == [] then Success([])
    else
      var front := AllEmitted(ts, items[..|items| - 1]);
      if front.Failure? then front
      else
        var last := Emitted(ts, items[|items| - 1]);
        if last.Failure? then last else Success(front.value + last.value)
  }

  function SelectColumns(ts: TableSchema, parsed: ParsedQuery): Result<seq<string>, TranslateError> {
    if parsed.allColumns then Success([ROW_ID] + FlatNames(ts)) else AllEmitted(ts, parsed.columns)
  }

  function Assembled(cols: seq<string>, parsed: ParsedQuery): string {
    "SELECT " + Join(cols, ", ") + " FROM " + parsed.tableName
    + (if parsed.whereClause == "" then "" else " WHERE " + TranslateRefs(parsed.whereClause))
    + TranslateRefs(Trailing(parsed.rawSQL))
  }

  function Translated(catalog: Catalog, parsed: ParsedQuery): Result<string, TranslateError> {
    if parsed.tableName !in catalog then Failure(TableNotFound(parsed.tableName))
    else
      var cols := SelectColumns(catalog[parsed.tableName], parsed);
      if cols.Failure? then Failure(cols.error) else Success(Assembled(cols.value, parsed))
  }

  /** The item names a column or a whole group of the table, or will be resolved later. */
  predicate ItemValid(ts: TableSchema, item: QualifiedColumn) {
    item.group == "" ||
    var group := FirstGroup(ts.columnGroups, item.group);
    group.Some? && (item.column == "*" || exists c :: c in group.value.columns && c.name == item.column)
  }

  predicate QueryValid(catalog: Catalog, parsed: ParsedQuery) {
    && parsed.tableName != "" && parsed.tableName in catalog
    && forall i :: 0 <= i < |parsed.columns| ==> ItemValid(catalog[parsed.tableName], parsed.columns[i])
  }

  /** The groups the select list names and those referred to in the WHERE clause. */
  function Required(parsed: ParsedQuery): set<string> {
    NamedGroups(parsed.columns) + if parsed.whereClause != "" then Elements(RefGroups(parsed.whereClause)) else {}
  }

  function NamedGroups(columns: seq<QualifiedColumn>): set<string> {
    set i | 0 <= i < |columns| && columns[i].group != "" :: columns[i].group
  }

  function Elements(s: seq<string>): set<string> {
    set i | 0 <= i < |s| :: s[i]
  }

  lemma NamedGroupsStep(columns: seq<QualifiedColumn>, i: nat)
    requires i < |columns|
    ensures NamedGroups(columns[..i + 1]) == NamedGroups(columns[..i]) + if columns[i].group != "" then {columns[i].group} else {}
  {
    assert columns[..i + 1] == columns[..i] + [columns[i]];
  }

  /** A group is required exactly when an item names it or a reference in the WHERE does. */
  lemma RequiredIff(parsed: ParsedQuery, g: string)
    ensures g in Required(parsed)
            <==> (g != "" && exists q :: q in parsed.columns && q.group == g) || g in RefGroups(parsed.whereClause)
  {
    assert RefGroups("") == [];
    if q :| q in parsed.columns && q.group == g && g != "" {
      var i :| 0 <= i < |parsed.columns| && parsed.columns[i] == q;
      assert parsed.columns[i].group in NamedGroups(parsed.columns);
    }
    if g in RefGroups(parsed.whereClause) {
      var i :| 0 <= i < |RefGroups(parsed.whereClause)| && RefGroups(parsed.whereClause)[i] == g;
      assert g in Elements(RefGroups(parsed.whereClause));
    }
  }

  lemma {:induction false} NamedConcat(a: seq<QualifiedColumn>, b: seq<QualifiedColumn>, name: string)
    ensures Named(a + b, name) == Named(a, name) + Named(b, name)
  {
    if b == [] {
      assert a + b == a;
    } else {
      NamedConcat(a, b[..|b| - 1], name);
      assert (a + b)[..|a + b| - 1] == a + b[..|b| - 1];
    }
  }

  lemma NamedStep(groups: seq<ColumnGroup>, i: nat, name: string)
    requires i < |groups|
    ensures Named(ColumnsOfGroups(groups[..i + 1]), name)
            == Named(ColumnsOfGroups(groups[..i]), name) + Named(ColumnsOf(groups[i].name, groups[i].columns), name)
  {
    assert groups[..i + 1][..i] == groups[..i];
    NamedConcat(ColumnsOfGroups(groups[..i]), ColumnsOf(groups[i].name, groups[i].columns), name);
  }

  lemma {:induction false} FirstGroupIs(groups: seq<ColumnGroup>, name: string, i: nat)
    requires i < |groups| && groups[i].name == name && forall k :: 0 <= k < i ==> groups[k].name != name
    ensures FirstGroup(groups, name) == Some(groups[i])
  {
    if i > 0 {
      FirstGroupIs(groups[1..], name, i - 1);
    }
  }

  lemma {:induction false} NoFirstGroup(groups: seq<ColumnGroup>, name: string)
    requires forall k :: 0 <= k < |groups| ==> groups[k].name != name
    ensures FirstGroup(groups, name) == None
  {
    if groups != [] {
      NoFirstGroup(groups[1..], name);
    }
  }

  class Translator {
    const manager: Manager

    constructor (manager: Manager)
      ensures this.manager == manager
    {
      this.manager := manager;
    }

    /** The schemas this call can see: none, if its read of the schema file fails. */
    ghost function Visible(fault: bool): Catalog
      reads manager, manager.storage
    {
      if fault then map[] else manager.storage.files
    }

    method GetColumnGroup(schema: TableSchema, name: string) returns (group: Option<ColumnGroup>)
      ensures group == FirstGroup(schema.columnGroups, name)
    {
      group := schema.GetColumnGroup(name);
      if group.Some? {
        ghost var i :| 0 <= i < |schema.columnGroups| && schema.columnGroups[i] == group.value && group.value.name == name &&
                       forall k :: 0 <= k < i ==> schema.columnGroups[k].name != name;
        FirstGroupIs(schema.columnGroups, name, i);
      } else {
        NoFirstGroup(schema.columnGroups, name);
      }
    }

    method GetTable(tableName: string) returns (schema: Option<TableSchema>, ghost fault: bool)
      requires Coherent(manager.Current())
      modifies manager, manager.storage`trouble
      ensures old(manager.storage.trouble) || fault ==> manager.storage.trouble
      ensures Coherent(manager.Current())
      ensures schema == if tableName in Visible(fault) then Some(Visible(fault)[tableName]) else None
    {
      ghost var cached := tableName in manager.schemas;
      schema, fault := manager.GetTable(tableName);
      fault := fault && !cached;
    }

    method ResolveUnqualifiedColumn(schema: TableSchema, colName: string) returns (r: Result<QualifiedColumn, TranslateError>)
      ensures r == Resolved(schema, colName)
    {
      var found := [];
      var groups := schema.columnGroups;
      for i := 0 to |groups|
        invariant found == Named(ColumnsOfGroups(groups[..i]), colName)
      {
        var group := groups[i];
        ghost var before := found;
        for j := 0 to |group.columns|
          invariant found == before + Named(ColumnsOf(group.name, group.columns[..j]), colName)
        {
          assert group.columns[..j + 1][..j] == group.columns[..j];
          if group.columns[j].name == colName {
            found := found + [QualifiedColumn(group.name, group.columns[j].name)];
          }
        }
        assert group.columns[..|group.columns|] == group.columns;
        NamedStep(groups, i, colName);
      }
      assert groups[..|groups|] == groups;
      if |found| == 0 {
        return Failure(ColumnNotFound(colName));
      }
      if |found| > 1 {
        return Failure(Ambiguous(colName, GroupsOfColumns(found)));
      }
      return Success(found[0]);
    }

    method TranslateSelect(parsed: ParsedQuery) returns (r: Result<string, TranslateError>, ghost fault: bool)
      requires Coherent(manager.Current())
      modifies manager, manager.storage`trouble
      ensures old(manager.storage.trouble) || fault ==> manager.storage.trouble
      ensures Coherent(manager.Current())
      ensures r == Translated(Visible(fault), parsed)
      ensures parsed.tableName !in Visible(fault) ==> r == Failure(TableNotFound(parsed.tableName))
    {
      var schema;
      schema, fault := GetTable(parsed.tableName);
      if schema.None? {
        return Failure(TableNotFound(parsed.tableName)), fault;
      }
      var selectCols := TranslateList(schema.value, parsed);
      if selectCols.Failure? {
        return Failure(selectCols.error), fault;
      }
      var sql := "SELECT " + Join(selectCols.value, ", ") + " FROM " + parsed.tableName;
      assert sql + "" == sql;
      if parsed.whereClause != "" {
        sql := sql + (" WHERE " + TranslateRefs(parsed.whereClause));
      }
      var trailingClauses := ExtractTrailingClauses(parsed.rawSQL);
      assert sql + "" == sql && TranslateRefs("") == "";
      if trailingClauses != "" {
        sql := sql + TranslateRefs(trailingClauses);
      }
      return Success(sql), fault;
    }

    method TranslateList(schema: TableSchema, parsed: ParsedQuery) returns (r: Result<seq<string>, TranslateError>)
      ensures r == SelectColumns(schema, parsed)
    {
      var selectCols: seq<string> := [];
      if parsed.allColumns {
        selectCols := [ROW_ID];
        var cols := schema.AllColumns();
        for i := 0 to |cols|
          invariant selectCols == [ROW_ID] + FlatNamesOf(cols[..i])
        {
          selectCols := selectCols + [cols[i].FlatName()];
        }
        assert cols[..|cols|] == cols;
      } else {
        for i := 0 to |parsed.columns|
          invariant AllEmitted(schema, parsed.columns[..i]) == Success(selectCols)
        {
          assert parsed.columns[..i + 1][..i] == parsed.columns[..i];
          var emitted := TranslateItem(schema, parsed.columns[i]);
          if emitted.Failure? {
            EmittedFails(schema, parsed.columns, i + 1);
            return Failure(emitted.error);
          }
          selectCols := selectCols + emitted.value;
        }
        assert parsed.columns[..|parsed.columns|] == parsed.columns;
      }
      return Success(selectCols);
    }

    /** The body of the loop over the select list. */
    method TranslateItem(schema: TableSchema, col: QualifiedColumn) returns (r: Result<seq<string>, TranslateError>)
      ensures r == Emitted(schema, col)
    {
      if col.group == "" {
        if Contains(col.column, "(") {
          return Success([TranslateRefs(col.column)]);
        }
        if "_" <= col.column {
          return Success([col.column]);
        }
        var resolved := ResolveUnqualifiedColumn(schema, col.column);
        if resolved.Failure? {
          return Failure(resolved.error);
        }
        return Success([resolved.value.FlatName()]);
      } else if col.column == "*" {
        var group := GetColumnGroup(schema, col.group);
        if group.None? {
          return Failure(GroupNotFound(col.group));
        }
        var names := [];
        var columns := group.value.columns;
        for j := 0 to |columns|
          invariant names == FlatNamesOf(ColumnsOf(col.group, columns[..j]))
        {
          assert columns[..j + 1][..j] == columns[..j];
          names := names + [QualifiedColumn(col.group, columns[j].name).FlatName()];
        }
        assert columns[..|columns|] == columns;
        return Success(names);
      } else {
        return Success([col.FlatName()]);
      }
    }

    method GetRequiredColumnGroups(parsed: ParsedQuery) returns (result: seq<string>)
      ensures NoRepeats(result) && forall g :: g in result <==> g in Required(parsed)
    {
      var groups: set<string> := {};
      for i := 0 to |parsed.columns|
        invariant groups == NamedGroups(parsed.columns[..i])
      {
        NamedGroupsStep(parsed.columns, i);
        if parsed.columns[i].group != "" {
          groups := groups + {parsed.columns[i].group};
        }
      }
      assert parsed.columns[..|parsed.columns|] == parsed.columns;
      if parsed.whereClause != "" {
        var matches := RefGroups(parsed.whereClause);
        ghost var before := groups;
        for i := 0 to |matches|
          invariant groups == before + Elements(matches[..i])
        {
          groups := groups + {matches[i]};
        }
        assert matches[..|matches|] == matches;
      }
      result := Keys(groups);
    }

    /** The keys of a map, in an unspecified order. */
    method Keys(groups: set<string>) returns (result: seq<string>)
      ensures NoRepeats(result) && forall g :: g in result <==> g in groups
    {
      result := [];
      var left := groups;
      while left != {}
        invariant NoRepeats(result) && left <= groups
        invariant forall g :: g in result <==> g in groups - left
        decreases |left|
      {
        var group :| group in left;
        assert group !in result;
        result := result + [group];
        left := left - {group};
      }
    }

    method ValidateQuery(parsed: ParsedQuery) returns (error: Option<TranslateError>, ghost fault: bool)
      requires Coherent(manager.Current())
      modifies manager, manager.storage`trouble
      ensures old(manager.storage.trouble) || fault ==> manager.storage.trouble
      ensures Coherent(manager.Current())
      ensures error.None? <==> QueryValid(Visible(fault), parsed)
      ensures parsed.tableName == "" ==> error == Some(NoTableName)
      ensures parsed.tableName != "" && parsed.tableName !in Visible(fault) ==> error == Some(TableNotFound(parsed.tableName))
    {
      if parsed.tableName == "" {
        return Some(NoTableName), false;
      }
      var schema;
      schema, fault := GetTable(parsed.tableName);
      if schema.None? {
        return Some(TableNotFound(parsed.tableName)), fault;
      }
      for i := 0 to |parsed.columns|
        invariant old(manager.storage.trouble) || fault ==> manager.storage.trouble
        invariant forall k :: 0 <= k < i ==> ItemValid(schema.value, parsed.columns[k])
        invariant Coherent(manager.Current())
      {
        var col := parsed.columns[i];
        if col.group == "" {
          continue;
        }
        var group := GetColumnGroup(schema.value, col.group);
        if group.None? {
          assert !ItemValid(schema.value, parsed.columns[i]);
          return Some(GroupNotFound(col.group)), fault;
        }
        if col.column == "*" {
          continue;
        }
        var columns := group.value.columns;
        var found := false;
        for j := 0 to |columns|
          invariant !found && forall k :: 0 <= k < j ==> columns[k].name != col.column
        {
          if columns[j].name == col.column {
            found := true;
            break;
          }
        }
        if !found {
          assert !ItemValid(schema.value, parsed.columns[i]);
          return Some(ColumnNotFound(col.column)), fault;
        }
      }
      return None, fault;
    }
  }

  /** An error in one item is an error in the list. */
  lemma {:induction false} EmittedFails(ts: TableSchema, items: seq<QualifiedColumn>, i: nat)
    requires i <= |items| && AllEmitted(ts, items[..i]).Failure?
    ensures AllEmitted(ts, items) == AllEmitted(ts, items[..i])
    decreases |items|
  {
    if i < |items| {
      var front := items[..|items| - 1];
      assert front[..i] == items[..i];
      EmittedFails(ts, front, i);
    } else {
      assert items[..i] == items;
    }
  }
}
