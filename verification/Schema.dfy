/** Tables, column groups and qualified columns: pkg/colgroup/schema.go. */
module Schema {
  import opened Wrappers
  import opened Text

  /** JSON scalars; a JSON null and a missing value both mean SQL NULL. */
  datatype Value = Null | Bool(b: bool) | Num(n: int) | Text(s: string)

  datatype Column = Column(name: string, ctype: string)

  datatype ColumnGroup = ColumnGroup(name: string, columns: seq<Column>)

  datatype QualifiedColumn = QualifiedColumn(group: string, column: string) {
    function FlatName(): string {
      group + "_" + column
    }
  }

  const ROW_ID := "_row_id"

  datatype SchemaError =
    | TableNameRequired | NoColumnGroups | InvalidPrimaryKey | PrimaryKeyNotFound
    | GroupNameRequired | DuplicateGroup(name: string) | ColumnNameRequired | DuplicateColumn(name: string)

  function ColumnsOf(group: string, columns: seq<Column>): seq<QualifiedColumn> {
    if columns == [] then []
    else ColumnsOf(group, columns[..|columns| - 1]) + [QualifiedColumn(group, columns[|columns| - 1].name)]
  }

  function ColumnsOfGroups(groups: seq<ColumnGroup>): seq<QualifiedColumn> {
    if groups == [] then []
    else
      var last := groups[|groups| - 1];
      ColumnsOfGroups(groups[..|groups| - 1]) + ColumnsOf(last.name, last.columns)
  }

  function Columns(ts: TableSchema): seq<QualifiedColumn> {
    ColumnsOfGroups(ts.columnGroups)
  }

  function NamesOf(groups: seq<ColumnGroup>): set<string> {
    set i | 0 <= i < |groups| :: groups[i].name
  }

  function GroupNames(ts: TableSchema): set<string> {
    NamesOf(ts.columnGroups)
  }

  ghost predicate DistinctNames(columns: seq<Column>) {
    forall i, j :: 0 <= i < j < |columns| ==> columns[i].name != columns[j].name
  }

  ghost predicate GroupOk(group: ColumnGroup) {
    group.name != "" && DistinctNames(group.columns) && forall i :: 0 <= i < |group.columns| ==> group.columns[i].name != ""
  }

  ghost predicate DistinctGroups(groups: seq<ColumnGroup>) {
    forall i, j :: 0 <= i < j < |groups| ==> groups[i].name != groups[j].name
  }

  ghost predicate InGroup(group: ColumnGroup, q: QualifiedColumn) {
    group.name == q.group && exists j :: 0 <= j < |group.columns| && group.columns[j].name == q.column
  }

  ghost predicate IsColumn(groups: seq<ColumnGroup>, q: QualifiedColumn) {
    exists i :: 0 <= i < |groups| && InGroup(groups[i], q)
  }

  function FirstDot(s: string): int {
    Index(s, ".")
  }

  /** ParseQualifiedColumn on text that has a dot: cut at the first one. */
  function QualifiedOf(s: string): QualifiedColumn
    requires FirstDot(s) >= 0
  {
    QualifiedColumn(TrimSpace(s[..FirstDot(s)]), TrimSpace(s[FirstDot(s) + 1..]))
  }

  datatype TableSchema = TableSchema(name: string, columnGroups: seq<ColumnGroup>, primaryKey: string, updatedAt: int) {

    method AllColumns() returns (cols: seq<QualifiedColumn>)
      ensures cols == Columns(this)
    {
      cols := [];
      for i := 0 to |columnGroups|
        invariant cols == ColumnsOfGroups(columnGroups[..i])
      {
        var group := columnGroups[i];
        var before := cols;
        for j := 0 to |group.columns|
          invariant cols == before + ColumnsOf(group.name, group.columns[..j])
        {
          assert group.columns[..j + 1][..j] == group.columns[..j];
          cols := cols + [QualifiedColumn(group.name, group.columns[j].name)];
        }
        assert group.columns[..|group.columns|] == group.columns;
        assert columnGroups[..i + 1][..i] == columnGroups[..i];
      }
      assert columnGroups[..|columnGroups|] == columnGroups;
    }

    /** The first group of that name. */
    method GetColumnGroup(groupName: string) returns (group: Option<ColumnGroup>)
      ensures group.None? <==> groupName !in GroupNames(this)
      ensures group.Some? ==>
                exists i :: 0 <= i < |columnGroups| && columnGroups[i] == group.value && group.value.name == groupName &&
                            forall k :: 0 <= k < i ==> columnGroups[k].name != groupName
    {
      for i := 0 to |columnGroups|
        invariant forall k :: 0 <= k < i ==> columnGroups[k].name != groupName
      {
        if columnGroups[i].name == groupName {
          return Some(columnGroups[i]);
        }
      }
      return None;
    }

    method GetColumn(groupName: string, columnName: string) returns (column: Option<Column>)
      ensures column.Some? ==> column.value.name == columnName && IsColumn(columnGroups, QualifiedColumn(groupName, columnName))
      ensures column.None? && DistinctGroups(columnGroups) ==> !IsColumn(columnGroups, QualifiedColumn(groupName, columnName))
    {
      var group := GetColumnGroup(groupName);
      if group.None? {
        return None;
      }
      for j := 0 to |group.value.columns|
        invariant forall k :: 0 <= k < j ==> group.value.columns[k].name != columnName
      {
        if group.value.columns[j].name == columnName {
          return Some(group.value.columns[j]);
        }
      }
      return None;
    }

    /** The schema is accepted exactly when all its names are present and unique, and the primary
      * key, when there is one, names one of its columns. */
    method Validate() returns (error: Option<SchemaError>)
      ensures error.None? <==> WellFormed(this)
    {
      if name == "" {
        return Some(TableNameRequired);
      }
      if |columnGroups| == 0 {
        return Some(NoColumnGroups);
      }
      if primaryKey != "" {
        if FirstDot(primaryKey) < 0 {
          return Some(InvalidPrimaryKey);
        }
        var key := QualifiedOf(primaryKey);
        var column := GetColumn(key.group, key.column);
        if column.None? {
          return Some(PrimaryKeyNotFound);
        }
      }
      var groupNames: set<string> := {};
      for i := 0 to |columnGroups|
        invariant groupNames == NamesOf(columnGroups[..i])
        invariant DistinctGroups(columnGroups[..i])
        invariant forall k :: 0 <= k < i ==> GroupOk(columnGroups[k])
      {
        var group := columnGroups[i];
        if group.name == "" {
          return Some(GroupNameRequired);
        }
        if group.name in groupNames {
          return Some(DuplicateGroup(group.name));
        }
        groupNames := groupNames + {group.name};
        var colNames: set<string> := {};
        for j := 0 to |group.columns|
          invariant colNames == set k | 0 <= k < j :: group.columns[k].name
          invariant DistinctNames(group.columns[..j])
          invariant forall k :: 0 <= k < j ==> group.columns[k].name != ""
        {
          if group.columns[j].name == "" {
            return Some(ColumnNameRequired);
          }
          if group.columns[j].name in colNames {
            return Some(DuplicateColumn(group.columns[j].name));
          }
          colNames := colNames + {group.columns[j].name};
        }
        assert group.columns[..|group.columns|] == group.columns;
      }
      assert columnGroups[..|columnGroups|] == columnGroups;
      return None;
    }
  }

  ghost predicate WellFormed(ts: TableSchema) {
    && ts.name != "" && ts.columnGroups != []
    && DistinctGroups(ts.columnGroups)
    && (forall i :: 0 <= i < |ts.columnGroups| ==> GroupOk(ts.columnGroups[i]))
    && (ts.primaryKey != "" ==> FirstDot(ts.primaryKey) >= 0 && IsColumn(ts.columnGroups, QualifiedOf(ts.primaryKey)))
  }

  /** The flat names DuckDB sees are pairwise different, and none is the row id. */
  ghost predicate FlatDistinct(ts: TableSchema) {
    && (forall q :: q in Columns(ts) ==> q.FlatName() != ROW_ID)
    && (forall q, r :: q in Columns(ts) && r in Columns(ts) && q.FlatName() == r.FlatName() ==> q == r)
  }

  // ---------------------------------------------------------------------------------------

  lemma {:induction false} ColumnsOfMembers(group: string, columns: seq<Column>, q: QualifiedColumn)
    ensures q in ColumnsOf(group, columns) <==> InGroup(ColumnGroup(group, columns), q)
  {
    if columns != [] {
      var front, last := columns[..|columns| - 1], columns[|columns| - 1];
      ColumnsOfMembers(group, front, q);
      if InGroup(ColumnGroup(group, columns), q) && last.name != q.column {
        var j :| 0 <= j < |columns| && columns[j].name == q.column;
        assert front[j].name == q.column;
      }
      if InGroup(ColumnGroup(group, front), q) {
        var j :| 0 <= j < |front| && front[j].name == q.column;
        assert columns[j].name == q.column;
      }
    }
  }

  /** `AllColumns` lists exactly the columns the schema declares. */
  lemma {:induction false} ColumnsAreTheDeclared(groups: seq<ColumnGroup>, q: QualifiedColumn)
    ensures q in ColumnsOfGroups(groups) <==> IsColumn(groups, q)
  {
    if groups != [] {
      var front, last := groups[..|groups| - 1], groups[|groups| - 1];
      ColumnsAreTheDeclared(front, q);
      ColumnsOfMembers(last.name, last.columns, q);
      assert last == ColumnGroup(last.name, last.columns);
      if IsColumn(groups, q) && !InGroup(last, q) {
        var i :| 0 <= i < |groups| && InGroup(groups[i], q);
        assert front[i] == groups[i];
      }
      if IsColumn(front, q) {
        var i :| 0 <= i < |front| && InGroup(front[i], q);
        assert groups[i] == front[i];
      }
    }
  }

  ghost predicate NoRepeats<T(!new)>(s: seq<T>) {
    forall i, j :: 0 <= i < j < |s| ==> s[i] != s[j]
  }

  lemma {:induction false} ColumnsOfNoRepeats(group: string, columns: seq<Column>)
    requires DistinctNames(columns)
    ensures NoRepeats(ColumnsOf(group, columns))
  {
    if columns != [] {
      var front, last := columns[..|columns| - 1], columns[|columns| - 1];
      ColumnsOfNoRepeats(group, front);
      ColumnsOfMembers(group, front, QualifiedColumn(group, last.name));
    }
  }

  /** A validated schema lists every column once. */
  lemma {:induction false} ValidatedColumnsAreUnique(groups: seq<ColumnGroup>)
    requires DistinctGroups(groups) && forall i :: 0 <= i < |groups| ==> GroupOk(groups[i])
    ensures NoRepeats(ColumnsOfGroups(groups))
  {
    if groups != [] {
      var front, last := groups[..|groups| - 1], groups[|groups| - 1];
      ValidatedColumnsAreUnique(front);
      ColumnsOfNoRepeats(last.name, last.columns);
      forall q | q in ColumnsOfGroups(front) ensures q !in ColumnsOf(last.name, last.columns) {
        ColumnsAreTheDeclared(front, q);
        ColumnsOfMembers(last.name, last.columns, q);
      }
      NoRepeatsConcat(ColumnsOfGroups(front), ColumnsOf(last.name, last.columns));
    }
  }

  lemma NoRepeatsConcat<T(!new)>(a: seq<T>, b: seq<T>)
    requires NoRepeats(a) && NoRepeats(b)
    requires forall x :: x in a ==> x !in b
    ensures NoRepeats(a + b)
  {
    forall i, j | 0 <= i < j < |a + b| ensures (a + b)[i] != (a + b)[j] {
      if i < |a| <= j {
        assert (a + b)[i] in a && (a + b)[j] in b;
      }
    }
  }

  lemma {:induction false} ColumnsOfAt(group: string, columns: seq<Column>, k: nat)
    requires k < |columns|
    ensures |ColumnsOf(group, columns)| == |columns| && ColumnsOf(group, columns)[k] == QualifiedColumn(group, columns[k].name)
  {
    var front := columns[..|columns| - 1];
    ColumnsOfLength(group, front);
    if k < |front| {
      ColumnsOfAt(group, front, k);
    }
  }

  lemma {:induction false} ColumnsOfLength(group: string, columns: seq<Column>)
    ensures |ColumnsOf(group, columns)| == |columns|
  {
    if columns != [] {
      ColumnsOfLength(group, columns[..|columns| - 1]);
    }
  }

  /** Where the columns of group `i` are in the list of all columns. */
  lemma {:induction false} ColumnAt(groups: seq<ColumnGroup>, i: nat, k: nat)
    requires i < |groups| && k < |groups[i].columns|
    ensures var at := |ColumnsOfGroups(groups[..i])| + k;
            at < |ColumnsOfGroups(groups)| && ColumnsOfGroups(groups)[at] == QualifiedColumn(groups[i].name, groups[i].columns[k].name)
    decreases |groups|
  {
    var front, last := groups[..|groups| - 1], groups[|groups| - 1];
    if i < |front| {
      assert front[..i] == groups[..i];
      ColumnAt(front, i, k);
    } else {
      assert front == groups[..i];
      ColumnsOfAt(last.name, last.columns, k);
    }
  }

  lemma ListedOnceIsDistinct(groups: seq<ColumnGroup>, i: nat)
    requires NoRepeats(ColumnsOfGroups(groups)) && i < |groups|
    ensures DistinctNames(groups[i].columns)
  {
    var columns := groups[i].columns;
    forall j, k | 0 <= j < k < |columns| ensures columns[j].name != columns[k].name {
      ColumnAt(groups, i, j);
      ColumnAt(groups, i, k);
    }
  }

  lemma NamesPresentIff(groups: seq<ColumnGroup>)
    ensures (forall q :: q in ColumnsOfGroups(groups) ==> q.column != "")
            <==> forall i, k :: 0 <= i < |groups| && 0 <= k < |groups[i].columns| ==> groups[i].columns[k].name != ""
  {
    forall q | q in ColumnsOfGroups(groups) ensures exists i, k :: 0 <= i < |groups| && 0 <= k < |groups[i].columns| && groups[i].columns[k].name == q.column {
      ColumnsAreTheDeclared(groups, q);
      var i :| 0 <= i < |groups| && InGroup(groups[i], q);
    }
    forall i, k | 0 <= i < |groups| && 0 <= k < |groups[i].columns|
      ensures QualifiedColumn(groups[i].name, groups[i].columns[k].name) in ColumnsOfGroups(groups)
    {
      ColumnAt(groups, i, k);
    }
  }

  /** The key names a column of the schema, cut at its first dot and trimmed. */
  ghost predicate KeyNames(key: string, cols: seq<QualifiedColumn>) {
    exists at :: 0 <= at < |key| && key[at] == '.' && HasNo(key[..at], '.') &&
                 QualifiedColumn(TrimSpace(key[..at]), TrimSpace(key[at + 1..])) in cols
  }

  lemma DotAt(s: string, i: nat)
    requires i < |s|
    ensures OccursAt(s, ".", i) <==> s[i] == '.'
  {
    assert s[i..i + 1] == [s[i]];
  }

  lemma FirstDotIs(s: string, at: nat)
    requires at < |s| && s[at] == '.' && HasNo(s[..at], '.')
    ensures FirstDot(s) == at
  {
    DotAt(s, at);
    forall i | 0 <= i < at ensures !OccursAt(s, ".", i) {
      DotAt(s, i);
      assert s[i] == s[..at][i];
    }
  }

  lemma DotFound(s: string)
    requires FirstDot(s) >= 0
    ensures FirstDot(s) < |s| && s[FirstDot(s)] == '.' && HasNo(s[..FirstDot(s)], '.')
  {
    var at := FirstDot(s);
    DotAt(s, at);
    forall i | 0 <= i < at ensures s[..at][i] != '.' {
      DotAt(s, i);
    }
  }

  lemma KeyNamesIff(ts: TableSchema)
    ensures KeyNames(ts.primaryKey, Columns(ts)) <==> FirstDot(ts.primaryKey) >= 0 && IsColumn(ts.columnGroups, QualifiedOf(ts.primaryKey))
  {
    var key := ts.primaryKey;
    if FirstDot(key) >= 0 {
      DotFound(key);
      ColumnsAreTheDeclared(ts.columnGroups, QualifiedOf(key));
    }
    if KeyNames(key, Columns(ts)) {
      var at :| 0 <= at < |key| && key[at] == '.' && HasNo(key[..at], '.') &&
                QualifiedColumn(TrimSpace(key[..at]), TrimSpace(key[at + 1..])) in Columns(ts);
      FirstDotIs(key, at);
    }
  }

  lemma GroupsOkIff(groups: seq<ColumnGroup>)
    requires DistinctGroups(groups)
    ensures (forall i :: 0 <= i < |groups| ==> GroupOk(groups[i]))
            <==> && (forall i :: 0 <= i < |groups| ==> groups[i].name != "")
                 && NoRepeats(ColumnsOfGroups(groups)) && forall q :: q in ColumnsOfGroups(groups) ==> q.column != ""
  {
    NamesPresentIff(groups);
    if forall i :: 0 <= i < |groups| ==> GroupOk(groups[i]) {
      ValidatedColumnsAreUnique(groups);
    }
    if NoRepeats(ColumnsOfGroups(groups)) {
      forall i | 0 <= i < |groups| ensures DistinctNames(groups[i].columns) {
        ListedOnceIsDistinct(groups, i);
      }
    }
  }

  /** What validation accepts, in terms of the list of columns: a name, groups with different names,
    * each column listed once, no name empty, and a primary key, if any, that names a column. */
  lemma WellFormedIff(ts: TableSchema)
    ensures WellFormed(ts)
            <==> && ts.name != "" && ts.columnGroups != []
                 && (forall i, j :: 0 <= i < j < |ts.columnGroups| ==> ts.columnGroups[i].name != ts.columnGroups[j].name)
                 && (forall i :: 0 <= i < |ts.columnGroups| ==> ts.columnGroups[i].name != "")
                 && NoRepeats(Columns(ts)) && (forall q :: q in Columns(ts) ==> q.column != "")
                 && (ts.primaryKey != "" ==> KeyNames(ts.primaryKey, Columns(ts)))
  {
    KeyNamesIff(ts);
    if DistinctGroups(ts.columnGroups) {
      GroupsOkIff(ts.columnGroups);
    }
  }

  // ---------------------------------------------------------------------------------------
  // Splitting flat names again

  predicate HasNo(s: string, c: char) {
    forall i :: 0 <= i < |s| ==> s[i] != c
  }

  lemma FirstSeparator(g: string, c: string, sep: char)
    requires HasNo(g, sep)
    ensures var s := g + [sep] + c;
            s[|g|] == sep && (forall i :: 0 <= i < |g| ==> s[i] != sep) && g == s[..|g|] && c == s[|g| + 1..]
  {
  }

  lemma SplitUnique(g: string, c: string, g': string, c': string, sep: char)
    requires HasNo(g, sep) && HasNo(g', sep)
    requires g + [sep] + c == g' + [sep] + c'
    ensures g == g' && c == c'
  {
    FirstSeparator(g, c, sep);
    FirstSeparator(g', c', sep);
    assert |g| == |g'|;
  }

  /** Group names without an underscore make flat names unambiguous. */
  lemma FlatNameInjective(q: QualifiedColumn, r: QualifiedColumn)
    requires HasNo(q.group, '_') && HasNo(r.group, '_')
    requires q.FlatName() == r.FlatName()
    ensures q == r
  {
    SplitUnique(q.group, q.column, r.group, r.column, '_');
  }

  /** Without it they collide. */
  lemma FlatNamesCanCollide()
    ensures QualifiedColumn("A_B", "C").FlatName() == QualifiedColumn("A", "B_C").FlatName()
  {
    assert "A_B" + "_" + "C" == "A_B_C" == "A" + "_" + "B_C";
  }
}
