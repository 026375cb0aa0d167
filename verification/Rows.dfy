/** Rows grouped by data source and their flattened form: the Row half of pkg/colgroup/assembler.go. */
module Rows {
  import opened Wrappers
  import opened Schema

  type GroupData = map<string, Value>
  type Groups = map<string, GroupData>
  type FlatRow = map<string, Value>

  predicate Has(groups: Groups, q: QualifiedColumn) {
    q.group in groups && q.column in groups[q.group]
  }

  /** The value of a column; a missing one is NULL. */
  function Lookup(groups: Groups, q: QualifiedColumn): Value {
    if Has(groups, q) then groups[q.group][q.column] else Null
  }

  ghost predicate ComesFrom(groups: Groups, q: QualifiedColumn, key: string, v: Value) {
    Has(groups, q) && q.FlatName() == key && groups[q.group][q.column] == v
  }

  /** `flat` has exactly the flat names of the stored columns, each with the value of one of the
    * columns of that name. */
  ghost predicate IsFlattening(flat: FlatRow, groups: Groups) {
    && (forall key :: key in flat ==> exists q :: ComesFrom(groups, q, key, flat[key]))
    && (forall q :: Has(groups, q) ==> q.FlatName() in flat)
  }

  ghost predicate NamesDiffer(groups: Groups) {
    forall q, r :: Has(groups, q) && Has(groups, r) && q.FlatName() == r.FlatName() ==> q == r
  }

  function FirstIndex(s: string, c: char): (i: int)
    ensures -1 <= i < |s|
    ensures i == -1 <==> HasNo(s, c)
    ensures i >= 0 ==> s[i] == c && HasNo(s[..i], c)
  {
    if s == [] then -1
    else if s[0] == c then 0
    else
      var i := FirstIndex(s[1..], c);
      assert i >= 0 ==> s[..i + 1] == [s[0]] + s[1..][..i];
      if i < 0 then -1 else i + 1
  }

  /** Group and column of a key: cut at the first dot or, without one, at the first underscore. */
  function SplitKey(key: string): Option<QualifiedColumn> {
    var dot := FirstIndex(key, '.');
    var at := if dot >= 0 then dot else FirstIndex(key, '_');
    if at >= 0 then Some(QualifiedColumn(key[..at], key[at + 1..])) else None
  }

  ghost predicate ParsedFrom(data: FlatRow, key: string, q: QualifiedColumn, v: Value) {
    key in data && SplitKey(key) == Some(q) && data[key] == v
  }

  /** `groups` holds a value for every key that can be split, and nothing else. */
  ghost predicate IsParsed(groups: Groups, data: FlatRow) {
    && (forall q :: Has(groups, q) ==> exists key :: ParsedFrom(data, key, q, groups[q.group][q.column]))
    && (forall key :: key in data && SplitKey(key).Some? ==> Has(groups, SplitKey(key).value))
    && (forall g :: g in groups ==> groups[g] != map[])
  }

  function WithValue(groups: Groups, groupName: string, columnName: string, value: Value): Groups {
    groups[groupName := (if groupName in groups then groups[groupName] else map[])[columnName := value]]
  }

  class Row {
    const ID: string
    var Groups: Groups

    constructor (id: string)
      ensures ID == id && Groups == map[]
    {
      ID := id;
      Groups := map[];
    }

    method SetValue(groupName: string, columnName: string, value: Value)
      modifies this
      ensures Groups == WithValue(old(Groups), groupName, columnName, value)
    {
      if groupName !in Groups {
        Groups := Groups[groupName := map[]];
      }
      Groups := Groups[groupName := Groups[groupName][columnName := value]];
    }

    method GetValue(groupName: string, columnName: string) returns (value: Value, found: bool)
      ensures found <==> Has(Groups, QualifiedColumn(groupName, columnName))
      ensures value == Lookup(Groups, QualifiedColumn(groupName, columnName))
    {
      if groupName in Groups {
        var group := Groups[groupName];
        if columnName in group {
          return group[columnName], true;
        }
      }
      return Null, false;
    }

    /** Both maps are visited in an unspecified order, as Go does. */
    method ToFlatMap() returns (result: FlatRow)
      ensures IsFlattening(result, Groups)
    {
      result := map[];
      var names := Groups.Keys;
      while names != {}
        invariant names <= Groups.Keys
        invariant forall key :: key in result ==> exists q :: ComesFrom(Groups, q, key, result[key])
        invariant forall q :: Has(Groups, q) && q.group !in names ==> q.FlatName() in result
        decreases |names|
      {
        var groupName :| groupName in names;
        var group := Groups[groupName];
        var cols := group.Keys;
        while cols != {}
          invariant cols <= group.Keys
          invariant forall key :: key in result ==> exists q :: ComesFrom(Groups, q, key, result[key])
          invariant forall q :: Has(Groups, q) && (q.group !in names || (q.group == groupName && q.column !in cols)) ==>
                      q.FlatName() in result
          decreases |cols|
        {
          var colName :| colName in cols;
          var q := QualifiedColumn(groupName, colName);
          assert ComesFrom(Groups, q, q.FlatName(), group[colName]);
          result := result[groupName + "_" + colName := group[colName]];
          cols := cols - {colName};
        }
        names := names - {groupName};
      }
    }
  }

  method ParseRowFromMap(id: string, data: FlatRow) returns (row: Row)
    ensures fresh(row) && row.ID == id && IsParsed(row.Groups, data)
  {
    row := new Row(id);
    var keys := data.Keys;
    while keys != {}
      invariant fresh(row) && row.ID == id
      invariant keys <= data.Keys
      invariant forall q :: Has(row.Groups, q) ==> exists key :: ParsedFrom(data, key, q, row.Groups[q.group][q.column])
      invariant forall key :: key in data && key !in keys && SplitKey(key).Some? ==> Has(row.Groups, SplitKey(key).value)
      invariant forall g :: g in row.Groups ==> row.Groups[g] != map[]
      decreases |keys|
    {
      var key :| key in keys;
      var parts := SplitKey(key);
      if parts.Some? {
        row.SetValue(parts.value.group, parts.value.column, data[key]);
        assert ParsedFrom(data, key, parts.value, data[key]);
      }
      keys := keys - {key};
    }
  }

  // ---------------------------------------------------------------------------------------

  /** The order in which maps are visited does not show, as long as flat names differ. */
  lemma FlatteningUnique(flat: FlatRow, flat': FlatRow, groups: Groups)
    requires NamesDiffer(groups)
    requires IsFlattening(flat, groups) && IsFlattening(flat', groups)
    ensures flat == flat'
  {
    assert flat.Keys <= flat'.Keys && flat'.Keys <= flat.Keys;
    forall key | key in flat ensures flat[key] == flat'[key] {
      var q :| ComesFrom(groups, q, key, flat[key]);
      var r :| ComesFrom(groups, r, key, flat'[key]);
      assert q == r;
    }
  }

  ghost predicate Separable(groups: Groups) {
    forall q :: Has(groups, q) ==> HasNo(q.group, '_') && HasNo(q.group, '.') && HasNo(q.column, '.')
  }

  lemma SplitFlatName(q: QualifiedColumn)
    requires HasNo(q.group, '_') && HasNo(q.group, '.') && HasNo(q.column, '.')
    ensures SplitKey(q.FlatName()) == Some(q)
  {
    var key := q.FlatName();
    assert HasNo(key, '.');
    var at := FirstIndex(key, '_');
    assert key[|q.group|] == '_';
    assert key == key[..at] + ['_'] + key[at + 1..];
    assert key == q.group + ['_'] + q.column;
    SplitUnique(q.group, q.column, key[..at], key[at + 1..], '_');
  }

  /** The key is group, separator and column, cut where the separator first occurs. */
  predicate CutAt(key: string, sep: char, q: QualifiedColumn) {
    key == q.group + [sep] + q.column && HasNo(q.group, sep)
  }

  lemma CutHere(key: string, q: QualifiedColumn, sep: char, at: nat)
    requires at < |key| && key[at] == sep && HasNo(key[..at], sep)
    ensures CutAt(key, sep, q) <==> q == QualifiedColumn(key[..at], key[at + 1..])
  {
    assert key == key[..at] + [sep] + key[at + 1..];
    if CutAt(key, sep, q) {
      SplitUnique(q.group, q.column, key[..at], key[at + 1..], sep);
    }
  }

  lemma NoCut(key: string, q: QualifiedColumn, sep: char)
    requires HasNo(key, sep)
    ensures !CutAt(key, sep, q)
  {
    assert (q.group + [sep] + q.column)[|q.group|] == sep;
  }

  lemma SplitKeyCuts(key: string, dot: int, at: int)
    requires dot == FirstIndex(key, '.') && at == if dot >= 0 then dot else FirstIndex(key, '_')
    ensures SplitKey(key) == if at >= 0 then Some(QualifiedColumn(key[..at], key[at + 1..])) else None
  {
  }

  /** A key is cut at its first dot or, if it holds none, at its first underscore; with neither it is
    * no column. */
  lemma SplitKeyIff(key: string, q: QualifiedColumn)
    ensures !HasNo(key, '.') ==> (SplitKey(key) == Some(q) <==> CutAt(key, '.', q))
    ensures HasNo(key, '.') ==> (SplitKey(key) == Some(q) <==> CutAt(key, '_', q))
    ensures SplitKey(key).None? <==> HasNo(key, '.') && HasNo(key, '_')
  {
    var dot, bar := FirstIndex(key, '.'), FirstIndex(key, '_');
    SplitKeyCuts(key, dot, if dot >= 0 then dot else bar);
    if dot >= 0 {
      CutHere(key, q, '.', dot);
    } else if bar >= 0 {
      CutHere(key, q, '_', bar);
    } else {
      NoCut(key, q, '_');
    }
  }

  function NonEmpty(groups: Groups): Groups {
    map g | g in groups && groups[g] != map[] :: groups[g]
  }

  lemma RoundTripKeeps(groups: Groups, flat: FlatRow, parsed: Groups, q: QualifiedColumn)
    requires Separable(groups) && IsFlattening(flat, groups) && IsParsed(parsed, flat)
    requires Has(groups, q)
    ensures Has(parsed, q)
  {
    SplitFlatName(q);
    assert q.FlatName() in flat;
  }

  lemma RoundTripInvents(groups: Groups, flat: FlatRow, parsed: Groups, q: QualifiedColumn)
    requires Separable(groups) && IsFlattening(flat, groups) && IsParsed(parsed, flat)
    requires Has(parsed, q)
    ensures Has(groups, q) && parsed[q.group][q.column] == groups[q.group][q.column]
  {
    var key :| ParsedFrom(flat, key, q, parsed[q.group][q.column]);
    var r :| ComesFrom(groups, r, key, flat[key]);
    SplitFlatName(r);
  }

  /** Flattening a row and parsing the result gives the row back, empty groups aside, whatever
    * the order in which either visits its map. */
  lemma FlattenRoundTrip(groups: Groups, flat: FlatRow, parsed: Groups)
    requires Separable(groups)
    requires IsFlattening(flat, groups) && IsParsed(parsed, flat)
    ensures parsed == NonEmpty(groups)
  {
    forall q ensures Has(parsed, q) <==> Has(NonEmpty(groups), q) {
      if Has(groups, q) {
        RoundTripKeeps(groups, flat, parsed, q);
      }
      if Has(parsed, q) {
        RoundTripInvents(groups, flat, parsed, q);
      }
    }
    forall q | Has(parsed, q) ensures parsed[q.group][q.column] == NonEmpty(groups)[q.group][q.column] {
      RoundTripInvents(groups, flat, parsed, q);
    }
    SameByColumns(parsed, NonEmpty(groups));
  }

  lemma SameByColumns(a: Groups, b: Groups)
    requires forall g :: g in a ==> a[g] != map[]
    requires forall g :: g in b ==> b[g] != map[]
    requires forall q :: Has(a, q) <==> Has(b, q)
    requires forall q :: Has(a, q) && Has(b, q) ==> a[q.group][q.column] == b[q.group][q.column]
    ensures a == b
  {
    forall g ensures g in a <==> g in b {
      if g in a {
        var c :| c in a[g];
        assert Has(a, QualifiedColumn(g, c));
      }
      if g in b {
        var c :| c in b[g];
        assert Has(b, QualifiedColumn(g, c));
      }
    }
    forall g | g in a ensures a[g] == b[g] {
      forall c ensures c in a[g] <==> c in b[g] {
        assert Has(a, QualifiedColumn(g, c)) <==> Has(b, QualifiedColumn(g, c));
      }
      forall c | c in a[g] ensures a[g][c] == b[g][c] {
        assert Has(a, QualifiedColumn(g, c));
      }
    }
  }
}
