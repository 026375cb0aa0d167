/** The translated statement means what the statement the user wrote means. */
module Semantics {
  import opened Wrappers
  import opened Schema
  import opened Rows
  import opened Storage
  import opened Text
  import opened Scanner
  import opened Parser
  import opened Clauses
  import opened Keywords
  import opened Loader
  import opened Manager
  import opened Query
  import opened Printing
  import opened Translator

  datatype QueryError = NotParsed(e: ParseError) | NotValid | NotTranslated(t: TranslateError)

  /** Engine.Query up to the statement it hands to DuckDB. */
  ghost function FrontEnd(catalog: Catalog, sql: string): Result<string, QueryError> {
    var parsed := ParsedSQL(sql);
    if parsed.Failure? then Failure(NotParsed(parsed.error))
    else if !QueryValid(catalog, parsed.value) then Failure(NotValid)
    else
      var text := Translated(catalog, parsed.value);
      if text.Failure? then Failure(NotTranslated(text.error)) else Success(text.value)
  }

  method TranslateQuery(translator: Translator, sql: string) returns (r: Result<string, QueryError>, ghost fault: bool)
    requires Coherent(translator.manager.Current())
    modifies translator.manager, translator.manager.storage`trouble
    ensures old(translator.manager.storage.trouble) || fault ==> translator.manager.storage.trouble
    ensures Coherent(translator.manager.Current())
    ensures !fault || r.Success? ==> r == FrontEnd(translator.manager.storage.files, sql)
  {
    fault := false;
    var parsed := Parse(sql);
    if parsed.Failure? {
      return Failure(NotParsed(parsed.error)), fault;
    }
    var error;
    error, fault := translator.ValidateQuery(parsed.value);
    if error.Some? {
      return Failure(NotValid), fault;
    }
    var text;
    text, fault := translator.TranslateSelect(parsed.value);
    if text.Failure? {
      return Failure(NotTranslated(text.error)), fault;
    }
    return Success(text.value), fault;
  }

  // ---------------------------------------------------------------------------------------
  // What a select list stands for

  /** The columns of one group. */
  function InGroupOnly(cols: seq<QualifiedColumn>, group: string): seq<QualifiedColumn> {
    if cols == [] then []
    else
      var front, last := InGroupOnly(cols[..|cols| - 1], group), cols[|cols| - 1];
      if last.group == group then front + [last] else front
  }

  function Refs(cols: seq<QualifiedColumn>): seq<Ref> {
    seq(|cols|, i requires 0 <= i < |cols| => Of(cols[i]))
  }

  function ItemRefs(ts: TableSchema, item: Item): seq<Ref> {
    match item
    case Qualified(q) => [Of(q)]
    case GroupStar(g) => Refs(InGroupOnly(Columns(ts), g))
    case Bare(name) => if name == ROW_ID then [RowId] else Refs(Named(Columns(ts), name))
  }

  function ItemsRefs(ts: TableSchema, items: seq<Item>): seq<Ref> {
    if items == [] then [] else ItemsRefs(ts, items[..|items| - 1]) + ItemRefs(ts, items[|items| - 1])
  }

  function ListRefs(ts: TableSchema, list: SelectList): seq<Ref> {
    if list.Star? then [RowId] + Refs(Columns(ts)) else ItemsRefs(ts, list.items)
  }

  /** The item names something the schema has, and just one thing if it is unqualified. */
  ghost predicate Acceptable(ts: TableSchema, item: Item) {
    match item
    case Qualified(q) => q in Columns(ts)
    case GroupStar(g) => g in GroupNames(ts)
    case Bare(name) => "_" <= name || UniquelyNamed(ts, name)
  }

  ghost predicate UniquelyNamed(ts: TableSchema, name: string) {
    exists q :: OnlyNamed(Columns(ts), name, q)
  }

  ghost predicate OnlyNamed(cols: seq<QualifiedColumn>, name: string, q: QualifiedColumn) {
    q in cols && q.column == name && forall r :: r in cols && r.column == name ==> r == q
  }

  function FlatList(refs: seq<Ref>): seq<string> {
    seq(|refs|, i requires 0 <= i < |refs| => FlatRef(refs[i]))
  }

  lemma {:induction false} NamedAre(cols: seq<QualifiedColumn>, name: string, q: QualifiedColumn)
    ensures q in Named(cols, name) <==> q in cols && q.column == name
  {
    if cols != [] {
      NamedAre(cols[..|cols| - 1], name, q);
      assert cols == cols[..|cols| - 1] + [cols[|cols| - 1]];
    }
  }

  lemma {:induction false} NamedNoRepeats(cols: seq<QualifiedColumn>, name: string)
    requires NoRepeats(cols)
    ensures NoRepeats(Named(cols, name))
  {
    if cols != [] {
      var front, last := cols[..|cols| - 1], cols[|cols| - 1];
      NamedNoRepeats(front, name);
      NamedAre(front, name, last);
      assert last !in front;
    }
  }

  lemma NamedMembers(ts: TableSchema, name: string)
    requires WellFormed(ts)
    ensures NoRepeats(Named(Columns(ts), name))
    ensures forall q :: q in Named(Columns(ts), name) <==> q in Columns(ts) && q.column == name
  {
    ValidatedColumnsAreUnique(ts.columnGroups);
    NamedNoRepeats(Columns(ts), name);
    forall q ensures q in Named(Columns(ts), name) <==> q in Columns(ts) && q.column == name {
      NamedAre(Columns(ts), name, q);
    }
  }

  lemma UniqueIff(ts: TableSchema, name: string)
    requires WellFormed(ts)
    ensures |Named(Columns(ts), name)| == 1 <==> UniquelyNamed(ts, name)
  {
    var found := Named(Columns(ts), name);
    NamedMembers(ts, name);
    if |found| == 1 {
      assert OnlyNamed(Columns(ts), name, found[0]);
    }
    if UniquelyNamed(ts, name) {
      var q :| OnlyNamed(Columns(ts), name, q);
      AllOne(found, q);
    }
  }

  lemma AllOne(found: seq<QualifiedColumn>, q: QualifiedColumn)
    requires NoRepeats(found) && q in found && forall r :: r in found ==> r == q
    ensures |found| == 1
  {
    if |found| > 1 {
      FirstTwo(found);
      assert false;
    }
  }

  lemma FirstTwo(found: seq<QualifiedColumn>)
    requires NoRepeats(found) && |found| > 1
    ensures found[0] in found && found[1] in found && found[0] != found[1]
  {
  }

  lemma NotNamedIff(ts: TableSchema, name: string)
    requires WellFormed(ts)
    ensures |Named(Columns(ts), name)| == 0 <==> forall q :: q in Columns(ts) ==> q.column != name
  {
    NamedMembers(ts, name);
    var found := Named(Columns(ts), name);
    if found != [] {
      assert found[0] in found;
    }
  }

  /** An unqualified name is resolved exactly when one column of the schema has that name, and
    * then it is that column; it is not found exactly when none has. */
  lemma ResolvesIffUnique(ts: TableSchema, name: string)
    requires WellFormed(ts)
    ensures Resolved(ts, name).Success? <==> UniquelyNamed(ts, name)
    ensures Resolved(ts, name).Success? ==>
              Named(Columns(ts), name) == [Resolved(ts, name).value] &&
              Resolved(ts, name).value in Columns(ts) && Resolved(ts, name).value.column == name
    ensures Resolved(ts, name) == Failure(ColumnNotFound(name)) <==> forall q :: q in Columns(ts) ==> q.column != name
  {
    UniqueIff(ts, name);
    NotNamedIff(ts, name);
    var found := Named(Columns(ts), name);
    if |found| == 1 {
      NamedAre(Columns(ts), name, found[0]);
    }
  }

  lemma {:induction false} InGroupConcat(a: seq<QualifiedColumn>, b: seq<QualifiedColumn>, group: string)
    ensures InGroupOnly(a + b, group) == InGroupOnly(a, group) + InGroupOnly(b, group)
  {
    if b == [] {
      assert a + b == a;
    } else {
      InGroupConcat(a, b[..|b| - 1], group);
      assert (a + b)[..|a + b| - 1] == a + b[..|b| - 1];
    }
  }

  lemma {:induction false} InGroupOfOne(columns: seq<Column>, name: string, group: string)
    ensures InGroupOnly(ColumnsOf(name, columns), group) == if name == group then ColumnsOf(name, columns) else []
  {
    if columns != [] {
      var front := columns[..|columns| - 1];
      InGroupOfOne(front, name, group);
      InGroupConcat(ColumnsOf(name, front), [QualifiedColumn(name, columns[|columns| - 1].name)], group);
    }
  }

  lemma InGroupSnoc(groups: seq<ColumnGroup>, group: string)
    requires groups != []
    ensures var last := groups[|groups| - 1];
            InGroupOnly(ColumnsOfGroups(groups), group)
            == InGroupOnly(ColumnsOfGroups(groups[..|groups| - 1]), group)
               + if last.name == group then ColumnsOf(last.name, last.columns) else []
  {
    var last := groups[|groups| - 1];
    InGroupConcat(ColumnsOfGroups(groups[..|groups| - 1]), ColumnsOf(last.name, last.columns), group);
    InGroupOfOne(last.columns, last.name, group);
  }

  lemma {:induction false} InGroupAbsent(groups: seq<ColumnGroup>, group: string)
    requires forall i :: 0 <= i < |groups| ==> groups[i].name != group
    ensures InGroupOnly(ColumnsOfGroups(groups), group) == []
  {
    if groups != [] {
      InGroupAbsent(groups[..|groups| - 1], group);
      InGroupSnoc(groups, group);
    }
  }

  /** The columns of a schema in one group are those the group lists, in its order. */
  lemma {:induction false} GroupColumns(groups: seq<ColumnGroup>, i: nat)
    requires DistinctGroups(groups) && i < |groups|
    ensures InGroupOnly(ColumnsOfGroups(groups), groups[i].name) == ColumnsOf(groups[i].name, groups[i].columns)
  {
    var front, group := groups[..|groups| - 1], groups[i].name;
    InGroupSnoc(groups, group);
    if i < |front| {
      GroupColumns(front, i);
    } else {
      InGroupAbsent(front, group);
    }
  }

  lemma FlatListOfRefs(cols: seq<QualifiedColumn>)
    ensures FlatList(Refs(cols)) == FlatNamesOf(cols)
  {
  }

  lemma FlatListConcat(a: seq<Ref>, b: seq<Ref>)
    ensures FlatList(a + b) == FlatList(a) + FlatList(b)
  {
  }

  lemma FlatListOne(r: Ref)
    ensures FlatList([r]) == [FlatRef(r)]
  {
  }

  lemma GroupIsThere(ts: TableSchema, name: string)
    requires WellFormed(ts)
    ensures FirstGroup(ts.columnGroups, name).Some? <==> name in GroupNames(ts)
    ensures name in GroupNames(ts) ==> FirstGroup(ts.columnGroups, name).value.name == name
    ensures name in GroupNames(ts) ==>
              InGroupOnly(Columns(ts), name) == ColumnsOf(name, FirstGroup(ts.columnGroups, name).value.columns)
    ensures name in GroupNames(ts) ==> forall q: QualifiedColumn ::
              q.group == name ==> (q in Columns(ts) <==> InGroup(FirstGroup(ts.columnGroups, name).value, q))
  {
    if name in GroupNames(ts) {
      var i :| 0 <= i < |ts.columnGroups| && ts.columnGroups[i].name == name;
      FirstGroupIs(ts.columnGroups, name, i);
      GroupColumns(ts.columnGroups, i);
      forall q: QualifiedColumn | q.group == name ensures q in Columns(ts) <==> InGroup(ts.columnGroups[i], q) {
        ColumnsAreTheDeclared(ts.columnGroups, q);
      }
    } else {
      NoFirstGroup(ts.columnGroups, name);
    }
  }

  /** An item passes validation and translation exactly when it is acceptable. */
  ghost predicate Passes(ts: TableSchema, item: QualifiedColumn) {
    ItemValid(ts, item) && Emitted(ts, item).Success?
  }

  lemma QualifiedPasses(ts: TableSchema, q: QualifiedColumn)
    requires WellFormed(ts) && Name(q)
    ensures Passes(ts, q) <==> q in Columns(ts)
    ensures Emitted(ts, q) == Success(FlatList([Of(q)]))
  {
    GroupIsThere(ts, q.group);
    FlatListOne(Of(q));
    assert q.column[0] != '*';
    ColumnHasGroup(ts, q);
  }

  lemma ColumnHasGroup(ts: TableSchema, q: QualifiedColumn)
    ensures q in Columns(ts) ==> q.group in GroupNames(ts)
  {
    ColumnsAreTheDeclared(ts.columnGroups, q);
    if q in Columns(ts) {
      var i :| 0 <= i < |ts.columnGroups| && InGroup(ts.columnGroups[i], q);
    }
  }

  lemma GroupStarPasses(ts: TableSchema, g: string)
    requires WellFormed(ts) && IsIdent(g)
    ensures Passes(ts, QualifiedColumn(g, "*")) <==> g in GroupNames(ts)
    ensures g in GroupNames(ts) ==>
              Emitted(ts, QualifiedColumn(g, "*")) == Success(FlatList(ItemRefs(ts, GroupStar(g))))
  {
    GroupIsThere(ts, g);
    FlatListOfRefs(InGroupOnly(Columns(ts), g));
  }

  lemma BarePasses(ts: TableSchema, name: string)
    requires WellFormed(ts) && IsIdent(name)
    ensures Passes(ts, QualifiedColumn("", name)) <==> "_" <= name || UniquelyNamed(ts, name)
    ensures Passes(ts, QualifiedColumn("", name)) && (name == ROW_ID || !("_" <= name)) ==>
              Emitted(ts, QualifiedColumn("", name)) == Success(FlatList(ItemRefs(ts, Bare(name))))
  {
    Nowhere(name, "(", '(');
    ResolvesIffUnique(ts, name);
    FlatListOne(RowId);
    if Resolved(ts, name).Success? {
      FlatListOfOne(Resolved(ts, name).value);
    }
  }

  lemma FlatListOfOne(q: QualifiedColumn)
    ensures FlatList(Refs([q])) == [q.FlatName()]
  {
  }

  /** Names that begin with an underscore go through unresolved; only the row id is one. */
  predicate NoStrayUnderscore(item: Item) {
    item.Bare? && "_" <= item.name ==> item.name == ROW_ID
  }

  lemma ItemPasses(ts: TableSchema, item: Item)
    requires WellFormed(ts) && PlainItem(item)
    ensures Passes(ts, ParsedItem(item)) <==> Acceptable(ts, item)
    ensures Acceptable(ts, item) && NoStrayUnderscore(item) ==>
              Emitted(ts, ParsedItem(item)) == Success(FlatList(ItemRefs(ts, item)))
  {
    match item
    case Qualified(q) => QualifiedPasses(ts, q);
    case GroupStar(g) => GroupStarPasses(ts, g);
    case Bare(name) => BarePasses(ts, name);
  }

  lemma {:induction false} AllEmittedIff(ts: TableSchema, items: seq<QualifiedColumn>)
    ensures AllEmitted(ts, items).Success? <==> forall i :: 0 <= i < |items| ==> Emitted(ts, items[i]).Success?
  {
    if items != [] {
      AllEmittedIff(ts, items[..|items| - 1]);
    }
  }

  lemma {:induction false} ItemsEmit(ts: TableSchema, items: seq<Item>)
    requires WellFormed(ts) && PlainItems(items)
    requires forall i :: 0 <= i < |items| ==> Acceptable(ts, items[i]) && NoStrayUnderscore(items[i])
    ensures AllEmitted(ts, ParsedItems(items)) == Success(FlatList(ItemsRefs(ts, items)))
  {
    if items == [] {
      assert ParsedItems(items) == [] && FlatList(ItemsRefs(ts, items)) == [];
    } else {
      var n := |items| - 1;
      var front, last := ItemsRefs(ts, items[..n]), ItemRefs(ts, items[n]);
      ItemsEmit(ts, items[..n]);
      ItemPasses(ts, items[n]);
      ParsedItemsSnoc(items);
      FlatListConcat(front, last);
    }
  }

  // ---------------------------------------------------------------------------------------
  // The statement DuckDB gets

  function MapWhere<C, D>(where: Option<Expr<C>>, f: C -> D): Option<Expr<D>> {
    if where.None? then None else Some(MapCols(where.value, f))
  }

  /** The flat statement a query stands for. */
  function FlatOf(ts: TableSchema, q: Select): FlatSelect {
    FlatSelect(FlatList(ListRefs(ts, q.list)), q.table, MapWhere(q.where, FlatName), MapKeys(q.order, FlatName), q.limit)
  }

  ghost predicate ListAcceptable(ts: TableSchema, list: SelectList) {
    list.Items? ==> forall i :: 0 <= i < |list.items| ==> Acceptable(ts, list.items[i])
  }

  ghost predicate NoStrayUnderscores(list: SelectList) {
    list.Items? ==> forall i :: 0 <= i < |list.items| ==> NoStrayUnderscore(list.items[i])
  }

  lemma ParsedListPasses(ts: TableSchema, list: SelectList)
    requires WellFormed(ts) && PlainList(list)
    ensures (forall i :: 0 <= i < |ParsedList(list)| ==> Passes(ts, ParsedList(list)[i])) <==> ListAcceptable(ts, list)
  {
    if list.Items? {
      forall i | 0 <= i < |list.items| ensures Passes(ts, ParsedList(list)[i]) <==> Acceptable(ts, list.items[i]) {
        ItemPasses(ts, list.items[i]);
      }
    }
  }

  /** The front end accepts what is valid and has a select list that can be translated. */
  lemma FrontEndAccepts(catalog: Catalog, sql: string, p: ParsedQuery)
    requires ParsedSQL(sql) == Success(p)
    ensures FrontEnd(catalog, sql).Success? <==> QueryValid(catalog, p) && SelectColumns(catalog[p.tableName], p).Success?
    ensures FrontEnd(catalog, sql).Success? ==>
              FrontEnd(catalog, sql) == Success(Assembled(SelectColumns(catalog[p.tableName], p).value, p))
  {
  }

  lemma ListAccepted(ts: TableSchema, list: SelectList)
    requires WellFormed(ts) && PlainList(list)
    ensures ListAcceptable(ts, list) <==>
            (forall i :: 0 <= i < |ParsedList(list)| ==> ItemValid(ts, ParsedList(list)[i])) &&
            AllEmitted(ts, ParsedList(list)).Success?
  {
    ParsedListPasses(ts, list);
    AllEmittedIff(ts, ParsedList(list));
  }

  /** A printed statement gets through to DuckDB exactly when its table exists and each item of
    * its list names something there. */
  lemma AcceptedIff(catalog: Catalog, q: Select)
    requires Parses(q) && (q.table in catalog ==> WellFormed(catalog[q.table]))
    ensures FrontEnd(catalog, Print(q)).Success? <==> q.table in catalog && ListAcceptable(catalog[q.table], q.list)
  {
    PrintedParses(q);
    FrontEndAccepts(catalog, Print(q), ParsedSQL(Print(q)).value);
    if q.table in catalog {
      ListAccepted(catalog[q.table], q.list);
    }
  }

  function RewrittenWhere(where: Option<Expr<QualifiedColumn>>): Option<Expr<string>> {
    if where.None? then None else Some(AsRewritten(where.value))
  }

  function FoundIn(where: Option<Expr<QualifiedColumn>>): seq<string> {
    if where.None? then [] else GroupsFound(where.value)
  }

  lemma WhereRewrites(q: Select)
    requires Readable(q)
    ensures var where := WhereOrEmpty(q.where, DottedName);
            (if where == "" then "" else " WHERE " + TranslateRefs(where)) == WhereText(WhereOrEmpty(RewrittenWhere(q.where), Same))
    ensures RefGroups(WhereOrEmpty(q.where, DottedName)) == FoundIn(q.where)
  {
    WhereIsCanonical(q);
    if q.where.Some? {
      ShowRewritten(q.where.value);
    }
  }

  lemma ListTranslates(ts: TableSchema, list: SelectList)
    requires WellFormed(ts) && PlainList(list) && ListAcceptable(ts, list) && NoStrayUnderscores(list)
    ensures (if list.Star? then Success([ROW_ID] + FlatNames(ts)) else AllEmitted(ts, ParsedList(list)))
            == Success(FlatList(ListRefs(ts, list)))
  {
    if list.Star? {
      FlatListOfRefs(Columns(ts));
      FlatListOne(RowId);
      FlatListConcat([RowId], Refs(Columns(ts)));
    } else {
      ItemsEmit(ts, list.items);
    }
  }

  /** The statement DuckDB gets: the flat one, with the literals as the rewriting leaves them. */
  function Delivered(ts: TableSchema, q: Select): FlatSelect {
    FlatOf(ts, q).(where := RewrittenWhere(q.where))
  }

  /** What DuckDB gets, whatever the literals hold. */
  lemma TranslatesTo(catalog: Catalog, q: Select)
    requires Parses(q) && q.table in catalog && WellFormed(catalog[q.table])
    requires ListAcceptable(catalog[q.table], q.list) && NoStrayUnderscores(q.list)
    ensures FrontEnd(catalog, Print(q)) == Success(PrintFlat(Delivered(catalog[q.table], q)))
  {
    AcceptedIff(catalog, q);
    PrintedParses(q);
    FrontEndAccepts(catalog, Print(q), ParsedSQL(Print(q)).value);
    ListTranslates(catalog[q.table], q.list);
    WhereRewrites(q);
    TailRewrites(q.order, q.limit);
  }

  lemma DifferInWhere(cols: string, table: string, w: string, w': string, tail: string)
    requires |w| == |w'|
    ensures SelectText(cols, table, w, tail) == SelectText(cols, table, w', tail) <==> w == w'
  {
    var front := "SELECT " + cols + " FROM " + table;
    var a, b := front + WhereText(w), front + WhereText(w');
    if SelectText(cols, table, w, tail) == SelectText(cols, table, w', tail) {
      assert (a + tail)[..|a|] == a && (b + tail)[..|b|] == b;
      assert a[|a| - |w|..] == w && b[|b| - |w'|..] == w';
    }
  }

  lemma DeliveredIff(ts: TableSchema, q: Select)
    requires Parses(q)
    ensures PrintFlat(Delivered(ts, q)) == PrintFlat(FlatOf(ts, q)) <==> LiteralsKept(q)
  {
    var f := FlatOf(ts, q);
    var w, w' := WhereOrEmpty(RewrittenWhere(q.where), Same), WhereOrEmpty(f.where, Same);
    if q.where.Some? {
      RewrittenIff(q.where.value);
    }
    DifferInWhere(Join(f.columns, ", "), f.table, w, w', TailText(f.order, f.limit, Same));
  }

  /** DuckDB gets the flat statement, printed, exactly when no literal holds a reference. */
  lemma TranslatesToFlatIff(catalog: Catalog, q: Select)
    requires Parses(q) && q.table in catalog && WellFormed(catalog[q.table])
    requires ListAcceptable(catalog[q.table], q.list) && NoStrayUnderscores(q.list)
    ensures FrontEnd(catalog, Print(q)) == Success(PrintFlat(FlatOf(catalog[q.table], q))) <==> LiteralsKept(q)
  {
    TranslatesTo(catalog, q);
    DeliveredIff(catalog[q.table], q);
  }

  lemma TranslatesToFlat(catalog: Catalog, q: Select)
    requires Plain(q) && q.table in catalog && WellFormed(catalog[q.table])
    requires ListAcceptable(catalog[q.table], q.list) && NoStrayUnderscores(q.list)
    ensures FrontEnd(catalog, Print(q)) == Success(PrintFlat(FlatOf(catalog[q.table], q)))
  {
    TranslatesToFlatIff(catalog, q);
  }

  // ---------------------------------------------------------------------------------------
  // Tails and calls the syntax tree does not have

  lemma ParsesWithTail(q: Select, tail: string)
    requires Readable(q) && Carried(WhereOrEmpty(q.where, DottedName), tail)
    requires StartsTrailing(tail) && !IsSpace(tail[|tail| - 1])
    requires q.where.None? ==> Index(Upper(tail), " WHERE ") < 0
    ensures var sql := PrintWith(q, tail);
            && ParsedSQL(sql) == Success(ParsedQuery(q.table, ParsedList(q.list), q.list.Star?, WhereOrEmpty(q.where, DottedName), sql))
            && Trailing(sql) == tail
  {
    ListIsCanonical(q.list);
    WhereIsCanonical(q);
    ParsePrinted(ListText(q.list), q.table, WhereOrEmpty(q.where, DottedName), tail);
    if q.list.Items? {
      ListParses(q.list.items, ListText(q.list));
    }
    AnyTailTrimmed(q, tail);
    TrimTrimmed(PrintWith(q, tail));
  }

  /** Whatever follows the first ORDER BY, LIMIT, GROUP BY or HAVING reaches DuckDB with its references
    * rewritten: no clause is lost. */
  lemma TailKept(catalog: Catalog, q: Select, word: string, rest: string)
    requires Readable(q) && Carried(WhereOrEmpty(q.where, DottedName), word + rest)
    requires StartsTail(Upper(word)) && !IsSpace((word + rest)[|word + rest| - 1])
    requires q.where.None? ==> Index(Upper(word + rest), " WHERE ") < 0
    requires q.table in catalog && WellFormed(catalog[q.table])
    requires ListAcceptable(catalog[q.table], q.list) && NoStrayUnderscores(q.list)
    ensures FrontEnd(catalog, PrintWith(q, word + rest))
            == Success(SelectText(Join(FlatList(ListRefs(catalog[q.table], q.list)), ", "), q.table,
                                  WhereOrEmpty(RewrittenWhere(q.where), Same), TranslateRefs(word + rest)))
  {
    var ts, sql := catalog[q.table], PrintWith(q, word + rest);
    TailWordStarts(word, rest);
    ParsesWithTail(q, word + rest);
    ListAccepted(ts, q.list);
    FrontEndAccepts(catalog, sql, ParsedSQL(sql).value);
    ListTranslates(ts, q.list);
    WhereRewrites(q);
  }

  /** A function call with its arguments. */
  ghost predicate IsCall(call: string, name: string, args: string) {
    && call == name + "(" + args + ")" && IsIdent(name) && NeverNegative(args)
    && Free(call) && Index(Upper(call), " AS ") < 0
  }

  lemma CallIsItem(call: string, name: string, args: string)
    requires IsCall(call, name, args)
    ensures ItemsOf(Split(call)) == [QualifiedColumn("", call)]
  {
    CallStaysWhole(name, args);
    CallItem(call, |name|);
  }

  lemma CallIsTrimmed(call: string, table: string)
    requires table != "" && Trimmed(table)
    ensures var sql := SelectText(call, table, "", ""); TrimSpace(sql) == sql && "SELECT" <= Upper(sql)
  {
    var sql := SelectText(call, table, "", "");
    TextIsTrimmed("SELECT " + call + " FROM ", table, "", "");
    UpperStart(sql, "SELECT");
    TrimTrimmed(sql);
  }

  lemma CallParses(call: string, name: string, args: string, table: string)
    requires IsCall(call, name, args) && table != "" && Trimmed(table) && Free(table)
    ensures var sql := SelectText(call, table, "", "");
            && ParsedSQL(sql) == Success(ParsedQuery(table, [QualifiedColumn("", call)], false, "", sql))
            && Trailing(sql) == ""
  {
    ParsePrinted(call, table, "", "");
    CallIsItem(call, name, args);
    CallIsTrimmed(call, table);
  }

  lemma CallItem(call: string, at: nat)
    requires Trimmed(call) && at < |call| && call[at] == '(' && Index(Upper(call), " AS ") < 0
    ensures ItemsOf([call]) == [QualifiedColumn("", call)]
  {
    TrimTrimmed(call);
    assert OccursAt(call, "(", at);
    assert [call][..0] == [];
    assert ItemOf(call) == QualifiedColumn("", call);
  }

  /** A function call in the select list reaches DuckDB with its references rewritten. */
  lemma CallKept(catalog: Catalog, call: string, name: string, args: string, table: string)
    requires IsCall(call, name, args) && table != "" && Trimmed(table) && Free(table) && table in catalog
    ensures FrontEnd(catalog, SelectText(call, table, "", "")) == Success(SelectText(TranslateRefs(call), table, "", ""))
  {
    var sql := SelectText(call, table, "", "");
    var p := ParsedQuery(table, [QualifiedColumn("", call)], false, "", sql);
    CallParses(call, name, args, table);
    CallEmitted(catalog[table], call, name, args);
    FrontEndAccepts(catalog, sql, p);
  }

  lemma CallEmitted(ts: TableSchema, call: string, name: string, args: string)
    requires IsCall(call, name, args)
    ensures AllEmitted(ts, [QualifiedColumn("", call)]) == Success([TranslateRefs(call)])
  {
    assert OccursAt(call, "(", |name|);
    assert [QualifiedColumn("", call)][..0] == [];
    assert [] + [TranslateRefs(call)] == [TranslateRefs(call)];
  }

  // ---------------------------------------------------------------------------------------
  // Any statement, printed or not

  /** Every select item of a valid and translated statement, other than a function call or a
    * name that begins with an underscore, is a column CREATE TABLE declares. */
  lemma ItemSound(ts: TableSchema, item: QualifiedColumn)
    requires WellFormed(ts) && ItemValid(ts, item) && Emitted(ts, item).Success?
    ensures IsFunctionCall(item) || IsUnderscored(item) || forall name :: name in Emitted(ts, item).value ==> name in FlatColumns(ts)
  {
    if !IsFunctionCall(item) && !IsUnderscored(item) {
      if item.group == "" {
        ResolvesIffUnique(ts, item.column);
        assert Resolved(ts, item.column).value in Columns(ts);
      } else {
        GroupIsThere(ts, item.group);
        if item.column == "*" {
          StarSound(ts, item.group);
        } else {
          assert item in Columns(ts);
        }
      }
    }
  }

  lemma StarSound(ts: TableSchema, group: string)
    requires WellFormed(ts) && FirstGroup(ts.columnGroups, group).Some?
    ensures forall name ::
              name in FlatNamesOf(ColumnsOf(group, FirstGroup(ts.columnGroups, group).value.columns)) ==> name in FlatColumns(ts)
  {
    GroupIsThere(ts, group);
    var first := FirstGroup(ts.columnGroups, group).value;
    var cols := ColumnsOf(group, first.columns);
    forall name | name in FlatNamesOf(cols) ensures name in FlatColumns(ts) {
      var i :| 0 <= i < |cols| && cols[i].FlatName() == name;
      assert cols[i] in cols;
      ColumnsOfMembers(group, first.columns, cols[i]);
      assert InGroup(first, cols[i]);
    }
  }

  /** A select item goes back to a function call or an underscore name in the list, rewritten and
    * as it is, or it is a declared column. */
  ghost predicate Accounted(ts: TableSchema, items: seq<QualifiedColumn>, name: string) {
    || name in FlatColumns(ts)
    || (exists item :: item in items && IsFunctionCall(item) && name == TranslateRefs(item.column))
    || (exists item :: item in items && IsUnderscored(item) && name == item.column)
  }

  lemma ItemAccounted(ts: TableSchema, items: seq<QualifiedColumn>, item: QualifiedColumn, name: string)
    requires WellFormed(ts) && item in items && ItemValid(ts, item) && Emitted(ts, item).Success?
    requires name in Emitted(ts, item).value
    ensures Accounted(ts, items, name)
  {
    ItemSound(ts, item);
  }

  lemma {:induction false} ItemsAccounted(ts: TableSchema, items: seq<QualifiedColumn>, name: string)
    requires WellFormed(ts) && (forall i :: 0 <= i < |items| ==> ItemValid(ts, items[i]))
    requires AllEmitted(ts, items).Success? && name in AllEmitted(ts, items).value
    ensures Accounted(ts, items, name)
  {
    var front, last := items[..|items| - 1], items[|items| - 1];
    assert items == front + [last];
    if name in AllEmitted(ts, front).value {
      ItemsAccounted(ts, front, name);
    } else {
      ItemAccounted(ts, items, last, name);
    }
  }

  /** When a statement is both validated and translated, `*` stands for what CREATE TABLE declares,
    * in order, and every other select item that is not a function call or underscore name is a
    * column it declares. */
  lemma StatementSound(catalog: Catalog, p: ParsedQuery)
    requires QueryValid(catalog, p) && WellFormed(catalog[p.tableName])
    requires SelectColumns(catalog[p.tableName], p).Success?
    ensures var ts := catalog[p.tableName];
            var names := SelectColumns(ts, p).value;
            if p.allColumns then names == ["_row_id"] + FlatNames(ts)
            else forall name :: name in names ==> Accounted(ts, p.columns, name)
  {
    var ts := catalog[p.tableName];
    if !p.allColumns {
      forall name | name in SelectColumns(ts, p).value ensures Accounted(ts, p.columns, name) {
        ItemsAccounted(ts, p.columns, name);
      }
    }
  }

  /** What each kind of item must put into the translated list. */
  ghost predicate PutsOut(ts: TableSchema, item: QualifiedColumn, names: seq<string>) {
    if item.group == "" && '(' in item.column then TranslateRefs(item.column) in names
    else if item.group == "" && item.column != "" && item.column[0] == '_' then item.column in names
    else if item.group == "" then exists q :: q in Columns(ts) && q.column == item.column && q.FlatName() in names
    else if item.column == "*" then forall q :: q in Columns(ts) && q.group == item.group ==> q.FlatName() in names
    else item.group + "_" + item.column in names
  }

  lemma HasParenthesis(text: string)
    ensures Contains(text, "(") <==> '(' in text
  {
    if i :| 0 <= i < |text| && text[i] == '(' {
      assert OccursAt(text, "(", i);
    }
    if Contains(text, "(") {
      assert text[Index(text, "(")..Index(text, "(") + 1] == "(";
      assert text[Index(text, "(")] == '(';
    }
  }

  lemma ItemPutsOut(ts: TableSchema, item: QualifiedColumn)
    requires WellFormed(ts) && Emitted(ts, item).Success?
    ensures PutsOut(ts, item, Emitted(ts, item).value)
  {
    HasParenthesis(item.column);
    if item.group == "" {
      if !IsFunctionCall(item) && !IsUnderscored(item) {
        ResolvesIffUnique(ts, item.column);
        assert Resolved(ts, item.column).value in Columns(ts);
      }
    } else if item.column == "*" {
      StarPutsOut(ts, item.group);
    }
  }

  lemma StarPutsOut(ts: TableSchema, group: string)
    requires WellFormed(ts) && FirstGroup(ts.columnGroups, group).Some?
    ensures forall q :: q in Columns(ts) && q.group == group ==>
              q.FlatName() in FlatNamesOf(ColumnsOf(group, FirstGroup(ts.columnGroups, group).value.columns))
  {
    GroupIsThere(ts, group);
    var first := FirstGroup(ts.columnGroups, group).value;
    var cols := ColumnsOf(group, first.columns);
    forall q | q in Columns(ts) && q.group == group ensures q.FlatName() in FlatNamesOf(cols) {
      ColumnsOfMembers(group, first.columns, q);
      assert first == ColumnGroup(group, first.columns);
      var i :| 0 <= i < |cols| && cols[i] == q;
      assert FlatNamesOf(cols)[i] == q.FlatName();
    }
  }

  /** Every item of a translated list has put out what it stands for: none is lost. */
  lemma {:induction false} EveryItemPutsOut(ts: TableSchema, items: seq<QualifiedColumn>, i: nat)
    requires WellFormed(ts) && AllEmitted(ts, items).Success? && i < |items|
    ensures PutsOut(ts, items[i], AllEmitted(ts, items).value)
    decreases |items|
  {
    var front, last := items[..|items| - 1], items[|items| - 1];
    var names := AllEmitted(ts, items).value;
    assert forall n :: n in AllEmitted(ts, front).value || n in Emitted(ts, last).value ==> n in names;
    if i < |front| {
      EveryItemPutsOut(ts, front, i);
    } else {
      ItemPutsOut(ts, last);
    }
  }

  /** A name that several columns have is an error that names the groups they are in. */
  lemma AmbiguousNamesGroups(ts: TableSchema, name: string, g: string)
    requires WellFormed(ts) && Resolved(ts, name).Failure? && Resolved(ts, name).error.Ambiguous?
    ensures Resolved(ts, name).error.column == name
    ensures g in Resolved(ts, name).error.groups <==> QualifiedColumn(g, name) in Columns(ts)
  {
    var found := Named(Columns(ts), name);
    NamedAre(Columns(ts), name, QualifiedColumn(g, name));
    if g in GroupsOfColumns(found) {
      var i :| 0 <= i < |found| && found[i].group == g;
      NamedAre(Columns(ts), name, found[i]);
      assert found[i] == QualifiedColumn(g, name);
    }
    if QualifiedColumn(g, name) in found {
      var i :| 0 <= i < |found| && found[i] == QualifiedColumn(g, name);
      assert GroupsOfColumns(found)[i] == g;
    }
  }

  /** An unqualified name that only one column has stands for that column exactly when it
    * neither begins with an underscore nor holds an opening parenthesis: then it is passed on. */
  lemma UniqueNameResolvesIff(ts: TableSchema, q: QualifiedColumn)
    requires WellFormed(ts) && OnlyNamed(Columns(ts), q.column, q)
    ensures Emitted(ts, QualifiedColumn("", q.column)) == Success([q.FlatName()])
            <==> !("_" <= q.column) && !Contains(q.column, "(")
  {
    ResolvesIffUnique(ts, q.column);
    assert |q.FlatName()| > |q.column|;
    assert [q.FlatName()][0] != [q.column][0];
  }
}
