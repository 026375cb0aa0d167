/** Answers: of the statement as written over grouped rows, and of its translation over the
  * flattened table. */
module Meaning {
  import opened Wrappers
  import opened Schema
  import opened Rows
  import opened Storage
  import opened Text
  import opened Scanner
  import opened Parser
  import Clauses
  import opened Keywords
  import opened Loader
  import opened Manager
  import opened Query
  import opened Printing
  import opened Translator
  import opened Semantics

  /** What the statement means: the answer computed from grouped rows. */
  function Answer(ts: TableSchema, q: Select, rows: seq<Ref -> Value>): seq<seq<Value>> {
    Run(ListRefs(ts, q.list), MapWhere(q.where, Qualify), MapKeys(q.order, Qualify), q.limit, rows)
  }

  /** What DuckDB answers. */
  function FlatAnswer(f: FlatSelect, rows: seq<string -> Value>): seq<seq<Value>> {
    Run(f.columns, f.where, f.order, f.limit, rows)
  }

  function Mapped<C, D>(columns: seq<C>, f: C -> D): seq<D> {
    seq(|columns|, i requires 0 <= i < |columns| => f(columns[i]))
  }

  /** `g` names a qualified column as `f` does. */
  ghost predicate Renames<D(!new)>(f: Ref -> D, g: QualifiedColumn -> D) {
    forall c :: g(c) == f(Of(c))
  }

  /** Whatever `known` holds of has the same value under its new name. */
  ghost predicate SameValues<D(!new)>(f: Ref -> D, env: Ref -> Value, env': D -> Value, known: Ref -> bool) {
    forall r :: known(r) ==> env'(f(r)) == env(r)
  }

  ghost predicate Uses(columns: seq<Ref>, where: Option<Expr<QualifiedColumn>>, order: seq<OrderKey<QualifiedColumn>>, known: Ref -> bool) {
    && (forall i :: 0 <= i < |columns| ==> known(columns[i]))
    && (where.Some? ==> AllCols(where.value, (c: QualifiedColumn) => known(Of(c))))
    && (forall i :: 0 <= i < |order| ==> known(Of(order[i].column)))
  }

  lemma WhereAgrees<D(!new)>(e: Expr<QualifiedColumn>, f: Ref -> D, g: QualifiedColumn -> D, env: Ref -> Value, env': D -> Value, known: Ref -> bool)
    requires Renames(f, g) && SameValues(f, env, env', known)
    requires AllCols(e, (c: QualifiedColumn) => known(Of(c)))
    ensures Eval(MapCols(e, g), env') == Eval(MapCols(e, Qualify), env)
  {
    var p := (c: QualifiedColumn) => known(Of(c));
    var direct := (c: QualifiedColumn) => env(Of(c));
    EvalMapCols(e, g, direct, env', p);
    EvalMapCols(e, Qualify, direct, env, p);
  }

  lemma RecordAgrees<D(!new)>(columns: seq<Ref>, where: Option<Expr<QualifiedColumn>>, order: seq<OrderKey<QualifiedColumn>>,
                        f: Ref -> D, g: QualifiedColumn -> D, env: Ref -> Value, env': D -> Value, known: Ref -> bool)
    requires Renames(f, g) && SameValues(f, env, env', known) && Uses(columns, where, order, known)
    ensures RecordOf(Mapped(columns, f), MapWhere(where, g), MapKeys(order, g), env')
            == RecordOf(columns, MapWhere(where, Qualify), MapKeys(order, Qualify), env)
  {
    if where.Some? {
      WhereAgrees(where.value, f, g, env, env', known);
    }
    var a, b := RecordOf(Mapped(columns, f), MapWhere(where, g), MapKeys(order, g), env'),
                RecordOf(columns, MapWhere(where, Qualify), MapKeys(order, Qualify), env);
    assert a.output == b.output;
    forall i | 0 <= i < |order| ensures env'(MapKeys(order, g)[i].column) == env(MapKeys(order, Qualify)[i].column) {
    }
    assert a.keys == b.keys;
  }

  /** Running a statement under new names over rows that agree gives the same answer. */
  lemma RunAgrees<D(!new)>(columns: seq<Ref>, where: Option<Expr<QualifiedColumn>>, order: seq<OrderKey<QualifiedColumn>>, limit: Option<nat>,
                     f: Ref -> D, g: QualifiedColumn -> D, rows: seq<Ref -> Value>, rows': seq<D -> Value>, known: Ref -> bool)
    requires |rows| == |rows'| && Renames(f, g) && Uses(columns, where, order, known)
    requires forall i :: 0 <= i < |rows| ==> SameValues(f, rows[i], rows'[i], known)
    ensures Run(Mapped(columns, f), MapWhere(where, g), MapKeys(order, g), limit, rows')
            == Run(columns, MapWhere(where, Qualify), MapKeys(order, Qualify), limit, rows)
  {
    var records := seq(|rows|, i requires 0 <= i < |rows| => RecordOf(columns, MapWhere(where, Qualify), MapKeys(order, Qualify), rows[i]));
    var records' := seq(|rows'|, i requires 0 <= i < |rows'| => RecordOf(Mapped(columns, f), MapWhere(where, g), MapKeys(order, g), rows'[i]));
    forall i | 0 <= i < |rows| ensures records[i] == records'[i] {
      RecordAgrees(columns, where, order, f, g, rows[i], rows'[i], known);
    }
    assert records == records';
    assert Directions(MapKeys(order, g)) == Directions(MapKeys(order, Qualify));
  }

  // ---------------------------------------------------------------------------------------

  /** A row of the table: its id and its groups. */
  datatype Entry = Entry(id: string, groups: Groups)

  function GroupedRows(entries: seq<Entry>): seq<Ref -> Value> {
    seq(|entries|, i requires 0 <= i < |entries| => GroupedEnv(entries[i].id, entries[i].groups))
  }

  ghost function FlatRows(ts: TableSchema, entries: seq<Entry>): seq<string -> Value>
    requires FlatDistinct(ts)
  {
    seq(|entries|, i requires 0 <= i < |entries| => FlatEnv(entries[i].id, Flatten(ts, entries[i].groups)))
  }

  /** WHERE and ORDER BY refer to columns of the schema. */
  ghost predicate InSchema(ts: TableSchema, q: Select) {
    && (q.where.Some? ==> AllCols(q.where.value, (c: QualifiedColumn) => c in Columns(ts)))
    && forall i :: 0 <= i < |q.order| ==> q.order[i].column in Columns(ts)
  }

  ghost predicate RefsKnown(refs: seq<Ref>, known: Ref -> bool) {
    forall i :: 0 <= i < |refs| ==> known(refs[i])
  }

  lemma {:induction false} ItemsRefsKnown(ts: TableSchema, items: seq<Item>, known: Ref -> bool)
    requires forall i :: 0 <= i < |items| ==> RefsKnown(ItemRefs(ts, items[i]), known)
    ensures RefsKnown(ItemsRefs(ts, items), known)
  {
    if items != [] {
      ItemsRefsKnown(ts, items[..|items| - 1], known);
    }
  }

  lemma {:induction false} InGroupAre(cols: seq<QualifiedColumn>, group: string, q: QualifiedColumn)
    requires q in InGroupOnly(cols, group)
    ensures q in cols && q.group == group
  {
    var front, last := cols[..|cols| - 1], cols[|cols| - 1];
    assert cols == front + [last];
    if q in InGroupOnly(front, group) {
      InGroupAre(front, group, q);
    }
  }

  ghost function Declared(ts: TableSchema): Ref -> bool {
    (r: Ref) => r.RowId? || r.q in Columns(ts)
  }

  lemma ItemRefsDeclared(ts: TableSchema, item: Item)
    requires Acceptable(ts, item)
    ensures RefsKnown(ItemRefs(ts, item), Declared(ts))
  {
    match item
    case Qualified(_) =>
    case GroupStar(g) =>
      forall q | q in InGroupOnly(Columns(ts), g) ensures q in Columns(ts) {
        InGroupAre(Columns(ts), g, q);
      }
    case Bare(name) =>
      forall q | q in Named(Columns(ts), name) ensures q in Columns(ts) {
        NamedAre(Columns(ts), name, q);
      }
  }

  lemma ListRefsDeclared(ts: TableSchema, list: SelectList)
    requires ListAcceptable(ts, list)
    ensures RefsKnown(ListRefs(ts, list), Declared(ts))
  {
    if list.Star? {
    } else {
      forall i | 0 <= i < |list.items| ensures RefsKnown(ItemRefs(ts, list.items[i]), Declared(ts)) {
        ItemRefsDeclared(ts, list.items[i]);
      }
      ItemsRefsKnown(ts, list.items, Declared(ts));
    }
  }

  /** The flat statement over flattened rows answers what the statement means. */
  lemma FlatAnswersTheSame(ts: TableSchema, q: Select, entries: seq<Entry>)
    requires FlatDistinct(ts) && ListAcceptable(ts, q.list) && InSchema(ts, q)
    ensures FlatAnswer(FlatOf(ts, q), FlatRows(ts, entries)) == Answer(ts, q, GroupedRows(entries))
  {
    var rows, rows' := GroupedRows(entries), FlatRows(ts, entries);
    forall i | 0 <= i < |rows| ensures SameValues(FlatRef, rows[i], rows'[i], Declared(ts)) {
    }
    UsesDeclared(ts, q);
    RunAgrees(ListRefs(ts, q.list), q.where, q.order, q.limit, FlatRef, FlatName, rows, rows', Declared(ts));
    assert FlatList(ListRefs(ts, q.list)) == Mapped(ListRefs(ts, q.list), FlatRef);
  }

  lemma UsesDeclared(ts: TableSchema, q: Select)
    requires ListAcceptable(ts, q.list) && InSchema(ts, q)
    ensures Uses(ListRefs(ts, q.list), q.where, q.order, Declared(ts))
  {
    ListRefsDeclared(ts, q.list);
    if q.where.Some? {
      AllColsImplies(q.where.value, (c: QualifiedColumn) => c in Columns(ts), (c: QualifiedColumn) => Declared(ts)(Of(c)));
    }
  }

  lemma {:induction false} AllColsImplies<C(!new)>(e: Expr<C>, p: C -> bool, p': C -> bool)
    requires AllCols(e, p) && forall c :: p(c) ==> p'(c)
    ensures AllCols(e, p')
  {
    match e
    case Col(_) =>
    case Lit(_, _) =>
    case Not(a) => AllColsImplies(a, p, p');
    case IsNull(a) => AllColsImplies(a, p, p');
    case Bin(_, l, r) => AllColsImplies(l, p, p'); AllColsImplies(r, p, p');
  }

  /** Translation preserves meaning: printed, parsed, validated and translated, a statement whose
    * items the schema has (by AcceptedIff, one the front end accepts) becomes a flat statement
    * whose answer over the flattened rows is the answer of the original over the grouped rows. */
  lemma TranslationPreservesMeaning(catalog: Catalog, q: Select, entries: seq<Entry>)
    requires Plain(q) && q.table in catalog && WellFormed(catalog[q.table]) && FlatDistinct(catalog[q.table])
    requires InSchema(catalog[q.table], q) && NoStrayUnderscores(q.list)
    requires ListAcceptable(catalog[q.table], q.list)
    ensures var f := FlatOf(catalog[q.table], q);
            && FrontEnd(catalog, Print(q)) == Success(PrintFlat(f))
            && FlatAnswer(f, FlatRows(catalog[q.table], entries)) == Answer(catalog[q.table], q, GroupedRows(entries))
  {
    AcceptedIff(catalog, q);
    TranslatesToFlat(catalog, q);
    FlatAnswersTheSame(catalog[q.table], q, entries);
  }

  // ---------------------------------------------------------------------------------------
  // A string literal with a reference in it

  /** The literal for a string, which is to hold no quote itself. */
  function Quoted(v: string): string {
    "'" + v + "'"
  }

  /** The string that the literal for `v` denotes once it has been rewritten. */
  function Reread(v: string): string {
    TranslateRefs(Quoted(v))[1..|v| + 1]
  }

  /** SELECT x FROM t WHERE (x = 'v'). */
  function Equals(x: QualifiedColumn, v: string): Select {
    Select(Items([Qualified(x)]), "t", Some(Bin(Eq, Col(x), Lit(Quoted(v), Value.Text(v)))), [], None)
  }

  function EqualsFlat(x: QualifiedColumn, v: string): FlatSelect {
    FlatSelect([x.FlatName()], "t", Some(Bin(Eq, Col(x.FlatName()), Lit(Quoted(v), Value.Text(v)))), [], None)
  }

  lemma QuotedRewritten(v: string)
    ensures TranslateRefs(Quoted(v)) == Quoted(Reread(v))
    ensures Reread(v) == v <==> NoRef(Quoted(v))
  {
    TranslateRefsSpec(Quoted(v));
    KeptIffNoRef(Quoted(v));
    assert Quoted(v)[1..|v| + 1] == v;
  }

  lemma EqualsParses(x: QualifiedColumn, v: string)
    requires Name(x) && NoClause(Quoted(v))
    ensures Parses(Equals(x, v))
  {
    assert PlainItem(Qualified(x));
    LiteralsDecide(Equals(x, v));
  }

  lemma EqualsDelivered(ts: TableSchema, x: QualifiedColumn, v: string)
    ensures PrintFlat(Delivered(ts, Equals(x, v))) == PrintFlat(EqualsFlat(x, Reread(v)))
  {
    QuotedRewritten(v);
    OneItem(ts, x);
    FlatListOne(Of(x));
    var f, g := Delivered(ts, Equals(x, v)), EqualsFlat(x, Reread(v));
    assert f.columns == g.columns && f.order == g.order == [];
    assert AsRewritten(Equals(x, v).where.value) == Bin(Eq, Col(x.FlatName()), Lit(TranslateRefs(Quoted(v)), Value.Text(v)));
    ShowEquals(x.FlatName(), Quoted(Reread(v)), Value.Text(v));
    ShowEquals(x.FlatName(), Quoted(Reread(v)), Value.Text(Reread(v)));
  }

  lemma ShowEquals(c: string, text: string, value: Value)
    ensures Show(Bin(Eq, Col(c), Lit(text, value)), Same) == "(" + c + (" " + OpText(Eq) + " ") + text + ")"
  {
  }

  lemma EvalEquals<C>(c: C, text: string, value: Value, env: C -> Value)
    ensures Eval(Bin(Eq, Col(c), Lit(text, value)), env) == Apply(Eq, env(c), value)
  {
  }

  lemma OneFinish(r: Record)
    ensures Finish([r], [], None) == if r.keep then [r.output] else []
  {
    assert [r][..0] == [] && Selected([], []) == [];
    assert Selected([r], []) == if r.keep then [r] else [];
  }

  lemma EqualsAnswer(ts: TableSchema, x: QualifiedColumn, v: string, e: Entry)
    requires Lookup(e.groups, x) == Value.Text(v)
    ensures Answer(ts, Equals(x, v), GroupedRows([e])) == [[Value.Text(v)]]
  {
    var q, rows := Equals(x, v), GroupedRows([e]);
    OneItem(ts, x);
    var r := RecordOf([Of(x)], MapWhere(q.where, Qualify), [], rows[0]);
    assert MapCols(q.where.value, Qualify) == Bin(Eq, Col(Of(x)), Lit(Quoted(v), Value.Text(v)));
    EvalEquals(Of(x), Quoted(v), Value.Text(v), rows[0]);
    assert r.keep && r.output == [Value.Text(v)];
    assert MapKeys(q.order, Qualify) == [] && Directions<Ref>([]) == [];
    assert seq(|rows|, i requires 0 <= i < |rows| => RecordOf([Of(x)], MapWhere(q.where, Qualify), [], rows[i])) == [r];
    OneFinish(r);
  }

  lemma EqualsFlatAnswer(ts: TableSchema, x: QualifiedColumn, v: string, v': string, e: Entry)
    requires FlatDistinct(ts) && x in Columns(ts) && Lookup(e.groups, x) == Value.Text(v)
    ensures FlatAnswer(EqualsFlat(x, v'), FlatRows(ts, [e])) == if v == v' then [[Value.Text(v)]] else []
  {
    var f, rows := EqualsFlat(x, v'), FlatRows(ts, [e]);
    var r := RecordOf(f.columns, f.where, f.order, rows[0]);
    EvalEquals(x.FlatName(), Quoted(v'), Value.Text(v'), rows[0]);
    assert rows[0](x.FlatName()) == Value.Text(v);
    assert r.keep <==> v == v';
    assert r.output == [Value.Text(v)];
    assert Directions<string>([]) == [];
    assert seq(|rows|, i requires 0 <= i < |rows| => RecordOf(f.columns, f.where, f.order, rows[i])) == [r];
    OneFinish(r);
  }

  /** A row that holds the string looked for is found exactly when its literal holds no reference:
    * otherwise the statement DuckDB gets looks for another string. */
  lemma LiteralFindsItsRowIff(catalog: Catalog, x: QualifiedColumn, v: string, e: Entry)
    requires "t" in catalog && WellFormed(catalog["t"]) && FlatDistinct(catalog["t"])
    requires Name(x) && x in Columns(catalog["t"]) && NoClause(Quoted(v)) && Lookup(e.groups, x) == Value.Text(v)
    ensures var ts, f := catalog["t"], EqualsFlat(x, Reread(v));
            && FrontEnd(catalog, Print(Equals(x, v))) == Success(PrintFlat(f))
            && Answer(ts, Equals(x, v), GroupedRows([e])) == [[Value.Text(v)]]
            && FlatAnswer(f, FlatRows(ts, [e])) == (if NoRef(Quoted(v)) then [[Value.Text(v)]] else [])
  {
    EqualsParses(x, v);
    TranslatesTo(catalog, Equals(x, v));
    EqualsDelivered(catalog["t"], x, v);
    EqualsAnswer(catalog["t"], x, v, e);
    EqualsFlatAnswer(catalog["t"], x, v, Reread(v), e);
    QuotedRewritten(v);
  }

  /** For instance this string. */
  lemma DottedLiteral(v: string)
    requires v == "a.b"
    ensures !NoRef(Quoted(v)) && NoClause(Quoted(v)) && Reread(v) == "a_b"
  {
    var s := Quoted(v);
    assert s == "'a.b'";
    RunReaches(s, 1, 2);
    RunReaches(s, 3, 4);
    assert MatchesAt(s, 1);
    TranslateRefsSpec(s);
    WordStartIs(s, 1, 2);
    assert IsStart(s[1]);
    assert HasStart(s, 1, 2);
    assert Replaced(s, 2);
    forall i | 0 <= i < |AFTER_WHERE| ensures Lacks(s, AFTER_WHERE[i]) {
      LacksMixed(s, 0, AFTER_WHERE[i]);
    }
  }

  // ---------------------------------------------------------------------------------------
  // On a table that agrees with the files

  /** The rows of the files with these ids, in this order. */
  function FileEntries(files: Files, ids: seq<string>): seq<Entry> {
    seq(|ids|, i requires 0 <= i < |ids| => Entry(ids[i], GroupsOf(files, ids[i])))
  }

  function TableRows(rows: map<string, FlatRow>, ids: seq<string>): seq<string -> Value>
    requires forall id :: id in ids ==> id in rows
  {
    seq(|ids|, i requires 0 <= i < |ids| => FlatEnv(ids[i], rows[ids[i]]))
  }

  /** Once the two stores agree, DuckDB's answer, in whatever order it scans the table, is the
    * answer of the statement over the row files scanned in that order. */
  lemma QueryAnswersFromFiles(catalog: Catalog, q: Select, files: Files, rows: map<string, FlatRow>, ids: seq<string>)
    requires Plain(q) && q.table in catalog && WellFormed(catalog[q.table]) && FlatDistinct(catalog[q.table])
    requires InSchema(catalog[q.table], q) && NoStrayUnderscores(q.list)
    requires ListAcceptable(catalog[q.table], q.list)
    requires rows == FlatAll(catalog[q.table], files) && forall id :: id in ids ==> id in rows
    ensures var f := FlatOf(catalog[q.table], q);
            && FrontEnd(catalog, Print(q)) == Success(PrintFlat(f))
            && FlatAnswer(f, TableRows(rows, ids)) == Answer(catalog[q.table], q, GroupedRows(FileEntries(files, ids)))
  {
    var ts, entries := catalog[q.table], FileEntries(files, ids);
    TranslationPreservesMeaning(catalog, q, entries);
    TableRowsAreFlat(ts, files, rows, ids);
  }

  lemma TableRowsAreFlat(ts: TableSchema, files: Files, rows: map<string, FlatRow>, ids: seq<string>)
    requires FlatDistinct(ts) && rows == FlatAll(ts, files) && forall id :: id in ids ==> id in rows
    ensures TableRows(rows, ids) == FlatRows(ts, FileEntries(files, ids))
  {
    forall i | 0 <= i < |ids| ensures TableRows(rows, ids)[i] == FlatRows(ts, FileEntries(files, ids))[i] {
      assert ids[i] in ids;
    }
  }

  // ---------------------------------------------------------------------------------------
  // Only the required groups are read

  function Erase(groups: Groups, keep: set<string>): Groups {
    map g | g in groups && g in keep :: groups[g]
  }

  function ErasedEntries(entries: seq<Entry>, keep: set<string>): seq<Entry> {
    seq(|entries|, i requires 0 <= i < |entries| => Entry(entries[i].id, Erase(entries[i].groups, keep)))
  }

  ghost function InGroups(keep: set<string>): Ref -> bool {
    (r: Ref) => r.RowId? || r.q.group in keep
  }

  function Itself(r: Ref): Ref {
    r
  }

  function RequiredBy(sql: string): set<string> {
    var parsed := ParsedSQL(sql);
    if parsed.Success? then Required(parsed.value) else {}
  }

  /** They are the groups the list names and those found in the WHERE, no more and no fewer. */
  lemma RequiredAre(q: Select)
    requires Parses(q)
    ensures RequiredBy(Print(q)) == NamedGroups(ParsedList(q.list)) + Elements(FoundIn(q.where))
  {
    PrintedParses(q);
    WhereRewrites(q);
    WhereIsCanonical(q);
  }

  /** Every item names its group. */
  ghost predicate Explicit(list: SelectList) {
    list.Items? && forall i :: 0 <= i < |list.items| ==> !list.items[i].Bare?
  }

  lemma {:induction false} GroupsInCover(e: Expr<QualifiedColumn>, groups: seq<string>)
    requires forall g :: g in GroupsFound(e) ==> g in groups
    ensures AllCols(e, (c: QualifiedColumn) => c.group in groups)
  {
    match e
    case Col(q) =>
      assert q.group in GroupsFound(e);
    case Lit(_, _) =>
    case Not(a) => GroupsInCover(a, groups);
    case IsNull(a) => GroupsInCover(a, groups);
    case Bin(_, l, r) => GroupsInCover(l, groups); GroupsInCover(r, groups);
  }

  lemma RequiredNamesItems(ts: TableSchema, q: Select, keep: set<string>)
    requires Parses(q) && Explicit(q.list) && NamedGroups(ParsedList(q.list)) <= keep
    ensures RefsKnown(ListRefs(ts, q.list), InGroups(keep))
  {
    var items := q.list.items;
    forall i | 0 <= i < |items| ensures RefsKnown(ItemRefs(ts, items[i]), InGroups(keep)) {
      assert ParsedList(q.list)[i] == ParsedItem(items[i]);
      assert PlainItem(items[i]);
      assert ParsedList(q.list)[i].group in NamedGroups(ParsedList(q.list));
      if items[i].GroupStar? {
        var g := items[i].group;
        forall c | c in InGroupOnly(Columns(ts), g) ensures c.group == g {
          InGroupAre(Columns(ts), g, c);
        }
      }
    }
    ItemsRefsKnown(ts, items, InGroups(keep));
  }

  lemma UsesRequired(ts: TableSchema, q: Select, keep: set<string>)
    requires Parses(q) && Explicit(q.list)
    requires keep == RequiredBy(Print(q))
    requires forall i :: 0 <= i < |q.order| ==> q.order[i].column.group in keep
    ensures Uses(ListRefs(ts, q.list), q.where, q.order, InGroups(keep))
  {
    RequiredAre(q);
    RequiredNamesItems(ts, q, keep);
    if q.where.Some? {
      var e := q.where.value;
      GroupsInCover(e, GroupsFound(e));
      forall g | g in GroupsFound(e) ensures g in keep {
        assert g in Elements(GroupsFound(e));
      }
      AllColsImplies(e, (c: QualifiedColumn) => c.group in GroupsFound(e), (c: QualifiedColumn) => InGroups(keep)(Of(c)));
    }
  }

  /** Erasing every group the query does not require leaves its answer as it is.  Required groups
    * are gathered from the select list and WHERE alone, so ORDER BY must not need others. */
  lemma RequiredGroupsSuffice(ts: TableSchema, q: Select, entries: seq<Entry>)
    requires Parses(q) && Explicit(q.list)
    requires forall i :: 0 <= i < |q.order| ==> q.order[i].column.group in RequiredBy(Print(q))
    ensures Answer(ts, q, GroupedRows(ErasedEntries(entries, RequiredBy(Print(q)))))
            == Answer(ts, q, GroupedRows(entries))
  {
    UsesRequired(ts, q, RequiredBy(Print(q)));
    KnownSuffice(ts, q, RequiredBy(Print(q)), entries);
  }

  lemma KnownSuffice(ts: TableSchema, q: Select, keep: set<string>, entries: seq<Entry>)
    requires Uses(ListRefs(ts, q.list), q.where, q.order, InGroups(keep))
    ensures Answer(ts, q, GroupedRows(ErasedEntries(entries, keep))) == Answer(ts, q, GroupedRows(entries))
  {
    var rows, rows' := GroupedRows(entries), GroupedRows(ErasedEntries(entries, keep));
    forall i | 0 <= i < |rows| ensures SameValues(Itself, rows[i], rows'[i], InGroups(keep)) {
    }
    RunAgrees(ListRefs(ts, q.list), q.where, q.order, q.limit, Itself, Qualify, rows, rows', InGroups(keep));
    assert Mapped(ListRefs(ts, q.list), Itself) == ListRefs(ts, q.list);
  }

  /** One column, sorted by another. */
  function SortedBy(x: QualifiedColumn, y: QualifiedColumn): Select {
    Select(Items([Qualified(x)]), "t", None, [OrderKey(y, false)], None)
  }

  lemma TwoRecords(a: Record, b: Record)
    requires a.keep && b.keep
    ensures Finish([a, b], [false], None) == if Before(b.keys, a.keys, [false]) then [b.output, a.output] else [a.output, b.output]
  {
    assert [a, b][..1] == [a] && [a][..0] == [];
    assert Selected([], [false]) == [];
    assert Selected([a], [false]) == [a];
    assert Selected([a, b], [false]) == Insert(b, [a], [false]);
    assert Insert(b, [a], [false]) == if Before(b.keys, a.keys, [false]) then [b, a] else [a, b];
  }

  lemma OneItem(ts: TableSchema, x: QualifiedColumn)
    ensures ListRefs(ts, Items([Qualified(x)])) == [Of(x)]
  {
    assert [Qualified(x)][..0] == [];
    assert ItemsRefs(ts, []) == [];
    assert ItemsRefs(ts, [Qualified(x)]) == [] + [Of(x)];
  }

  lemma OneRecord(x: QualifiedColumn, y: QualifiedColumn, e: Entry)
    ensures RecordOf([Of(x)], None, [OrderKey(Of(y), false)], GroupedEnv(e.id, e.groups))
            == Record(true, [Lookup(e.groups, y)], [Lookup(e.groups, x)])
  {
  }

  lemma AnswerOfTwo(ts: TableSchema, x: QualifiedColumn, y: QualifiedColumn, a: Entry, b: Entry)
    ensures Answer(ts, SortedBy(x, y), GroupedRows([a, b])) ==
            if LessV(Lookup(b.groups, y), Lookup(a.groups, y)) then [[Lookup(b.groups, x)], [Lookup(a.groups, x)]]
            else [[Lookup(a.groups, x)], [Lookup(b.groups, x)]]
  {
    var q, rows := SortedBy(x, y), GroupedRows([a, b]);
    OneItem(ts, x);
    assert MapKeys(q.order, Qualify) == [OrderKey(Of(y), false)];
    assert Directions([OrderKey(Of(y), false)]) == [false];
    var ra, rb := Record(true, [Lookup(a.groups, y)], [Lookup(a.groups, x)]), Record(true, [Lookup(b.groups, y)], [Lookup(b.groups, x)]);
    OneRecord(x, y, a);
    OneRecord(x, y, b);
    assert seq(|rows|, i requires 0 <= i < |rows| => RecordOf([Of(x)], None, [OrderKey(Of(y), false)], rows[i])) == [ra, rb];
    TwoRecords(ra, rb);
  }

  /** The groups ORDER BY needs are not among the required ones: without them two rows that
    * differ in the selected column come in the wrong order. */
  lemma OrderByGroupsAreMissing(ts: TableSchema, x: QualifiedColumn, y: QualifiedColumn, a: Entry, b: Entry)
    requires Name(x) && Name(y) && x.group != y.group
    requires LessV(Lookup(b.groups, y), Lookup(a.groups, y)) && Lookup(a.groups, x) != Lookup(b.groups, x)
    ensures var q := SortedBy(x, y);
            && RequiredBy(Print(q)) == {x.group}
            && Answer(ts, q, GroupedRows(ErasedEntries([a, b], {x.group}))) != Answer(ts, q, GroupedRows([a, b]))
  {
    var a', b' := Entry(a.id, Erase(a.groups, {x.group})), Entry(b.id, Erase(b.groups, {x.group}));
    RequiredOfSorted(x, y);
    assert ErasedEntries([a, b], {x.group}) == [a', b'];
    AnswerOfTwo(ts, x, y, a, b);
    AnswerOfTwo(ts, x, y, a', b');
  }

  function RowWith(id: string, x: QualifiedColumn, m: int, y: QualifiedColumn, n: int): Entry {
    Entry(id, map[x.group := map[x.column := Num(m)], y.group := map[y.column := Num(n)]])
  }

  lemma SortedInGroup(ts: TableSchema, x: QualifiedColumn, y: QualifiedColumn, entries: seq<Entry>)
    requires Name(x) && Name(y) && x.group == y.group
    ensures Unaffected(ts, SortedBy(x, y), entries)
  {
    RequiredOfSorted(x, y);
    SortedByIsPlain(x, y);
    RequiredGroupsSuffice(ts, SortedBy(x, y), entries);
  }

  lemma SortedElsewhere(ts: TableSchema, x: QualifiedColumn, y: QualifiedColumn)
    requires Name(x) && Name(y) && x.group != y.group
    ensures !Unaffected(ts, SortedBy(x, y), [RowWith("1", x, 1, y, 2), RowWith("2", x, 2, y, 1)])
  {
    var a, b := RowWith("1", x, 1, y, 2), RowWith("2", x, 2, y, 1);
    OrderByGroupsAreMissing(ts, x, y, a, b);
  }

  /** One column sorted by another: the required groups suffice, whatever the rows, exactly when
    * both columns are in one group. */
  lemma SortedBySufficesIff(ts: TableSchema, x: QualifiedColumn, y: QualifiedColumn)
    requires Name(x) && Name(y)
    ensures (forall entries :: Unaffected(ts, SortedBy(x, y), entries)) <==> x.group == y.group
  {
    if x.group == y.group {
      forall entries ensures Unaffected(ts, SortedBy(x, y), entries) {
        SortedInGroup(ts, x, y, entries);
      }
    } else {
      SortedElsewhere(ts, x, y);
    }
  }

  /** Erasing what is not required leaves the answer over these rows as it is. */
  ghost predicate Unaffected(ts: TableSchema, q: Select, entries: seq<Entry>) {
    UnaffectedBy(ts, q, RequiredBy(Print(q)), entries)
  }

  ghost predicate UnaffectedBy(ts: TableSchema, q: Select, keep: set<string>, entries: seq<Entry>) {
    Answer(ts, q, GroupedRows(ErasedEntries(entries, keep))) == Answer(ts, q, GroupedRows(entries))
  }

  lemma SortedByIsPlain(x: QualifiedColumn, y: QualifiedColumn)
    requires Name(x) && Name(y)
    ensures Plain(SortedBy(x, y))
  {
    assert PlainItem(Qualified(x));
  }

  lemma NamedGroupsOfOne(x: QualifiedColumn)
    requires x.group != ""
    ensures NamedGroups([x]) == {x.group}
  {
    NamedGroupsStep([x], 0);
    assert [x][..1] == [x] && NamedGroups([x][..0]) == {};
  }

  lemma RequiredOfSorted(x: QualifiedColumn, y: QualifiedColumn)
    requires Name(x) && Name(y)
    ensures RequiredBy(Print(SortedBy(x, y))) == {x.group}
  {
    var q := SortedBy(x, y);
    SortedByIsPlain(x, y);
    RequiredAre(q);
    assert ParsedList(q.list) == [x];
    NamedGroupsOfOne(x);
  }

  // ---------------------------------------------------------------------------------------

  /** SELECT list FROM t. */
  function JustList(list: SelectList): Select {
    Select(list, "t", None, [], None)
  }

  lemma JustListIsPlain(list: SelectList)
    requires PlainList(list)
    ensures Plain(JustList(list))
    ensures RequiredBy(Print(JustList(list))) == NamedGroups(ParsedList(list))
  {
    RequiredAre(JustList(list));
  }

  lemma OneRowAnswer(ts: TableSchema, list: SelectList, e: Entry)
    ensures Answer(ts, JustList(list), GroupedRows([e])) == [Mapped(ListRefs(ts, list), GroupedEnv(e.id, e.groups))]
  {
    var q, rows := JustList(list), GroupedRows([e]);
    var refs := ListRefs(ts, list);
    var r := RecordOf(refs, None, [], rows[0]);
    assert MapKeys(q.order, Qualify) == [] && Directions<Ref>([]) == [];
    assert r.output == Mapped(refs, rows[0]);
    assert seq(|rows|, i requires 0 <= i < |rows| => RecordOf(refs, None, [], rows[i])) == [r];
    OneFinish(r);
  }

  /** A row with a value in the column of a group that is erased. */
  lemma ErasedColumnShows(ts: TableSchema, list: SelectList, keep: set<string>, c: QualifiedColumn, i: nat)
    requires i < |ListRefs(ts, list)| && ListRefs(ts, list)[i] == Of(c) && c.group !in keep
    ensures !UnaffectedBy(ts, JustList(list), keep, [Entry("1", map[c.group := map[c.column := Num(1)]])])
  {
    var e := Entry("1", map[c.group := map[c.column := Num(1)]]);
    var e' := Entry(e.id, Erase(e.groups, keep));
    assert ErasedEntries([e], keep) == [e'];
    OneRowAnswer(ts, list, e);
    OneRowAnswer(ts, list, e');
    var refs := ListRefs(ts, list);
    assert Mapped(refs, GroupedEnv(e.id, e.groups))[i] == Num(1);
    assert Mapped(refs, GroupedEnv(e'.id, e'.groups))[i] == Null;
  }

  /** For a list alone, some groups suffice whatever the rows exactly when every column it stands for
    * is in one of them. */
  lemma KeepSufficesIff(ts: TableSchema, list: SelectList, keep: set<string>)
    ensures (forall entries :: UnaffectedBy(ts, JustList(list), keep, entries)) <==> RefsKnown(ListRefs(ts, list), InGroups(keep))
  {
    var refs := ListRefs(ts, list);
    if RefsKnown(refs, InGroups(keep)) {
      forall entries ensures UnaffectedBy(ts, JustList(list), keep, entries) {
        KnownSuffice(ts, JustList(list), keep, entries);
      }
    } else {
      var i :| 0 <= i < |refs| && !InGroups(keep)(refs[i]);
      ErasedColumnShows(ts, list, keep, refs[i].q, i);
    }
  }

  /** `*` and unqualified names require no group: they fail as soon as they stand for a column. */
  lemma UngroupedListsFail(ts: TableSchema, list: SelectList)
    requires PlainList(list) && (list.Items? ==> forall i :: 0 <= i < |list.items| ==> list.items[i].Bare?)
    ensures RequiredBy(Print(JustList(list))) == {}
    ensures (forall entries :: UnaffectedBy(ts, JustList(list), {}, entries))
            <==> forall i :: 0 <= i < |ListRefs(ts, list)| ==> ListRefs(ts, list)[i] == RowId
  {
    JustListIsPlain(list);
    NoGroupNamed(list);
    KeepSufficesIff(ts, list, {});
    OnlyRowIds(ListRefs(ts, list));
  }

  lemma NoGroupNamed(list: SelectList)
    requires list.Items? ==> forall i :: 0 <= i < |list.items| ==> list.items[i].Bare?
    ensures NamedGroups(ParsedList(list)) == {}
  {
    assert forall i :: 0 <= i < |ParsedList(list)| ==> ParsedList(list)[i].group == "";
  }

  lemma OnlyRowIds(refs: seq<Ref>)
    ensures RefsKnown(refs, InGroups({})) <==> forall i :: 0 <= i < |refs| ==> refs[i] == RowId
  {
  }
}
