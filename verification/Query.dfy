/** SELECT statements as trees: over qualified columns, as users write them, and over flat
  * column names, as DuckDB runs them.  Printing and meaning. */
module Query {
  import opened Wrappers
  import opened Schema
  import opened Rows
  import opened Text

  datatype Op = Eq | Ne | Lt | Le | Gt | Ge | And | Or | Add | Sub | Mul

  /** `C` is the kind of column reference; a literal is its text and the value that denotes. */
  datatype Expr<C> =
    | Col(column: C)
    | Lit(text: string, value: Value)
    | Not(arg: Expr<C>)
    | IsNull(arg: Expr<C>)
    | Bin(op: Op, left: Expr<C>, right: Expr<C>)

  datatype OrderKey<C> = OrderKey(column: C, descending: bool)

  datatype Item = Qualified(q: QualifiedColumn) | GroupStar(group: string) | Bare(name: string)

  datatype SelectList = Star | Items(items: seq<Item>)

  datatype Select = Select(list: SelectList, table: string, where: Option<Expr<QualifiedColumn>>,
                           order: seq<OrderKey<QualifiedColumn>>, limit: Option<nat>)

  datatype FlatSelect = FlatSelect(columns: seq<string>, table: string, where: Option<Expr<string>>,
                                   order: seq<OrderKey<string>>, limit: Option<nat>)

  // ---------------------------------------------------------------------------------------
  // Printing

  function OpText(op: Op): string {
    match op
    case Eq => "=" case Ne => "<>" case Lt => "<" case Le => "<=" case Gt => ">" case Ge => ">="
    case And => "AND" case Or => "OR" case Add => "+" case Sub => "-" case Mul => "*"
  }

  function Show<C>(e: Expr<C>, name: C -> string): string {
    match e
    case Col(c) => name(c)
    case Lit(text, _) => text
    case Not(a) => "(NOT " + Show(a, name) + ")"
    case IsNull(a) => "(" + Show(a, name) + " IS NULL)"
    case Bin(op, l, r) => "(" + Show(l, name) + (" " + OpText(op) + " ") + Show(r, name) + ")"
  }

  function Digit(d: nat): char
    requires d < 10
  {
    ('0' as int + d) as char
  }

  function Digits(n: nat): string {
    (if n < 10 then "" else Digits(n / 10)) + [Digit(n % 10)]
  }

  function KeyText<C>(k: OrderKey<C>, name: C -> string): string {
    name(k.column) + if k.descending then " DESC" else ""
  }

  function KeysText<C>(order: seq<OrderKey<C>>, name: C -> string): string
    requires order != []
  {
    var last := KeyText(order[|order| - 1], name);
    if |order| == 1 then last else KeysText(order[..|order| - 1], name) + ", " + last
  }

  function LimitText(limit: Option<nat>): string {
    if limit.None? then "" else " LIMIT " + Digits(limit.value)
  }

  function TailText<C>(order: seq<OrderKey<C>>, limit: Option<nat>, name: C -> string): string {
    (if order == [] then "" else " ORDER BY " + KeysText(order, name)) + LimitText(limit)
  }

  function DottedName(q: QualifiedColumn): string {
    q.group + "." + q.column
  }

  function FlatName(q: QualifiedColumn): string {
    q.FlatName()
  }

  function Same(name: string): string {
    name
  }

  function ItemText(item: Item): string {
    match item
    case Qualified(q) => DottedName(q)
    case GroupStar(g) => g + ".*"
    case Bare(name) => name
  }

  function ItemTexts(items: seq<Item>): seq<string> {
    seq(|items|, i requires 0 <= i < |items| => ItemText(items[i]))
  }

  function ListText(list: SelectList): string {
    if list.Star? then "*" else Join(ItemTexts(list.items), ", ")
  }

  function WhereOrEmpty<C>(where: Option<Expr<C>>, name: C -> string): string {
    if where.None? then "" else Show(where.value, name)
  }

  function MapCols<C, D>(e: Expr<C>, f: C -> D): Expr<D> {
    match e
    case Col(c) => Col(f(c))
    case Lit(text, value) => Lit(text, value)
    case Not(a) => Not(MapCols(a, f))
    case IsNull(a) => IsNull(MapCols(a, f))
    case Bin(op, l, r) => Bin(op, MapCols(l, f), MapCols(r, f))
  }

  function MapKeys<C, D>(order: seq<OrderKey<C>>, f: C -> D): seq<OrderKey<D>> {
    seq(|order|, i requires 0 <= i < |order| => OrderKey(f(order[i].column), order[i].descending))
  }

  predicate AllCols<C>(e: Expr<C>, p: C -> bool) {
    match e
    case Col(c) => p(c)
    case Lit(_, _) => true
    case Not(a) => AllCols(a, p)
    case IsNull(a) => AllCols(a, p)
    case Bin(_, l, r) => AllCols(l, p) && AllCols(r, p)
  }

  // ---------------------------------------------------------------------------------------
  // Meaning: SQL's three-valued logic over some environment

  function AndV(a: Value, b: Value): Value {
    if a == Bool(false) || b == Bool(false) then Bool(false)
    else if a == Bool(true) && b == Bool(true) then Bool(true)
    else Null
  }

  function NotV(a: Value): Value {
    if a.Bool? then Bool(!a.b) else Null
  }

  predicate TextLess(a: string, b: string) {
    if b == "" then false
    else if a == "" then true
    else a[0] < b[0] || (a[0] == b[0] && TextLess(a[1..], b[1..]))
  }

  predicate LessV(a: Value, b: Value) {
    match (a, b)
    case (Num(m), Num(n)) => m < n
    case (Text(s), Text(t)) => TextLess(s, t)
    case (Bool(p), Bool(q)) => !p && q
    case _ => false
  }

  predicate Comparable(a: Value, b: Value) {
    (a.Num? && b.Num?) || (a.Text? && b.Text?) || (a.Bool? && b.Bool?)
  }

  function Apply(op: Op, a: Value, b: Value): Value {
    match op
    case And => AndV(a, b)
    case Or => NotV(AndV(NotV(a), NotV(b)))
    case Add => if a.Num? && b.Num? then Num(a.n + b.n) else Null
    case Sub => if a.Num? && b.Num? then Num(a.n - b.n) else Null
    case Mul => if a.Num? && b.Num? then Num(a.n * b.n) else Null
    case _ =>
      if !Comparable(a, b) then Null
      else match op
        case Eq => Bool(a == b)
        case Ne => Bool(a != b)
        case Lt => Bool(LessV(a, b))
        case Le => Bool(!LessV(b, a))
        case Gt => Bool(LessV(b, a))
        case _ => Bool(!LessV(a, b))
  }

  function Eval<C>(e: Expr<C>, env: C -> Value): Value {
    match e
    case Col(c) => env(c)
    case Lit(_, value) => value
    case Not(a) => NotV(Eval(a, env))
    case IsNull(a) => Bool(Eval(a, env) == Null)
    case Bin(op, l, r) => Apply(op, Eval(l, env), Eval(r, env))
  }

  /** What one row contributes: whether it is selected, its sort keys, and its output. */
  datatype Record = Record(keep: bool, keys: seq<Value>, output: seq<Value>)

  function RecordOf<C>(columns: seq<C>, where: Option<Expr<C>>, order: seq<OrderKey<C>>, env: C -> Value): Record {
    Record(where.None? || Eval(where.value, env) == Bool(true),
           seq(|order|, i requires 0 <= i < |order| => env(order[i].column)),
           seq(|columns|, i requires 0 <= i < |columns| => env(columns[i])))
  }

  /** Whether a row with keys `a` must come before one with keys `b`. */
  predicate Before(a: seq<Value>, b: seq<Value>, descending: seq<bool>) {
    if a == [] || b == [] || descending == [] then false
    else if LessV(a[0], b[0]) then !descending[0]
    else if LessV(b[0], a[0]) then descending[0]
    else Before(a[1..], b[1..], descending[1..])
  }

  function Insert(r: Record, sorted: seq<Record>, descending: seq<bool>): seq<Record> {
    if sorted == [] then [r]
    else if Before(r.keys, sorted[|sorted| - 1].keys, descending) then
      Insert(r, sorted[..|sorted| - 1], descending) + [sorted[|sorted| - 1]]
    else sorted + [r]
  }

  function Selected(records: seq<Record>, descending: seq<bool>): seq<Record> {
    if records == [] then []
    else
      var front, last := Selected(records[..|records| - 1], descending), records[|records| - 1];
      if last.keep then Insert(last, front, descending) else front
  }

  /** Select, sort, cut off, project. */
  function Finish(records: seq<Record>, descending: seq<bool>, limit: Option<nat>): seq<seq<Value>> {
    var rows := Selected(records, descending);
    var n := if limit.Some? && limit.value < |rows| then limit.value else |rows|;
    seq(n, i requires 0 <= i < n => rows[i].output)
  }

  function Directions<C>(order: seq<OrderKey<C>>): seq<bool> {
    seq(|order|, i requires 0 <= i < |order| => order[i].descending)
  }

  /** The statement evaluated over rows given by their environments, in scan order. */
  function Run<C>(columns: seq<C>, where: Option<Expr<C>>, order: seq<OrderKey<C>>, limit: Option<nat>,
                  rows: seq<C -> Value>): seq<seq<Value>> {
    Finish(seq(|rows|, i requires 0 <= i < |rows| => RecordOf(columns, where, order, rows[i])), Directions(order), limit)
  }

  // ---------------------------------------------------------------------------------------

  /** A source column: the row id, or a column of a group. */
  datatype Ref = RowId | Of(q: QualifiedColumn)

  function FlatRef(r: Ref): string {
    if r.RowId? then ROW_ID else r.q.FlatName()
  }

  function Qualify(q: QualifiedColumn): Ref {
    Of(q)
  }

  function GroupedEnv(id: string, groups: Groups): Ref -> Value {
    (r: Ref) => if r.RowId? then Text(id) else Lookup(groups, r.q)
  }

  function FlatEnv(id: string, row: FlatRow): string -> Value {
    (name: string) => if name == ROW_ID then Text(id) else if name in row then row[name] else Null
  }

  lemma {:induction false} EvalMapCols<C, D>(e: Expr<C>, f: C -> D, env: C -> Value, env': D -> Value, p: C -> bool)
    requires AllCols(e, p)
    requires forall c :: p(c) ==> env'(f(c)) == env(c)
    ensures Eval(MapCols(e, f), env') == Eval(e, env)
  {
    match e
    case Col(_) =>
    case Lit(_, _) =>
    case Not(a) => EvalMapCols(a, f, env, env', p);
    case IsNull(a) => EvalMapCols(a, f, env, env', p);
    case Bin(_, l, r) =>
      EvalMapCols(l, f, env, env', p);
      EvalMapCols(r, f, env, env', p);
  }
}
