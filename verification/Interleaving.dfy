/** Row operations of many rows interleaved: single file writes, file reads, DuckDB DELETE and
  * DuckDB INSERT are the atomic steps, and at most one operation is in flight per row.
  * pkg/engine/engine.go takes no lock across the two stores.  No SQL statement writes to DuckDB
  * meanwhile; TwoStores shows what one may do. */
module Interleaving {
  import opened Wrappers
  import opened Schema
  import opened Rows
  import opened Assembler
  import opened Loader

  datatype FileStep =
    | Mkdir
    | Exists                                  // UpdateRow's check: stop when there is no such row
    | Put(group: string, data: GroupData)
    | Patch(group: string, data: GroupData)   // read, lay over, write back

  /** How far an operation on one row has come. */
  datatype Progress =
    | Writing(todo: seq<FileStep>)
    | Reading(names: seq<string>, snapshot: Groups)
    | Deleting(snapshot: Groups)
    | Inserting(snapshot: Groups)
    | Removing
    | Dropping

  /** `failed` are the rows whose last operation stopped on an error. */
  datatype State = State(files: map<string, Groups>, table: map<string, FlatRow>, ops: map<string, Progress>, failed: set<string>)

  datatype Event = Begin(id: string, op: Progress) | Step(id: string) | Fail(id: string)

  predicate IsWrite(f: FileStep) {
    f.Put? || f.Patch?
  }

  predicate AllWrites(todo: seq<FileStep>) {
    forall i :: 0 <= i < |todo| ==> IsWrite(todo[i])
  }

  /** InsertRow and UpdateColumnGroup start by making the directory, UpdateRow by looking for it,
    * DeleteRow by removing it. */
  predicate StartsWell(op: Progress) {
    op.Removing? || (op.Writing? && op.todo != [] && !IsWrite(op.todo[0]) && AllWrites(op.todo[1..]))
  }

  predicate Enabled(s: State, e: Event) {
    match e
    case Begin(id, op) => id !in s.ops && StartsWell(op)
    case Step(id) => id in s.ops
    case Fail(id) => id in s.ops
  }

  function Names(ts: TableSchema): seq<string> {
    seq(|ts.columnGroups|, i requires 0 <= i < |ts.columnGroups| => ts.columnGroups[i].name)
  }

  function Stop(s: State, id: string): State {
    s.(ops := s.ops - {id}, failed := s.failed + {id})
  }

  function Finish(s: State, id: string): State {
    s.(ops := s.ops - {id}, failed := s.failed - {id})
  }

  function At(s: State, id: string, op: Progress): State {
    s.(ops := s.ops[id := op])
  }

  function DoFile(ts: TableSchema, s: State, id: string, todo: seq<FileStep>): State {
    if todo == [] then At(s, id, Reading(Names(ts), map[]))
    else
      var groups := if id in s.files then s.files[id] else map[];
      match todo[0]
      case Mkdir => At(s.(files := s.files[id := groups]), id, Writing(todo[1..]))
      case Exists => if id in s.files then At(s, id, Writing(todo[1..])) else s.(ops := s.ops - {id})
      case Put(g, data) => At(s.(files := s.files[id := groups[g := data]]), id, Writing(todo[1..]))
      case Patch(g, data) =>
        At(s, id, Writing([Put(g, (if g in groups then groups[g] else map[]) + data)] + todo[1..]))
  }

  /** One atomic step of the operation on `id`. */
  ghost function Advance(ts: TableSchema, s: State, id: string): State
    requires FlatDistinct(ts) && id in s.ops
  {
    match s.ops[id]
    case Writing(todo) => DoFile(ts, s, id, todo)
    case Reading(names, snapshot) =>
      if names == [] then At(s, id, Deleting(snapshot))
      else
        var found := id in s.files && names[0] in s.files[id];
        At(s, id, Reading(names[1..], if found then snapshot[names[0] := s.files[id][names[0]]] else snapshot))
    case Deleting(snapshot) => At(s.(table := s.table - {id}), id, Inserting(snapshot))
    case Inserting(snapshot) =>
      if id in s.table || !Conforms(ts, snapshot) then Stop(s, id)
      else Finish(s.(table := s.table[id := Flatten(ts, snapshot)]), id)
    case Removing => At(s.(files := s.files - {id}), id, Dropping)
    case Dropping => Finish(s.(table := s.table - {id}), id)
  }

  ghost function Next(ts: TableSchema, s: State, e: Event): State
    requires FlatDistinct(ts) && Enabled(s, e)
  {
    match e
    case Begin(id, op) => At(s, id, op)
    case Step(id) => Advance(ts, s, id)
    case Fail(id) => Stop(s, id)
  }

  /** Everything that concerns one row. */
  datatype RowState = RowState(files: Option<Groups>, row: Option<FlatRow>, op: Option<Progress>, failed: bool)

  function RowOf(s: State, id: string): RowState {
    RowState(if id in s.files then Some(s.files[id]) else None,
             if id in s.table then Some(s.table[id]) else None,
             if id in s.ops then Some(s.ops[id]) else None,
             id in s.failed)
  }

  /** DuckDB has the row exactly when the files have it, and then flattened. */
  ghost predicate Agrees(ts: TableSchema, r: RowState)
    requires FlatDistinct(ts)
  {
    if r.files.Some? then r.row == Some(Flatten(ts, r.files.value)) else r.row.None?
  }

  /** What has been read so far is what the files still say. */
  ghost predicate Faithful(ts: TableSchema, stored: Groups, names: seq<string>, snapshot: Groups) {
    && (forall g :: g in names ==> g in GroupNames(ts))
    && (forall g :: g in snapshot ==> g in GroupNames(ts) && g in stored && snapshot[g] == stored[g])
    && (forall g :: g in GroupNames(ts) && g in stored && g !in names ==> g in snapshot)
  }

  ghost predicate RowInv(ts: TableSchema, r: RowState)
    requires FlatDistinct(ts)
  {
    match r.op
    case None => r.failed || Agrees(ts, r)
    case Some(Writing(todo)) =>
      if todo != [] && !IsWrite(todo[0]) then AllWrites(todo[1..]) && (r.failed || Agrees(ts, r))
      else AllWrites(todo) && r.files.Some?
    case Some(Reading(names, snapshot)) => r.files.Some? && Faithful(ts, r.files.value, names, snapshot)
    case Some(Deleting(snapshot)) => r.files.Some? && snapshot == Known(GroupNames(ts), r.files.value)
    case Some(Inserting(snapshot)) => r.files.Some? && snapshot == Known(GroupNames(ts), r.files.value) && r.row.None?
    case Some(Removing) => true
    case Some(Dropping) => r.files.None?
  }

  ghost predicate Inv(ts: TableSchema, s: State)
    requires FlatDistinct(ts)
  {
    forall id :: RowInv(ts, RowOf(s, id))
  }

  lemma NamesAreTheGroups(ts: TableSchema)
    ensures forall g :: g in Names(ts) <==> g in GroupNames(ts)
  {
    forall g | g in GroupNames(ts) ensures g in Names(ts) {
      var i :| 0 <= i < |ts.columnGroups| && ts.columnGroups[i].name == g;
      assert Names(ts)[i] == g;
    }
  }

  lemma FileStepsAreLocal(ts: TableSchema, s: State, id: string, todo: seq<FileStep>, other: string)
    requires other != id
    ensures RowOf(DoFile(ts, s, id, todo), other) == RowOf(s, other)
  {
  }

  /** A step of one row leaves every other row as it is. */
  lemma StepsAreLocal(ts: TableSchema, s: State, e: Event, other: string)
    requires FlatDistinct(ts) && Enabled(s, e) && other != e.id
    ensures RowOf(Next(ts, s, e), other) == RowOf(s, other)
  {
    if e.Step? {
      match s.ops[e.id]
      case Writing(todo) => FileStepsAreLocal(ts, s, e.id, todo, other);
      case Reading(_, _) =>
      case Deleting(_) =>
      case Inserting(_) =>
      case Removing =>
      case Dropping =>
    }
  }

  lemma FileStepKeepsRow(ts: TableSchema, s: State, id: string)
    requires FlatDistinct(ts) && id in s.ops && s.ops[id].Writing? && RowInv(ts, RowOf(s, id))
    ensures RowInv(ts, RowOf(Advance(ts, s, id), id))
  {
    var todo := s.ops[id].todo;
    if todo == [] {
      NamesAreTheGroups(ts);
    } else {
      assert AllWrites(todo[1..]);
      assert todo[1..] != [] ==> IsWrite(todo[1..][0]);
      if todo[0].Patch? {
        var t := Advance(ts, s, id).ops[id].todo;
        assert t[1..] == todo[1..];
        assert AllWrites(t);
      }
    }
  }

  lemma ReadStepKeepsRow(ts: TableSchema, s: State, id: string)
    requires FlatDistinct(ts) && id in s.ops && s.ops[id].Reading? && RowInv(ts, RowOf(s, id))
    ensures RowInv(ts, RowOf(Advance(ts, s, id), id))
  {
    var names, snapshot, stored := s.ops[id].names, s.ops[id].snapshot, s.files[id];
    if names == [] {
      assert snapshot == Known(GroupNames(ts), stored);
    } else {
      assert forall g :: g in names <==> g == names[0] || g in names[1..];
      assert Faithful(ts, stored, names[1..], if names[0] in stored then snapshot[names[0] := stored[names[0]]] else snapshot);
    }
  }

  lemma DuckStepKeepsRow(ts: TableSchema, s: State, id: string)
    requires FlatDistinct(ts) && id in s.ops && !s.ops[id].Writing? && !s.ops[id].Reading? && RowInv(ts, RowOf(s, id))
    ensures RowInv(ts, RowOf(Advance(ts, s, id), id))
  {
    if s.ops[id].Inserting? {
      FlattenKnown(ts, s.files[id]);
    }
  }

  lemma StepKeepsInv(ts: TableSchema, s: State, e: Event)
    requires FlatDistinct(ts) && Enabled(s, e) && Inv(ts, s)
    ensures Inv(ts, Next(ts, s, e))
  {
    forall id ensures RowInv(ts, RowOf(Next(ts, s, e), id)) {
      assert RowInv(ts, RowOf(s, id));
      if id != e.id {
        StepsAreLocal(ts, s, e, id);
      } else if e.Step? {
        if s.ops[id].Writing? {
          FileStepKeepsRow(ts, s, id);
        } else if s.ops[id].Reading? {
          ReadStepKeepsRow(ts, s, id);
        } else {
          DuckStepKeepsRow(ts, s, id);
        }
      }
    }
  }

  ghost predicate Run(ts: TableSchema, states: seq<State>, events: seq<Event>)
    requires FlatDistinct(ts)
  {
    && |states| == |events| + 1
    && states[0].ops == map[] && (forall id :: Agrees(ts, RowOf(states[0], id)))
    && forall i :: 0 <= i < |events| ==> Enabled(states[i], events[i]) && states[i + 1] == Next(ts, states[i], events[i])
  }

  lemma {:induction false} InvOverRun(ts: TableSchema, states: seq<State>, events: seq<Event>, n: nat)
    requires FlatDistinct(ts) && Run(ts, states, events) && n < |states|
    ensures Inv(ts, states[n])
  {
    if n > 0 {
      InvOverRun(ts, states, events, n - 1);
      StepKeepsInv(ts, states[n - 1], events[n - 1]);
    }
  }

  /** In every reachable state the two stores agree on every row that is neither in flight nor
    * left by a failed operation, however the operations of different rows are interleaved. */
  lemma SettledRowsAgree(ts: TableSchema, states: seq<State>, events: seq<Event>, n: nat, id: string)
    requires FlatDistinct(ts) && Run(ts, states, events) && n < |states|
    requires id !in states[n].ops && id !in states[n].failed
    ensures Agrees(ts, RowOf(states[n], id))
  {
    InvOverRun(ts, states, events, n);
    assert RowInv(ts, RowOf(states[n], id));
  }

  /** When nothing is in flight and nothing has failed, DuckDB is the flattened files. */
  lemma QuiescentStoresAgree(ts: TableSchema, states: seq<State>, events: seq<Event>, n: nat)
    requires FlatDistinct(ts) && Run(ts, states, events) && n < |states|
    requires states[n].ops == map[] && states[n].failed == {}
    ensures states[n].table == map id | id in states[n].files :: Flatten(ts, states[n].files[id])
  {
    var s := states[n];
    forall id ensures Agrees(ts, RowOf(s, id)) {
      SettledRowsAgree(ts, states, events, n, id);
    }
    forall id ensures id in s.table <==> id in s.files {
      assert Agrees(ts, RowOf(s, id));
    }
    forall id | id in s.table ensures s.table[id] == Flatten(ts, s.files[id]) {
      assert Agrees(ts, RowOf(s, id));
    }
  }

  /** DuckDB's INSERT never meets a row of the same id: the DELETE before it still holds. */
  lemma InsertNeverCollides(ts: TableSchema, states: seq<State>, events: seq<Event>, n: nat, id: string)
    requires FlatDistinct(ts) && Run(ts, states, events) && n < |states|
    requires id in states[n].ops && states[n].ops[id].Inserting?
    ensures id !in states[n].table
  {
    InvOverRun(ts, states, events, n);
    assert RowInv(ts, RowOf(states[n], id));
  }

  /** A write or delete that reaches its end repairs its row, whatever state an earlier failure
    * had left it in. */
  lemma CompletionRepairs(ts: TableSchema, states: seq<State>, events: seq<Event>, n: nat, id: string)
    requires FlatDistinct(ts) && Run(ts, states, events) && n < |events|
    requires events[n] == Step(id)
    requires states[n].ops[id].Dropping? || (states[n].ops[id].Inserting? && Conforms(ts, states[n].ops[id].snapshot))
    ensures id !in states[n + 1].ops && id !in states[n + 1].failed && Agrees(ts, RowOf(states[n + 1], id))
  {
    assert id in states[n].ops;
    if states[n].ops[id].Inserting? {
      InsertNeverCollides(ts, states, events, n, id);
    }
    SettledRowsAgree(ts, states, events, n + 1, id);
  }
}
