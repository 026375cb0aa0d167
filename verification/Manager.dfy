/** Table schemas, cached over the schema files on disk: pkg/colgroup/manager.go. */
module Manager {
  import opened Wrappers
  import opened Schema

  type Catalog = map<string, TableSchema>

  datatype Op =
    | CreateTable(schema: TableSchema, now: int)
    | GetTable(name: string)
    | UpdateSchema(schema: TableSchema, now: int)
    | DropTable(name: string)

  datatype Outcome = Failed | Done | Found(schema: TableSchema)

  /** One call; `fault` says that a file operation fails in it. */
  datatype Call = Call(op: Op, fault: bool)

  datatype State = State(disk: Catalog, cache: Catalog)

  datatype Step<S> = Step(state: S, outcome: Outcome)

  /** Every cached schema is the one on disk. */
  ghost predicate Coherent(s: State) {
    forall name :: name in s.cache ==> name in s.disk && s.cache[name] == s.disk[name]
  }

  function Stamped(schema: TableSchema, now: int): TableSchema {
    schema.(updatedAt := now)
  }

  function Stored(s: State, schema: TableSchema): State {
    State(s.disk[schema.name := schema], s.cache[schema.name := schema])
  }

  /** What a call does, cache and all. */
  ghost function Next(s: State, call: Call): Step<State> {
    match call.op
    case CreateTable(schema, now) =>
      if !WellFormed(schema) || schema.name in s.cache || call.fault || schema.name in s.disk then Step(s, Failed)
      else Step(Stored(s, Stamped(schema, now)), Done)
    case GetTable(name) =>
      if name in s.cache then Step(s, Found(s.cache[name]))
      else if call.fault || name !in s.disk then Step(s, Failed)
      else Step(s.(cache := s.cache[name := s.disk[name]]), Found(s.disk[name]))
    case UpdateSchema(schema, now) =>
      if !WellFormed(schema) || call.fault || schema.name !in s.disk then Step(s, Failed)
      else Step(Stored(s, Stamped(schema, now)), Done)
    case DropTable(name) =>
      if call.fault then Step(s.(cache := s.cache - {name}), Failed)
      else Step(State(s.disk - {name}, s.cache - {name}), Done)
  }

  /** What it would do without a cache. */
  ghost function Uncached(disk: Catalog, call: Call): Step<Catalog> {
    match call.op
    case CreateTable(schema, now) =>
      if !WellFormed(schema) || call.fault || schema.name in disk then Step(disk, Failed)
      else Step(disk[schema.name := Stamped(schema, now)], Done)
    case GetTable(name) =>
      if call.fault || name !in disk then Step(disk, Failed) else Step(disk, Found(disk[name]))
    case UpdateSchema(schema, now) =>
      if !WellFormed(schema) || call.fault || schema.name !in disk then Step(disk, Failed)
      else Step(disk[schema.name := Stamped(schema, now)], Done)
    case DropTable(name) =>
      if call.fault then Step(disk, Failed) else Step(disk - {name}, Done)
  }

  /** The schema directory tree.  Every operation may fail, and then it changes nothing. */
  class SchemaFiles {
    var files: Catalog
    ghost var trouble: bool  // an operation has failed

    method Exists(name: string) returns (found: Option<bool>)
      modifies this`trouble
      ensures old(trouble) || found.None? ==> trouble
      ensures found.Some? ==> (found.value <==> name in files)
    {
      if * {
        trouble := true;
        return None;
      }
      return Some(name in files);
    }

    method MkdirAll(name: string) returns (ok: bool)
      modifies this`trouble
      ensures old(trouble) || !ok ==> trouble
    {
      ok := *;
      trouble := trouble || !ok;
    }

    method WriteJSON(name: string, schema: TableSchema) returns (ok: bool)
      modifies this
      ensures old(trouble) || !ok ==> trouble
      ensures files == if ok then old(files)[name := schema] else old(files)
    {
      ok := *;
      trouble := trouble || !ok;
      if ok {
        files := files[name := schema];
      }
    }

    method ReadJSON(name: string) returns (schema: Option<TableSchema>, ghost fault: bool)
      modifies this`trouble
      ensures old(trouble) || fault ==> trouble
      ensures schema == if fault || name !in files then None else Some(files[name])
      ensures schema.Some? ==> name in files && schema.value == files[name]
    {
      if * {
        trouble := true;
        return None, true;
      }
      return (if name in files then Some(files[name]) else None), false;
    }

    method DeleteDir(name: string) returns (ok: bool)
      modifies this
      ensures old(trouble) || !ok ==> trouble
      ensures files == if ok then old(files) - {name} else old(files)
    {
      ok := *;
      trouble := trouble || !ok;
      if ok {
        files := files - {name};
      }
    }
  }

  class Manager {
    const storage: SchemaFiles
    var schemas: Catalog

    constructor (storage: SchemaFiles)
      ensures this.storage == storage && schemas == map[] && Coherent(Current())
    {
      this.storage := storage;
      this.schemas := map[];
    }

    ghost function Current(): State
      reads this, storage
    {
      State(storage.files, schemas)
    }

    method CreateTable(schema: TableSchema, now: int) returns (ok: bool, ghost fault: bool)
      modifies this, storage
      ensures old(storage.trouble) || fault ==> storage.trouble
      ensures Step(Current(), if ok then Done else Failed) == Next(old(Current()), Call(Op.CreateTable(schema, now), fault))
    {
      fault := false;
      var invalid := schema.Validate();
      if invalid.Some? || schema.name in schemas {
        return false, fault;
      }
      var found := storage.Exists(schema.name);
      if found.None? {
        return false, true;
      }
      if found.value {
        return false, fault;
      }
      var stamped := schema.(updatedAt := now);
      ok := storage.MkdirAll(schema.name);
      if !ok {
        return false, true;
      }
      ok := storage.WriteJSON(schema.name, stamped);
      if !ok {
        return false, true;
      }
      schemas := schemas[schema.name := stamped];
    }

    method GetTable(tableName: string) returns (schema: Option<TableSchema>, ghost fault: bool)
      modifies this, storage`trouble
      ensures old(storage.trouble) || fault ==> storage.trouble
      ensures Step(Current(), if schema.Some? then Found(schema.value) else Failed)
              == Next(old(Current()), Call(Op.GetTable(tableName), fault))
    {
      if tableName in schemas {
        return Some(schemas[tableName]), false;
      }
      schema, fault := storage.ReadJSON(tableName);
      if schema.Some? {
        schemas := schemas[tableName := schema.value];
      }
    }

    method DropTable(tableName: string) returns (ok: bool, ghost fault: bool)
      modifies this, storage
      ensures old(storage.trouble) || fault ==> storage.trouble
      ensures Step(Current(), if ok then Done else Failed) == Next(old(Current()), Call(Op.DropTable(tableName), fault))
    {
      schemas := schemas - {tableName};
      ok := storage.DeleteDir(tableName);
      fault := !ok;
    }

    method UpdateSchema(schema: TableSchema, now: int) returns (ok: bool, ghost fault: bool)
      modifies this, storage
      ensures old(storage.trouble) || fault ==> storage.trouble
      ensures Step(Current(), if ok then Done else Failed) == Next(old(Current()), Call(Op.UpdateSchema(schema, now), fault))
    {
      fault := false;
      var invalid := schema.Validate();
      if invalid.Some? {
        return false, fault;
      }
      var found := storage.Exists(schema.name);
      if found.None? {
        return false, true;
      }
      if !found.value {
        return false, fault;
      }
      var stamped := schema.(updatedAt := now);
      ok := storage.WriteJSON(schema.name, stamped);
      if !ok {
        return false, true;
      }
      schemas := schemas[schema.name := stamped];
    }
  }

  // ---------------------------------------------------------------------------------------
  // Whole runs

  ghost function Final(s: State, calls: seq<Call>): State {
    if calls == [] then s else Next(Final(s, calls[..|calls| - 1]), calls[|calls| - 1]).state
  }

  ghost function Outcomes(s: State, calls: seq<Call>): seq<Outcome> {
    if calls == [] then []
    else
      var front := calls[..|calls| - 1];
      Outcomes(s, front) + [Next(Final(s, front), calls[|calls| - 1]).outcome]
  }

  ghost function UncachedFinal(disk: Catalog, calls: seq<Call>): Catalog {
    if calls == [] then disk else Uncached(UncachedFinal(disk, calls[..|calls| - 1]), calls[|calls| - 1]).state
  }

  ghost function UncachedOutcomes(disk: Catalog, calls: seq<Call>): seq<Outcome> {
    if calls == [] then []
    else
      var front := calls[..|calls| - 1];
      UncachedOutcomes(disk, front) + [Uncached(UncachedFinal(disk, front), calls[|calls| - 1]).outcome]
  }

  /** The call as the disk sees it: a cached schema is read without a fault. */
  function Spared(s: State, call: Call): Call {
    if call.op.GetTable? && call.op.name in s.cache then call.(fault := false) else call
  }

  ghost function SparedRun(s: State, calls: seq<Call>): seq<Call> {
    if calls == [] then []
    else
      var front := calls[..|calls| - 1];
      SparedRun(s, front) + [Spared(Final(s, front), calls[|calls| - 1])]
  }

  lemma StepIsUncached(s: State, call: Call)
    requires Coherent(s)
    ensures Coherent(Next(s, call).state)
    ensures Uncached(s.disk, Spared(s, call)) == Step(Next(s, call).state.disk, Next(s, call).outcome)
  {
  }

  /** Over every run the cache stays coherent, and no outcome and nothing on disk tells the
    * manager from one that reads the disk every time, but for reads it spares from a fault. */
  lemma {:induction false} CacheIsInvisible(s: State, calls: seq<Call>)
    requires Coherent(s)
    ensures Coherent(Final(s, calls))
    ensures Final(s, calls).disk == UncachedFinal(s.disk, SparedRun(s, calls))
    ensures Outcomes(s, calls) == UncachedOutcomes(s.disk, SparedRun(s, calls))
    ensures |SparedRun(s, calls)| == |calls|
  {
    if calls != [] {
      var front := calls[..|calls| - 1];
      CacheIsInvisible(s, front);
      StepIsUncached(Final(s, front), calls[|calls| - 1]);
      assert SparedRun(s, calls)[..|calls| - 1] == SparedRun(s, front);
    }
  }

  lemma {:induction false} SparedOnlyFaults(s: State, calls: seq<Call>)
    requires forall i :: 0 <= i < |calls| ==> !calls[i].fault
    ensures SparedRun(s, calls) == calls
  {
    if calls != [] {
      SparedOnlyFaults(s, calls[..|calls| - 1]);
    }
  }

  /** Without faults there is no difference at all. */
  lemma CacheIsInvisibleWithoutFaults(s: State, calls: seq<Call>)
    requires Coherent(s) && forall i :: 0 <= i < |calls| ==> !calls[i].fault
    ensures Outcomes(s, calls) == UncachedOutcomes(s.disk, calls) && Final(s, calls).disk == UncachedFinal(s.disk, calls)
  {
    CacheIsInvisible(s, calls);
    SparedOnlyFaults(s, calls);
  }

  predicate Changes(op: Op, name: string) {
    (op.UpdateSchema? && op.schema.name == name) || (op.DropTable? && op.name == name)
  }

  /** A schema on disk stays as it is until its table is updated or dropped: creating a table
    * never writes over one that is there. */
  lemma {:induction false} SchemaStays(s: State, calls: seq<Call>, name: string)
    requires name in s.disk && forall i :: 0 <= i < |calls| ==> !Changes(calls[i].op, name)
    ensures name in Final(s, calls).disk && Final(s, calls).disk[name] == s.disk[name]
  {
    if calls != [] {
      SchemaStays(s, calls[..|calls| - 1], name);
    }
  }

  // ---------------------------------------------------------------------------------------
  // Reading back

  /** A new table's schema is read back as it was given, stamped with the time. */
  lemma CreatedIsFound(s: State, schema: TableSchema, now: int, fault: bool)
    requires Coherent(s) && WellFormed(schema) && schema.name !in s.disk
    ensures var created := Next(s, Call(Op.CreateTable(schema, now), false));
            && created.outcome == Done
            && Next(created.state, Call(Op.GetTable(schema.name), fault)).outcome
               == Found(TableSchema(schema.name, schema.columnGroups, schema.primaryKey, now))
  {
  }

  /** So is an updated one, and a dropped one is gone; nothing else is touched by either. */
  lemma UpdatedIsFound(s: State, schema: TableSchema, now: int, fault: bool)
    requires Coherent(s) && WellFormed(schema) && schema.name in s.disk
    ensures var updated := Next(s, Call(Op.UpdateSchema(schema, now), false));
            && updated.outcome == Done
            && Next(updated.state, Call(Op.GetTable(schema.name), fault)).outcome
               == Found(TableSchema(schema.name, schema.columnGroups, schema.primaryKey, now))
            && forall name :: name != schema.name ==>
                 Next(updated.state, Call(Op.GetTable(name), false)).outcome == Next(s, Call(Op.GetTable(name), false)).outcome
  {
  }

  lemma DroppedIsGone(s: State, name: string, other: string, fault: bool)
    requires Coherent(s)
    ensures var dropped := Next(s, Call(Op.DropTable(name), false));
            && dropped.outcome == Done
            && Next(dropped.state, Call(Op.GetTable(name), fault)).outcome == Failed
            && (other != name ==>
                  Next(dropped.state, Call(Op.GetTable(other), false)).outcome == Next(s, Call(Op.GetTable(other), false)).outcome)
  {
  }

  /** A schema once read is read again without the disk, and one dropped is forgotten even when the
    * removal fails. */
  lemma ReadsAreCached(s: State, name: string, fault: bool)
    ensures var first := Next(s, Call(Op.GetTable(name), fault));
            first.outcome.Found? ==> Next(first.state, Call(Op.GetTable(name), true)).outcome == first.outcome
    ensures name !in Next(s, Call(Op.DropTable(name), fault)).state.cache
  {
  }
}
