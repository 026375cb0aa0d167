/** Row files and DuckDB table together: what every operation may do to the pair, and when
  * SmartLoad may trust the table it finds.  pkg/engine/engine.go, pkg/duckdb/indexer.go. */
module TwoStores {
  import opened Wrappers
  import opened Schema
  import opened Rows
  import opened Storage
  import opened Loader

  /** `clock` is later than every modification time; `rows` is None when DuckDB has no table. */
  datatype World = World(files: Files, clock: nat, meta: Option<IndexMeta>, rows: Option<map<string, FlatRow>>)

  // ---------------------------------------------------------------------------------------
  // What an operation may leave behind, finished or stopped by an error or a crash

  /** InsertRow, UpdateRow or UpdateColumnGroup on one row: files first, then DELETE, then INSERT. */
  ghost predicate RowWrite(ts: TableSchema, w: World, w': World, id: string, ok: bool)
    requires FlatDistinct(ts)
  {
    && TouchedOnly(w.files, w.clock, w'.files, w'.clock, id) && w'.meta == w.meta
    && (if ok then Refreshed(ts, w, w', id)
        else w'.rows == w.rows || (w.rows.Some? && w'.rows == Some(w.rows.value - {id})))
  }

  ghost predicate Refreshed(ts: TableSchema, w: World, w': World, id: string)
    requires FlatDistinct(ts)
  {
    id in w'.files && w.rows.Some? && w'.rows == Some(w.rows.value[id := Flatten(ts, w'.files[id].groups)])
  }

  ghost predicate RowDelete(w: World, w': World, id: string, ok: bool) {
    || (ok && w.rows.Some? && w' == w.(files := w.files - {id}, rows := Some(w.rows.value - {id})))
    || (!ok && (w' == w || w' == w.(files := w.files - {id})))
  }

  /** A load or sync that may have stopped anywhere. */
  ghost predicate Bulk(ts: TableSchema, w: World, w': World)
    requires FlatDistinct(ts)
  {
    w' == w.(rows := w'.rows) && TowardsFiles(ts, w.files, w.rows, w'.rows)
  }

  /** BuildIndex; when the row count could not be read it is recorded as 0. */
  ghost predicate Built(ts: TableSchema, w: World, w': World, counted: bool)
    requires FlatDistinct(ts)
  {
    var all := FlatAll(ts, w.files);
    w' == w.(rows := Some(all),
             meta := Some(IndexMeta(SchemaHashOf(ts), FingerprintOf(w.files), if counted then |all| else 0)))
  }

  /** SmartLoad decides that nothing has to be done.  `reread` says whether the metadata could be
    * read the second time, without which the row count is not compared. */
  predicate Skips(ts: TableSchema, w: World, reread: bool) {
    && w.meta.Some? && w.meta.value.schemaHash == SchemaHashOf(ts) && w.meta.value.dataHash == FingerprintOf(w.files)
    && w.rows.Some?
    && (reread ==> |w.rows.value| == w.meta.value.rowCount)
  }

  /** SmartLoad returning success. */
  ghost predicate SmartLoaded(ts: TableSchema, w: World, w': World, rebuilt: bool, counted: bool, reread: bool)
    requires FlatDistinct(ts)
  {
    if rebuilt then Built(ts, w, w', counted) else w' == w && Skips(ts, w, reread)
  }

  /** Anybody else changing files: a row that changes gets a modification time never seen. */
  ghost predicate OutsideEdit(w: World, w': World) {
    && w' == w.(files := w'.files, clock := w'.clock) && w.clock <= w'.clock
    && forall id :: id in w'.files ==>
         (id in w.files && w'.files[id] == w.files[id]) || w.clock <= w'.files[id].mtime < w'.clock
  }

  datatype Act =
    | Write(id: string, ok: bool)
    | Delete(id: string, ok: bool)
    | Load
    | Build(counted: bool)
    | Wipe
    | Outside
    | Sql

  ghost predicate Possible(ts: TableSchema, w: World, act: Act, w': World)
    requires FlatDistinct(ts)
  {
    match act
    case Write(id, ok) => RowWrite(ts, w, w', id, ok)
    case Delete(id, ok) => RowDelete(w, w', id, ok)
    case Load => Bulk(ts, w, w')
    case Build(counted) => Built(ts, w, w', counted)
    case Wipe => w' == w.(rows := None) || (w.rows.Some? && w' == w.(rows := Some(map[])))
    case Outside => OutsideEdit(w, w')
    case Sql => SqlWrite(w, w')
  }

  /** A statement run on DuckDB alone, by Engine.Query or the execute endpoint: the table may hold
    * anything after it. */
  ghost predicate SqlWrite(w: World, w': World) {
    w' == w.(rows := w'.rows) && (w.rows.Some? ==> w'.rows.Some?)
  }

  /** Row `id` disappears from the files while DuckDB keeps it, and the index has never seen it. */
  predicate LeavesUnindexedOrphan(w: World, w': World, id: string) {
    && id in w.files && id !in w'.files
    && w'.rows.Some? && id in w'.rows.value
    && w.meta.Some? && id !in w.meta.value.dataHash
  }

  /** Files of `id` written over in place and DuckDB's row not yet removed. */
  ghost predicate LeavesStaleRow(ts: TableSchema, w: World, w': World, id: string)
    requires FlatDistinct(ts)
  {
    && id in w.files && id in w'.files && w.files[id].mtime == w'.files[id].mtime
    && w'.rows.Some? && id in w'.rows.value && w'.rows == w.rows
    && Flatten(ts, w.files[id].groups) != Flatten(ts, w'.files[id].groups)
  }

  /** A write puts no row into DuckDB that listings hide, and is not stopped between overwriting a
    * file and deleting DuckDB's row; a row created since the last index build is not removed from
    * the files alone; and a SQL statement changes rows only to what the files say. */
  ghost predicate Careful(ts: TableSchema, w: World, act: Act, w': World)
    requires FlatDistinct(ts)
  {
    match act
    case Write(id, ok) =>
      && (Hidden(id) ==> w'.rows.None? || id !in w'.rows.value)
      && (ok || !LeavesStaleRow(ts, w, w', id))
    case Delete(id, ok) => ok || !LeavesUnindexedOrphan(w, w', id)
    case Outside => forall id :: !LeavesUnindexedOrphan(w, w', id)
    case Sql => TowardsFiles(ts, w.files, w.rows, w'.rows)
    case _ => true
  }

  /** The row's directory is as the index recorded it. */
  predicate Unmoved(w: World, id: string) {
    && id in w.files && !Hidden(id) && w.meta.Some?
    && id in w.meta.value.dataHash && w.meta.value.dataHash[id] == w.files[id].mtime
  }

  /** A row of the index is gone or has moved, so that the next SmartLoad builds anew. */
  ghost predicate Outdated(w: World) {
    w.meta.Some? && exists id :: id in w.meta.value.dataHash && !Unmoved(w, id)
  }

  // ---------------------------------------------------------------------------------------
  // Runs

  /** Any history at all, from any world. */
  ghost predicate Run(ts: TableSchema, worlds: seq<World>, acts: seq<Act>)
    requires FlatDistinct(ts)
  {
    && |worlds| == |acts| + 1
    && Timely(worlds[0])
    && forall i :: 0 <= i < |acts| ==> Possible(ts, worlds[i], acts[i], worlds[i + 1])
  }

  /** Nothing careless from before matters now: there is no index yet, or the last step was a build,
    * a load that finished, or a wipe. */
  ghost predicate StartsAnew(ts: TableSchema, worlds: seq<World>, acts: seq<Act>, b: nat)
    requires FlatDistinct(ts) && |worlds| == |acts| + 1 && b <= |acts|
  {
    || worlds[b].meta.None?
    || (b > 0 && (acts[b - 1].Build? || acts[b - 1].Wipe? ||
                  (acts[b - 1].Load? && worlds[b].rows == Some(FlatAll(ts, worlds[b].files)))))
  }

  /** The step is careful, or leaves the index outdated, or there is no index. */
  ghost predicate Allowed(ts: TableSchema, w: World, act: Act, w': World)
    requires FlatDistinct(ts)
  {
    w'.meta.None? || Outdated(w') || Careful(ts, w, act, w')
  }

  ghost predicate CarefulSince(ts: TableSchema, worlds: seq<World>, acts: seq<Act>, b: nat)
    requires FlatDistinct(ts) && |worlds| == |acts| + 1 && b <= |acts|
  {
    && StartsAnew(ts, worlds, acts, b)
    && forall i :: b <= i < |acts| ==> Allowed(ts, worlds[i], acts[i], worlds[i + 1])
  }

  ghost predicate LastBuildAt(acts: seq<Act>, i: int) {
    0 <= i < |acts| && acts[i].Build? && forall j :: i < j < |acts| ==> !acts[j].Build?
  }

  ghost predicate NoBuild(acts: seq<Act>) {
    forall i :: 0 <= i < |acts| ==> !acts[i].Build?
  }

  /** The last build of the run could count its rows, or had none to count. */
  ghost predicate LastBuildCounted(worlds: seq<World>, acts: seq<Act>)
    requires |worlds| == |acts| + 1
  {
    && (forall i :: LastBuildAt(acts, i) ==> acts[i].counted || worlds[i + 1].rows == Some(map[]))
    && (NoBuild(acts) ==> CountRecorded(worlds[0]))
  }

  ghost predicate CountRecorded(w: World) {
    w.meta.Some? ==> w.meta.value.rowCount == |w.meta.value.dataHash|
  }

  /** What makes the skip safe: unless the index is outdated anyway, DuckDB's copy of a row whose
    * directory has not moved is current, and DuckDB holds no row that is neither listed nor in the
    * recorded index. */
  ghost predicate Inv(ts: TableSchema, w: World)
    requires FlatDistinct(ts)
  {
    Timely(w) && (Outdated(w) || RowsKnown(ts, w))
  }

  ghost predicate RowsKnown(ts: TableSchema, w: World)
    requires FlatDistinct(ts)
  {
    w.meta.Some? && w.rows.Some? ==> forall id :: id in w.rows.value ==> CurrentOrKnown(ts, w, id)
  }

  ghost predicate CurrentOrKnown(ts: TableSchema, w: World, id: string)
    requires FlatDistinct(ts) && w.meta.Some? && w.rows.Some? && id in w.rows.value
  {
    && (id in Listed(w.files) || id in w.meta.value.dataHash)
    && (Unmoved(w, id) ==> w.rows.value[id] == Flatten(ts, w.files[id].groups))
  }

  /** The times of the files and of the index lie in the past. */
  ghost predicate Timely(w: World) {
    && TimesPast(w.files, w.clock)
    && (w.meta.Some? ==> forall id :: id in w.meta.value.dataHash ==> w.meta.value.dataHash[id] < w.clock)
  }

  /** A row that has moved does not move back: only a build makes an outdated index current. */
  lemma StaysOutdated(ts: TableSchema, w: World, act: Act, w': World)
    requires FlatDistinct(ts) && Timely(w) && Outdated(w)
    requires Possible(ts, w, act, w') && !act.Build?
    ensures Outdated(w')
  {
    var id :| id in w.meta.value.dataHash && !Unmoved(w, id);
    assert !Unmoved(w', id);
  }

  lemma OutsideKeepsRows(ts: TableSchema, w: World, w': World)
    requires FlatDistinct(ts) && Timely(w) && RowsKnown(ts, w)
    requires OutsideEdit(w, w') && Careful(ts, w, Outside, w')
    ensures RowsKnown(ts, w')
  {
    if w'.meta.Some? && w'.rows.Some? {
      forall k | k in w'.rows.value ensures CurrentOrKnown(ts, w', k) {
        assert CurrentOrKnown(ts, w, k);
        assert !LeavesUnindexedOrphan(w, w', k);
      }
    }
  }

  lemma CarefulKeepsRows(ts: TableSchema, w: World, act: Act, w': World)
    requires FlatDistinct(ts) && Timely(w) && (act.Build? || RowsKnown(ts, w))
    requires Possible(ts, w, act, w') && Careful(ts, w, act, w')
    ensures RowsKnown(ts, w')
  {
    if act.Outside? {
      OutsideKeepsRows(ts, w, w');
    }
  }

  lemma StepKeepsInv(ts: TableSchema, w: World, act: Act, w': World)
    requires FlatDistinct(ts) && Inv(ts, w) && Possible(ts, w, act, w') && Allowed(ts, w, act, w')
    ensures Inv(ts, w')
  {
    if w'.meta.Some? && !Outdated(w') {
      if Outdated(w) && !act.Build? {
        StaysOutdated(ts, w, act, w');
        assert false;
      }
      CarefulKeepsRows(ts, w, act, w');
    }
  }

  lemma {:induction false} TimesOverRun(ts: TableSchema, worlds: seq<World>, acts: seq<Act>, n: nat)
    requires FlatDistinct(ts) && Run(ts, worlds, acts) && n < |worlds|
    ensures Timely(worlds[n])
  {
    if n > 0 {
      TimesOverRun(ts, worlds, acts, n - 1);
    }
  }

  lemma {:induction false} InvSince(ts: TableSchema, worlds: seq<World>, acts: seq<Act>, b: nat, n: nat)
    requires FlatDistinct(ts) && Run(ts, worlds, acts) && b <= n < |worlds| && CarefulSince(ts, worlds, acts, b)
    ensures Inv(ts, worlds[n])
    decreases n
  {
    if n == b {
      TimesOverRun(ts, worlds, acts, b);
    } else {
      InvSince(ts, worlds, acts, b, n - 1);
      StepKeepsInv(ts, worlds[n - 1], acts[n - 1], worlds[n]);
    }
  }

  lemma {:induction false} CountStays(ts: TableSchema, worlds: seq<World>, acts: seq<Act>, i: nat, n: nat)
    requires FlatDistinct(ts) && Run(ts, worlds, acts) && i <= n < |worlds| && CountRecorded(worlds[i])
    requires forall j :: i <= j < n ==> !acts[j].Build?
    ensures CountRecorded(worlds[n])
    decreases n
  {
    if i < n {
      CountStays(ts, worlds, acts, i, n - 1);
      assert Possible(ts, worlds[n - 1], acts[n - 1], worlds[n]);
    }
  }

  lemma {:induction false} SomeLastBuild(acts: seq<Act>)
    ensures NoBuild(acts) || exists i :: LastBuildAt(acts, i)
  {
    if acts != [] {
      var front := acts[..|acts| - 1];
      SomeLastBuild(front);
      if acts[|acts| - 1].Build? {
        assert LastBuildAt(acts, |acts| - 1);
      } else if i :| LastBuildAt(front, i) {
        assert LastBuildAt(acts, i);
      }
    }
  }

  lemma CountAtEnd(ts: TableSchema, worlds: seq<World>, acts: seq<Act>)
    requires FlatDistinct(ts) && Run(ts, worlds, acts) && LastBuildCounted(worlds, acts)
    ensures CountRecorded(worlds[|acts|])
  {
    SomeLastBuild(acts);
    if NoBuild(acts) {
      CountStays(ts, worlds, acts, 0, |acts|);
    } else {
      var i :| LastBuildAt(acts, i);
      assert Possible(ts, worlds[i], acts[i], worlds[i + 1]);
      CountStays(ts, worlds, acts, i + 1, |acts|);
    }
  }

  lemma SubMapOfSameSize<V>(m: map<string, V>, m': map<string, V>)
    requires SubMap(m, m') && |m| == |m'|
    ensures m == m'
  {
    assert m.Keys <= m'.Keys;
    SubsetOfSameSize(m.Keys, m'.Keys);
  }

  lemma SubsetOfSameSize<T>(a: set<T>, b: set<T>)
    requires a <= b && |a| == |b|
    ensures a == b
  {
    var extra := b - a;
    if extra == {} {
      assert b <= a;
    } else {
      var x :| x in extra;
      SubsetIsSmaller(a, b - {x});
      assert false;
    }
  }

  lemma {:induction false} SubsetIsSmaller<T>(a: set<T>, b: set<T>)
    requires a <= b
    ensures |a| <= |b|
    decreases a
  {
    if x :| x in a {
      SubsetIsSmaller(a - {x}, b - {x});
    }
  }

  /** With a matching fingerprint and as many rows as the index, known rows are all there are. */
  lemma KnownRowsAreAll(ts: TableSchema, w: World)
    requires FlatDistinct(ts) && RowsKnown(ts, w) && Skips(ts, w, false)
    ensures w.rows == Some(FlatAll(ts, w.files)) <==> |w.rows.value| == |w.meta.value.dataHash|
  {
    var all := FlatAll(ts, w.files);
    forall id | id in w.rows.value ensures id in all && w.rows.value[id] == all[id] {
      assert CurrentOrKnown(ts, w, id);
      assert id in FingerprintOf(w.files);
    }
    if |w.rows.value| == |all| {
      SubMapOfSameSize(w.rows.value, all);
    }
  }

  lemma SkipIsJustified(ts: TableSchema, w: World)
    requires FlatDistinct(ts) && Inv(ts, w) && CountRecorded(w) && Skips(ts, w, true)
    ensures w.rows == Some(FlatAll(ts, w.files))
  {
    KnownRowsAreAll(ts, w);
  }

  /** Whenever SmartLoad reports success, DuckDB holds exactly the flattened listed rows: after any
    * run at all of engine operations that finish or stop anywhere, loads and syncs stopped anywhere,
    * index builds, DuckDB wipes, outside edits and SQL statements, if it has rebuilt; and if it has
    * not, when every step since some build, finished load or wipe was careful or left the index
    * outdated, the last build could count its rows, and the metadata could be read again. */
  lemma SmartLoadSound(ts: TableSchema, worlds: seq<World>, acts: seq<Act>, b: nat, w': World, rebuilt: bool, counted: bool, reread: bool)
    requires FlatDistinct(ts) && Run(ts, worlds, acts) && b <= |acts|
    requires SmartLoaded(ts, worlds[|acts|], w', rebuilt, counted, reread)
    requires rebuilt || (reread && CarefulSince(ts, worlds, acts, b) && LastBuildCounted(worlds, acts))
    ensures w'.rows == Some(FlatAll(ts, w'.files))
  {
    if !rebuilt {
      InvSince(ts, worlds, acts, b, |acts|);
      CountAtEnd(ts, worlds, acts);
      SkipIsJustified(ts, w');
    }
  }

  // ---------------------------------------------------------------------------------------
  // When a skip is right

  /** A careless step that does not outdate the index leaves a wrong row in DuckDB. */
  lemma CarelessIsWrong(ts: TableSchema, w: World, act: Act, w': World)
    requires FlatDistinct(ts) && RowsKnown(ts, w) && Possible(ts, w, act, w') && Skips(ts, w', false)
    requires !Careful(ts, w, act, w')
    ensures w'.rows != Some(FlatAll(ts, w'.files))
  {
    match act
    case Write(id, ok) =>
      if !Hidden(id) {
        assert id in FingerprintOf(w'.files);
        assert Unmoved(w, id) && CurrentOrKnown(ts, w, id);
      }
    case Delete(id, ok) =>
      assert id in w'.rows.value && id !in w'.files;
    case Outside =>
      var id :| LeavesUnindexedOrphan(w, w', id);
      assert id in w'.rows.value && id !in w'.files;
    case Sql =>
      var id :| id in w'.rows.value && !RowTowards(ts, w.files, w.rows, id, w'.rows.value[id]);
    case _ =>
      assert false;
  }

  /** When SmartLoad would skip after one more step of any kind, it is right to do so exactly when
    * that step was careful and DuckDB holds as many rows as the index has.  The count decides when
    * the metadata could not be read again, or the build could not count. */
  lemma SkipRightIff(ts: TableSchema, w: World, act: Act, w': World, reread: bool)
    requires FlatDistinct(ts) && Inv(ts, w) && Possible(ts, w, act, w') && Skips(ts, w', reread)
    ensures w'.rows == Some(FlatAll(ts, w'.files))
            <==> Careful(ts, w, act, w') && |w'.rows.value| == |w'.meta.value.dataHash|
  {
    if Outdated(w) && !act.Build? {
      StaysOutdated(ts, w, act, w');
      assert false;
    }
    if Careful(ts, w, act, w') {
      CarefulKeepsRows(ts, w, act, w');
      KnownRowsAreAll(ts, w');
    } else {
      CarelessIsWrong(ts, w, act, w');
    }
  }

  /** After a run that has been careful since some build, finished load or wipe, the number of rows
    * alone decides. */
  lemma CountDecides(ts: TableSchema, worlds: seq<World>, acts: seq<Act>, b: nat, reread: bool)
    requires FlatDistinct(ts) && Run(ts, worlds, acts) && b <= |acts| && CarefulSince(ts, worlds, acts, b)
    requires Skips(ts, worlds[|acts|], reread)
    ensures var w := worlds[|acts|];
            w.rows == Some(FlatAll(ts, w.files)) <==> |w.rows.value| == |w.meta.value.dataHash|
  {
    InvSince(ts, worlds, acts, b, |acts|);
    KnownRowsAreAll(ts, worlds[|acts|]);
  }

  /** After such a run and one more step of any kind, a skip is right exactly when that step was
    * careful and the numbers agree; with a counted build and the metadata read again, they do. */
  lemma SkipAfterRunRightIff(ts: TableSchema, worlds: seq<World>, acts: seq<Act>, b: nat, act: Act, w': World, reread: bool)
    requires FlatDistinct(ts) && Run(ts, worlds, acts) && b <= |acts| && CarefulSince(ts, worlds, acts, b)
    requires Possible(ts, worlds[|acts|], act, w') && Skips(ts, w', reread)
    ensures w'.rows == Some(FlatAll(ts, w'.files))
            <==> Careful(ts, worlds[|acts|], act, w') && |w'.rows.value| == |w'.meta.value.dataHash|
    ensures reread && LastBuildCounted(worlds, acts) && !act.Build? ==>
              (w'.rows == Some(FlatAll(ts, w'.files)) <==> Careful(ts, worlds[|acts|], act, w'))
  {
    InvSince(ts, worlds, acts, b, |acts|);
    SkipRightIff(ts, worlds[|acts|], act, w', reread);
    if LastBuildCounted(worlds, acts) {
      CountAtEnd(ts, worlds, acts);
    }
  }

  // ---------------------------------------------------------------------------------------
  // Histories in which the schema changes

  /** Step `i` is taken under schema `schemas[i]`. */
  ghost predicate RunUnder(schemas: seq<TableSchema>, worlds: seq<World>, acts: seq<Act>) {
    && |schemas| == |acts| && |worlds| == |acts| + 1
    && forall i :: 0 <= i < |acts| ==> FlatDistinct(schemas[i]) && Possible(schemas[i], worlds[i], acts[i], worlds[i + 1])
  }

  lemma {:induction false} MetaStays(schemas: seq<TableSchema>, worlds: seq<World>, acts: seq<Act>, i: nat, n: nat)
    requires RunUnder(schemas, worlds, acts) && i <= n < |worlds|
    requires forall j :: i <= j < n ==> !acts[j].Build?
    ensures worlds[n].meta == worlds[i].meta
    decreases n
  {
    if i < n {
      MetaStays(schemas, worlds, acts, i, n - 1);
      assert Possible(schemas[n - 1], worlds[n - 1], acts[n - 1], worlds[n]);
    }
  }

  /** The two schemas have the same columns and were stamped at the same time. */
  predicate SameVersion(ts: TableSchema, ts': TableSchema) {
    ts.name == ts'.name && ts.updatedAt == ts'.updatedAt && ts.columnGroups == ts'.columnGroups
  }

  /** A skip trusts only an index of the current schema: whatever schemas a history went through, the
    * last build was under the one that is in force when SmartLoad skips. */
  lemma SkipKnowsSchema(schemas: seq<TableSchema>, worlds: seq<World>, acts: seq<Act>, i: nat, ts: TableSchema, reread: bool)
    requires RunUnder(schemas, worlds, acts) && LastBuildAt(acts, i)
    requires Skips(ts, worlds[|acts|], reread)
    ensures SameVersion(schemas[i], ts)
  {
    assert Possible(schemas[i], worlds[i], acts[i], worlds[i + 1]);
    MetaStays(schemas, worlds, acts, i + 1, |acts|);
  }

  /** And under the schema it was built with, an index that nothing has touched is skipped, counted
    * or not. */
  lemma FreshIndexSkipped(ts: TableSchema, w: World, w': World, counted: bool)
    requires FlatDistinct(ts) && Built(ts, w, w', counted)
    ensures Skips(ts, w', false) && (counted ==> Skips(ts, w', true))
  {
  }

  /** Operations that finish keep the two stores equal. */
  lemma FinishedOperationsKeepAgreement(ts: TableSchema, w: World, act: Act, w': World)
    requires FlatDistinct(ts) && Possible(ts, w, act, w')
    requires (act.Write? && act.ok && !Hidden(act.id)) || (act.Delete? && act.ok)
    requires w.rows == Some(FlatAll(ts, w.files))
    ensures w'.rows == Some(FlatAll(ts, w'.files))
  {
    var all, all' := FlatAll(ts, w.files), FlatAll(ts, w'.files);
    if act.Write? {
      var row := Flatten(ts, w'.files[act.id].groups);
      forall k ensures k in all' <==> k in all[act.id := row] {
      }
      forall k | k in all' ensures all'[k] == all[act.id := row][k] {
        if k != act.id {
          assert w'.files[k] == w.files[k];
        }
      }
      assert all' == all[act.id := row];
    } else {
      assert all' == all - {act.id};
    }
  }

  // ---------------------------------------------------------------------------------------
  // What happens otherwise.  Each lemma starts from a freshly built index of one row `x`, after which
  // nothing is rebuilt; SmartLoad then skips although the table is wrong.

  /** One row, just indexed. */
  ghost function Indexed(ts: TableSchema, x: string, gx: Groups, counted: bool): World
    requires FlatDistinct(ts)
  {
    var files := map[x := RowDir(gx, 0)];
    World(files, 1, Some(IndexMeta(SchemaHashOf(ts), map[x := 0], if counted then 1 else 0)), Some(map[x := Flatten(ts, gx)]))
  }

  ghost predicate IsIndexed(ts: TableSchema, x: string, gx: Groups, counted: bool)
    requires FlatDistinct(ts)
  {
    Built(ts, World(map[x := RowDir(gx, 0)], 1, None, None), Indexed(ts, x, gx, counted), counted)
  }

  lemma IndexedIsBuilt(ts: TableSchema, x: string, gx: Groups, counted: bool)
    requires FlatDistinct(ts) && !Hidden(x)
    ensures IsIndexed(ts, x, gx, counted)
  {
    var files := map[x := RowDir(gx, 0)];
    assert FlatAll(ts, files) == map[x := Flatten(ts, gx)];
    assert FingerprintOf(files) == map[x := 0];
  }

  ghost predicate WronglySkips(ts: TableSchema, w: World, reread: bool)
    requires FlatDistinct(ts)
  {
    Skips(ts, w, reread) && w.rows != Some(FlatAll(ts, w.files))
  }

  /** An update stopped between overwriting the file and the DELETE. */
  lemma StaleRowFoolsSmartLoad(ts: TableSchema, x: string, gx: Groups, gx': Groups)
    requires FlatDistinct(ts) && !Hidden(x)
    requires gx.Keys == gx'.Keys && Flatten(ts, gx) != Flatten(ts, gx')
    ensures IsIndexed(ts, x, gx, true)
    ensures var w := Indexed(ts, x, gx, true);
            var w' := w.(files := map[x := RowDir(gx', 0)]);
            RowWrite(ts, w, w', x, false) && WronglySkips(ts, w', true)
  {
    var files := map[x := RowDir(gx', 0)];
    IndexedIsBuilt(ts, x, gx, true);
    assert FingerprintOf(files) == map[x := 0];
    assert FlatAll(ts, files)[x] == Flatten(ts, gx');
  }

  /** The index of `x` alone, with these files and these rows in DuckDB. */
  ghost function IndexOfOne(ts: TableSchema, x: string, files: Files, clock: nat, rows: map<string, FlatRow>): World {
    World(files, clock, Some(IndexMeta(SchemaHashOf(ts), map[x := 0], 1)), Some(rows))
  }

  lemma OrphanInserted(ts: TableSchema, x: string, y: string, gx: Groups, gy: Groups)
    requires FlatDistinct(ts) && !Hidden(y) && x != y
    ensures RowWrite(ts, Indexed(ts, x, gx, true),
                     IndexOfOne(ts, x, map[x := RowDir(gx, 0), y := RowDir(gy, 1)], 2, map[x := Flatten(ts, gx), y := Flatten(ts, gy)]),
                     y, true)
  {
    assert map[x := Flatten(ts, gx)][y := Flatten(ts, gy)] == map[x := Flatten(ts, gx), y := Flatten(ts, gy)];
  }

  lemma OrphanRemoved(ts: TableSchema, x: string, y: string, gx: Groups, gy: Groups, rows: map<string, FlatRow>)
    requires FlatDistinct(ts) && x != y && y in rows
    ensures var inserted := IndexOfOne(ts, x, map[x := RowDir(gx, 0), y := RowDir(gy, 1)], 2, rows);
            var removed := IndexOfOne(ts, x, map[x := RowDir(gx, 0)], 2, rows);
            RowDelete(inserted, removed, y, false) && LeavesUnindexedOrphan(inserted, removed, y)
  {
    assert map[x := RowDir(gx, 0), y := RowDir(gy, 1)] - {y} == map[x := RowDir(gx, 0)];
  }

  lemma OrphanAlone(ts: TableSchema, x: string, y: string, gx: Groups, clock: nat, rows: map<string, FlatRow>)
    requires FlatDistinct(ts) && !Hidden(x) && x != y && rows.Keys == {x, y}
    ensures var removed := IndexOfOne(ts, x, map[x := RowDir(gx, 0)], clock, rows);
            var stopped := removed.(rows := Some(rows - {x}));
            && RowWrite(ts, removed, stopped, x, false) && Careful(ts, removed, Write(x, false), stopped)
            && WronglySkips(ts, stopped, true)
  {
    var files := map[x := RowDir(gx, 0)];
    assert FingerprintOf(files) == map[x := 0];
    assert y !in FlatAll(ts, files) && y in rows - {x};
    assert (rows - {x}).Keys == {y};
    assert |(rows - {x}).Keys| == |rows - {x}|;
  }

  /** A row inserted after the build and removed again, the removal stopped before DuckDB's
    * DELETE: the fingerprint is the recorded one again.  An update of `x` stopped between DELETE
    * and INSERT, which on its own would show in the row count, now goes unseen. */
  lemma OrphanFoolsSmartLoad(ts: TableSchema, x: string, y: string, gx: Groups, gy: Groups)
    requires FlatDistinct(ts) && !Hidden(x) && !Hidden(y) && x != y
    ensures IsIndexed(ts, x, gx, true)
    ensures var rows := map[x := Flatten(ts, gx), y := Flatten(ts, gy)];
            var inserted := IndexOfOne(ts, x, map[x := RowDir(gx, 0), y := RowDir(gy, 1)], 2, rows);
            var removed := IndexOfOne(ts, x, map[x := RowDir(gx, 0)], 2, rows);
            var stopped := removed.(rows := Some(rows - {x}));
            && RowWrite(ts, Indexed(ts, x, gx, true), inserted, y, true)
            && RowDelete(inserted, removed, y, false) && LeavesUnindexedOrphan(inserted, removed, y)
            && RowWrite(ts, removed, stopped, x, false) && Careful(ts, removed, Write(x, false), stopped)
            && WronglySkips(ts, stopped, true)
  {
    var rows := map[x := Flatten(ts, gx), y := Flatten(ts, gy)];
    IndexedIsBuilt(ts, x, gx, true);
    OrphanInserted(ts, x, y, gx, gy);
    OrphanRemoved(ts, x, y, gx, gy, rows);
    OrphanAlone(ts, x, y, gx, 2, rows);
  }

  lemma SwappedOutside(ts: TableSchema, x: string, y: string, z: string, gx: Groups, gy: Groups, gz: Groups, rows: map<string, FlatRow>)
    requires FlatDistinct(ts) && !Hidden(x) && !Hidden(y) && !Hidden(z) && x != y && x != z && y != z && rows.Keys == {x, z}
    ensures var inserted := IndexOfOne(ts, x, map[x := RowDir(gx, 0), z := RowDir(gz, 1)], 2, rows);
            var swapped := IndexOfOne(ts, x, map[x := RowDir(gx, 0), y := RowDir(gy, 2)], 3, rows);
            var cleared := IndexOfOne(ts, x, map[x := RowDir(gx, 0)], 3, rows);
            && OutsideEdit(inserted, swapped) && RowDelete(swapped, cleared, y, true)
            && FingerprintOf(swapped.files) != map[x := 0]
            && FingerprintOf(swapped.files) != FingerprintOf(inserted.files)
  {
    assert map[x := RowDir(gx, 0), y := RowDir(gy, 2)] - {y} == map[x := RowDir(gx, 0)];
    assert rows - {y} == rows;
    assert y in FingerprintOf(map[x := RowDir(gx, 0), y := RowDir(gy, 2)]);
    assert y !in FingerprintOf(map[x := RowDir(gx, 0), z := RowDir(gz, 1)]);
  }

  /** That outside edits give a fingerprint never seen is not enough: one that removes the unindexed
    * row `z` and adds `y` does, and removing `y` properly brings the recorded one back. */
  lemma NewFingerprintIsNotEnough(ts: TableSchema, x: string, y: string, z: string, gx: Groups, gy: Groups, gz: Groups)
    requires FlatDistinct(ts) && !Hidden(x) && !Hidden(y) && !Hidden(z) && x != y && x != z && y != z
    ensures IsIndexed(ts, x, gx, true)
    ensures var rows := map[x := Flatten(ts, gx), z := Flatten(ts, gz)];
            var inserted := IndexOfOne(ts, x, map[x := RowDir(gx, 0), z := RowDir(gz, 1)], 2, rows);
            var swapped := IndexOfOne(ts, x, map[x := RowDir(gx, 0), y := RowDir(gy, 2)], 3, rows);
            var cleared := IndexOfOne(ts, x, map[x := RowDir(gx, 0)], 3, rows);
            var stopped := cleared.(rows := Some(rows - {x}));
            && RowWrite(ts, Indexed(ts, x, gx, true), inserted, z, true)
            && OutsideEdit(inserted, swapped)
            && FingerprintOf(swapped.files) != map[x := 0] && FingerprintOf(swapped.files) != FingerprintOf(inserted.files)
            && RowDelete(swapped, cleared, y, true) && RowWrite(ts, cleared, stopped, x, false)
            && WronglySkips(ts, stopped, true)
  {
    var rows := map[x := Flatten(ts, gx), z := Flatten(ts, gz)];
    IndexedIsBuilt(ts, x, gx, true);
    OrphanInserted(ts, x, z, gx, gz);
    SwappedOutside(ts, x, y, z, gx, gy, gz, rows);
    OrphanAlone(ts, x, z, gx, 3, rows);
  }

  /** A build that could not count its rows records 0; a later load stopped after emptying the
    * table matches that count. */
  lemma UncountedBuildFoolsSmartLoad(ts: TableSchema, x: string, gx: Groups)
    requires FlatDistinct(ts) && !Hidden(x)
    ensures IsIndexed(ts, x, gx, false)
    ensures var w := Indexed(ts, x, gx, false);
            var w' := w.(rows := Some(map[]));
            Bulk(ts, w, w') && WronglySkips(ts, w', true)
  {
    var files := map[x := RowDir(gx, 0)];
    IndexedIsBuilt(ts, x, gx, false);
    assert FingerprintOf(files) == map[x := 0];
    assert x in FlatAll(ts, files);
  }

  /** When the metadata cannot be read the second time, the row count is not looked at. */
  lemma UnreadCountFoolsSmartLoad(ts: TableSchema, x: string, gx: Groups)
    requires FlatDistinct(ts) && !Hidden(x)
    ensures IsIndexed(ts, x, gx, true)
    ensures var w := Indexed(ts, x, gx, true);
            var w' := w.(rows := Some(map[]));
            Bulk(ts, w, w') && WronglySkips(ts, w', false) && !Skips(ts, w', true)
  {
    var files := map[x := RowDir(gx, 0)];
    IndexedIsBuilt(ts, x, gx, true);
    assert FingerprintOf(files) == map[x := 0];
    assert x in FlatAll(ts, files);
  }

  /** One SQL statement that changes a row in DuckDB leaves fingerprint and count as they are. */
  lemma SqlWriteFoolsSmartLoad(ts: TableSchema, x: string, gx: Groups, row: FlatRow)
    requires FlatDistinct(ts) && !Hidden(x) && row != Flatten(ts, gx)
    ensures IsIndexed(ts, x, gx, true)
    ensures var w := Indexed(ts, x, gx, true);
            var w' := w.(rows := Some(map[x := row]));
            SqlWrite(w, w') && WronglySkips(ts, w', true)
  {
    var files := map[x := RowDir(gx, 0)];
    IndexedIsBuilt(ts, x, gx, true);
    assert FingerprintOf(files) == map[x := 0];
    assert FlatAll(ts, files)[x] == Flatten(ts, gx);
  }

  /** A row whose id listings hide is in DuckDB after its insert and in no load or sync. */
  lemma HiddenRowDisagrees(ts: TableSchema, w: World, id: string, w': World)
    requires FlatDistinct(ts) && Hidden(id) && RowWrite(ts, w, w', id, true)
    ensures w'.rows != Some(FlatAll(ts, w'.files))
  {
    assert id in w'.rows.value;
  }

  /** A write that finishes keeps the stores equal exactly when listings show its row. */
  lemma FinishedWriteAgreesIff(ts: TableSchema, w: World, id: string, w': World)
    requires FlatDistinct(ts) && RowWrite(ts, w, w', id, true) && w.rows == Some(FlatAll(ts, w.files))
    ensures w'.rows == Some(FlatAll(ts, w'.files)) <==> !Hidden(id)
  {
    if Hidden(id) {
      HiddenRowDisagrees(ts, w, id, w');
    } else {
      FinishedOperationsKeepAgreement(ts, w, Write(id, true), w');
    }
  }
}
