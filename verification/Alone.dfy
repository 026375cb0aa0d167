/** Run alone, the steps of each row operation end where its method does: the step machine of
  * Interleaving against the contracts of pkg/engine/engine.go's operations in Engine. */
module Alone {
  import opened Wrappers
  import opened Schema
  import opened Rows
  import opened Assembler
  import opened Loader
  import opened Interleaving

  ghost function Advances(ts: TableSchema, s: State, id: string, n: nat): State
    requires FlatDistinct(ts)
    decreases n
  {
    if n == 0 || id !in s.ops then s else Advances(ts, Advance(ts, s, id), id, n - 1)
  }

  ghost predicate Reaches(ts: TableSchema, s: State, id: string, s': State)
    requires FlatDistinct(ts)
  {
    exists n: nat :: Advances(ts, s, id, n) == s'
  }

  lemma {:induction false} AdvancesAdd(ts: TableSchema, s: State, id: string, m: nat, n: nat)
    requires FlatDistinct(ts)
    ensures Advances(ts, Advances(ts, s, id, m), id, n) == Advances(ts, s, id, m + n)
    decreases m
  {
    if m > 0 && id in s.ops {
      AdvancesAdd(ts, Advance(ts, s, id), id, m - 1, n);
    }
  }

  lemma OneStep(ts: TableSchema, s: State, id: string, s': State)
    requires FlatDistinct(ts) && id in s.ops && Reaches(ts, Advance(ts, s, id), id, s')
    ensures Reaches(ts, s, id, s')
  {
    var n: nat :| Advances(ts, Advance(ts, s, id), id, n) == s';
    assert Advances(ts, s, id, n + 1) == s';
  }

  lemma ReachesOn(ts: TableSchema, s: State, id: string, s': State, s'': State)
    requires FlatDistinct(ts) && Reaches(ts, s, id, s') && Reaches(ts, s', id, s'')
    ensures Reaches(ts, s, id, s'')
  {
    var m: nat :| Advances(ts, s, id, m) == s';
    var n: nat :| Advances(ts, s', id, n) == s'';
    AdvancesAdd(ts, s, id, m, n);
    assert Advances(ts, s, id, m + n) == s'';
  }

  lemma Here(ts: TableSchema, s: State, id: string)
    requires FlatDistinct(ts)
    ensures Reaches(ts, s, id, s)
  {
    assert Advances(ts, s, id, 0) == s;
  }

  function ApplyOne(stored: Groups, f: FileStep): Groups {
    match f
    case Put(g, data) => stored[g := data]
    case Patch(g, data) => stored[g := (if g in stored then stored[g] else map[]) + data]
    case _ => stored
  }

  /** The row's files after some writes. */
  function Applied(stored: Groups, todo: seq<FileStep>): Groups
    decreases |todo|
  {
    if todo == [] then stored else Applied(ApplyOne(stored, todo[0]), todo[1..])
  }

  lemma {:induction false} AppliedSnoc(stored: Groups, todo: seq<FileStep>, f: FileStep)
    ensures Applied(stored, todo + [f]) == ApplyOne(Applied(stored, todo), f)
    decreases |todo|
  {
    if todo != [] {
      AppliedSnoc(ApplyOne(stored, todo[0]), todo[1..], f);
      assert (todo + [f])[1..] == todo[1..] + [f];
    }
  }

  function Stored(s: State, id: string): Groups {
    if id in s.files then s.files[id] else map[]
  }

  function Written(s: State, id: string, groups: Groups): State {
    s.(files := s.files[id := groups])
  }

  lemma AtTwice(s: State, id: string, a: Progress, b: Progress)
    ensures At(At(s, id, a), id, b) == At(s, id, b)
    ensures Finish(At(s, id, a), id) == Finish(s, id) && Stop(At(s, id, a), id) == Stop(s, id)
  {
    assert s.ops[id := a][id := b] == s.ops[id := b];
    assert s.ops[id := a] - {id} == s.ops - {id};
  }

  lemma PutStep(ts: TableSchema, s: State, id: string, todo: seq<FileStep>)
    requires FlatDistinct(ts) && id in s.files && todo != [] && todo[0].Put?
    ensures Advance(ts, At(s, id, Writing(todo)), id) == At(Written(s, id, ApplyOne(s.files[id], todo[0])), id, Writing(todo[1..]))
  {
    AtTwice(Written(s, id, ApplyOne(s.files[id], todo[0])), id, Writing(todo), Writing(todo[1..]));
  }

  lemma PatchStep(ts: TableSchema, s: State, id: string, todo: seq<FileStep>, read: seq<FileStep>)
    requires FlatDistinct(ts) && id in s.files && todo != [] && todo[0].Patch?
    requires read == [Put(todo[0].group, ApplyOne(s.files[id], todo[0])[todo[0].group])] + todo[1..]
    ensures Advance(ts, At(s, id, Writing(todo)), id) == At(s, id, Writing(read))
    ensures ApplyOne(s.files[id], read[0]) == ApplyOne(s.files[id], todo[0]) && read[1..] == todo[1..]
  {
    AtTwice(s, id, Writing(todo), Writing(read));
  }

  lemma WriteStep(ts: TableSchema, s: State, id: string, todo: seq<FileStep>, s': State)
    requires FlatDistinct(ts) && id in s.files && todo != [] && IsWrite(todo[0])
    requires Reaches(ts, At(Written(s, id, ApplyOne(s.files[id], todo[0])), id, Writing(todo[1..])), id, s')
    ensures Reaches(ts, At(s, id, Writing(todo)), id, s')
  {
    if todo[0].Put? {
      PutStep(ts, s, id, todo);
    } else {
      var read := [Put(todo[0].group, ApplyOne(s.files[id], todo[0])[todo[0].group])] + todo[1..];
      PatchStep(ts, s, id, todo, read);
      PutStep(ts, s, id, read);
      OneStep(ts, At(s, id, Writing(read)), id, s');
    }
    OneStep(ts, At(s, id, Writing(todo)), id, s');
  }

  lemma WrittenTwice(s: State, id: string, a: Groups, b: Groups)
    ensures Written(Written(s, id, a), id, b) == Written(s, id, b)
    ensures id in s.files && s.files[id] == a ==> Written(s, id, a) == s
  {
    assert s.files[id := a][id := b] == s.files[id := b];
    assert id in s.files && s.files[id] == a ==> s.files[id := a] == s.files;
  }

  lemma {:induction false} WritesAlone(ts: TableSchema, s: State, id: string, todo: seq<FileStep>)
    requires FlatDistinct(ts) && id in s.files && AllWrites(todo)
    ensures Reaches(ts, At(s, id, Writing(todo)), id, At(Written(s, id, Applied(s.files[id], todo)), id, Writing([])))
    decreases |todo|
  {
    var done := Applied(s.files[id], todo);
    if todo == [] {
      WrittenTwice(s, id, done, done);
      Here(ts, At(s, id, Writing([])), id);
    } else {
      var once := ApplyOne(s.files[id], todo[0]);
      assert AllWrites(todo[1..]);
      WritesAlone(ts, Written(s, id, once), id, todo[1..]);
      WrittenTwice(s, id, once, done);
      WriteStep(ts, s, id, todo, At(Written(s, id, done), id, Writing([])));
    }
  }

  function Listing(names: seq<string>): set<string> {
    set g | g in names
  }

  lemma ReadStep(ts: TableSchema, s: State, id: string, names: seq<string>, snapshot: Groups)
    requires FlatDistinct(ts) && id in s.files && names != []
    ensures Advance(ts, At(s, id, Reading(names, snapshot)), id) == At(s, id, Reading(names[1..], ReadOne(s.files[id], names[0], snapshot)))
  {
    AtTwice(s, id, Reading(names, snapshot), Reading(names[1..], ReadOne(s.files[id], names[0], snapshot)));
  }

  function ReadOne(stored: Groups, name: string, snapshot: Groups): Groups {
    if name in stored then snapshot[name := stored[name]] else snapshot
  }

  lemma {:induction false} ReadsAlone(ts: TableSchema, s: State, id: string, names: seq<string>, snapshot: Groups)
    requires FlatDistinct(ts) && id in s.files
    ensures Reaches(ts, At(s, id, Reading(names, snapshot)), id, At(s, id, Reading([], snapshot + Known(Listing(names), s.files[id]))))
    decreases |names|
  {
    var now, stored := At(s, id, Reading(names, snapshot)), s.files[id];
    var done := At(s, id, Reading([], snapshot + Known(Listing(names), stored)));
    if names == [] {
      assert snapshot + Known(Listing(names), stored) == snapshot;
      Here(ts, now, id);
    } else {
      ReadsAlone(ts, s, id, names[1..], ReadOne(stored, names[0], snapshot));
      KnownHead(names, stored, snapshot);
      ReadStep(ts, s, id, names, snapshot);
      OneStep(ts, now, id, done);
    }
  }

  lemma KnownHead(names: seq<string>, stored: Groups, snapshot: Groups)
    requires names != []
    ensures ReadOne(stored, names[0], snapshot) + Known(Listing(names[1..]), stored) == snapshot + Known(Listing(names), stored)
  {
    assert forall g :: g in names <==> g == names[0] || g in names[1..];
  }

  /** What is left when the files of `id` are `stored` and its row has been refreshed from them. */
  ghost function Refreshed(ts: TableSchema, s: State, id: string, stored: Groups): State
    requires FlatDistinct(ts)
  {
    var w := s.(files := s.files[id := stored]);
    if Conforms(ts, stored) then Finish(w.(table := w.table[id := Flatten(ts, stored)]), id)
    else Stop(w.(table := w.table - {id}), id)
  }

  lemma DeleteStep(ts: TableSchema, s: State, id: string, snapshot: Groups)
    requires FlatDistinct(ts)
    ensures Advance(ts, At(s, id, Deleting(snapshot)), id) == At(s.(table := s.table - {id}), id, Inserting(snapshot))
  {
    AtTwice(s.(table := s.table - {id}), id, Deleting(snapshot), Inserting(snapshot));
  }

  lemma InsertStep(ts: TableSchema, s: State, id: string, snapshot: Groups)
    requires FlatDistinct(ts) && id !in s.table
    ensures Advance(ts, At(s, id, Inserting(snapshot)), id)
            == if Conforms(ts, snapshot) then Finish(s.(table := s.table[id := Flatten(ts, snapshot)]), id) else Stop(s, id)
  {
    AtTwice(s, id, Inserting(snapshot), Removing);
    AtTwice(s.(table := s.table[id := Flatten(ts, snapshot)]), id, Inserting(snapshot), Removing);
  }

  lemma LastStep(ts: TableSchema, s: State, id: string, known: Groups)
    requires FlatDistinct(ts) && id in s.files
    requires Flatten(ts, known) == Flatten(ts, s.files[id]) && (Conforms(ts, known) <==> Conforms(ts, s.files[id]))
    ensures Advance(ts, At(s.(table := s.table - {id}), id, Inserting(known)), id) == Refreshed(ts, s, id, s.files[id])
  {
    InsertStep(ts, s.(table := s.table - {id}), id, known);
    assert s.files[id := s.files[id]] == s.files;
    assert (s.table - {id})[id := Flatten(ts, known)] == s.table[id := Flatten(ts, known)];
  }

  /** The last two steps of a refresh that has read `known`. */
  lemma InsertsAlone(ts: TableSchema, s: State, id: string, known: Groups)
    requires FlatDistinct(ts) && id in s.files
    requires Flatten(ts, known) == Flatten(ts, s.files[id]) && (Conforms(ts, known) <==> Conforms(ts, s.files[id]))
    ensures Reaches(ts, At(s, id, Deleting(known)), id, Refreshed(ts, s, id, s.files[id]))
  {
    var cleared, done := At(s.(table := s.table - {id}), id, Inserting(known)), Refreshed(ts, s, id, s.files[id]);
    DeleteStep(ts, s, id, known);
    LastStep(ts, s, id, known);
    Here(ts, done, id);
    OneStep(ts, cleared, id, done);
    OneStep(ts, At(s, id, Deleting(known)), id, done);
  }

  lemma ReadAll(ts: TableSchema, s: State, id: string, s': State)
    requires FlatDistinct(ts) && id in s.files
    requires Reaches(ts, At(s, id, Deleting(Known(GroupNames(ts), s.files[id]))), id, s')
    ensures Reaches(ts, At(s, id, Reading(Names(ts), map[])), id, s')
  {
    var known := Known(GroupNames(ts), s.files[id]);
    NamesAreTheGroups(ts);
    assert Listing(Names(ts)) == GroupNames(ts) && map[] + known == known;
    ReadsAlone(ts, s, id, Names(ts), map[]);
    AtTwice(s, id, Reading([], known), Deleting(known));
    OneStep(ts, At(s, id, Reading([], known)), id, s');
    ReachesOn(ts, At(s, id, Reading(Names(ts), map[])), id, At(s, id, Reading([], known)), s');
  }

  /** RefreshRow: read, DELETE, INSERT. */
  lemma RefreshAlone(ts: TableSchema, s: State, id: string)
    requires FlatDistinct(ts) && id in s.files
    ensures Reaches(ts, At(s, id, Writing([])), id, Refreshed(ts, s, id, s.files[id]))
  {
    FlattenKnown(ts, s.files[id]);
    InsertsAlone(ts, s, id, Known(GroupNames(ts), s.files[id]));
    ReadAll(ts, s, id, Refreshed(ts, s, id, s.files[id]));
    AtTwice(s, id, Writing([]), Reading(Names(ts), map[]));
    OneStep(ts, At(s, id, Writing([])), id, Refreshed(ts, s, id, s.files[id]));
  }

  /** Writes, then the refresh. */
  lemma WriteAndRefresh(ts: TableSchema, s: State, id: string, todo: seq<FileStep>)
    requires FlatDistinct(ts) && id in s.files && AllWrites(todo)
    ensures Reaches(ts, At(s, id, Writing(todo)), id, Refreshed(ts, s, id, Applied(s.files[id], todo)))
  {
    var stored := Applied(s.files[id], todo);
    var w := Written(s, id, stored);
    WritesAlone(ts, s, id, todo);
    RefreshAlone(ts, w, id);
    RefreshedOfWritten(ts, s, id, stored, stored);
    ReachesOn(ts, At(s, id, Writing(todo)), id, At(w, id, Writing([])), Refreshed(ts, s, id, stored));
  }

  lemma RefreshedOfWritten(ts: TableSchema, s: State, id: string, groups: Groups, stored: Groups)
    requires FlatDistinct(ts)
    ensures Refreshed(ts, Written(s, id, groups), id, stored) == Refreshed(ts, s, id, stored)
  {
    WrittenTwice(s, id, groups, stored);
  }

  lemma MkdirStep(ts: TableSchema, s: State, id: string, todo: seq<FileStep>)
    requires FlatDistinct(ts)
    ensures Advance(ts, At(s, id, Writing([Mkdir] + todo)), id) == At(Written(s, id, Stored(s, id)), id, Writing(todo))
  {
    assert ([Mkdir] + todo)[1..] == todo;
    AtTwice(Written(s, id, Stored(s, id)), id, Writing([Mkdir] + todo), Writing(todo));
  }

  lemma AfterMkdir(ts: TableSchema, s: State, id: string, todo: seq<FileStep>)
    requires FlatDistinct(ts) && AllWrites(todo)
    ensures StartsWell(Writing([Mkdir] + todo))
    ensures Reaches(ts, At(s, id, Writing([Mkdir] + todo)), id, Refreshed(ts, s, id, Applied(Stored(s, id), todo)))
  {
    var stored := Stored(s, id);
    assert ([Mkdir] + todo)[1..] == todo;
    MkdirStep(ts, s, id, todo);
    WriteAndRefresh(ts, Written(s, id, stored), id, todo);
    RefreshedOfWritten(ts, s, id, stored, Applied(stored, todo));
    OneStep(ts, At(s, id, Writing([Mkdir] + todo)), id, Refreshed(ts, s, id, Applied(stored, todo)));
  }

  function InsertWrites(groups: seq<ColumnGroup>, row: Groups): seq<FileStep> {
    seq(|groups|, i requires 0 <= i < |groups| =>
      Put(groups[i].name, if groups[i].name in row then row[groups[i].name] else map[]))
  }

  lemma {:induction false} InsertWritesInserted(stored: Groups, groups: seq<ColumnGroup>, row: Groups)
    ensures Applied(stored, InsertWrites(groups, row)) == stored + Inserted(NamesOf(groups), row)
  {
    if groups == [] {
      assert stored + Inserted(NamesOf(groups), row) == stored;
    } else {
      var n := |groups| - 1;
      InsertWritesInserted(stored, groups[..n], row);
      var writes := InsertWrites(groups, row);
      assert writes == InsertWrites(groups[..n], row) + [writes[n]];
      AppliedSnoc(stored, InsertWrites(groups[..n], row), writes[n]);
      InsertedOneMore(stored, groups, n, row);
      assert groups[..n + 1] == groups;
    }
  }

  /** InsertRow alone ends where Engine.InsertRow does: every group of the schema written, and the
    * row refreshed. */
  lemma InsertAlone(ts: TableSchema, s: State, id: string, row: Groups)
    requires FlatDistinct(ts) && id !in s.ops
    ensures var op := Writing([Mkdir] + InsertWrites(ts.columnGroups, row));
            && Enabled(s, Begin(id, op))
            && Reaches(ts, Next(ts, s, Begin(id, op)), id, Refreshed(ts, s, id, Stored(s, id) + Inserted(GroupNames(ts), row)))
  {
    InsertWritesInserted(Stored(s, id), ts.columnGroups, row);
    AfterMkdir(ts, s, id, InsertWrites(ts.columnGroups, row));
  }

  /** UpdateColumnGroup alone ends where Engine.UpdateColumnGroup does. */
  lemma UpdateGroupAlone(ts: TableSchema, s: State, id: string, group: string, data: GroupData)
    requires FlatDistinct(ts) && id !in s.ops
    ensures var op := Writing([Mkdir] + [Put(group, data)]);
            && Enabled(s, Begin(id, op))
            && Reaches(ts, Next(ts, s, Begin(id, op)), id, Refreshed(ts, s, id, Stored(s, id)[group := data]))
  {
    assert Applied(Stored(s, id), [Put(group, data)]) == Stored(s, id)[group := data];
    AfterMkdir(ts, s, id, [Put(group, data)]);
  }

  /** The writes of an update that visits the row's groups in this order. */
  function UpdateWrites(row: Groups, order: seq<string>): seq<FileStep>
    requires forall i :: 0 <= i < |order| ==> order[i] in row
  {
    if order == [] then []
    else
      var front, g := UpdateWrites(row, order[..|order| - 1]), order[|order| - 1];
      if row[g] == map[] then front else front + [Patch(g, row[g])]
  }

  lemma {:induction false} UpdateWritesMerged(stored: Groups, row: Groups, order: seq<string>)
    requires NoRepeats(order) && forall i :: 0 <= i < |order| ==> order[i] in row
    ensures Applied(stored, UpdateWrites(row, order)) == MergedOver(stored, row, Listing(order))
    ensures AllWrites(UpdateWrites(row, order))
  {
    if order == [] {
      assert MergedOver(stored, row, Listing(order)) == stored;
    } else {
      var front, g := order[..|order| - 1], order[|order| - 1];
      UpdateWritesMerged(stored, row, front);
      assert order == front + [g] && g !in front;
      assert Listing(order) == Listing(front) + {g};
      MergedOneMore(stored, row, Listing(front), g);
      if row[g] != map[] {
        AppliedSnoc(stored, UpdateWrites(row, front), Patch(g, row[g]));
      }
    }
  }

  /** UpdateRow alone, in any order of its groups, ends where Engine.UpdateRow does: an unknown row
    * changes nothing, a known one has the new groups merged in and is refreshed. */
  lemma UpdateAlone(ts: TableSchema, s: State, id: string, row: Groups, order: seq<string>)
    requires FlatDistinct(ts) && id !in s.ops
    requires NoRepeats(order) && forall g :: g in order <==> g in row
    ensures var op := Writing([Exists] + UpdateWrites(row, order));
            && Enabled(s, Begin(id, op))
            && Reaches(ts, Next(ts, s, Begin(id, op)), id,
                       if id in s.files then Refreshed(ts, s, id, Merged(s.files[id], row)) else s)
  {
    var todo := UpdateWrites(row, order);
    UpdateWritesMerged(Stored(s, id), row, order);
    assert Listing(order) == row.Keys;
    var now := At(s, id, Writing([Exists] + todo));
    assert ([Exists] + todo)[1..] == todo;
    if id in s.files {
      assert Advance(ts, now, id) == At(s, id, Writing(todo));
      WriteAndRefresh(ts, s, id, todo);
      OneStep(ts, now, id, Refreshed(ts, s, id, Merged(s.files[id], row)));
    } else {
      assert Advance(ts, now, id) == s by {
        assert s.ops[id := Writing([Exists] + todo)] - {id} == s.ops;
      }
      Here(ts, s, id);
      OneStep(ts, now, id, s);
    }
  }

  /** DeleteRow alone ends where Engine.DeleteRow does. */
  lemma DeleteAlone(ts: TableSchema, s: State, id: string)
    requires FlatDistinct(ts) && id !in s.ops
    ensures Enabled(s, Begin(id, Removing))
    ensures Reaches(ts, Next(ts, s, Begin(id, Removing)), id,
                    s.(files := s.files - {id}, table := s.table - {id}, failed := s.failed - {id}))
  {
    var now := At(s, id, Removing);
    var removed := Advance(ts, now, id);
    var done := s.(files := s.files - {id}, table := s.table - {id}, failed := s.failed - {id});
    assert s.ops[id := Removing][id := Dropping] - {id} == s.ops;
    assert Advance(ts, removed, id) == done;
    Here(ts, done, id);
    OneStep(ts, removed, id, done);
    OneStep(ts, now, id, done);
  }
}
