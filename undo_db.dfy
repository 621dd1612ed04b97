/**
 * `UndoManagerSQLite` and `UndoManagerPostgres`: the undo history kept in
 * two tables, `operations` and `changes`, with an index on the changes'
 * `operation_id`.  Both managers run the same statements; the tables are
 * modelled as sequences of rows in insertion order, which is the order of
 * their `id` columns.  A failed save rolls the whole transaction back.
 */
module UndoDb {
  import opened Common
  import opened FileSystem
  import opened UndoHistory

  /** A row of `operations`. */
  datatype OpRow = OpRow(operationId: string, timestamp: string)

  /** A row of `changes`. */
  datatype ChangeRow = ChangeRow(operationId: string, change: Change)

  /** Both tables, each in `id` order. */
  datatype Tables = Tables(operations: seq<OpRow>, changes: seq<ChangeRow>)

  function OpIds(ops: seq<OpRow>): set<string>
  {
    set i | 0 <= i < |ops| :: ops[i].operationId
  }

  /** The `UNIQUE` constraint on `operations.operation_id`. */
  predicate UniqueIds(ops: seq<OpRow>)
  {
    forall i, j :: 0 <= i < j < |ops| ==> ops[i].operationId != ops[j].operationId
  }

  /** Every change row belongs to a stored operation (the foreign key). */
  predicate Linked(db: Tables)
  {
    forall i :: 0 <= i < |db.changes| ==> db.changes[i].operationId in OpIds(db.operations)
  }

  /** The tables as the managers keep them: unique ids, linked changes, at most `MaxHistory` operations. */
  predicate WellFormed(db: Tables)
  {
    UniqueIds(db.operations) && Linked(db) && |db.operations| <= MaxHistory
  }

  // ---------------------------------------------------------------------
  // The statements
  // ---------------------------------------------------------------------

  /** `DELETE FROM operations WHERE operation_id = id`. */
  function OpsWithout(ops: seq<OpRow>, id: string): (r: seq<OpRow>)
    ensures |r| <= |ops|
  {
    if ops == [] then []
    else (if ops[0].operationId == id then [] else [ops[0]]) + OpsWithout(ops[1..], id)
  }

  /** `DELETE FROM changes WHERE operation_id` is one of `ids`. */
  function ChangesWithout(chs: seq<ChangeRow>, ids: set<string>): (r: seq<ChangeRow>)
    ensures |r| <= |chs|
  {
    if chs == [] then []
    else (if chs[0].operationId in ids then [] else [chs[0]]) + ChangesWithout(chs[1..], ids)
  }

  /** `SELECT original_path, new_path, action FROM changes WHERE operation_id = id`, in `id` order. */
  function ChangesOf(chs: seq<ChangeRow>, id: string): (r: seq<Change>)
    ensures |r| <= |chs|
  {
    if chs == [] then []
    else (if chs[0].operationId == id then [chs[0].change] else []) + ChangesOf(chs[1..], id)
  }

  /** The change rows `save_operation` inserts. */
  function RowsFor(id: string, cs: seq<Change>): (r: seq<ChangeRow>)
    ensures |r| == |cs| && forall k :: 0 <= k < |cs| ==> r[k] == ChangeRow(id, cs[k])
  {
    seq(|cs|, k requires 0 <= k < |cs| => ChangeRow(id, cs[k]))
  }

  /** The two inserts of `save_operation`. */
  function Inserted(db: Tables, id: string, cs: seq<Change>, now: string): Tables
  {
    Tables(db.operations + [OpRow(id, now)], db.changes + RowsFor(id, cs))
  }

  /** The ids `_cleanup_old_operations` selects: the oldest `count - max_history`. */
  function Expired(ops: seq<OpRow>): set<string>
  {
    if |ops| > MaxHistory then OpIds(ops[..|ops| - MaxHistory]) else {}
  }

  /** `_cleanup_old_operations`: the expired operations and their changes are gone. */
  function CleanedUp(db: Tables): Tables
  {
    Tables(Newest(db.operations), ChangesWithout(db.changes, Expired(db.operations)))
  }

  /** `save_operation`: a duplicate id violates the constraint and the transaction rolls back. */
  function Saved(db: Tables, id: string, cs: seq<Change>, now: string): Tables
  {
    if id in OpIds(db.operations) then db else CleanedUp(Inserted(db, id, cs, now))
  }

  /** `SELECT operation_id FROM operations ORDER BY id DESC LIMIT 1`. */
  function Latest(db: Tables): Option<string>
  {
    if db.operations == [] then None else Some(db.operations[|db.operations| - 1].operationId)
  }

  /** The two deletes after an undo attempt. */
  function Dropped(db: Tables, id: string): Tables
  {
    Tables(OpsWithout(db.operations, id), ChangesWithout(db.changes, {id}))
  }

  /** The changes of `id` `ORDER BY id DESC`. */
  function UndoRows(db: Tables, id: string): seq<Change>
  {
    Reversed(ChangesOf(db.changes, id))
  }

  /** What an undo returns, and the filesystem and tables it leaves. */
  datatype Undo = Undo(result: UndoResult, fs: Fs, db: Tables)

  /** The loop over `id`'s rows, its result, and the operation deleted. */
  function Attempted(k: Reverter, db: Tables, id: string, fs: Fs, reason: string): Undo
  {
    var t := Reverted(k, UndoRows(db, id), Tally(0, 0, [], fs), reason);
    Undo(Finished(id, t), t.fs, Dropped(db, id))
  }

  /** `undo_last_operation`. */
  function UndoneLast(db: Tables, fs: Fs, reason: string): Undo
  {
    match Latest(db)
    case None => Undo(Refused("No operations to undo"), fs, db)
    case Some(id) => Attempted(DbLatest, db, id, fs, reason)
  }

  /** `undo_operation`. */
  function UndoneChosen(db: Tables, id: string, requireLatest: bool, fs: Fs, reason: string): Undo
  {
    if requireLatest && Latest(db) != Some(id) then Undo(Refused("Only the latest operation can be undone"), fs, db)
    else if UndoRows(db, id) == [] then Undo(Refused("No changes found for this operation"), fs, db)
    else Attempted(DbChosen, db, id, fs, reason)
  }

  /** `get_history`: newest operation first, each with its changes. */
  function History(db: Tables): (r: seq<Operation>)
    ensures |r| == |db.operations|
  {
    var ops := db.operations;
    seq(|ops|, k requires 0 <= k < |ops| =>
      Operation(ops[|ops| - 1 - k].operationId, ops[|ops| - 1 - k].timestamp, ChangesOf(db.changes, ops[|ops| - 1 - k].operationId)))
  }

  // ---------------------------------------------------------------------
  // The manager
  // ---------------------------------------------------------------------

  class UndoStore {
    var operations: seq<OpRow>
    var changes: seq<ChangeRow>

    function Contents(): Tables
      reads this
    {
      Tables(operations, changes)
    }

    /** The schema's `UNIQUE` constraint. */
    ghost predicate Valid()
      reads this
    {
      UniqueIds(operations)
    }

    /** `_init_database`: `CREATE TABLE IF NOT EXISTS` keeps what is stored. */
    constructor (db: Tables)
      requires UniqueIds(db.operations)
      ensures Valid() && Contents() == db
    {
      operations := db.operations;
      changes := db.changes;
    }

    method SaveOperation(operationId: string, cs: seq<Change>, now: string)
      requires Valid()
      modifies this
      ensures Valid() && Contents() == Saved(old(Contents()), operationId, cs, now)
    {
      if operationId in OpIds(operations) {
        return;
      }
      ghost var db := Contents();
      operations := operations + [OpRow(operationId, now)];
      assert UniqueIds(operations) by {
        forall i | 0 <= i < |db.operations| ensures db.operations[i].operationId != operationId {
          assert db.operations[i].operationId in OpIds(db.operations);
        }
      }
      for i := 0 to |cs|
        invariant operations == db.operations + [OpRow(operationId, now)]
        invariant changes == db.changes + RowsFor(operationId, cs[..i])
      {
        assert RowsFor(operationId, cs[..i + 1]) == RowsFor(operationId, cs[..i]) + [ChangeRow(operationId, cs[i])];
        changes := changes + [ChangeRow(operationId, cs[i])];
      }
      assert cs[..|cs|] == cs;
      CleanupOldOperations();
    }

    /** `_cleanup_old_operations`: the oldest `count - max_history` ids are selected, then each is deleted with its changes. */
    method CleanupOldOperations()
      requires Valid()
      modifies this
      ensures Valid() && Contents() == CleanedUp(old(Contents()))
    {
      ChangesWithoutNone(changes);
      var count := |operations|;
      if count <= MaxHistory {
        return;
      }
      ghost var db := Contents();
      var ops := operations;
      var oldIds := seq(count - MaxHistory, k requires 0 <= k < count - MaxHistory => ops[k].operationId);
      assert OpIds(db.operations[..0]) == {};
      assert db.operations[0..] == db.operations;
      for i := 0 to |oldIds|
        invariant operations == db.operations[i..]
        invariant changes == ChangesWithout(db.changes, OpIds(db.operations[..i]))
      {
        CleanupStep(db, i);
        changes := ChangesWithout(changes, {oldIds[i]});
        operations := OpsWithout(operations, oldIds[i]);
      }
      assert db.operations[..|oldIds|] == db.operations[..count - MaxHistory];
      UniqueSuffix(db.operations, count - MaxHistory);
    }

    method UndoLastOperation(fs: Fs, reason: string) returns (r: UndoResult, fs': Fs)
      requires Valid()
      modifies this
      ensures Valid() && Undo(r, fs', Contents()) == UndoneLast(old(Contents()), fs, reason)
    {
      if operations == [] {
        r, fs' := Refused("No operations to undo"), fs;
        return;
      }
      var id := operations[|operations| - 1].operationId;
      var rows := Reversed(ChangesOf(changes, id));
      var t := RevertRows(DbLatest, rows, fs, reason);
      Delete(id);
      r, fs' := Finished(id, t), t.fs;
    }

    /** `undo_operation`: only the latest unless `require_latest` is off, and only one that has changes. */
    method UndoOperation(operationId: string, requireLatest: bool, fs: Fs, reason: string) returns (r: UndoResult, fs': Fs)
      requires Valid()
      modifies this
      ensures Valid() && Undo(r, fs', Contents()) == UndoneChosen(old(Contents()), operationId, requireLatest, fs, reason)
    {
      if requireLatest {
        if operations == [] || operations[|operations| - 1].operationId != operationId {
          r, fs' := Refused("Only the latest operation can be undone"), fs;
          return;
        }
      }
      var rows := Reversed(ChangesOf(changes, operationId));
      if rows == [] {
        r, fs' := Refused("No changes found for this operation"), fs;
        return;
      }
      var t := RevertRows(DbChosen, rows, fs, reason);
      Delete(operationId);
      r, fs' := Finished(operationId, t), t.fs;
    }

    /** The two deletes. */
    method Delete(id: string)
      requires Valid()
      modifies this
      ensures Valid() && Contents() == Dropped(old(Contents()), id)
    {
      changes := ChangesWithout(changes, {id});
      UniqueWithout(operations, id);
      operations := OpsWithout(operations, id);
    }

    /** `get_history`. */
    function GetHistory(): (h: seq<Operation>)
      reads this
      ensures h == History(Contents())
    {
      var ops, chs := operations, changes;
      seq(|ops|, k requires 0 <= k < |ops| =>
        Operation(ops[|ops| - 1 - k].operationId, ops[|ops| - 1 - k].timestamp, ChangesOf(chs, ops[|ops| - 1 - k].operationId)))
    }

    /** `clear_history`: both tables emptied. */
    method ClearHistory()
      modifies this
      ensures Valid() && Contents() == Tables([], [])
    {
      changes := [];
      operations := [];
    }
  }

  // ---------------------------------------------------------------------
  // Facts about the statements
  // ---------------------------------------------------------------------

  lemma OpIdsCons(ops: seq<OpRow>)
    requires ops != []
    ensures OpIds(ops) == {ops[0].operationId} + OpIds(ops[1..])
  {
    forall x ensures x in OpIds(ops) <==> x in {ops[0].operationId} + OpIds(ops[1..]) {
      if x in OpIds(ops) {
        var i :| 0 <= i < |ops| && ops[i].operationId == x;
        if i > 0 {
          assert ops[1..][i - 1] == ops[i];
        }
      }
      if x in OpIds(ops[1..]) {
        var i :| 0 <= i < |ops[1..]| && ops[1..][i].operationId == x;
        assert ops[i + 1] == ops[1..][i];
      }
    }
  }

  /** Deleting an id's rows leaves exactly the other ids. */
  lemma {:induction false} OpIdsWithout(ops: seq<OpRow>, id: string)
    ensures OpIds(OpsWithout(ops, id)) == OpIds(ops) - {id}
  {
    if ops != [] {
      OpIdsCons(ops);
      OpIdsWithout(ops[1..], id);
      var rest := OpsWithout(ops[1..], id);
      if ops[0].operationId != id {
        assert ([ops[0]] + rest)[1..] == rest;
        OpIdsCons([ops[0]] + rest);
      } else {
        assert OpsWithout(ops, id) == rest;
      }
    }
  }

  lemma {:induction false} ChangesWithoutNone(chs: seq<ChangeRow>)
    ensures ChangesWithout(chs, {}) == chs
  {
    if chs != [] {
      ChangesWithoutNone(chs[1..]);
      assert [chs[0]] + chs[1..] == chs;
    }
  }

  /** One turn of the cleanup loop: the `i`-th oldest operation and its changes go. */
  lemma CleanupStep(db: Tables, i: nat)
    requires i < |db.operations| && UniqueIds(db.operations)
    ensures ChangesWithout(ChangesWithout(db.changes, OpIds(db.operations[..i])), {db.operations[i].operationId})
            == ChangesWithout(db.changes, OpIds(db.operations[..i + 1]))
    ensures OpsWithout(db.operations[i..], db.operations[i].operationId) == db.operations[i + 1..]
  {
    ChangesWithoutTwice(db.changes, OpIds(db.operations[..i]), {db.operations[i].operationId});
    OpIdsSnoc(db.operations, i);
    UniqueSuffix(db.operations, i);
    OpsWithoutHead(db.operations[i..]);
    assert db.operations[i..][1..] == db.operations[i + 1..];
  }

  lemma {:induction false} ChangesWithoutTwice(chs: seq<ChangeRow>, a: set<string>, b: set<string>)
    ensures ChangesWithout(ChangesWithout(chs, a), b) == ChangesWithout(chs, a + b)
  {
    if chs != [] {
      ChangesWithoutTwice(chs[1..], a, b);
      var head := if chs[0].operationId in a then [] else [chs[0]];
      var w := ChangesWithout(chs, a);
      assert w == head + ChangesWithout(chs[1..], a);
      if head != [] {
        assert w[0] == chs[0] && w[1..] == ChangesWithout(chs[1..], a);
      } else {
        assert w == ChangesWithout(chs[1..], a);
      }
    }
  }

  lemma OpIdsSnoc(ops: seq<OpRow>, i: nat)
    requires i < |ops|
    ensures OpIds(ops[..i + 1]) == OpIds(ops[..i]) + {ops[i].operationId}
  {
    assert forall k :: 0 <= k < i ==> ops[..i + 1][k] == ops[..i][k];
    assert ops[..i + 1][i] == ops[i];
  }

  lemma {:induction false} OpsWithoutAbsent(ops: seq<OpRow>, id: string)
    requires id !in OpIds(ops)
    ensures OpsWithout(ops, id) == ops
  {
    if ops != [] {
      assert ops[0].operationId in OpIds(ops);
      assert OpIds(ops[1..]) <= OpIds(ops) by {
        forall x | x in OpIds(ops[1..]) ensures x in OpIds(ops) {
          var i :| 0 <= i < |ops[1..]| && ops[1..][i].operationId == x;
          assert ops[i + 1] == ops[1..][i];
        }
      }
      OpsWithoutAbsent(ops[1..], id);
      assert [ops[0]] + ops[1..] == ops;
    }
  }

  /** With unique ids, deleting the oldest operation's id deletes that row only. */
  lemma OpsWithoutHead(ops: seq<OpRow>)
    requires ops != [] && UniqueIds(ops)
    ensures OpsWithout(ops, ops[0].operationId) == ops[1..]
  {
    assert ops[0].operationId !in OpIds(ops[1..]) by {
      forall i | 0 <= i < |ops[1..]| ensures ops[1..][i].operationId != ops[0].operationId {
        assert ops[1..][i] == ops[i + 1];
      }
    }
    OpsWithoutAbsent(ops[1..], ops[0].operationId);
  }

  lemma UniqueSuffix(ops: seq<OpRow>, n: nat)
    requires n <= |ops| && UniqueIds(ops)
    ensures UniqueIds(ops[n..])
  {
    forall i, j | 0 <= i < j < |ops[n..]| ensures ops[n..][i].operationId != ops[n..][j].operationId {
      assert ops[n..][i] == ops[n + i] && ops[n..][j] == ops[n + j];
    }
  }

  /** Deleting rows keeps the remaining ids unique, and in order. */
  lemma {:induction false} UniqueWithout(ops: seq<OpRow>, id: string)
    requires UniqueIds(ops)
    ensures UniqueIds(OpsWithout(ops, id))
  {
    if ops != [] {
      UniqueSuffix(ops, 1);
      UniqueWithout(ops[1..], id);
      var rest := OpsWithout(ops[1..], id);
      if ops[0].operationId != id {
        assert ops[0].operationId !in OpIds(ops[1..]) by {
          forall i | 0 <= i < |ops[1..]| ensures ops[1..][i].operationId != ops[0].operationId {
            assert ops[1..][i] == ops[i + 1];
          }
        }
        var s := [ops[0]] + rest;
        forall i, j | 0 <= i < j < |s| ensures s[i].operationId != s[j].operationId {
          assert s[j] == rest[j - 1];
          if i == 0 {
            assert rest[j - 1].operationId in OpIds(rest);
            OpIdsWithout(ops[1..], id);
          } else {
            assert s[i] == rest[i - 1];
          }
        }
      }
    }
  }

  lemma {:induction false} ChangesOfAppend(a: seq<ChangeRow>, b: seq<ChangeRow>, x: string)
    ensures ChangesOf(a + b, x) == ChangesOf(a, x) + ChangesOf(b, x)
  {
    if a == [] {
      assert a + b == b;
    } else {
      var head := if a[0].operationId == x then [a[0].change] else [];
      var ab := a + b;
      assert ab[0] == a[0];
      assert ab[1..] == a[1..] + b;
      assert ChangesOf(ab, x) == head + ChangesOf(a[1..] + b, x);
      ChangesOfAppend(a[1..], b, x);
      assert ChangesOf(a, x) == head + ChangesOf(a[1..], x);
      assert head + (ChangesOf(a[1..], x) + ChangesOf(b, x)) == (head + ChangesOf(a[1..], x)) + ChangesOf(b, x);
    }
  }

  lemma {:induction false} ChangesOfRows(id: string, cs: seq<Change>, x: string)
    ensures ChangesOf(RowsFor(id, cs), x) == if x == id then cs else []
  {
    if cs != [] {
      assert RowsFor(id, cs)[1..] == RowsFor(id, cs[1..]);
      ChangesOfRows(id, cs[1..], x);
      assert [cs[0]] + cs[1..] == cs;
    }
  }

  /** Deleting other operations' changes leaves `x`'s changes as they were; deleting `x`'s leaves none. */
  lemma {:induction false} ChangesOfWithout(chs: seq<ChangeRow>, ids: set<string>, x: string)
    ensures ChangesOf(ChangesWithout(chs, ids), x) == if x in ids then [] else ChangesOf(chs, x)
  {
    if chs != [] {
      ChangesOfWithout(chs[1..], ids, x);
      var rest := ChangesWithout(chs[1..], ids);
      if chs[0].operationId !in ids {
        assert ([chs[0]] + rest)[1..] == rest;
      } else {
        assert ChangesWithout(chs, ids) == rest;
      }
    }
  }

  /** An id no change row carries has no changes. */
  lemma {:induction false} ChangesOfAbsent(chs: seq<ChangeRow>, x: string)
    requires forall i :: 0 <= i < |chs| ==> chs[i].operationId != x
    ensures ChangesOf(chs, x) == []
  {
    if chs != [] {
      assert forall i :: 0 <= i < |chs[1..]| ==> chs[1..][i] == chs[i + 1];
      ChangesOfAbsent(chs[1..], x);
    }
  }

  /** A change row left after a delete was there before, and does not carry a deleted id. */
  lemma {:induction false} ChangesWithoutRows(chs: seq<ChangeRow>, ids: set<string>)
    ensures forall i :: 0 <= i < |ChangesWithout(chs, ids)| ==>
              ChangesWithout(chs, ids)[i] in chs && ChangesWithout(chs, ids)[i].operationId !in ids
  {
    if chs != [] {
      ChangesWithoutRows(chs[1..], ids);
      var rest := ChangesWithout(chs[1..], ids);
      var r := ChangesWithout(chs, ids);
      forall i | 0 <= i < |r| ensures r[i] in chs && r[i].operationId !in ids {
        if chs[0].operationId in ids {
          assert r == rest;
          assert rest[i] in chs[1..];
        } else if i > 0 {
          assert r[i] == rest[i - 1] && rest[i - 1] in chs[1..];
        }
      }
    }
  }

  /** With unique ids, deleting the newest operation's id deletes that row only. */
  lemma OpsWithoutLast(ops: seq<OpRow>)
    requires ops != [] && UniqueIds(ops)
    ensures OpsWithout(ops, ops[|ops| - 1].operationId) == ops[..|ops| - 1]
  {
    var n := |ops|;
    var x := ops[n - 1].operationId;
    OpsWithoutSnoc(ops[..n - 1], ops[n - 1], x);
    assert ops[..n - 1] + [ops[n - 1]] == ops;
    var init := ops[..n - 1];
    assert x !in OpIds(init) by {
      forall i | 0 <= i < n - 1 ensures init[i].operationId != x {
        assert init[i] == ops[i];
      }
    }
    OpsWithoutAbsent(ops[..n - 1], x);
  }

  lemma {:induction false} OpsWithoutSnoc(ops: seq<OpRow>, last: OpRow, x: string)
    ensures OpsWithout(ops + [last], x) == OpsWithout(ops, x) + (if last.operationId == x then [] else [last])
  {
    var tail := if last.operationId == x then [] else [last];
    if ops == [] {
      assert [] + [last] == [last] && [last][1..] == [];
      assert OpsWithout([last], x) == tail + OpsWithout([], x);
    } else {
      var head := if ops[0].operationId == x then [] else [ops[0]];
      var s := ops + [last];
      assert s[0] == ops[0];
      assert s[1..] == ops[1..] + [last];
      assert OpsWithout(s, x) == head + OpsWithout(ops[1..] + [last], x);
      OpsWithoutSnoc(ops[1..], last, x);
      assert OpsWithout(ops, x) == head + OpsWithout(ops[1..], x);
      assert head + (OpsWithout(ops[1..], x) + tail) == (head + OpsWithout(ops[1..], x)) + tail;
    }
  }

  /** Deleting an operation keeps every remaining change row linked to a remaining operation. */
  lemma DroppedLinked(db: Tables, id: string)
    requires Linked(db)
    ensures Linked(Dropped(db, id))
  {
    var d := Dropped(db, id);
    ChangesWithoutRows(db.changes, {id});
    OpIdsWithout(db.operations, id);
    forall i | 0 <= i < |d.changes| ensures d.changes[i].operationId in OpIds(d.operations) {
      var row := d.changes[i];
      var j :| 0 <= j < |db.changes| && db.changes[j] == row;
    }
  }

  /**
   * Deleting an operation after an undo attempt removes exactly its id and
   * all its changes; every other operation keeps its changes.
   */
  lemma DroppedKeeps(db: Tables, id: string)
    ensures var d := Dropped(db, id);
            && OpIds(d.operations) == OpIds(db.operations) - {id}
            && ChangesOf(d.changes, id) == []
            && forall x :: x != id ==> ChangesOf(d.changes, x) == ChangesOf(db.changes, x)
  {
    OpIdsWithout(db.operations, id);
    ChangesOfWithout(db.changes, {id}, id);
    forall x | x != id ensures ChangesOf(Dropped(db, id).changes, x) == ChangesOf(db.changes, x) {
      ChangesOfWithout(db.changes, {id}, x);
    }
  }

  // ---------------------------------------------------------------------
  // What the managers promise
  // ---------------------------------------------------------------------

  /** A save rolled back on a duplicate id changes nothing. */
  lemma DuplicateRollsBack(db: Tables, id: string, cs: seq<Change>, now: string)
    requires id in OpIds(db.operations)
    ensures Saved(db, id, cs, now) == db
  {
  }

  /** What a save inserts, before the cleanup: the new entry heads the history, the earlier ones follow unchanged. */
  lemma InsertedHistory(db: Tables, id: string, cs: seq<Change>, now: string)
    requires WellFormed(db) && id !in OpIds(db.operations)
    ensures History(Inserted(db, id, cs, now)) == [Operation(id, now, cs)] + History(db)
  {
    var ins := Inserted(db, id, cs, now);
    var h, h0 := History(ins), History(db);
    var n := |db.operations|;
    assert forall i :: 0 <= i < |db.changes| ==> db.changes[i].operationId != id;
    ChangesOfAbsent(db.changes, id);
    ChangesOfAppend(db.changes, RowsFor(id, cs), id);
    ChangesOfRows(id, cs, id);
    assert ins.operations[n] == OpRow(id, now);
    assert h[0] == Operation(id, now, cs);
    forall k | 1 <= k <= n ensures h[k] == h0[k - 1] {
      InsertedEntry(db, id, cs, now, k);
    }
  }

  lemma InsertedEntry(db: Tables, id: string, cs: seq<Change>, now: string, k: nat)
    requires id !in OpIds(db.operations) && 1 <= k <= |db.operations|
    ensures History(Inserted(db, id, cs, now))[k] == History(db)[k - 1]
  {
    var n := |db.operations|;
    var o := db.operations[n - k];
    assert Inserted(db, id, cs, now).operations[n - k] == o;
    assert o.operationId in OpIds(db.operations);
    ChangesOfAppend(db.changes, RowsFor(id, cs), o.operationId);
    ChangesOfRows(id, cs, o.operationId);
  }

  /** Inserting a fresh operation keeps the tables well formed, one row over the limit at most. */
  lemma InsertedLinked(db: Tables, id: string, cs: seq<Change>, now: string)
    requires WellFormed(db) && id !in OpIds(db.operations)
    ensures var ins := Inserted(db, id, cs, now);
            UniqueIds(ins.operations) && Linked(ins) && |ins.operations| <= MaxHistory + 1
  {
    var ins := Inserted(db, id, cs, now);
    var n := |db.operations|;
    assert OpIds(ins.operations) == OpIds(db.operations) + {id} by {
      OpIdsSnoc(ins.operations, n);
      assert ins.operations[..n] == db.operations && ins.operations[..n + 1] == ins.operations;
    }
    forall i | 0 <= i < n ensures db.operations[i].operationId != id {
      assert db.operations[i].operationId in OpIds(db.operations);
    }
    forall i | 0 <= i < |ins.changes| ensures ins.changes[i].operationId in OpIds(ins.operations) {
      if i >= |db.changes| {
        assert ins.changes[i] == RowsFor(id, cs)[i - |db.changes|];
      }
    }
  }

  /**
   * A save with a fresh id leaves the tables well formed and its history
   * is the new entry, with exactly the changes saved, followed by the
   * earlier entries unchanged; with `MaxHistory` entries already stored
   * the oldest of them is removed with its changes.
   */
  lemma SavedHistory(db: Tables, id: string, cs: seq<Change>, now: string)
    requires WellFormed(db) && id !in OpIds(db.operations)
    ensures WellFormed(Saved(db, id, cs, now))
    ensures History(Saved(db, id, cs, now))
            == [Operation(id, now, cs)] + History(db)[..if |db.operations| < MaxHistory then |db.operations| else MaxHistory - 1]
  {
    var ins := Inserted(db, id, cs, now);
    InsertedHistory(db, id, cs, now);
    InsertedLinked(db, id, cs, now);
    var n := |db.operations|;
    if n < MaxHistory {
      ChangesWithoutNone(ins.changes);
      assert History(db)[..n] == History(db);
    } else {
      ExpireOldest(ins);
    }
  }

  /** Expiring the oldest of `MaxHistory + 1` operations drops the last history entry and keeps the tables well formed. */
  lemma ExpireOldest(ins: Tables)
    requires UniqueIds(ins.operations) && Linked(ins) && |ins.operations| == MaxHistory + 1
    ensures WellFormed(CleanedUp(ins))
    ensures History(CleanedUp(ins)) == History(ins)[..MaxHistory]
  {
    var ops := ins.operations;
    var c := CleanedUp(ins);
    var x := ops[0].operationId;
    assert OpIds(ops[..1]) == {x} by {
      assert ops[..1][0] == ops[0];
    }
    assert c.operations == ops[1..];
    assert c.changes == ChangesWithout(ins.changes, {x});
    OpsWithoutHead(ops);
    assert c == Dropped(ins, x);
    DroppedLinked(ins, x);
    UniqueSuffix(ops, 1);
    var h, h0 := History(c), History(ins);
    forall k | 0 <= k < MaxHistory ensures h[k] == h0[k] {
      var o := ops[MaxHistory - k];
      assert c.operations[MaxHistory - 1 - k] == o;
      assert o.operationId != x;
      ChangesOfWithout(ins.changes, {x}, o.operationId);
    }
  }

  /**
   * `undo_last_operation` on a stored operation: the result accounts for
   * its changes, and the history loses exactly its newest entry.
   */
  lemma UndoLastEffect(db: Tables, fs: Fs, reason: string)
    requires WellFormed(db)
    ensures Latest(db).None? ==> UndoneLast(db, fs, reason) == Undo(Refused("No operations to undo"), fs, db)
    ensures Latest(db).Some? ==>
              var id := Latest(db).value;
              var u := UndoneLast(db, fs, reason);
              && Accounted(u.result, |ChangesOf(db.changes, id)|, AllKnown(ChangesOf(db.changes, id)))
              && u.result.operationId == Some(id)
              && WellFormed(u.db)
              && History(u.db) == History(db)[1..]
  {
    if db.operations != [] {
      var id := Latest(db).value;
      ReportAccounted(DbLatest, id, UndoRows(db, id), fs, reason);
      AllKnownReversed(ChangesOf(db.changes, id));
      FinishedReports(id, Reverted(DbLatest, UndoRows(db, id), Tally(0, 0, [], fs), reason));
      DropNewest(db);
    }
  }

  /** Deleting the newest operation leaves the rest of the history as it was. */
  lemma DropNewest(db: Tables)
    requires WellFormed(db) && db.operations != []
    ensures var d := Dropped(db, Latest(db).value);
            WellFormed(d) && History(d) == History(db)[1..]
  {
    var ops := db.operations;
    var n := |ops|;
    var id := ops[n - 1].operationId;
    var d := Dropped(db, id);
    OpsWithoutLast(ops);
    DroppedLinked(db, id);
    var init := ops[..n - 1];
    assert UniqueIds(init) by {
      forall i, j | 0 <= i < j < n - 1 ensures init[i].operationId != init[j].operationId {
        assert init[i] == ops[i] && init[j] == ops[j];
      }
    }
    forall k | 0 <= k < n - 1 ensures History(d)[k] == History(db)[k + 1] {
      DropNewestEntry(db, k);
    }
  }

  lemma DropNewestEntry(db: Tables, k: nat)
    requires UniqueIds(db.operations) && k + 1 < |db.operations|
    requires OpsWithout(db.operations, Latest(db).value) == db.operations[..|db.operations| - 1]
    ensures History(Dropped(db, Latest(db).value))[k] == History(db)[k + 1]
  {
    var ops := db.operations;
    var n := |ops|;
    var id := ops[n - 1].operationId;
    var o := ops[n - 2 - k];
    var d := Dropped(db, id);
    assert |d.operations| == n - 1;
    assert d.operations[n - 2 - k] == o;
    assert o.operationId != id;
    ChangesOfWithout(db.changes, {id}, o.operationId);
    HistoryAt(d, k);
    HistoryAt(db, k + 1);
    assert n - 1 - (k + 1) == n - 2 - k;
  }

  /** The `k`-th entry of the history, newest first. */
  lemma HistoryAt(db: Tables, k: nat)
    requires k < |db.operations|
    ensures var o := db.operations[|db.operations| - 1 - k];
            History(db)[k] == Operation(o.operationId, o.timestamp, ChangesOf(db.changes, o.operationId))
  {
  }

  /**
   * `undo_operation`: refused without change unless the operation is the
   * latest (when that is required) and has changes; otherwise the result
   * accounts for its changes and the operation goes with all its changes,
   * the other operations keeping theirs.
   */
  lemma UndoChosenEffect(db: Tables, id: string, requireLatest: bool, fs: Fs, reason: string)
    ensures requireLatest && Latest(db) != Some(id) ==>
              UndoneChosen(db, id, requireLatest, fs, reason) == Undo(Refused("Only the latest operation can be undone"), fs, db)
    ensures (!requireLatest || Latest(db) == Some(id)) && ChangesOf(db.changes, id) == [] ==>
              UndoneChosen(db, id, requireLatest, fs, reason) == Undo(Refused("No changes found for this operation"), fs, db)
    ensures (!requireLatest || Latest(db) == Some(id)) && ChangesOf(db.changes, id) != [] ==>
              var u := UndoneChosen(db, id, requireLatest, fs, reason);
              && Accounted(u.result, |ChangesOf(db.changes, id)|, AllKnown(ChangesOf(db.changes, id)))
              && u.result.operationId == Some(id)
              && id !in OpIds(u.db.operations) && OpIds(u.db.operations) == OpIds(db.operations) - {id}
              && ChangesOf(u.db.changes, id) == []
              && forall x :: x != id ==> ChangesOf(u.db.changes, x) == ChangesOf(db.changes, x)
  {
    var rows := UndoRows(db, id);
    assert rows == [] <==> ChangesOf(db.changes, id) == [];
    ReportAccounted(DbChosen, id, rows, fs, reason);
    AllKnownReversed(ChangesOf(db.changes, id));
    FinishedReports(id, Reverted(DbChosen, rows, Tally(0, 0, [], fs), reason));
    DroppedKeeps(db, id);
  }

  /** `get_history` lists the latest operation first. */
  lemma HistoryNewestFirst(db: Tables)
    requires db.operations != []
    ensures History(db)[0].id == Latest(db).value
    ensures forall k :: 0 <= k < |db.operations| ==>
              History(db)[k].changes == ChangesOf(db.changes, History(db)[k].id)
  {
  }
}
