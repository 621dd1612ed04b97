/**
 * What the three undo managers share: the recorded change, the result
 * dictionary an undo returns, its message, reversing one change on the
 * filesystem, and `_cleanup_empty_parents`.  The managers differ in how
 * they treat a recorded deletion: the JSON-file manager always counts it
 * as failed, the database managers restore it from the trash, and only
 * `undo_operation` tidies the trash folders afterwards.
 */
module UndoHistory {
  import opened Common
  import opened Strings
  import opened Paths
  import opened FileSystem

  /** `max_history`. */
  const MaxHistory: nat := 10

  /** The newest `MaxHistory` entries, oldest first (`history[-max_history:]` when there are more). */
  function Newest<T>(h: seq<T>): (r: seq<T>)
    ensures |r| <= MaxHistory
  {
    if |h| > MaxHistory then h[|h| - MaxHistory..] else h
  }

  /**
   * Retention keeps the newest entries in their order: a suffix of the
   * history, all of it when it is short enough, exactly `MaxHistory`
   * entries otherwise, the newest one last.
   */
  lemma NewestKept<T>(h: seq<T>)
    ensures var r := Newest(h);
            && |r| == (if |h| > MaxHistory then MaxHistory else |h|)
            && r == h[|h| - |r|..]
            && (h != [] ==> r != [] && r[|r| - 1] == h[|h| - 1])
  {
  }

  /** One recorded change: the path before, the path after, and the action's name. */
  datatype Change = Change(original: Path, newPath: Path, action: string)

  /** One saved operation, as stored and as `get_history` lists it. */
  datatype Operation = Operation(id: string, timestamp: string, changes: seq<Change>)

  /** The dictionary an undo returns; `operation_id` is absent on the early refusals. */
  datatype UndoResult = UndoResult(success: bool, message: string, operationId: Option<string>,
                                   undone: nat, failed: nat, errors: seq<string>)

  /**
   * An early refusal: nothing undone, nothing failed.  The source's refusal
   * dictionaries carry no `operation_id`, `failed_count` or `errors` keys;
   * here the missing counts read as 0 and the missing errors as [].
   */
  function Refused(message: string): UndoResult
  {
    UndoResult(false, message, None, 0, 0, [])
  }

  // ---------------------------------------------------------------------
  // The result message
  // ---------------------------------------------------------------------

  /** `f"Undone {undone_count} changes" + (f", {failed_count} failed" if failed_count > 0 else "")`. */
  function Message(undone: nat, failed: nat): string
  {
    "Undone " + (NatStr(undone) + MessageTail(failed))
  }

  function MessageTail(failed: nat): string
  {
    " changes" + (if failed > 0 then ", " + NatStr(failed) + " failed" else "")
  }

  /** The longest prefix of decimal digits. */
  function TakeDigits(s: string): (r: string)
    ensures AllDigits(r) && |r| <= |s| && r == s[..|r|]
  {
    if s == [] || !IsDigit(s[0]) then [] else [s[0]] + TakeDigits(s[1..])
  }

  lemma {:induction false} TakeDigitsOf(d: string, rest: string)
    requires AllDigits(d) && (rest == [] || !IsDigit(rest[0]))
    ensures TakeDigits(d + rest) == d
  {
    if d != [] {
      assert (d + rest)[1..] == d[1..] + rest;
      TakeDigitsOf(d[1..], rest);
    } else {
      assert d + rest == rest;
    }
  }

  /** Reading a result message back: the two counts it reports. */
  function ParseMessage(m: string): Option<(nat, nat)>
  {
    if StartsWith(m, "Undone ") then ParseCount(m[7..]) else None
  }

  function ParseCount(rest: string): Option<(nat, nat)>
  {
    var d := TakeDigits(rest);
    if d == [] then None else ParseTail(DigitsVal(d), rest[|d|..])
  }

  function ParseTail(n: nat, after: string): Option<(nat, nat)>
  {
    if after == " changes" then Some((n, 0))
    else if StartsWith(after, " changes, ") then ParseFailed(n, after[10..])
    else None
  }

  function ParseFailed(n: nat, tail: string): Option<(nat, nat)>
  {
    var d := TakeDigits(tail);
    if d != [] && tail[|d|..] == " failed" then Some((n, DigitsVal(d))) else None
  }

  /** A number's digits followed by a non-digit are read back as that number, leaving the rest. */
  lemma ReadNumber(n: nat, rest: string)
    requires rest == [] || !IsDigit(rest[0])
    ensures var s := NatStr(n) + rest;
            var d := TakeDigits(s);
            d == NatStr(n) && DigitsVal(d) == n && s[|d|..] == rest
  {
    TakeDigitsOf(NatStr(n), rest);
    NatStrRoundTrip(n);
    assert (NatStr(n) + rest)[|NatStr(n)|..] == rest;
  }

  lemma Split(p: string, s: string)
    ensures (p + s)[..|p|] == p && (p + s)[|p|..] == s
  {
  }

  lemma TailRoundTrip(n: nat, failed: nat)
    ensures ParseTail(n, MessageTail(failed)) == Some((n, failed))
  {
    if failed > 0 {
      var f := NatStr(failed) + " failed";
      assert MessageTail(failed) == " changes, " + f;
      Split(" changes, ", f);
      assert |MessageTail(failed)| > 8;
      ReadNumber(failed, " failed");
    }
  }

  /** The message states both counts exactly: reading it back gives them. */
  lemma MessageRoundTrip(undone: nat, failed: nat)
    ensures ParseMessage(Message(undone, failed)) == Some((undone, failed))
  {
    Split("Undone ", NatStr(undone) + MessageTail(failed));
    ReadNumber(undone, MessageTail(failed));
    TailRoundTrip(undone, failed);
  }

  // ---------------------------------------------------------------------
  // `_cleanup_empty_parents`
  // ---------------------------------------------------------------------

  /** `max_levels`' default. */
  const ParentLevels: nat := 6

  /** The walk up from `current`: each parent that is an empty directory is removed, at most `left` of them. */
  function PrunedParents(current: Path, fs: Fs, left: nat): Fs
    decreases left
  {
    if left == 0 then fs
    else
      var parent := Parent(current);
      if parent == current then fs
      else if parent in fs.dirs && EmptyDir(fs, parent) then PrunedParents(parent, Rmdir(fs, parent).fs, left - 1)
      else fs
  }

  method CleanupEmptyParents(start: Path, maxLevels: nat, fs: Fs) returns (fs': Fs)
    ensures fs' == PrunedParents(start, fs, maxLevels)
  {
    var current := start;
    var levels: nat := 0;
    fs' := fs;
    while levels < maxLevels
      invariant levels <= maxLevels
      invariant PrunedParents(current, fs', maxLevels - levels) == PrunedParents(start, fs, maxLevels)
      decreases maxLevels - levels
    {
      var parent := Parent(current);
      if parent == current {
        break;
      }
      if parent in fs'.dirs && EmptyDir(fs', parent) {
        fs' := Rmdir(fs', parent).fs;
      } else {
        break;
      }
      current := parent;
      levels := levels + 1;
    }
  }

  /** The `j`-th ancestor of `p`. */
  function Up(p: Path, j: nat): Path
  {
    if j == 0 then p else Up(Parent(p), j - 1)
  }

  /** The `j` nearest ancestors of `p`. */
  function Ups(p: Path, j: nat): set<Path>
  {
    if j == 0 then {} else {Parent(p)} + Ups(Parent(p), j - 1)
  }

  /** How many parents the walk removes. */
  function PrunedCount(current: Path, fs: Fs, left: nat): nat
    decreases left
  {
    if left == 0 then 0
    else
      var parent := Parent(current);
      if parent == current then 0
      else if parent in fs.dirs && EmptyDir(fs, parent) then 1 + PrunedCount(parent, Rmdir(fs, parent).fs, left - 1)
      else 0
  }

  /**
   * The walk removes only directories, at most `left` of them, and exactly
   * the nearest ancestors of `current`.
   */
  lemma {:induction false} PrunedShape(current: Path, fs: Fs, left: nat)
    ensures var r, j := PrunedParents(current, fs, left), PrunedCount(current, fs, left);
            && j <= left
            && r.files == fs.files && Ups(current, j) <= fs.dirs && r.dirs == fs.dirs - Ups(current, j)
  {
    if left != 0 {
      var parent := Parent(current);
      if parent != current && parent in fs.dirs && EmptyDir(fs, parent) {
        PrunedShape(parent, Rmdir(fs, parent).fs, left - 1);
      }
    }
  }

  /**
   * Each removed parent was an empty directory when removed, and the walk
   * stops early only at the top of the tree or at the first parent that is
   * not an empty directory.
   */
  lemma {:induction false} PrunedStops(current: Path, fs: Fs, left: nat)
    ensures var r, j := PrunedParents(current, fs, left), PrunedCount(current, fs, left);
            j < left ==> var p := Up(current, j);
                         Parent(p) == p || !(Parent(p) in r.dirs && EmptyDir(r, Parent(p)))
  {
    if left != 0 {
      var parent := Parent(current);
      if parent != current && parent in fs.dirs && EmptyDir(fs, parent) {
        PrunedStops(parent, Rmdir(fs, parent).fs, left - 1);
      }
    }
  }

  // ---------------------------------------------------------------------
  // Reversing the recorded changes
  // ---------------------------------------------------------------------

  /** The three managers: the JSON file, the database's `undo_last_operation`, and its `undo_operation`. */
  datatype Reverter = JsonFile | DbLatest | DbChosen

  /** The counters, the error list and the filesystem, as the undo loop updates them. */
  datatype Tally = Tally(undone: nat, failed: nat, errors: seq<string>, fs: Fs)

  function Failed(t: Tally, error: string): Tally
  {
    t.(failed := t.failed + 1, errors := t.errors + [error])
  }

  /**
   * Moving `new` back to `original` after creating its folder; a raising
   * `shutil.move` counts as failed with the exception's text `reason`, and
   * the folder stays created.
   */
  function Restore(c: Change, t: Tally, tidy: bool, reason: string): Tally
  {
    var m := FileSystem.Move(MakeDirs(t.fs, Parent(c.original)), c.newPath, c.original);
    if !m.ok then Failed(t.(fs := m.fs), reason)
    else t.(undone := t.undone + 1, fs := if tidy then PrunedParents(c.newPath, m.fs, ParentLevels) else m.fs)
  }

  /** The loop body on one change, for the manager `k`. */
  function Revert(k: Reverter, c: Change, t: Tally, reason: string): Tally
  {
    if c.action == "DELETE" then
      if k != JsonFile && Exists(t.fs, c.newPath) then Restore(c, t, k == DbChosen, reason)
      else Failed(t, "Cannot restore deleted file: " + Name(c.original))
    else if c.action == "RENAME" || c.action == "MOVE" then
      if Exists(t.fs, c.newPath) then Restore(c, t, k != JsonFile, reason)
      else Failed(t, "File not found: " + Name(c.newPath))
    else t
  }

  /** The loop over `rows`, in order, from `t`. */
  function Reverted(k: Reverter, rows: seq<Change>, t: Tally, reason: string): Tally
  {
    if rows == [] then t else Revert(k, rows[|rows| - 1], Reverted(k, rows[..|rows| - 1], t, reason), reason)
  }

  /** The undo loop, shared by the three managers. */
  method RevertRows(k: Reverter, rows: seq<Change>, fs: Fs, reason: string) returns (t: Tally)
    ensures t == Reverted(k, rows, Tally(0, 0, [], fs), reason)
  {
    t := Tally(0, 0, [], fs);
    for i := 0 to |rows|
      invariant t == Reverted(k, rows[..i], Tally(0, 0, [], fs), reason)
    {
      assert rows[..i + 1][..i] == rows[..i];
      var c := rows[i];
      if c.action == "DELETE" {
        if k != JsonFile && Exists(t.fs, c.newPath) {
          t := Restore(c, t, k == DbChosen, reason);
        } else {
          t := Failed(t, "Cannot restore deleted file: " + Name(c.original));
        }
      } else if c.action == "RENAME" || c.action == "MOVE" {
        if Exists(t.fs, c.newPath) {
          t := Restore(c, t, k != JsonFile, reason);
        } else {
          t := Failed(t, "File not found: " + Name(c.newPath));
        }
      }
    }
    assert rows[..|rows|] == rows;
  }

  /** The result dictionary after the loop. */
  function Finished(operationId: string, t: Tally): UndoResult
  {
    UndoResult(t.undone > 0, Message(t.undone, t.failed), Some(operationId), t.undone, t.failed, t.errors)
  }

  /** An action the loop knows. */
  predicate Known(c: Change)
  {
    c.action == "DELETE" || c.action == "RENAME" || c.action == "MOVE"
  }

  /** One change is counted at most once, as undone or as failed, with one error per failure; exactly once when its action is known. */
  lemma RevertCounts(k: Reverter, c: Change, t: Tally, reason: string)
    ensures var r := Revert(k, c, t, reason);
            && r.undone >= t.undone && r.failed >= t.failed
            && r.undone + r.failed == t.undone + t.failed + (if Known(c) then 1 else 0)
            && |r.errors| - |t.errors| == r.failed - t.failed
            && r.errors[..|t.errors|] == t.errors
  {
    assert (t.errors + [reason])[..|t.errors|] == t.errors;
    assert (t.errors + ["Cannot restore deleted file: " + Name(c.original)])[..|t.errors|] == t.errors;
    assert (t.errors + ["File not found: " + Name(c.newPath)])[..|t.errors|] == t.errors;
  }

  /**
   * Every change is counted at most once, as undone or as failed, with one
   * error per failure appended in order; exactly once when every action is known.
   */
  lemma {:induction false} RevertedCounts(k: Reverter, rows: seq<Change>, t: Tally, reason: string)
    ensures var r := Reverted(k, rows, t, reason);
            && r.undone >= t.undone && r.failed >= t.failed
            && r.undone + r.failed <= t.undone + t.failed + |rows|
            && ((forall i :: 0 <= i < |rows| ==> Known(rows[i])) ==> r.undone + r.failed == t.undone + t.failed + |rows|)
            && |r.errors| - |t.errors| == r.failed - t.failed
            && r.errors[..|t.errors|] == t.errors
  {
    if rows != [] {
      var init := rows[..|rows| - 1];
      RevertedCounts(k, init, t, reason);
      var p := Reverted(k, init, t, reason);
      RevertCounts(k, rows[|rows| - 1], p, reason);
      var r := Reverted(k, rows, t, reason);
      assert r.errors[..|t.errors|] == r.errors[..|p.errors|][..|t.errors|];
      if forall i :: 0 <= i < |rows| ==> Known(rows[i]) {
        assert forall i :: 0 <= i < |init| ==> Known(init[i]) by {
          forall i | 0 <= i < |init| ensures Known(init[i]) {
            assert init[i] == rows[i];
          }
        }
      }
    }
  }

  /** The result reports success exactly when something was undone, and its message states both counts. */
  lemma FinishedReports(operationId: string, t: Tally)
    ensures var r := Finished(operationId, t);
            (r.success <==> r.undone > 0) && r.operationId == Some(operationId)
            && ParseMessage(r.message) == Some((r.undone, r.failed))
  {
    MessageRoundTrip(t.undone, t.failed);
  }

  /** Every action in `rows` is one the loop knows. */
  predicate AllKnown(rows: seq<Change>)
  {
    forall i :: 0 <= i < |rows| ==> Known(rows[i])
  }

  /**
   * What an undo's result reports about `n` changes: success exactly when
   * something was undone, a message stating both counts, each change
   * counted at most once (exactly once when `allKnown`), one error per failure.
   */
  predicate Accounted(r: UndoResult, n: nat, allKnown: bool)
  {
    && (r.success <==> r.undone > 0)
    && ParseMessage(r.message) == Some((r.undone, r.failed))
    && r.undone + r.failed <= n
    && (allKnown ==> r.undone + r.failed == n)
    && |r.errors| == r.failed
  }

  /** The result after the loop over `rows` accounts for exactly those rows. */
  lemma ReportAccounted(k: Reverter, operationId: string, rows: seq<Change>, fs: Fs, reason: string)
    ensures Accounted(Finished(operationId, Reverted(k, rows, Tally(0, 0, [], fs), reason)), |rows|, AllKnown(rows))
  {
    RevertedCounts(k, rows, Tally(0, 0, [], fs), reason);
    FinishedReports(operationId, Reverted(k, rows, Tally(0, 0, [], fs), reason));
  }

  /** The JSON-file manager never restores a deletion: it counts as failed and nothing moves. */
  lemma JsonDeleteFails(c: Change, t: Tally, reason: string)
    requires c.action == "DELETE"
    ensures Revert(JsonFile, c, t, reason) == Failed(t, "Cannot restore deleted file: " + Name(c.original))
  {
  }

  /**
   * A rename or move, or for the database managers a deletion, whose file
   * is at `new` goes back to `original` when that is not a directory; the
   * only directories created are `original`'s folders, and only
   * directories may disappear besides.
   */
  lemma RestoreMovesBack(k: Reverter, c: Change, t: Tally, reason: string)
    requires c.action == "RENAME" || c.action == "MOVE" || (c.action == "DELETE" && k != JsonFile)
    requires c.newPath in t.fs.files && c.original != [] && c.original !in t.fs.dirs
    ensures var r := Revert(k, c, t, reason);
            r.undone == t.undone + 1 && r.failed == t.failed && r.errors == t.errors
            && r.fs.files == t.fs.files - {c.newPath} + {c.original}
            && r.fs.dirs <= MakeDirs(t.fs, Parent(c.original)).dirs
  {
    var fs1 := MakeDirs(t.fs, Parent(c.original));
    assert c.original !in Ancestors(Parent(c.original));
    assert c.original != Parent(c.original);
    assert MoveTarget(fs1, c.newPath, c.original) == c.original;
    var m := FileSystem.Move(fs1, c.newPath, c.original);
    assert m.ok;
    PrunedShape(c.newPath, m.fs, ParentLevels);
  }

  /** A change whose file is gone counts as failed, naming the file, and nothing moves. */
  lemma MissingFails(k: Reverter, c: Change, t: Tally, reason: string)
    requires Known(c) && !Exists(t.fs, c.newPath)
    ensures var r := Revert(k, c, t, reason);
            r.undone == t.undone && r.failed == t.failed + 1 && r.fs == t.fs
            && r.errors == t.errors + [if c.action == "DELETE" then "Cannot restore deleted file: " + Name(c.original)
                                       else "File not found: " + Name(c.newPath)]
  {
  }

  /** A change with an action the loop does not know is skipped: nothing is counted and nothing moves. */
  lemma UnknownSkipped(k: Reverter, c: Change, t: Tally, reason: string)
    requires !Known(c)
    ensures Revert(k, c, t, reason) == t
  {
  }

  /** `reversed(changes)`. */
  function Reversed<T>(s: seq<T>): (r: seq<T>)
    ensures |r| == |s| && forall i :: 0 <= i < |s| ==> r[i] == s[|s| - 1 - i]
  {
    seq(|s|, i requires 0 <= i < |s| => s[|s| - 1 - i])
  }

  /** Reversing keeps which actions occur. */
  lemma AllKnownReversed(s: seq<Change>)
    ensures AllKnown(Reversed(s)) <==> AllKnown(s)
  {
    var r := Reversed(s);
    if AllKnown(r) {
      forall i | 0 <= i < |s| ensures Known(s[i]) {
        assert s[i] == r[|s| - 1 - i];
      }
    }
  }

  /**
   * Why the changes are reversed newest first: a rename `a -> b` followed
   * by a move `b -> c` is undone by moving `c` back to `b` and then `b`
   * back to `a`, which puts the file where it started.
   */
  lemma ChainRestored(k: Reverter, a: Path, b: Path, c: Path, fs: Fs, reason: string)
    requires a != [] && b != [] && Parent(a) == Parent(b) && a != b && b != c && a != c
    requires c in fs.files && a !in fs.dirs && b !in fs.dirs && b !in fs.files
    ensures var rows := Reversed([Change(a, b, "RENAME"), Change(b, c, "MOVE")]);
            var r := Reverted(k, rows, Tally(0, 0, [], fs), reason);
            r.undone == 2 && r.failed == 0 && r.fs.files == fs.files - {c} + {a}
  {
    var rows := Reversed([Change(a, b, "RENAME"), Change(b, c, "MOVE")]);
    assert rows == [Change(b, c, "MOVE"), Change(a, b, "RENAME")];
    assert rows[..1] == [Change(b, c, "MOVE")] && rows[..1][..0] == [];
    var t0 := Tally(0, 0, [], fs);
    RestoreMovesBack(k, Change(b, c, "MOVE"), t0, reason);
    var t1 := Revert(k, Change(b, c, "MOVE"), t0, reason);
    assert Reverted(k, rows[..1], t0, reason) == t1;
    assert a !in t1.fs.dirs by {
      assert |a| == |Parent(a)| + 1;
      assert a !in Ancestors(Parent(b)) && a != Parent(b);
    }
    RestoreMovesBack(k, Change(a, b, "RENAME"), t1, reason);
  }
}
