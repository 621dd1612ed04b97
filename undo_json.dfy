/**
 * `UndoManager`: the undo history kept as a JSON list in one file.  Every
 * call reads the whole list and writes it back; a missing or unreadable
 * file reads as the empty list.  The clock (`datetime.now()`) and the text
 * of a raising `shutil.move` are parameters.
 */
module UndoJson {
  import opened Common
  import opened FileSystem
  import opened UndoHistory

  /** The history file as the manager finds it. */
  datatype HistoryFile = Missing | Corrupt | Stored(operations: seq<Operation>)

  class UndoManager {
    var file: HistoryFile

    constructor (file: HistoryFile)
      ensures this.file == file
    {
      this.file := file;
    }

    /** `_load_history`, and `get_history` with it: a missing or unreadable file reads as no entries. */
    function LoadHistory(): (h: seq<Operation>)
      reads this
      ensures file.Stored? ==> h == file.operations
      ensures !file.Stored? ==> h == []
    {
      if file.Stored? then file.operations else []
    }

    /** `save_operation`: the entry goes last and only the newest `MaxHistory` are written back. */
    method SaveOperation(operationId: string, changes: seq<Change>, now: string)
      modifies this
      ensures file == Stored(Newest(old(LoadHistory()) + [Operation(operationId, now, changes)]))
      ensures |LoadHistory()| <= MaxHistory
      ensures LoadHistory()[|LoadHistory()| - 1] == Operation(operationId, now, changes)
    {
      var history := LoadHistory();
      history := history + [Operation(operationId, now, changes)];
      if |history| > MaxHistory {
        history := history[|history| - MaxHistory..];
      }
      file := Stored(history);
    }

    /**
     * `undo_last_operation`: with no entries, a refusal and the file left as
     * it is; otherwise the last entry's changes are reversed newest first and
     * the history is written back without that entry, whatever the outcome.
     */
    method UndoLastOperation(fs: Fs, reason: string) returns (r: UndoResult, fs': Fs)
      modifies this
      ensures old(LoadHistory()) == [] ==> r == Refused("No operations to undo") && fs' == fs && file == old(file)
      ensures old(LoadHistory()) != [] ==>
                var h := old(LoadHistory());
                var last := h[|h| - 1];
                var t := Reverted(JsonFile, Reversed(last.changes), Tally(0, 0, [], fs), reason);
                r == Finished(last.id, t) && fs' == t.fs && file == Stored(h[..|h| - 1])
    {
      var history := LoadHistory();
      if history == [] {
        r := Refused("No operations to undo");
        fs' := fs;
        return;
      }
      var last := history[|history| - 1];
      history := history[..|history| - 1];
      var t := RevertRows(JsonFile, Reversed(last.changes), fs, reason);
      file := Stored(history);
      r := Finished(last.id, t);
      fs' := t.fs;
    }

    /** `clear_history`: an empty list is written. */
    method ClearHistory()
      modifies this
      ensures file == Stored([]) && LoadHistory() == []
    {
      file := Stored([]);
    }
  }

  /**
   * The undo's result accounts for the last entry's changes: success
   * exactly when something was undone, a message stating both counts,
   * every change counted at most once (exactly once when every action is
   * known), one error per failure.
   */
  lemma UndoReport(last: Operation, fs: Fs, reason: string)
    ensures Accounted(Finished(last.id, Reverted(JsonFile, Reversed(last.changes), Tally(0, 0, [], fs), reason)),
                      |last.changes|, AllKnown(last.changes))
  {
    ReportAccounted(JsonFile, last.id, Reversed(last.changes), fs, reason);
    AllKnownReversed(last.changes);
  }

  /** Undoing deletions only: every one of them fails and no path changes. */
  lemma {:induction false} DeletionsNeverRestored(rows: seq<Change>, t: Tally, reason: string)
    requires forall i :: 0 <= i < |rows| ==> rows[i].action == "DELETE"
    ensures var r := Reverted(JsonFile, rows, t, reason);
            r.undone == t.undone && r.failed == t.failed + |rows| && r.fs == t.fs
  {
    if rows != [] {
      var init := rows[..|rows| - 1];
      assert forall i :: 0 <= i < |init| ==> init[i].action == "DELETE" by {
        forall i | 0 <= i < |init| ensures init[i].action == "DELETE" {
          assert init[i] == rows[i];
        }
      }
      DeletionsNeverRestored(init, t, reason);
    }
  }
}
