/**
 * The file record every step plans on: `original_path` (where the file is on
 * disk), `current_path` (where the plan has put it so far), the planned
 * action and its destination, and the timestamp the standardize step
 * attaches.  Steps change a record only through `mark_delete`,
 * `mark_rename` and `mark_move`, plus the few direct field writes that the
 * standardize, transfer and server code perform.
 */
module Models {
  import opened Common
  import opened Paths
  import opened DateTimes
  import opened Config
  import FileSystem

  datatype ActionType = NoAction | Delete | Rename | Move

  /** `ActionType.name`, as stored in undo records. */
  function ActionName(a: ActionType): string
  {
    match a
    case NoAction => "NONE"
    case Delete => "DELETE"
    case Rename => "RENAME"
    case Move => "MOVE"
  }

  /** The observable fields of one `FileItem`. */
  datatype ItemState = ItemState(original: Path, current: Path, action: ActionType,
                                 destination: Option<Path>, metadataTs: Option<DateTime>)

  /** A freshly scanned record: both paths equal, no action, nothing attached. */
  function Scanned(p: Path): (s: ItemState)
    ensures s.original == p && s.current == p && s.action == NoAction
    ensures s.destination.None? && s.metadataTs.None?
  {
    ItemState(p, p, NoAction, None, None)
  }

  /** The effect of `mark_delete`: the action alone changes. */
  function Deleted(s: ItemState): (r: ItemState)
    ensures r.action == Delete
    ensures r.original == s.original && r.current == s.current
    ensures r.destination == s.destination && r.metadataTs == s.metadataTs
  {
    s.(action := Delete)
  }

  /** The effect of `mark_rename(n)`: same folder, new name, destination follows. */
  function Renamed(s: ItemState, n: string): (r: ItemState)
    ensures r.action == Rename
    ensures Parent(r.current) == Parent(s.current) && Name(r.current) == n
    ensures r.destination == Some(r.current)
    ensures r.original == s.original && r.metadataTs == s.metadataTs
  {
    var c := WithName(s.current, n);
    s.(action := Rename, current := c, destination := Some(c))
  }

  /** The effect of `mark_move(folder)`: new folder, same name, destination follows. */
  function Moved(s: ItemState, folder: Path): (r: ItemState)
    ensures r.action == Move
    ensures Parent(r.current) == folder && Name(r.current) == Name(s.current)
    ensures r.destination == Some(r.current)
    ensures r.original == s.original && r.metadataTs == s.metadataTs
  {
    var c := Child(folder, Name(s.current));
    s.(action := Move, current := c, destination := Some(c))
  }

  /** A rename followed by a move keeps the new name and lands in the new folder. */
  lemma RenameThenMove(s: ItemState, n: string, folder: Path)
    ensures var r := Moved(Renamed(s, n), folder);
      r.current == folder + [n] && r.destination == Some(folder + [n])
      && r.action == Move && r.original == s.original
  {
  }

  class FileItem {
    var originalPath: Path
    var currentPath: Path
    var action: ActionType
    var destinationPath: Option<Path>
    var metadataTimestamp: Option<DateTime>

    constructor (original: Path, current: Path)
      ensures State() == ItemState(original, current, NoAction, None, None)
    {
      originalPath := original;
      currentPath := current;
      action := NoAction;
      destinationPath := None;
      metadataTimestamp := None;
    }

    function State(): ItemState
      reads this
    {
      ItemState(originalPath, currentPath, action, destinationPath, metadataTimestamp)
    }

    /** The `name` property: always the name of `current_path`. */
    function Name(): (n: string)
      reads this
      ensures n == Paths.Name(State().current)
    {
      Paths.Name(currentPath)
    }

    /** The `suffix` property: always the suffix of `current_path`'s name. */
    function Suffix(): (x: string)
      reads this
      ensures x == Paths.Suffix(Paths.Name(State().current))
    {
      Paths.Suffix(Paths.Name(currentPath))
    }

    method MarkDelete()
      modifies this
      ensures State() == Deleted(old(State()))
    {
      action := Delete;
    }

    method MarkRename(newName: string)
      modifies this
      ensures State() == Renamed(old(State()), newName)
    {
      action := Rename;
      currentPath := WithName(currentPath, newName);
      destinationPath := Some(currentPath);
    }

    method MarkMove(newFolder: Path)
      modifies this
      ensures State() == Moved(old(State()), newFolder)
    {
      action := Move;
      currentPath := Child(newFolder, Paths.Name(currentPath));
      destinationPath := Some(currentPath);
    }
  }

  /** No record appears twice in a list (the scanner creates a fresh record per file). */
  ghost predicate Distinct(items: seq<FileItem>)
  {
    forall i, j :: 0 <= i < j < |items| ==> items[i] != items[j]
  }

  /** The states of a list of records, in order. */
  function States(items: seq<FileItem>): (r: seq<ItemState>)
    reads items
    ensures |r| == |items|
    ensures forall k :: 0 <= k < |items| ==> r[k] == items[k].State()
  {
    seq(|items|, k requires 0 <= k < |items| reads items => items[k].State())
  }

  /** The records' states together with the filesystem they are planned or executed on. */
  datatype World = World(states: seq<ItemState>, fs: FileSystem.Fs)

  /** The `Context` every step receives; the configuration is the server's `PipelineConfig`. */
  datatype Context = Context(dryRun: bool, sourceRoot: Path, targetRoot: Path, config: PipelineConfig)
}
