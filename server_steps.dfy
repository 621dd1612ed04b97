/**
 * `run_step_logic`: one step of the server's pipeline on a list of records.
 * The records are scanned afresh, or reused from the step before with their
 * action and destination cleared; the step's class plans on them; outside
 * a dry run the changes are executed, the undo records are collected
 * (renames and moves before execution, deletions with their trash paths
 * after it), deleted records are dropped and moved or renamed ones are
 * rebased onto their destination, the undo records are optionally saved,
 * and the step's cleanup runs.  The report is built from the records that
 * remain.
 */
module ServerSteps {
  import opened Common
  import opened Paths
  import opened FileSystem
  import opened Config
  import opened Models
  import Scanner
  import Pipeline
  import Execute
  import TransferCleanup
  import opened UndoHistory
  import UndoDb
  import opened ServerReport

  // ---------------------------------------------------------------------
  // Step ids and their classes
  // ---------------------------------------------------------------------

  datatype StepId = StandardizeId | DeduplicateId | FilenameId | PrefixId | RenameId
                  | CleanExtensionId | GroupId | TransferId

  /** The id's value, as the client sends it and as operation ids start. */
  function StepValue(id: StepId): string
  {
    match id
    case StandardizeId => "standardize"
    case DeduplicateId => "deduplicate"
    case FilenameId => "filename"
    case PrefixId => "prefix"
    case RenameId => "rename"
    case CleanExtensionId => "clean_extension"
    case GroupId => "group"
    case TransferId => "transfer"
  }

  /** `STEP_CLASS_MAP.get(step_id)`: five ids have a class, the other three none. */
  function StepClass(id: StepId): (k: Option<Pipeline.StepKind>)
    ensures k.None? <==> id == PrefixId || id == RenameId || id == CleanExtensionId
  {
    match id
    case StandardizeId => Some(Pipeline.StandardizeKind)
    case DeduplicateId => Some(Pipeline.DeduplicateKind)
    case FilenameId => Some(Pipeline.FilenameKind)
    case GroupId => Some(Pipeline.GroupKind)
    case TransferId => Some(Pipeline.TransferKind)
    case _ => None
  }

  /** No two ids share a value, and no two ids that have a class share it. */
  lemma StepIdsDistinct(a: StepId, b: StepId)
    ensures StepClass(a).Some? && StepClass(a) == StepClass(b) ==> a == b
    ensures StepValue(a) == StepValue(b) ==> a == b
  {
  }

  /** The error `run_step_logic` raises for an id without a class. */
  function NoHandler(id: StepId): string
  {
    "No handler for step " + StepValue(id)
  }

  /** The `Context` `run_step_logic` builds from the configuration. */
  function ContextOf(config: PipelineConfig): (ctx: Context)
    ensures ctx.dryRun == config.isDryRun && ctx.config == config
  {
    Context(config.isDryRun, PathOf(config.sourceDir), PathOf(config.targetDir), config)
  }

  // ---------------------------------------------------------------------
  // The record-level pieces
  // ---------------------------------------------------------------------

  /** The reset before a reused step: no action, no destination, the rest kept. */
  function Cleared(st: ItemState): (r: ItemState)
    ensures r.action == NoAction && r.destination.None?
    ensures r.original == st.original && r.current == st.current && r.metadataTs == st.metadataTs
  {
    st.(action := NoAction, destination := None)
  }

  function ClearedAll(states: seq<ItemState>): (r: seq<ItemState>)
    ensures |r| == |states| && forall k :: 0 <= k < |states| ==> r[k] == Cleared(states[k])
  {
    seq(|states|, k requires 0 <= k < |states| => Cleared(states[k]))
  }

  /** The freshly scanned states of the scanned paths. */
  function ScannedAll(paths: seq<Path>): (r: seq<ItemState>)
    ensures |r| == |paths| && forall k :: 0 <= k < |paths| ==> r[k] == Scanned(paths[k])
  {
    seq(|paths|, k requires 0 <= k < |paths| => Scanned(paths[k]))
  }

  /** A rename or move with a destination, which the undo records capture before execution. */
  predicate Relocates(st: ItemState)
  {
    (st.action == Rename || st.action == Move) && st.destination.Some?
  }

  /** A deletion that reached the trash, which the undo records capture after execution. */
  predicate Trashed(st: ItemState)
  {
    st.action == Delete && st.destination.Some?
  }

  /** The undo record of a record: where it was, where it went, and the action's name. */
  function UndoOf(st: ItemState): Change
    requires st.destination.Some?
  {
    Change(st.original, st.destination.value, ActionName(st.action))
  }

  /** One of the two capture loops: the relocations (`deletes` false) or the trashed deletions. */
  function UndoRecords(states: seq<ItemState>, deletes: bool): seq<Change>
  {
    if states == [] then []
    else
      var st := states[|states| - 1];
      UndoRecords(states[..|states| - 1], deletes)
      + (if (if deletes then Trashed(st) else Relocates(st)) then [UndoOf(st)] else [])
  }

  /** The rebasing after execution: a relocated record now is, and comes from, its destination. */
  function Rebased(st: ItemState): (r: ItemState)
    ensures Relocates(st) ==> r.original == st.destination.value && r.current == st.destination.value
    ensures r.action == st.action && r.destination == st.destination && r.metadataTs == st.metadataTs
    ensures !Relocates(st) ==> r == st
  {
    if Relocates(st) then st.(original := st.destination.value, current := st.destination.value) else st
  }

  /** The records that go on to the next step: deletions dropped, the others rebased. */
  function Survivors(states: seq<ItemState>): seq<ItemState>
  {
    if states == [] then []
    else
      var st := states[|states| - 1];
      Survivors(states[..|states| - 1]) + (if st.action == Delete then [] else [Rebased(st)])
  }

  // ---------------------------------------------------------------------
  // The step as a function of the states
  // ---------------------------------------------------------------------

  /** What a step yields: the error it raises, or the records, report, undo records and filesystem. */
  datatype StepPlan = Raises(error: string)
                    | Runs(states: seq<ItemState>, changes: seq<FileChange>, undo: seq<Change>, fs: Fs)

  /**
   * The three effects a step's proof treats as values: a class's `process`,
   * `_execute_changes`, and the undo store's `save_operation`.  Passing them
   * as values keeps their definitions out of every proof that does not
   * look into them; `Faithful` ties each to its definition.
   */
  datatype Effects = Effects(plan: (Pipeline.StepKind, World) -> World,
                             execute: World -> World,
                             save: (UndoDb.Tables, string, seq<Change>, string) -> UndoDb.Tables)

  /** `plan` is the classes' `process`. */
  ghost predicate PlansAs(fx: Effects, ctx: Context, o: Pipeline.Oracles)
  {
    forall kind, w {:trigger Pipeline.Stepped(ctx, o, kind, w)} :: fx.plan(kind, w) == Pipeline.Stepped(ctx, o, kind, w)
  }

  /** `execute` is `_execute_changes`. */
  ghost predicate ExecutesAs(fx: Effects, ctx: Context)
  {
    forall w {:trigger Execute.ExecutedAll(ctx, w)} :: fx.execute(w) == Execute.ExecutedAll(ctx, w)
  }

  /** `save` is the store's `save_operation`. */
  ghost predicate SavesAs(fx: Effects)
  {
    forall db, id, cs, now {:trigger UndoDb.Saved(db, id, cs, now)} :: fx.save(db, id, cs, now) == UndoDb.Saved(db, id, cs, now)
  }

  /** All three effects are the definitions'. */
  ghost predicate Faithful(fx: Effects, ctx: Context, o: Pipeline.Oracles)
  {
    PlansAs(fx, ctx, o) && ExecutesAs(fx, ctx) && SavesAs(fx)
  }

  /** The effects as the pipeline, the executor and the store define them. */
  ghost function Actual(ctx: Context, o: Pipeline.Oracles): Effects
  {
    Effects((kind, w) => Pipeline.Stepped(ctx, o, kind, w),
            w => Execute.ExecutedAll(ctx, w),
            (db, id, cs, now) => UndoDb.Saved(db, id, cs, now))
  }

  /** Those are faithful, so every contract stated over faithful effects holds of the definitions. */
  lemma ActualFaithful(ctx: Context, o: Pipeline.Oracles)
    ensures Faithful(Actual(ctx, o), ctx, o)
  {
  }

  /** What execution leaves: the records that go on, the undo records, and the filesystem. */
  datatype After = After(states: seq<ItemState>, undo: seq<Change>, fs: Fs)

  /** `run_step_logic` after planning, on the planned states and filesystem: execution outside a dry run, then the report. */
  ghost function Finish(ctx: Context, kind: Pipeline.StepKind, walk: seq<TransferCleanup.WalkEntry>, fx: Effects, p: World): StepPlan
  {
    var a := if ctx.dryRun then After(p.states, [], p.fs) else Committed(ctx, kind, walk, p.states, fx.execute(p));
    Runs(a.states, Report(a.states, ctx.targetRoot, ctx.sourceRoot), a.undo, a.fs)
  }

  /** The bookkeeping after execution, from the planned states and the executed world. */
  function Committed(ctx: Context, kind: Pipeline.StepKind, walk: seq<TransferCleanup.WalkEntry>,
                     planned: seq<ItemState>, e: World): After
  {
    After(Survivors(e.states), UndoRecords(planned, false) + UndoRecords(e.states, true),
          if kind == Pipeline.TransferKind then TransferCleanup.Cleaned(ctx, walk, e.fs) else e.fs)
  }

  /** `run_step_logic` from the starting states: the id's class plans, then `Finish`. */
  ghost function StepLogic(id: StepId, ctx: Context, fx: Effects, walk: seq<TransferCleanup.WalkEntry>,
                           start: seq<ItemState>, fs: Fs): StepPlan
  {
    match StepClass(id)
    case None => Raises(NoHandler(id))
    case Some(kind) => Finish(ctx, kind, walk, fx, fx.plan(kind, World(start, fs)))
  }

  /** The foreign inputs of a step: the oracles, the source tree as the scanner lists it, and the undo id's token and clock. */
  datatype Env = Env(oracles: Pipeline.Oracles, tree: Option<Scanner.Node>, token: string, now: string)

  /** The states a step starts from: the reused records cleared, or the scan of the source root. */
  ghost function Start(config: PipelineConfig, tree: Option<Scanner.Node>, reused: Option<seq<ItemState>>): seq<ItemState>
  {
    if reused.Some? then ClearedAll(reused.value)
    else ScannedAll(Scanner.ScanPaths(ContextOf(config).sourceRoot, tree, config.fileCategory, None))
  }

  // ---------------------------------------------------------------------
  // The method
  // ---------------------------------------------------------------------

  /** A step's outcome on the records: the error raised, or the records, report and undo records. */
  datatype StepRun = Raised(error: string) | Ran(items: seq<FileItem>, changes: seq<FileChange>, undo: seq<Change>)

  /** The outcome and the new filesystem are those of the plan. */
  ghost predicate Follows(run: StepRun, fs': Fs, fs: Fs, p: StepPlan)
    reads if run.Ran? then run.items else []
  {
    match p
    case Raises(error) => run == Raised(error) && fs' == fs
    case Runs(states, changes, undo, fs2) =>
      run.Ran? && States(run.items) == states && run.changes == changes && run.undo == undo && fs' == fs2
  }

  /** The undo records are saved when the step ran outside a dry run, recording was asked for, and there are some. */
  predicate Saves(config: PipelineConfig, recordUndo: bool, run: StepRun)
  {
    !config.isDryRun && recordUndo && run.Ran? && run.undo != []
  }

  /** The operation id a single step saves its undo records under. */
  function OperationId(id: StepId, token: string): string
  {
    StepValue(id) + "_" + token
  }

  /** `run_step_logic`, with `undo_manager` as `store` and `step.cleanup`'s walk as `walk`. */
  method RunStepLogic(id: StepId, config: PipelineConfig, initial: Option<seq<FileItem>>, recordUndo: bool,
                      env: Env, ghost fx: Effects, walk: seq<TransferCleanup.WalkEntry>, store: UndoDb.UndoStore, fs: Fs)
    returns (run: StepRun, fs': Fs)
    requires initial.Some? ==> Distinct(initial.value)
    requires store.Valid() && Faithful(fx, ContextOf(config), env.oracles)
    modifies if initial.Some? then initial.value else [], store
    ensures store.Valid()
    ensures Follows(run, fs', fs, StepLogic(id, ContextOf(config), fx, walk,
                                            Start(config, env.tree, if initial.Some? then Some(old(States(initial.value))) else None), fs))
    ensures store.Contents() == if Saves(config, recordUndo, run)
                                then fx.save(old(store.Contents()), OperationId(id, env.token), run.undo, env.now)
                                else old(store.Contents())
    ensures run.Ran? ==> Distinct(run.items)
    ensures run.Ran? && initial.Some? ==> forall k :: 0 <= k < |run.items| ==> run.items[k] in initial.value
    ensures run.Ran? && initial.None? ==> forall k :: 0 <= k < |run.items| ==> fresh(run.items[k])
    ensures run.Raised? && initial.Some? ==> States(initial.value) == ClearedAll(old(States(initial.value)))
  {
    ghost var start := Start(config, env.tree, if initial.Some? then Some(old(States(initial.value))) else None);
    var items := Prepare(config, initial, env.tree);
    run, fs' := RunClass(id, config, recordUndo, env, fx, walk, store, items, start, fs);
  }

  /** Steps 2 of `run_step_logic`: the reused records reset, or a fresh scan. */
  method Prepare(config: PipelineConfig, initial: Option<seq<FileItem>>, tree: Option<Scanner.Node>) returns (items: seq<FileItem>)
    requires initial.Some? ==> Distinct(initial.value)
    modifies if initial.Some? then initial.value else []
    ensures Distinct(items)
    ensures States(items) == Start(config, tree, if initial.Some? then Some(old(States(initial.value))) else None)
    ensures initial.Some? ==> items == initial.value
    ensures initial.None? ==> forall k :: 0 <= k < |items| ==> fresh(items[k])
  {
    if initial.Some? {
      items := initial.value;
      ResetItems(items);
    } else {
      items := ScanSource(config, tree);
    }
  }

  /** Steps 3 to 6 of `run_step_logic` on the prepared records: the class lookup, `process`, and `Conclude`. */
  method RunClass(id: StepId, config: PipelineConfig, recordUndo: bool, env: Env, ghost fx: Effects,
                  walk: seq<TransferCleanup.WalkEntry>, store: UndoDb.UndoStore, items: seq<FileItem>, ghost start: seq<ItemState>, fs: Fs)
    returns (run: StepRun, fs': Fs)
    requires Distinct(items) && States(items) == start
    requires store.Valid() && Faithful(fx, ContextOf(config), env.oracles)
    modifies items, store
    ensures store.Valid()
    ensures Follows(run, fs', fs, StepLogic(id, ContextOf(config), fx, walk, start, fs))
    ensures store.Contents() == if Saves(config, recordUndo, run)
                                then fx.save(old(store.Contents()), OperationId(id, env.token), run.undo, env.now)
                                else old(store.Contents())
    ensures run.Ran? ==> Distinct(run.items) && forall k :: 0 <= k < |run.items| ==> run.items[k] in items
    ensures run.Raised? ==> States(items) == start
  {
    var kind := StepClass(id);
    if kind.None? {
      run, fs' := Raised(NoHandler(id)), fs;
      return;
    }
    var ctx := ContextOf(config);
    var processed, fs1 := PlanStep(ctx, env.oracles, fx, kind.value, items, fs);
    run, fs' := Conclude(id, ctx, kind.value, recordUndo, env, fx, walk, store, processed, fs1);
  }

  /** `Scanner.scan(source_root, config.fileCategory)`, with no limit. */
  method ScanSource(config: PipelineConfig, tree: Option<Scanner.Node>) returns (items: seq<FileItem>)
    ensures Distinct(items) && States(items) == Start(config, tree, None)
    ensures forall k :: 0 <= k < |items| ==> fresh(items[k])
  {
    ghost var paths := Scanner.ScanPaths(ContextOf(config).sourceRoot, tree, config.fileCategory, None);
    items := Scanner.Scan(ContextOf(config).sourceRoot, tree, config.fileCategory, None);
    ScannedStates(items, paths);
  }

  lemma ScannedStates(items: seq<FileItem>, paths: seq<Path>)
    requires Scanner.Records(items, paths)
    ensures States(items) == ScannedAll(paths)
  {
    var a, b := States(items), ScannedAll(paths);
    assert |a| == |b|;
    forall k | 0 <= k < |a| ensures a[k] == b[k] {
      assert a[k] == items[k].State();
    }
  }

  /** `step.process(context, items)` for the id's class. */
  method PlanStep(ctx: Context, o: Pipeline.Oracles, ghost fx: Effects, kind: Pipeline.StepKind, items: seq<FileItem>, fs: Fs)
    returns (processed: seq<FileItem>, fs': Fs)
    requires Distinct(items) && PlansAs(fx, ctx, o)
    modifies items
    ensures Distinct(processed) && forall k :: 0 <= k < |processed| ==> processed[k] in items
    ensures World(States(processed), fs') == fx.plan(kind, World(old(States(items)), fs))
  {
    processed, fs' := Pipeline.ProcessStep(ctx, o, kind, items, fs);
  }

  /** `run_step_logic` after `process`: `Commit` outside a dry run, then the report on the records that go on. */
  method Conclude(id: StepId, ctx: Context, kind: Pipeline.StepKind, recordUndo: bool, env: Env,
                  ghost fx: Effects, walk: seq<TransferCleanup.WalkEntry>, store: UndoDb.UndoStore, processed: seq<FileItem>, fs: Fs)
    returns (run: StepRun, fs': Fs)
    requires Distinct(processed) && store.Valid() && ExecutesAs(fx, ctx) && SavesAs(fx) && ctx.dryRun == ctx.config.isDryRun
    modifies processed, store
    ensures store.Valid()
    ensures Follows(run, fs', fs, Finish(ctx, kind, walk, fx, World(old(States(processed)), fs)))
    ensures run.Ran? && Distinct(run.items) && forall k :: 0 <= k < |run.items| ==> run.items[k] in processed
    ensures store.Contents() == if Saves(ctx.config, recordUndo, run)
                                then fx.save(old(store.Contents()), OperationId(id, env.token), run.undo, env.now)
                                else old(store.Contents())
  {
    var out, undo;
    if ctx.dryRun {
      out, undo, fs' := processed, [], fs;
    } else {
      out, undo, fs' := Commit(id, ctx, kind, recordUndo, env, fx, walk, store, processed, fs);
    }
    var changes := GenerateChanges(out, ctx.targetRoot, ctx.sourceRoot);
    run := Ran(out, changes, undo);
  }

  /** Outside a dry run: execution with the undo capture, the rebasing loop, the save, and the step's cleanup. */
  method Commit(id: StepId, ctx: Context, kind: Pipeline.StepKind, recordUndo: bool, env: Env,
                ghost fx: Effects, walk: seq<TransferCleanup.WalkEntry>, store: UndoDb.UndoStore, processed: seq<FileItem>, fs: Fs)
    returns (kept: seq<FileItem>, undo: seq<Change>, fs': Fs)
    requires Distinct(processed) && store.Valid() && ExecutesAs(fx, ctx) && SavesAs(fx)
    modifies processed, store
    ensures store.Valid()
    ensures After(States(kept), undo, fs') == Committed(ctx, kind, walk, old(States(processed)), fx.execute(World(old(States(processed)), fs)))
    ensures Distinct(kept) && forall k :: 0 <= k < |kept| ==> kept[k] in processed
    ensures store.Contents() == if recordUndo && undo != [] then fx.save(old(store.Contents()), OperationId(id, env.token), undo, env.now)
                                else old(store.Contents())
  {
    var fs1;
    undo, fs1 := ExecuteAndCapture(ctx, fx, processed, fs);
    kept := RebaseItems(processed);
    SaveUndo(fx, store, OperationId(id, env.token), recordUndo, undo, env.now);
    fs' := fs1;
    if kind == Pipeline.TransferKind {
      fs' := TransferCleanup.Cleanup(ctx, walk, fs1);
    }
  }

  /** The first capture loop, `_execute_changes`, then the second capture loop. */
  method ExecuteAndCapture(ctx: Context, ghost fx: Effects, processed: seq<FileItem>, fs: Fs)
    returns (undo: seq<Change>, fs': Fs)
    requires Distinct(processed) && ExecutesAs(fx, ctx)
    modifies processed
    ensures World(States(processed), fs') == fx.execute(World(old(States(processed)), fs))
    ensures undo == UndoRecords(old(States(processed)), false) + UndoRecords(States(processed), true)
  {
    undo := CollectUndo(processed, false);
    fs' := Execute.ExecuteChanges(ctx, processed, fs);
    var trashed := CollectUndo(processed, true);
    undo := undo + trashed;
  }

  /** `undo_manager.save_operation(operation_id, undo_changes)` when recording is asked for and there is something to record. */
  method SaveUndo(ghost fx: Effects, store: UndoDb.UndoStore, operationId: string,
                  recordUndo: bool, undo: seq<Change>, now: string)
    requires store.Valid() && SavesAs(fx)
    modifies store
    ensures store.Valid()
    ensures store.Contents() == if recordUndo && undo != [] then fx.save(old(store.Contents()), operationId, undo, now)
                                else old(store.Contents())
  {
    if recordUndo && undo != [] {
      store.SaveOperation(operationId, undo, now);
    }
  }

  /** The reset loop: every reused record loses its action and destination. */
  method ResetItems(items: seq<FileItem>)
    requires Distinct(items)
    modifies items
    ensures States(items) == ClearedAll(old(States(items)))
  {
    ghost var olds := States(items);
    for i := 0 to |items|
      invariant forall k :: 0 <= k < i ==> items[k].State() == Cleared(olds[k])
      invariant forall k :: i <= k < |items| ==> items[k].State() == olds[k]
    {
      items[i].action := NoAction;
      items[i].destinationPath := None;
    }
  }

  /** One capture loop over the records, in order. */
  method CollectUndo(items: seq<FileItem>, deletes: bool) returns (undo: seq<Change>)
    ensures undo == UndoRecords(States(items), deletes)
  {
    ghost var states := States(items);
    undo := [];
    for i := 0 to |items|
      invariant undo == UndoRecords(states[..i], deletes)
    {
      assert states[..i + 1][..i] == states[..i];
      var item := items[i];
      var wanted := if deletes then item.action == Delete else item.action == Rename || item.action == Move;
      if wanted && item.destinationPath.Some? {
        undo := undo + [Change(item.originalPath, item.destinationPath.value, ActionName(item.action))];
      }
    }
    assert states[..|items|] == states;
  }

  /** The records positioned where `olds` has no deletion, in order. */
  ghost function KeptItems(items: seq<FileItem>, olds: seq<ItemState>): seq<FileItem>
    requires |items| == |olds|
  {
    if items == [] then []
    else KeptItems(items[..|items| - 1], olds[..|olds| - 1]) + (if olds[|olds| - 1].action == Delete then [] else [items[|items| - 1]])
  }

  /** The rebasing loop: deletions dropped, relocated records moved onto their destination. */
  method RebaseItems(items: seq<FileItem>) returns (kept: seq<FileItem>)
    requires Distinct(items)
    modifies items
    ensures Distinct(kept) && forall k :: 0 <= k < |kept| ==> kept[k] in items
    ensures States(kept) == Survivors(old(States(items)))
  {
    ghost var olds := States(items);
    kept := [];
    for i := 0 to |items|
      invariant forall k :: 0 <= k < i ==> items[k].State() == Rebased(olds[k])
      invariant forall k :: i <= k < |items| ==> items[k].State() == olds[k]
      invariant kept == KeptItems(items[..i], olds[..i])
    {
      assert items[..i + 1][..i] == items[..i] && olds[..i + 1][..i] == olds[..i];
      var item := items[i];
      if item.action != Delete {
        RebaseItem(item);
        kept := kept + [item];
      }
    }
    assert items[..|items|] == items && olds[..|items|] == olds;
    KeptSurvivors(items, olds, |items|);
  }

  /** A relocated record now is, and comes from, its destination. */
  method RebaseItem(item: FileItem)
    modifies item
    ensures item.State() == Rebased(old(item.State()))
  {
    if (item.action == Rename || item.action == Move) && item.destinationPath.Some? {
      item.originalPath := item.destinationPath.value;
      item.currentPath := item.destinationPath.value;
    }
  }

  /** The kept records are distinct members of the list and carry the survivors' states. */
  lemma {:induction false} KeptSurvivors(items: seq<FileItem>, olds: seq<ItemState>, n: nat)
    requires Distinct(items) && |items| == |olds| && n <= |items|
    requires forall k :: 0 <= k < |items| ==> items[k].State() == Rebased(olds[k])
    ensures var kept := KeptItems(items[..n], olds[..n]);
            Distinct(kept) && (forall k :: 0 <= k < |kept| ==> kept[k] in items[..n])
            && States(kept) == Survivors(olds[..n])
  {
    if n > 0 {
      KeptSurvivors(items, olds, n - 1);
      assert items[..n][..n - 1] == items[..n - 1] && olds[..n][..n - 1] == olds[..n - 1];
      var prev := KeptItems(items[..n - 1], olds[..n - 1]);
      assert forall k :: 0 <= k < |prev| ==> prev[k] in items[..n - 1] && prev[k] != items[n - 1];
    }
  }

  // ---------------------------------------------------------------------
  // What a step promises
  // ---------------------------------------------------------------------

  /** Exactly the three ids without a class raise, with the "No handler" error and nothing changed. */
  lemma UnmappedRaises(id: StepId, ctx: Context, fx: Effects, walk: seq<TransferCleanup.WalkEntry>, start: seq<ItemState>, fs: Fs)
    ensures StepLogic(id, ctx, fx, walk, start, fs).Raises? <==> (id == PrefixId || id == RenameId || id == CleanExtensionId)
    ensures StepLogic(id, ctx, fx, walk, start, fs).Raises? ==> StepLogic(id, ctx, fx, walk, start, fs).error == NoHandler(id)
  {
  }

  /** In a dry run a step records no undo, and no path comes into existence or disappears. */
  lemma DryRunRecordsNothing(id: StepId, ctx: Context, o: Pipeline.Oracles, fx: Effects,
                             walk: seq<TransferCleanup.WalkEntry>, start: seq<ItemState>, fs: Fs)
    requires ctx.dryRun && PlansAs(fx, ctx, o)
    ensures var p := StepLogic(id, ctx, fx, walk, start, fs);
            p.Runs? ==> p.undo == [] && p.fs == fs
  {
    if StepClass(id).Some? {
      var kind := StepClass(id).value;
      Pipeline.DryStepKeepsFs(ctx, o, kind, World(start, fs));
      assert fx.plan(kind, World(start, fs)) == Pipeline.Stepped(ctx, o, kind, World(start, fs));
    }
  }

  /** After execution no deleted record goes on, and every relocated one now is, and comes from, its destination. */
  lemma {:induction false} SurvivorsShape(states: seq<ItemState>)
    ensures var r := Survivors(states);
            forall k :: 0 <= k < |r| ==> (r[k].action != Delete && (Relocates(r[k]) ==> Landed(r[k])))
  {
    if states != [] {
      var init := states[..|states| - 1];
      SurvivorsShape(init);
      var st := states[|states| - 1];
      if st.action != Delete {
        var r := Survivors(states);
        assert r == Survivors(init) + [Rebased(st)];
        forall k | 0 <= k < |r| ensures r[k].action != Delete && (Relocates(r[k]) ==> Landed(r[k])) {
          if k < |Survivors(init)| {
            assert r[k] == Survivors(init)[k];
          }
        }
      }
    }
  }

  /** A record that now is, and comes from, its destination. */
  predicate Landed(st: ItemState)
    requires st.destination.Some?
  {
    st.original == st.destination.value && st.current == st.destination.value
  }

  /** Exactly the records that are not deletions go on, each once, in order. */
  lemma {:induction false} SurvivorsCount(states: seq<ItemState>)
    ensures |Survivors(states)| == |states| - DeleteCount(states)
  {
    if states != [] {
      SurvivorsCount(states[..|states| - 1]);
    }
  }

  function DeleteCount(states: seq<ItemState>): nat
  {
    if states == [] then 0
    else DeleteCount(states[..|states| - 1]) + (if states[|states| - 1].action == Delete then 1 else 0)
  }

  /**
   * The undo records of a step run come in two parts: renames and moves,
   * each from its original path to its destination, and then deletions,
   * each from its original path to the trash.
   */
  lemma {:induction false} UndoRecordsKinds(states: seq<ItemState>, deletes: bool)
    ensures forall c :: c in UndoRecords(states, deletes) ==>
              (if deletes then c.action == "DELETE" else c.action == "RENAME" || c.action == "MOVE")
  {
    if states != [] {
      UndoRecordsKinds(states[..|states| - 1], deletes);
    }
  }

  /** Every undo record of a step run is one the undo managers know how to reverse. */
  lemma StepUndoKnown(ctx: Context, kind: Pipeline.StepKind, walk: seq<TransferCleanup.WalkEntry>, fx: Effects, p: World)
    ensures var f := Finish(ctx, kind, walk, fx, p);
            f.Runs? && AllKnown(f.undo)
  {
    var f := Finish(ctx, kind, walk, fx, p);
    if !ctx.dryRun {
      var e := fx.execute(p);
      assert f.undo == Committed(ctx, kind, walk, p.states, e).undo;
      var a, b := UndoRecords(p.states, false), UndoRecords(e.states, true);
      assert f.undo == a + b;
      UndoRecordsKinds(p.states, false);
      UndoRecordsKinds(e.states, true);
      forall i | 0 <= i < |a + b| ensures Known((a + b)[i]) {
        if i < |a| {
          assert (a + b)[i] == a[i] && a[i] in a;
        } else {
          assert (a + b)[i] == b[i - |a|] && b[i - |a|] in b;
        }
      }
    }
  }

  /**
   * A reused record keeps its metadata timestamp across the reset, so it is
   * reported again when the next step gives it no action.
   */
  lemma MetadataOutlivesReset(st: ItemState, targetRoot: Path, sourceRoot: Path)
    requires st.metadataTs.Some?
    ensures Entry(Cleared(st), targetRoot, sourceRoot).Some?
    ensures Entry(Cleared(st), targetRoot, sourceRoot).value.newValue
            == "Metadata Updated: " + DateTimeText(st.metadataTs.value)
  {
  }
}
