/**
 * `Pipeline`: an ordered list of steps and the `run` that threads the
 * records through them.  Each step's `process` receives the list the step
 * before it returned (the deduplicate step returns a sub-list, the others
 * the same list); after the last step the changes are executed once.
 * The steps are named by a `StepKind`; their foreign inputs (folder-name
 * parsing, EXIF and file dates, sizes and hashes) come in an `Oracles`
 * bundle.  The filesystem is threaded too: the standardize step moves
 * files itself outside a dry run, and the filename and transfer steps read it.
 */
module Pipeline {
  import opened FileSystem
  import opened Models
  import StandardizeSpec
  import StandardizeProps
  import Standardize
  import DedupNames
  import Grouping
  import Deduplicate
  import Filename
  import Group
  import Transfer
  import Execute

  /** The step classes the pipeline can hold. */
  datatype StepKind = StandardizeKind | DeduplicateKind | FilenameKind | GroupKind | TransferKind

  /** The foreign inputs of the steps. */
  datatype Oracles = Oracles(dates: StandardizeSpec.FolderDates, dedup: DedupNames.DedupEnv, names: Filename.Env,
                             exif: Group.DateReader, fsDate: Group.DateReader)

  /** The states at the positions `out`, in order. */
  function Select(states: seq<ItemState>, out: seq<nat>): (r: seq<ItemState>)
    requires forall k :: 0 <= k < |out| ==> out[k] < |states|
    ensures |r| == |out| && forall k :: 0 <= k < |out| ==> r[k] == states[out[k]]
  {
    seq(|out|, k requires 0 <= k < |out| => states[out[k]])
  }

  /** The deduplicate step returns each record at most once, and only records it was given. */
  lemma DedupOutputBounds(env: DedupNames.DedupEnv, fast: bool, olds: seq<ItemState>)
    ensures Deduplicate.Unique(Deduplicate.Output(env, fast, olds))
    ensures forall k :: 0 <= k < |Deduplicate.Output(env, fast, olds)| ==> Deduplicate.Output(env, fast, olds)[k] < |olds|
  {
    var ks := Deduplicate.KeysOf(olds);
    var score, hash := Deduplicate.ScoreOf(env, olds), Deduplicate.HashOf(env, olds);
    var out := Deduplicate.Output(env, fast, olds);
    Deduplicate.OutputOfUnique(score, hash, fast, ks, Grouping.KeyOrder(ks));
    forall k | 0 <= k < |out| ensures out[k] < |olds| {
      Deduplicate.OutputMembers(score, hash, fast, ks, out[k]);
    }
  }

  /** The deduplicate step on the states: the records it returns, in their planned states. */
  ghost function Deduplicated(ctx: Context, o: Oracles, states: seq<ItemState>): seq<ItemState>
  {
    var fast := ctx.config.deduplicate.fasterProcess;
    DedupOutputBounds(o.dedup, fast, states);
    Select(Deduplicate.Planned(o.dedup, fast, states), Deduplicate.Output(o.dedup, fast, states))
  }

  /** The filename step on the states, with the settings loaded from the configuration. */
  ghost function Renamed(ctx: Context, o: Oracles, w: World): seq<ItemState>
  {
    Filename.Plan(Filename.Loaded(ctx.config), ctx, o.names.(fs := w.fs), w.states, {}, {}).0
  }

  /** One step's `process` on the states and the filesystem. */
  ghost function Stepped(ctx: Context, o: Oracles, kind: StepKind, w: World): World
  {
    match kind
    case StandardizeKind => StandardizeSpec.Standardized(ctx, o.dates, w.states, w.fs)
    case DeduplicateKind => World(Deduplicated(ctx, o, w.states), w.fs)
    case FilenameKind => World(Renamed(ctx, o, w), w.fs)
    case GroupKind => World(Group.GroupedAll(ctx, o.exif, o.fsDate, w.states), w.fs)
    case TransferKind => World(Transfer.TransferredAll(ctx, w.fs, w.states), w.fs)
  }

  /** The planning phase: every step of `steps` in order, each on what the one before it returned. */
  ghost function PlannedThrough(ctx: Context, o: Oracles, steps: seq<StepKind>, w: World): World
  {
    if steps == [] then w
    else Stepped(ctx, o, steps[|steps| - 1], PlannedThrough(ctx, o, steps[..|steps| - 1], w))
  }

  /** One step's `process` on a list of records: a new instance of its class, then `process`. */
  method ProcessStep(ctx: Context, o: Oracles, kind: StepKind, items: seq<FileItem>, fs: Fs)
    returns (result: seq<FileItem>, fs': Fs)
    requires Distinct(items)
    modifies items
    ensures Distinct(result) && forall k :: 0 <= k < |result| ==> result[k] in items
    ensures World(States(result), fs') == Stepped(ctx, o, kind, World(old(States(items)), fs))
  {
    match kind
    case StandardizeKind =>
      result, fs' := Standardize.Process(ctx, o.dates, items, fs);
    case DeduplicateKind =>
      result := DeduplicateStep(ctx, o, items);
      fs' := fs;
    case FilenameKind =>
      FilenameStep(ctx, o, items, fs);
      result, fs' := items, fs;
    case GroupKind =>
      result := Group.Process(ctx, o.exif, o.fsDate, items);
      fs' := fs;
    case TransferKind =>
      result := Transfer.Process(ctx, fs, items);
      fs' := fs;
  }

  /** The deduplicate step: the records it returns, each once, in their planned states. */
  method DeduplicateStep(ctx: Context, o: Oracles, items: seq<FileItem>) returns (result: seq<FileItem>)
    requires Distinct(items)
    modifies items
    ensures Distinct(result) && forall k :: 0 <= k < |result| ==> result[k] in items
    ensures States(result) == Deduplicated(ctx, o, old(States(items)))
  {
    ghost var olds := States(items);
    ghost var fast := ctx.config.deduplicate.fasterProcess;
    result := Deduplicate.Process(ctx, o.dedup, items);
    DedupOutputBounds(o.dedup, fast, olds);
    ghost var out := Deduplicate.Output(o.dedup, fast, olds);
    PicksSelect(out, result, items);
  }

  /** A selection of distinct positions from a list of distinct records has distinct records, their states in order. */
  lemma PicksSelect(out: seq<nat>, result: seq<FileItem>, items: seq<FileItem>)
    requires Distinct(items) && Deduplicate.Picks(out, result, items) && Deduplicate.Unique(out)
    ensures Distinct(result) && forall k :: 0 <= k < |result| ==> result[k] in items
    ensures States(result) == Select(States(items), out)
  {
    forall a, b | 0 <= a < b < |result| ensures result[a] != result[b] {
      assert out[a] != out[b];
    }
  }

  /** The filename step, on a new `FilenameStep` that loads its settings from the configuration. */
  method FilenameStep(ctx: Context, o: Oracles, items: seq<FileItem>, fs: Fs)
    requires Distinct(items)
    modifies items
    ensures States(items) == Renamed(ctx, o, World(old(States(items)), fs))
  {
    var step := new Filename.FilenameStep();
    step.Process(ctx, o.names.(fs := fs), items);
  }

  class Pipeline {
    const context: Context
    var steps: seq<StepKind>

    constructor (context: Context)
      ensures this.context == context && steps == []
    {
      this.context := context;
      steps := [];
    }

    /** `add_step`: the step goes last. */
    method AddStep(step: StepKind)
      modifies this
      ensures steps == old(steps) + [step]
    {
      steps := steps + [step];
    }

    /**
     * `run`: the planning phase through every step in insertion order,
     * then one execution phase over the list the last step returned
     * (given back as `items`).
     */
    method Run(o: Oracles, initialFiles: seq<FileItem>, fs: Fs) returns (items: seq<FileItem>, fs': Fs)
      requires Distinct(initialFiles)
      modifies initialFiles
      ensures World(States(items), fs')
              == Execute.ExecutedAll(context, PlannedThrough(context, o, steps, World(old(States(initialFiles)), fs)))
    {
      items, fs' := PlanAll(context, o, steps, initialFiles, fs);
      fs' := Execute.ExecuteChanges(context, items, fs');
    }
  }

  /** The planning phase of `run`: each step's `process` on the list the one before it returned. */
  method PlanAll(ctx: Context, o: Oracles, steps: seq<StepKind>, initialFiles: seq<FileItem>, fs: Fs)
    returns (items: seq<FileItem>, fs': Fs)
    requires Distinct(initialFiles)
    modifies initialFiles
    ensures Distinct(items) && forall k :: 0 <= k < |items| ==> items[k] in initialFiles
    ensures World(States(items), fs') == PlannedThrough(ctx, o, steps, World(old(States(initialFiles)), fs))
  {
    ghost var w0 := World(States(initialFiles), fs);
    items, fs' := initialFiles, fs;
    for i := 0 to |steps|
      invariant Distinct(items) && forall k :: 0 <= k < |items| ==> items[k] in initialFiles
      invariant World(States(items), fs') == PlannedThrough(ctx, o, steps[..i], w0)
    {
      items, fs' := PlanNext(ctx, o, steps, i, w0, items, fs');
    }
    assert steps[..|steps|] == steps;
  }

  method PlanNext(ctx: Context, o: Oracles, steps: seq<StepKind>, i: nat, ghost w0: World, items: seq<FileItem>, fs: Fs)
    returns (items': seq<FileItem>, fs': Fs)
    requires i < |steps| && Distinct(items)
    requires World(States(items), fs) == PlannedThrough(ctx, o, steps[..i], w0)
    modifies items
    ensures Distinct(items') && forall k :: 0 <= k < |items'| ==> items'[k] in items
    ensures World(States(items'), fs') == PlannedThrough(ctx, o, steps[..i + 1], w0)
  {
    assert steps[..i + 1][..i] == steps[..i];
    items', fs' := ProcessStep(ctx, o, steps[i], items, fs);
  }

  // ---------------------------------------------------------------------
  // What the pipeline promises
  // ---------------------------------------------------------------------

  /** Planning through `a` and then `b` is planning through `a + b`: the steps compose in insertion order. */
  lemma {:induction false} PlannedThroughAppend(ctx: Context, o: Oracles, a: seq<StepKind>, b: seq<StepKind>, w: World)
    ensures PlannedThrough(ctx, o, a + b, w) == PlannedThrough(ctx, o, b, PlannedThrough(ctx, o, a, w))
    decreases |b|
  {
    if b == [] {
      assert a + b == a;
    } else {
      var init := b[..|b| - 1];
      assert (a + b)[..|a + b| - 1] == a + init;
      PlannedThroughAppend(ctx, o, a, init, w);
    }
  }

  /** A step in a dry run leaves the filesystem as it was. */
  lemma DryStepKeepsFs(ctx: Context, o: Oracles, kind: StepKind, w: World)
    requires ctx.dryRun
    ensures Stepped(ctx, o, kind, w).fs == w.fs
  {
    if kind == StandardizeKind {
      StandardizeProps.DryRunKeepsPaths(ctx, o.dates, w.states, w.fs);
    }
  }

  /** In a dry run no path comes into existence or disappears, through planning and execution. */
  lemma {:induction false} DryRunKeepsFs(ctx: Context, o: Oracles, steps: seq<StepKind>, w: World)
    requires ctx.dryRun
    ensures PlannedThrough(ctx, o, steps, w).fs == w.fs
    ensures Execute.ExecutedAll(ctx, PlannedThrough(ctx, o, steps, w)).fs == w.fs
  {
    if steps != [] {
      var init := steps[..|steps| - 1];
      DryRunKeepsFs(ctx, o, init, w);
      DryStepKeepsFs(ctx, o, steps[|steps| - 1], PlannedThrough(ctx, o, init, w));
    }
    var p := PlannedThrough(ctx, o, steps, w);
    Execute.DryRunUntouched(ctx, p.states, |p.states|, p.fs);
  }
}
