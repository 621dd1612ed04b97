/**
 * The two endpoints that run the pipeline: `/api/run-step`, one step on a
 * fresh scan with its undo records saved under the step's own operation id,
 * and `/api/run-all`, a batch of steps on one scan whose undo records are
 * saved together as a single summary operation.  Both validate the
 * configuration and check for the source directory first, creating it when
 * its name holds a `#` placeholder.  The text of a raising `os.makedirs` is
 * a parameter.
 */
module Server {
  import opened Common
  import opened Paths
  import opened FileSystem
  import opened Config
  import opened Models
  import opened UndoHistory
  import UndoDb
  import TransferCleanup
  import opened ServerReport
  import opened ServerSteps

  /** `StepResponse`. */
  datatype StepResponse = StepResponse(stepId: StepId, success: bool, processedFiles: seq<FileChange>, error: Option<string>)

  function Failed(id: StepId, error: string): StepResponse
  {
    StepResponse(id, false, [], Some(error))
  }

  function Succeeded(id: StepId, changes: seq<FileChange>): StepResponse
  {
    StepResponse(id, true, changes, None)
  }

  // ---------------------------------------------------------------------
  // The gate both endpoints pass first
  // ---------------------------------------------------------------------

  /** Whether the endpoint goes on, on the filesystem it leaves, or stops with an error. */
  datatype Gate = Open(fs: Fs) | Shut(error: string)

  /** `os.makedirs(d, exist_ok=True)` where nothing exists at `d`: it raises when a file stands in the way. */
  predicate MakeDirsFails(fs: Fs, d: Path)
  {
    Ancestors(d) * fs.files != {}
  }

  /**
   * `validate()`, then the source check: an existing source goes on, a
   * missing one named with a `#` is created, any other missing source stops.
   */
  function Admit(config: PipelineConfig, fs: Fs, reason: string): (g: Gate)
    ensures g.Open? <==> WellFormed(config) && (Exists(fs, PathOf(config.sourceDir))
                           || ('#' in config.sourceDir && !MakeDirsFails(fs, PathOf(config.sourceDir))))
    ensures g.Open? ==> g.fs.files == fs.files && fs.dirs <= g.fs.dirs && Exists(g.fs, PathOf(config.sourceDir))
    ensures g.Open? && Exists(fs, PathOf(config.sourceDir)) ==> g.fs == fs
    ensures !WellFormed(config) ==> g == Shut(Validate(config).error)
    ensures WellFormed(config) && !Exists(fs, PathOf(config.sourceDir)) && '#' !in config.sourceDir ==>
              g == Shut("Source directory not found: " + config.sourceDir)
    ensures WellFormed(config) && !Exists(fs, PathOf(config.sourceDir)) && '#' in config.sourceDir
            && MakeDirsFails(fs, PathOf(config.sourceDir)) ==>
              g == Shut("Could not create source directory: " + reason)
  {
    var src := PathOf(config.sourceDir);
    match Validate(config)
    case Fail(e) => Shut(e)
    case Pass =>
      if Exists(fs, src) then Open(fs)
      else if '#' in config.sourceDir then
        if MakeDirsFails(fs, src) then Shut("Could not create source directory: " + reason)
        else Open(MakeDirs(fs, src))
      else Shut("Source directory not found: " + config.sourceDir)
  }

  // ---------------------------------------------------------------------
  // /api/run-step
  // ---------------------------------------------------------------------

  /** What `/api/run-step` answers, where it leaves the filesystem, and the undo records it saves. */
  datatype Answer = Answer(response: StepResponse, fs: Fs, undo: seq<Change>)

  /** The answer to `/api/run-step`: a refusal at the gate, the step's error, or its report. */
  ghost function RunStep(id: StepId, config: PipelineConfig, env: Env, fx: Effects,
                         walk: seq<TransferCleanup.WalkEntry>, fs: Fs, reason: string): Answer
  {
    match Admit(config, fs, reason)
    case Shut(e) => Answer(Failed(id, e), fs, [])
    case Open(fs1) =>
      match StepLogic(id, ContextOf(config), fx, walk, Start(config, env.tree, None), fs1)
      case Raises(e) => Answer(Failed(id, e), fs1, [])
      case Runs(_, changes, undo, fs2) => Answer(Succeeded(id, changes), fs2, undo)
  }

  /** `api_run_step`, with `undo_manager` as `store`. */
  method ApiRunStep(id: StepId, config: PipelineConfig, env: Env, ghost fx: Effects,
                    walk: seq<TransferCleanup.WalkEntry>, store: UndoDb.UndoStore, fs: Fs, reason: string)
    returns (response: StepResponse, fs': Fs)
    requires store.Valid() && Faithful(fx, ContextOf(config), env.oracles)
    modifies store
    ensures store.Valid()
    ensures var a := RunStep(id, config, env, fx, walk, fs, reason);
            response == a.response && fs' == a.fs
            && store.Contents() == if !config.isDryRun && a.undo != []
                                   then fx.save(old(store.Contents()), OperationId(id, env.token), a.undo, env.now)
                                   else old(store.Contents())
  {
    var gate := Admit(config, fs, reason);
    if gate.Shut? {
      response, fs' := Failed(id, gate.error), fs;
      return;
    }
    response, fs' := RunAdmitted(id, config, env, fx, walk, store, gate.fs);
  }

  /** `run_step_logic` on a fresh scan with undo recorded, and its outcome as a response. */
  method RunAdmitted(id: StepId, config: PipelineConfig, env: Env, ghost fx: Effects,
                     walk: seq<TransferCleanup.WalkEntry>, store: UndoDb.UndoStore, fs: Fs)
    returns (response: StepResponse, fs': Fs)
    requires store.Valid() && Faithful(fx, ContextOf(config), env.oracles)
    modifies store
    ensures store.Valid()
    ensures match StepLogic(id, ContextOf(config), fx, walk, Start(config, env.tree, None), fs)
            case Raises(e) => response == Failed(id, e) && fs' == fs && store.Contents() == old(store.Contents())
            case Runs(_, changes, undo, fs2) =>
              response == Succeeded(id, changes) && fs' == fs2
              && store.Contents() == if !config.isDryRun && undo != []
                                     then fx.save(old(store.Contents()), OperationId(id, env.token), undo, env.now)
                                     else old(store.Contents())
  {
    var run;
    run, fs' := RunStepLogic(id, config, None, true, env, fx, walk, store, fs);
    response := if run.Raised? then Failed(id, run.error) else Succeeded(id, run.changes);
  }

  // ---------------------------------------------------------------------
  // /api/run-all
  // ---------------------------------------------------------------------

  /** A batch so far: the responses, the records it goes on with, its filesystem and its combined undo records. */
  datatype Batch = Batch(responses: seq<StepResponse>, states: seq<ItemState>, fs: Fs, undo: seq<Change>)

  /** A step's outcome from the records it reuses and the filesystem it finds. */
  type Logic = (StepId, seq<TransferCleanup.WalkEntry>, seq<ItemState>, Fs) -> StepPlan

  /** `run_step_logic` on reused records. */
  ghost function Reused(config: PipelineConfig, env: Env, fx: Effects): Logic
  {
    (id, walk, states, fs) => StepLogic(id, ContextOf(config), fx, walk, Start(config, env.tree, Some(states)), fs)
  }

  /**
   * One step of a batch on the records so far, undo not recorded: a raising
   * step answers with its error and leaves the records reset; a step that
   * runs hands its records on and, outside a dry run, adds its undo records.
   */
  ghost function Next(id: StepId, dryRun: bool, logic: Logic, walk: seq<TransferCleanup.WalkEntry>, b: Batch): Batch
  {
    Advance(id, dryRun, logic(id, walk, b.states, b.fs), b)
  }

  /** The batch after a step with outcome `p`. */
  function Advance(id: StepId, dryRun: bool, p: StepPlan, b: Batch): Batch
  {
    match p
    case Raises(e) => Batch(b.responses + [Failed(id, e)], ClearedAll(b.states), b.fs, b.undo)
    case Runs(states, changes, undo, fs2) =>
      Batch(b.responses + [Succeeded(id, changes)], states, fs2,
            if !dryRun && undo != [] then b.undo + undo else b.undo)
  }

  /** The steps in request order, each on what the one before left. */
  ghost function Batched(steps: seq<StepId>, dryRun: bool, logic: Logic,
                         walks: seq<seq<TransferCleanup.WalkEntry>>, b: Batch): Batch
    requires |walks| == |steps|
    decreases |steps|
  {
    if steps == [] then b
    else Batched(steps[1..], dryRun, logic, walks[1..], Next(steps[0], dryRun, logic, walks[0], b))
  }

  /** The outcome of `/api/run-all`: nothing at the gate, or the batch on one scan of the source. */
  ghost function RunAll(steps: seq<StepId>, config: PipelineConfig, env: Env, fx: Effects,
                        walks: seq<seq<TransferCleanup.WalkEntry>>, fs: Fs, reason: string): Batch
    requires |walks| == |steps|
  {
    match Admit(config, fs, reason)
    case Shut(_) => Batch([], [], fs, [])
    case Open(fs1) => Batched(steps, config.isDryRun, Reused(config, env, fx), walks, Batch([], Start(config, env.tree, None), fs1, []))
  }

  /** The operation id the combined undo records are saved under. */
  function SummaryId(token: string): string
  {
    "summary_" + token
  }

  /**
   * `api_run_all`, with `undo_manager` as `store` and `walks[i]` the
   * cleanup walk of the `i`-th step.  The combined undo records are saved
   * once, after the last step, outside a dry run and when there are some.
   */
  method ApiRunAll(steps: seq<StepId>, config: PipelineConfig, env: Env, ghost fx: Effects,
                   walks: seq<seq<TransferCleanup.WalkEntry>>, store: UndoDb.UndoStore, fs: Fs, reason: string)
    returns (responses: seq<StepResponse>, fs': Fs)
    requires |walks| == |steps|
    requires store.Valid() && Faithful(fx, ContextOf(config), env.oracles)
    modifies store
    ensures store.Valid()
    ensures var b := RunAll(steps, config, env, fx, walks, fs, reason);
            responses == b.responses && fs' == b.fs
            && store.Contents() == if !config.isDryRun && b.undo != []
                                   then fx.save(old(store.Contents()), SummaryId(env.token), b.undo, env.now)
                                   else old(store.Contents())
  {
    var gate := Admit(config, fs, reason);
    if gate.Shut? {
      responses, fs' := [], fs;
      return;
    }
    var items := ScanSource(config, env.tree);
    var combined;
    responses, combined, fs' := RunSteps(steps, config, env, fx, walks, store, items, gate.fs);
    SaveUndo(fx, store, SummaryId(env.token), !config.isDryRun, combined, env.now);
  }

  /** The loop over the requested steps, each reusing the records the one before left. */
  method RunSteps(steps: seq<StepId>, config: PipelineConfig, env: Env, ghost fx: Effects,
                  walks: seq<seq<TransferCleanup.WalkEntry>>, store: UndoDb.UndoStore, items: seq<FileItem>, fs: Fs)
    returns (responses: seq<StepResponse>, combined: seq<Change>, fs': Fs)
    requires |walks| == |steps| && Distinct(items)
    requires store.Valid() && Faithful(fx, ContextOf(config), env.oracles)
    modifies items, store
    ensures store.Valid() && store.Contents() == old(store.Contents())
    ensures var b := Batched(steps, config.isDryRun, Reused(config, env, fx), walks, Batch([], old(States(items)), fs, []));
            responses == b.responses && combined == b.undo && fs' == b.fs
  {
    ghost var logic := Reused(config, env, fx);
    ghost var final := Batched(steps, config.isDryRun, logic, walks, Batch([], States(items), fs, []));
    var current := items;
    responses, combined, fs' := [], [], fs;
    for i := 0 to |steps|
      invariant Distinct(current) && forall k :: 0 <= k < |current| ==> current[k] in items
      invariant store.Valid() && store.Contents() == old(store.Contents())
      invariant Batched(steps[i..], config.isDryRun, logic, walks[i..], Batch(responses, States(current), fs', combined)) == final
    {
      BatchedStep(steps, config.isDryRun, logic, walks, i, Batch(responses, States(current), fs', combined));
      current, responses, combined, fs' := RunNext(steps[i], config, env, fx, walks[i], store, current, responses, combined, fs');
    }
  }

  /** Unfolding the batch by its first remaining step. */
  lemma BatchedStep(steps: seq<StepId>, dryRun: bool, logic: Logic,
                    walks: seq<seq<TransferCleanup.WalkEntry>>, i: nat, b: Batch)
    requires |walks| == |steps| && i < |steps|
    ensures Batched(steps[i..], dryRun, logic, walks[i..], b)
            == Batched(steps[i + 1..], dryRun, logic, walks[i + 1..], Next(steps[i], dryRun, logic, walks[i], b))
  {
    assert steps[i..][1..] == steps[i + 1..] && walks[i..][1..] == walks[i + 1..];
  }

  /** One pass of the loop: `run_step_logic` on the current records, undo not recorded, and its response. */
  method RunNext(id: StepId, config: PipelineConfig, env: Env, ghost fx: Effects, walk: seq<TransferCleanup.WalkEntry>,
                 store: UndoDb.UndoStore, current: seq<FileItem>, responses: seq<StepResponse>, combined: seq<Change>, fs: Fs)
    returns (current': seq<FileItem>, responses': seq<StepResponse>, combined': seq<Change>, fs': Fs)
    requires Distinct(current) && store.Valid() && Faithful(fx, ContextOf(config), env.oracles)
    modifies current, store
    ensures store.Valid() && store.Contents() == old(store.Contents())
    ensures Distinct(current') && forall k :: 0 <= k < |current'| ==> current'[k] in current
    ensures Batch(responses', States(current'), fs', combined')
            == Next(id, config.isDryRun, Reused(config, env, fx), walk, Batch(responses, old(States(current)), fs, combined))
  {
    ghost var b := Batch(responses, States(current), fs, combined);
    ghost var p := StepLogic(id, ContextOf(config), fx, walk, Start(config, env.tree, Some(States(current))), fs);
    assert p == Reused(config, env, fx)(id, walk, b.states, b.fs);
    var run;
    run, fs' := RunStepLogic(id, config, Some(current), false, env, fx, walk, store, fs);
    current', responses', combined' := Record(id, config.isDryRun, run, current, responses, combined, b, p, fs');
  }

  /** The response to a step's outcome, and the records and undo records the batch goes on with. */
  method Record(id: StepId, dryRun: bool, run: StepRun, current: seq<FileItem>, responses: seq<StepResponse>,
                combined: seq<Change>, ghost b: Batch, ghost p: StepPlan, fs': Fs)
    returns (current': seq<FileItem>, responses': seq<StepResponse>, combined': seq<Change>)
    requires Distinct(current) && b.responses == responses && b.undo == combined
    requires Follows(run, fs', b.fs, p)
    requires run.Raised? ==> States(current) == ClearedAll(b.states)
    requires run.Ran? ==> Distinct(run.items) && forall k :: 0 <= k < |run.items| ==> run.items[k] in current
    ensures Distinct(current') && forall k :: 0 <= k < |current'| ==> current'[k] in current
    ensures Batch(responses', States(current'), fs', combined') == Advance(id, dryRun, p, b)
  {
    if run.Raised? {
      current', responses', combined' := current, responses + [Failed(id, run.error)], combined;
    } else {
      current', responses' := run.items, responses + [Succeeded(id, run.changes)];
      combined' := if !dryRun && run.undo != [] then combined + run.undo else combined;
    }
  }

  // ---------------------------------------------------------------------
  // What the endpoints promise
  // ---------------------------------------------------------------------

  /** A response succeeds exactly when it carries no error, and a failed one lists no files. */
  predicate WellShaped(r: StepResponse)
  {
    (r.success <==> r.error.None?) && (!r.success ==> r.processedFiles == [])
  }

  /**
   * `/api/run-step` answers for the requested step; it fails, with no files
   * and nothing to save, exactly when the gate shuts or the step raises, and
   * a shut gate leaves the filesystem as it was.
   */
  lemma RunStepAnswers(id: StepId, config: PipelineConfig, env: Env, fx: Effects,
                       walk: seq<TransferCleanup.WalkEntry>, fs: Fs, reason: string)
    ensures var a := RunStep(id, config, env, fx, walk, fs, reason);
            var g := Admit(config, fs, reason);
            a.response.stepId == id && WellShaped(a.response)
            && (!a.response.success <==> g.Shut? || StepLogic(id, ContextOf(config), fx, walk, Start(config, env.tree, None), g.fs).Raises?)
            && (!a.response.success ==> a.undo == [])
            && (g.Shut? ==> a.response.error == Some(g.error) && a.fs == fs)
  {
  }

  /** In a dry run `/api/run-step` saves nothing and only the gate's `makedirs` touches the filesystem. */
  lemma DryRunStepSavesNothing(id: StepId, config: PipelineConfig, env: Env, fx: Effects,
                               walk: seq<TransferCleanup.WalkEntry>, fs: Fs, reason: string)
    requires config.isDryRun && PlansAs(fx, ContextOf(config), env.oracles)
    ensures var a := RunStep(id, config, env, fx, walk, fs, reason);
            a.undo == [] && a.fs == (match Admit(config, fs, reason) case Open(fs1) => fs1 case Shut(_) => fs)
  {
    var g := Admit(config, fs, reason);
    if g.Open? {
      DryRunRecordsNothing(id, ContextOf(config), env.oracles, fx, walk, Start(config, env.tree, None), g.fs);
    }
  }

  /** One well-shaped response per step, for that step, in order. */
  predicate AnswersInOrder(r: seq<StepResponse>, steps: seq<StepId>)
  {
    |r| == |steps| && forall k :: 0 <= k < |steps| ==> r[k].stepId == steps[k] && WellShaped(r[k])
  }

  /** A batch keeps the responses it has and adds one per requested step, in request order. */
  lemma {:induction false} BatchResponses(steps: seq<StepId>, dryRun: bool, logic: Logic,
                                          walks: seq<seq<TransferCleanup.WalkEntry>>, b: Batch)
    requires |walks| == |steps|
    ensures var r := Batched(steps, dryRun, logic, walks, b).responses;
            |b.responses| <= |r| && r[..|b.responses|] == b.responses && AnswersInOrder(r[|b.responses|..], steps)
    decreases |steps|
  {
    if steps != [] {
      var n := Next(steps[0], dryRun, logic, walks[0], b);
      NextAnswers(steps[0], dryRun, logic, walks[0], b);
      var x := n.responses[|b.responses|];
      BatchResponses(steps[1..], dryRun, logic, walks[1..], n);
      ExtendAnswers(Batched(steps[1..], dryRun, logic, walks[1..], n).responses, b.responses, x, steps);
    }
  }

  /** A step of a batch adds one well-shaped response, for that step. */
  lemma NextAnswers(id: StepId, dryRun: bool, logic: Logic, walk: seq<TransferCleanup.WalkEntry>, b: Batch)
    ensures var n := Next(id, dryRun, logic, walk, b);
            |n.responses| == |b.responses| + 1 && n.responses == b.responses + [n.responses[|b.responses|]]
            && n.responses[|b.responses|].stepId == id && WellShaped(n.responses[|b.responses|])
  {
  }

  /** One more answer in front of answers in order. */
  lemma ExtendAnswers(r: seq<StepResponse>, pre: seq<StepResponse>, x: StepResponse, steps: seq<StepId>)
    requires steps != [] && x.stepId == steps[0] && WellShaped(x)
    requires |pre| + 1 <= |r| && r[..|pre| + 1] == pre + [x] && AnswersInOrder(r[|pre| + 1..], steps[1..])
    ensures r[..|pre|] == pre && AnswersInOrder(r[|pre|..], steps)
  {
    assert r[..|pre|] == r[..|pre| + 1][..|pre|];
    var t := r[|pre|..];
    forall k | 0 <= k < |steps| ensures t[k].stepId == steps[k] && WellShaped(t[k]) {
      if k == 0 {
        assert t[0] == r[..|pre| + 1][|pre|];
      } else {
        assert t[k] == r[|pre| + 1..][k - 1] && steps[k] == steps[1..][k - 1];
      }
    }
  }

  /** `/api/run-all` answers nothing when the configuration is invalid or the source is missing and cannot be created. */
  lemma RunAllShut(steps: seq<StepId>, config: PipelineConfig, env: Env, fx: Effects,
                   walks: seq<seq<TransferCleanup.WalkEntry>>, fs: Fs, reason: string)
    requires |walks| == |steps| && Admit(config, fs, reason).Shut?
    ensures var b := RunAll(steps, config, env, fx, walks, fs, reason);
            b.responses == [] && b.undo == [] && b.fs == fs
  {
  }

  /** Past the gate, `/api/run-all` answers once per requested step, in request order. */
  lemma RunAllAnswers(steps: seq<StepId>, config: PipelineConfig, env: Env, fx: Effects,
                      walks: seq<seq<TransferCleanup.WalkEntry>>, fs: Fs, reason: string)
    requires |walks| == |steps| && Admit(config, fs, reason).Open?
    ensures AnswersInOrder(RunAll(steps, config, env, fx, walks, fs, reason).responses, steps)
  {
    var b0 := Batch([], Start(config, env.tree, None), Admit(config, fs, reason).fs, []);
    var logic := Reused(config, env, fx);
    BatchResponses(steps, config.isDryRun, logic, walks, b0);
    assert Batched(steps, config.isDryRun, logic, walks, b0).responses[0..] == Batched(steps, config.isDryRun, logic, walks, b0).responses;
  }

  /** In a dry run a batch combines no undo records, so nothing is saved. */
  lemma {:induction false} DryBatchCombinesNothing(steps: seq<StepId>, logic: Logic,
                                                   walks: seq<seq<TransferCleanup.WalkEntry>>, b: Batch)
    requires |walks| == |steps|
    ensures Batched(steps, true, logic, walks, b).undo == b.undo
    decreases |steps|
  {
    if steps != [] {
      DryBatchCombinesNothing(steps[1..], logic, walks[1..], Next(steps[0], true, logic, walks[0], b));
    }
  }

  /** In a dry run no step of a batch changes the filesystem. */
  lemma {:induction false} DryBatchKeepsFs(steps: seq<StepId>, config: PipelineConfig, env: Env, fx: Effects,
                                           walks: seq<seq<TransferCleanup.WalkEntry>>, b: Batch)
    requires |walks| == |steps| && config.isDryRun && PlansAs(fx, ContextOf(config), env.oracles)
    ensures Batched(steps, config.isDryRun, Reused(config, env, fx), walks, b).fs == b.fs
    decreases |steps|
  {
    if steps != [] {
      DryRunRecordsNothing(steps[0], ContextOf(config), env.oracles, fx, walks[0], Start(config, env.tree, Some(b.states)), b.fs);
      DryBatchKeepsFs(steps[1..], config, env, fx, walks[1..], Next(steps[0], config.isDryRun, Reused(config, env, fx), walks[0], b));
    }
  }

  /** The combined undo records are the steps' own, in step order, so every one of them is reversible. */
  lemma {:induction false} BatchUndoKnown(steps: seq<StepId>, config: PipelineConfig, env: Env, fx: Effects,
                                          walks: seq<seq<TransferCleanup.WalkEntry>>, b: Batch)
    requires |walks| == |steps| && AllKnown(b.undo)
    ensures AllKnown(Batched(steps, config.isDryRun, Reused(config, env, fx), walks, b).undo)
    decreases |steps|
  {
    if steps != [] {
      var n := Next(steps[0], config.isDryRun, Reused(config, env, fx), walks[0], b);
      var p := StepLogic(steps[0], ContextOf(config), fx, walks[0], Start(config, env.tree, Some(b.states)), b.fs);
      if p.Runs? {
        var kind := StepClass(steps[0]).value;
        StepUndoKnown(ContextOf(config), kind, walks[0], fx, fx.plan(kind, World(Start(config, env.tree, Some(b.states)), b.fs)));
        if !config.isDryRun && p.undo != [] {
          KnownAppend(b.undo, p.undo);
        }
      }
      BatchUndoKnown(steps[1..], config, env, fx, walks[1..], n);
    }
  }

  lemma KnownAppend(a: seq<Change>, b: seq<Change>)
    requires AllKnown(a) && AllKnown(b)
    ensures AllKnown(a + b)
  {
    forall i | 0 <= i < |a + b| ensures Known((a + b)[i]) {
      if i < |a| {
        assert (a + b)[i] == a[i];
      } else {
        assert (a + b)[i] == b[i - |a|];
      }
    }
  }
}
