/**
 * What the standardize step promises, proved about its model: records
 * marked for deletion are never touched, a skipped folder only fills in
 * destinations, a dry run changes neither the filesystem nor any record's
 * paths or action, each record of a processed folder is handled once, in
 * name order, with the timestamp `dt + (i + 1) µs`, onto a free path
 * under the source root.
 */
module StandardizeProps {
  import opened Common
  import opened Paths
  import opened DateTimes
  import opened FileSystem
  import opened Models
  import opened Collisions
  import opened Grouping
  import opened StandardizeNames
  import opened StandardizeSpec

  // ---------------------------------------------------------------------
  // Locality: each loop touches only its own records
  // ---------------------------------------------------------------------

  /** Some of the first `j` sorted entries is the record at position `i`. */
  ghost predicate Processed(sorted: seq<Named>, j: nat, i: nat)
  {
    exists t :: 0 <= t < j && t < |sorted| && sorted[t].index == i
  }

  /** Some of the first `k` members is the record at position `i`. */
  ghost predicate Listed(members: seq<nat>, k: nat, i: nat)
  {
    exists t :: 0 <= t < k && t < |members| && members[t] == i
  }

  /** A body whose step at `pos` leaves every other record as it was. */
  ghost predicate Local(step: Body)
  {
    forall j: nat, pos: nat, w: World, i: nat :: 0 <= i < |w.states| && i != pos ==> i < |step(j, pos, w).states| && step(j, pos, w).states[i] == w.states[i]
  }

  /** A record none of the first `j` steps is for keeps its state. */
  lemma {:induction false} StepsOutside(step: Body, sorted: seq<Named>, j: nat, w: World, i: nat)
    requires Sized(step) && Local(step)
    requires j <= |sorted| && i < |w.states| && !Processed(sorted, j, i)
    ensures Steps(step, sorted, j, w).states[i] == w.states[i]
  {
    if j > 0 {
      assert !Processed(sorted, j - 1, i);
      StepsOutside(step, sorted, j - 1, w, i);
      assert sorted[j - 1].index != i;
    }
  }

  /** With distinct positions, the `t`-th record is changed by the `t`-th step only. */
  lemma {:induction false} StepsAt(step: Body, sorted: seq<Named>, j: nat, w: World, t: nat)
    requires Sized(step) && Local(step)
    requires j <= |sorted| && DistinctIndices(sorted) && t < j && sorted[t].index < |w.states|
    ensures Steps(step, sorted, j, w).states[sorted[t].index]
            == step(t, sorted[t].index, Steps(step, sorted, t, w)).states[sorted[t].index]
  {
    if j > t + 1 {
      StepsAt(step, sorted, j - 1, w, t);
      assert sorted[j - 1].index != sorted[t].index;
    }
  }

  lemma ItemStepElsewhere(ctx: Context, folder: Path, source: Source, namer: Namer,
                          j: nat, pos: nat, w: World, i: nat)
    requires Names(namer) && i < |w.states| && i != pos
    ensures ItemStep(ctx, folder, source, namer, j, pos, w).states[i] == w.states[i]
  {
  }

  lemma BodyLocal(ctx: Context, folder: Path, source: Source, namer: Namer)
    requires Names(namer)
    ensures Local(FolderBody(ctx, folder, source, namer))
  {
    forall j: nat, pos: nat, w: World, i: nat | 0 <= i < |w.states| && i != pos
      ensures FolderBody(ctx, folder, source, namer)(j, pos, w).states[i] == w.states[i]
    {
      ItemStepElsewhere(ctx, folder, source, namer, j, pos, w, i);
    }
  }

  /** A record none of the first `j` steps of a folder is for keeps its state. */
  lemma FolderUpToOutside(ctx: Context, folder: Path, source: Source, namer: Namer,
                          sorted: seq<Named>, j: nat, w: World, i: nat)
    requires Names(namer) && j <= |sorted| && i < |w.states| && !Processed(sorted, j, i)
    ensures FolderUpTo(ctx, folder, source, namer, sorted, j, w).states[i] == w.states[i]
  {
    BodyLocal(ctx, folder, source, namer);
    StepsOutside(FolderBody(ctx, folder, source, namer), sorted, j, w, i);
  }

  lemma SkippedIdempotent(st: ItemState)
    ensures Skipped(Skipped(st)) == Skipped(st)
    ensures Skipped(st).destination.Some?
    ensures Skipped(st) == st.(destination := if st.destination.None? then Some(st.current) else st.destination)
  {
  }

  /** Skipping `members[..k]`: a listed record gets its current path as destination if it had none, no other changes. */
  lemma {:induction false} SkipUpToAt(members: seq<nat>, k: nat, states: seq<ItemState>, i: nat)
    requires k <= |members| && forall t :: 0 <= t < |members| ==> members[t] < |states|
    requires i < |states|
    ensures SkipUpTo(members, k, states)[i] == if Listed(members, k, i) then Skipped(states[i]) else states[i]
  {
    if k > 0 {
      SkipUpToAt(members, k - 1, states, i);
      if members[k - 1] == i {
        assert Listed(members, k, i);
        SkippedIdempotent(states[i]);
      } else {
        assert Listed(members, k, i) == Listed(members, k - 1, i);
      }
    } else {
      assert !Listed(members, k, i);
    }
  }

  /** The sort only reorders the folder's own records. */
  lemma SortedFromMembers(states: seq<ItemState>, members: seq<nat>, t: nat)
    requires forall u :: 0 <= u < |members| ==> members[u] < |states|
    requires t < |SortByName(NamedOf(states, members))|
    ensures exists u :: 0 <= u < |members| && members[u] == SortByName(NamedOf(states, members))[t].index
  {
    var n := NamedOf(states, members);
    var x := SortByName(n)[t];
    assert x in multiset(SortByName(n));
    assert x in n;
    var u :| 0 <= u < |n| && n[u] == x;
    assert members[u] == x.index;
  }

  /** A folder's effect leaves every record outside the folder as it was. */
  lemma FolderEffectOutside(ctx: Context, dates: FolderDates, folder: Path, members: seq<nat>, w: World, i: nat)
    requires forall t :: 0 <= t < |members| ==> members[t] < |w.states|
    requires i < |w.states| && forall t :: 0 <= t < |members| ==> members[t] != i
    ensures FolderEffect(ctx, dates, folder, members, w).states[i] == w.states[i]
  {
    if SkipFolder(ctx, dates, folder) {
      SkipUpToAt(members, |members|, w.states, i);
    } else {
      var sorted := SortByName(NamedOf(w.states, members));
      assert !Processed(sorted, |sorted|, i) by {
        forall t | 0 <= t < |sorted| ensures sorted[t].index != i {
          SortedFromMembers(w.states, members, t);
        }
      }
      FolderUpToOutside(ctx, folder, FolderSource(FolderDate(ctx, dates, folder), Fallback(ctx, dates, folder)),
                        FolderNamer(ctx.config), sorted, |sorted|, w, i);
    }
  }

  /** An effect that leaves the record at position `i` as it was, on every world. */
  ghost predicate Spares(effect: Effect, i: nat)
  {
    forall g: nat, w: World :: i < |w.states| ==> i < |effect(g, w).states| && effect(g, w).states[i] == w.states[i]
  }

  lemma {:induction false} FoldsOutside(effect: Effect, g: nat, w: World, i: nat)
    requires Keeps(effect) && Spares(effect, i) && i < |w.states|
    ensures Folds(effect, g, w).states[i] == w.states[i]
  {
    if g > 0 {
      FoldsOutside(effect, g - 1, w, i);
    }
  }

  /** A record outside every group (one marked for deletion) is spared by every folder. */
  lemma PlanSpares(ctx: Context, dates: FolderDates, ks: seq<Option<Path>>, folders: seq<Path>, i: nat)
    requires i < |ks| && ks[i] == None
    ensures Spares(PlanBody(ctx, dates, ks, folders), i)
  {
    forall g: nat, w: World | i < |w.states|
      ensures PlanBody(ctx, dates, ks, folders)(g, w).states[i] == w.states[i]
    {
      if g < |folders| && |ks| == |w.states| {
        MembersFacts(ks, Some(folders[g]));
        FolderEffectOutside(ctx, dates, folders[g], Members(ks, Some(folders[g])), w, i);
      }
    }
  }

  /** Records marked for deletion are untouched by the step. */
  lemma DeleteUntouched(ctx: Context, dates: FolderDates, olds: seq<ItemState>, fs: Fs, i: nat)
    requires i < |olds| && olds[i].action == Delete
    ensures Standardized(ctx, dates, olds, fs).states[i] == olds[i]
  {
    var ks := FolderKeys(olds);
    PlanSpares(ctx, dates, ks, KeptOrder(ks), i);
    FoldsOutside(PlanBody(ctx, dates, ks, KeptOrder(ks)), |KeptOrder(ks)|, World(olds, fs), i);
  }

  // ---------------------------------------------------------------------
  // A skipped folder
  // ---------------------------------------------------------------------

  /**
   * A folder with no datetime in its name and no fallback: the filesystem
   * is unchanged, each of its records only gets its current path as
   * destination when it had none, and no other record changes.
   */
  lemma SkippedFolder(ctx: Context, dates: FolderDates, folder: Path, members: seq<nat>, w: World, i: nat)
    requires forall t :: 0 <= t < |members| ==> members[t] < |w.states|
    requires SkipFolder(ctx, dates, folder) && i < |w.states|
    ensures var r := FolderEffect(ctx, dates, folder, members, w);
            r.fs == w.fs
            && r.states[i] == if i in members then Skipped(w.states[i]) else w.states[i]
  {
    SkipUpToAt(members, |members|, w.states, i);
    if i in members {
      var t :| 0 <= t < |members| && members[t] == i;
      assert Listed(members, |members|, i);
    } else {
      assert !Listed(members, |members|, i);
    }
  }

  // ---------------------------------------------------------------------
  // A dry run
  // ---------------------------------------------------------------------

  /** The fields a dry run never changes: both paths and the action. */
  predicate SameCore(a: ItemState, b: ItemState)
  {
    a.original == b.original && a.current == b.current && a.action == b.action
  }

  ghost predicate DryKept(w0: World, w: World)
  {
    w.fs == w0.fs && |w.states| == |w0.states|
    && forall i :: 0 <= i < |w.states| ==> SameCore(w0.states[i], w.states[i])
  }

  lemma DryKeptTrans(a: World, b: World, c: World)
    requires DryKept(a, b) && DryKept(b, c)
    ensures DryKept(a, c)
  {
  }

  lemma ItemStepDry(ctx: Context, folder: Path, source: Source, namer: Namer, j: nat, pos: nat, w: World)
    requires Names(namer) && ctx.dryRun
    ensures DryKept(w, ItemStep(ctx, folder, source, namer, j, pos, w))
  {
  }

  lemma {:induction false} StepsDry(step: Body, sorted: seq<Named>, j: nat, w: World)
    requires Sized(step) && j <= |sorted|
    requires forall t: nat, pos: nat, x: World :: DryKept(x, step(t, pos, x))
    ensures DryKept(w, Steps(step, sorted, j, w))
  {
    if j > 0 {
      StepsDry(step, sorted, j - 1, w);
      var prev := Steps(step, sorted, j - 1, w);
      DryKeptTrans(w, prev, step(j - 1, sorted[j - 1].index, prev));
    }
  }

  lemma FolderEffectDry(ctx: Context, dates: FolderDates, folder: Path, members: seq<nat>, w: World)
    requires forall t :: 0 <= t < |members| ==> members[t] < |w.states|
    requires ctx.dryRun
    ensures DryKept(w, FolderEffect(ctx, dates, folder, members, w))
  {
    if SkipFolder(ctx, dates, folder) {
      forall i | 0 <= i < |w.states| ensures SameCore(w.states[i], SkipUpTo(members, |members|, w.states)[i]) {
        SkipUpToAt(members, |members|, w.states, i);
      }
    } else {
      var sorted := SortByName(NamedOf(w.states, members));
      var source := FolderSource(FolderDate(ctx, dates, folder), Fallback(ctx, dates, folder));
      var namer := FolderNamer(ctx.config);
      var body := FolderBody(ctx, folder, source, namer);
      forall t: nat, pos: nat, x: World ensures DryKept(x, body(t, pos, x)) {
        ItemStepDry(ctx, folder, source, namer, t, pos, x);
      }
      StepsDry(body, sorted, |sorted|, w);
    }
  }

  lemma {:induction false} FoldsDry(effect: Effect, g: nat, w: World)
    requires Keeps(effect) && forall h: nat, x: World :: DryKept(x, effect(h, x))
    ensures DryKept(w, Folds(effect, g, w))
  {
    if g > 0 {
      FoldsDry(effect, g - 1, w);
      var prev := Folds(effect, g - 1, w);
      DryKeptTrans(w, prev, effect(g - 1, prev));
    }
  }

  lemma PlanDry(ctx: Context, dates: FolderDates, ks: seq<Option<Path>>, folders: seq<Path>)
    requires ctx.dryRun
    ensures forall h: nat, x: World :: DryKept(x, PlanBody(ctx, dates, ks, folders)(h, x))
  {
    forall h: nat, x: World ensures DryKept(x, PlanBody(ctx, dates, ks, folders)(h, x)) {
      if h < |folders| && |ks| == |x.states| {
        MembersFacts(ks, Some(folders[h]));
        FolderEffectDry(ctx, dates, folders[h], Members(ks, Some(folders[h])), x);
      }
    }
  }

  /** In a dry run nothing moves: the filesystem and every record's paths and action stay as they were. */
  lemma DryRunKeepsPaths(ctx: Context, dates: FolderDates, olds: seq<ItemState>, fs: Fs)
    requires ctx.dryRun
    ensures var r := Standardized(ctx, dates, olds, fs);
            r.fs == fs && |r.states| == |olds|
            && forall i :: 0 <= i < |olds| ==> SameCore(olds[i], r.states[i])
  {
    var ks := FolderKeys(olds);
    PlanDry(ctx, dates, ks, KeptOrder(ks));
    FoldsDry(PlanBody(ctx, dates, ks, KeptOrder(ks)), |KeptOrder(ks)|, World(olds, fs));
  }

  // ---------------------------------------------------------------------
  // The sorted records of a processed folder
  // ---------------------------------------------------------------------

  predicate DistinctIndices(s: seq<Named>)
  {
    forall a, b :: 0 <= a < b < |s| ==> s[a].index != s[b].index
  }

  lemma InsertMembers(x: Named, t: seq<Named>)
    ensures forall y :: y in InsertByName(x, t) <==> y == x || y in t
  {
    var r := InsertByName(x, t);
    forall y ensures y in r <==> y == x || y in t {
      assert y in r <==> y in multiset(r);
      assert y in t <==> y in multiset(t);
    }
  }

  lemma {:induction false} InsertDistinct(x: Named, t: seq<Named>)
    requires DistinctIndices(t) && forall y :: y in t ==> y.index != x.index
    ensures DistinctIndices(InsertByName(x, t))
  {
    if t != [] && StrLess(t[0].name, x.name) {
      var rest := t[1..];
      assert forall y :: y in rest ==> y in t;
      assert DistinctIndices(rest) by {
        forall a, b | 0 <= a < b < |rest| ensures rest[a].index != rest[b].index {
          assert rest[a] == t[a + 1] && rest[b] == t[b + 1];
        }
      }
      InsertDistinct(x, rest);
      var r1 := InsertByName(x, rest);
      InsertMembers(x, rest);
      forall y | y in rest ensures y.index != t[0].index {
        var u :| 0 <= u < |rest| && rest[u] == y;
        assert t[u + 1] == y;
      }
      assert InsertByName(x, t) == [t[0]] + r1;
      forall b | 0 <= b < |r1| ensures r1[b].index != t[0].index {
        assert r1[b] in r1;
      }
    }
  }

  lemma {:induction false} SortDistinct(s: seq<Named>)
    requires DistinctIndices(s)
    ensures DistinctIndices(SortByName(s))
  {
    if s != [] {
      SortDistinct(s[1..]);
      forall y | y in SortByName(s[1..]) ensures y.index != s[0].index {
        assert y in multiset(SortByName(s[1..]));
        var u :| 0 <= u < |s[1..]| && s[1..][u] == y;
        assert s[u + 1] == y;
      }
      InsertDistinct(s[0], SortByName(s[1..]));
    }
  }

  /** A folder's records, as the sort sees them, in processing order: name order, and each record once. */
  lemma FolderOrder(states: seq<ItemState>, members: seq<nat>)
    requires forall t :: 0 <= t < |members| ==> members[t] < |states|
    requires Increasing(members)
    ensures NameOrdered(SortByName(NamedOf(states, members)))
    ensures DistinctIndices(SortByName(NamedOf(states, members)))
  {
    var n := NamedOf(states, members);
    assert IndexIncreasing(n) by {
      forall a, b | 0 <= a < b < |n| ensures n[a].index < n[b].index {
        assert n[a].index == members[a] && n[b].index == members[b];
      }
    }
    SortByNameOrdered(n);
    SortDistinct(n);
  }

  /**
   * The final state of the `t`-th record of a processed folder, from its
   * state before the folder and the filesystem at its turn `fs`: no
   * timestamp leaves it as it was; otherwise, with `u = src + (t + 1) µs`
   * and `target` the free path for the generated name, a dry run records
   * the destination and the timestamp, and a real run flattens the record
   * once the move succeeds and leaves it as it was when the move fails.
   */
  lemma FolderRecord(ctx: Context, folder: Path, source: Source, namer: Namer,
                     sorted: seq<Named>, w: World, t: nat)
    requires Names(namer) && InRange(sorted, |w.states|) && DistinctIndices(sorted) && t < |sorted|
    ensures var pos := sorted[t].index;
            var st := w.states[pos];
            var r := FolderUpTo(ctx, folder, source, namer, sorted, |sorted|, w).states[pos];
            var fs := FolderUpTo(ctx, folder, source, namer, sorted, t, w).fs;
            match source(Name(st.current))
            case None => r == st
            case Some(src) =>
              var u := AddMicros(src, t + 1);
              var target := Target(ctx, folder, namer, st.current, u, fs);
              if ctx.dryRun then r == st.(destination := Some(target), metadataTs := Some(u))
              else if FileSystem.Move(fs, st.current, target).ok then r == Flattened(target, u)
              else r == st
  {
    var pos := sorted[t].index;
    BodyLocal(ctx, folder, source, namer);
    StepsAt(FolderBody(ctx, folder, source, namer), sorted, |sorted|, w, t);
    assert !Processed(sorted, t, pos);
    FolderUpToOutside(ctx, folder, source, namer, sorted, t, w, pos);
  }

  /** With the filename fallback, a record whose name carries no timestamp is left as it was. */
  lemma FallbackSkipsUnparsable(ctx: Context, folder: Path, sorted: seq<Named>, w: World, t: nat)
    requires InRange(sorted, |w.states|) && DistinctIndices(sorted) && t < |sorted|
    requires ParseFilenameTimestamp(Name(w.states[sorted[t].index].current)).None?
    ensures FolderUpTo(ctx, folder, FolderSource(None, true), FolderNamer(ctx.config), sorted, |sorted|, w).states[sorted[t].index]
            == w.states[sorted[t].index]
  {
    FolderRecord(ctx, folder, FolderSource(None, true), FolderNamer(ctx.config), sorted, w, t);
  }

  /**
   * In a folder dated `dt`, the `t`-th record ends stamped `dt + (t + 1) µs`
   * or, when its move failed, as it was; in a dry run it is always stamped.
   * The stamps increase strictly along the sorted order.
   */
  lemma DatedFolderStamps(ctx: Context, folder: Path, dt: DateTimeValue, sorted: seq<Named>, w: World, t: nat)
    requires InRange(sorted, |w.states|) && DistinctIndices(sorted) && t < |sorted|
    ensures var pos := sorted[t].index;
            var r := FolderUpTo(ctx, folder, FolderSource(Some(dt), false), FolderNamer(ctx.config), sorted, |sorted|, w).states[pos];
            (r.metadataTs == Some(AddMicros(dt, t + 1)) || r == w.states[pos])
            && (ctx.dryRun ==> r.metadataTs == Some(AddMicros(dt, t + 1)))
  {
    FolderRecord(ctx, folder, FolderSource(Some(dt), false), FolderNamer(ctx.config), sorted, w, t);
  }

  lemma StampsIncrease(dt: DateTimeValue, t1: nat, t2: nat)
    requires t1 < t2
    ensures ToMicros(AddMicros(dt, t1 + 1)) < ToMicros(AddMicros(dt, t2 + 1))
  {
    AddMicrosStrictlyIncreasing(dt, t1 + 1, t2 + 1);
  }

  // ---------------------------------------------------------------------
  // The target path
  // ---------------------------------------------------------------------

  /**
   * The collision loop's result lies in the destination directory, which
   * is under the source root; it does not exist or is the file's own path;
   * it is the generated name whenever that one is free.
   */
  lemma TargetFree(ctx: Context, folder: Path, current: Path, u: DateTime, fs: Fs)
    requires Valid(u)
    ensures var target := Target(ctx, folder, FolderNamer(ctx.config), current, u, fs);
            var dir := DestDir(ctx.sourceRoot, folder);
            Parent(target) == dir && IsRelativeTo(Parent(target), ctx.sourceRoot)
            && (!Exists(fs, target) || target == current)
            && (var name := GenerateFilename(ctx.config, current, u);
                !Exists(fs, Child(dir, name)) || Child(dir, name) == current ==> target == Child(dir, name))
  {
    var dir := DestDir(ctx.sourceRoot, folder);
    var name := GenerateFilename(ctx.config, current, u);
    StemSuffix(name);
    var o := Occupancy(fs, {}, Some(current));
    var free := FreeName(o, dir, name, Stem(name) + "_", Suffix(name));
    assert !Occupied(o, dir, free);
  }
}
