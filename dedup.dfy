/**
 * The deduplicate step.  Records are grouped by folder, base name and
 * extension, in the order their keys first appear.  In each group every
 * record is scored; without the fast option a record whose content hash
 * was already seen in the group is marked for deletion and left out.  The
 * best-scoring record (the earliest one on ties) is renamed to the
 * canonical name, every other scored record is marked for deletion, and
 * the step returns the groups one after the other, each winner first.
 *
 * Records are referred to by their position in the input list: `grouped`
 * and `scored` hold positions where the step holds the records themselves.
 */
module Deduplicate {
  import opened Common
  import opened Paths
  import opened Models
  import opened DedupNames
  import opened Grouping

  // ---------------------------------------------------------------------
  // Grouping
  // ---------------------------------------------------------------------

  /** The grouping key of every record, from its current path. */
  function KeysOf(olds: seq<ItemState>): (ks: seq<GroupKey>)
    ensures |ks| == |olds|
  {
    seq(|olds|, i requires 0 <= i < |olds| => KeyOf(olds[i].current))
  }

  // ---------------------------------------------------------------------
  // Scoring, sorting and marking of one group
  // ---------------------------------------------------------------------

  function Indices(s: seq<Scored>): (r: seq<nat>)
    ensures |r| == |s| && forall k :: 0 <= k < |s| ==> r[k] == s[k].index
  {
    if s == [] then [] else Indices(s[..|s| - 1]) + [s[|s| - 1].index]
  }

  /** The score of the record at position `m` in the group with key `key`: `score(key)(m)`. */
  type Scorer = GroupKey -> nat -> int

  /** The content hash of the record at each position. */
  type Hasher = nat -> Option<string>

  /**
   * The scoring loop over one group: the entries of `scored` and the set
   * of hashes seen.  Without `fast`, a record whose hash is already in the
   * set is left out (it is marked for deletion).
   */
  function ScoreFold(score: nat -> int, hash: Hasher, fast: bool, members: seq<nat>)
    : (r: (seq<Scored>, set<Option<string>>))
  {
    if members == [] then ([], {})
    else
      var (sc, seen) := ScoreFold(score, hash, fast, members[..|members| - 1]);
      var m := members[|members| - 1];
      if !fast && hash(m) in seen then (sc, seen)
      else (sc + [Scored(score(m), m)], if fast then seen else seen + {hash(m)})
  }

  /** One group's `scored` list before the sort. */
  function Scoreds(score: Scorer, hash: Hasher, fast: bool, ks: seq<GroupKey>, key: GroupKey): seq<Scored>
  {
    ScoreFold(score(key), hash, fast, Members(ks, key)).0
  }

  /** One group's `scored` list after the sort. */
  function Ranked(score: Scorer, hash: Hasher, fast: bool, ks: seq<GroupKey>, key: GroupKey): seq<Scored>
  {
    SortDesc(Scoreds(score, hash, fast, ks, key))
  }

  /** The winner's new state: renamed to the canonical name unless it already has it. */
  function WinnerState(st: ItemState, key: GroupKey): (r: ItemState)
  {
    if RenameCanonical && Name(st.current) != CanonicalName(key) then Renamed(st, CanonicalName(key)) else st
  }

  /** The state record `i` ends in: its group's winner gets `WinnerState`, every other record is marked for deletion. */
  function PlanState(score: Scorer, hash: Hasher, fast: bool, ks: seq<GroupKey>, olds: seq<ItemState>, i: nat): ItemState
    requires i < |ks| == |olds|
  {
    var sorted := Ranked(score, hash, fast, ks, ks[i]);
    if sorted != [] && sorted[0].index == i then WinnerState(olds[i], ks[i]) else Deleted(olds[i])
  }

  /** The positions the step returns: the sorted groups one after the other, in `order`. */
  function OutputOf(score: Scorer, hash: Hasher, fast: bool, ks: seq<GroupKey>, order: seq<GroupKey>): seq<nat>
  {
    if order == [] then []
    else OutputOf(score, hash, fast, ks, order[..|order| - 1]) + Indices(Ranked(score, hash, fast, ks, order[|order| - 1]))
  }

  /** The scores the scoring loop computes, for the records `olds`. */
  function ScoreOf(env: DedupEnv, olds: seq<ItemState>): Scorer
  {
    (key: GroupKey) => (m: nat) => if m < |olds| then Score(env, olds[m].current, key) else 0
  }

  function HashOf(env: DedupEnv, olds: seq<ItemState>): Hasher
  {
    (m: nat) => if m < |olds| then env.hash(olds[m].current) else None
  }

  /** The states the step leaves the records `olds` in. */
  function Planned(env: DedupEnv, fast: bool, olds: seq<ItemState>): (r: seq<ItemState>)
    ensures |r| == |olds|
  {
    var ks := KeysOf(olds);
    seq(|olds|, i requires 0 <= i < |olds| => PlanState(ScoreOf(env, olds), HashOf(env, olds), fast, ks, olds, i))
  }

  /** The positions of the records the step returns, in order. */
  function Output(env: DedupEnv, fast: bool, olds: seq<ItemState>): seq<nat>
  {
    OutputOf(ScoreOf(env, olds), HashOf(env, olds), fast, KeysOf(olds), KeyOrder(KeysOf(olds)))
  }

  // ---------------------------------------------------------------------
  // Properties of the plan
  // ---------------------------------------------------------------------

  /** One step of the scoring loop: the last record is kept or left out. */
  lemma ScoreFoldStep(score: nat -> int, hash: Hasher, fast: bool, members: seq<nat>)
    requires members != []
    ensures var m := members[|members| - 1];
      var (sc0, seen0) := ScoreFold(score, hash, fast, members[..|members| - 1]);
      var sc := ScoreFold(score, hash, fast, members).0;
      (!fast && hash(m) in seen0 ==> sc == sc0)
      && (fast || hash(m) !in seen0 ==> sc == sc0 + [Scored(score(m), m)])
  {
  }

  /** Every entry of `scored` is a record of the group with its own score. */
  lemma {:induction false} ScoreFoldEntries(score: nat -> int, hash: Hasher, fast: bool, members: seq<nat>)
    ensures forall k :: 0 <= k < |ScoreFold(score, hash, fast, members).0| ==>
      ScoreFold(score, hash, fast, members).0[k].index in members
    ensures var sc := ScoreFold(score, hash, fast, members).0;
      forall k :: 0 <= k < |sc| ==> sc[k].score == score(sc[k].index)
  {
    if members != [] {
      var init := members[..|members| - 1];
      ScoreFoldEntries(score, hash, fast, init);
      ScoreFoldStep(score, hash, fast, members);
      assert members == init + [members[|members| - 1]];
    }
  }

  /** The entries of `scored` keep the order of the group. */
  lemma {:induction false} ScoreFoldIncreasing(score: nat -> int, hash: Hasher, fast: bool, members: seq<nat>)
    requires Increasing(members)
    ensures Increasing(Indices(ScoreFold(score, hash, fast, members).0))
  {
    if members != [] {
      var init := members[..|members| - 1];
      var m := members[|members| - 1];
      ScoreFoldIncreasing(score, hash, fast, init);
      ScoreFoldEntries(score, hash, fast, init);
      ScoreFoldStep(score, hash, fast, members);
      var sc0 := ScoreFold(score, hash, fast, init).0;
      forall k | 0 <= k < |sc0| ensures sc0[k].index < m {
        var x :| 0 <= x < |init| && init[x] == sc0[k].index;
      }
    }
  }

  /** With `fast` every record of the group is scored, in order. */
  lemma {:induction false} ScoreFoldFast(score: nat -> int, hash: Hasher, members: seq<nat>)
    ensures Indices(ScoreFold(score, hash, true, members).0) == members
  {
    if members != [] {
      var init := members[..|members| - 1];
      ScoreFoldFast(score, hash, init);
      ScoreFoldStep(score, hash, true, members);
      assert members == init + [members[|members| - 1]];
    }
  }

  /** The first record of a group is always scored, since nothing has been seen before it. */
  lemma {:induction false} ScoreFoldFirst(score: nat -> int, hash: Hasher, fast: bool, members: seq<nat>)
    requires members != []
    ensures ScoreFold(score, hash, fast, members).0 != []
    ensures ScoreFold(score, hash, fast, members).0[0].index == members[0]
  {
    var init := members[..|members| - 1];
    ScoreFoldStep(score, hash, fast, members);
    if init != [] {
      ScoreFoldFirst(score, hash, fast, init);
    }
  }

  /** Without `fast`, the seen set holds the hashes of every record of the group so far. */
  lemma {:induction false} ScoreFoldSeen(score: nat -> int, hash: Hasher, members: seq<nat>)
    ensures ScoreFold(score, hash, false, members).1 == set j | 0 <= j < |members| :: hash(members[j])
  {
    if members != [] {
      var init := members[..|members| - 1];
      ScoreFoldSeen(score, hash, init);
      var n := |members| - 1;
      assert (set j | 0 <= j < |members| :: hash(members[j]))
        == (set j | 0 <= j < n :: hash(init[j])) + {hash(members[n])};
    }
  }

  /** The scoring loop over a shorter prefix of the group produces a prefix of `scored`. */
  lemma {:induction false} ScoreFoldPrefix(score: nat -> int, hash: Hasher, fast: bool, members: seq<nat>, j: nat)
    requires j <= |members|
    ensures var a, b := ScoreFold(score, hash, fast, members[..j]).0, ScoreFold(score, hash, fast, members).0;
      |a| <= |b| && b[..|a|] == a
    decreases |members|
  {
    if j < |members| {
      var init := members[..|members| - 1];
      ScoreFoldPrefix(score, hash, fast, init, j);
      assert init[..j] == members[..j];
    } else {
      assert members[..j] == members;
    }
  }

  /** Entries of `scored` past those of a prefix of the group come from the records after that prefix. */
  lemma {:induction false} ScoreFoldAfter(score: nat -> int, hash: Hasher, fast: bool, members: seq<nat>, i: nat)
    requires i <= |members|
    ensures var a, b := ScoreFold(score, hash, fast, members[..i]).0, ScoreFold(score, hash, fast, members).0;
      forall t :: |a| <= t < |b| ==> b[t].index in members[i..]
    decreases |members|
  {
    if i < |members| {
      var init := members[..|members| - 1];
      ScoreFoldAfter(score, hash, fast, init, i);
      ScoreFoldStep(score, hash, fast, members);
      assert init[..i] == members[..i];
      assert members[i..] == init[i..] + [members[|members| - 1]];
    } else {
      assert members[..i] == members;
    }
  }

  /**
   * Without `fast`, a record is kept exactly when no earlier record of its
   * group has the same hash (a failed read, `None`, counts as a hash).
   */
  lemma KeptWithoutFast(score: nat -> int, hash: Hasher, members: seq<nat>, j: nat)
    requires Increasing(members) && j < |members|
    ensures members[j] in Indices(ScoreFold(score, hash, false, members).0)
      <==> forall k :: 0 <= k < j ==> hash(members[k]) != hash(members[j])
  {
    if forall k :: 0 <= k < j ==> hash(members[k]) != hash(members[j]) {
      KeptWhenNew(score, hash, members, j);
    } else {
      var k :| 0 <= k < j && hash(members[k]) == hash(members[j]);
      DroppedWhenSeen(score, hash, members, j, k);
    }
  }

  lemma KeptWhenNew(score: nat -> int, hash: Hasher, members: seq<nat>, j: nat)
    requires j < |members|
    requires forall k :: 0 <= k < j ==> hash(members[k]) != hash(members[j])
    ensures members[j] in Indices(ScoreFold(score, hash, false, members).0)
  {
    var m := members[j];
    var a := ScoreFold(score, hash, false, members[..j]).0;
    var a1 := ScoreFold(score, hash, false, members[..j + 1]).0;
    var b := ScoreFold(score, hash, false, members).0;
    NewHashAppends(score, hash, members, j);
    assert |a1| == |a| + 1 && a1[|a|] == Scored(score(m), m);
    ScoreFoldPrefix(score, hash, false, members, j + 1);
    assert b[..|a1|][|a|] == b[|a|];
    assert Indices(b)[|a|] == m;
  }

  /** A record whose hash is new to its group is appended to `scored`. */
  lemma NewHashAppends(score: nat -> int, hash: Hasher, members: seq<nat>, j: nat)
    requires j < |members|
    requires forall k :: 0 <= k < j ==> hash(members[k]) != hash(members[j])
    ensures ScoreFold(score, hash, false, members[..j + 1]).0
      == ScoreFold(score, hash, false, members[..j]).0 + [Scored(score(members[j]), members[j])]
  {
    var pre := members[..j];
    assert hash(members[j]) !in ScoreFold(score, hash, false, pre).1 by {
      ScoreFoldSeen(score, hash, pre);
      forall x | 0 <= x < j ensures hash(pre[x]) != hash(members[j]) {
        assert pre[x] == members[x];
      }
    }
    TakeTake(members, j);
    ScoreFoldStep(score, hash, false, members[..j + 1]);
  }

  lemma DroppedWhenSeen(score: nat -> int, hash: Hasher, members: seq<nat>, j: nat, k: nat)
    requires Increasing(members) && k < j < |members| && hash(members[k]) == hash(members[j])
    ensures members[j] !in Indices(ScoreFold(score, hash, false, members).0)
  {
    var m, pre, pre1 := members[j], members[..j], members[..j + 1];
    TakeTake(members, j);
    ScoreFoldPrefix(score, hash, false, members, j + 1);
    ScoreFoldAfter(score, hash, false, members, j + 1);
    ScoreFoldSeen(score, hash, pre);
    ScoreFoldEntries(score, hash, false, pre);
    var a := ScoreFold(score, hash, false, pre).0;
    var a1 := ScoreFold(score, hash, false, pre1).0;
    var b := ScoreFold(score, hash, false, members).0;
    assert pre[k] == members[k];
    assert hash(m) in ScoreFold(score, hash, false, pre).1;
    assert a1 == a;
    forall t | 0 <= t < |b| ensures Indices(b)[t] != m {
      if t < |a| {
        assert b[t] == a[t];
        var x :| 0 <= x < |pre| && pre[x] == a[t].index;
        assert pre[x] == members[x];
      } else {
        var x :| 0 <= x < |members| - (j + 1) && members[j + 1..][x] == b[t].index;
        assert members[j + 1 + x] == b[t].index;
      }
    }
  }

  // ---------------------------------------------------------------------
  // The sort keeps the positions
  // ---------------------------------------------------------------------

  predicate DistinctIdx(s: seq<Scored>)
  {
    forall a, b :: 0 <= a < b < |s| ==> s[a].index != s[b].index
  }

  /** Inserting an entry whose position no entry of `t` has keeps the positions distinct. */
  lemma {:induction false} InsertDistinct(x: Scored, t: seq<Scored>)
    requires DistinctIdx(t) && forall y :: y in t ==> y.index != x.index
    ensures DistinctIdx(Insert(x, t))
  {
    if t != [] && t[0].score > x.score {
      var t' := t[1..];
      assert forall y :: y in t' ==> y in t;
      InsertDistinct(x, t');
      var r := Insert(x, t');
      assert t == [t[0]] + t';
      forall k | 0 <= k < |r| ensures r[k] in multiset(t') || r[k].index != t[0].index {
        assert r[k] in multiset(r);
      }
      InsertHead(t[0], r, t');
    }
  }

  /** Putting `h` before `r` keeps positions distinct when every entry of `r` is `x` or an entry after `h` in `t'`. */
  lemma InsertHead(h: Scored, r: seq<Scored>, t': seq<Scored>)
    requires DistinctIdx(r) && DistinctIdx([h] + t')
    requires forall k :: 0 <= k < |r| ==> r[k] in multiset(t') || r[k].index != h.index
    ensures DistinctIdx([h] + r)
  {
    forall b | 0 <= b < |r| ensures h.index != r[b].index {
      if r[b] in multiset(t') {
        var c :| 0 <= c < |t'| && t'[c] == r[b];
        assert ([h] + t')[0] == h && ([h] + t')[c + 1] == r[b];
      }
    }
    forall a, b | 0 <= a < b < |r| + 1 ensures ([h] + r)[a].index != ([h] + r)[b].index {
      assert ([h] + r)[b] == r[b - 1];
      if a > 0 {
        assert ([h] + r)[a] == r[a - 1];
      }
    }
  }

  /** The sort keeps the positions distinct. */
  lemma {:induction false} SortDistinct(s: seq<Scored>)
    requires DistinctIdx(s)
    ensures DistinctIdx(SortDesc(s))
  {
    if s != [] {
      var t := s[1..];
      SortDistinct(t);
      forall y | y in SortDesc(t) ensures y.index != s[0].index {
        assert y in multiset(SortDesc(t));
        var c :| 0 <= c < |t| && t[c] == y;
        assert s[c + 1] == y;
      }
      InsertDistinct(s[0], SortDesc(t));
    }
  }

  /** The sort keeps the entries: an entry is in the sorted list exactly when it is in the list. */
  lemma SortMembers(s: seq<Scored>, y: Scored)
    ensures y in SortDesc(s) <==> y in s
  {
    assert y in SortDesc(s) <==> y in multiset(SortDesc(s));
  }

  lemma IncreasingDistinct(s: seq<Scored>)
    requires Increasing(Indices(s))
    ensures DistinctIdx(s)
  {
    assert forall a, b :: 0 <= a < b < |s| ==> Indices(s)[a] < Indices(s)[b];
  }

  // ---------------------------------------------------------------------
  // The winner, and which records the step returns
  // ---------------------------------------------------------------------

  /** Every scored entry is a record of the group carrying its own score, each record at most once. */
  lemma ScoredEntries(score: Scorer, hash: Hasher, fast: bool, ks: seq<GroupKey>, key: GroupKey)
    ensures var sc := Scoreds(score, hash, fast, ks, key);
      forall k :: 0 <= k < |sc| ==>
        sc[k].index < |ks| && ks[sc[k].index] == key && sc[k].score == score(key)(sc[k].index)
    ensures DistinctIdx(Scoreds(score, hash, fast, ks, key))
  {
    var members := Members(ks, key);
    MembersFacts(ks, key);
    ScoreFoldEntries(score(key), hash, fast, members);
    ScoreFoldIncreasing(score(key), hash, fast, members);
    var sc := Scoreds(score, hash, fast, ks, key);
    assert sc == ScoreFold(score(key), hash, fast, members).0;
    IncreasingDistinct(sc);
    forall k | 0 <= k < |sc| ensures sc[k].index < |ks| && ks[sc[k].index] == key {
      assert sc[k].index in members;
      var j :| 0 <= j < |members| && members[j] == sc[k].index;
    }
  }

  /**
   * Every group has a winner: the first of its scored records with the
   * highest score.
   */
  lemma WinnerIsBest(score: Scorer, hash: Hasher, fast: bool, ks: seq<GroupKey>, key: GroupKey)
    requires key in ks
    ensures var sc := Scoreds(score, hash, fast, ks, key);
      sc != [] && Ranked(score, hash, fast, ks, key)[0] == sc[FirstMax(sc)]
    ensures var w := Ranked(score, hash, fast, ks, key);
      w != [] && w[0].index < |ks| && ks[w[0].index] == key
  {
    var members := Members(ks, key);
    MembersFacts(ks, key);
    var i :| 0 <= i < |ks| && ks[i] == key;
    assert i in members;
    ScoreFoldFirst(score(key), hash, fast, members);
    ScoredEntries(score, hash, fast, ks, key);
    SortDescHead(Scoreds(score, hash, fast, ks, key));
  }

  /** The winner outscores every other scored record of its group, and beats the earlier ones strictly. */
  lemma WinnerScore(env: DedupEnv, fast: bool, olds: seq<ItemState>, key: GroupKey)
    requires key in KeysOf(olds)
    ensures var sc := Scoreds(ScoreOf(env, olds), HashOf(env, olds), fast, KeysOf(olds), key);
      var w := Ranked(ScoreOf(env, olds), HashOf(env, olds), fast, KeysOf(olds), key);
      w != [] && w[0] in sc && w[0].index < |olds|
      && forall k :: 0 <= k < |sc| ==>
           sc[k].index < |olds| && Score(env, olds[sc[k].index].current, key) <= Score(env, olds[w[0].index].current, key)
  {
    var score, hash, ks := ScoreOf(env, olds), HashOf(env, olds), KeysOf(olds);
    WinnerIsBest(score, hash, fast, ks, key);
    ScoredEntries(score, hash, fast, ks, key);
  }

  /** The winner of each group ends with the canonical name. */
  lemma WinnerPlanned(score: Scorer, hash: Hasher, fast: bool, ks: seq<GroupKey>, olds: seq<ItemState>, key: GroupKey)
    requires |ks| == |olds| && key in ks
    ensures var w := Ranked(score, hash, fast, ks, key);
      w != [] && w[0].index < |olds|
      && PlanState(score, hash, fast, ks, olds, w[0].index) == WinnerState(olds[w[0].index], key)
      && Name(PlanState(score, hash, fast, ks, olds, w[0].index).current) == CanonicalName(key)
  {
    WinnerIsBest(score, hash, fast, ks, key);
  }

  /** Every record other than its group's winner is marked for deletion. */
  lemma OthersDeleted(score: Scorer, hash: Hasher, fast: bool, ks: seq<GroupKey>, olds: seq<ItemState>, i: nat)
    requires i < |ks| == |olds|
    requires var w := Ranked(score, hash, fast, ks, ks[i]); w == [] || w[0].index != i
    ensures PlanState(score, hash, fast, ks, olds, i) == Deleted(olds[i])
  {
  }

  lemma IndicesOfSorted(s: seq<Scored>, i: nat)
    ensures i in Indices(SortDesc(s)) <==> i in Indices(s)
  {
    var r := SortDesc(s);
    if i in Indices(r) {
      var k :| 0 <= k < |r| && Indices(r)[k] == i;
      assert r[k] in multiset(s);
      var c :| 0 <= c < |s| && s[c] == r[k];
      assert Indices(s)[c] == i;
    }
    if i in Indices(s) {
      var c :| 0 <= c < |s| && Indices(s)[c] == i;
      assert s[c] in multiset(r);
      var k :| 0 <= k < |r| && r[k] == s[c];
      assert Indices(r)[k] == i;
    }
  }

  /** Only scored records are returned, and every one whose key is in `order`. */
  lemma {:induction false} OutputOfMembers(score: Scorer, hash: Hasher, fast: bool, ks: seq<GroupKey>, order: seq<GroupKey>, i: nat)
    ensures i in OutputOf(score, hash, fast, ks, order) <==>
      i < |ks| && ks[i] in order && i in Indices(Scoreds(score, hash, fast, ks, ks[i]))
  {
    if order != [] {
      var init := order[..|order| - 1];
      var key := order[|order| - 1];
      OutputOfMembers(score, hash, fast, ks, init, i);
      var a := OutputOf(score, hash, fast, ks, init);
      var sc := Scoreds(score, hash, fast, ks, key);
      var b := Indices(SortDesc(sc));
      assert OutputOf(score, hash, fast, ks, order) == a + b;
      assert i in a + b <==> i in a || i in b;
      assert forall k :: k in order <==> k in init || k == key;
      IndicesOfSorted(sc, i);
      if i in Indices(sc) {
        GroupMember(score, hash, fast, ks, key, i);
      }
    }
  }

  /** A position among a group's scored entries belongs to that group. */
  lemma GroupMember(score: Scorer, hash: Hasher, fast: bool, ks: seq<GroupKey>, key: GroupKey, i: nat)
    requires i in Indices(Scoreds(score, hash, fast, ks, key))
    ensures i < |ks| && ks[i] == key
  {
    var sc := Scoreds(score, hash, fast, ks, key);
    ScoredEntries(score, hash, fast, ks, key);
    var k :| 0 <= k < |sc| && Indices(sc)[k] == i;
  }

  /** The step returns exactly the records that were scored in their group. */
  lemma OutputMembers(score: Scorer, hash: Hasher, fast: bool, ks: seq<GroupKey>, i: nat)
    ensures i in OutputOf(score, hash, fast, ks, KeyOrder(ks)) <==>
      i < |ks| && i in Indices(Scoreds(score, hash, fast, ks, ks[i]))
  {
    OutputOfMembers(score, hash, fast, ks, KeyOrder(ks), i);
    if i < |ks| {
      assert ks[i] in ks;
    }
  }

  /** With the fast option every record is returned. */
  lemma FastReturnsAll(score: Scorer, hash: Hasher, ks: seq<GroupKey>, i: nat)
    ensures i in OutputOf(score, hash, true, ks, KeyOrder(ks)) <==> i < |ks|
  {
    OutputMembers(score, hash, true, ks, i);
    if i < |ks| {
      var members := Members(ks, ks[i]);
      MembersFacts(ks, ks[i]);
      ScoreFoldFast(score(ks[i]), hash, members);
      assert i in members;
    }
  }

  /**
   * Without the fast option a record is returned exactly when no earlier
   * record of its group has the same hash; the others were marked for
   * deletion while scoring.
   */
  lemma SlowReturnsFirstOfHash(score: Scorer, hash: Hasher, ks: seq<GroupKey>, i: nat)
    requires i < |ks|
    ensures i in OutputOf(score, hash, false, ks, KeyOrder(ks)) <==>
      forall k :: 0 <= k < i && ks[k] == ks[i] ==> hash(k) != hash(i)
  {
    OutputMembers(score, hash, false, ks, i);
    var members := Members(ks, ks[i]);
    MembersFacts(ks, ks[i]);
    assert i in members;
    var j :| 0 <= j < |members| && members[j] == i;
    KeptWithoutFast(score(ks[i]), hash, members, j);
    assert Increasing(members);
    EarlierMembers(hash, ks, members, i, j);
  }

  /** The records before position `j` of a group are its records before `members[j]`, so the two "no earlier equal hash" conditions agree. */
  lemma EarlierMembers(hash: Hasher, ks: seq<GroupKey>, members: seq<nat>, i: nat, j: nat)
    requires i < |ks| && j < |members| && members[j] == i && Increasing(members)
    requires forall c :: 0 <= c < |members| ==> members[c] < |ks| && ks[members[c]] == ks[i]
    requires forall k :: 0 <= k < |ks| && ks[k] == ks[i] ==> k in members
    ensures (forall c :: 0 <= c < j ==> hash(members[c]) != hash(members[j]))
      <==> (forall k :: 0 <= k < i && ks[k] == ks[i] ==> hash(k) != hash(i))
  {
    if forall c :: 0 <= c < j ==> hash(members[c]) != hash(members[j]) {
      forall k | 0 <= k < i && ks[k] == ks[i] ensures hash(k) != hash(i) {
        assert k in members;
        var c :| 0 <= c < |members| && members[c] == k;
        assert c < j;
      }
    }
    if forall k :: 0 <= k < i && ks[k] == ks[i] ==> hash(k) != hash(i) {
      forall c | 0 <= c < j ensures hash(members[c]) != hash(members[j]) {
        assert members[c] < i && ks[members[c]] == ks[i];
      }
    }
  }

  /** Two records without a readable content hash in one group: the later one is not returned. */
  lemma UnreadableCountsAsDuplicate(score: Scorer, hash: Hasher, ks: seq<GroupKey>, k: nat, i: nat)
    requires k < i < |ks| && ks[k] == ks[i] && hash(k) == None && hash(i) == None
    ensures i !in OutputOf(score, hash, false, ks, KeyOrder(ks))
  {
    SlowReturnsFirstOfHash(score, hash, ks, i);
  }

  predicate Unique(s: seq<nat>)
  {
    forall a, b :: 0 <= a < b < |s| ==> s[a] != s[b]
  }

  /** No record is returned twice. */
  lemma {:induction false} OutputOfUnique(score: Scorer, hash: Hasher, fast: bool, ks: seq<GroupKey>, order: seq<GroupKey>)
    requires forall a, b :: 0 <= a < b < |order| ==> order[a] != order[b]
    ensures Unique(OutputOf(score, hash, fast, ks, order))
  {
    if order != [] {
      var init := order[..|order| - 1];
      var key := order[|order| - 1];
      OutputOfUnique(score, hash, fast, ks, init);
      var a := OutputOf(score, hash, fast, ks, init);
      var sc := Scoreds(score, hash, fast, ks, key);
      var b := Indices(SortDesc(sc));
      ScoredEntries(score, hash, fast, ks, key);
      SortDistinct(sc);
      assert key !in init;
      forall p, q | 0 <= p < |a| && 0 <= q < |b| ensures a[p] != b[q] {
        OutputOfMembers(score, hash, fast, ks, init, a[p]);
        IndicesOfSorted(sc, b[q]);
        GroupMember(score, hash, fast, ks, key, b[q]);
      }
      UniqueConcat(a, b);
    }
  }

  lemma UniqueConcat(a: seq<nat>, b: seq<nat>)
    requires Unique(a) && Unique(b) && forall p, q :: 0 <= p < |a| && 0 <= q < |b| ==> a[p] != b[q]
    ensures Unique(a + b)
  {
    forall x, y | 0 <= x < y < |a + b| ensures (a + b)[x] != (a + b)[y] {
      if y >= |a| {
        assert (a + b)[y] == b[y - |a|];
      }
    }
  }

  // ---------------------------------------------------------------------
  // The step
  // ---------------------------------------------------------------------

  /** The maps the grouping loop keeps: `keys`, the dict's keys in order, and `grouped[k]`, the positions with key `k`. */
  ghost predicate GroupedUpTo(ks: seq<GroupKey>, i: nat, keys: seq<GroupKey>, grouped: map<GroupKey, seq<nat>>)
    requires i <= |ks|
  {
    keys == KeyOrder(ks[..i])
    && (forall k :: k in grouped <==> k in keys)
    && forall k :: k in grouped ==> grouped[k] == Members(ks[..i], k)
  }

  /** `grouped[key].append(i)` on a `defaultdict(list)`, with the new key appended to the key order. */
  lemma GroupedNext(ks: seq<GroupKey>, i: nat, keys: seq<GroupKey>, grouped: map<GroupKey, seq<nat>>)
    requires i < |ks| && GroupedUpTo(ks, i, keys, grouped)
    ensures var key := ks[i];
      var list := if key in grouped then grouped[key] else [];
      GroupedUpTo(ks, i + 1, if key in grouped then keys else keys + [key], grouped[key := list + [i]])
  {
    var key := ks[i];
    var list := if key in grouped then grouped[key] else [];
    var grouped' := grouped[key := list + [i]];
    var keys' := if key in grouped then keys else keys + [key];
    assert keys' == KeyOrder(ks[..i + 1]) by {
      KeyOrderStep(ks, i);
    }
    assert forall k :: k in grouped' <==> k in keys';
    assert list == Members(ks[..i], key) by {
      if key !in grouped {
        MembersAbsent(ks[..i], key);
      }
    }
    forall k | k in grouped' ensures grouped'[k] == Members(ks[..i + 1], k) {
      MembersStep(ks, i, k);
    }
  }

  /** The grouping loop: the keys in the order they first appear and, for each, the positions of its records. */
  method GroupItems(items: seq<FileItem>) returns (keys: seq<GroupKey>, grouped: map<GroupKey, seq<nat>>)
    ensures GroupedUpTo(KeysOf(States(items)), |items|, keys, grouped)
  {
    ghost var ks := KeysOf(States(items));
    keys := [];
    grouped := map[];
    var i := 0;
    while i < |items|
      invariant 0 <= i <= |items| && GroupedUpTo(ks, i, keys, grouped)
    {
      var key := KeyOf(items[i].currentPath);
      assert key == ks[i];
      GroupedNext(ks, i, keys, grouped);
      var list := if key in grouped then grouped[key] else [];
      if key !in grouped {
        keys := keys + [key];
      }
      grouped := grouped[key := list + [i]];
      i := i + 1;
    }
  }

  /** After the grouping loop: the key order is that of the records, and each list holds its key's records. */
  lemma GroupedAll(ks: seq<GroupKey>, keys: seq<GroupKey>, grouped: map<GroupKey, seq<nat>>)
    requires GroupedUpTo(ks, |ks|, keys, grouped)
    ensures keys == KeyOrder(ks)
    ensures forall k :: k in grouped <==> k in keys
    ensures forall k :: k in grouped ==> grouped[k] == Members(ks, k)
  {
    assert ks[..|ks|] == ks;
  }

  /**
   * The scoring loop over one group: each record's score (`score(m)` for
   * the record at position `m`, computed from its current path) and,
   * without `fast`, its content hash (`hash(m)`); a record whose hash was
   * already seen is marked for deletion and left out of `scored`.
   */
  method ScoreGroup(score: nat -> int, hash: Hasher, fast: bool, items: seq<FileItem>, members: seq<nat>)
    returns (scored: seq<Scored>)
    requires Distinct(items) && Increasing(members)
    requires forall j :: 0 <= j < |members| ==> members[j] < |items|
    modifies items
    ensures scored == ScoreFold(score, hash, fast, members).0
    ensures forall i :: 0 <= i < |items| ==>
      items[i].State() == if Dropped(i, members, scored) then Deleted(old(items[i].State())) else old(items[i].State())
  {
    scored := [];
    var seen: set<Option<string>> := {};
    var j := 0;
    while j < |members|
      invariant 0 <= j <= |members|
      invariant (scored, seen) == ScoreFold(score, hash, fast, members[..j])
      invariant forall i :: 0 <= i < |items| ==>
        items[i].State() == if Dropped(i, members[..j], scored) then Deleted(old(items[i].State())) else old(items[i].State())
    {
      var m := members[j];
      ScoreGroupStep(score, hash, fast, members, j);
      var sc := score(m);
      if !fast {
        var h := hash(m);
        if h in seen {
          if DeleteDuplicates {
            items[m].MarkDelete();
          }
          j := j + 1;
          continue;
        }
        seen := seen + {h};
      }
      scored := scored + [Scored(sc, m)];
      j := j + 1;
    }
    assert members[..j] == members;
  }

  /** Record `i` of the group was left out of `scored` (it was marked for deletion). */
  predicate Dropped(i: nat, members: seq<nat>, scored: seq<Scored>)
  {
    i in members && i !in Indices(scored)
  }

  /** What the scoring loop needs about record `members[j]`: it is new to the loop, and the next fold step. */
  lemma ScoreGroupStep(score: nat -> int, hash: Hasher, fast: bool, members: seq<nat>, j: nat)
    requires Increasing(members) && j < |members|
    ensures var m, sc := members[j], ScoreFold(score, hash, fast, members[..j]).0;
      m !in members[..j] && m !in Indices(sc)
    ensures var m, sc, sc' := members[j], ScoreFold(score, hash, fast, members[..j]).0, ScoreFold(score, hash, fast, members[..j + 1]).0;
      forall i :: Dropped(i, members[..j + 1], sc') <==> Dropped(i, members[..j], sc) || (i == m && sc' == sc)
    ensures var (sc, seen) := ScoreFold(score, hash, fast, members[..j]);
      ScoreFold(score, hash, fast, members[..j + 1]) ==
        if !fast && hash(members[j]) in seen then (sc, seen)
        else (sc + [Scored(score(members[j]), members[j])], if fast then seen else seen + {hash(members[j])})
  {
    var pre, post, m := members[..j], members[..j + 1], members[j];
    TakeTake(members, j);
    TakeSnoc(members, j);
    var (sc, seen) := ScoreFold(score, hash, fast, pre);
    assert ScoreFold(score, hash, fast, post) ==
      if !fast && hash(m) in seen then (sc, seen)
      else (sc + [Scored(score(m), m)], if fast then seen else seen + {hash(m)});
    var sc' := ScoreFold(score, hash, fast, post).0;
    assert m !in pre by {
      forall x | 0 <= x < |pre| ensures pre[x] != m {
        assert pre[x] == members[x];
      }
    }
    ScoreFoldEntries(score, hash, fast, pre);
    assert m !in Indices(sc) by {
      forall k | 0 <= k < |sc| ensures Indices(sc)[k] != m {
        assert sc[k].index in pre;
      }
    }
    if sc' != sc {
      IndicesSnoc(sc, Scored(score(m), m));
    }
    forall i ensures Dropped(i, post, sc') <==> Dropped(i, pre, sc) || (i == m && sc' == sc) {
      assert i in post <==> i in pre || i == m;
    }
  }

  lemma TakeSnoc<T>(s: seq<T>, j: nat)
    requires j < |s|
    ensures s[..j + 1] == s[..j] + [s[j]]
  {
  }

  lemma IndicesSnoc(sc: seq<Scored>, x: Scored)
    ensures Indices(sc + [x]) == Indices(sc) + [x.index]
  {
    assert (sc + [x])[..|sc|] == sc;
  }

  /** A record's state after its group is marked: the winner renamed, every other entry of `sorted` deleted. */
  function MarkedState(st: ItemState, i: nat, key: GroupKey, sorted: seq<Scored>): ItemState
    requires sorted != []
  {
    if i == sorted[0].index then WinnerState(st, key)
    else if i in Indices(sorted) then Deleted(st)
    else st
  }

  /**
   * The marking of one sorted group: the winner is renamed to the
   * canonical name unless it has it, every other entry is marked for
   * deletion, and the group's records are returned in sorted order.
   */
  method MarkGroup(items: seq<FileItem>, key: GroupKey, sorted: seq<Scored>) returns (out: seq<FileItem>)
    requires Distinct(items) && sorted != [] && DistinctIdx(sorted) && InRange(sorted, |items|)
    modifies items
    ensures |out| == |sorted| && forall k :: 0 <= k < |sorted| ==> out[k] == items[sorted[k].index]
    ensures forall i :: 0 <= i < |items| ==> items[i].State() == MarkedState(old(items[i].State()), i, key, sorted)
  {
    ghost var s0 := States(items);
    var winner := items[sorted[0].index];
    RenameWinner(items, sorted[0].index, key);
    ghost var s1 := States(items);
    var losers := DeleteLosers(items, sorted);
    LosersAt(items, sorted, |sorted|);
    MarkedAll(s0, s1, States(items), key, sorted);
    forall i | 0 <= i < |items| ensures items[i].State() == MarkedState(old(items[i].State()), i, key, sorted) {
      assert items[i].State() == States(items)[i] && old(items[i].State()) == s0[i];
    }
    out := [winner] + losers;
  }

  /** The winner is renamed to the canonical name unless it already has it. */
  method RenameWinner(items: seq<FileItem>, w: nat, key: GroupKey)
    requires Distinct(items) && w < |items|
    modifies items[w]
    ensures States(items) == old(States(items))[w := WinnerState(old(States(items))[w], key)]
  {
    ghost var before := States(items);
    var winner := items[w];
    if RenameCanonical {
      var canonical := CanonicalName(key);
      if winner.Name() != canonical {
        winner.MarkRename(canonical);
      }
    }
    assert States(items) == before[w := WinnerState(before[w], key)];
  }

  /** Renaming the winner, then deleting the losers, gives every record its `MarkedState`. */
  lemma MarkedAll(s0: seq<ItemState>, s1: seq<ItemState>, s2: seq<ItemState>, key: GroupKey, sorted: seq<Scored>)
    requires sorted != [] && DistinctIdx(sorted) && InRange(sorted, |s0|)
    requires s1 == s0[sorted[0].index := WinnerState(s0[sorted[0].index], key)]
    requires s2 == DeletedUpTo(s1, sorted, |sorted|)
    ensures |s2| == |s0| && forall i :: 0 <= i < |s0| ==> s2[i] == MarkedState(s0[i], i, key, sorted)
  {
    forall i | 0 <= i < |s0| ensures s2[i] == MarkedState(s0[i], i, key, sorted) {
      DeletedUpToAt(s1, sorted, |sorted|, i);
      var w := sorted[0].index;
      if i == w {
        assert !Loser(sorted, |sorted|, i);
      } else if i in Indices(sorted) {
        var t :| 0 <= t < |sorted| && Indices(sorted)[t] == i;
        assert Loser(sorted, |sorted|, i);
      } else {
        assert !Loser(sorted, |sorted|, i) by {
          forall t | 1 <= t < |sorted| ensures sorted[t].index != i {
            assert Indices(sorted)[t] == sorted[t].index;
          }
        }
      }
    }
  }

  /** `for _, loser_item in scored[1:]`: every entry after the winner is marked for deletion and returned. */
  method DeleteLosers(items: seq<FileItem>, sorted: seq<Scored>) returns (out: seq<FileItem>)
    requires Distinct(items) && sorted != [] && InRange(sorted, |items|)
    modifies items
    ensures out == Losers(items, sorted, |sorted|)
    ensures States(items) == DeletedUpTo(old(States(items)), sorted, |sorted|)
  {
    out := [];
    ghost var olds := States(items);
    for k := 1 to |sorted|
      invariant out == Losers(items, sorted, k)
      invariant States(items) == DeletedUpTo(olds, sorted, k)
    {
      out := DeleteNext(items, sorted, k, olds, out);
    }
  }

  /** The entries of `sorted` are positions in a list of length `n`. */
  predicate InRange(sorted: seq<Scored>, n: nat)
  {
    forall t :: 0 <= t < |sorted| ==> sorted[t].index < n
  }

  /** `start` with the records at `sorted[1..k]` marked for deletion, one after the other. */
  function DeletedUpTo(start: seq<ItemState>, sorted: seq<Scored>, k: nat): (r: seq<ItemState>)
    requires k <= |sorted| && InRange(sorted, |start|)
    ensures |r| == |start|
  {
    if k <= 1 then start
    else
      var prev := DeletedUpTo(start, sorted, k - 1);
      var j := sorted[k - 1].index;
      prev[j := Deleted(prev[j])]
  }

  /** One pass of the loop over the losers: `sorted[k]` is marked for deletion and appended. */
  method DeleteNext(items: seq<FileItem>, sorted: seq<Scored>, k: nat, ghost olds: seq<ItemState>, out: seq<FileItem>)
    returns (out': seq<FileItem>)
    requires Distinct(items) && 1 <= k < |sorted| && |olds| == |items| && InRange(sorted, |items|)
    requires out == Losers(items, sorted, k) && States(items) == DeletedUpTo(olds, sorted, k)
    modifies items[sorted[k].index]
    ensures out' == Losers(items, sorted, k + 1) && States(items) == DeletedUpTo(olds, sorted, k + 1)
  {
    ghost var before := States(items);
    var j := sorted[k].index;
    var loser := items[j];
    if DeleteDuplicates {
      loser.MarkDelete();
    }
    assert States(items) == before[j := Deleted(before[j])];
    out' := out + [loser];
  }

  /** `[items[sorted[t].index] for t in 1..k]`. */
  function Losers(items: seq<FileItem>, sorted: seq<Scored>, k: nat): (r: seq<FileItem>)
    requires k <= |sorted| && InRange(sorted, |items|)
  {
    if k <= 1 then [] else Losers(items, sorted, k - 1) + [items[sorted[k - 1].index]]
  }

  lemma {:induction false} LosersAt(items: seq<FileItem>, sorted: seq<Scored>, k: nat)
    requires 1 <= k <= |sorted| && InRange(sorted, |items|)
    ensures |Losers(items, sorted, k)| == k - 1
    ensures forall t :: 1 <= t < k ==> Losers(items, sorted, k)[t - 1] == items[sorted[t].index]
  {
    if k > 1 {
      LosersAt(items, sorted, k - 1);
    }
  }

  /** Record `i` is one of the losers `sorted[1..k]`. */
  ghost predicate Loser(sorted: seq<Scored>, k: nat, i: nat)
  {
    exists t :: 1 <= t < k && t < |sorted| && sorted[t].index == i
  }

  /** Marking `sorted[1..k]` deletes exactly the losers among them, each once. */
  lemma {:induction false} DeletedUpToAt(start: seq<ItemState>, sorted: seq<Scored>, k: nat, i: nat)
    requires DistinctIdx(sorted) && k <= |sorted| && InRange(sorted, |start|) && i < |start|
    ensures DeletedUpTo(start, sorted, k)[i] == if Loser(sorted, k, i) then Deleted(start[i]) else start[i]
  {
    if k > 1 {
      DeletedUpToAt(start, sorted, k - 1, i);
      var j := sorted[k - 1].index;
      if i == j {
        assert Loser(sorted, k, i);
        assert !Loser(sorted, k - 1, i);
      } else {
        assert Loser(sorted, k, i) == Loser(sorted, k - 1, i);
      }
    } else {
      assert !Loser(sorted, k, i);
    }
  }

  /** What processing the group `key` does to record `i`: scoring may drop it, then marking renames or deletes it. */
  function GroupEffect(score: Scorer, hash: Hasher, fast: bool, ks: seq<GroupKey>, key: GroupKey, i: nat, st: ItemState): ItemState
  {
    var sc := Scoreds(score, hash, fast, ks, key);
    var sorted := SortDesc(sc);
    var st' := if Dropped(i, Members(ks, key), sc) then Deleted(st) else st;
    if sorted == [] then st' else MarkedState(st', i, key, sorted)
  }

  /**
   * One iteration of the loop over groups: score the group, skip it if
   * nothing was scored, else sort it and mark it.  Returns the group's
   * records in sorted order.
   */
  method ProcessGroup(score: Scorer, hash: Hasher, fast: bool, ghost ks: seq<GroupKey>, items: seq<FileItem>,
                      key: GroupKey, members: seq<nat>)
    returns (group: seq<FileItem>)
    requires Distinct(items) && |ks| == |items| && members == Members(ks, key)
    modifies items
    ensures Picks(Indices(Ranked(score, hash, fast, ks, key)), group, items)
    ensures forall i :: 0 <= i < |items| ==> items[i].State() == GroupEffect(score, hash, fast, ks, key, i, old(items[i].State()))
  {
    GroupFacts(score, hash, fast, ks, key);
    var scored := ScoreGroup(score(key), hash, fast, items, members);
    group := SortAndMark(items, key, scored);
  }

  /** `if not scored: continue`, else sort the scored entries and mark the group. */
  method SortAndMark(items: seq<FileItem>, key: GroupKey, scored: seq<Scored>) returns (group: seq<FileItem>)
    requires Distinct(items) && DistinctIdx(SortDesc(scored))
    requires forall k :: 0 <= k < |SortDesc(scored)| ==> SortDesc(scored)[k].index < |items|
    modifies items
    ensures Picks(Indices(SortDesc(scored)), group, items)
    ensures forall i :: 0 <= i < |items| ==>
      items[i].State() == if SortDesc(scored) == [] then old(items[i].State()) else MarkedState(old(items[i].State()), i, key, SortDesc(scored))
  {
    if scored == [] {
      return [];
    }
    var sorted := SortDesc(scored);
    group := MarkGroup(items, key, sorted);
  }

  /** What the loop over one group needs: the member list is increasing and in range, and so are the sorted entries. */
  lemma GroupFacts(score: Scorer, hash: Hasher, fast: bool, ks: seq<GroupKey>, key: GroupKey)
    ensures Increasing(Members(ks, key)) && forall j :: 0 <= j < |Members(ks, key)| ==> Members(ks, key)[j] < |ks|
    ensures DistinctIdx(Ranked(score, hash, fast, ks, key))
    ensures forall k :: 0 <= k < |Ranked(score, hash, fast, ks, key)| ==> Ranked(score, hash, fast, ks, key)[k].index < |ks|
  {
    MembersFacts(ks, key);
    var sc := Scoreds(score, hash, fast, ks, key);
    ScoredEntries(score, hash, fast, ks, key);
    SortDistinct(sc);
    forall k | 0 <= k < |SortDesc(sc)| ensures SortDesc(sc)[k].index < |ks| {
      SortMembers(sc, SortDesc(sc)[k]);
    }
  }

  /**
   * `process`: group the records, then score, sort and mark each group in
   * key order.  The result lists each group's scored records, winner
   * first; every record ends in its planned state.
   */
  method Process(ctx: Context, env: DedupEnv, items: seq<FileItem>) returns (result: seq<FileItem>)
    requires Distinct(items)
    modifies items
    ensures Picks(Output(env, ctx.config.deduplicate.fasterProcess, old(States(items))), result, items)
    ensures States(items) == Planned(env, ctx.config.deduplicate.fasterProcess, old(States(items)))
  {
    var fast := ctx.config.deduplicate.fasterProcess;
    var olds := States(items);
    var keys, grouped := GroupItems(items);
    GroupedAll(KeysOf(olds), keys, grouped);
    result := ProcessGroups(ScoreOf(env, olds), HashOf(env, olds), fast, KeysOf(olds), olds, items, keys, grouped);
    PlannedIs(env, fast, olds, States(items));
  }

  /** `result[k]` is the record at position `out[k]`, for every `k`. */
  predicate Picks(out: seq<nat>, result: seq<FileItem>, items: seq<FileItem>)
  {
    |result| == |out| && forall k :: 0 <= k < |out| ==> out[k] < |items| && result[k] == items[out[k]]
  }

  /** The records of the groups `keys[..g]` are in their planned states, the others as they started. */
  ghost predicate DoneUpTo(score: Scorer, hash: Hasher, fast: bool, ks: seq<GroupKey>, olds: seq<ItemState>,
                           states: seq<ItemState>, keys: seq<GroupKey>, g: nat)
  {
    |states| == |ks| == |olds| && g <= |keys|
    && forall i :: 0 <= i < |ks| ==>
      states[i] == if ks[i] in keys[..g] then PlanState(score, hash, fast, ks, olds, i) else olds[i]
  }

  /** The loop over the groups, in key order. */
  method ProcessGroups(score: Scorer, hash: Hasher, fast: bool, ghost ks: seq<GroupKey>, ghost olds: seq<ItemState>,
                       items: seq<FileItem>, keys: seq<GroupKey>, grouped: map<GroupKey, seq<nat>>)
    returns (result: seq<FileItem>)
    requires Distinct(items) && |ks| == |items| == |olds|
    requires forall i :: 0 <= i < |items| ==> items[i].State() == olds[i]
    requires keys == KeyOrder(ks)
    requires forall k :: k in grouped <==> k in keys
    requires forall k :: k in grouped ==> grouped[k] == Members(ks, k)
    modifies items
    ensures Picks(OutputOf(score, hash, fast, ks, keys), result, items)
    ensures forall i :: 0 <= i < |items| ==> items[i].State() == PlanState(score, hash, fast, ks, olds, i)
  {
    result := [];
    ghost var out: seq<nat> := [];
    var g := 0;
    while g < |keys|
      invariant 0 <= g <= |keys|
      invariant out == OutputOf(score, hash, fast, ks, keys[..g])
      invariant Picks(out, result, items)
      invariant DoneUpTo(score, hash, fast, ks, olds, States(items), keys, g)
    {
      assert keys[g] in grouped;
      result, out := ProcessNext(score, hash, fast, ks, olds, items, keys, grouped[keys[g]], g, result, out);
      g := g + 1;
    }
    TakeAll(keys);
    forall i | 0 <= i < |items| ensures items[i].State() == PlanState(score, hash, fast, ks, olds, i) {
      assert ks[i] in ks;
    }
  }

  /** One pass of the loop over the groups: group `keys[g]` is processed and its records appended. */
  method ProcessNext(score: Scorer, hash: Hasher, fast: bool, ghost ks: seq<GroupKey>, ghost olds: seq<ItemState>,
                     items: seq<FileItem>, keys: seq<GroupKey>, members: seq<nat>, g: nat,
                     result: seq<FileItem>, ghost out: seq<nat>)
    returns (result': seq<FileItem>, ghost out': seq<nat>)
    requires Distinct(items) && |ks| == |items| == |olds|
    requires keys == KeyOrder(ks) && g < |keys| && members == Members(ks, keys[g])
    requires out == OutputOf(score, hash, fast, ks, keys[..g]) && Picks(out, result, items)
    requires DoneUpTo(score, hash, fast, ks, olds, States(items), keys, g)
    modifies items
    ensures out' == OutputOf(score, hash, fast, ks, keys[..g + 1]) && Picks(out', result', items)
    ensures DoneUpTo(score, hash, fast, ks, olds, States(items), keys, g + 1)
  {
    ghost var before := States(items);
    var group := ProcessGroup(score, hash, fast, ks, items, keys[g], members);
    PlanGroupStep(score, hash, fast, ks, olds, keys, g, before, States(items));
    ghost var sorted := Ranked(score, hash, fast, ks, keys[g]);
    AppendGroup(result, out, group, Indices(sorted), items);
    OutputOfStep(score, hash, fast, ks, keys, g);
    result' := result + group;
    out' := out + Indices(sorted);
  }

  lemma TakeAll<T>(s: seq<T>)
    ensures s[..|s|] == s
  {
  }

  /** The positions returned after one more group. */
  lemma OutputOfStep(score: Scorer, hash: Hasher, fast: bool, ks: seq<GroupKey>, keys: seq<GroupKey>, g: nat)
    requires g < |keys|
    ensures OutputOf(score, hash, fast, ks, keys[..g + 1])
      == OutputOf(score, hash, fast, ks, keys[..g]) + Indices(Ranked(score, hash, fast, ks, keys[g]))
  {
    TakeTake(keys, g);
  }

  lemma AppendGroup(result: seq<FileItem>, out: seq<nat>, group: seq<FileItem>, more: seq<nat>, items: seq<FileItem>)
    requires Picks(out, result, items) && Picks(more, group, items)
    ensures Picks(out + more, result + group, items)
  {
  }

  lemma PlannedIs(env: DedupEnv, fast: bool, olds: seq<ItemState>, states: seq<ItemState>)
    requires |states| == |olds|
    requires forall i :: 0 <= i < |olds| ==>
      states[i] == PlanState(ScoreOf(env, olds), HashOf(env, olds), fast, KeysOf(olds), olds, i)
    ensures states == Planned(env, fast, olds)
  {
  }

  /** One group processed: its records reach their planned states, the others are left as they were. */
  lemma PlanGroupStep(score: Scorer, hash: Hasher, fast: bool, ks: seq<GroupKey>, olds: seq<ItemState>,
                      keys: seq<GroupKey>, g: nat, before: seq<ItemState>, after: seq<ItemState>)
    requires keys == KeyOrder(ks) && g < |keys| && |after| == |before|
    requires DoneUpTo(score, hash, fast, ks, olds, before, keys, g)
    requires forall i :: 0 <= i < |ks| ==> after[i] == GroupEffect(score, hash, fast, ks, keys[g], i, before[i])
    ensures DoneUpTo(score, hash, fast, ks, olds, after, keys, g + 1)
  {
    var key := keys[g];
    assert key !in keys[..g] by {
      forall j | 0 <= j < g ensures keys[..g][j] != key {
        assert keys[..g][j] == keys[j];
      }
    }
    forall i | 0 <= i < |ks| ensures after[i] == if ks[i] in keys[..g + 1] then PlanState(score, hash, fast, ks, olds, i) else olds[i] {
      PlanGroupStepIdx(score, hash, fast, ks, olds, keys, g, i, before[i], after[i]);
    }
  }

  /** `PlanGroupStep` for the record at position `i`. */
  lemma PlanGroupStepIdx(score: Scorer, hash: Hasher, fast: bool, ks: seq<GroupKey>, olds: seq<ItemState>,
                         keys: seq<GroupKey>, g: nat, i: nat, before: ItemState, after: ItemState)
    requires g < |keys| && i < |ks| == |olds| && keys[g] !in keys[..g]
    requires before == if ks[i] in keys[..g] then PlanState(score, hash, fast, ks, olds, i) else olds[i]
    requires after == GroupEffect(score, hash, fast, ks, keys[g], i, before)
    ensures after == if ks[i] in keys[..g + 1] then PlanState(score, hash, fast, ks, olds, i) else olds[i]
  {
    TakeOneMore(keys, g, ks[i]);
    PlanGroupStepAt(score, hash, fast, ks, olds, keys[g], i, before);
  }

  lemma TakeOneMore<T>(s: seq<T>, g: nat, x: T)
    requires g < |s|
    ensures x in s[..g + 1] <==> x in s[..g] || x == s[g]
  {
    assert s[..g + 1] == s[..g] + [s[g]];
  }

  /** `PlanGroupStep` for one record. */
  lemma PlanGroupStepAt(score: Scorer, hash: Hasher, fast: bool, ks: seq<GroupKey>, olds: seq<ItemState>,
                        key: GroupKey, i: nat, before: ItemState)
    requires i < |ks| == |olds|
    ensures ks[i] == key && before == olds[i] ==>
      GroupEffect(score, hash, fast, ks, key, i, before) == PlanState(score, hash, fast, ks, olds, i)
    ensures ks[i] != key ==> GroupEffect(score, hash, fast, ks, key, i, before) == before
  {
    var sc := Scoreds(score, hash, fast, ks, key);
    var sorted := SortDesc(sc);
    MembersFacts(ks, key);
    IndicesOfSorted(sc, i);
    if sorted != [] {
      assert Indices(sorted)[0] == sorted[0].index;
    }
    if ks[i] == key {
      assert i in Members(ks, key);
    } else if i in Indices(sc) {
      GroupMember(score, hash, fast, ks, key, i);
    }
  }
}
