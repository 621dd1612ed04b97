/**
 * The collision loops of the organiser.  Each one tries the plain name
 * first and then `<p>1<s>`, `<p>2<s>`, ... in one folder, and stops at the
 * first candidate that is not occupied.  What counts as occupied differs
 * per loop: an existing path (optionally other than the file's own path),
 * or a name already handed out in this run.
 */
module Collisions {
  import opened Common
  import opened Strings
  import opened Paths
  import opened FileSystem
  import opened Counter

  /** What blocks a name: existing paths except `own`, and names already taken in this run. */
  datatype Occupancy = Occupancy(fs: Fs, taken: set<string>, own: Option<Path>)

  predicate Occupied(o: Occupancy, dir: Path, name: string)
  {
    name in o.taken || (Exists(o.fs, Child(dir, name)) && Some(Child(dir, name)) != o.own)
  }

  /** A candidate family whose members are pairwise distinct. */
  predicate Frame(base: string, p: string, s: string) { |base| <= |p| + |s| }

  function Blocked(o: Occupancy, dir: Path, base: string, p: string, s: string): nat -> bool
  {
    (c: nat) => Occupied(o, dir, Candidate(base, p, s, c))
  }

  function CandidatePaths(dir: Path, base: string, p: string, s: string): nat -> Path
  {
    (c: nat) => Child(dir, Candidate(base, p, s, c))
  }

  lemma PathsInjective(dir: Path, base: string, p: string, s: string)
    requires Frame(base, p, s)
    ensures Injective(CandidatePaths(dir, base, p, s), 0)
  {
    forall a: nat, b: nat | 0 <= a < b
      ensures CandidatePaths(dir, base, p, s)(a) != CandidatePaths(dir, base, p, s)(b)
    {
      CandidateInjective(base, p, s, a, b);
      assert Child(dir, Candidate(base, p, s, a))[|dir|] == Candidate(base, p, s, a);
    }
  }

  /** Finitely many names are occupied, so some candidate is free. */
  lemma SomeFree(o: Occupancy, dir: Path, base: string, p: string, s: string)
    requires Frame(base, p, s)
    ensures exists n: nat :: 0 <= n && !Blocked(o, dir, base, p, s)(n)
  {
    var f := CandidatePaths(dir, base, p, s);
    var occupied := o.fs.files + o.fs.dirs + set t | t in o.taken :: Child(dir, t);
    PathsInjective(dir, base, p, s);
    var n := FreeBound(occupied, f, 0);
    var name := Candidate(base, p, s, n);
    assert f(n) == Child(dir, name);
    assert name in o.taken ==> Child(dir, name) in set t | t in o.taken :: Child(dir, t);
    assert !Blocked(o, dir, base, p, s)(n);
  }

  /** The counter the loop stops at. */
  ghost function FreeCounter(o: Occupancy, dir: Path, base: string, p: string, s: string): (c: nat)
    requires Frame(base, p, s)
    ensures !Occupied(o, dir, Candidate(base, p, s, c))
    ensures forall k :: 0 <= k < c ==> Occupied(o, dir, Candidate(base, p, s, k))
  {
    SomeFree(o, dir, base, p, s);
    var blocked := Blocked(o, dir, base, p, s);
    var c := FirstFree(blocked, 0);
    assert forall k :: 0 <= k < c ==> Occupied(o, dir, Candidate(base, p, s, k)) by {
      forall k | 0 <= k < c ensures Occupied(o, dir, Candidate(base, p, s, k)) {
        assert blocked(k);
      }
    }
    c
  }

  /** The name the loop settles on. */
  ghost function FreeName(o: Occupancy, dir: Path, base: string, p: string, s: string): (name: string)
    requires Frame(base, p, s)
    ensures !Occupied(o, dir, name)
    ensures !Occupied(o, dir, base) ==> name == base
    ensures Occupied(o, dir, base) ==>
      exists c: nat :: c >= 1 && name == Numbered(p, c, s) && forall k :: 1 <= k < c ==> Occupied(o, dir, Numbered(p, k, s))
  {
    var c := FreeCounter(o, dir, base, p, s);
    assert c >= 1 ==> forall k :: 1 <= k < c ==> Occupied(o, dir, Numbered(p, k, s)) by {
      if c >= 1 {
        forall k | 1 <= k < c ensures Occupied(o, dir, Numbered(p, k, s)) {
          assert Occupied(o, dir, Candidate(base, p, s, k));
        }
      }
    }
    assert c == 0 || Occupied(o, dir, Candidate(base, p, s, 0));
    Candidate(base, p, s, c)
  }

  /**
   * The loop itself: try the plain name, then the numbered ones, until one
   * is free.  `base` is tried first, `p + str(c) + s` for `c = 1, 2, ...` after it.
   */
  method FindFree(o: Occupancy, dir: Path, base: string, p: string, s: string) returns (name: string)
    requires Frame(base, p, s)
    ensures name == FreeName(o, dir, base, p, s)
  {
    ghost var bound := FreeCounter(o, dir, base, p, s);
    var counter: nat := 0;
    name := base;
    while Occupied(o, dir, name)
      invariant counter <= bound && name == Candidate(base, p, s, counter)
      invariant forall k :: 0 <= k < counter ==> Occupied(o, dir, Candidate(base, p, s, k))
      decreases bound - counter
    {
      counter := counter + 1;
      name := Numbered(p, counter, s);
    }
    FreeNameIs(o, dir, base, p, s, counter);
  }

  /** A counter whose candidate is free while every earlier one is occupied gives `FreeName`. */
  lemma FreeNameIs(o: Occupancy, dir: Path, base: string, p: string, s: string, c: nat)
    requires Frame(base, p, s)
    requires !Occupied(o, dir, Candidate(base, p, s, c))
    requires forall k :: 0 <= k < c ==> Occupied(o, dir, Candidate(base, p, s, k))
    ensures FreeName(o, dir, base, p, s) == Candidate(base, p, s, c)
  {
    SomeFree(o, dir, base, p, s);
    var blocked := Blocked(o, dir, base, p, s);
    assert forall k :: 0 <= k < c ==> blocked(k);
    assert !blocked(c);
    FirstFreeIs(blocked, 0, c);
  }
}
