/**
 * The "first free counter" search used by every collision loop of the
 * organiser: try candidate names for counter values from some start upward
 * and stop at the first one that is not taken.  Termination of those loops
 * rests on a pigeonhole argument: finitely many paths exist, the candidates
 * are pairwise distinct, so some candidate within |existing| + 1 steps is free.
 */
module Counter {
  import opened Strings

  /** The least `c >= from` with `!blocked(c)`, given some free `n >= from`. */
  function LeastFree(blocked: nat -> bool, from: nat, n: nat): (r: nat)
    requires from <= n && !blocked(n)
    ensures from <= r <= n && !blocked(r)
    ensures forall c :: from <= c < r ==> blocked(c)
    decreases n - from
  {
    if !blocked(from) then from else LeastFree(blocked, from + 1, n)
  }

  /** The least free counter does not depend on which free value bounds the search. */
  lemma {:induction false} LeastFreeUnique(blocked: nat -> bool, from: nat, n: nat, c: nat)
    requires from <= n && !blocked(n)
    requires from <= c && !blocked(c)
    requires forall k :: from <= k < c ==> blocked(k)
    ensures LeastFree(blocked, from, n) == c
    decreases n - from
  {
    if blocked(from) {
      LeastFreeUnique(blocked, from + 1, n, c);
    }
  }

  ghost predicate Injective<T>(f: nat -> T, from: nat)
  {
    forall a: nat, b: nat :: from <= a < b ==> f(a) != f(b)
  }

  /** `k` distinct candidates that are all taken need at least `k` taken values. */
  lemma {:induction false} AllTakenBound<T>(taken: set<T>, f: nat -> T, from: nat, k: nat)
    requires Injective(f, from)
    requires forall c :: from <= c < from + k ==> f(c) in taken
    ensures |taken| >= k
  {
    if k > 0 {
      var last := f(from + k - 1);
      var rest := taken - {last};
      forall c | from <= c < from + k - 1 ensures f(c) in rest {
        assert f(c) != last;
      }
      AllTakenBound(rest, f, from, k - 1);
    }
  }

  /** Pigeonhole: an injective family of candidates leaves the finite set `taken` within |taken| + 1 tries. */
  lemma FreeCandidate<T>(taken: set<T>, f: nat -> T, from: nat)
    requires Injective(f, from)
    ensures exists n: nat :: from <= n <= from + |taken| && f(n) !in taken
  {
    if forall c: nat :: from <= c <= from + |taken| ==> f(c) in taken {
      AllTakenBound(taken, f, from, |taken| + 1);
    }
  }

  /** A counter value whose candidate is not in `taken`, for bounding searches. */
  ghost function FreeBound<T>(taken: set<T>, f: nat -> T, from: nat): (n: nat)
    requires Injective(f, from)
    ensures from <= n && f(n) !in taken
  {
    FreeCandidate(taken, f, from);
    var n: nat :| from <= n && f(n) !in taken;
    n
  }

  /** The numbered candidate `p + str(c) + s` of a collision loop. */
  function Numbered(p: string, c: nat, s: string): (r: string)
    ensures |r| == |p| + |NatStr(c)| + |s| && |r| > |p| + |s|
  {
    p + NatStr(c) + s
  }

  lemma NumberedInjective(p: string, s: string, a: nat, b: nat)
    requires Numbered(p, a, s) == Numbered(p, b, s)
    ensures a == b
  {
    var x, y := Numbered(p, a, s), Numbered(p, b, s);
    assert |NatStr(a)| == |NatStr(b)|;
    assert x[|p|..|p| + |NatStr(a)|] == NatStr(a);
    assert y[|p|..|p| + |NatStr(b)|] == NatStr(b);
    NatStrInjective(a, b);
  }

  /** Counter 0 is the plain name, counter `c >= 1` the numbered one. */
  function Candidate(base: string, p: string, s: string, c: nat): string
  {
    if c == 0 then base else Numbered(p, c, s)
  }

  /** Candidates are pairwise distinct when the plain name is no longer than the numbered frame. */
  lemma CandidateInjective(base: string, p: string, s: string, a: nat, b: nat)
    requires |base| <= |p| + |s| && a != b
    ensures Candidate(base, p, s, a) != Candidate(base, p, s, b)
  {
    if a != 0 && b != 0 && Candidate(base, p, s, a) == Candidate(base, p, s, b) {
      NumberedInjective(p, s, a, b);
    }
  }

  /** The least counter from `from` on that is not blocked, given that one exists. */
  ghost function FirstFree(blocked: nat -> bool, from: nat): (c: nat)
    requires exists n: nat :: from <= n && !blocked(n)
    ensures from <= c && !blocked(c)
    ensures forall k :: from <= k < c ==> blocked(k)
  {
    var n: nat :| from <= n && !blocked(n);
    LeastFree(blocked, from, n)
  }

  /** A loop that stops at the first unblocked counter computes `FirstFree`. */
  lemma FirstFreeIs(blocked: nat -> bool, from: nat, c: nat)
    requires from <= c && !blocked(c)
    requires forall k :: from <= k < c ==> blocked(k)
    ensures FirstFree(blocked, from) == c
  {
  }

  /** The loop of a collision search: count up from `from` until `blocked` lets a counter through. */
  method SearchFree(blocked: nat -> bool, from: nat, ghost bound: nat) returns (c: nat)
    requires from <= bound && !blocked(bound)
    ensures c == FirstFree(blocked, from)
  {
    c := from;
    while blocked(c)
      invariant from <= c <= bound
      invariant forall k :: from <= k < c ==> blocked(k)
      decreases bound - c
    {
      c := c + 1;
    }
    FirstFreeIs(blocked, from, c);
  }
}
