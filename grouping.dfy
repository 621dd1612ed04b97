/**
 * Grouping a list by a key into an insertion-ordered dict of lists, as the
 * deduplicate and standardize steps do: the keys in the order they first
 * appear, and for each key the positions of the entries that have it.
 */
module Grouping {
  import opened Common

  /** The distinct keys in the order they first appear (the key order of the `grouped` dict). */
  function KeyOrder<K(==,!new)>(ks: seq<K>): (r: seq<K>)
    ensures forall k :: k in r <==> k in ks
    ensures forall a, b :: 0 <= a < b < |r| ==> r[a] != r[b]
  {
    if ks == [] then []
    else
      var r := KeyOrder(ks[..|ks| - 1]);
      assert ks == ks[..|ks| - 1] + [ks[|ks| - 1]];
      if ks[|ks| - 1] in r then r else r + [ks[|ks| - 1]]
  }

  /** The positions of the records with key `k`, in list order (the list `grouped[k]`). */
  function Members<K(==)>(ks: seq<K>, k: K): seq<nat>
  {
    if ks == [] then []
    else Members(ks[..|ks| - 1], k) + (if ks[|ks| - 1] == k then [|ks| - 1] else [])
  }

  /** `Members(ks, k)` lists, in increasing order, exactly the positions whose key is `k`. */
  lemma {:induction false} MembersFacts<K>(ks: seq<K>, k: K)
    ensures forall j :: 0 <= j < |Members(ks, k)| ==> Members(ks, k)[j] < |ks| && ks[Members(ks, k)[j]] == k
    ensures Increasing(Members(ks, k))
    ensures forall i :: 0 <= i < |ks| && ks[i] == k ==> i in Members(ks, k)
  {
    if ks != [] {
      var init := ks[..|ks| - 1];
      MembersFacts(init, k);
      var r0 := Members(init, k);
      var r := Members(ks, k);
      forall j | 0 <= j < |r| ensures r[j] < |ks| && ks[r[j]] == k {
        if j < |r0| {
          assert r[j] == r0[j] && init[r0[j]] == ks[r0[j]];
        }
      }
      forall i | 0 <= i < |ks| && ks[i] == k ensures i in r {
        if i < |init| {
          assert init[i] == ks[i] && i in r0;
        } else {
          assert r[|r| - 1] == i;
        }
      }
    }
  }

  predicate Increasing(s: seq<nat>)
  {
    forall a, b :: 0 <= a < b < |s| ==> s[a] < s[b]
  }

  /** One more record for the grouping loop: its key is appended to the key order if it is new. */
  lemma KeyOrderStep<K(!new)>(ks: seq<K>, i: nat)
    requires i < |ks|
    ensures KeyOrder(ks[..i + 1]) == if ks[i] in ks[..i] then KeyOrder(ks[..i]) else KeyOrder(ks[..i]) + [ks[i]]
  {
    TakeTake(ks, i);
  }

  /** One more record for the grouping loop: its position joins its key's list. */
  lemma MembersStep<K>(ks: seq<K>, i: nat, k: K)
    requires i < |ks|
    ensures Members(ks[..i + 1], k) == Members(ks[..i], k) + (if k == ks[i] then [i] else [])
  {
    TakeTake(ks, i);
  }

  /** A key no record has has no records. */
  lemma {:induction false} MembersAbsent<K>(ks: seq<K>, k: K)
    requires k !in ks
    ensures Members(ks, k) == []
  {
    if ks != [] {
      MembersAbsent(ks[..|ks| - 1], k);
    }
  }

  lemma TakeTake<T>(s: seq<T>, g: nat)
    requires g < |s|
    ensures s[..g + 1][..g] == s[..g] && s[..g + 1][g] == s[g]
  {
  }

  /** The values of the `Some` entries, in order. */
  function Somes<T(!new)>(s: seq<Option<T>>): (r: seq<T>)
    ensures forall x :: x in r <==> Some(x) in s
  {
    if s == [] then []
    else
      var init := Somes(s[..|s| - 1]);
      assert s == s[..|s| - 1] + [s[|s| - 1]];
      match s[|s| - 1]
      case None => init
      case Some(x) => init + [x]
  }

  lemma {:induction false} SomesDistinct<T(!new)>(s: seq<Option<T>>)
    requires forall a, b :: 0 <= a < b < |s| ==> s[a] != s[b]
    ensures forall a, b :: 0 <= a < b < |Somes(s)| ==> Somes(s)[a] != Somes(s)[b]
  {
    if s != [] {
      var init := s[..|s| - 1];
      assert forall a, b :: 0 <= a < b < |init| ==> init[a] != init[b] by {
        forall a, b | 0 <= a < b < |init| ensures init[a] != init[b] {
          assert init[a] == s[a] && init[b] == s[b];
        }
      }
      SomesDistinct(init);
      if s[|s| - 1].Some? {
        var x := s[|s| - 1].value;
        assert Some(x) !in init by {
          forall a | 0 <= a < |init| ensures init[a] != Some(x) {
            assert init[a] == s[a];
          }
        }
      }
    }
  }

  /** The keys of the entries that are not skipped (`None`), in the order they first appear. */
  function KeptOrder<K(==,!new)>(ks: seq<Option<K>>): (r: seq<K>)
    ensures forall f :: f in r <==> Some(f) in ks
    ensures forall a, b :: 0 <= a < b < |r| ==> r[a] != r[b]
  {
    SomesDistinct(KeyOrder(ks));
    Somes(KeyOrder(ks))
  }

  /**
   * The grouping loop that skips some entries, after `i` of them: the
   * dict's keys so far and, for each, the positions of its entries.
   */
  ghost predicate KeptGroupedUpTo<K(!new)>(ks: seq<Option<K>>, i: nat, keys: seq<K>, groups: map<K, seq<nat>>)
    requires i <= |ks|
  {
    keys == KeptOrder(ks[..i])
    && (forall f :: f in groups <==> f in keys)
    && forall f :: f in groups ==> groups[f] == Members(ks[..i], Some(f))
  }

  lemma SomesSnoc<T(!new)>(s: seq<Option<T>>, x: Option<T>)
    ensures Somes(s + [x]) == Somes(s) + (if x.Some? then [x.value] else [])
  {
    assert (s + [x])[..|s|] == s;
  }

  /** One more entry: a skipped one adds no key, another adds its key if it is new. */
  lemma KeptOrderStep<K(!new)>(ks: seq<Option<K>>, i: nat)
    requires i < |ks|
    ensures KeptOrder(ks[..i + 1])
      == if ks[i].None? || ks[i].value in KeptOrder(ks[..i]) then KeptOrder(ks[..i]) else KeptOrder(ks[..i]) + [ks[i].value]
  {
    KeyOrderStep(ks, i);
    var r := KeyOrder(ks[..i]);
    SomesSnoc(r, ks[i]);
  }

  /** One more entry for the grouping loop: a skipped one changes nothing. */
  lemma KeptGroupedSkip<K(!new)>(ks: seq<Option<K>>, i: nat, keys: seq<K>, groups: map<K, seq<nat>>)
    requires i < |ks| && ks[i].None? && KeptGroupedUpTo(ks, i, keys, groups)
    ensures KeptGroupedUpTo(ks, i + 1, keys, groups)
  {
    KeptOrderStep(ks, i);
    forall f | f in groups ensures groups[f] == Members(ks[..i + 1], Some(f)) {
      MembersStep(ks, i, Some(f));
    }
  }

  /** One more entry for the grouping loop: any other one joins its key's list. */
  lemma KeptGroupedAdd<K(!new)>(ks: seq<Option<K>>, i: nat, keys: seq<K>, groups: map<K, seq<nat>>)
    requires i < |ks| && ks[i].Some? && KeptGroupedUpTo(ks, i, keys, groups)
    ensures var f := ks[i].value;
      var list := if f in groups then groups[f] else [];
      KeptGroupedUpTo(ks, i + 1, if f in groups then keys else keys + [f], groups[f := list + [i]])
  {
    var f := ks[i].value;
    var list := if f in groups then groups[f] else [];
    var groups' := groups[f := list + [i]];
    var keys' := if f in groups then keys else keys + [f];
    assert keys' == KeptOrder(ks[..i + 1]) by {
      KeptOrderStep(ks, i);
    }
    assert list == Members(ks[..i], Some(f)) by {
      if f !in groups {
        assert Some(f) !in ks[..i];
        MembersAbsent(ks[..i], ks[i]);
      }
    }
    assert forall g :: g in groups' <==> g in keys';
    forall g | g in groups' ensures groups'[g] == Members(ks[..i + 1], Some(g)) {
      MembersStep(ks, i, Some(g));
    }
  }

  /** After the grouping loop: every key of an entry kept, once, each with the positions of its entries. */
  lemma KeptGroupedAll<K(!new)>(ks: seq<Option<K>>, keys: seq<K>, groups: map<K, seq<nat>>)
    requires KeptGroupedUpTo(ks, |ks|, keys, groups)
    ensures keys == KeptOrder(ks)
    ensures forall f :: f in groups <==> f in keys
    ensures forall f :: f in groups ==> groups[f] == Members(ks, Some(f))
  {
    assert ks[..|ks|] == ks;
  }
}
