/** The ranking of the groups by descending count in `format_compact_slack`.
    Python's sort is stable, also when reversed, so the groups end up
    by non-increasing count with groups of equal count in their original
    (first-appearance) order. Modelled as an insertion sort that places each
    group after every group already placed whose count is at least its own. */
module Ranking {
  import opened Summary

  predicate NonIncreasing(s: seq<Group>) {
    forall i, j :: 0 <= i < j < |s| ==> s[i].count >= s[j].count
  }

  function InsertByCount(g: Group, s: seq<Group>): (r: seq<Group>)
    ensures |r| == |s| + 1
    decreases |s|
  {
    if s == [] then [g]
    else if s[0].count >= g.count then [s[0]] + InsertByCount(g, s[1..])
    else [g] + s
  }

  function SortByCount(gs: seq<Group>): (r: seq<Group>)
    ensures |r| == |gs|
    decreases |gs|
  {
    if gs == [] then [] else InsertByCount(gs[|gs| - 1], SortByCount(gs[..|gs| - 1]))
  }

  /** The groups of `s` whose count is `c`, in order. */
  function OfCount(s: seq<Group>, c: nat): seq<Group>
    decreases |s|
  {
    if s == [] then [] else (if s[0].count == c then [s[0]] else []) + OfCount(s[1..], c)
  }

  lemma {:induction false} InsertIsPermutation(g: Group, s: seq<Group>)
    ensures multiset(InsertByCount(g, s)) == multiset(s) + multiset{g}
    decreases |s|
  {
    if s != [] {
      assert s == [s[0]] + s[1..];
      if s[0].count >= g.count {
        InsertIsPermutation(g, s[1..]);
      }
    }
  }

  predicate AtMost(s: seq<Group>, b: nat) {
    forall i :: 0 <= i < |s| ==> s[i].count <= b
  }

  lemma {:induction false} InsertBound(g: Group, s: seq<Group>, b: nat)
    requires AtMost(s, b) && g.count <= b
    ensures AtMost(InsertByCount(g, s), b)
    decreases |s|
  {
    if s != [] && s[0].count >= g.count {
      InsertBound(g, s[1..], b);
    }
  }

  lemma {:induction false} InsertKeepsOrder(g: Group, s: seq<Group>)
    requires NonIncreasing(s)
    ensures NonIncreasing(InsertByCount(g, s))
    decreases |s|
  {
    if s != [] && s[0].count >= g.count {
      var rest := InsertByCount(g, s[1..]);
      InsertKeepsOrder(g, s[1..]);
      InsertBound(g, s[1..], s[0].count);
      var r := [s[0]] + rest;
      assert forall a :: 1 <= a < |r| ==> r[a] == rest[a - 1];
    }
  }

  /** The sort orders by non-increasing count. */
  lemma {:induction false} SortIsOrdered(gs: seq<Group>)
    ensures NonIncreasing(SortByCount(gs))
    decreases |gs|
  {
    if gs != [] {
      SortIsOrdered(gs[..|gs| - 1]);
      InsertKeepsOrder(gs[|gs| - 1], SortByCount(gs[..|gs| - 1]));
    }
  }

  /** The sort is a permutation: no group is lost, added or duplicated. */
  lemma {:induction false} SortIsPermutation(gs: seq<Group>)
    ensures multiset(SortByCount(gs)) == multiset(gs)
    decreases |gs|
  {
    if gs != [] {
      var prev := gs[..|gs| - 1];
      SortIsPermutation(prev);
      InsertIsPermutation(gs[|gs| - 1], SortByCount(prev));
      assert gs == prev + [gs[|gs| - 1]];
    }
  }

  lemma {:induction false} NoneOfLargerCount(s: seq<Group>, c: nat)
    requires NonIncreasing(s)
    requires s != [] && s[0].count < c
    ensures OfCount(s, c) == []
    decreases |s|
  {
    if |s| > 1 {
      NoneOfLargerCount(s[1..], c);
    }
  }

  lemma {:induction false} InsertIsStable(g: Group, s: seq<Group>, c: nat)
    requires NonIncreasing(s)
    ensures OfCount(InsertByCount(g, s), c) == OfCount(s, c) + (if g.count == c then [g] else [])
    decreases |s|
  {
    if s != [] {
      if s[0].count >= g.count {
        InsertIsStable(g, s[1..], c);
        var r := [s[0]] + InsertByCount(g, s[1..]);
        assert r[1..] == InsertByCount(g, s[1..]);
      } else {
        var r := [g] + s;
        assert r[1..] == s;
        if g.count == c {
          NoneOfLargerCount(s, c);
        }
      }
    }
  }

  lemma {:induction false} OfCountSnoc(s: seq<Group>, g: Group, c: nat)
    ensures OfCount(s + [g], c) == OfCount(s, c) + (if g.count == c then [g] else [])
    decreases |s|
  {
    if s != [] {
      assert (s + [g])[1..] == s[1..] + [g];
      OfCountSnoc(s[1..], g, c);
    }
  }

  /** The sort is stable: for every count, the groups with that count come
      out in the order they went in. */
  lemma {:induction false} SortIsStable(gs: seq<Group>, c: nat)
    ensures OfCount(SortByCount(gs), c) == OfCount(gs, c)
    decreases |gs|
  {
    if gs != [] {
      var prev := gs[..|gs| - 1];
      var g := gs[|gs| - 1];
      SortIsStable(prev, c);
      SortIsOrdered(prev);
      InsertIsStable(g, SortByCount(prev), c);
      assert gs == prev + [g];
      OfCountSnoc(prev, g, c);
    }
  }
}
