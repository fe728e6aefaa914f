/** The seen-request-id store: an insertion-ordered set of ids (the keys of
    the `seen_request_ids` dict), its bounded eviction at save time, and the
    stateless branches of `load_state` / `save_state`. The state file itself
    is represented by its decoded content: `None` when it is absent or
    unreadable, `Some(ids)` otherwise. */
module Seen {
  import opened Wrappers

  /** Eviction starts when the store holds more than this many ids. */
  const MaxSeen: nat := 50000
  /** How many of the oldest ids one save removes. */
  const EvictBatch: nat := 10000

  /** Dict keys are unique. */
  predicate Distinct(s: seq<string>) {
    forall i, j :: 0 <= i < j < |s| ==> s[i] != s[j]
  }

  /** `del seen[k]` on the insertion-ordered key sequence. */
  function Delete(s: seq<string>, k: string): (r: seq<string>)
    ensures forall x :: x in r <==> x in s && x != k
    ensures k !in s ==> r == s
    decreases |s|
  {
    if s == [] then []
    else if s[0] == k then Delete(s[1..], k)
    else [s[0]] + Delete(s[1..], k)
  }

  /** Deleting the oldest key of a duplicate-free sequence drops its head. */
  lemma DeleteOldest(s: seq<string>)
    requires Distinct(s) && s != []
    ensures Delete(s, s[0]) == s[1..]
    ensures Distinct(s[1..])
  {
    assert s[0] !in s[1..];
  }

  /** The key sequence `save_state` keeps: all of it up to `MaxSeen` ids,
      otherwise everything but the `EvictBatch` oldest. */
  function Evicted(keys: seq<string>): seq<string>
  {
    if |keys| > MaxSeen then keys[EvictBatch..] else keys
  }

  /** Eviction only ever removes a prefix of the oldest ids: the survivors are
      the newest ids in their original order, and exactly `EvictBatch` go
      when the store is over the limit. */
  lemma EvictedIsNewestSuffix(keys: seq<string>)
    ensures |keys| > MaxSeen ==> |Evicted(keys)| == |keys| - EvictBatch
    ensures |keys| <= MaxSeen ==> Evicted(keys) == keys
    ensures keys[|keys| - |Evicted(keys)|..] == Evicted(keys)
    ensures |keys| > MaxSeen ==> keys == keys[..EvictBatch] + Evicted(keys)
  {
  }

  /** A store kept at or under the limit stays there across a cycle that
      adds at most `EvictBatch` ids; a cycle that adds more can leave it
      above the limit by the excess, since eviction removes a fixed batch
      rather than cutting down to the limit. */
  lemma EvictionBound(before: seq<string>, added: seq<string>)
    requires |before| <= MaxSeen
    ensures |added| <= EvictBatch ==> |Evicted(before + added)| <= MaxSeen
    ensures |added| > EvictBatch ==> |Evicted(before + added)| <= MaxSeen + |added| - EvictBatch
    ensures |before| == MaxSeen && |added| > EvictBatch ==> |Evicted(before + added)| > MaxSeen
  {
  }

  /** The `seen_request_ids` dict, updated in place by the dedup pass and
      by `save_state`. */
  class SeenIds {
    var keys: seq<string>

    ghost predicate Valid()
      reads this
    {
      Distinct(keys)
    }

    constructor (initial: seq<string>)
      requires Distinct(initial)
      ensures Valid() && keys == initial
    {
      keys := initial;
    }

    /** `id in seen`. */
    predicate Contains(id: string)
      reads this
    {
      id in keys
    }

    /** `seen[id] = True`: a new key goes last, a present key keeps its place. */
    method Insert(id: string)
      requires Valid()
      modifies this
      ensures Valid()
      ensures keys == if id in old(keys) then old(keys) else old(keys) + [id]
    {
      if id !in keys {
        keys := keys + [id];
      }
    }

    /** `del seen[id]`, which raises for an absent key. */
    method Remove(id: string)
      requires Valid() && id in keys
      modifies this
      ensures Valid()
      ensures keys == Delete(old(keys), id)
    {
      keys := Delete(keys, id);
      DeleteKeepsDistinct(old(keys), id);
    }
  }

  lemma {:induction false} DeleteKeepsDistinct(s: seq<string>, k: string)
    requires Distinct(s)
    ensures Distinct(Delete(s, k))
    decreases |s|
  {
    if s != [] {
      DeleteKeepsDistinct(s[1..], k);
      if s[0] != k {
        assert s[0] !in Delete(s[1..], k);
        var r := Delete(s[1..], k);
        assert forall j :: 0 <= j < |r| ==> ([s[0]] + r)[j + 1] == r[j];
      }
    }
  }

  /** Whether the file's content, when present, is a valid key set. */
  predicate WellFormed(file: Option<seq<string>>) {
    file.None? || Distinct(file.value)
  }

  /** `load_state`: stateless mode starts from nothing; stateful mode starts
      from the file, or from nothing when it is absent or unreadable. */
  function LoadState(useState: bool, file: Option<seq<string>>): (keys: seq<string>)
    requires WellFormed(file)
    ensures Distinct(keys)
    ensures !useState ==> keys == []
  {
    if useState && file.Some? then file.value else []
  }

  /** `save_state`: in stateless mode nothing changes and nothing is written;
      otherwise the oldest `EvictBatch` keys are deleted one by one when the
      store is over `MaxSeen`, and the result is what gets written. */
  method SaveState(useState: bool, seen: SeenIds) returns (written: Option<seq<string>>)
    requires seen.Valid()
    modifies seen
    ensures seen.Valid()
    ensures !useState ==> written == None && seen.keys == old(seen.keys)
    ensures useState ==> seen.keys == Evicted(old(seen.keys)) && written == Some(seen.keys)
  {
    if !useState {
      return None;
    }
    if |seen.keys| > MaxSeen {
      var doomed := seen.keys[..EvictBatch];
      for i := 0 to EvictBatch
        invariant seen.Valid()
        invariant seen.keys == old(seen.keys)[i..]
      {
        DeleteOldest(seen.keys);
        seen.Remove(doomed[i]);
      }
    }
    written := Some(seen.keys);
  }
}
