/** The record loop of `main`: one pass over the feed that keeps the records
    whose host is monitored and whose request id has not been seen, and
    records each kept id in the seen store as it goes. */
module Dedup {
  import opened Records
  import opened Hosts
  import opened Seen

  /** A feed element the pass may report: a JSON object whose host is a
      non-empty string under a monitored domain. */
  predicate Eligible(monitored: seq<string>, item: Item) {
    item.Dict? && Truthy(item.target.host) && HostMatches(monitored, item.target.host.s)
  }

  /** The state of the pass: the hits so far and the seen ids so far. */
  datatype Pass = Pass(hits: seq<Target>, seen: seq<string>)

  /** The request ids of a list of records, in order. */
  function Ids(ts: seq<Target>): seq<string>
  {
    seq(|ts|, i requires 0 <= i < |ts| => RequestId(ts[i]))
  }

  /** The pass over `feed`, item by item, starting from the seen ids `seen0`. */
  function Scan(monitored: seq<string>, feed: seq<Item>, seen0: seq<string>): Pass
    decreases |feed|
  {
    if feed == [] then Pass([], seen0)
    else
      var p := Scan(monitored, feed[..|feed| - 1], seen0);
      var item := feed[|feed| - 1];
      if Eligible(monitored, item) && RequestId(item.target) !in p.seen
      then Pass(p.hits + [item.target], p.seen + [RequestId(item.target)])
      else p
  }

  /** The loop itself: `hits` grows by appending, and `seen` is the store
      loaded for this run, updated in place. */
  method CollectHits(monitored: seq<string>, feed: seq<Item>, seen: SeenIds) returns (hits: seq<Target>)
    requires seen.Valid()
    modifies seen
    ensures seen.Valid()
    ensures Pass(hits, seen.keys) == Scan(monitored, feed, old(seen.keys))
  {
    hits := [];
    for i := 0 to |feed|
      invariant seen.Valid()
      invariant Pass(hits, seen.keys) == Scan(monitored, feed[..i], old(seen.keys))
    {
      assert feed[..i + 1][..i] == feed[..i];
      var item := feed[i];
      if !item.Dict? {
        continue;
      }
      var t := item.target;
      var rid := RequestId(t);
      if Truthy(t.host) && HostMatches(monitored, t.host.s) {
        if !seen.Contains(rid) {
          hits := hits + [t];
          seen.Insert(rid);
        }
      }
    }
    assert feed[..|feed|] == feed;
  }

  /** After the pass the seen ids are the old ones followed by exactly the
      ids of the hits, in hit order. */
  lemma {:induction false} ScanSeenIsOldPlusHits(monitored: seq<string>, feed: seq<Item>, seen0: seq<string>)
    ensures Scan(monitored, feed, seen0).seen == seen0 + Ids(Scan(monitored, feed, seen0).hits)
    decreases |feed|
  {
    if feed != [] {
      var prev := feed[..|feed| - 1];
      ScanSeenIsOldPlusHits(monitored, prev, seen0);
      var p := Scan(monitored, prev, seen0);
      var item := feed[|feed| - 1];
      if Eligible(monitored, item) && RequestId(item.target) !in p.seen {
        assert Ids(p.hits + [item.target]) == Ids(p.hits) + [RequestId(item.target)];
      }
    }
  }

  /** Every hit is an eligible record of the feed whose id was not seen
      before the pass; so objects without a host and non-objects are never
      hits. */
  lemma {:induction false} ScanHitsAreNew(monitored: seq<string>, feed: seq<Item>, seen0: seq<string>)
    ensures var hits := Scan(monitored, feed, seen0).hits;
      forall k :: 0 <= k < |hits| ==>
        Dict(hits[k]) in feed
        && Eligible(monitored, Dict(hits[k]))
        && RequestId(hits[k]) !in seen0
    decreases |feed|
  {
    if feed != [] {
      var prev := feed[..|feed| - 1];
      ScanHitsAreNew(monitored, prev, seen0);
      ScanSeenIsOldPlusHits(monitored, prev, seen0);
      assert forall x :: x in prev ==> x in feed;
    }
  }

  /** No two hits share an id, even within one feed, and a duplicate-free
      store stays duplicate-free. */
  lemma {:induction false} ScanIdsAreDistinct(monitored: seq<string>, feed: seq<Item>, seen0: seq<string>)
    ensures Distinct(Ids(Scan(monitored, feed, seen0).hits))
    ensures Distinct(seen0) ==> Distinct(Scan(monitored, feed, seen0).seen)
    decreases |feed|
  {
    if feed != [] {
      var prev := feed[..|feed| - 1];
      ScanIdsAreDistinct(monitored, prev, seen0);
      ScanSeenIsOldPlusHits(monitored, prev, seen0);
      var p := Scan(monitored, prev, seen0);
      var item := feed[|feed| - 1];
      if Eligible(monitored, item) && RequestId(item.target) !in p.seen {
        var id := RequestId(item.target);
        assert Ids(p.hits + [item.target]) == Ids(p.hits) + [id];
        AppendFresh(Ids(p.hits), id);
        if Distinct(seen0) {
          AppendFresh(p.seen, id);
        }
      }
    }
  }

  lemma AppendFresh(s: seq<string>, x: string)
    requires Distinct(s) && x !in s
    ensures Distinct(s + [x])
  {
    var t := s + [x];
    forall i, j | 0 <= i < j < |t| ensures t[i] != t[j] {
      if j < |s| {
        assert t[i] == s[i] && t[j] == s[j];
      } else {
        assert t[i] == s[i];
      }
    }
  }

  /** The ids of the eligible records of `feed`, in feed order. */
  function EligibleIds(monitored: seq<string>, feed: seq<Item>): seq<string>
    decreases |feed|
  {
    if feed == [] then []
    else
      var prev, last := EligibleIds(monitored, feed[..|feed| - 1]), feed[|feed| - 1];
      if Eligible(monitored, last) then prev + [RequestId(last.target)] else prev
  }

  lemma {:induction false} EligibleIdListed(monitored: seq<string>, feed: seq<Item>, i: nat)
    requires i < |feed| && Eligible(monitored, feed[i])
    ensures RequestId(feed[i].target) in EligibleIds(monitored, feed)
    decreases |feed|
  {
    if i < |feed| - 1 {
      var prev := feed[..|feed| - 1];
      assert prev[i] == feed[i];
      EligibleIdListed(monitored, prev, i);
    }
  }

  /** An id ends up in the store exactly when it was there before or belongs
      to an eligible record of the feed. */
  lemma {:induction false} ScanSeenCovers(monitored: seq<string>, feed: seq<Item>, seen0: seq<string>, id: string)
    ensures id in Scan(monitored, feed, seen0).seen <==> id in seen0 || id in EligibleIds(monitored, feed)
    decreases |feed|
  {
    if feed != [] {
      ScanSeenCovers(monitored, feed[..|feed| - 1], seen0, id);
    }
  }

  /** Every eligible record whose id was not in the store before the pass
      is reported: its id is among the ids of the hits. */
  lemma NewEligibleIsReported(monitored: seq<string>, feed: seq<Item>, seen0: seq<string>, i: nat)
    requires i < |feed| && Eligible(monitored, feed[i])
    requires RequestId(feed[i].target) !in seen0
    ensures RequestId(feed[i].target) in Ids(Scan(monitored, feed, seen0).hits)
  {
    ScanSeenCovers(monitored, feed, seen0, RequestId(feed[i].target));
    EligibleIdListed(monitored, feed, i);
    ScanSeenIsOldPlusHits(monitored, feed, seen0);
  }

  /** Each hit is the first eligible record of the feed with its id, and
      the hits keep feed order: hit `k` sits at position `idx[k]` of the
      feed, the positions increase, and no eligible record before it has
      the same id. */
  lemma {:induction false} ScanHitsInFeedOrder(monitored: seq<string>, feed: seq<Item>, seen0: seq<string>)
    returns (idx: seq<nat>)
    ensures var hits := Scan(monitored, feed, seen0).hits;
      && |idx| == |hits|
      && (forall k :: 0 <= k < |idx| ==> idx[k] < |feed| && feed[idx[k]] == Dict(hits[k]))
      && (forall k, l :: 0 <= k < l < |idx| ==> idx[k] < idx[l])
      && (forall k, j :: 0 <= k < |idx| && 0 <= j < idx[k] && Eligible(monitored, feed[j]) ==>
            RequestId(feed[j].target) != RequestId(hits[k]))
    decreases |feed|
  {
    if feed == [] {
      idx := [];
    } else {
      var prev := feed[..|feed| - 1];
      var p := Scan(monitored, prev, seen0);
      idx := ScanHitsInFeedOrder(monitored, prev, seen0);
      assert forall j :: 0 <= j < |prev| ==> prev[j] == feed[j];
      var item := feed[|feed| - 1];
      if Eligible(monitored, item) && RequestId(item.target) !in p.seen {
        var id := RequestId(item.target);
        forall j | 0 <= j < |prev| && Eligible(monitored, prev[j])
          ensures RequestId(prev[j].target) != id
        {
          ScanSeenCovers(monitored, prev, seen0, RequestId(prev[j].target));
          EligibleIdListed(monitored, prev, j);
        }
        idx := idx + [|feed| - 1];
      }
    }
  }

  /** When every eligible record's id is already stored, the pass reports
      nothing and leaves the store as it was. */
  lemma {:induction false} ScanOfSeenFeed(monitored: seq<string>, feed: seq<Item>, seen0: seq<string>)
    requires forall i :: 0 <= i < |feed| && Eligible(monitored, feed[i]) ==> RequestId(feed[i].target) in seen0
    ensures Scan(monitored, feed, seen0) == Pass([], seen0)
    decreases |feed|
  {
    if feed != [] {
      var prev := feed[..|feed| - 1];
      assert forall i :: 0 <= i < |prev| ==> prev[i] == feed[i];
      ScanOfSeenFeed(monitored, prev, seen0);
    }
  }

  /** Replaying a feed against the store it produced finds no hits. */
  lemma ReplayFindsNothing(monitored: seq<string>, feed: seq<Item>, seen0: seq<string>)
    ensures var after := Scan(monitored, feed, seen0).seen;
      Scan(monitored, feed, after) == Pass([], after)
  {
    var after := Scan(monitored, feed, seen0).seen;
    forall i | 0 <= i < |feed| && Eligible(monitored, feed[i])
      ensures RequestId(feed[i].target) in after
    {
      ScanSeenCovers(monitored, feed, seen0, RequestId(feed[i].target));
      EligibleIdListed(monitored, feed, i);
    }
    ScanOfSeenFeed(monitored, feed, after);
  }
}
