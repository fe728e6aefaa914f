/** `summarize_hits_by_host`: the hits grouped by normalised host, in order
    of first appearance, each group with its hit count and up to a fixed
    number of non-empty "METHOD PATH" examples. */
module Summary {
  import opened Text
  import opened Records
  import opened Hosts
  import opened Seen

  /** One value of the `groups` defaultdict, together with its key. */
  datatype Group = Group(host: string, count: nat, examples: seq<string>)

  /** What the loop takes from one hit: its group key and its example. */
  datatype Keyed = Keyed(host: string, example: string)

  /** The normalised host; an absent or null host counts as "". */
  function HostKey(t: Target): string {
    NormalizeHost(OrEmpty(GetOr(t.host, "")))
  }

  /** The example a hit contributes: its method, or else its type, or else
      nothing, in upper case, then a space and its path (or nothing), with
      surrounding whitespace stripped. Empty when the hit has neither. */
  function Example(t: Target): string {
    Strip(Upper(OrEmpty(Or(t.httpMethod, t.kind))) + " " + OrEmpty(t.path))
  }

  function KeyOf(t: Target): Keyed {
    Keyed(HostKey(t), Example(t))
  }

  function Keys(hits: seq<Target>): seq<Keyed>
  {
    seq(|hits|, i requires 0 <= i < |hits| => KeyOf(hits[i]))
  }

  // ---------------------------------------------------------------------
  // The reference definition of the grouping

  /** The distinct hosts of `ks`, each at the place it first appears. */
  function FirstSeen(ks: seq<Keyed>): seq<string>
    decreases |ks|
  {
    if ks == [] then []
    else
      var p := FirstSeen(ks[..|ks| - 1]);
      var h := ks[|ks| - 1].host;
      if h in p then p else p + [h]
  }

  /** How many entries of `ks` have host `h`. */
  function CountOf(ks: seq<Keyed>, h: string): nat
    decreases |ks|
  {
    if ks == [] then 0
    else CountOf(ks[..|ks| - 1], h) + (if ks[|ks| - 1].host == h then 1 else 0)
  }

  /** The non-empty examples of the entries with host `h`, in order. */
  function ExamplesOf(ks: seq<Keyed>, h: string): seq<string>
    decreases |ks|
  {
    if ks == [] then []
    else
      var last := ks[|ks| - 1];
      ExamplesOf(ks[..|ks| - 1], h) + (if last.host == h && last.example != "" then [last.example] else [])
  }

  /** The first `cap` elements of `s`; none when `cap` is zero or negative. */
  function Take(cap: int, s: seq<string>): (r: seq<string>)
    ensures cap <= 0 ==> r == []
    ensures cap > 0 ==> |r| == if |s| <= cap then |s| else cap
    ensures r <= s
  {
    if cap <= 0 then [] else if |s| <= cap then s else s[..cap]
  }

  /** The groups `summarize_hits_by_host` is meant to build: one per distinct
      host, in order of first appearance, with that host's number of
      entries and the first `cap` of its non-empty examples. */
  function Grouped(ks: seq<Keyed>, cap: int): seq<Group>
  {
    var hs := FirstSeen(ks);
    seq(|hs|, i requires 0 <= i < |hs| => GroupOf(ks, cap, hs[i]))
  }

  /** The group of host `h`. */
  function GroupOf(ks: seq<Keyed>, cap: int, h: string): Group {
    Group(h, CountOf(ks, h), Take(cap, ExamplesOf(ks, h)))
  }

  // ---------------------------------------------------------------------
  // One step of the loop

  /** `groups[host]` on the list of groups: the index of `host`'s group, or
      `|gs|` when it has none yet. */
  function HostIndex(gs: seq<Group>, host: string): (i: nat)
    ensures i <= |gs|
    ensures i < |gs| ==> gs[i].host == host
    ensures forall j :: 0 <= j < i ==> gs[j].host != host
    decreases |gs|
  {
    if gs == [] then 0
    else if gs[0].host == host then 0
    else 1 + HostIndex(gs[1..], host)
  }

  /** One hit added to a group: one more hit, and its example appended when
      it is non-empty and the group has fewer than `cap` examples. */
  function Bump(g: Group, ex: string, cap: int): Group {
    Group(g.host, g.count + 1, if ex != "" && |g.examples| < cap then g.examples + [ex] else g.examples)
  }

  /** The body of the loop on the list of groups. */
  function AddEntry(gs: seq<Group>, k: Keyed, cap: int): seq<Group> {
    var i := HostIndex(gs, k.host);
    var gs1 := if i == |gs| then gs + [Group(k.host, 0, [])] else gs;
    gs1[i := Bump(gs1[i], k.example, cap)]
  }

  lemma {:induction false} FirstSeenFacts(ks: seq<Keyed>)
    ensures Distinct(FirstSeen(ks))
    ensures forall h :: h in FirstSeen(ks) <==> exists i :: 0 <= i < |ks| && ks[i].host == h
    decreases |ks|
  {
    if ks != [] {
      var prev := ks[..|ks| - 1];
      FirstSeenFacts(prev);
      assert forall i :: 0 <= i < |prev| ==> prev[i] == ks[i];
      forall h | exists i :: 0 <= i < |ks| && ks[i].host == h
        ensures h in FirstSeen(ks)
      {
        var i :| 0 <= i < |ks| && ks[i].host == h;
        if i < |prev| {
          assert prev[i].host == h;
        }
      }
    }
  }

  lemma {:induction false} AbsentHost(ks: seq<Keyed>, h: string)
    requires forall i :: 0 <= i < |ks| ==> ks[i].host != h
    ensures CountOf(ks, h) == 0 && ExamplesOf(ks, h) == []
    decreases |ks|
  {
    if ks != [] {
      AbsentHost(ks[..|ks| - 1], h);
    }
  }

  /** Taking from a list with one more element. */
  lemma TakeSnoc(cap: int, s: seq<string>, e: string)
    ensures Take(cap, s + [e]) == if |Take(cap, s)| < cap then Take(cap, s) + [e] else Take(cap, s)
  {
    if cap > 0 && |s| >= cap {
      assert (s + [e])[..cap] == s[..cap];
    }
  }

  /** One more entry changes only the group of its own host, and that one
      as the loop body does. */
  lemma GroupOfSnoc(ks: seq<Keyed>, k: Keyed, cap: int, x: string)
    ensures GroupOf(ks + [k], cap, x) ==
      if x == k.host then Bump(GroupOf(ks, cap, x), k.example, cap) else GroupOf(ks, cap, x)
  {
    assert (ks + [k])[..|ks|] == ks;
    TakeSnoc(cap, ExamplesOf(ks, x), k.example);
  }

  /** The grouping of a list with one more entry is the loop body applied
      to the grouping of the list: this is what makes the loop compute the
      reference grouping. */
  lemma GroupedSnoc(ks: seq<Keyed>, k: Keyed, cap: int)
    ensures Grouped(ks + [k], cap) == AddEntry(Grouped(ks, cap), k, cap)
  {
    var ks' := ks + [k];
    assert ks'[..|ks'| - 1] == ks;
    var gs := Grouped(ks, cap);
    var hs := FirstSeen(ks);
    var hs' := FirstSeen(ks');
    FirstSeenFacts(ks');
    var i := HostIndex(gs, k.host);
    if i == |gs| {
      assert k.host !in hs by {
        forall j | 0 <= j < |hs| ensures hs[j] != k.host {
          assert gs[j].host == hs[j];
        }
      }
      FirstSeenFacts(ks);
      AbsentHost(ks, k.host);
      SnocNewHost(ks, k, cap);
      assert (gs + [Group(k.host, 0, [])])[i := Bump(Group(k.host, 0, []), k.example, cap)]
        == gs + [Bump(Group(k.host, 0, []), k.example, cap)];
    } else {
      assert hs[i] == k.host;
      SnocKnownHost(ks, k, cap, i);
    }
  }

  lemma SnocNewHost(ks: seq<Keyed>, k: Keyed, cap: int)
    requires k.host !in FirstSeen(ks)
    requires CountOf(ks, k.host) == 0 && ExamplesOf(ks, k.host) == []
    requires FirstSeen(ks + [k]) == FirstSeen(ks) + [k.host]
    ensures Grouped(ks + [k], cap) == Grouped(ks, cap) + [Bump(Group(k.host, 0, []), k.example, cap)]
  {
    var gs, gs' := Grouped(ks, cap), Grouped(ks + [k], cap);
    var hs := FirstSeen(ks);
    forall j | 0 <= j < |gs'|
      ensures gs'[j] == (gs + [Bump(Group(k.host, 0, []), k.example, cap)])[j]
    {
      var x := FirstSeen(ks + [k])[j];
      GroupOfSnoc(ks, k, cap, x);
      if j < |gs| {
        assert x == hs[j] && x != k.host;
      } else {
        assert x == k.host;
        assert GroupOf(ks, cap, x) == Group(k.host, 0, []);
      }
    }
  }

  lemma SnocKnownHost(ks: seq<Keyed>, k: Keyed, cap: int, i: nat)
    requires i < |FirstSeen(ks)| && FirstSeen(ks)[i] == k.host
    requires Distinct(FirstSeen(ks))
    ensures Grouped(ks + [k], cap) == Grouped(ks, cap)[i := Bump(Grouped(ks, cap)[i], k.example, cap)]
  {
    var ks' := ks + [k];
    assert ks'[..|ks'| - 1] == ks;
    assert FirstSeen(ks') == FirstSeen(ks);
    var gs, gs' := Grouped(ks, cap), Grouped(ks', cap);
    forall j | 0 <= j < |gs'|
      ensures gs'[j] == gs[i := Bump(gs[i], k.example, cap)][j]
    {
      GroupOfSnoc(ks, k, cap, FirstSeen(ks)[j]);
    }
  }

  /** The loop of `summarize_hits_by_host` on a list of groups standing for
      the defaultdict: look the host up, create its group on first use,
      then count the hit and maybe keep its example. */
  method SummarizeHitsByHost(hits: seq<Target>, cap: int) returns (groups: seq<Group>)
    ensures groups == Grouped(Keys(hits), cap)
  {
    groups := [];
    ghost var ks := Keys(hits);
    for n := 0 to |hits|
      invariant groups == Grouped(ks[..n], cap)
    {
      var host := HostKey(hits[n]);
      var ex := Example(hits[n]);
      assert ks[..n + 1] == ks[..n] + [Keyed(host, ex)];
      GroupedSnoc(ks[..n], Keyed(host, ex), cap);
      groups := AddEntry(groups, Keyed(host, ex), cap);
    }
    assert ks[..|hits|] == ks;
  }

  // ---------------------------------------------------------------------
  // What the grouping promises

  function SumCounts(gs: seq<Group>): nat
    decreases |gs|
  {
    if gs == [] then 0 else gs[0].count + SumCounts(gs[1..])
  }

  lemma {:induction false} SumCountsSnoc(gs: seq<Group>, g: Group)
    ensures SumCounts(gs + [g]) == SumCounts(gs) + g.count
    decreases |gs|
  {
    if gs != [] {
      assert (gs + [g])[1..] == gs[1..] + [g];
      SumCountsSnoc(gs[1..], g);
    }
  }

  lemma {:induction false} SumCountsUpdate(gs: seq<Group>, i: nat, g: Group)
    requires i < |gs|
    ensures SumCounts(gs[i := g]) == SumCounts(gs) - gs[i].count + g.count
    decreases |gs|
  {
    if i > 0 {
      assert gs[i := g][1..] == gs[1..][i - 1 := g];
      SumCountsUpdate(gs[1..], i - 1, g);
    }
  }

  /** Every entry is counted in exactly one group: the counts add up to the
      number of hits. */
  lemma {:induction false} CountsAddUp(ks: seq<Keyed>, cap: int)
    ensures SumCounts(Grouped(ks, cap)) == |ks|
    decreases |ks|
  {
    if ks != [] {
      var prev := ks[..|ks| - 1];
      var k := ks[|ks| - 1];
      assert ks == prev + [k];
      CountsAddUp(prev, cap);
      GroupedSnoc(prev, k, cap);
      var gs := Grouped(prev, cap);
      var i := HostIndex(gs, k.host);
      if i == |gs| {
        SumCountsSnoc(gs, Group(k.host, 0, []));
        SumCountsUpdate(gs + [Group(k.host, 0, [])], i, Bump(Group(k.host, 0, []), k.example, cap));
      } else {
        SumCountsUpdate(gs, i, Bump(gs[i], k.example, cap));
      }
    }
  }

  /** The keys of a list of groups, in order. */
  function GroupHosts(gs: seq<Group>): seq<string>
  {
    seq(|gs|, i requires 0 <= i < |gs| => gs[i].host)
  }

  /** There is one group per distinct host, no host has two groups, and a
      host has a group exactly when some entry has that host. */
  lemma GroupsAreTheDistinctHosts(ks: seq<Keyed>, cap: int)
    ensures Distinct(GroupHosts(Grouped(ks, cap)))
    ensures forall h :: h in GroupHosts(Grouped(ks, cap)) <==> exists i :: 0 <= i < |ks| && ks[i].host == h
  {
    FirstSeenFacts(ks);
    assert GroupHosts(Grouped(ks, cap)) == FirstSeen(ks);
  }

  /** Groups appear in order of first appearance: the groups of a prefix of
      the hits are a prefix of the groups of all of them. */
  lemma {:induction false} FirstSeenGrows(ks: seq<Keyed>, n: nat)
    requires n <= |ks|
    ensures FirstSeen(ks[..n]) <= FirstSeen(ks)
    decreases |ks|
  {
    if n < |ks| {
      var prev := ks[..|ks| - 1];
      assert ks[..n] == prev[..n];
      FirstSeenGrows(prev, n);
    } else {
      assert ks[..n] == ks;
    }
  }

  lemma {:induction false} CountBoundsExamples(ks: seq<Keyed>, h: string)
    ensures |ExamplesOf(ks, h)| <= CountOf(ks, h)
    ensures forall e :: e in ExamplesOf(ks, h) ==> e != ""
    decreases |ks|
  {
    if ks != [] {
      CountBoundsExamples(ks[..|ks| - 1], h);
    }
  }

  lemma {:induction false} PresentHostCounts(ks: seq<Keyed>, h: string, i: nat)
    requires i < |ks| && ks[i].host == h
    ensures CountOf(ks, h) >= 1
    decreases |ks|
  {
    if i < |ks| - 1 {
      PresentHostCounts(ks[..|ks| - 1], h, i);
    }
  }

  /** Every group has at least one hit, at most `cap` examples (none when
      `cap` is not positive), never more examples than hits, only
      non-empty examples, and these are the first of its host's non-empty
      examples in hit order. */
  lemma GroupShape(ks: seq<Keyed>, cap: int, i: nat)
    requires i < |Grouped(ks, cap)|
    ensures var g := Grouped(ks, cap)[i];
      && g.count >= 1
      && |g.examples| <= (if cap <= 0 then 0 else cap)
      && |g.examples| <= g.count
      && (forall e :: e in g.examples ==> e != "")
      && g.examples <= ExamplesOf(ks, g.host)
  {
    var h := FirstSeen(ks)[i];
    FirstSeenFacts(ks);
    assert h in FirstSeen(ks);
    var j :| 0 <= j < |ks| && ks[j].host == h;
    PresentHostCounts(ks, h, j);
    CountBoundsExamples(ks, h);
    var g := Grouped(ks, cap)[i];
    assert forall e :: e in g.examples ==> e in ExamplesOf(ks, h);
  }
}
