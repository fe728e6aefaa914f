/** The two report texts: the compact per-host Slack summary
    (`format_compact_slack`) and the verbose one-line-per-hit list
    (`format_hits`). */
module Report {
  import opened Text
  import opened Records
  import opened Summary
  import opened Ranking

  const BannerText: string := ":rotating_light: Oh noes, we might be under attack soon! :rotating_light:"

  /** One entry of the compact report's `lines` list. The header entry
      itself contains a newline, before the feed URL. */
  datatype Line =
    | Banner
    | Header(title: string, total: nat, hosts: nat, url: string)
    | HostLine(host: string, count: nat, examples: seq<string>)
    | More(rest: nat)

  function Render(l: Line): string {
    match l
    case Banner => BannerText
    case Header(title, total, hosts, url) =>
      "*" + title + ":* " + NatToString(total) + " new hits / " + NatToString(hosts) + " hosts\n" + url
    case HostLine(host, count, examples) =>
      var exStr := if examples != [] then Join(examples, ", ") else "";
      var head := "\U{2022} *" + host + "* \U{2014} " + NatToString(count) + " hits";
      if exStr != "" then head + " (e.g. " + exStr + ")" else head
    case More(rest) => "\U{2026}and " + NatToString(rest) + " more hosts."
  }

  function RenderAll(ls: seq<Line>): seq<string>
    decreases |ls|
  {
    if ls == [] then [] else RenderAll(ls[..|ls| - 1]) + [Render(ls[|ls| - 1])]
  }

  /** How many groups the loop lists before `shown >= max_hosts` stops it. */
  function Shown(maxHosts: int, n: nat): nat {
    if maxHosts <= 0 then 0 else if maxHosts < n then maxHosts else n
  }

  /** The groups that get a line of their own, in the order they are listed. */
  function Listed(groups: seq<Group>, maxHosts: int): seq<Group> {
    SortByCount(groups)[..Shown(maxHosts, |groups|)]
  }

  function HostLines(gs: seq<Group>): (ls: seq<Line>)
    ensures |ls| == |gs|
    ensures forall i {:trigger ls[i]} :: 0 <= i < |gs| ==>
      ls[i] == HostLine(gs[i].host, gs[i].count, gs[i].examples)
    decreases |gs|
  {
    if gs == [] then []
    else
      var g := gs[|gs| - 1];
      HostLines(gs[..|gs| - 1]) + [HostLine(g.host, g.count, g.examples)]
  }

  /** The lines of the compact report for the given groups. */
  function CompactLines(groups: seq<Group>, url: string, title: string, maxHosts: int): seq<Line> {
    var shown := Shown(maxHosts, |groups|);
    [Banner, Header(title, SumCounts(groups), |groups|, url)]
      + HostLines(Listed(groups, maxHosts))
      + (if |groups| > shown then [More(|groups| - shown)] else [])
  }

  /** The compact report for a list of hits. */
  function CompactText(hits: seq<Target>, url: string, title: string, maxHosts: int, cap: int): string {
    Join(RenderAll(CompactLines(Grouped(Keys(hits), cap), url, title, maxHosts)), "\n")
  }

  /** `format_compact_slack`: group the hits, lay out the report's lines,
      and join them with newlines. */
  method FormatCompactSlack(hits: seq<Target>, url: string, title: string, maxHosts: int, cap: int)
    returns (text: string)
    ensures text == CompactText(hits, url, title, maxHosts, cap)
  {
    var groups := SummarizeHitsByHost(hits, cap);
    var lines := CompactReportLines(groups, url, title, maxHosts);
    text := Join(RenderAll(lines), "\n");
  }

  /** The `lines` list of `format_compact_slack`: banner and header, the
      listed groups in rank order, and the count of the rest when there is
      a rest. */
  method CompactReportLines(groups: seq<Group>, url: string, title: string, maxHosts: int)
    returns (lines: seq<Line>)
    ensures lines == CompactLines(groups, url, title, maxHosts)
  {
    var total := SumCounts(groups);
    var uniqueHosts := |groups|;
    lines := [Banner, Header(title, total, uniqueHosts, url)];
    var items := SortByCount(groups);
    var listed, shown := ListGroups(items, maxHosts);
    lines := lines + listed;
    if uniqueHosts > shown {
      lines := lines + [More(uniqueHosts - shown)];
    }
  }

  /** The listing loop of `format_compact_slack`: one line per ranked group,
      stopping as soon as `max_hosts` lines are out. */
  method ListGroups(items: seq<Group>, maxHosts: int) returns (lines: seq<Line>, shown: nat)
    ensures shown == Shown(maxHosts, |items|)
    ensures lines == HostLines(items[..shown])
  {
    lines := [];
    shown := 0;
    while shown < |items|
      invariant shown <= Shown(maxHosts, |items|)
      invariant lines == HostLines(items[..shown])
    {
      if shown >= maxHosts {
        break;
      }
      lines := lines + [HostLine(items[shown].host, items[shown].count, items[shown].examples)];
      assert items[..shown + 1][..shown] == items[..shown];
      shown := shown + 1;
    }
  }

  /** The header reports the number of hits and the number of distinct
      hosts among them. */
  lemma CompactHeader(hits: seq<Target>, url: string, title: string, maxHosts: int, cap: int)
    ensures var gs := Grouped(Keys(hits), cap);
      CompactLines(gs, url, title, maxHosts)[1] == Header(title, |hits|, |FirstSeen(Keys(hits))|, url)
  {
    CountsAddUp(Keys(hits), cap);
  }

  /** The compact report has the banner, the header, one line per listed
      group and, exactly when some group is not listed, a last line with the
      number of groups left out. At most `max_hosts` groups are listed (none
      when it is not positive), and all of them when there are no more. */
  lemma CompactLayout(groups: seq<Group>, url: string, title: string, maxHosts: int)
    ensures var ls := CompactLines(groups, url, title, maxHosts);
      var n := |Listed(groups, maxHosts)|;
      && n <= |groups| && n <= (if maxHosts <= 0 then 0 else maxHosts)
      && (n < |groups| ==> n == maxHosts || maxHosts <= 0)
      && (n < |groups| <==> ls[|ls| - 1] == More(|groups| - n))
      && |ls| == 2 + n + (if n < |groups| then 1 else 0)
      && (forall i :: 2 <= i < 2 + n ==> ls[i].HostLine?)
  {
  }

  lemma {:induction false} OfCountPrefix(s: seq<Group>, n: nat, c: nat)
    requires n <= |s|
    ensures OfCount(s[..n], c) <= OfCount(s, c)
    decreases |s|
  {
    if n > 0 {
      assert s[..n][1..] == s[1..][..n - 1];
      OfCountPrefix(s[1..], n - 1, c);
    }
  }

  /** The listed groups are the ones with the largest counts: they come in
      non-increasing count order, each is one of the groups, every group left
      out has a count no larger than any listed one, and groups of equal
      count are listed in first-appearance order (for each count, the listed
      groups of that count are the first ones of that count). */
  lemma ListedAreTheLargest(groups: seq<Group>, maxHosts: int)
    ensures var ls := Listed(groups, maxHosts);
      && NonIncreasing(ls)
      && multiset(ls) <= multiset(groups)
      && (forall c: nat :: OfCount(ls, c) <= OfCount(groups, c))
  {
    var sorted := SortByCount(groups);
    var n := Shown(maxHosts, |groups|);
    SortIsOrdered(groups);
    SortIsPermutation(groups);
    assert sorted == sorted[..n] + sorted[n..];
    forall c: nat ensures OfCount(sorted[..n], c) <= OfCount(groups, c) {
      OfCountPrefix(sorted, n, c);
      SortIsStable(groups, c);
    }
  }

  /** A group that is not listed has a count no larger than every listed one. */
  lemma LeftOutAreNotLarger(groups: seq<Group>, maxHosts: int, g: Group)
    requires g in groups && g !in Listed(groups, maxHosts)
    ensures forall l :: l in Listed(groups, maxHosts) ==> l.count >= g.count
  {
    var sorted := SortByCount(groups);
    var n := Shown(maxHosts, |groups|);
    SortIsOrdered(groups);
    SortIsPermutation(groups);
    assert g in multiset(sorted);
    var j :| 0 <= j < |sorted| && sorted[j] == g;
    assert j >= n;
    forall l | l in Listed(groups, maxHosts) ensures l.count >= g.count {
      var i :| 0 <= i < n && sorted[..n][i] == l;
      assert sorted[i] == l;
    }
  }

  // ---------------------------------------------------------------------
  // format_hits

  /** One line of the verbose report: a dash, the raw host ("None" when
      absent), the method (or the type when the method is falsy), the path,
      the port and the request_id, as the hit holds them. */
  function HitLine(t: Target): string {
    var verb := Or(GetOr(t.httpMethod, ""), GetOr(t.kind, ""));
    var typ := GetOr(t.kind, "");
    "- " + Show(t.host) + "  " + Show(Or(verb, typ)) + " " + OrEmpty(GetOr(t.path, ""))
      + " (port " + Show(GetOr(t.port, "")) + ")  request_id=" + Show(GetOr(t.requestId, ""))
  }

  function HitLines(hits: seq<Target>): seq<string>
  {
    seq(|hits|, i requires 0 <= i < |hits| => HitLine(hits[i]))
  }

  /** `format_hits`: append one line per hit, then join them with newlines. */
  method FormatHits(hits: seq<Target>) returns (text: string)
    ensures text == Join(HitLines(hits), "\n")
  {
    var lines: seq<string> := [];
    for i := 0 to |hits|
      invariant |lines| == i
      invariant forall j :: 0 <= j < i ==> lines[j] == HitLine(hits[j])
    {
      lines := lines + [HitLine(hits[i])];
    }
    assert lines == HitLines(hits);
    text := Join(lines, "\n");
  }

  /** The method shown on a hit's line is its "method" value when that is
      truthy, and otherwise its "type" value ("" when absent). */
  lemma ShownMethod(t: Target)
    ensures var verb := Or(GetOr(t.httpMethod, ""), GetOr(t.kind, ""));
      Show(Or(verb, GetOr(t.kind, ""))) ==
        if Truthy(t.httpMethod) then t.httpMethod.s else Show(GetOr(t.kind, ""))
  {
  }

  predicate NoNewline(f: Field) {
    f.Str? ==> '\n' !in f.s
  }

  predicate SingleLineFields(t: Target) {
    NoNewline(t.host) && NoNewline(t.path) && NoNewline(t.httpMethod)
      && NoNewline(t.kind) && NoNewline(t.port) && NoNewline(t.requestId)
  }

  lemma ShowNoNewline(f: Field)
    requires NoNewline(f)
    ensures '\n' !in Show(f)
  {
    if !f.Str? {
      assert Show(f) == "None";
    }
  }

  lemma HitLineIsOneLine(t: Target)
    requires SingleLineFields(t)
    ensures '\n' !in HitLine(t)
  {
    var verb := Or(GetOr(t.httpMethod, ""), GetOr(t.kind, ""));
    ShowNoNewline(t.host);
    ShowNoNewline(Or(verb, GetOr(t.kind, "")));
    ShowNoNewline(GetOr(t.port, ""));
    ShowNoNewline(GetOr(t.requestId, ""));
  }

  /** When no field holds a newline, the verbose report is exactly one line
      per hit, in hit order: splitting it at newlines gives the hits' lines
      back. No hits give the empty text. */
  lemma OneLinePerHit(hits: seq<Target>)
    requires forall i :: 0 <= i < |hits| ==> SingleLineFields(hits[i])
    ensures hits == [] ==> Join(HitLines(hits), "\n") == ""
    ensures hits != [] ==> Split(Join(HitLines(hits), "\n"), '\n') == HitLines(hits)
  {
    if hits != [] {
      forall k | 0 <= k < |hits| ensures '\n' !in HitLines(hits)[k] {
        HitLineIsOneLine(hits[k]);
      }
      SplitJoin(HitLines(hits), '\n');
    }
  }
}
