/** One run of the watcher (`main`) on values: the configuration, the
    decoded state file and the fetched feed come in as parameters, and the
    run's effects come out as values: the hits, the Slack text posted (if
    any), the e-mail sent (if any) and the key list written to the state
    file (if any). */
module Watcher {
  import opened Wrappers
  import opened Text
  import opened Records
  import opened Seen
  import opened Dedup
  import opened Report
  import opened Hosts

  /** The settings read from the environment at start-up. `monitoredHosts`
      is the raw comma-separated `MONITORED_HOSTS` value. Integer settings
      keep their parsed value, which may be zero or negative. */
  datatype Config = Config(
    url: string,
    monitoredHosts: string,
    useState: bool,
    slackWebhook: string,
    summaryOnly: bool,
    examplesPerHost: int,
    maxHosts: int,
    suppressEmpty: bool,
    title: string,
    smtpHost: string,
    emailFrom: string,
    emailTo: string)

  /** The configuration when only the feed URL and the monitored hosts are
      set: stateless, compact Slack summaries with two examples for at most
      ten hosts, empty runs not reported, no Slack webhook and no e-mail. */
  function DefaultConfig(url: string, monitoredHosts: string): Config
  {
    Config(url, monitoredHosts, false, "", true, 2, 10, true, "Target watcher", "", "", "")
  }

  /** Notification settings are opt-in and state is off by default: a run
      with the default configuration starts from no seen ids, whatever the
      state file holds, and posts to Slack and sends e-mail for no list of
      hits. */
  lemma DefaultRunIsQuiet(url: string, raw: string, file: Option<seq<string>>, hits: seq<Target>)
    requires WellFormed(file)
    ensures var cfg := DefaultConfig(url, raw);
      LoadState(cfg.useState, file) == [] && !SlackPosts(cfg, hits) && !EmailSends(cfg)
  {
  }

  // ---------------------------------------------------------------------
  // MONITORED_HOSTS

  /** The entries of `MONITORED_HOSTS`: the comma-separated parts, each
      stripped and lower-cased, with the parts that are blank dropped. */
  function MonitoredHosts(raw: string): seq<string> {
    CleanEntries(Split(raw, ','))
  }

  function CleanEntries(parts: seq<string>): seq<string>
    decreases |parts|
  {
    if parts == [] then []
    else
      var h := Strip(parts[|parts| - 1]);
      CleanEntries(parts[..|parts| - 1]) + (if h != "" then [Lower(h)] else [])
  }

  /** The entries are exactly the lower-cased, stripped non-blank parts. */
  lemma {:induction false} CleanEntriesAreTheParts(parts: seq<string>, m: string)
    ensures m in CleanEntries(parts) <==>
      exists i :: 0 <= i < |parts| && Strip(parts[i]) != "" && m == Lower(Strip(parts[i]))
    decreases |parts|
  {
    if parts != [] {
      var prev := parts[..|parts| - 1];
      CleanEntriesAreTheParts(prev, m);
      assert forall i :: 0 <= i < |prev| ==> prev[i] == parts[i];
    }
  }

  /** Every entry is non-empty, lower-case and trimmed, so stripping and
      lower-casing it again changes nothing. */
  lemma EntriesAreNormal(raw: string, m: string)
    requires m in MonitoredHosts(raw)
    ensures m != "" && NoUpper(m) && Strip(Lower(m)) == m
  {
    var parts := Split(raw, ',');
    CleanEntriesAreTheParts(parts, m);
    var i :| 0 <= i < |parts| && Strip(parts[i]) != "" && m == Lower(Strip(parts[i]));
    var h := Strip(parts[i]);
    StripEnds(parts[i]);
    assert m[0] == LowerChar(h[0]) && m[|m| - 1] == LowerChar(h[|h| - 1]);
    LowerOfNoUpper(m);
    StripOfTrimmed(m);
  }

  /** The non-blank entry "www." survives the parse but normalises to "",
      and then matches every host whose normal form ends in ".". */
  lemma WwwEntryMatchesDottedHosts(h: string)
    ensures MonitoredHosts("www.") == ["www."]
    ensures NormalizeHost("www.") == ""
    ensures EndsWith(NormalizeHost(h), ".") ==> HostMatches(["www."], h)
  {
    assert Split("www.", ',') == ["www."];
    StripOfTrimmed("www.");
    assert Lower("www.") == "www.";
    StripsOneWww("");
    assert WwwPrefix + "" == "www.";
    HostMatchesSome(["www."], h);
    assert "." + "" == ".";
    assert "www." in ["www."];
  }

  /** The setting yields no entry exactly when every comma-separated part of
      it is blank. */
  lemma NoEntries(raw: string)
    ensures MonitoredHosts(raw) == [] <==>
      forall i :: 0 <= i < |Split(raw, ',')| ==> AllSpace(Split(raw, ',')[i])
  {
    var parts := Split(raw, ',');
    if MonitoredHosts(raw) == [] {
      forall i | 0 <= i < |parts| ensures AllSpace(parts[i]) {
        CleanEntriesAreTheParts(parts, Lower(Strip(parts[i])));
        StripEnds(parts[i]);
      }
    } else {
      var m := MonitoredHosts(raw)[0];
      CleanEntriesAreTheParts(parts, m);
      var i :| 0 <= i < |parts| && Strip(parts[i]) != "" && m == Lower(Strip(parts[i]));
      StripEnds(parts[i]);
      assert !AllSpace(Split(raw, ',')[i]);
    }
  }

  datatype Email = Email(from: string, to: string, subject: string, body: string)

  datatype Outcome =
    | ConfigError
    | Ran(hits: seq<Target>, slack: Option<string>, email: Option<Email>, written: Option<seq<string>>)

  /** Whether `notify_slack` posts anything: a webhook is configured, and
      the hit list is non-empty or empty reports are not suppressed. */
  predicate SlackPosts(cfg: Config, hits: seq<Target>) {
    cfg.slackWebhook != "" && !(hits == [] && cfg.suppressEmpty)
  }

  /** Whether `notify_email` sends anything: server, sender and recipient
      are all configured. */
  predicate EmailSends(cfg: Config) {
    cfg.smtpHost != "" && cfg.emailFrom != "" && cfg.emailTo != ""
  }

  /** The verbose Slack text: banner, title line with the number of hits and
      the feed URL, the reporting machine's name, then the hit list. */
  function VerboseText(cfg: Config, hostname: string, count: nat, list: string): string {
    BannerText + "\n\n"
      + "*" + cfg.title + ":* " + NatToString(count) + " new match(es) on `" + cfg.url + "`\n"
      + "_host: " + hostname + "_\n\n"
      + list
  }

  function SlackText(cfg: Config, hostname: string, hits: seq<Target>): string {
    if cfg.summaryOnly then CompactText(hits, cfg.url, cfg.title, cfg.maxHosts, cfg.examplesPerHost)
    else VerboseText(cfg, hostname, |hits|, Join(HitLines(hits), "\n"))
  }

  /** The e-mail: the number of hits in the subject; the body names the feed
      URL and the monitored hosts, then gives the hit list. */
  function EmailOf(cfg: Config, count: nat, list: string): Email {
    var n := NatToString(count);
    Email(cfg.emailFrom, cfg.emailTo,
      "[watcher] " + n + " new match(es)",
      n + " new match(es) found while checking " + cfg.url + "\n\n"
        + "Monitored hosts: " + Join(MonitoredHosts(cfg.monitoredHosts), ", ") + "\n\n"
        + list + "\n")
  }

  function EmailText(cfg: Config, hits: seq<Target>): Email {
    EmailOf(cfg, |hits|, Join(HitLines(hits), "\n"))
  }

  /** `notify_slack`, up to the HTTP post: the text it would post, if any. */
  method NotifySlack(cfg: Config, hostname: string, hits: seq<Target>) returns (text: Option<string>)
    ensures text.Some? <==> SlackPosts(cfg, hits)
    ensures text.Some? ==> text.value == SlackText(cfg, hostname, hits)
  {
    if cfg.slackWebhook == "" {
      return None;
    }
    if hits == [] && cfg.suppressEmpty {
      return None;
    }
    var body: string;
    if cfg.summaryOnly {
      body := FormatCompactSlack(hits, cfg.url, cfg.title, cfg.maxHosts, cfg.examplesPerHost);
    } else {
      var list := FormatHits(hits);
      body := VerboseText(cfg, hostname, |hits|, list);
    }
    text := Some(body);
  }

  /** `notify_email`, up to the SMTP exchange: the message it would send, if any. */
  method NotifyEmail(cfg: Config, hits: seq<Target>) returns (msg: Option<Email>)
    ensures msg.Some? <==> EmailSends(cfg)
    ensures msg.Some? ==> msg.value == EmailText(cfg, hits)
  {
    if !EmailSends(cfg) {
      return None;
    }
    var list := FormatHits(hits);
    msg := Some(EmailOf(cfg, |hits|, list));
  }

  /** `main`: refuse an empty host list; otherwise load the seen ids, run the
      dedup pass over the feed, and when it found something notify and save
      the state; when it found nothing, post an empty report unless those
      are suppressed. */
  method RunCycle(cfg: Config, hostname: string, file: Option<seq<string>>, feed: seq<Item>)
    returns (out: Outcome)
    requires WellFormed(file)
    ensures out.ConfigError? <==> MonitoredHosts(cfg.monitoredHosts) == []
    ensures out.Ran? ==>
      var p := Scan(MonitoredHosts(cfg.monitoredHosts), feed, LoadState(cfg.useState, file));
      && out.hits == p.hits
      && out.written == (if p.hits != [] && cfg.useState then Some(Evicted(p.seen)) else None)
      && out.email == (if p.hits != [] && EmailSends(cfg) then Some(EmailText(cfg, p.hits)) else None)
      && out.slack == (if SlackPosts(cfg, p.hits) then Some(SlackText(cfg, hostname, p.hits)) else None)
  {
    var monitored := MonitoredHosts(cfg.monitoredHosts);
    if monitored == [] {
      return ConfigError;
    }
    var seen := new SeenIds(LoadState(cfg.useState, file));
    var hits := CollectHits(monitored, feed, seen);
    var slack: Option<string> := None;
    var email: Option<Email> := None;
    var written: Option<seq<string>> := None;
    if hits != [] {
      slack := NotifySlack(cfg, hostname, hits);
      email := NotifyEmail(cfg, hits);
      written := SaveState(cfg.useState, seen);
    } else if !cfg.suppressEmpty {
      slack := NotifySlack(cfg, hostname, []);
    }
    out := Ran(hits, slack, email, written);
  }

  /** With state kept, running the same feed again against the state the
      first run wrote reports nothing, as long as that run did not push the
      store over the eviction threshold. */
  lemma StatefulReplayIsQuiet(monitored: seq<string>, feed: seq<Item>, file: Option<seq<string>>)
    requires WellFormed(file)
    ensures var p := Scan(monitored, feed, LoadState(true, file));
      |p.seen| <= MaxSeen ==> Scan(monitored, feed, Evicted(p.seen)).hits == []
  {
    var p := Scan(monitored, feed, LoadState(true, file));
    if |p.seen| <= MaxSeen {
      EvictedIsNewestSuffix(p.seen);
      ReplayFindsNothing(monitored, feed, LoadState(true, file));
    }
  }

  /** Without state, every run reports each eligible record of the feed
      (once per id), whatever the state file holds. */
  lemma StatelessReportsAllEligible(monitored: seq<string>, feed: seq<Item>, file: Option<seq<string>>, i: nat)
    requires WellFormed(file)
    requires i < |feed| && Eligible(monitored, feed[i])
    ensures RequestId(feed[i].target) in Ids(Scan(monitored, feed, LoadState(false, file)).hits)
  {
    NewEligibleIsReported(monitored, feed, [], i);
  }
}
