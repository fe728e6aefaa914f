# target_watcher — a Dafny model of one watch cycle

`target_watcher.py` is a batch checker that runs once per invocation. It
fetches a feed of target records and keeps the records whose host is under
one of the monitored domains. It drops those whose request id it has
already seen. It reports the rest to Slack (a compact per-host summary or a
verbose list) and by e-mail. It also remembers the seen ids in a state file,
trimmed by a fixed batch eviction.

This project models the in-memory part of that cycle in Dafny and proves
what each part promises. Configuration, the decoded state file and the
fetched feed are parameters. The effects of a run are return values: the
hits, the Slack text, the e-mail and the key list written.

Modules, in dependency order:

- `Text` (text.dfy): the pieces of Python `str` the program relies on.
  - ASCII lower/upper case and `strip()`.
  - Prefix and suffix tests.
  - `join` and single-character `split`.
  - Decimal rendering of a natural number.
- `Records` (records.dfy): a feed record as decoded JSON.
  - Each field is absent, null or a string.
  - Python's `get` with and without a default, `or`, and f-string rendering of `None`.
  - The request id, or the id derived from the raw host, path, type and method.
- `Hosts` (hosts.dfy): `normalize_host` and `host_matches`.
- `Seen` (seen.dfy): the seen-id dict.
  - It is an insertion-ordered, duplicate-free key sequence held in a class and updated in place.
  - Also modelled: the batch eviction of `save_state` and the stateless branches of `load_state`/`save_state`.
- `Dedup` (dedup.dfy): the record loop of `main`.
  - The method `CollectHits` mutates the seen store.
  - It is proved equal to the reference pass `Scan`. The properties are proved about `Scan`.
- `Summary` (summary.dfy): `summarize_hits_by_host`.
  - The loop is proved to build the reference grouping `Grouped`.
  - `Grouped` has one group per distinct normalised host, in first-appearance order. Each group holds its count and the first `cap` non-empty examples.
- `Ranking` (ranking.dfy): the stable descending sort by count.
- `Report` (report.dfy): `format_compact_slack` and `format_hits`.
  - The compact report is modelled as a list of `Line` values and their rendering.
  - The verbose report is one line per hit.
- `Watcher` (watcher.dfy): one run of `main`.
  - Configuration as a value, with the parse of the `MONITORED_HOSTS` setting.
  - The notification gates and message texts.
  - `RunCycle`, with replay properties.

Where the documentation and the code differ, the model follows the code:

- Normalisation also strips surrounding whitespace, not only case and a leading "www.".
- State is off by default (`USE_STATE` defaults to "0"), although the comment on target_watcher.py:37 calls stateful mode the default.

## Model

| member | source | states |
|---|---|---|
| Hosts.NormalForm | target_watcher.py:84-88 | the normal form has no upper-case letter and is the lower-cased stripped host, minus one leading "www." exactly when it starts with one |
| Hosts.NormalizeIgnoresCase | target_watcher.py:85 | normalising an already lower-cased host gives the same result |
| Hosts.NormalizeIgnoresSurroundingSpace | target_watcher.py:85 | whitespace around the host does not change its normal form |
| Hosts.NormalIsFixed | target_watcher.py:84-88 | a lower-case, trimmed host without a leading "www." is its own normal form |
| Hosts.StripsOneWww | target_watcher.py:86-87 | "www." in front of a normal host is removed |
| Hosts.DoubleWwwExample | target_watcher.py:86-87 | only one "www." is removed: "www.www.example.com" becomes "www.example.com" |
| Hosts.WwwNormalizesAway | target_watcher.py:84-88 | "www.example.com" normalises to "example.com" |
| Hosts.MatchesAnyIsSome | target_watcher.py:94-98 | the loop with early return is true iff some entry's normal form equals the host or is a dot-suffix of it |
| Hosts.HostMatchesSome | target_watcher.py:91-98 | `host_matches` is true iff the host's normal form equals, or ends with "." plus, the normal form of some monitored entry |
| Hosts.EmptyListMatchesNothing | target_watcher.py:94-98 | an empty monitored list matches no host |
| Hosts.SingleEntry | target_watcher.py:91-98 | with one monitored entry, matching is the per-entry test on the two normal forms |
| Hosts.NoMatchWithoutDot | target_watcher.py:96 | "notexample.com" does not match "example.com" |
| Hosts.SelfExample | target_watcher.py:96 | "example.com" matches itself |
| Hosts.SubdomainExample | target_watcher.py:96 | "api.example.com" matches "example.com" |
| Hosts.WwwExample | target_watcher.py:91-98 | "www.example.com" matches "example.com" |
| Records.GetOr | target_watcher.py:129 | `t.get(k, default)`: the default for an absent key, the stored value (null included) otherwise |
| Records.OrEmpty | target_watcher.py:143 | `x or ""`: the string when it is truthy, otherwise "" |
| Records.RequestId | target_watcher.py:248 | the id is never empty and is the record's request_id whenever that is a non-empty string |
| Records.DerivedIdDeterministic | target_watcher.py:248 | records without a usable request_id that agree on raw host, path, type and method get the same id |
| Records.DerivedIdsCanCollide | target_watcher.py:248 | the derived id does not escape ":", so two different records can share one id |
| Seen.SeenIds.Insert | target_watcher.py:252 | a new key goes last, a present key keeps its place, and the keys stay distinct |
| Seen.SeenIds.Remove | target_watcher.py:76 | the key is deleted and the rest keep their order |
| Seen.DeleteOldest | target_watcher.py:75-76 | deleting the oldest key of a duplicate-free key list drops exactly its head |
| Seen.EvictedIsNewestSuffix | target_watcher.py:74-77 | above 50000 keys exactly the 10000 oldest go and the rest keep their order; otherwise nothing changes |
| Seen.EvictionBound | target_watcher.py:74-77 | a store at most 50000 keys stays within 50000 after adding at most 10000, and can exceed it after adding more |
| Seen.LoadState | target_watcher.py:59-68 | the loaded keys are distinct, and stateless mode starts from no keys whatever the file holds; the stateful branch (the file's keys, or none when it is absent or unreadable) is the definition itself |
| Seen.SaveState | target_watcher.py:70-78 | stateless mode changes and writes nothing; otherwise the keys become the evicted key list, which is written |
| Dedup.CollectHits | target_watcher.py:242-253 | the loop returns the hits of the reference pass and leaves the store as that pass leaves it |
| Dedup.ScanSeenIsOldPlusHits | target_watcher.py:250-252 | after the pass the store is the old store followed by exactly the hits' ids, in hit order |
| Dedup.ScanHitsAreNew | target_watcher.py:244-252 | every hit is a dict record of the feed with a non-empty matching host whose id was not stored before the pass |
| Dedup.ScanIdsAreDistinct | target_watcher.py:250-252 | no two hits share an id, even within one feed, and a duplicate-free store stays duplicate-free |
| Dedup.ScanSeenCovers | target_watcher.py:244-253 | an id is stored after the pass iff it was stored before or is the id of an eligible record of the feed |
| Dedup.EligibleIdListed | target_watcher.py:244-249 | every eligible record's id is among the feed's eligible ids |
| Dedup.NewEligibleIsReported | target_watcher.py:249-252 | for every eligible record whose id was not stored before, its id is among the hits' ids; that the hit carrying it is the first eligible record with that id is proved by `Dedup.ScanHitsInFeedOrder` |
| Dedup.ScanHitsInFeedOrder | target_watcher.py:244-252 | the hits are records of the feed in feed order, and each is the first eligible record of the feed with its id |
| Dedup.ScanOfSeenFeed | target_watcher.py:250 | when every eligible id is already stored, the pass reports nothing and changes nothing |
| Dedup.ReplayFindsNothing | target_watcher.py:242-253 | replaying a feed against the store it produced reports nothing |
| Summary.SummarizeHitsByHost | target_watcher.py:138-148 | the loop over the defaultdict builds exactly the reference grouping of the hits |
| Summary.GroupedSnoc | target_watcher.py:145-147 | grouping one more hit is the loop body applied to the grouping so far |
| Summary.CountsAddUp | target_watcher.py:145 | the group counts add up to the number of hits |
| Summary.GroupsAreTheDistinctHosts | target_watcher.py:141 | the groups' hosts are distinct and are exactly the normalised hosts of the hits |
| Summary.FirstSeenGrows | target_watcher.py:139-141 | groups appear in first-appearance order: the hosts of a prefix of the hits are a prefix of all the hosts |
| Summary.GroupShape | target_watcher.py:142-147 | each group has at least one hit, at most `cap` examples (none when `cap` is not positive), no more examples than hits, only non-empty examples, and these are the first of its host's examples |
| Summary.Take | target_watcher.py:146 | keeping examples while fewer than `cap` are kept yields a prefix of length `min(cap, n)`, empty for `cap` at most 0 |
| Summary.TakeSnoc | target_watcher.py:146-147 | one more example is kept exactly when fewer than `cap` are kept already |
| Ranking.SortIsOrdered | target_watcher.py:160 | the ranking is in non-increasing count order |
| Ranking.SortIsPermutation | target_watcher.py:160 | the ranking is a permutation of the groups |
| Ranking.SortIsStable | target_watcher.py:160 | groups of equal count keep their first-appearance order |
| Report.FormatCompactSlack | target_watcher.py:151-175 | the text is the reference report's lines rendered and joined by newlines |
| Report.CompactReportLines | target_watcher.py:152-174 | the line list is the banner, the header with total and host count, the listed groups, and the "more hosts" line when some are not listed |
| Report.ListGroups | target_watcher.py:161-171 | the loop lists the ranked groups until `max_hosts` are shown, i.e. min(max(max_hosts, 0), number of groups) of them |
| Report.CompactHeader | target_watcher.py:153-157 | the header reports the number of hits and the number of distinct normalised hosts |
| Report.CompactLayout | target_watcher.py:161-174 | at most `max_hosts` group lines; the last line says how many groups are not listed, present exactly when some are not |
| Report.ListedAreTheLargest | target_watcher.py:160-171 | listed groups come by non-increasing count, are groups of the report, and for each count are the first groups of that count |
| Report.LeftOutAreNotLarger | target_watcher.py:160-171 | a group that is not listed has a count no larger than any listed group |
| Report.FormatHits | target_watcher.py:124-135 | the verbose text is the hits' lines, one per hit, in hit order, joined by newlines |
| Report.ShownMethod | target_watcher.py:130-134 | the method shown on a hit's line is its method when truthy, otherwise its type |
| Report.HitLineIsOneLine | target_watcher.py:134 | a hit whose fields hold no newline renders as a single line |
| Report.OneLinePerHit | target_watcher.py:126-135 | splitting the verbose text at newlines gives back one line per hit; no hits give "" |
| Hosts.NormalizeHost | target_watcher.py:84-88 | `normalize_host`: lower-case, strip, then drop one leading "www."; its properties are proved in `Hosts.NormalForm` and the lemmas below |
| Hosts.MatchesAny | target_watcher.py:94-98 | the loop over the monitored entries with its early `return True`; characterised by `Hosts.MatchesAnyIsSome` |
| Hosts.HostMatches | target_watcher.py:91-98 | `host_matches`: normalise the host, then run the loop; characterised by `Hosts.HostMatchesSome` |
| Records.DerivedId | target_watcher.py:248 | the fallback id: raw host ("None" when absent), path, type and method joined by ":" |
| Dedup.Scan | target_watcher.py:242-253 | the reference pass over the feed: skip non-dicts, keep a record with a truthy, matching host whose id is not yet seen, and record its id |
| Seen.Evicted | target_watcher.py:74-77 | the key list `save_state` keeps; characterised by `Seen.EvictedIsNewestSuffix` |
| Summary.HostKey | target_watcher.py:141 | a hit's group key: the normalised host, "" when absent or null |
| Summary.Example | target_watcher.py:142-144 | a hit's example: method or else type, upper-cased, a space and the path, stripped |
| Summary.AddEntry | target_watcher.py:145-147 | one pass of the loop body: find or create the host's group, count the hit, append the example when non-empty and fewer than `cap` are kept |
| Summary.Grouped | target_watcher.py:138-148 | the reference grouping: one group per distinct host of the hits, as many groups as distinct hosts |
| Ranking.SortByCount | target_watcher.py:160 | the stable descending sort by count, as an insertion sort; it keeps the number of groups, and `Ranking.SortIsOrdered`, `SortIsPermutation` and `SortIsStable` pin it down |
| Report.HitLine | target_watcher.py:128-134 | one line of the verbose list, with the fields rendered as Python's f-string renders them |
| Report.Render | target_watcher.py:156-174 | the text of each kind of compact-report line: banner, header, host line with or without examples, and the "more hosts" line |
| Report.CompactLines | target_watcher.py:152-174 | the compact report's line list for a grouping; its layout is stated by `Report.CompactLayout` |
| Watcher.MonitoredHosts | target_watcher.py:31-35 | the parse of `MONITORED_HOSTS`: split at commas, strip and lower-case each part, drop blank parts |
| Watcher.CleanEntriesAreTheParts | target_watcher.py:31-35 | an entry is in the parsed list iff it is the stripped, lower-cased form of some non-blank part |
| Watcher.EntriesAreNormal | target_watcher.py:32-34 | every parsed entry is non-empty, lower-case and trimmed, so no blank entry ever reaches `host_matches` |
| Watcher.WwwEntryMatchesDottedHosts | target_watcher.py:31-35 | the non-blank entry "www." survives the parse and normalises to "" (line 95), so it matches every host whose normal form ends in "." |
| Watcher.NoEntries | target_watcher.py:31-35 | the parsed list is empty iff every comma-separated part of the setting is blank, which is when `main` stops with a configuration error |
| Watcher.VerboseText | target_watcher.py:190-196 | the verbose Slack text: banner, title line with the hit count and URL, the machine name, then the hit list |
| Watcher.EmailOf | target_watcher.py:208-213 | the e-mail subject and body: the hit count, the URL, the parsed monitored hosts joined by ", ", then the hit list |
| Watcher.DefaultConfig | target_watcher.py:37-53 | the configuration when only URL and hosts are set: stateless, compact, empty reports suppressed, 10 hosts with 2 examples each, no webhook and no mail settings |
| Watcher.DefaultRunIsQuiet | target_watcher.py:37-53 | with the default configuration a run loads no seen ids whatever the state file holds, and posts to Slack and sends e-mail for no list of hits |
| Watcher.NotifySlack | target_watcher.py:181-199 | a text is posted iff a webhook is set and the hits are non-empty or empty reports are not suppressed; it is the compact or verbose text as configured |
| Watcher.NotifyEmail | target_watcher.py:202-218 | a message is sent iff server, sender and recipient are set, with the subject and body built from the hits |
| Watcher.RunCycle | target_watcher.py:233-262 | an empty parsed monitored list is an error. Otherwise the run reports the pass's hits, and notifies and saves only when there are hits. With no hits, it posts only when empty reports are not suppressed |
| Watcher.StatefulReplayIsQuiet | target_watcher.py:238-258 | with state kept, a second run of the same feed reports nothing unless the first pushed the store past the eviction threshold |
| Watcher.StatelessReportsAllEligible | target_watcher.py:60-62 | without state, every eligible record's id is reported, whatever the state file holds |

## Left out

- Configuration loading from the environment and `.env` file, and the start-up exits, are not modelled (target_watcher.py:14-53).
  - The values arrive as a `Config`. `MONITORED_HOSTS` arrives as its raw text and is parsed by `Watcher.MonitoredHosts`.
  - A feed URL is guaranteed at start-up, so the compact report uses it directly.
- `fetch_targets` is left out: it is an HTTP request.
  - The feed arrives as a sequence of items.
  - An element that is not a JSON object is `NonDict`.
  - Its Slack error alert is not modelled.
- The HTTP post to Slack, the SMTP exchange and exception swallowing are left out.
  - The model returns the text or message that would be sent.
  - The machine's host name is a parameter.
- The state file's JSON reading and writing are left out. Its decoded key list is the parameter.
  - The parameter is `None` when the file is absent, unreadable or lacks the key.
  - `LoadState` and `RunCycle` require its keys to be distinct. This is always true of keys decoded from a JSON object.
  - The dict's values (always `True`) and the other keys of the state object are not modelled.
- Case mapping and whitespace are ASCII only. Python's Unicode `lower()`, `upper()` and `strip()` are not modelled.
- Field values are absent, null or strings; a JSON number, boolean or list in a record is represented by its text. The model therefore does not capture these consequences of non-string values:
  - A truthy non-string `host` makes `normalize_host` raise (target_watcher.py:85, reached from :249). The whole run aborts with exit code 1, nothing is notified and nothing is saved; the model treats the value as text and carries on.
  - A falsy non-string value (0, 0.0, false, an empty array or object) counts as absent in Python's `if` and `or`, but the model sees its text, which is truthy. A host of 0 or false is skipped at :249 yet the model can report it; a `request_id` of false, [] or {} falls back to the derived id at :248; a method of 0 falls back to the type at :130 and :142.
  - A non-zero numeric `request_id` becomes an integer key of the seen dict (:248, :252). The state file writes it back as a string, so on the next stateful run the integer is not found and the record is reported again on every run; the model deduplicates it across runs. A numeric `request_id` of 0 is falsy and falls back to the derived id, which the model does not capture either.
  - A non-string method, type or path in a hit makes `summarize_hits_by_host` raise (:142, :144) inside `notify_slack`'s exception handler (:186-199), so the compact Slack post is silently dropped; the model posts it.
  - A non-empty JSON array or object as `request_id` is truthy and becomes the id (:248). For an eligible record the test `rid not in seen` (:250) raises TypeError (unhashable type) and the whole run aborts with exit code 1; the model dedups its text and carries on.
  - A state file that holds valid JSON that is not an object crashes the run at :239. A `seen_request_ids` that is not an object fails only once an eligible record is met: null, a number or a boolean at the membership test (:250), a list or a string at the assignment (:252). A string there also makes `in` test substrings, so an id that is a substring of it is silently suppressed. The model has no such file contents, and maps only an absent or unreadable file to `None`.
- The mapping of exceptions to exit codes and the console messages are left out (target_watcher.py:257, 260, 265-270).
- `Seen.EvictionBound`: this is weaker than a fixed limit, because the source evicts a fixed batch of 10000. A store cannot be shown to stay at or under 50000 keys when one run adds more than 10000 ids.
