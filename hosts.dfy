/** Host normalisation and the suffix (domain) match that decides whether a
    feed record belongs to a monitored host (`normalize_host`, `host_matches`). */
module Hosts {
  import opened Text

  const WwwPrefix: string := "www."

  /** `normalize_host`: lower-case, strip surrounding whitespace, then drop
      one leading "www." if there is one. A missing host reaches this
      function as "" (the caller turns it into ""). */
  function NormalizeHost(h: string): string {
    var s := Strip(Lower(h));
    if StartsWith(s, WwwPrefix) then s[|WwwPrefix|..] else s
  }

  /** The normal form has no upper-case letter, and it is the lower-cased,
      stripped host, or that with one leading "www." removed. */
  lemma NormalForm(h: string)
    ensures NoUpper(NormalizeHost(h))
    ensures var s := Strip(Lower(h));
      (StartsWith(s, WwwPrefix) ==> s == WwwPrefix + NormalizeHost(h))
      && (!StartsWith(s, WwwPrefix) ==> s == NormalizeHost(h))
  {
    var s := Strip(Lower(h));
    assert NoUpper(Lower(h));
    StripKeepsNoUpper(Lower(h));
    if StartsWith(s, WwwPrefix) {
      assert s == s[..|WwwPrefix|] + s[|WwwPrefix|..];
    }
  }

  predicate NoUpper(s: string) {
    forall i :: 0 <= i < |s| ==> !IsUpper(s[i])
  }

  lemma StripKeepsNoUpper(s: string)
    requires NoUpper(s)
    ensures NoUpper(Strip(s))
  {
    var lead, trail := StripParts(s);
    var r := Strip(s);
    assert forall i :: 0 <= i < |r| ==> r[i] == s[|lead| + i];
  }

  /** The per-entry test of `host_matches`: equal, or a dot-separated suffix. */
  predicate DomainMatch(host: string, monitored: string) {
    host == monitored || EndsWith(host, "." + monitored)
  }

  /** The loop of `host_matches` over the monitored entries, with its early
      return, on an already normalised host. */
  function MatchesAny(monitored: seq<string>, host: string): bool
    decreases |monitored|
  {
    if monitored == [] then false
    else if DomainMatch(host, NormalizeHost(monitored[0])) then true
    else MatchesAny(monitored[1..], host)
  }

  /** The loop answers whether some entry's normal form matches. */
  lemma {:induction false} MatchesAnyIsSome(monitored: seq<string>, host: string)
    ensures MatchesAny(monitored, host) <==>
      exists i :: 0 <= i < |monitored| && DomainMatch(host, NormalizeHost(monitored[i]))
    decreases |monitored|
  {
    if monitored != [] {
      MatchesAnyIsSome(monitored[1..], host);
      assert forall i :: 1 <= i < |monitored| ==> monitored[i] == monitored[1..][i - 1];
    }
  }

  /** `host_matches(monitored, host)`. */
  function HostMatches(monitored: seq<string>, host: string): bool
  {
    MatchesAny(monitored, NormalizeHost(host))
  }

  /** A host is monitored exactly when its normal form is, or is a
      dot-separated subdomain of, the normal form of some monitored entry. */
  lemma HostMatchesSome(monitored: seq<string>, host: string)
    ensures HostMatches(monitored, host) <==>
      exists m :: m in monitored && DomainMatch(NormalizeHost(host), NormalizeHost(m))
  {
    MatchesAnyIsSome(monitored, NormalizeHost(host));
    if exists m :: m in monitored && DomainMatch(NormalizeHost(host), NormalizeHost(m)) {
      var m :| m in monitored && DomainMatch(NormalizeHost(host), NormalizeHost(m));
      var i :| 0 <= i < |monitored| && monitored[i] == m;
    }
  }

  /** Normalisation does not depend on letter case. */
  lemma NormalizeIgnoresCase(h: string)
    ensures NormalizeHost(Lower(h)) == NormalizeHost(h)
  {
    assert Lower(Lower(h)) == Lower(h);
  }

  /** Normalisation does not depend on surrounding whitespace. */
  lemma {:induction false} NormalizeIgnoresSurroundingSpace(w1: string, h: string, w2: string)
    requires AllSpace(w1) && AllSpace(w2)
    ensures NormalizeHost(w1 + h + w2) == NormalizeHost(h)
  {
    var l := Lower(h);
    var lw1, lw2 := Lower(w1), Lower(w2);
    assert Lower(w1 + h + w2) == lw1 + l + lw2;
    assert AllSpace(lw1) && AllSpace(lw2);
    var lead, trail := StripParts(l);
    StripEnds(l);
    assert lw1 + l + lw2 == (lw1 + lead) + Strip(l) + (trail + lw2);
    StripOfPadded(lw1 + lead, Strip(l), trail + lw2);
  }

  lemma LowerOfNoUpper(x: string)
    requires NoUpper(x)
    ensures Lower(x) == x
  {
  }

  lemma StripOfTrimmed(x: string)
    requires x == [] || (!IsSpace(x[0]) && !IsSpace(x[|x| - 1]))
    ensures Strip(x) == x
  {
    StripOfPadded([], x, []);
    assert [] + x + [] == x;
  }

  /** A host that is already lower-case, trimmed and free of a leading
      "www." is its own normal form. */
  lemma NormalIsFixed(x: string)
    requires NoUpper(x)
    requires x == [] || (!IsSpace(x[0]) && !IsSpace(x[|x| - 1]))
    requires !StartsWith(x, WwwPrefix)
    ensures NormalizeHost(x) == x
  {
    LowerOfNoUpper(x);
    StripOfTrimmed(x);
  }

  /** Exactly one leading "www." is removed: "www." before an already
      normalised host goes away. */
  lemma StripsOneWww(x: string)
    requires NoUpper(x)
    requires x == [] || (!IsSpace(x[0]) && !IsSpace(x[|x| - 1]))
    ensures NormalizeHost(WwwPrefix + x) == x
  {
    var s := WwwPrefix + x;
    assert NoUpper(s) by {
      assert forall i :: 0 <= i < |WwwPrefix| ==> s[i] == WwwPrefix[i];
      assert forall i :: |WwwPrefix| <= i < |s| ==> s[i] == x[i - |WwwPrefix|];
    }
    LowerOfNoUpper(s);
    StripOfTrimmed(s);
    assert s[..|WwwPrefix|] == WwwPrefix;
    assert s[|WwwPrefix|..] == x;
  }

  /** An empty monitored list matches nothing. */
  lemma EmptyListMatchesNothing(host: string)
    ensures !HostMatches([], host)
  {
    HostMatchesSome([], host);
  }

  /** With a single monitored entry, matching is the per-entry test on the
      two normal forms. */
  lemma SingleEntry(m: string, h: string)
    ensures HostMatches([m], h) <==> DomainMatch(NormalizeHost(h), NormalizeHost(m))
  {
    HostMatchesSome([m], h);
  }

  /** "notexample.com" ends in "example.com" but not in ".example.com". */
  lemma NotADotSuffix()
    ensures !DomainMatch("notexample.com", "example.com")
  {
    var h := "notexample.com";
    assert h[|h| - 12] != '.';
  }

  /** "api.example.com" ends in ".example.com". */
  lemma ADotSuffix()
    ensures DomainMatch("api.example.com", "example.com")
  {
    var a := "api.example.com";
    assert a[|a| - 12..] == ".example.com";
  }

  /** A host that only shares a textual tail with a monitored entry, without
      the separating dot, does not match it: "notexample.com" is not under
      "example.com". */
  lemma NoMatchWithoutDot()
    ensures !HostMatches(["example.com"], "notexample.com")
  {
    var h, m := "notexample.com", "example.com";
    assert !DomainMatch(NormalizeHost(h), NormalizeHost(m)) by {
      NormalIsFixed(h);
      NormalIsFixed(m);
      NotADotSuffix();
    }
    SingleEntry(m, h);
  }

  /** A monitored entry matches itself. */
  lemma SelfExample()
    ensures HostMatches(["example.com"], "example.com")
  {
    var m := "example.com";
    NormalIsFixed(m);
    SingleEntry(m, m);
  }

  lemma MatchFromNormalForms(m: string, h: string, nm: string, nh: string)
    requires NormalizeHost(m) == nm && NormalizeHost(h) == nh
    requires DomainMatch(nh, nm)
    ensures HostMatches([m], h)
  {
    SingleEntry(m, h);
  }

  /** A subdomain matches its monitored parent domain. */
  lemma SubdomainExample()
    ensures HostMatches(["example.com"], "api.example.com")
  {
    var m, a := "example.com", "api.example.com";
    NormalIsFixed(m);
    NormalIsFixed(a);
    ADotSuffix();
    MatchFromNormalForms(m, a, m, a);
  }

  /** "www.example.com" normalises to "example.com". */
  lemma WwwNormalizesAway()
    ensures NormalizeHost("www.example.com") == "example.com"
  {
    StripsOneWww("example.com");
    assert WwwPrefix + "example.com" == "www.example.com";
  }

  /** A "www." host matches the bare monitored domain. */
  lemma WwwExample()
    ensures HostMatches(["example.com"], "www.example.com")
  {
    WwwNormalizesAway();
    NormalIsFixed("example.com");
    MatchFromNormalForms("example.com", "www.example.com", "example.com", "example.com");
  }

  /** Only one "www." is removed. */
  lemma DoubleWwwExample()
    ensures NormalizeHost("www.www.example.com") == "www.example.com"
  {
    StripsOneWww("www.example.com");
    assert WwwPrefix + "www.example.com" == "www.www.example.com";
  }
}
