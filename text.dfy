/** The pieces of Python's `str` that the watcher relies on: ASCII case
    mapping, `strip()`, `startswith`/`endswith`, `sep.join(...)`,
    `split("\n")` and the decimal rendering of a non-negative `int`.
    Only the ASCII range is modelled (see README, "Left out"). */
module Text {

  /** `c.isspace()` for ASCII: tab, newline, vertical tab, form feed,
      carriage return, the four separators 0x1C-0x1F and space. */
  predicate IsSpace(c: char) {
    9 <= c as int <= 13 || 28 <= c as int <= 32
  }

  predicate IsUpper(c: char) { 'A' <= c <= 'Z' }

  predicate IsLower(c: char) { 'a' <= c <= 'z' }

  predicate AllSpace(s: string) {
    forall i :: 0 <= i < |s| ==> IsSpace(s[i])
  }

  function LowerChar(c: char): (d: char)
    ensures !IsUpper(d)
    ensures IsSpace(d) <==> IsSpace(c)
  {
    if IsUpper(c) then (c as int + 32) as char else c
  }

  function UpperChar(c: char): (d: char)
    ensures !IsLower(d)
    ensures IsSpace(d) <==> IsSpace(c)
  {
    if IsLower(c) then (c as int - 32) as char else c
  }

  /** `s.lower()` restricted to ASCII letters. */
  function Lower(s: string): string {
    seq(|s|, i requires 0 <= i < |s| => LowerChar(s[i]))
  }

  /** `s.upper()` restricted to ASCII letters. */
  function Upper(s: string): string {
    seq(|s|, i requires 0 <= i < |s| => UpperChar(s[i]))
  }

  /** `s.strip()`: `s` with its leading and trailing whitespace removed.
      What that means is stated by the three lemmas below. */
  function Strip(s: string): string
    decreases |s|
  {
    if s != [] && IsSpace(s[0]) then Strip(s[1..])
    else if s != [] && IsSpace(s[|s| - 1]) then Strip(s[..|s| - 1])
    else s
  }

  /** The stripped string neither starts nor ends with whitespace, and it is
      empty exactly when `s` is all whitespace. */
  lemma {:induction false} StripEnds(s: string)
    ensures var r := Strip(s); r == [] || (!IsSpace(r[0]) && !IsSpace(r[|r| - 1]))
    ensures Strip(s) == [] <==> AllSpace(s)
    decreases |s|
  {
    if s != [] && IsSpace(s[0]) {
      StripEnds(s[1..]);
      assert AllSpace(s[1..]) ==> AllSpace(s) by {
        assert forall j :: 1 <= j < |s| ==> s[j] == s[1..][j - 1];
      }
    } else if s != [] && IsSpace(s[|s| - 1]) {
      StripEnds(s[..|s| - 1]);
      assert !AllSpace(s) by { assert !IsSpace(s[0]); }
      assert !AllSpace(s[..|s| - 1]) by { assert !IsSpace(s[..|s| - 1][0]); }
    } else if s != [] {
      assert !AllSpace(s) by { assert !IsSpace(s[0]); }
    }
  }

  /** `s` is its stripped content between two runs of whitespace. */
  lemma {:induction false} StripParts(s: string) returns (lead: string, trail: string)
    ensures s == lead + Strip(s) + trail
    ensures AllSpace(lead) && AllSpace(trail)
    decreases |s|
  {
    if s != [] && IsSpace(s[0]) {
      var l, t := StripParts(s[1..]);
      lead, trail := [s[0]] + l, t;
      PadFront(s[0], s[1..], l, Strip(s[1..]), t);
    } else if s != [] && IsSpace(s[|s| - 1]) {
      var l, t := StripParts(s[..|s| - 1]);
      lead, trail := l, t + [s[|s| - 1]];
      PadBack(s[..|s| - 1], s[|s| - 1], l, Strip(s[..|s| - 1]), t);
    } else {
      lead, trail := [], [];
      assert s == [] + s + [];
    }
  }

  lemma PadFront(c: char, s: string, l: string, m: string, t: string)
    requires s == l + m + t && IsSpace(c) && AllSpace(l)
    ensures [c] + s == ([c] + l) + m + t && AllSpace([c] + l)
  {
    assert [c] + (l + m + t) == ([c] + l) + m + t;
  }

  lemma PadBack(s: string, c: char, l: string, m: string, t: string)
    requires s == l + m + t && IsSpace(c) && AllSpace(t)
    ensures s + [c] == l + m + (t + [c]) && AllSpace(t + [c])
  {
    assert (l + m + t) + [c] == l + m + (t + [c]);
  }

  /** Stripping a string padded with whitespace on both sides gives back the
      padded content, provided it neither starts nor ends with whitespace. */
  lemma StripOfPadded(lead: string, r: string, trail: string)
    requires AllSpace(lead) && AllSpace(trail)
    requires r == [] || (!IsSpace(r[0]) && !IsSpace(r[|r| - 1]))
    ensures Strip(lead + r + trail) == r
  {
    assert lead + r + trail == lead + (r + trail);
    StripLeading(lead, r + trail);
    StripTrailing(r, trail);
  }

  /** Leading whitespace does not matter. */
  lemma {:induction false} StripLeading(lead: string, x: string)
    requires AllSpace(lead)
    ensures Strip(lead + x) == Strip(x)
    decreases |lead|
  {
    if lead != [] {
      assert (lead + x)[0] == lead[0] && IsSpace(lead[0]);
      assert (lead + x)[1..] == lead[1..] + x;
      StripLeading(lead[1..], x);
    } else {
      assert lead + x == x;
    }
  }

  /** Trailing whitespace does not matter after a string that does not start
      with whitespace. */
  lemma {:induction false} StripTrailing(x: string, trail: string)
    requires AllSpace(trail)
    requires x == [] || !IsSpace(x[0])
    ensures Strip(x + trail) == Strip(x)
    decreases |trail|
  {
    if x == [] {
      assert x + trail == trail + [];
      StripLeading(trail, []);
    } else if trail != [] {
      var s := x + trail;
      assert s[0] == x[0];
      assert s[|s| - 1] == trail[|trail| - 1] && IsSpace(trail[|trail| - 1]);
      assert s[..|s| - 1] == x + trail[..|trail| - 1];
      StripTrailing(x, trail[..|trail| - 1]);
    } else {
      assert x + trail == x;
    }
  }

  predicate StartsWith(s: string, prefix: string) {
    |prefix| <= |s| && s[..|prefix|] == prefix
  }

  predicate EndsWith(s: string, suffix: string) {
    |suffix| <= |s| && s[|s| - |suffix|..] == suffix
  }

  /** `sep.join(parts)`. */
  function Join(parts: seq<string>, sep: string): string
    decreases |parts|
  {
    if |parts| == 0 then ""
    else if |parts| == 1 then parts[0]
    else parts[0] + sep + Join(parts[1..], sep)
  }

  /** Index of the first `c` in `s`, or `|s|` when there is none. */
  function Find(s: string, c: char): (i: nat)
    ensures i <= |s|
    ensures forall j :: 0 <= j < i ==> s[j] != c
    ensures i < |s| ==> s[i] == c
    decreases |s|
  {
    if s == [] then 0
    else if s[0] == c then 0
    else 1 + Find(s[1..], c)
  }

  /** `s.split(c)` for a one-character separator: never empty, and an
      empty string splits into one empty piece. */
  function Split(s: string, c: char): (parts: seq<string>)
    ensures |parts| >= 1
    decreases |s|
  {
    var i := Find(s, c);
    if i == |s| then [s] else [s[..i]] + Split(s[i + 1..], c)
  }

  /** Splitting a join on a separator that no part contains gives the parts back. */
  lemma {:induction false} SplitJoin(parts: seq<string>, c: char)
    requires |parts| >= 1
    requires forall k :: 0 <= k < |parts| ==> c !in parts[k]
    ensures Split(Join(parts, [c]), c) == parts
    decreases |parts|
  {
    if |parts| == 1 {
      assert Find(parts[0], c) == |parts[0]|;
    } else {
      var s := Join(parts, [c]);
      var rest := Join(parts[1..], [c]);
      assert s == parts[0] + [c] + rest;
      var i := Find(s, c);
      assert forall j :: 0 <= j < |parts[0]| ==> s[j] == parts[0][j];
      assert s[|parts[0]|] == c;
      assert i == |parts[0]|;
      assert s[..i] == parts[0];
      assert s[i + 1..] == rest;
      SplitJoin(parts[1..], c);
    }
  }

  function DigitChar(d: nat): (c: char)
    requires d < 10
    ensures '0' <= c <= '9'
  {
    "0123456789"[d]
  }

  /** `str(n)` for a non-negative `int`: its decimal digits, no leading zero. */
  function NatToString(n: nat): (r: string)
    ensures |r| >= 1
    ensures forall i :: 0 <= i < |r| ==> '0' <= r[i] <= '9'
    ensures |r| > 1 ==> r[0] != '0'
    decreases n
  {
    if n < 10 then [DigitChar(n)] else NatToString(n / 10) + [DigitChar(n % 10)]
  }
}
