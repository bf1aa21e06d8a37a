/**
 * The few operations of Rust's `str` that the annotation splitter relies on:
 * `trim`, `starts_with` and `trim_start_matches`. Strings are sequences of
 * characters; whitespace is Rust's `char::is_whitespace`, i.e. the Unicode
 * White_Space property.
 */
module Str {

  /** Rust's `char::is_whitespace`: the code points with the Unicode White_Space property. */
  predicate IsWhitespace(c: char) {
    var n := c as int;
    (0x09 <= n <= 0x0D) || n == 0x20 || n == 0x85 || n == 0xA0 || n == 0x1680 ||
    (0x2000 <= n <= 0x200A) || n == 0x2028 || n == 0x2029 || n == 0x202F ||
    n == 0x205F || n == 0x3000
  }

  predicate AllWhitespace(s: string) {
    forall i :: 0 <= i < |s| ==> IsWhitespace(s[i])
  }

  predicate StartsWith(s: string, prefix: string) {
    |prefix| <= |s| && s[..|prefix|] == prefix
  }

  predicate EndsWith(s: string, c: char) {
    |s| > 0 && s[|s| - 1] == c
  }

  /** `str::trim_start`: drops the leading whitespace and nothing else. */
  function TrimStart(s: string): (r: string)
    ensures |r| <= |s| && r == s[|s| - |r|..]
    ensures AllWhitespace(s[..|s| - |r|])
    ensures r == [] || !IsWhitespace(r[0])
  {
    if |s| > 0 && IsWhitespace(s[0]) then
      var r := TrimStart(s[1..]);
      assert s[..|s| - |r|] == [s[0]] + s[1..][..|s[1..]| - |r|];
      r
    else
      s
  }

  /** `str::trim_end`: drops the trailing whitespace and nothing else. */
  function TrimEnd(s: string): (r: string)
    ensures |r| <= |s| && r == s[..|r|]
    ensures AllWhitespace(s[|r|..])
    ensures r == [] || !IsWhitespace(r[|r| - 1])
  {
    if |s| > 0 && IsWhitespace(s[|s| - 1]) then
      var r := TrimEnd(s[..|s| - 1]);
      assert s[|r|..] == s[..|s| - 1][|r|..] + [s[|s| - 1]];
      r
    else
      s
  }

  /** `r` sits in `s` at offset `k`, with only whitespace before and after it. */
  predicate SurroundedAt(s: string, r: string, k: int) {
    0 <= k <= |s| - |r| && s[k..k + |r|] == r &&
    AllWhitespace(s[..k]) && AllWhitespace(s[k + |r|..])
  }

  /**
   * `str::trim`: the result is a part of `s` with only whitespace before and
   * after it, and it neither starts nor ends with whitespace.
   */
  function Trim(s: string): (r: string)
    ensures exists k :: SurroundedAt(s, r, k)
    ensures r == [] || (!IsWhitespace(r[0]) && !IsWhitespace(r[|r| - 1]))
  {
    var t := TrimStart(s);
    var r := TrimEnd(t);
    Sandwich(s, t, r);
    r
  }

  /** Dropping a whitespace run from the front and then one from the back of what remains. */
  lemma Sandwich(s: string, t: string, r: string)
    requires |t| <= |s| && t == s[|s| - |t|..] && AllWhitespace(s[..|s| - |t|])
    requires t == [] || !IsWhitespace(t[0])
    requires |r| <= |t| && r == t[..|r|] && AllWhitespace(t[|r|..])
    requires r == [] || !IsWhitespace(r[|r| - 1])
    ensures SurroundedAt(s, r, |s| - |t|)
    ensures r == [] || (!IsWhitespace(r[0]) && !IsWhitespace(r[|r| - 1]))
  {
    var k := |s| - |t|;
    assert s[k + |r|..] == t[|r|..];
    assert r == [] || r[0] == t[0];
  }

  lemma {:induction false} TrimStartOf(lead: string, rest: string)
    requires AllWhitespace(lead)
    requires rest == [] || !IsWhitespace(rest[0])
    ensures TrimStart(lead + rest) == rest
    decreases |lead|
  {
    if lead == [] {
      assert lead + rest == rest;
    } else {
      assert (lead + rest)[1..] == lead[1..] + rest;
      TrimStartOf(lead[1..], rest);
    }
  }

  lemma {:induction false} TrimEndOf(rest: string, trail: string)
    requires AllWhitespace(trail)
    requires rest == [] || !IsWhitespace(rest[|rest| - 1])
    ensures TrimEnd(rest + trail) == rest
    decreases |trail|
  {
    if trail == [] {
      assert rest + trail == rest;
    } else {
      assert (rest + trail)[..|rest + trail| - 1] == rest + trail[..|trail| - 1];
      TrimEndOf(rest, trail[..|trail| - 1]);
    }
  }

  /**
   * `trim` is determined by its contract: text that neither starts nor ends
   * with whitespace, surrounded by runs of whitespace, trims to itself.
   */
  lemma TrimOf(lead: string, core: string, trail: string)
    requires AllWhitespace(lead) && AllWhitespace(trail)
    requires core == [] || (!IsWhitespace(core[0]) && !IsWhitespace(core[|core| - 1]))
    ensures Trim(lead + core + trail) == core
  {
    if core == [] {
      assert lead + core + trail == lead + trail;
      assert AllWhitespace(lead + trail);
      TrimStartOf(lead + trail, []);
      assert lead + trail + [] == lead + trail;
    } else {
      assert lead + core + trail == lead + (core + trail);
      TrimStartOf(lead, core + trail);
      TrimEndOf(core, trail);
    }
  }

  /** `t` is zero or more copies of `p` laid end to end. */
  predicate IsRepetition(t: string, p: string)
    requires |p| > 0
    decreases |t|
  {
    t == [] || (StartsWith(t, p) && IsRepetition(t[|p|..], p))
  }

  /**
   * `str::trim_start_matches` with a string pattern: removes every leading copy
   * of `p`, so that what remains no longer starts with `p`. An empty pattern
   * removes nothing.
   */
  function TrimStartMatches(s: string, p: string): (r: string)
    ensures |r| <= |s| && r == s[|s| - |r|..]
    ensures |p| > 0 ==> !StartsWith(r, p) && IsRepetition(s[..|s| - |r|], p)
    ensures |p| == 0 ==> r == s
    decreases |s|
  {
    if |p| > 0 && StartsWith(s, p) then
      var r := TrimStartMatches(s[|p|..], p);
      ghost var cut := s[..|s| - |r|];
      assert cut[..|p|] == p;
      assert cut[|p|..] == s[|p|..][..|s[|p|..]| - |r|];
      r
    else
      s
  }

  /** One copy of `p` in front of a rest that does not start with `p` is stripped to exactly that rest. */
  lemma StripsOneMarker(p: string, rest: string)
    requires |p| > 0 && !StartsWith(rest, p)
    ensures TrimStartMatches(p + rest, p) == rest
  {
    assert (p + rest)[..|p|] == p;
    assert (p + rest)[|p|..] == rest;
  }
}
