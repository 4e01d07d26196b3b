/**
 * String operations the dashboard relies on, restricted to ASCII where the
 * source's operations are Unicode-aware: lower-casing (Python `str.lower`,
 * JavaScript `toLowerCase`), Python `str.strip()`, prefix tests and
 * JavaScript's first-occurrence `String.prototype.replace`.
 */
module Text {

  function LowerChar(c: char): char {
    if 'A' <= c <= 'Z' then (c as int + 32) as char else c
  }

  /** ASCII lower-casing, character by character. */
  function Lower(s: string): (r: string)
    ensures |r| == |s|
    ensures forall i :: 0 <= i < |s| ==> r[i] == LowerChar(s[i])
  {
    seq(|s|, i requires 0 <= i < |s| => LowerChar(s[i]))
  }

  lemma LowerIdempotent(s: string)
    ensures Lower(Lower(s)) == Lower(s)
  {
  }

  lemma LowerSlice(s: string, i: nat, j: nat)
    requires i <= j <= |s|
    ensures Lower(s[i..j]) == Lower(s)[i..j]
  {
  }

  /** The ASCII characters Python's `str.isspace` accepts. */
  predicate IsSpace(c: char) {
    c == ' ' || '\t' <= c <= '\r' || '\U{1c}' <= c <= '\U{1f}'
  }

  /** Python `str.strip()` with no argument, over ASCII whitespace. */
  function Strip(s: string): (r: string)
    ensures |r| <= |s|
    ensures |r| > 0 ==> !IsSpace(r[0]) && !IsSpace(r[|r| - 1])
  {
    var t := s[Leading(s)..];
    var k := Trailing(t);
    assert k > 0 ==> t[..k][0] == t[0];
    t[..k]
  }

  /** Number of leading whitespace characters. */
  function Leading(s: string): (k: nat)
    ensures k <= |s|
    ensures forall i :: 0 <= i < k ==> IsSpace(s[i])
    ensures k < |s| ==> !IsSpace(s[k])
  {
    if |s| > 0 && IsSpace(s[0]) then 1 + Leading(s[1..]) else 0
  }

  /** Length of `s` once its trailing whitespace is dropped. */
  function Trailing(s: string): (k: nat)
    ensures k <= |s|
    ensures forall i :: k <= i < |s| ==> IsSpace(s[i])
    ensures k > 0 ==> !IsSpace(s[k - 1])
  {
    if |s| > 0 && IsSpace(s[|s| - 1]) then Trailing(s[..|s| - 1]) else |s|
  }

  /** Stripping keeps a slice that neither starts nor ends with whitespace. */
  lemma StripShape(s: string)
    ensures Strip(s) == s[Leading(s)..Leading(s) + Trailing(s[Leading(s)..])]
    ensures |Strip(s)| > 0 ==> !IsSpace(Strip(s)[0]) && !IsSpace(Strip(s)[|Strip(s)| - 1])
  {
  }

  /** A string that starts and ends with a non-space character is its own stripping. */
  lemma StripNoop(s: string)
    requires |s| > 0 ==> !IsSpace(s[0]) && !IsSpace(s[|s| - 1])
    ensures Strip(s) == s
  {
  }

  lemma StripIdempotent(s: string)
    ensures Strip(Strip(s)) == Strip(s)
  {
    StripNoop(Strip(s));
  }

  /** Lower-casing then trimming a key a second time changes nothing. */
  lemma LowerStripIdempotent(s: string)
    ensures Strip(Lower(Strip(Lower(s)))) == Strip(Lower(s))
  {
    var t := Lower(s);
    var u := Strip(t);
    assert Lower(u) == u by {
      StripShape(t);
      var i := Leading(t);
      LowerSlice(t, i, i + Trailing(t[i..]));
      LowerIdempotent(s);
    }
    StripNoop(u);
  }

  predicate HasPrefix(s: string, p: string) {
    |p| <= |s| && s[..|p|] == p
  }

  /**
   * JavaScript `s.replace(pat, rep)` with a string pattern: the first
   * occurrence of `pat`, if any, is replaced; an empty pattern matches at 0.
   */
  function ReplaceFirst(s: string, pat: string, rep: string): string
    decreases |s|
  {
    if HasPrefix(s, pat) then rep + s[|pat|..]
    else if |s| == 0 then s
    else [s[0]] + ReplaceFirst(s[1..], pat, rep)
  }

  /** Removing a leading occurrence of `pat` leaves the rest. */
  lemma ReplaceLeading(pat: string, rest: string)
    ensures ReplaceFirst(pat + rest, pat, "") == rest
  {
    assert HasPrefix(pat + rest, pat);
    assert (pat + rest)[|pat|..] == rest;
  }
}
