/**
 * The fragment of regular expressions the status rules use: alternatives of
 * fixed-length sequences of literal characters and `.` (any character except
 * a line feed), searched anywhere in the subject, as Python's `re.search`
 * (behind pandas `str.contains(..., regex=True)`) and JavaScript's
 * `String.prototype.includes` do.
 */
module Patterns {

  datatype Atom = Lit(c: char) | AnyButNewline

  type Pattern = seq<Atom>

  predicate AtomMatches(a: Atom, c: char) {
    match a
    case Lit(x) => c == x
    case AnyButNewline => c != '\n'
  }

  /** The pattern of a plain string: every character literal. */
  function Literal(s: string): (p: Pattern)
    ensures |p| == |s|
    ensures forall i :: 0 <= i < |s| ==> p[i] == Lit(s[i])
  {
    seq(|s|, i requires 0 <= i < |s| => Lit(s[i]))
  }

  /** Reference definition: `p` matches the characters of `s` starting at `i`. */
  predicate MatchesAt(s: string, p: Pattern, i: nat) {
    i + |p| <= |s| && forall j :: 0 <= j < |p| ==> AtomMatches(p[j], s[i + j])
  }

  /** `p` matches somewhere in `s`. */
  ghost predicate Occurs(s: string, p: Pattern) {
    exists i: nat :: i <= |s| && MatchesAt(s, p, i)
  }

  /** Left-to-right search, the executable counterpart of `Occurs`. */
  function Search(s: string, p: Pattern): bool
    decreases |s|
  {
    if MatchesAt(s, p, 0) then true
    else if |s| == 0 then false
    else Search(s[1..], p)
  }

  lemma MatchesAtShift(s: string, p: Pattern, i: nat)
    requires |s| > 0
    ensures MatchesAt(s[1..], p, i) <==> MatchesAt(s, p, i + 1)
  {
    if MatchesAt(s, p, i + 1) {
      forall j | 0 <= j < |p|
        ensures AtomMatches(p[j], s[1..][i + j])
      {
        assert s[1..][i + j] == s[i + 1 + j];
      }
    }
    if MatchesAt(s[1..], p, i) {
      forall j | 0 <= j < |p|
        ensures AtomMatches(p[j], s[i + 1 + j])
      {
        assert s[1..][i + j] == s[i + 1 + j];
      }
    }
  }

  /** The search finds a match exactly when the pattern occurs. */
  lemma {:induction false} SearchIff(s: string, p: Pattern)
    ensures Search(s, p) <==> Occurs(s, p)
    decreases |s|
  {
    if MatchesAt(s, p, 0) {
    } else if |s| == 0 {
    } else {
      SearchIff(s[1..], p);
      if Occurs(s, p) {
        var i: nat :| i <= |s| && MatchesAt(s, p, i);
        assert i != 0;
        MatchesAtShift(s, p, i - 1);
        assert MatchesAt(s[1..], p, i - 1);
      }
      if Occurs(s[1..], p) {
        var i: nat :| i <= |s[1..]| && MatchesAt(s[1..], p, i);
        MatchesAtShift(s, p, i);
        assert MatchesAt(s, p, i + 1);
      }
    }
  }

  /** A literal pattern matches at `i` exactly when the slice there equals the string. */
  lemma LiteralMatchesAt(s: string, t: string, i: nat)
    requires i + |t| <= |s|
    ensures MatchesAt(s, Literal(t), i) <==> s[i..i + |t|] == t
  {
    var sl := s[i..i + |t|];
    assert forall j :: 0 <= j < |t| ==> sl[j] == s[i + j];
  }

  /** `t` sits in `s` at position `i`. */
  predicate SliceAt(s: string, t: string, i: nat) {
    i + |t| <= |s| && s[i..i + |t|] == t
  }

  /** Searching for a plain string is substring containment (`includes`). */
  lemma LiteralSearchIff(s: string, t: string)
    ensures Search(s, Literal(t)) <==> exists i: nat :: SliceAt(s, t, i)
  {
    SearchIff(s, Literal(t));
    if Search(s, Literal(t)) {
      var i: nat :| i <= |s| && MatchesAt(s, Literal(t), i);
      LiteralMatchesAt(s, t, i);
      assert SliceAt(s, t, i);
    }
    if exists i: nat :: SliceAt(s, t, i) {
      var i: nat :| SliceAt(s, t, i);
      LiteralMatchesAt(s, t, i);
      assert MatchesAt(s, Literal(t), i);
    }
  }

  /** A pattern opening with a literal character absent from `s` never matches in it. */
  lemma AbsentFirstAtom(s: string, p: Pattern)
    requires |p| > 0 && p[0].Lit? && p[0].c !in s
    ensures !Search(s, p)
  {
    SearchIff(s, p);
    forall i: nat | i <= |s|
      ensures !MatchesAt(s, p, i)
    {
      if i < |s| {
        assert !AtomMatches(p[0], s[i + 0]);
      }
    }
  }

  /** A pattern needing at offset `j` a literal character absent from `s` never matches in it. */
  lemma AbsentAtom(s: string, p: Pattern, j: nat)
    requires j < |p| && p[j].Lit? && p[j].c !in s
    ensures !Search(s, p)
  {
    SearchIff(s, p);
    forall i: nat | i <= |s|
      ensures !MatchesAt(s, p, i)
    {
      if i + |p| <= |s| {
        assert !AtomMatches(p[j], s[i + j]);
      }
    }
  }

  /** A string whose first character does not occur in `s` is not contained in it. */
  lemma AbsentFirstChar(s: string, t: string)
    requires |t| > 0 && t[0] !in s
    ensures !Search(s, Literal(t))
  {
    AbsentFirstAtom(s, Literal(t));
  }

  /** An alternation `p1|p2|...` matches when one of its alternatives does. */
  function SearchAny(s: string, alts: seq<Pattern>): bool
  {
    if |alts| == 0 then false
    else Search(s, alts[0]) || SearchAny(s, alts[1..])
  }

  lemma {:induction false} SearchAnyIff(s: string, alts: seq<Pattern>)
    ensures SearchAny(s, alts) <==> exists k :: 0 <= k < |alts| && Search(s, alts[k])
  {
    if |alts| > 0 {
      SearchAnyIff(s, alts[1..]);
      assert forall k :: 1 <= k < |alts| ==> alts[1..][k - 1] == alts[k];
    }
  }

  /** Splitting an alternation into two groups splits the match. */
  lemma {:induction false} SearchAnyAppend(s: string, a: seq<Pattern>, b: seq<Pattern>)
    ensures SearchAny(s, a + b) == (SearchAny(s, a) || SearchAny(s, b))
  {
    if |a| > 0 {
      assert (a + b)[1..] == a[1..] + b;
      SearchAnyAppend(s, a[1..], b);
    } else {
      assert a + b == b;
    }
  }
}
