/**
 * The status patterns, matched against the lower-cased status text:
 * `by.pass|bypass` marks a bypassed caliper, `sem vazamento|pendente` one
 * still on its original seals, and their union a problem machine.
 */
module StatusRules {
  import opened Text
  import opened Patterns

  /** `by.pass`: the dot stands for any character but a line feed. */
  const DottedBypass: Pattern :=
    [Lit('b'), Lit('y'), AnyButNewline, Lit('p'), Lit('a'), Lit('s'), Lit('s')]

  const BypassAlternatives: seq<Pattern> := [DottedBypass, Literal("bypass")]
  const NoLeakAlternatives: seq<Pattern> := [Literal("sem vazamento"), Literal("pendente")]
  const ProblemAlternatives: seq<Pattern> := BypassAlternatives + NoLeakAlternatives

  predicate IsBypass(status: string) {
    SearchAny(Lower(status), BypassAlternatives)
  }

  predicate IsNoLeak(status: string) {
    SearchAny(Lower(status), NoLeakAlternatives)
  }

  /** The pattern `by.pass|bypass|sem vazamento|pendente`. */
  predicate IsProblem(status: string) {
    SearchAny(Lower(status), ProblemAlternatives)
  }

  /** The four-way pattern is exactly the union of the bypass and the no-leak patterns. */
  lemma ProblemSplits(status: string)
    ensures IsProblem(status) <==> IsBypass(status) || IsNoLeak(status)
  {
    SearchAnyAppend(Lower(status), BypassAlternatives, NoLeakAlternatives);
  }

  /** Any status whose lower-cased text contains "by-pass" is a bypass (the dot matches the hyphen). */
  lemma HyphenatedIsBypass(status: string, i: nat)
    requires SliceAt(Lower(status), "by-pass", i)
    ensures IsBypass(status) && IsProblem(status)
  {
    var t := Lower(status);
    assert MatchesAt(t, DottedBypass, i) by {
      forall j | 0 <= j < 7
        ensures AtomMatches(DottedBypass[j], t[i + j])
      {
        assert t[i..i + 7][j] == t[i + j];
      }
    }
    SearchIff(t, DottedBypass);
    ProblemSplits(status);
  }

  /** Case does not matter: a status and its lower-cased form fall in the same classes. */
  lemma CaseInsensitive(status: string)
    ensures IsBypass(Lower(status)) == IsBypass(status)
    ensures IsNoLeak(Lower(status)) == IsNoLeak(status)
    ensures IsProblem(Lower(status)) == IsProblem(status)
  {
    LowerIdempotent(status);
  }

  /** A status whose lower-cased text starts with a plain alternative of the pattern matches that alternative. */
  lemma StartsWith(status: string, t: string)
    requires |t| <= |status| && Lower(status)[0..|t|] == t
    ensures Search(Lower(status), Literal(t))
  {
    LiteralMatchesAt(Lower(status), t, 0);
    SearchIff(Lower(status), Literal(t));
  }

  /** Both documented bypass spellings are bypasses. */
  lemma BypassExamples()
    ensures IsBypass("By-Passado") && IsBypass("Bypassado")
  {
    assert Lower("By-Passado")[0..7] == "by-pass";
    HyphenatedIsBypass("By-Passado", 0);
    assert Lower("Bypassado")[0..6] == "bypass";
    StartsWith("Bypassado", "bypass");
  }

  /** Both documented pending spellings are no-leak statuses. */
  lemma NoLeakExamples()
    ensures IsNoLeak("Sem vazamento") && IsNoLeak("Pendente")
  {
    assert Lower("Sem vazamento")[0..13] == "sem vazamento";
    StartsWith("Sem vazamento", "sem vazamento");
    assert Lower("Pendente")[0..8] == "pendente";
    StartsWith("Pendente", "pendente");
  }

  /** Text containing none of 'b', 's', 'p' matches no alternative. */
  lemma NoProblemLetters(status: string)
    requires 'b' !in Lower(status) && 's' !in Lower(status) && 'p' !in Lower(status)
    ensures !IsProblem(status)
  {
    var t := Lower(status);
    AbsentFirstAtom(t, DottedBypass);
    AbsentFirstChar(t, "bypass");
    AbsentFirstChar(t, "sem vazamento");
    AbsentFirstChar(t, "pendente");
    var alts := ProblemAlternatives;
    assert alts == [DottedBypass, Literal("bypass"), Literal("sem vazamento"), Literal("pendente")];
    SearchAnyIff(t, alts);
  }

  /** The filled-in default status, and an empty one, are no problem. */
  lemma DefaultNotProblem()
    ensures !IsProblem("Não Informado") && !IsProblem("")
  {
    assert Lower("Não Informado") == "não informado";
    NoProblemLetters("Não Informado");
    NoProblemLetters("");
  }
}
