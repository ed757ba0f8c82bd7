/**
 * The meaning of the `*` operator, stated against the Repeat reference:
 * `a * n` is n successive matches of `a`.
 */
module OperatorLaws {
  import opened Basics
  import opened Patterns
  import opened PatternBuild
  import opened RepeatLaws

  /**
   * `a * n` with an int count: it succeeds iff the body matches `n` times in
   * succession, and then emits exactly those `n` outputs, concatenated, and
   * stops where the n-th repetition stopped.
   */
  lemma {:induction false} TimesRepeatsExactly(a: Pattern, n: int, lines: seq<string>, row: nat)
    requires Times(a, Exactly(n)).Ok?
    ensures var p := Times(a, Exactly(n)).value;
            var reach := Reach(MatcherOf(a, lines), row, n as nat);
            && (Parse(p, lines, row).Some? <==> reach.Some?)
            && (reach.Some? ==> Parse(p, lines, row) == Some(Parsed(Concat(reach.value.parts), reach.value.row)))
  {
    assert Times(a, Exactly(n)).value == Repeat(a, n as nat, Some(n as nat), None, Keep);
    ExactRepeatConcatenates(a, n as nat, lines, row);
  }
}
