/**
 * The repository's unit-test vectors, and one error case, worked through the
 * model: each lemma fixes a pattern and a line sequence and states the
 * outcome the tests expect.
 */
module Scenarios {
  import opened Basics
  import opened Patterns
  import opened PatternBuild
  import opened Substitution
  import opened Splitting
  import opened RepeatLaws

  /** `re.match(";", line)`: a `;` at the start of the line. */
  function Semicolon(line: string): Option<RegexMatch>
  {
    if |line| >= 1 && line[0] == ';' then Some(RegexMatch([Some(";")])) else None
  }

  /** A literal matches the equal line and nothing past it. */
  lemma LiteralScenario()
    ensures Parse(T("hello", None), ["hello", "world"], 0) == Some(Parsed([Str("hello")], 1))
    ensures Parse(T("hello", None), ["hello", "world"], 1) == None
  {
  }

  /** `Sequence(T("int"), T("a"), T(";"))` matches three lines and fails past them. */
  lemma SequenceScenario()
    ensures var p := MakeSequence([Sub(T("int", None)), Sub(T("a", None)), Sub(T(";", None))], None, None);
            && p.Ok?
            && Parse(p.value, ["int", "a", ";", "b"], 0) == Some(Parsed([Str("int"), Str("a"), Str(";")], 3))
            && Parse(p.value, ["int", "a", ";", "b"], 3) == None
  {
    var contents := [Sub(T("int", None)), Sub(T("a", None)), Sub(T(";", None))];
    assert FlattenSequence(contents) == contents;
    assert MakeSequence(contents, None, None) == Ok(Sequence(contents, Keep));
    ThreeChildren();
  }

  /** The children of that Sequence, threaded through the lines. */
  lemma ThreeChildren()
    ensures var contents := [Sub(T("int", None)), Sub(T("a", None)), Sub(T(";", None))];
            && Parse(Sequence(contents, Keep), ["int", "a", ";", "b"], 0) == Some(Parsed([Str("int"), Str("a"), Str(";")], 3))
            && Parse(Sequence(contents, Keep), ["int", "a", ";", "b"], 3) == None
  {
    var contents := [Sub(T("int", None)), Sub(T("a", None)), Sub(T(";", None))];
    var lines := ["int", "a", ";", "b"];
    assert contents[1..] == [Sub(T("a", None)), Sub(T(";", None))];
    assert contents[1..][1..] == [Sub(T(";", None))];
    assert contents[1..][1..][1..] == [];
    assert [Str(";")] + [] == [Str(";")];
    assert ParseSeq(contents[1..][1..], lines, 2) == Some(Parsed([Str(";")], 3));
    assert [Str("a")] + [Str(";")] == [Str("a"), Str(";")];
    assert ParseSeq(contents[1..], lines, 1) == Some(Parsed([Str("a"), Str(";")], 3));
    assert [Str("int")] + [Str("a"), Str(";")] == [Str("int"), Str("a"), Str(";")];
  }

  /** `Choice(T("int"), T("double"))` takes the first alternative that matches. */
  lemma ChoiceScenario()
    ensures var p := MakeChoice([T("int", None), T("double", None)]);
            && Parse(p, ["int", "double", "float"], 0) == Some(Parsed([Str("int")], 1))
            && Parse(p, ["int", "double", "float"], 1) == Some(Parsed([Str("double")], 2))
            && Parse(p, ["int", "double", "float"], 2) == None
  {
    var alternatives := [T("int", None), T("double", None)];
    var lines := ["int", "double", "float"];
    assert FlattenChoice(alternatives) == alternatives;
    assert alternatives[1..][1..] == [];
  }

  /** `Repeat(T("int"), count=3)` takes exactly three lines. */
  lemma RepeatScenario()
    ensures var p := MakeRepeat(T("int", None), Exactly(3), None, None, None);
            && p == Ok(Repeat(T("int", None), 3, Some(3), None, Keep))
            && Parse(p.value, ["int", "int", "int", "double"], 0) == Some(Parsed([Str("int"), Str("int"), Str("int")], 3))
            && Parse(p.value, ["int", "int", "int", "double"], 3) == None
  {
    var body := T("int", None);
    var lines := ["int", "int", "int", "double"];
    ThreeRepetitions(None);
    assert SepItems(None) == [];
    assert [Str("int")] + [] + [Str("int")] + [] + [Str("int")] == [Str("int"), Str("int"), Str("int")];
    RepeatLoopStops(body, 3, Some(3), None, lines, Run(0, 3, []));
  }

  /** `Repeat(T("int"), count=(1, 3), sep=";")` puts the separator between repetitions only. */
  lemma RepeatWithSeparatorScenario()
    ensures var p := MakeRepeat(T("int", None), Between(1, Some(3)), None, None, Some(";"));
            && p == Ok(Repeat(T("int", None), 1, Some(3), Some(";"), Keep))
            && Parse(p.value, ["int", "int", "int", "double"], 0)
               == Some(Parsed([Str("int"), Str(";"), Str("int"), Str(";"), Str("int")], 3))
            && Parse(p.value, ["int", "int", "int", "double"], 3) == None
  {
    var body := T("int", None);
    var lines := ["int", "int", "int", "double"];
    ThreeRepetitions(Some(";"));
    assert SepItems(Some(";")) == [Str(";")];
    assert [Str("int")] + [Str(";")] + [Str("int")] + [Str(";")] + [Str("int")]
           == [Str("int"), Str(";"), Str("int"), Str(";"), Str("int")];
    RepeatLoopStops(body, 1, Some(3), Some(";"), lines, Run(0, 3, []));
  }

  /** `Repeat(T("int"), count=2, sep=";")` stops after two repetitions, one separator between them. */
  lemma RepeatTwiceWithSeparatorScenario()
    ensures var p := MakeRepeat(T("int", None), Exactly(2), None, None, Some(";"));
            && p == Ok(Repeat(T("int", None), 2, Some(2), Some(";"), Keep))
            && Parse(p.value, ["int", "int", "int", "double"], 0) == Some(Parsed([Str("int"), Str(";"), Str("int")], 2))
  {
    var body := T("int", None);
    var lines := ["int", "int", "int", "double"];
    var one := [Str("int")];
    RepeatLoopStep(body, 2, Some(2), Some(";"), lines, Run(0, 0, []), Parsed(one, 1));
    assert [] + [] + one == one;
    RepeatLoopStep(body, 2, Some(2), Some(";"), lines, Run(1, 1, one), Parsed(one, 2));
    assert one + [Str(";")] + one == [Str("int"), Str(";"), Str("int")];
    RepeatLoopStops(body, 2, Some(2), Some(";"), lines, Run(2, 2, one + [Str(";")] + one));
  }

  /**
   * The loop of a Repeat of `T("int")` with at most three repetitions, on
   * three `int` lines and a `double`: three repetitions, joined by the
   * separator if there is one.
   */
  lemma ThreeRepetitions(sep: Option<string>)
    ensures var minCount := if sep.Some? then 1 else 3;
            var s := SepItems(sep);
            RepeatLoop(T("int", None), minCount, Some(3), sep, ["int", "int", "int", "double"], Run(0, 0, []))
            == Run(3, 3, [Str("int")] + s + [Str("int")] + s + [Str("int")])
  {
    var body := T("int", None);
    var lines := ["int", "int", "int", "double"];
    var minCount := if sep.Some? then 1 else 3;
    var s := SepItems(sep);
    var one := [Str("int")];
    var two := one + s + one;
    var three := two + s + one;
    RepeatLoopStep(body, minCount, Some(3), sep, lines, Run(0, 0, []), Parsed(one, 1));
    assert [] + [] + one == one;
    RepeatLoopStep(body, minCount, Some(3), sep, lines, Run(1, 1, one), Parsed(one, 2));
    RepeatLoopStep(body, minCount, Some(3), sep, lines, Run(2, 2, two), Parsed(one, 3));
    RepeatLoopStops(body, minCount, Some(3), sep, lines, Run(3, 3, three));
  }

  /** `gsub(T("int", repl=["INTEGER"]), ...)` replaces the matching lines and keeps the others. */
  lemma GsubScenario()
    ensures Gsub(T("int", Some([Str("INTEGER")])), ["int", "a", "int", "b", "double"], false, false)
            == Ok([Str("INTEGER"), Str("a"), Str("INTEGER"), Str("b"), Str("double")])
  {
    var p := T("int", Some([Str("INTEGER")]));
    var lines := ["int", "a", "int", "b", "double"];
    var d := MatcherOf(p, lines);
    assert [Str("double")] + [] == [Str("double")];
    assert GsubFrom(d, lines, 4, false, false) == Ok([Str("double")]);
    assert [Str("b")] + [Str("double")] == [Str("b"), Str("double")];
    assert GsubFrom(d, lines, 3, false, false) == Ok([Str("b"), Str("double")]);
    assert [Str("INTEGER")] + [Str("b"), Str("double")] == [Str("INTEGER"), Str("b"), Str("double")];
    assert GsubFrom(d, lines, 2, false, false) == Ok([Str("INTEGER"), Str("b"), Str("double")]);
    assert [Str("a")] + [Str("INTEGER"), Str("b"), Str("double")] == [Str("a"), Str("INTEGER"), Str("b"), Str("double")];
    assert GsubFrom(d, lines, 1, false, false) == Ok([Str("a"), Str("INTEGER"), Str("b"), Str("double")]);
    assert [Str("INTEGER")] + [Str("a"), Str("INTEGER"), Str("b"), Str("double")]
           == [Str("INTEGER"), Str("a"), Str("INTEGER"), Str("b"), Str("double")];
  }

  /** `gsub(T("int", repl=["INTEGER"]) * 2, ...)` replaces the pair of "int" lines as one match. */
  lemma GsubWithRepeatScenario()
    ensures var p := Times(T("int", Some([Str("INTEGER")])), Exactly(2));
            && p == Ok(Repeat(T("int", Some([Str("INTEGER")])), 2, Some(2), None, Keep))
            && Gsub(p.value, ["int", "int", "double"], false, false) == Ok([Str("INTEGER"), Str("INTEGER")] + [Str("double")])
  {
    var p := Repeat(T("int", Some([Str("INTEGER")])), 2, Some(2), None, Keep);
    var lines := ["int", "int", "double"];
    var d := MatcherOf(p, lines);
    IntegerPairRows();
    assert GsubFrom(d, lines, 3, false, false) == Ok([]);
    assert [Str("double")] + [] == [Str("double")];
    assert GsubFrom(d, lines, 2, false, false) == Ok([Str("double")]);
  }

  /** Where `T("int", repl=["INTEGER"]) * 2` matches in that input. */
  lemma IntegerPairRows()
    ensures var d := MatcherOf(Repeat(T("int", Some([Str("INTEGER")])), 2, Some(2), None, Keep), ["int", "int", "double"]);
            d(0) == Some(Parsed([Str("INTEGER"), Str("INTEGER")], 2)) && d(2).None?
  {
    var body := T("int", Some([Str("INTEGER")]));
    var lines := ["int", "int", "double"];
    var x := [Str("INTEGER")];
    RepeatLoopStep(body, 2, Some(2), None, lines, Run(0, 0, []), Parsed(x, 1));
    assert [] + [] + x == x;
    RepeatLoopStep(body, 2, Some(2), None, lines, Run(1, 1, x), Parsed(x, 2));
    assert x + [] + x == [Str("INTEGER"), Str("INTEGER")];
    RepeatLoopStops(body, 2, Some(2), None, lines, Run(2, 2, x + [] + x));
    RepeatLoopStops(body, 2, Some(2), None, lines, Run(0, 2, []));
  }

  /** `split_by(T(";"), ...)` with and without kept delimiters. */
  lemma SplitScenario(keep: bool)
    ensures var kept := if keep then [[Str(";")]] else [];
            SplitBy(T(";", None), ["int", "a", ";", "double", "b", ";", "float", "c"], keep)
            == Ok([[Str("int"), Str("a")]] + kept + ([[Str("double"), Str("b")]] + kept + [[Str("float"), Str("c")]]))
  {
    SemicolonRows();
    SemicolonSplit(MatcherOf(T(";", None), ["int", "a", ";", "double", "b", ";", "float", "c"]), keep);
  }

  /** `split_by(R(r";"), ...)` on the same input, with and without kept delimiters. */
  lemma SplitWithRegexScenario(keep: bool)
    ensures var kept := if keep then [[Str(";")]] else [];
            SplitBy(R(Semicolon, KeepLine), ["int", "a", ";", "double", "b", ";", "float", "c"], keep)
            == Ok([[Str("int"), Str("a")]] + kept + ([[Str("double"), Str("b")]] + kept + [[Str("float"), Str("c")]]))
  {
    RegexSemicolonRows();
    SemicolonSplit(MatcherOf(R(Semicolon, KeepLine), ["int", "a", ";", "double", "b", ";", "float", "c"]), keep);
  }

  /** A delimiter that matches that input at rows 2 and 5 only, emitting the line. */
  predicate SemicolonMatches(d: Matcher)
  {
    && d(0).None? && d(1).None? && d(2) == Some(Parsed([Str(";")], 3))
    && d(3).None? && d(4).None? && d(5) == Some(Parsed([Str(";")], 6))
    && d(6).None? && d(7).None?
  }

  /** Where `T(";")` matches in that input. */
  lemma SemicolonRows()
    ensures SemicolonMatches(MatcherOf(T(";", None), ["int", "a", ";", "double", "b", ";", "float", "c"]))
  {
  }

  /** Where `R(r";")` matches in that input. */
  lemma RegexSemicolonRows()
    ensures SemicolonMatches(MatcherOf(R(Semicolon, KeepLine), ["int", "a", ";", "double", "b", ";", "float", "c"]))
  {
  }

  /** The data segments of that input, as emitted items. */
  lemma SemicolonSegments()
    ensures var lines := ["int", "a", ";", "double", "b", ";", "float", "c"];
            && Lines(lines[0..2]) == [Str("int"), Str("a")]
            && Lines(lines[3..5]) == [Str("double"), Str("b")]
            && Lines(lines[6..]) == [Str("float"), Str("c")]
  {
    var lines := ["int", "a", ";", "double", "b", ";", "float", "c"];
    assert lines[0..2] == ["int", "a"] && lines[3..5] == ["double", "b"] && lines[6..] == ["float", "c"];
  }

  /** Any delimiter matching that input where `;` stands splits it into the three declarations. */
  lemma SemicolonSplit(d: Matcher, keep: bool)
    requires Advances(d, ["int", "a", ";", "double", "b", ";", "float", "c"])
    requires SemicolonMatches(d)
    ensures var kept := if keep then [[Str(";")]] else [];
            SplitFrom(d, ["int", "a", ";", "double", "b", ";", "float", "c"], 0, keep)
            == Ok([[Str("int"), Str("a")]] + kept + ([[Str("double"), Str("b")]] + kept + [[Str("float"), Str("c")]]))
  {
    var lines := ["int", "a", ";", "double", "b", ";", "float", "c"];
    SemicolonSegments();
    SemicolonSplitAfterFirst(d, keep);
    FindDelimiterFindsFirstMatch(d, lines, 0, 2);
    SplitAfterSearch(d, lines, 0, 2, keep);
  }

  /** The same split from the line after the first delimiter. */
  lemma SemicolonSplitAfterFirst(d: Matcher, keep: bool)
    requires Advances(d, ["int", "a", ";", "double", "b", ";", "float", "c"])
    requires SemicolonMatches(d)
    ensures var lines := ["int", "a", ";", "double", "b", ";", "float", "c"];
            SplitFrom(d, lines, 3, keep)
            == Ok([[Str("double"), Str("b")]] + (if keep then [[Str(";")]] else []) + [[Str("float"), Str("c")]])
  {
    var lines := ["int", "a", ";", "double", "b", ";", "float", "c"];
    SemicolonSegments();
    assert FindDelimiter(d, lines, 6) == None;
    FindDelimiterFindsFirstMatch(d, lines, 3, 5);
    SplitAfterSearch(d, lines, 3, 5, keep);
    assert SplitFrom(d, lines, 6, keep) == Ok([[Str("float"), Str("c")]]);
  }

  /** A delimiter on every line gives one empty segment more than there are lines. */
  lemma SplitAllDelimitersScenario()
    ensures SplitBy(T(";", None), [";", ";", ";"], false) == Ok([[], [], [], []])
  {
    var lines := [";", ";", ";"];
    var d := MatcherOf(T(";", None), lines);
    var none: seq<Item> := [];
    assert d(0) == Some(Parsed([Str(";")], 1)) && d(1) == Some(Parsed([Str(";")], 2)) && d(2) == Some(Parsed([Str(";")], 3));
    assert Lines(lines[0..0]) == [] && Lines(lines[1..1]) == [] && Lines(lines[2..2]) == [];
    assert SplitFrom(d, lines, 3, false) == Ok([none]);
    FindDelimiterFindsFirstMatch(d, lines, 2, 2);
    SplitAfterSearch(d, lines, 2, 2, false);
    assert [none] + [] + [none] == [none, none];
    assert SplitFrom(d, lines, 2, false) == Ok([none, none]);
    FindDelimiterFindsFirstMatch(d, lines, 1, 1);
    SplitAfterSearch(d, lines, 1, 1, false);
    assert [none] + [] + [none, none] == [none, none, none];
    assert SplitFrom(d, lines, 1, false) == Ok([none, none, none]);
    FindDelimiterFindsFirstMatch(d, lines, 0, 0);
    SplitAfterSearch(d, lines, 0, 0, false);
    assert [none] + [] + [none, none, none] == [none, none, none, none];
  }

  /** Delimiters at both ends leave an empty first and last segment. */
  lemma SplitDelimitersAtEndsScenario(keep: bool)
    ensures var kept := if keep then [[Str(";")]] else [];
            SplitBy(T(";", None), [";", "int", "a", "double", "b", "float", "c", ";"], keep)
            == Ok([[]] + kept + ([[Str("int"), Str("a"), Str("double"), Str("b"), Str("float"), Str("c")]] + kept + [[]]))
  {
    var lines := [";", "int", "a", "double", "b", "float", "c", ";"];
    var d := MatcherOf(T(";", None), lines);
    EndsRows();
    EndsSegments();
    assert SplitFrom(d, lines, 8, keep) == Ok([[]]);
    FindDelimiterFindsFirstMatch(d, lines, 1, 7);
    SplitAfterSearch(d, lines, 1, 7, keep);
    FindDelimiterFindsFirstMatch(d, lines, 0, 0);
    SplitAfterSearch(d, lines, 0, 0, keep);
  }

  /** Where `T(";")` matches in that input. */
  lemma EndsRows()
    ensures var d := MatcherOf(T(";", None), [";", "int", "a", "double", "b", "float", "c", ";"]);
            && d(0) == Some(Parsed([Str(";")], 1))
            && d(1).None? && d(2).None? && d(3).None? && d(4).None? && d(5).None? && d(6).None?
            && d(7) == Some(Parsed([Str(";")], 8))
  {
  }

  /** The segments of that input, as emitted items. */
  lemma EndsSegments()
    ensures var lines := [";", "int", "a", "double", "b", "float", "c", ";"];
            && Lines(lines[0..0]) == []
            && Lines(lines[1..7]) == [Str("int"), Str("a"), Str("double"), Str("b"), Str("float"), Str("c")]
  {
    var lines := [";", "int", "a", "double", "b", "float", "c", ";"];
    assert lines[1..7] == ["int", "a", "double", "b", "float", "c"];
  }

  /** A zero-width delimiter match is an error, whether delimiters are kept or not. */
  lemma SplitEmptyDelimiterScenario(keep: bool)
    ensures SplitBy(MakeRepeat(T(";", None), Between(0, None), None, None, None).value, ["int", "a"], keep)
            == Err(EmptyDelimiter(0))
  {
    var p := Repeat(T(";", None), 0, None, None, Keep);
    var lines := ["int", "a"];
    var d := MatcherOf(p, lines);
    RepeatLoopStops(T(";", None), 0, None, None, lines, Run(0, 0, []));
    assert d(0) == Some(Parsed([], 0));
    FindDelimiterFindsFirstMatch(d, lines, 0, 0);
    SplitAfterSearch(d, lines, 0, 0, keep);
  }
}
