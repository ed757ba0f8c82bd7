# seqpat in Dafny

A model of the core of seqpat, a small library of line-level pattern
combinators. A pattern is matched against a list of lines starting at a row.
It either fails or returns the items it emits and the row after the match.

There are five pattern kinds:

- `T` matches one line equal to a literal.
- `R` matches one line against a regular expression.
- `Sequence` runs its children in order; literal strings among them are emitted without consuming a line.
- `Choice` returns the first alternative that matches.
- `Repeat` is a greedy loop with a minimum and maximum count and an optional separator.

`Sequence` and `Repeat` may carry one rewrite rule: a replacement list (`repl`) or a formatting callback (`fmt`). `R` may carry one of `repl`, `fmt`, `fmt_match` or `fmt_group`. `T` may carry a `repl`.

Two algorithms drive the patterns:

- `gsub` scans the lines and substitutes every match. Unmatched lines are kept, dropped, or rejected (strict mode).
- `split_by` searches forward for a delimiter pattern and cuts the lines into segments.

Files (one module each):

- `basics.dfy` (`Basics`): `Option`, `Result`, and `Prepend`, which puts output already produced in front of the outcome of the rest of a scan.
- `patterns.dfy` (`Patterns`): the pattern datatype and `Parse`, with the Sequence, Choice and Repeat loops as mutually recursive functions. Termination uses a ghost size of the pattern tree.
- `build.dfy` (`PatternBuild`): the constructors.
  - Each constructor validates mutually exclusive options and repetition bounds, and flattens nested Sequence and Choice nodes.
  - Constructor errors are `Result` values rather than Python assertion failures.
  - Also here: the `+`, `|` and `*` operators.
- `laws_combinators.dfy` (`CombinatorLaws`): laws of `T`, `R`, `Sequence` and `Choice`, the flattening laws, and the rewrite laws.
- `laws_repeat.dfy` (`RepeatLaws`): Repeat is specified against `Reach`, an independent reference meaning "k successive matches of the body". Also the separator law and the zero-width guard.
- `laws_operators.dfy` (`OperatorLaws`): the meaning of `a * n` against that reference.
- `gsub.dfy` (`Substitution`): `gsub` as a recursive scan, its laws, and a loop method equal to it.
- `split.dfy` (`Splitting`): `split_by` as a recursive scan, the count, tiling and kept-delimiter laws, and a loop method equal to it.
- `scenarios.dfy` (`Scenarios`): a selection of the repository's unit-test examples, worked through the model. The regex half of the gsub test and the delimiter-at-start, delimiter-at-end and consecutive-delimiter split tests have no scenario of their own.

Modelling choices:

- An emitted item is `Str(line)`, `Null` (Python's `None`), or a `Tuple` built by a callback.
- A compiled regular expression is any total function from a line to an optional match. The match holds its groups, group 0 being the matched text. The regex engine itself is outside the model.
- Callbacks are total functions stored in the node.
- `gsub`, `split_by` and the Repeat loop are modelled over a `Matcher`: a function giving the pattern's parse at every row of one line list. `Patterns.Advances` states the row guarantees every parse gives; `Patterns.MatcherOf` is the matcher of a pattern. The algorithms' laws hold for any matcher with those guarantees, and the pattern-level functions (`Gsub`, `SplitBy`, `Parse` of a Repeat) apply them to `MatcherOf`.
- A node holds exactly one rewrite field. So the "at most one rewrite option" rule is enforced by the types once a constructor has accepted the options.
- A Sequence's `repl` or `fmt` is validated and stored by its constructor (`seqpat/patterns.py:94-107`) and always applied by its own `parse` (135-140). Flattening a nested Sequence into its parent copies only its children (99-104), so the nested rule is lost. The model follows the code as written and logs this under Findings, together with a corrected flattening.

## Model

Rows whose third column starts with "step:" are lemmas that unfold one step of a definition; the laws are built from them.

| member | source | states |
|---|---|---|
| Patterns.Parse | seqpat/patterns.py:120-388 | the five `parse` methods (Sequence 120-142, Choice 176-180, Repeat 238-270, R 322-344, T 379-388): a successful parse never moves backwards; when it starts inside the lines it stops inside them; when it starts past the end it does not move |
| Patterns.ParseSeq | seqpat/patterns.py:120-133 | the children threaded left to right keep the same row bounds as a single parse |
| Patterns.ParseChoice | seqpat/patterns.py:176-180 | the alternatives tried in order keep the same row bounds as a single parse |
| Patterns.RepeatLoop | seqpat/patterns.py:238-259 | the Repeat loop never decreases the row or the count and stays inside the lines |
| Patterns.MatcherOf | seqpat/patterns.py:127-133 | a pattern applied at every row of one line list gives its parse there, and so keeps the row guarantees of a parse |
| Patterns.Apply | seqpat/patterns.py:135-142 | what a Sequence or Repeat node emits under its rule (also 263-270): `repl` as given, `fmt` applied to the raw items, otherwise the raw items; its laws are `CombinatorLaws.RewriteChangesOnlyOutput` |
| Patterns.ApplyLine | seqpat/patterns.py:329-344 | what an R node emits for a matched line under its rule; its law is `CombinatorLaws.RegexMatchesOneLine` |
| PatternBuild.RewriteOf | seqpat/patterns.py:218-219 | `repl` and `fmt` are rejected together; otherwise the one given (or neither) becomes the node's rule |
| PatternBuild.MakeR | seqpat/patterns.py:303-309 | an R node is rejected iff two of `repl`, `fmt`, `fmt_match`, `fmt_group` are given; otherwise the given one is its rule |
| PatternBuild.FlattenSequence | seqpat/patterns.py:98-104 | without nested Sequences the children are unchanged; every child of the result is a non-Sequence argument or a child of a nested Sequence |
| PatternBuild.FlattenSequenceAppend | seqpat/patterns.py:98-104 | flattening goes argument by argument, in order: the children of `a + b` flatten to those of `a` followed by those of `b` |
| PatternBuild.FlattenSequenceOfOne | seqpat/patterns.py:99-104 | one argument flattens to the children of a nested Sequence (extend), otherwise to itself (append) |
| PatternBuild.MakeSequence | seqpat/patterns.py:94-107 | a Sequence is rejected iff both `repl` and `fmt` are given; otherwise its children are the flattened arguments and its rule is `Replace(repl)`, `Format(fmt)`, or Keep when neither is given |
| PatternBuild.FlattenSequenceKeepingRewrites | seqpat/patterns.py:98-104 | corrected flattening: only nested Sequences without a rewrite rule are inlined; every child of the result is an argument kept as is or a child of such a Sequence |
| PatternBuild.FlattenSequenceKeepingRewritesAppend | seqpat/patterns.py:98-104 | the corrected flattening also goes argument by argument, in order |
| PatternBuild.FlattenSequenceKeepingRewritesOfOne | seqpat/patterns.py:99-104 | one argument flattens to the children of a rule-less nested Sequence, otherwise to itself |
| PatternBuild.MakeSequenceKeepingRewrites | seqpat/patterns.py:94-107 | the Sequence constructor with the corrected flattening, with the same error condition and the same rule for each of `repl`, `fmt` or neither |
| PatternBuild.FlattenChoice | seqpat/patterns.py:157-163 | without nested Choices the alternatives are unchanged; every alternative of the result is a non-Choice argument or an alternative of a nested Choice |
| PatternBuild.FlattenChoiceAppend | seqpat/patterns.py:157-163 | flattening goes argument by argument, in order: the alternatives of `a + b` flatten to those of `a` followed by those of `b` |
| PatternBuild.FlattenChoiceOfOne | seqpat/patterns.py:158-163 | one argument flattens to the alternatives of a nested Choice (extend), otherwise to itself (append) |
| PatternBuild.Bounds | seqpat/patterns.py:207-217 | an int count n is valid iff n > 0 and means exactly n; a (min, max) pair is valid iff min >= 0, max is None or >= min, and not both 0 |
| PatternBuild.MakeRepeat | seqpat/patterns.py:206-225 | checked in the source's order: a nested Repeat first, then the count (its own error), then `repl` with `fmt`; a built node has the count's bounds, the separator, and rule `Replace(repl)`, `Format(fmt)` or Keep |
| PatternBuild.Plus | seqpat/patterns.py:50-60 | `a + b` is a Sequence without a rule, holding the flattened pieces of `a` then `b` |
| PatternBuild.PlusKeepingRewrites | seqpat/patterns.py:50-60 | `a + b` built with the corrected flattening |
| PatternBuild.Or | seqpat/patterns.py:38-48 | `a \| b` is a Choice holding the flattened alternatives of `a` then `b` |
| PatternBuild.Times | seqpat/patterns.py:62-72 | `a * count` is a Repeat of `a` without rule or separator whose bounds are the count's; it is built iff `a` is not a Repeat and the count is valid, and otherwise fails with the constructor's error |
| CombinatorLaws.LiteralMatchesEqualLine | seqpat/patterns.py:379-388 | T matches iff the row is inside the lines and the line equals the literal; it then advances one row and emits `repl` or the line |
| CombinatorLaws.RegexMatchesOneLine | seqpat/patterns.py:322-344 | R matches iff the row is inside the lines and the regex matches the line; it then advances exactly one row and emits the line, `repl`, `fmt(line)`, `fmt_match(m)` or `fmt_group(m.group)` according to the rule |
| CombinatorLaws.SequenceAppend | seqpat/patterns.py:120-133 | parsing the children `a + b` is parsing `a`, then `b` from where `a` stopped, with the outputs concatenated |
| CombinatorLaws.SequenceTextChild | seqpat/patterns.py:122-124 | a literal-string child emits itself and consumes nothing |
| CombinatorLaws.SequencePatternChild | seqpat/patterns.py:126-133 | a pattern child contributes exactly its own parse |
| CombinatorLaws.SequenceFailsAtFirstFailingChild | seqpat/patterns.py:126-129 | a Sequence fails iff some pattern child fails at the row its predecessors reached |
| CombinatorLaws.ChoiceAppend | seqpat/patterns.py:176-180 | the alternatives `a + b` give `a`'s first match, or `b`'s if none of `a` matches |
| CombinatorLaws.ChoiceFirstMatch | seqpat/patterns.py:176-180 | a Choice fails iff every alternative fails; otherwise it returns exactly the result of the first alternative that matches |
| CombinatorLaws.FlattenChoiceParse | seqpat/patterns.py:157-163 | the flattened alternatives parse like the original ones |
| CombinatorLaws.ChoiceFlatteningPreservesParse | seqpat/patterns.py:150-163 | `Choice(*contents)` always builds, and the flattening it performs does not change what it parses |
| CombinatorLaws.OrTriesLeftFirst | seqpat/patterns.py:38-48 | `a \| b` returns `a`'s match when there is one, otherwise `b`'s |
| CombinatorLaws.FlattenSequenceParse | seqpat/patterns.py:98-104 | when nested Sequences carry no rule, the flattened children parse like the original ones |
| CombinatorLaws.SequenceFlatteningPreservesParse | seqpat/patterns.py:98-104 | with that proviso, flattening does not change what a Sequence parses |
| CombinatorLaws.PlusParsesInOrder | seqpat/patterns.py:50-60 | `a + b` parses `a` and then `b` from where `a` stopped, provided neither is a Sequence with its own rule |
| CombinatorLaws.PlusKeepingRewritesParsesInOrder | seqpat/patterns.py:50-60 | with the corrected flattening, `a + b` parses `a` and then `b` with no proviso |
| CombinatorLaws.WithoutRewrite | seqpat/patterns.py:135-142 | removing a node's rule leaves a Sequence or Repeat with no rule |
| CombinatorLaws.RewriteChangesOnlyOutput | seqpat/patterns.py:135-142 | a rewrite rule changes neither whether a node matches nor where it stops; a `repl` is emitted whatever was matched; a Sequence or Repeat rule applies to the items the node would otherwise emit |
| CombinatorLaws.FlatteningDropsNestedRewrite | seqpat/patterns.py:99-104 | `Sequence(Sequence(T("a"), repl=["X"]))` emits "a" on `["a"]`, while the same tree without flattening emits "X" |
| CombinatorLaws.FlattenKeepingRewritesParse | seqpat/patterns.py:98-104 | the corrected flattening never changes how the children parse |
| CombinatorLaws.CorrectedFlatteningPreservesParse | seqpat/patterns.py:98-104 | a Sequence built with the corrected flattening parses exactly like the unflattened one, whatever rules nested nodes carry |
| RepeatLaws.Reach | seqpat/patterns.py:241-255 | the reference: k successive matches of the body, each from where the previous one stopped, with exactly k outputs |
| RepeatLaws.LoopWith | seqpat/patterns.py:238-259 | the `while` loop of `Repeat.parse` on a matcher with the row guarantees of a parse; it never lowers the count |
| RepeatLaws.RepeatLoopIsLoopWith | seqpat/patterns.py:238-259 | the loop of a Repeat node is the same loop run on its body's matcher |
| RepeatLaws.LoopWithStep | seqpat/patterns.py:241-259 | step: one iteration of the loop on a matcher: it stops at the maximum or on a failing body, otherwise appends the separator (from the second repetition on) and the match |
| RepeatLaws.RepeatLoopStops | seqpat/patterns.py:241-244 | step: the Repeat loop ends where it is once the maximum is reached or the body fails |
| RepeatLaws.RepeatLoopStep | seqpat/patterns.py:245-259 | step: a repetition appends the separator (from the second on) and the body's output, and ends the loop only if it consumed nothing and the minimum is met |
| RepeatLaws.JoinInsertsSeparatorsBetween | seqpat/patterns.py:247-253 | joining n >= 1 outputs with a separator adds exactly n - 1 items; the result starts with the first output and ends with the last |
| RepeatLaws.JoinWithoutSeparatorConcatenates | seqpat/patterns.py:247-253 | without a separator the outputs are simply concatenated |
| RepeatLaws.JoinSnoc | seqpat/patterns.py:247-253 | step: one more repetition appends a separator (except after none) and its output |
| RepeatLaws.ReachPrefix | seqpat/patterns.py:241-255 | if k successive matches exist, so do any fewer |
| RepeatLaws.InvariantStep | seqpat/patterns.py:241-259 | a repetition that gives no reason to stop keeps the loop in step with the reference |
| RepeatLaws.FinalStep | seqpat/patterns.py:257-259 | a zero-width repetition that meets the minimum ends the loop at the reference result |
| RepeatLaws.StopStep | seqpat/patterns.py:241-244 | reaching the maximum or a failing body ends the loop at the reference result |
| RepeatLaws.RepeatLoopMeetsReference | seqpat/patterns.py:241-259 | from any state in step with the reference, the loop ends at the reference result |
| RepeatLaws.RepeatFollowsReference | seqpat/patterns.py:238-259 | the loop makes `count` successive matches, joins their outputs with the separator, never exceeds the maximum, and stops for one of the three reasons and not earlier |
| RepeatLaws.RepeatSucceedsIffMinimumReachable | seqpat/patterns.py:261-262 | a Repeat succeeds iff the body can match `min` times in succession; on success the count lies between min and max, and the node stops where the last repetition stopped |
| OperatorLaws.TimesRepeatsExactly | seqpat/patterns.py:62-72 | `a * n` succeeds iff the body matches n times in succession, and then emits exactly those n outputs concatenated and stops where the n-th stopped |
| RepeatLaws.ExactRepeatConcatenates | seqpat/patterns.py:238-270 | a Repeat with exactly n repetitions, no separator and no rule succeeds iff the body matches n times in succession, and then emits those outputs concatenated and stops where the n-th stopped |
| RepeatLaws.RepeatSeparatorsBetweenRepetitions | seqpat/patterns.py:247-253 | with a separator and no rule, a Repeat emits the repetitions' outputs with exactly count - 1 separators between them |
| RepeatLaws.ZeroWidthBodyStopsAtMinimum | seqpat/patterns.py:251-259 | a body that matches without consuming stops the loop at the minimum (at least one repetition), or at the maximum if that is lower, even with no maximum |
| RepeatLaws.ZeroWidthReach | seqpat/patterns.py:251-259 | successive matches of a zero-width body all stay at the starting row |
| Basics.PrependNothing | seqpat/utility_functions.py:30 | step: starting from no output changes nothing |
| Basics.PrependTwice | seqpat/utility_functions.py:93-97 | step: extending the output twice is extending it once by both |
| Substitution.Advance | seqpat/utility_functions.py:46-49 | the next row tried is always strictly greater: the end of a consuming match, otherwise the next row |
| Substitution.GsubFrom | seqpat/utility_functions.py:32-49 | the lenient scan never fails; the strict scan fails only at a row inside the lines where the pattern does not match |
| Substitution.Gsub | seqpat/utility_functions.py:29-50 | `drop` and `strict` together are rejected, and only they give that error; the lenient scan never fails |
| Substitution.ScanRows | seqpat/utility_functions.py:32-49 | the rows the scan tries start at the first row, each follows the previous by `Advance`, and all lie inside the lines |
| Substitution.GsubConcatenatesPieces | seqpat/utility_functions.py:33-44 | the lenient output is, in order, each tried row's match output or its unmatched line (copied, or omitted with `drop`) |
| Substitution.StrictSuccessIsLenient | seqpat/utility_functions.py:33-36 | when strict mode succeeds its output is the lenient output |
| Substitution.StrictSuccessMatchesEveryTriedRow | seqpat/utility_functions.py:33-36 | strict mode succeeds only if the pattern matches at every row the scan tries |
| Substitution.FirstUnmatchedCons | seqpat/utility_functions.py:33-36 | step: a matching row in front shifts the first unmatched position by one |
| Substitution.StrictFailsAtFirstUnmatchedRow | seqpat/utility_functions.py:34-36 | strict mode reports the first tried row where the pattern fails |
| Substitution.StrictRejectsIffSomeTriedRowUnmatched | seqpat/utility_functions.py:33-36 | strict mode fails iff the pattern fails at some row the scan tries |
| Substitution.GsubWithoutMatches | seqpat/utility_functions.py:34-39 | a pattern that never matches leaves the lines unchanged, drops them all with `drop`, and is rejected at row 0 in strict mode |
| Substitution.NoMatchesFrom | seqpat/utility_functions.py:34-39 | the same from any row: the remaining lines copied, or nothing with `drop` |
| Substitution.GsubOfSingleLinePattern | seqpat/utility_functions.py:32-49 | when no match consumes more than one line, every row is tried and the output is the row-by-row substitution |
| Substitution.ScanGsub | seqpat/utility_functions.py:32-49 | the source's `while` loop, on any matcher with the row guarantees of a parse, returns exactly the recursive scan from row 0 |
| Substitution.RunGsub | seqpat/utility_functions.py:29-50 | the source's `while` loop returns exactly `Gsub` |
| Splitting.FindDelimiter | seqpat/utility_functions.py:77-80 | the search returns the first row at or after the start where the delimiter matches, or nothing iff it matches at no remaining row |
| Splitting.FindDelimiterFindsFirstMatch | seqpat/utility_functions.py:77-80 | conversely, the first row at or after the start where the delimiter matches is what the search returns |
| Splitting.SplitFrom | seqpat/utility_functions.py:75-103 | a successful split has at least one segment; a failure names a row inside the lines where the delimiter matched without consuming |
| Splitting.SplitBy | seqpat/utility_functions.py:73-104 | the same guarantees for the whole input |
| Splitting.LinesAppend | seqpat/utility_functions.py:83 | step: the items of concatenated line lists are the concatenated items |
| Splitting.DelimitsCons | seqpat/utility_functions.py:77-100 | step: one more delimiter, found first, in front of valid delimiters keeps them valid |
| Splitting.ScanStep | seqpat/utility_functions.py:86-100 | step: a consuming delimiter found from a row adds one span and one segment (plus its output when kept) in front of the rest of the scan |
| Splitting.Delimiters | seqpat/utility_functions.py:77-100 | the reference for the split laws: the delimiter matches the scan consumes, each found by the forward search from the end of the previous one, up to a zero-width match; `Splitting.DelimitersDelimit` states what they are |
| Splitting.DelimitersStep | seqpat/utility_functions.py:86-100 | step: a consuming delimiter found from a row is the first delimiter span of the scan from that row |
| Splitting.DelimitersDelimit | seqpat/utility_functions.py:77-100 | the consumed delimiters lie in order, each is the first match after the previous one, each consumes at least one line, and the delimiter matches nowhere in the gaps before them |
| Splitting.SplitCountsSegments | seqpat/utility_functions.py:93-103 | a successful split returns delimiters + 1 segments, empty ones included, or 2 × delimiters + 1 lists with kept delimiters |
| Splitting.SplitSegmentsBetweenDelimiters | seqpat/utility_functions.py:93-103 | segment i is exactly the lines between delimiter i - 1 (or the start) and delimiter i; the last is everything after the last delimiter |
| Splitting.SegmentsShift | seqpat/utility_functions.py:93-100 | step: the segment equations for the rest carry over when one more delimiter is put in front |
| Splitting.NoDelimiterAfterLast | seqpat/utility_functions.py:77-84 | after the last delimiter of a successful split, the delimiter matches at no row |
| Splitting.TileShift | seqpat/utility_functions.py:93-100 | step: a tiling of the rest extends by one segment and one delimiter in front |
| Splitting.SegmentsAndDelimitersTileInput | seqpat/utility_functions.py:93-100 | the segments and the lines each delimiter consumed, alternated in order, give back the input exactly |
| Splitting.InterleaveShift | seqpat/utility_functions.py:95-97 | step: one more segment and delimiter in front of an interleaving |
| Splitting.KeptDelimitersSitBetweenSegments | seqpat/utility_functions.py:95-97 | keeping delimiters changes neither whether nor where a split fails; on success each delimiter's output sits between its two neighbouring segments |
| Splitting.SplitFailsOnEmptyDelimiter | seqpat/utility_functions.py:87-88 | a failing split stops at the first match found after the last consumed delimiter, and that match consumed no line |
| Splitting.SplitWithoutDelimiter | seqpat/utility_functions.py:82-84 | a delimiter that matches nowhere gives the whole input as one segment; empty input gives one empty segment |
| Splitting.SearchDelimiter | seqpat/utility_functions.py:77-84 | the `for ... else` search returns the first delimiter row, or the end iff there is none |
| Splitting.SplitAfterSearch | seqpat/utility_functions.py:86-100 | step: after the search, a zero-width match is the error, and a consuming one puts its segment (and output when kept) in front of the rest |
| Splitting.ScanSplits | seqpat/utility_functions.py:75-103 | the source's loop, on any matcher with the row guarantees of a parse, returns exactly the recursive scan from row 0 |
| Splitting.RunSplitBy | seqpat/utility_functions.py:73-104 | the source's loop returns exactly `SplitBy` |
| Scenarios.LiteralScenario | tests/test_patterns.py:5-13 | `T("hello")` on `["hello", "world"]`: a match at row 0, none at row 1 |
| Scenarios.SequenceScenario | tests/test_patterns.py:30-38 | `Sequence(T("int"), T("a"), T(";"))` matches three lines, and fails at row 3 |
| Scenarios.ThreeChildren | tests/test_patterns.py:30-38 | the three children of that Sequence, threaded through the lines, emit the three lines and stop at row 3 |
| Scenarios.ChoiceScenario | tests/test_patterns.py:41-52 | `Choice(T("int"), T("double"))` picks the matching alternative and fails on "float" |
| Scenarios.RepeatScenario | tests/test_patterns.py:55-63 | `Repeat(T("int"), count=3)` takes three lines, and fails at row 3 |
| Scenarios.RepeatWithSeparatorScenario | tests/test_patterns.py:66-74 | with `count=(1, 3)` and `sep=";"`, the separator appears only between the three repetitions |
| Scenarios.RepeatTwiceWithSeparatorScenario | tests/test_patterns.py:76-78 | `Repeat(T("int"), count=2, sep=";")` stops after two of the three "int" lines, with one separator |
| Scenarios.ThreeRepetitions | tests/test_patterns.py:55-74 | on three `int` lines the loop makes three repetitions, joined by the separator when there is one |
| Scenarios.GsubScenario | tests/test_utility_functions.py:5-10 | `gsub(T("int", repl=["INTEGER"]), ...)` replaces both "int" lines and keeps the rest |
| Scenarios.GsubWithRepeatScenario | tests/test_utility_functions.py:18-22 | `gsub(T("int", repl=["INTEGER"]) * 2, ...)` replaces the two "int" lines as one match and keeps "double" |
| Scenarios.IntegerPairRows | tests/test_utility_functions.py:18-22 | step: that pattern matches the two "int" lines at row 0 and nothing at row 2 |
| Scenarios.SplitScenario | tests/test_utility_functions.py:27-35 | `split_by(T(";"), ...)` gives three segments, with the two delimiters between them when kept |
| Scenarios.SemicolonSplit | tests/test_utility_functions.py:27-62 | any delimiter matching that input exactly where `;` stands, emitting the line, splits it into the three declarations, with the delimiters between them when kept |
| Scenarios.SemicolonSplitAfterFirst | tests/test_utility_functions.py:27-35 | step: any delimiter matching that input exactly where `;` stands gives the last two segments from the line after the first delimiter |
| Scenarios.SplitAllDelimitersScenario | tests/test_utility_functions.py:46-51 | three delimiter lines give four empty segments |
| Scenarios.SplitDelimitersAtEndsScenario | tests/test_utility_functions.py:87-95 | `split_by(T(";"), ...)` with delimiters at both ends leaves an empty first and last segment, with the delimiters between them when kept |
| Scenarios.SplitWithRegexScenario | tests/test_utility_functions.py:54-62 | `split_by(R(r";"), ...)` gives the same three segments as the literal delimiter, with and without kept delimiters |
| Scenarios.SplitEmptyDelimiterScenario | seqpat/utility_functions.py:87-88 | a delimiter that can match zero lines is an error at row 0, with or without kept delimiters |

## Left out

- The regular-expression engine (`re.compile`, `re.match` and the flags). A compiled regex is any total function from a line to an optional match; no law depends on what it matches.
- The bodies of the `fmt`, `fmt_match` and `fmt_group` callbacks: they are total functions stored in the node. `fmt(*result)` passes the items positionally; this is modelled as a function of the item list. `m.group` raising on a bad group index is not modelled: `fmt_group` receives the list of groups.
- The `isinstance` assertions on `repl`, on callback results and on count components. The Dafny types already guarantee them. (The `isinstance(c, Sequence)` and `isinstance(c, Choice)` branches that decide what to flatten are modelled.)
- Arbitrary callback results. In Python a callback may return a list of any objects (ints, dicts, ...). An emitted item here is a string, `None`, or a tuple of items; no law depends on what the items are.
- The `assert next_row >= row` checks in `Sequence.parse` and `gsub`, and the `assert next_row > row_delimiter_found >= row` check in `split_by`. They are proved to always hold (`Patterns.Parse`, `Splitting.FindDelimiter`), so they have no error path.
- Object identity. A `repl` list is returned as the same list object on every match (`seqpat/patterns.py:136`, 264, 330, 386), so `split_by` with `keep_delimiters` places the pattern's own list in its output (`seqpat/utility_functions.py:97`) and a caller mutating it would change the pattern. The model has value semantics and cannot express this aliasing.
- Negative rows. Rows are natural numbers; Python would index a negative row from the end of the list.
- The base `Pattern.parse`, which only raises `NotImplementedError`.
- Version detection through package metadata: packaging, not behaviour.
- The example scripts (`examples/lshw_jsonl.py`, `examples/apt_show_json.py`): stdin reading and JSON printing are caller-side I/O.
- Construction errors are `Result` values. Python raises an `AssertionError` (or, in `gsub` and `split_by`, a `RuntimeError`); the model does not distinguish exception classes beyond the error's kind and row.
- RepeatLaws.RepeatSucceedsIffMinimumReachable: stated only for bounds a constructor accepts (`max` absent or at least `min`). A Repeat datatype value with `max < min` cannot come out of `MakeRepeat`.
- CombinatorLaws.PlusParsesInOrder: requires that neither operand is a Sequence with its own rule, because the flattening written in the source loses that rule (see Findings).

## Findings

| source | as written | input that shows it | evidently intended | confidence | as-written member | corrected member |
|---|---|---|---|---|---|---|
| seqpat/patterns.py:99-104 | a nested Sequence is inlined by copying its children, discarding its own `repl`/`fmt` | `Sequence(Sequence(T("a"), repl=["X"]))` parsed on `["a"]` emits `["a"]`; the nested node alone emits `["X"]` | flattening is a construction-time normalization that does not change what a Sequence parses | not executed | CombinatorLaws.FlatteningDropsNestedRewrite | CombinatorLaws.CorrectedFlatteningPreservesParse |

The corrected constructor is `PatternBuild.MakeSequenceKeepingRewrites`. It inlines only nested Sequences without a rule. `PatternBuild.PlusKeepingRewrites` builds `a + b` with it, and `CombinatorLaws.PlusKeepingRewritesParsesInOrder` proves that `a + b` then parses `a` and then `b` with no proviso.
