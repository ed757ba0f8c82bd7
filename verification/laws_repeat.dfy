/**
 * Laws of Repeat, stated against an independent reference: `Reach(k)`, the
 * outcome of k successive matches of the body. The greedy loop stops at the
 * first count where the maximum is reached, the body fails, or a zero-width
 * repetition has met the minimum; the node succeeds iff that count reaches
 * the minimum, and its output joins the repetitions with the separator.
 */
module RepeatLaws {
  import opened Basics
  import opened Patterns

  /** The outputs of k successive matches and the row after the last one. */
  datatype Steps = Steps(parts: seq<seq<Item>>, row: nat)

  /**
   * k successive matches of the body, whose parse at each row is `d`,
   * starting at `row`, each starting where the previous stopped.
   */
  function Reach(d: Matcher, row: nat, k: nat): (r: Option<Steps>)
    ensures r.Some? ==> |r.value.parts| == k
  {
    if k == 0 then Some(Steps([], row))
    else
      match Reach(d, row, k - 1)
      case None => None
      case Some(st) =>
        match d(st.row)
        case None => None
        case Some(m) => Some(Steps(st.parts + [m.items], m.next))
  }

  /** The k-th successive match (k >= 1) exists and consumed no line. */
  predicate ZeroWidthStep(d: Matcher, row: nat, k: nat)
  {
    k >= 1 && Reach(d, row, k - 1).Some? && Reach(d, row, k).Some?
    && Reach(d, row, k).value.row == Reach(d, row, k - 1).value.row
  }

  /** The `while` loop of `Repeat.parse` run on the body's matcher `d`. */
  function LoopWith(d: Matcher, minCount: nat, maxCount: Option<nat>, sep: Option<string>,
                    lines: seq<string>, s: Run): (run: Run)
    requires Advances(d, lines)
    ensures s.count <= run.count
    decreases Slack(lines, s.row) + Missing(minCount, s.count)
  {
    if maxCount.Some? && s.count >= maxCount.value then s
    else
      match d(s.row)
      case None => s
      case Some(m) =>
        var items := s.items + (if sep.Some? && s.count >= 1 then [Str(sep.value)] else []) + m.items;
        var s' := Run(s.count + 1, m.next, items);
        if m.next == s.row && s'.count >= minCount then s'
        else LoopWith(d, minCount, maxCount, sep, lines, s')
  }

  /** The loop of `Repeat.parse` is the loop on the body's matcher. */
  lemma {:induction false} RepeatLoopIsLoopWith(body: Pattern, minCount: nat, maxCount: Option<nat>, sep: Option<string>,
                                               lines: seq<string>, s: Run)
    ensures RepeatLoop(body, minCount, maxCount, sep, lines, s)
            == LoopWith(MatcherOf(body, lines), minCount, maxCount, sep, lines, s)
    decreases Slack(lines, s.row) + Missing(minCount, s.count)
  {
    var d := MatcherOf(body, lines);
    LoopWithStep(d, minCount, maxCount, sep, lines, s);
    if (maxCount.Some? && s.count >= maxCount.value) || d(s.row).None? {
      RepeatLoopStops(body, minCount, maxCount, sep, lines, s);
    } else {
      var m := d(s.row).value;
      var s' := Run(s.count + 1, m.next, s.items + (if sep.Some? && s.count >= 1 then [Str(sep.value)] else []) + m.items);
      RepeatLoopStep(body, minCount, maxCount, sep, lines, s, m);
      if !(m.next == s.row && s'.count >= minCount) {
        RepeatLoopIsLoopWith(body, minCount, maxCount, sep, lines, s');
      }
    }
  }

  /** One step of the loop on a matcher, as `RepeatLoopStops` and `RepeatLoopStep` state it for a pattern. */
  lemma LoopWithStep(d: Matcher, minCount: nat, maxCount: Option<nat>, sep: Option<string>, lines: seq<string>, s: Run)
    requires Advances(d, lines)
    ensures (maxCount.Some? && s.count >= maxCount.value) || d(s.row).None? ==> LoopWith(d, minCount, maxCount, sep, lines, s) == s
    ensures !(maxCount.Some? && s.count >= maxCount.value) && d(s.row).Some? ==>
              var m := d(s.row).value;
              var s' := Run(s.count + 1, m.next, s.items + (if sep.Some? && s.count >= 1 then [Str(sep.value)] else []) + m.items);
              LoopWith(d, minCount, maxCount, sep, lines, s)
              == if m.next == s.row && s'.count >= minCount then s' else LoopWith(d, minCount, maxCount, sep, lines, s')
  {
  }

  /** The Repeat loop stops where it is once the maximum is reached or the body fails. */
  lemma RepeatLoopStops(body: Pattern, minCount: nat, maxCount: Option<nat>, sep: Option<string>,
                        lines: seq<string>, s: Run)
    requires (maxCount.Some? && s.count >= maxCount.value) || Parse(body, lines, s.row).None?
    ensures RepeatLoop(body, minCount, maxCount, sep, lines, s) == s
  {
  }

  /**
   * One repetition of the Repeat loop: the body's match is appended, after
   * the separator from the second repetition on, and the loop ends there if
   * it was zero-width and the minimum is met.
   */
  lemma RepeatLoopStep(body: Pattern, minCount: nat, maxCount: Option<nat>, sep: Option<string>,
                       lines: seq<string>, s: Run, m: Parsed)
    requires maxCount.None? || s.count < maxCount.value
    requires Parse(body, lines, s.row) == Some(m)
    ensures var s' := Run(s.count + 1, m.next, s.items + (if sep.Some? && s.count >= 1 then [Str(sep.value)] else []) + m.items);
            RepeatLoop(body, minCount, maxCount, sep, lines, s)
            == if m.next == s.row && s'.count >= minCount then s' else RepeatLoop(body, minCount, maxCount, sep, lines, s')
  {
  }

  /** The items a separator contributes. */
  function SepItems(sep: Option<string>): seq<Item>
  {
    if sep.Some? then [Str(sep.value)] else []
  }

  /** The repetitions' outputs with the separator between consecutive ones. */
  function Join(parts: seq<seq<Item>>, sep: Option<string>): seq<Item>
  {
    if |parts| == 0 then []
    else if |parts| == 1 then parts[0]
    else Join(parts[..|parts| - 1], sep) + SepItems(sep) + parts[|parts| - 1]
  }

  /** Total length of the repetitions' outputs. */
  function TotalLength(parts: seq<seq<Item>>): nat
  {
    if |parts| == 0 then 0 else TotalLength(parts[..|parts| - 1]) + |parts[|parts| - 1]|
  }

  /** Concatenation of the repetitions' outputs, without separators. */
  function Concat(parts: seq<seq<Item>>): seq<Item>
  {
    if |parts| == 0 then [] else Concat(parts[..|parts| - 1]) + parts[|parts| - 1]
  }

  /**
   * Exactly `count - 1` separators are inserted: one between each pair of
   * consecutive repetitions, none before the first or after the last.
   */
  lemma {:induction false} JoinInsertsSeparatorsBetween(parts: seq<seq<Item>>, sep: string)
    requires |parts| >= 1
    ensures |Join(parts, Some(sep))| == TotalLength(parts) + (|parts| - 1)
    ensures parts[0] <= Join(parts, Some(sep))
    ensures Join(parts, Some(sep))[|Join(parts, Some(sep))| - |parts[|parts| - 1]|..] == parts[|parts| - 1]
    decreases |parts|
  {
    if |parts| > 1 {
      var init := parts[..|parts| - 1];
      JoinInsertsSeparatorsBetween(init, sep);
      assert init[0] == parts[0];
      var j := Join(init, Some(sep));
      assert Join(parts, Some(sep)) == j + [Str(sep)] + parts[|parts| - 1];
      assert j <= Join(parts, Some(sep));
    }
  }

  /** Without a separator the repetitions' outputs are simply concatenated. */
  lemma {:induction false} JoinWithoutSeparatorConcatenates(parts: seq<seq<Item>>)
    ensures Join(parts, None) == Concat(parts)
    decreases |parts|
  {
    if |parts| == 1 {
      assert Concat(parts) == Concat([]) + parts[0];
    } else if |parts| > 1 {
      JoinWithoutSeparatorConcatenates(parts[..|parts| - 1]);
    }
  }

  /** Joining one more repetition appends a separator (if any follows a repetition) and its output. */
  lemma {:induction false} JoinSnoc(parts: seq<seq<Item>>, x: seq<Item>, sep: Option<string>)
    ensures Join(parts + [x], sep) == Join(parts, sep) + (if |parts| >= 1 then SepItems(sep) else []) + x
  {
    assert (parts + [x])[..|parts|] == parts;
    if |parts| == 0 {
      assert [] + [] + x == x;
    }
  }

  /** Fewer successive matches exist whenever more do. */
  lemma {:induction false} ReachPrefix(d: Matcher, row: nat, j: nat, k: nat)
    requires j <= k && Reach(d, row, k).Some?
    ensures Reach(d, row, j).Some?
    decreases k - j
  {
    if j < k {
      ReachPrefix(d, row, j + 1, k);
    }
  }

  /** Why the Repeat loop stops after `count` repetitions. */
  predicate Stops(d: Matcher, minCount: nat, maxCount: Option<nat>, row: nat, count: nat)
  {
    || (maxCount.Some? && count == maxCount.value)
    || Reach(d, row, count + 1).None?
    || (count >= minCount && ZeroWidthStep(d, row, count))
  }

  /** The loop state after `s.count` repetitions from `row`, with no reason to stop so far. */
  predicate LoopInvariant(d: Matcher, minCount: nat, maxCount: Option<nat>, sep: Option<string>,
                          row: nat, s: Run)
  {
    && Reach(d, row, s.count).Some?
    && Reach(d, row, s.count).value.row == s.row
    && s.items == Join(Reach(d, row, s.count).value.parts, sep)
    && (maxCount.Some? ==> s.count <= maxCount.value)
    && (forall j :: 1 <= j <= s.count ==> !(j >= minCount && ZeroWidthStep(d, row, j)))
  }

  /** The result of the loop, as the reference describes it. */
  predicate LoopResult(d: Matcher, minCount: nat, maxCount: Option<nat>, sep: Option<string>,
                       row: nat, run: Run)
  {
    && Reach(d, row, run.count).Some?
    && Reach(d, row, run.count).value.row == run.row
    && run.items == Join(Reach(d, row, run.count).value.parts, sep)
    && (maxCount.Some? ==> run.count <= maxCount.value)
    && Stops(d, minCount, maxCount, row, run.count)
    && (forall j :: 1 <= j < run.count ==> !(j >= minCount && ZeroWidthStep(d, row, j)))
  }

  /** One more successful repetition that gives no reason to stop keeps the invariant. */
  lemma {:induction false} InvariantStep(d: Matcher, minCount: nat, maxCount: Option<nat>, sep: Option<string>,
                      row: nat, s: Run, m: Parsed)
    requires LoopInvariant(d, minCount, maxCount, sep, row, s)
    requires !(maxCount.Some? && s.count >= maxCount.value)
    requires d(s.row) == Some(m)
    requires !(m.next == s.row && s.count + 1 >= minCount)
    ensures LoopInvariant(d, minCount, maxCount, sep, row,
                          Run(s.count + 1, m.next, s.items + (if sep.Some? && s.count >= 1 then [Str(sep.value)] else []) + m.items))
  {
    var st := Reach(d, row, s.count).value;
    JoinSnoc(st.parts, m.items, sep);
    var next := Reach(d, row, s.count + 1);
    assert next == Some(Steps(st.parts + [m.items], m.next));
    forall j | 1 <= j <= s.count + 1
      ensures !(j >= minCount && ZeroWidthStep(d, row, j))
    {
      if j == s.count + 1 {
        assert ZeroWidthStep(d, row, j) ==> m.next == s.row;
      }
    }
  }

  /** A successful repetition that stops the loop yields the reference result. */
  lemma {:induction false} FinalStep(d: Matcher, minCount: nat, maxCount: Option<nat>, sep: Option<string>,
                  row: nat, s: Run, m: Parsed)
    requires LoopInvariant(d, minCount, maxCount, sep, row, s)
    requires !(maxCount.Some? && s.count >= maxCount.value)
    requires d(s.row) == Some(m)
    requires m.next == s.row && s.count + 1 >= minCount
    ensures LoopResult(d, minCount, maxCount, sep, row,
                       Run(s.count + 1, m.next, s.items + (if sep.Some? && s.count >= 1 then [Str(sep.value)] else []) + m.items))
  {
    var st := Reach(d, row, s.count).value;
    JoinSnoc(st.parts, m.items, sep);
    assert Reach(d, row, s.count + 1) == Some(Steps(st.parts + [m.items], m.next));
    assert ZeroWidthStep(d, row, s.count + 1);
  }

  /** A state with a reason to stop is the reference result. */
  lemma {:induction false} StopStep(d: Matcher, minCount: nat, maxCount: Option<nat>, sep: Option<string>,
                                    row: nat, s: Run)
    requires LoopInvariant(d, minCount, maxCount, sep, row, s)
    requires (maxCount.Some? && s.count >= maxCount.value) || d(s.row).None?
    ensures LoopResult(d, minCount, maxCount, sep, row, s)
  {
    if !(maxCount.Some? && s.count >= maxCount.value) {
      assert Reach(d, row, s.count + 1).None?;
    }
  }

  lemma {:induction false} RepeatLoopMeetsReference(d: Matcher, minCount: nat, maxCount: Option<nat>,
                                                   sep: Option<string>, lines: seq<string>, row: nat, s: Run)
    requires Advances(d, lines)
    requires LoopInvariant(d, minCount, maxCount, sep, row, s)
    ensures LoopResult(d, minCount, maxCount, sep, row, LoopWith(d, minCount, maxCount, sep, lines, s))
    decreases Slack(lines, s.row) + Missing(minCount, s.count)
  {
    var run := LoopWith(d, minCount, maxCount, sep, lines, s);
    if (maxCount.Some? && s.count >= maxCount.value) || d(s.row).None? {
      assert run == s;
      StopStep(d, minCount, maxCount, sep, row, s);
    } else {
      var m := d(s.row).value;
      var s' := Run(s.count + 1, m.next, s.items + (if sep.Some? && s.count >= 1 then [Str(sep.value)] else []) + m.items);
      if m.next == s.row && s'.count >= minCount {
        assert run == s';
        FinalStep(d, minCount, maxCount, sep, row, s, m);
      } else {
        assert run == LoopWith(d, minCount, maxCount, sep, lines, s');
        InvariantStep(d, minCount, maxCount, sep, row, s, m);
        RepeatLoopMeetsReference(d, minCount, maxCount, sep, lines, row, s');
      }
    }
  }

  /** The Repeat loop started at `row`. */
  function RepeatRun(body: Pattern, minCount: nat, maxCount: Option<nat>, sep: Option<string>,
                     lines: seq<string>, row: nat): Run
  {
    RepeatLoop(body, minCount, maxCount, sep, lines, Run(0, row, []))
  }

  /**
   * The loop performs the greedy run the reference describes: `count`
   * successive matches ending at `row`, their outputs joined by the
   * separator, never more than the maximum, stopping for one of the three
   * reasons and not earlier.
   */
  lemma {:induction false} RepeatFollowsReference(body: Pattern, minCount: nat, maxCount: Option<nat>, sep: Option<string>,
                               lines: seq<string>, row: nat)
    ensures LoopResult(MatcherOf(body, lines), minCount, maxCount, sep, row, RepeatRun(body, minCount, maxCount, sep, lines, row))
  {
    RepeatLoopIsLoopWith(body, minCount, maxCount, sep, lines, Run(0, row, []));
    RepeatLoopMeetsReference(MatcherOf(body, lines), minCount, maxCount, sep, lines, row, Run(0, row, []));
  }

  /**
   * With bounds a constructor accepts, a Repeat succeeds iff its body
   * matches at least `minCount` times in succession from `row`; on success
   * it made between `minCount` and `maxCount` repetitions and stops where
   * the last one stopped.
   */
  lemma {:induction false} RepeatSucceedsIffMinimumReachable(body: Pattern, minCount: nat, maxCount: Option<nat>, sep: Option<string>,
                                          rw: Rewrite, lines: seq<string>, row: nat)
    requires maxCount.None? || minCount <= maxCount.value
    ensures Parse(Repeat(body, minCount, maxCount, sep, rw), lines, row).Some?
            <==> Reach(MatcherOf(body, lines), row, minCount).Some?
    ensures var run := RepeatRun(body, minCount, maxCount, sep, lines, row);
            Parse(Repeat(body, minCount, maxCount, sep, rw), lines, row).Some? ==>
              && minCount <= run.count
              && (maxCount.Some? ==> run.count <= maxCount.value)
              && Reach(MatcherOf(body, lines), row, run.count).Some?
              && Parse(Repeat(body, minCount, maxCount, sep, rw), lines, row).value.next
                 == Reach(MatcherOf(body, lines), row, run.count).value.row
  {
    var run := RepeatRun(body, minCount, maxCount, sep, lines, row);
    RepeatFollowsReference(body, minCount, maxCount, sep, lines, row);
    if run.count >= minCount {
      ReachPrefix(MatcherOf(body, lines), row, minCount, run.count);
    } else if Reach(MatcherOf(body, lines), row, minCount).Some? {
      ReachPrefix(MatcherOf(body, lines), row, run.count + 1, minCount);
    }
  }

  /**
   * A Repeat with exactly `n` repetitions, no separator and no rule succeeds
   * iff the body matches `n` times in succession, and then emits those `n`
   * outputs concatenated and stops where the n-th repetition stopped.
   */
  lemma {:induction false} ExactRepeatConcatenates(body: Pattern, n: nat, lines: seq<string>, row: nat)
    ensures var reach := Reach(MatcherOf(body, lines), row, n);
            && (Parse(Repeat(body, n, Some(n), None, Keep), lines, row).Some? <==> reach.Some?)
            && (reach.Some? ==> Parse(Repeat(body, n, Some(n), None, Keep), lines, row)
                                == Some(Parsed(Concat(reach.value.parts), reach.value.row)))
  {
    var run := RepeatRun(body, n, Some(n), None, lines, row);
    RepeatSucceedsIffMinimumReachable(body, n, Some(n), None, Keep, lines, row);
    var reach := Reach(MatcherOf(body, lines), row, n);
    if reach.Some? {
      assert run.count == n;
      assert Parse(Repeat(body, n, Some(n), None, Keep), lines, row) == Some(Parsed(run.items, run.row));
      RepeatFollowsReference(body, n, Some(n), None, lines, row);
      assert run.items == Join(reach.value.parts, None);
      JoinWithoutSeparatorConcatenates(reach.value.parts);
    }
  }

  /**
   * On success with no rewrite rule, a Repeat with separator `sep` emits the
   * repetitions' outputs with exactly `count - 1` separators between them.
   */
  lemma {:induction false} RepeatSeparatorsBetweenRepetitions(body: Pattern, minCount: nat, maxCount: Option<nat>, sep: string,
                                           lines: seq<string>, row: nat)
    requires Parse(Repeat(body, minCount, maxCount, Some(sep), Keep), lines, row).Some?
    ensures var run := RepeatRun(body, minCount, maxCount, Some(sep), lines, row);
            Reach(MatcherOf(body, lines), row, run.count).Some? &&
            var parts := Reach(MatcherOf(body, lines), row, run.count).value.parts;
            && Parse(Repeat(body, minCount, maxCount, Some(sep), Keep), lines, row).value.items == Join(parts, Some(sep))
            && (run.count >= 1 ==>
                  |Parse(Repeat(body, minCount, maxCount, Some(sep), Keep), lines, row).value.items|
                  == TotalLength(parts) + (run.count - 1))
  {
    var run := RepeatRun(body, minCount, maxCount, Some(sep), lines, row);
    assert Parse(Repeat(body, minCount, maxCount, Some(sep), Keep), lines, row).value.items == run.items;
    RepeatFollowsReference(body, minCount, maxCount, Some(sep), lines, row);
    var parts := Reach(MatcherOf(body, lines), row, run.count).value.parts;
    assert run.items == Join(parts, Some(sep));
    if run.count >= 1 {
      JoinInsertsSeparatorsBetween(parts, sep);
    }
  }

  /**
   * A body that matches without consuming stops the loop as soon as the
   * minimum (and at least one repetition) is reached, even when there is no
   * maximum.
   */
  lemma {:induction false} ZeroWidthBodyStopsAtMinimum(body: Pattern, minCount: nat, maxCount: Option<nat>, sep: Option<string>,
                                    lines: seq<string>, row: nat)
    requires Parse(body, lines, row).Some? && Parse(body, lines, row).value.next == row
    ensures var goal := if minCount == 0 then 1 else minCount;
            RepeatRun(body, minCount, maxCount, sep, lines, row).count
            == if maxCount.Some? && maxCount.value < goal then maxCount.value else goal
    ensures RepeatRun(body, minCount, maxCount, sep, lines, row).row == row
  {
    var run := RepeatRun(body, minCount, maxCount, sep, lines, row);
    RepeatFollowsReference(body, minCount, maxCount, sep, lines, row);
    ZeroWidthReach(MatcherOf(body, lines), row, run.count + 1);
    ZeroWidthReach(MatcherOf(body, lines), row, run.count);
    var goal: nat := if minCount == 0 then 1 else minCount;
    if run.count > goal {
      ZeroWidthReach(MatcherOf(body, lines), row, goal);
      ZeroWidthReach(MatcherOf(body, lines), row, goal - 1);
      assert ZeroWidthStep(MatcherOf(body, lines), row, goal);
      assert false;
    }
  }

  /** Every successive match of a zero-width body stays at `row`. */
  lemma {:induction false} ZeroWidthReach(d: Matcher, row: nat, k: nat)
    requires d(row).Some? && d(row).value.next == row
    ensures Reach(d, row, k).Some? && Reach(d, row, k).value.row == row
    decreases k
  {
    if k > 0 {
      ZeroWidthReach(d, row, k - 1);
    }
  }
}
