/**
 * Laws of the pattern nodes: what T and R match, how Sequence composes its
 * children, how Choice picks an alternative, how rewrite rules change only
 * what is emitted, and which flattenings leave parsing unchanged.
 */
module CombinatorLaws {
  import opened Basics
  import opened Patterns
  import opened PatternBuild

  /** `T(text, repl)` matches exactly a line equal to `text` and consumes that one line. */
  lemma LiteralMatchesEqualLine(text: string, repl: Option<seq<Item>>, lines: seq<string>, row: nat)
    ensures Parse(T(text, repl), lines, row).Some? <==> row < |lines| && lines[row] == text
    ensures Parse(T(text, repl), lines, row).Some? ==>
              Parse(T(text, repl), lines, row).value
              == Parsed(if repl.Some? then repl.value else [Str(text)], row + 1)
  {
  }

  /** `R(regex, ...)` matches the line at `row` iff the regex matches it, and consumes that one line. */
  lemma RegexMatchesOneLine(regex: Regex, rw: LineRewrite, lines: seq<string>, row: nat)
    ensures Parse(R(regex, rw), lines, row).Some? <==> row < |lines| && regex(lines[row]).Some?
    ensures Parse(R(regex, rw), lines, row).Some? ==>
              && Parse(R(regex, rw), lines, row).value.next == row + 1
              && (rw.KeepLine? ==> Parse(R(regex, rw), lines, row).value.items == [Str(lines[row])])
              && (rw.ReplaceLine? ==> Parse(R(regex, rw), lines, row).value.items == rw.items)
              && (rw.FormatText? ==> Parse(R(regex, rw), lines, row).value.items == rw.fmt(lines[row]))
              && (rw.FormatMatch? ==> Parse(R(regex, rw), lines, row).value.items == rw.fmtMatch(regex(lines[row]).value))
              && (rw.FormatGroups? ==> Parse(R(regex, rw), lines, row).value.items == rw.fmtGroup(regex(lines[row]).value.groups))
  {
  }

  /** Runs `rest` after a first result, concatenating what both emit: sequential composition. */
  function AndThen(first: Option<Parsed>, rest: seq<Element>, lines: seq<string>): Option<Parsed>
  {
    match first
    case None => None
    case Some(x) =>
      match ParseSeq(rest, lines, x.next)
      case None => None
      case Some(y) => Some(Parsed(x.items + y.items, y.next))
  }

  /**
   * Sequence children compose associatively: parsing `a + b` is parsing `a`,
   * then `b` from where `a` stopped, emitting both outputs in order.
   */
  lemma {:induction false} SequenceAppend(a: seq<Element>, b: seq<Element>, lines: seq<string>, row: nat)
    ensures ParseSeq(a + b, lines, row) == AndThen(ParseSeq(a, lines, row), b, lines)
    decreases |a|
  {
    if |a| == 0 {
      assert a + b == b;
      match ParseSeq(b, lines, row)
      case None =>
      case Some(y) => assert [] + y.items == y.items;
    } else {
      assert (a + b)[0] == a[0];
      assert (a + b)[1..] == a[1..] + b;
      match a[0] {
        case Text(s) =>
          SequenceAppend(a[1..], b, lines, row);
          match ParseSeq(a[1..], lines, row) {
            case None =>
            case Some(x) =>
              match ParseSeq(b, lines, x.next) {
                case None =>
                case Some(y) => assert [Str(s)] + (x.items + y.items) == ([Str(s)] + x.items) + y.items;
              }
          }
        case Sub(q) =>
          match Parse(q, lines, row) {
            case None =>
            case Some(first) =>
              SequenceAppend(a[1..], b, lines, first.next);
              match ParseSeq(a[1..], lines, first.next) {
                case None =>
                case Some(x) =>
                  match ParseSeq(b, lines, x.next) {
                    case None =>
                    case Some(y) => assert first.items + (x.items + y.items) == (first.items + x.items) + y.items;
                  }
              }
          }
      }
    }
  }

  /** A literal string child is emitted as is and consumes nothing. */
  lemma SequenceTextChild(s: string, lines: seq<string>, row: nat)
    ensures ParseSeq([Text(s)], lines, row) == Some(Parsed([Str(s)], row))
  {
    assert [Text(s)][1..] == [];
    assert ParseSeq([], lines, row) == Some(Parsed([], row));
    assert [Str(s)] + [] == [Str(s)];
  }

  /** A pattern child alone behaves as the pattern itself. */
  lemma SequencePatternChild(q: Pattern, lines: seq<string>, row: nat)
    ensures ParseSeq([Sub(q)], lines, row) == Parse(q, lines, row)
  {
    assert [Sub(q)][1..] == [];
    match Parse(q, lines, row)
    case None =>
    case Some(x) => assert x.items + [] == x.items;
  }

  /**
   * A Sequence fails iff some pattern child fails at the row reached by the
   * children before it (literal strings never fail).
   */
  lemma {:induction false} SequenceFailsAtFirstFailingChild(contents: seq<Element>, lines: seq<string>, row: nat)
    ensures ParseSeq(contents, lines, row).None? <==>
              exists k :: 0 <= k < |contents| && contents[k].Sub? && ParseSeq(contents[..k], lines, row).Some?
                          && Parse(contents[k].pattern, lines, ParseSeq(contents[..k], lines, row).value.next).None?
  {
    assert contents[..|contents|] == contents;
    if ParseSeq(contents, lines, row).None? {
      FailingPrefix(contents, lines, row, |contents|);
    } else {
      forall k | 0 <= k < |contents| && contents[k].Sub? && ParseSeq(contents[..k], lines, row).Some?
        ensures Parse(contents[k].pattern, lines, ParseSeq(contents[..k], lines, row).value.next).Some?
      {
        PrefixStep(contents, lines, row, k);
        assert contents == contents[..k + 1] + contents[k + 1..];
        SequenceAppend(contents[..k + 1], contents[k + 1..], lines, row);
      }
    }
  }

  /** Parsing one more child is parsing the prefix and then that child. */
  lemma PrefixStep(contents: seq<Element>, lines: seq<string>, row: nat, k: nat)
    requires k < |contents|
    ensures ParseSeq(contents[..k + 1], lines, row) == AndThen(ParseSeq(contents[..k], lines, row), [contents[k]], lines)
  {
    assert contents[..k + 1] == contents[..k] + [contents[k]];
    SequenceAppend(contents[..k], [contents[k]], lines, row);
  }

  lemma {:induction false} FailingPrefix(contents: seq<Element>, lines: seq<string>, row: nat, n: nat)
    requires n <= |contents| && ParseSeq(contents[..n], lines, row).None?
    ensures exists k :: 0 <= k < n && contents[k].Sub? && ParseSeq(contents[..k], lines, row).Some?
                        && Parse(contents[k].pattern, lines, ParseSeq(contents[..k], lines, row).value.next).None?
    decreases n
  {
    assert contents[..0] == [];
    if ParseSeq(contents[..n - 1], lines, row).None? {
      FailingPrefix(contents, lines, row, n - 1);
    } else {
      var k := n - 1;
      PrefixStep(contents, lines, row, k);
      var x := ParseSeq(contents[..k], lines, row).value;
      match contents[k]
      case Text(s) =>
        SequenceTextChild(s, lines, x.next);
        assert false;
      case Sub(q) =>
        SequencePatternChild(q, lines, x.next);
    }
  }

  /** The first alternative that matches decides the whole Choice. */
  lemma {:induction false} ChoiceAppend(a: seq<Pattern>, b: seq<Pattern>, lines: seq<string>, row: nat)
    ensures ParseChoice(a + b, lines, row)
            == if ParseChoice(a, lines, row).Some? then ParseChoice(a, lines, row) else ParseChoice(b, lines, row)
    decreases |a|
  {
    if |a| == 0 {
      assert a + b == b;
    } else {
      assert (a + b)[0] == a[0];
      assert (a + b)[1..] == a[1..] + b;
      ChoiceAppend(a[1..], b, lines, row);
    }
  }

  /**
   * A Choice returns exactly the result of its first matching alternative,
   * and fails iff every alternative fails.
   */
  lemma {:induction false} ChoiceFirstMatch(alternatives: seq<Pattern>, lines: seq<string>, row: nat)
    ensures ParseChoice(alternatives, lines, row).None? <==>
              forall i :: 0 <= i < |alternatives| ==> Parse(alternatives[i], lines, row).None?
    ensures ParseChoice(alternatives, lines, row).Some? ==>
              exists i :: 0 <= i < |alternatives|
                          && ParseChoice(alternatives, lines, row) == Parse(alternatives[i], lines, row)
                          && forall j :: 0 <= j < i ==> Parse(alternatives[j], lines, row).None?
    decreases |alternatives|
  {
    if |alternatives| > 0 {
      var rest := alternatives[1..];
      ChoiceFirstMatch(rest, lines, row);
      if Parse(alternatives[0], lines, row).None? {
        assert forall i :: 0 < i < |alternatives| ==> alternatives[i] == rest[i - 1];
        if ParseChoice(rest, lines, row).Some? {
          var i :| 0 <= i < |rest| && ParseChoice(rest, lines, row) == Parse(rest[i], lines, row)
                   && forall j :: 0 <= j < i ==> Parse(rest[j], lines, row).None?;
          assert alternatives[i + 1] == rest[i];
        }
      }
    }
  }

  /** Inlining nested Choice alternatives at construction never changes what a Choice parses. */
  lemma {:induction false} ChoiceFlatteningPreservesParse(alternatives: seq<Pattern>, lines: seq<string>, row: nat)
    ensures Parse(MakeChoice(alternatives), lines, row) == Parse(Choice(alternatives), lines, row)
  {
    FlattenChoiceParse(alternatives, lines, row);
  }

  lemma {:induction false} FlattenChoiceParse(alternatives: seq<Pattern>, lines: seq<string>, row: nat)
    ensures ParseChoice(FlattenChoice(alternatives), lines, row) == ParseChoice(alternatives, lines, row)
    decreases |alternatives|
  {
    if |alternatives| > 0 {
      var head := alternatives[0];
      FlattenChoiceParse(alternatives[1..], lines, row);
      ChoiceAppend(ChoicePiece(head), FlattenChoice(alternatives[1..]), lines, row);
      if !head.Choice? {
        assert [head][1..] == [];
      }
    }
  }

  /** `a | b` tries `a` first and falls back to `b`. */
  lemma OrTriesLeftFirst(a: Pattern, b: Pattern, lines: seq<string>, row: nat)
    ensures Parse(Or(a, b), lines, row)
            == if Parse(a, lines, row).Some? then Parse(a, lines, row) else Parse(b, lines, row)
  {
    assert [a, b][1..] == [b] && [b][1..] == [];
    ChoiceFlatteningPreservesParse([a, b], lines, row);
    assert ParseChoice([b], lines, row) == if Parse(b, lines, row).Some? then Parse(b, lines, row) else ParseChoice([], lines, row);
  }

  /** Nested Sequence children of `contents` carry no rewrite rule of their own. */
  predicate NestedSequencesKeep(contents: seq<Element>)
  {
    forall i :: 0 <= i < |contents| && contents[i].Sub? && contents[i].pattern.Sequence? ==>
      contents[i].pattern.rewrite.Keep?
  }

  /**
   * Inlining nested Sequence children at construction leaves parsing
   * unchanged provided the nested Sequences have no rewrite rule (one that
   * has is dropped by the inlining).
   */
  lemma {:induction false} SequenceFlatteningPreservesParse(contents: seq<Element>, rw: Rewrite, lines: seq<string>, row: nat)
    requires NestedSequencesKeep(contents)
    ensures Parse(Sequence(FlattenSequence(contents), rw), lines, row) == Parse(Sequence(contents, rw), lines, row)
  {
    FlattenSequenceParse(contents, lines, row);
  }

  lemma {:induction false} FlattenSequenceParse(contents: seq<Element>, lines: seq<string>, row: nat)
    requires NestedSequencesKeep(contents)
    ensures ParseSeq(FlattenSequence(contents), lines, row) == ParseSeq(contents, lines, row)
    decreases |contents|
  {
    if |contents| > 0 {
      var head := contents[0];
      var rest := contents[1..];
      assert contents == [head] + rest;
      assert NestedSequencesKeep(rest) by {
        forall i | 0 <= i < |rest| ensures rest[i] == contents[i + 1] { }
      }
      SequenceAppend(SequencePiece(head), FlattenSequence(rest), lines, row);
      SequenceAppend([head], rest, lines, row);
      forall r: nat ensures ParseSeq(FlattenSequence(rest), lines, r) == ParseSeq(rest, lines, r) {
        FlattenSequenceParse(rest, lines, r);
      }
      if head.Sub? && head.pattern.Sequence? {
        SequencePatternChild(head.pattern, lines, row);
        match ParseSeq(head.pattern.contents, lines, row)
        case None =>
        case Some(x) =>
      }
    }
  }

  /** `a + b` parses `a` then `b` when neither is a Sequence with its own rewrite rule. */
  lemma PlusParsesInOrder(a: Pattern, b: Pattern, lines: seq<string>, row: nat)
    requires a.Sequence? ==> a.rewrite.Keep?
    requires b.Sequence? ==> b.rewrite.Keep?
    ensures Parse(Plus(a, b), lines, row) == AndThen(Parse(a, lines, row), [Sub(b)], lines)
  {
    assert NestedSequencesKeep([Sub(a), Sub(b)]);
    SequenceFlatteningPreservesParse([Sub(a), Sub(b)], Keep, lines, row);
    assert [Sub(a), Sub(b)] == [Sub(a)] + [Sub(b)];
    SequenceAppend([Sub(a)], [Sub(b)], lines, row);
    SequencePatternChild(a, lines, row);
  }

  /** With the corrected flattening, `a + b` parses `a` then `b` whatever rules they carry. */
  lemma PlusKeepingRewritesParsesInOrder(a: Pattern, b: Pattern, lines: seq<string>, row: nat)
    ensures Parse(PlusKeepingRewrites(a, b), lines, row) == AndThen(Parse(a, lines, row), [Sub(b)], lines)
  {
    CorrectedFlatteningPreservesParse([Sub(a), Sub(b)], None, None, lines, row);
    assert [Sub(a), Sub(b)] == [Sub(a)] + [Sub(b)];
    SequenceAppend([Sub(a)], [Sub(b)], lines, row);
    SequencePatternChild(a, lines, row);
  }

  /** The same node with its rewrite rule removed (Choice has none). */
  function WithoutRewrite(p: Pattern): (q: Pattern)
    ensures q.Sequence? || q.Repeat? ==> q.rewrite.Keep?
  {
    match p
    case T(text, _) => T(text, None)
    case R(regex, _) => R(regex, KeepLine)
    case Sequence(contents, _) => Sequence(contents, Keep)
    case Choice(_) => p
    case Repeat(body, minCount, maxCount, sep, _) => Repeat(body, minCount, maxCount, sep, Keep)
  }

  /** The fixed replacement list configured on a node, if any. */
  function Replacement(p: Pattern): Option<seq<Item>>
  {
    match p
    case T(_, repl) => repl
    case R(_, rw) => if rw.ReplaceLine? then Some(rw.items) else None
    case Sequence(_, rw) => if rw.Replace? then Some(rw.items) else None
    case Choice(_) => None
    case Repeat(_, _, _, _, rw) => if rw.Replace? then Some(rw.items) else None
  }

  /**
   * A rewrite rule changes only what a node emits: whether it matches and
   * where it stops are those of the node without the rule, a replacement
   * list is emitted whatever was matched, and a Sequence or Repeat rule is
   * applied to the items the node would otherwise emit.
   */
  lemma RewriteChangesOnlyOutput(p: Pattern, lines: seq<string>, row: nat)
    ensures Parse(p, lines, row).Some? <==> Parse(WithoutRewrite(p), lines, row).Some?
    ensures Parse(p, lines, row).Some? ==>
              Parse(p, lines, row).value.next == Parse(WithoutRewrite(p), lines, row).value.next
    ensures Parse(p, lines, row).Some? && Replacement(p).Some? ==>
              Parse(p, lines, row).value.items == Replacement(p).value
    ensures Parse(p, lines, row).Some? && (p.Sequence? || p.Repeat?) ==>
              Parse(p, lines, row).value.items == Apply(p.rewrite, Parse(WithoutRewrite(p), lines, row).value.items)
  {
  }

  /**
   * The source's flattening drops the rewrite rule of a nested Sequence:
   * `Sequence(Sequence(T("a"), repl=["X"]))` emits "a" where the nested
   * node alone emits "X".
   */
  lemma FlatteningDropsNestedRewrite()
    ensures var inner := Sequence([Sub(T("a", None))], Replace([Str("X")]));
            && Parse(MakeSequence([Sub(inner)], None, None).value, ["a"], 0) == Some(Parsed([Str("a")], 1))
            && Parse(Sequence([Sub(inner)], Keep), ["a"], 0) == Some(Parsed([Str("X")], 1))
  {
    var inner := Sequence([Sub(T("a", None))], Replace([Str("X")]));
    assert [Sub(inner)][1..] == [];
    assert FlattenSequence([Sub(inner)]) == [Sub(T("a", None))] + [];
    SequencePatternChild(T("a", None), ["a"], 0);
    SequencePatternChild(inner, ["a"], 0);
  }

  /** The corrected flattening never changes what a Sequence parses. */
  lemma {:induction false} CorrectedFlatteningPreservesParse(contents: seq<Element>, repl: Option<seq<Item>>,
                                                             fmt: Option<seq<Item> -> seq<Item>>,
                                                             lines: seq<string>, row: nat)
    requires !(repl.Some? && fmt.Some?)
    ensures Parse(MakeSequenceKeepingRewrites(contents, repl, fmt).value, lines, row)
            == Parse(Sequence(contents, RewriteOf(repl, fmt).value), lines, row)
  {
    FlattenKeepingRewritesParse(contents, lines, row);
  }

  lemma {:induction false} FlattenKeepingRewritesParse(contents: seq<Element>, lines: seq<string>, row: nat)
    ensures ParseSeq(FlattenSequenceKeepingRewrites(contents), lines, row) == ParseSeq(contents, lines, row)
    decreases |contents|
  {
    if |contents| > 0 {
      var head := contents[0];
      var rest := contents[1..];
      assert contents == [head] + rest;
      SequenceAppend(SequencePieceKeepingRewrites(head), FlattenSequenceKeepingRewrites(rest), lines, row);
      SequenceAppend([head], rest, lines, row);
      forall r: nat ensures ParseSeq(FlattenSequenceKeepingRewrites(rest), lines, r) == ParseSeq(rest, lines, r) {
        FlattenKeepingRewritesParse(rest, lines, r);
      }
      if head.Sub? && head.pattern.Sequence? && head.pattern.rewrite.Keep? {
        SequencePatternChild(head.pattern, lines, row);
        match ParseSeq(head.pattern.contents, lines, row)
        case None =>
        case Some(x) =>
      }
    }
  }
}
