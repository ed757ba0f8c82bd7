/**
 * Construction of seqpat patterns: the validation the source performs with
 * assertions in its constructors, the flattening of nested Sequence and
 * Choice nodes, and the `+`, `|` and `*` operators.
 */
module PatternBuild {
  import opened Basics
  import opened Patterns

  /** The construction-time assertion failures of the source's constructors. */
  datatype BuildError =
    | ExclusiveRewrites   // more than one of repl / fmt / fmt_match / fmt_group
    | NestedRepeat        // a Repeat directly inside a Repeat
    | NonPositiveCount    // an int count that is zero or negative
    | NegativeMinCount    // a (min, max) count with min < 0
    | MaxBelowMin         // a (min, max) count with max < min
    | ZeroRepetition      // the count (0, 0)

  /** The `count` argument of Repeat: an int n, or a (min, max) pair with `None` for unbounded. */
  datatype Count = Exactly(n: int) | Between(min: int, max: Option<int>)

  /** The rewrite rule of a Sequence or Repeat from its `repl` and `fmt` keyword arguments. */
  function RewriteOf(repl: Option<seq<Item>>, fmt: Option<seq<Item> -> seq<Item>>): (r: Result<Rewrite, BuildError>)
    ensures r.Err? <==> repl.Some? && fmt.Some?
    ensures r.Err? ==> r.error == ExclusiveRewrites
    ensures r.Ok? && repl.Some? ==> r.value == Replace(repl.value)
    ensures r.Ok? && fmt.Some? ==> r.value.Format? && r.value.f == fmt.value
    ensures r.Ok? && repl.None? && fmt.None? ==> r.value.Keep?
  {
    match (repl, fmt)
    case (Some(_), Some(_)) => Err(ExclusiveRewrites)
    case (Some(items), None) => Ok(Replace(items))
    case (None, Some(f)) => Ok(Format(f))
    case (None, None) => Ok(Keep)
  }

  /** `R(regex, repl=, fmt=, fmt_match=, fmt_group=)`: at most one rewrite option may be set. */
  function MakeR(regex: Regex, repl: Option<seq<Item>>, fmt: Option<string -> seq<Item>>,
                 fmtMatch: Option<RegexMatch -> seq<Item>>,
                 fmtGroup: Option<seq<Option<string>> -> seq<Item>>): (r: Result<Pattern, BuildError>)
    ensures r.Err? <==> || (repl.Some? && (fmt.Some? || fmtMatch.Some? || fmtGroup.Some?))
                        || (fmt.Some? && (fmtMatch.Some? || fmtGroup.Some?))
                        || (fmtMatch.Some? && fmtGroup.Some?)
    ensures r.Err? ==> r.error == ExclusiveRewrites
    ensures r.Ok? ==> r.value.R? && r.value.regex == regex
    ensures r.Ok? && repl.Some? ==> r.value.lineRewrite == ReplaceLine(repl.value)
    ensures r.Ok? && fmt.Some? ==> r.value.lineRewrite.FormatText? && r.value.lineRewrite.fmt == fmt.value
    ensures r.Ok? && fmtMatch.Some? ==> r.value.lineRewrite.FormatMatch? && r.value.lineRewrite.fmtMatch == fmtMatch.value
    ensures r.Ok? && fmtGroup.Some? ==> r.value.lineRewrite.FormatGroups? && r.value.lineRewrite.fmtGroup == fmtGroup.value
    ensures r.Ok? && repl.None? && fmt.None? && fmtMatch.None? && fmtGroup.None? ==> r.value.lineRewrite.KeepLine?
  {
    var given := (if repl.Some? then 1 else 0) + (if fmt.Some? then 1 else 0)
                 + (if fmtMatch.Some? then 1 else 0) + (if fmtGroup.Some? then 1 else 0);
    if given > 1 then Err(ExclusiveRewrites)
    else if repl.Some? then Ok(R(regex, ReplaceLine(repl.value)))
    else if fmt.Some? then Ok(R(regex, FormatText(fmt.value)))
    else if fmtMatch.Some? then Ok(R(regex, FormatMatch(fmtMatch.value)))
    else if fmtGroup.Some? then Ok(R(regex, FormatGroups(fmtGroup.value)))
    else Ok(R(regex, KeepLine))
  }

  /** What one child contributes to a flattened Sequence: a nested Sequence's own children, or itself. */
  function SequencePiece(e: Element): seq<Element>
  {
    if e.Sub? && e.pattern.Sequence? then e.pattern.contents else [e]
  }

  /**
   * The children of a new Sequence: nested Sequence children are replaced by
   * their own children (one level, as built), whatever their rewrite rule.
   */
  function FlattenSequence(contents: seq<Element>): (r: seq<Element>)
    ensures (forall i :: 0 <= i < |contents| ==> !(contents[i].Sub? && contents[i].pattern.Sequence?)) ==> r == contents
    ensures forall e :: e in r ==>
              (e in contents && !(e.Sub? && e.pattern.Sequence?))
              || (exists i :: 0 <= i < |contents| && contents[i].Sub? && contents[i].pattern.Sequence? && e in contents[i].pattern.contents)
  {
    if |contents| == 0 then [] else SequencePiece(contents[0]) + FlattenSequence(contents[1..])
  }

  /**
   * Flattening works child by child: the children of `a + b` flatten to
   * those of `a` followed by those of `b`, so every child is kept or
   * inlined, in order.
   */
  lemma {:induction false} FlattenSequenceAppend(a: seq<Element>, b: seq<Element>)
    ensures FlattenSequence(a + b) == FlattenSequence(a) + FlattenSequence(b)
    decreases |a|
  {
    if |a| == 0 {
      assert a + b == b;
    } else {
      assert (a + b)[0] == a[0];
      assert (a + b)[1..] == a[1..] + b;
      FlattenSequenceAppend(a[1..], b);
    }
  }

  /** A single child flattens to its own piece: a nested Sequence's children, otherwise itself. */
  lemma FlattenSequenceOfOne(e: Element)
    ensures FlattenSequence([e]) == SequencePiece(e)
  {
    assert [e][1..] == [];
  }

  /** `Sequence(*contents, repl=, fmt=)`. */
  function MakeSequence(contents: seq<Element>, repl: Option<seq<Item>>,
                        fmt: Option<seq<Item> -> seq<Item>>): (r: Result<Pattern, BuildError>)
    ensures r.Err? <==> repl.Some? && fmt.Some?
    ensures r.Err? ==> r.error == ExclusiveRewrites
    ensures r.Ok? ==> r.value.Sequence? && r.value.contents == FlattenSequence(contents)
    ensures r.Ok? ==> r.value.rewrite.Keep? == (repl.None? && fmt.None?)
    ensures r.Ok? && repl.Some? ==> r.value.rewrite == Replace(repl.value)
    ensures r.Ok? && fmt.Some? ==> r.value.rewrite.Format? && r.value.rewrite.f == fmt.value
  {
    var rw :- RewriteOf(repl, fmt);
    Ok(Sequence(FlattenSequence(contents), rw))
  }

  /**
   * Corrected flattening: a nested Sequence is inlined only when it has no
   * rewrite rule; one with a rule stays a child so that its rule still applies.
   */
  function SequencePieceKeepingRewrites(e: Element): seq<Element>
  {
    if e.Sub? && e.pattern.Sequence? && e.pattern.rewrite.Keep? then e.pattern.contents else [e]
  }

  function FlattenSequenceKeepingRewrites(contents: seq<Element>): (r: seq<Element>)
    ensures (forall i :: 0 <= i < |contents| ==> !(contents[i].Sub? && contents[i].pattern.Sequence?)) ==> r == contents
    ensures forall e :: e in r ==>
              (e in contents && !(e.Sub? && e.pattern.Sequence? && e.pattern.rewrite.Keep?))
              || (exists i :: 0 <= i < |contents| && contents[i].Sub? && contents[i].pattern.Sequence?
                              && contents[i].pattern.rewrite.Keep? && e in contents[i].pattern.contents)
  {
    if |contents| == 0 then [] else SequencePieceKeepingRewrites(contents[0]) + FlattenSequenceKeepingRewrites(contents[1..])
  }

  /** The corrected flattening also works child by child, in order. */
  lemma {:induction false} FlattenSequenceKeepingRewritesAppend(a: seq<Element>, b: seq<Element>)
    ensures FlattenSequenceKeepingRewrites(a + b) == FlattenSequenceKeepingRewrites(a) + FlattenSequenceKeepingRewrites(b)
    decreases |a|
  {
    if |a| == 0 {
      assert a + b == b;
    } else {
      assert (a + b)[0] == a[0];
      assert (a + b)[1..] == a[1..] + b;
      FlattenSequenceKeepingRewritesAppend(a[1..], b);
    }
  }

  /** A single child flattens to its piece: the children of a rule-less nested Sequence, otherwise itself. */
  lemma FlattenSequenceKeepingRewritesOfOne(e: Element)
    ensures FlattenSequenceKeepingRewrites([e]) == SequencePieceKeepingRewrites(e)
  {
    assert [e][1..] == [];
  }

  /** `Sequence(*contents, repl=, fmt=)` with the corrected flattening. */
  function MakeSequenceKeepingRewrites(contents: seq<Element>, repl: Option<seq<Item>>,
                                       fmt: Option<seq<Item> -> seq<Item>>): (r: Result<Pattern, BuildError>)
    ensures r.Err? <==> repl.Some? && fmt.Some?
    ensures r.Err? ==> r.error == ExclusiveRewrites
    ensures r.Ok? ==> r.value.Sequence? && r.value.contents == FlattenSequenceKeepingRewrites(contents)
    ensures r.Ok? ==> r.value.rewrite.Keep? == (repl.None? && fmt.None?)
    ensures r.Ok? && repl.Some? ==> r.value.rewrite == Replace(repl.value)
    ensures r.Ok? && fmt.Some? ==> r.value.rewrite.Format? && r.value.rewrite.f == fmt.value
  {
    var rw :- RewriteOf(repl, fmt);
    Ok(Sequence(FlattenSequenceKeepingRewrites(contents), rw))
  }

  /** What one alternative contributes to a flattened Choice. */
  function ChoicePiece(p: Pattern): seq<Pattern>
  {
    if p.Choice? then p.alternatives else [p]
  }

  /** The alternatives of a new Choice: nested Choice alternatives are inlined (one level). */
  function FlattenChoice(alternatives: seq<Pattern>): (r: seq<Pattern>)
    ensures (forall i :: 0 <= i < |alternatives| ==> !alternatives[i].Choice?) ==> r == alternatives
    ensures forall q :: q in r ==>
              (q in alternatives && !q.Choice?)
              || (exists i :: 0 <= i < |alternatives| && alternatives[i].Choice? && q in alternatives[i].alternatives)
  {
    if |alternatives| == 0 then [] else ChoicePiece(alternatives[0]) + FlattenChoice(alternatives[1..])
  }

  /** Choice flattening works alternative by alternative, in order. */
  lemma {:induction false} FlattenChoiceAppend(a: seq<Pattern>, b: seq<Pattern>)
    ensures FlattenChoice(a + b) == FlattenChoice(a) + FlattenChoice(b)
    decreases |a|
  {
    if |a| == 0 {
      assert a + b == b;
    } else {
      assert (a + b)[0] == a[0];
      assert (a + b)[1..] == a[1..] + b;
      FlattenChoiceAppend(a[1..], b);
    }
  }

  /** A single alternative flattens to a nested Choice's alternatives, otherwise itself. */
  lemma FlattenChoiceOfOne(p: Pattern)
    ensures FlattenChoice([p]) == ChoicePiece(p)
  {
    assert [p][1..] == [];
  }

  /** `Choice(*contents)`: never fails to build. */
  function MakeChoice(alternatives: seq<Pattern>): (r: Pattern)
    ensures r.Choice? && r.alternatives == FlattenChoice(alternatives)
  {
    Choice(FlattenChoice(alternatives))
  }

  /** The (min, max) bounds a valid `count` stands for. */
  function Bounds(count: Count): (b: Result<(nat, Option<nat>), BuildError>)
    ensures b.Ok? ==> b.value.1.None? || b.value.0 <= b.value.1.value
    ensures b.Ok? ==> !(b.value.0 == 0 && b.value.1 == Some(0))
    ensures count.Exactly? ==> (b.Ok? <==> count.n > 0)
    ensures count.Exactly? && b.Ok? ==> b.value == (count.n, Some(count.n))
    ensures count.Between? ==>
              (b.Ok? <==> (count.min >= 0 && (count.max.None? || count.max.value >= count.min)
                           && !(count.min == 0 && count.max == Some(0))))
    ensures count.Between? && b.Ok? ==> b.value.0 == count.min
                                         && (b.value.1.Some? <==> count.max.Some?)
                                         && (count.max.Some? ==> b.value.1.value == count.max.value)
  {
    match count
    case Exactly(n) =>
      if n <= 0 then Err(NonPositiveCount) else Ok((n, Some(n)))
    case Between(lo, hi) =>
      if lo < 0 then Err(NegativeMinCount)
      else if hi.Some? && hi.value < lo then Err(MaxBelowMin)
      else if lo == 0 && hi == Some(0) then Err(ZeroRepetition)
      else Ok((lo, if hi.Some? then Some(hi.value as nat) else None))
  }

  /** `Repeat(content, count=(0, None), repl=, fmt=, sep=)`, checked in the source's order. */
  function MakeRepeat(body: Pattern, count: Count, repl: Option<seq<Item>>,
                      fmt: Option<seq<Item> -> seq<Item>>, sep: Option<string>): (r: Result<Pattern, BuildError>)
    ensures body.Repeat? ==> r == Err(NestedRepeat)
    ensures r.Ok? <==> !body.Repeat? && Bounds(count).Ok? && !(repl.Some? && fmt.Some?)
    ensures r.Ok? ==> r.value.Repeat? && r.value.body == body && r.value.sep == sep
                      && (r.value.minCount, r.value.maxCount) == Bounds(count).value
    ensures r.Ok? && repl.Some? ==> r.value.rewrite == Replace(repl.value)
    ensures r.Ok? && fmt.Some? ==> r.value.rewrite.Format? && r.value.rewrite.f == fmt.value
    ensures r.Ok? && repl.None? && fmt.None? ==> r.value.rewrite.Keep?
    ensures !body.Repeat? && Bounds(count).Err? ==> r == Err(Bounds(count).error)
    ensures !body.Repeat? && Bounds(count).Ok? && repl.Some? && fmt.Some? ==> r == Err(ExclusiveRewrites)
  {
    if body.Repeat? then Err(NestedRepeat)
    else
      var bounds :- Bounds(count);
      var rw :- RewriteOf(repl, fmt);
      Ok(Repeat(body, bounds.0, bounds.1, sep, rw))
  }

  /** `a + b`. */
  function Plus(a: Pattern, b: Pattern): (r: Pattern)
    ensures r.Sequence? && r.rewrite.Keep?
    ensures r.contents == SequencePiece(Sub(a)) + SequencePiece(Sub(b))
  {
    assert [Sub(a), Sub(b)][1..] == [Sub(b)] && [Sub(b)][1..] == [];
    assert FlattenSequence([Sub(b)]) == SequencePiece(Sub(b)) + [];
    assert FlattenSequence([Sub(a), Sub(b)]) == SequencePiece(Sub(a)) + FlattenSequence([Sub(b)]);
    MakeSequence([Sub(a), Sub(b)], None, None).value
  }

  /** `a + b` built with the corrected flattening. */
  function PlusKeepingRewrites(a: Pattern, b: Pattern): (r: Pattern)
    ensures r.Sequence? && r.rewrite.Keep?
    ensures r.contents == SequencePieceKeepingRewrites(Sub(a)) + SequencePieceKeepingRewrites(Sub(b))
  {
    assert [Sub(a), Sub(b)][1..] == [Sub(b)] && [Sub(b)][1..] == [];
    assert FlattenSequenceKeepingRewrites([Sub(b)]) == SequencePieceKeepingRewrites(Sub(b)) + [];
    assert FlattenSequenceKeepingRewrites([Sub(a), Sub(b)])
           == SequencePieceKeepingRewrites(Sub(a)) + FlattenSequenceKeepingRewrites([Sub(b)]);
    MakeSequenceKeepingRewrites([Sub(a), Sub(b)], None, None).value
  }

  /** `a | b`. */
  function Or(a: Pattern, b: Pattern): (r: Pattern)
    ensures r.Choice? && r.alternatives == ChoicePiece(a) + ChoicePiece(b)
  {
    assert [a, b][1..] == [b] && [b][1..] == [];
    assert FlattenChoice([b]) == ChoicePiece(b) + [];
    assert FlattenChoice([a, b]) == ChoicePiece(a) + FlattenChoice([b]);
    MakeChoice([a, b])
  }

  /** `a * count`. */
  function Times(a: Pattern, count: Count): (r: Result<Pattern, BuildError>)
    ensures r.Ok? <==> !a.Repeat? && Bounds(count).Ok?
    ensures r.Ok? ==> r.value.Repeat? && r.value.body == a && r.value.rewrite.Keep? && r.value.sep.None?
    ensures r.Ok? ==> (r.value.minCount, r.value.maxCount) == Bounds(count).value
    ensures a.Repeat? ==> r == Err(NestedRepeat)
    ensures !a.Repeat? && Bounds(count).Err? ==> r == Err(Bounds(count).error)
  {
    MakeRepeat(a, count, None, None, None)
  }
}
