/**
 * The pattern algebra of seqpat: five node kinds, their construction-time
 * validation and flattening, and the `parse(seq, row)` contract every node
 * implements. A line sequence is a `seq<string>`; a row is an index into it.
 */
module Patterns {
  import opened Basics

  /** An emitted item: a line, Python's `None`, or a tuple built by a callback. */
  datatype Item = Str(text: string) | Null | Tuple(parts: seq<Item>)

  /**
   * What a successful regular-expression match exposes to callbacks: the
   * captured groups, group 0 being the matched prefix of the line; a group
   * that did not take part in the match is `None`.
   */
  datatype RegexMatch = RegexMatch(groups: seq<Option<string>>)

  /**
   * A compiled regular expression with its flags, applied with `match`
   * semantics (anchored at the start of the line). The regex engine is not
   * part of this model, so a regex is any total function of the line.
   */
  type Regex = string -> Option<RegexMatch>

  /** The single rewrite rule of a Sequence or Repeat node. */
  datatype Rewrite =
    | Keep                                       // neither `repl` nor `fmt`
    | Replace(items: seq<Item>)                  // `repl`
    | Format(f: seq<Item> -> seq<Item>)          // `fmt`, given the emitted items positionally

  /** The single rewrite rule of an R node. */
  datatype LineRewrite =
    | KeepLine                                   // no option set
    | ReplaceLine(items: seq<Item>)              // `repl`
    | FormatText(fmt: string -> seq<Item>)       // `fmt`, given the line
    | FormatMatch(fmtMatch: RegexMatch -> seq<Item>)  // `fmt_match`, given the match object
    | FormatGroups(fmtGroup: seq<Option<string>> -> seq<Item>) // `fmt_group`, given the group accessor

  /** A child of a Sequence: a literal string emitted as is, or a pattern. */
  datatype Element = Text(text: string) | Sub(pattern: Pattern)

  /** The five pattern kinds. */
  datatype Pattern =
    | T(text: string, repl: Option<seq<Item>>)
    | R(regex: Regex, lineRewrite: LineRewrite)
    | Sequence(contents: seq<Element>, rewrite: Rewrite)
    | Choice(alternatives: seq<Pattern>)
    | Repeat(body: Pattern, minCount: nat, maxCount: Option<nat>, sep: Option<string>, rewrite: Rewrite)

  /** A successful parse: the emitted items and the row after the match. */
  datatype Parsed = Parsed(items: seq<Item>, next: nat)

  /** The state of the Repeat loop: repetitions so far, current row, emitted items. */
  datatype Run = Run(count: nat, row: nat, items: seq<Item>)

  /** A line sequence as emitted items, one `Str` per line. */
  function Lines(lines: seq<string>): (r: seq<Item>)
    ensures |r| == |lines| && forall i :: 0 <= i < |lines| ==> r[i] == Str(lines[i])
  {
    seq(|lines|, i requires 0 <= i < |lines| => Str(lines[i]))
  }

  /** The items a Sequence or Repeat node emits for its raw emitted items. */
  function Apply(rw: Rewrite, items: seq<Item>): seq<Item>
  {
    match rw
    case Keep => items
    case Replace(r) => r
    case Format(f) => f(items)
  }

  /** The items an R node emits for a matched line. */
  function ApplyLine(rw: LineRewrite, line: string, m: RegexMatch): seq<Item>
  {
    match rw
    case KeepLine => [Str(line)]
    case ReplaceLine(r) => r
    case FormatText(f) => f(line)
    case FormatMatch(f) => f(m)
    case FormatGroups(f) => f(m.groups)
  }

  /** Rows left before the end of `lines`, or 0 past it. */
  function Slack(lines: seq<string>, row: nat): nat
  {
    if row <= |lines| then |lines| - row else 0
  }

  /** Repetitions still needed to reach the minimum count. */
  function Missing(minCount: nat, count: nat): nat
  {
    if count < minCount then minCount - count else 0
  }

  /** Sum of a sequence of sizes. */
  ghost function Sum(xs: seq<nat>): nat
  {
    if |xs| == 0 then 0 else xs[0] + Sum(xs[1..])
  }

  /** Number of nodes and literal strings in a pattern tree: the termination measure of parsing. */
  ghost function Size(p: Pattern): nat
    decreases p
  {
    match p
    case T(_, _) => 1
    case R(_, _) => 1
    case Sequence(contents, _) =>
      1 + Sum(seq(|contents|, i requires 0 <= i < |contents| => ElementSize(contents[i])))
    case Choice(alternatives) =>
      1 + Sum(seq(|alternatives|, i requires 0 <= i < |alternatives| => Size(alternatives[i])))
    case Repeat(body, _, _, _, _) => 1 + Size(body)
  }

  ghost function ElementSize(e: Element): nat
    decreases e
  {
    if e.Sub? then Size(e.pattern) else 1
  }

  ghost function ContentsSize(contents: seq<Element>): nat
  {
    Sum(seq(|contents|, i requires 0 <= i < |contents| => ElementSize(contents[i])))
  }

  ghost function AlternativesSize(alternatives: seq<Pattern>): nat
  {
    Sum(seq(|alternatives|, i requires 0 <= i < |alternatives| => Size(alternatives[i])))
  }

  lemma ContentsSizeCons(contents: seq<Element>)
    requires |contents| > 0
    ensures ContentsSize(contents) == ElementSize(contents[0]) + ContentsSize(contents[1..])
  {
    var xs := seq(|contents|, i requires 0 <= i < |contents| => ElementSize(contents[i]));
    assert xs[1..] == seq(|contents| - 1, i requires 0 <= i < |contents| - 1 => ElementSize(contents[1..][i]));
  }

  lemma AlternativesSizeCons(alternatives: seq<Pattern>)
    requires |alternatives| > 0
    ensures AlternativesSize(alternatives) == Size(alternatives[0]) + AlternativesSize(alternatives[1..])
  {
    var xs := seq(|alternatives|, i requires 0 <= i < |alternatives| => Size(alternatives[i]));
    assert xs[1..] == seq(|alternatives| - 1, i requires 0 <= i < |alternatives| - 1 => Size(alternatives[1..][i]));
  }

  /**
   * `p.parse(lines, row)`: `None` when the pattern does not match at `row`.
   * A match never moves backwards, never moves past the end of the lines
   * when it starts inside them, and never moves at all when it starts past
   * the end.
   */
  function Parse(p: Pattern, lines: seq<string>, row: nat): (r: Option<Parsed>)
    ensures r.Some? ==> row <= r.value.next
    ensures r.Some? && row <= |lines| ==> r.value.next <= |lines|
    ensures r.Some? && row > |lines| ==> r.value.next == row
    decreases Size(p), 0
  {
    match p
    case T(text, repl) =>
      if row >= |lines| || lines[row] != text then None
      else Some(Parsed(if repl.Some? then repl.value else [Str(lines[row])], row + 1))
    case R(regex, rw) =>
      if row >= |lines| then None
      else (match regex(lines[row])
        case None => None
        case Some(m) => Some(Parsed(ApplyLine(rw, lines[row], m), row + 1)))
    case Sequence(contents, rw) =>
      assert Size(p) == 1 + ContentsSize(contents);
      (match ParseSeq(contents, lines, row)
       case None => None
       case Some(raw) => Some(Parsed(Apply(rw, raw.items), raw.next)))
    case Choice(alternatives) =>
      assert Size(p) == 1 + AlternativesSize(alternatives);
      ParseChoice(alternatives, lines, row)
    case Repeat(body, minCount, maxCount, sep, rw) =>
      var run := RepeatLoop(body, minCount, maxCount, sep, lines, Run(0, row, []));
      if run.count < minCount then None
      else Some(Parsed(Apply(rw, run.items), run.row))
  }

  /** The children of a Sequence, threaded left to right, without the node's rewrite. */
  function ParseSeq(contents: seq<Element>, lines: seq<string>, row: nat): (r: Option<Parsed>)
    ensures r.Some? ==> row <= r.value.next
    ensures r.Some? && row <= |lines| ==> r.value.next <= |lines|
    ensures r.Some? && row > |lines| ==> r.value.next == row
    decreases ContentsSize(contents), 1
  {
    if |contents| == 0 then Some(Parsed([], row))
    else
      ContentsSizeCons(contents);
      match contents[0]
      case Text(s) =>
        (match ParseSeq(contents[1..], lines, row)
         case None => None
         case Some(rest) => Some(Parsed([Str(s)] + rest.items, rest.next)))
      case Sub(q) =>
        match Parse(q, lines, row)
        case None => None
        case Some(first) =>
          match ParseSeq(contents[1..], lines, first.next)
          case None => None
          case Some(rest) => Some(Parsed(first.items + rest.items, rest.next))
  }

  /** The alternatives of a Choice, tried in order. */
  function ParseChoice(alternatives: seq<Pattern>, lines: seq<string>, row: nat): (r: Option<Parsed>)
    ensures r.Some? ==> row <= r.value.next
    ensures r.Some? && row <= |lines| ==> r.value.next <= |lines|
    ensures r.Some? && row > |lines| ==> r.value.next == row
    decreases AlternativesSize(alternatives), 1
  {
    if |alternatives| == 0 then None
    else
      AlternativesSizeCons(alternatives);
      match Parse(alternatives[0], lines, row)
      case Some(m) => Some(m)
      case None => ParseChoice(alternatives[1..], lines, row)
  }

  /**
   * The `while` loop of `Repeat.parse`, from state `s`: stops when the
   * maximum is reached, when the body fails, or after a zero-width
   * repetition once the minimum is met.
   */
  function RepeatLoop(body: Pattern, minCount: nat, maxCount: Option<nat>, sep: Option<string>,
                      lines: seq<string>, s: Run): (run: Run)
    ensures s.row <= run.row
    ensures s.row <= |lines| ==> run.row <= |lines|
    ensures s.row > |lines| ==> run.row == s.row
    ensures s.count <= run.count
    decreases Size(body), 1 + Slack(lines, s.row) + Missing(minCount, s.count)
  {
    if maxCount.Some? && s.count >= maxCount.value then s
    else
      match Parse(body, lines, s.row)
      case None => s
      case Some(m) =>
        var items := s.items + (if sep.Some? && s.count >= 1 then [Str(sep.value)] else []) + m.items;
        var s' := Run(s.count + 1, m.next, items);
        if m.next == s.row && s'.count >= minCount then s'
        else RepeatLoop(body, minCount, maxCount, sep, lines, s')
  }

  /** A pattern applied at every row of one line sequence: `d(j)` is `p.parse(lines, j)`. */
  type Matcher = nat -> Option<Parsed>

  /** The matcher of pattern `p` on `lines`. */
  function MatcherOf(p: Pattern, lines: seq<string>): (d: Matcher)
    ensures Advances(d, lines)
    ensures forall j :: d(j) == Parse(p, lines, j)
  {
    (j: nat) => Parse(p, lines, j)
  }

  /**
   * What every pattern's parse guarantees: a match never moves backwards,
   * never past the end of the lines when it starts inside them, and not at
   * all when it starts past the end.
   */
  ghost predicate Advances(d: Matcher, lines: seq<string>)
  {
    forall j: nat :: d(j).Some? ==>
      && j <= d(j).value.next
      && (j <= |lines| ==> d(j).value.next <= |lines|)
      && (j > |lines| ==> d(j).value.next == j)
  }
}
