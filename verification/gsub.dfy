/**
 * `gsub`: apply a pattern at every row of a line sequence, substituting
 * each match by what the pattern emits and keeping, dropping or rejecting
 * the lines where it does not match.
 */
module Substitution {
  import opened Basics
  import opened Patterns

  /** The errors `gsub` raises. */
  datatype GsubError =
    | DropAndStrict        // the assertion that `drop` and `strict` are not both set
    | Unmatched(row: nat)  // strict mode: the pattern did not match at `row`

  /**
   * The row the scan tries after `row`: the end of the match, or the next
   * row when the pattern fails or matches zero lines there.
   */
  function Advance(d: Matcher, lines: seq<string>, row: nat): (next: nat)
    requires Advances(d, lines)
    ensures row < next
    ensures row < |lines| ==> next <= |lines|
    ensures d(row).Some? && row < d(row).value.next ==> next == d(row).value.next
    ensures d(row).None? || d(row).value.next == row ==> next == row + 1
  {
    match d(row)
    case None => row + 1
    case Some(m) => if m.next == row then row + 1 else m.next
  }

  /** What the scan outputs for a row it tries, in lenient mode. */
  function Piece(d: Matcher, lines: seq<string>, row: nat, drop: bool): seq<Item>
    requires row < |lines|
  {
    match d(row)
    case None => if drop then [] else [Str(lines[row])]
    case Some(m) => m.items
  }

  /** The scan from `row` to the end of the lines. */
  function GsubFrom(d: Matcher, lines: seq<string>, row: nat, drop: bool, strict: bool): (r: Result<seq<Item>, GsubError>)
    requires Advances(d, lines)
    ensures !strict ==> r.Ok?
    ensures r.Err? ==> r.error.Unmatched? && row <= r.error.row < |lines| && d(r.error.row).None?
    decreases |lines| - row
  {
    if row >= |lines| then Ok([])
    else
      match d(row)
      case None =>
        if strict then Err(Unmatched(row))
        else Prepend(if drop then [] else [Str(lines[row])], GsubFrom(d, lines, row + 1, drop, strict))
      case Some(m) =>
        Prepend(m.items, GsubFrom(d, lines, Advance(d, lines, row), drop, strict))
  }

  /** `gsub(pattern, seq, drop, strict)`. */
  function Gsub(p: Pattern, lines: seq<string>, drop: bool, strict: bool): (r: Result<seq<Item>, GsubError>)
    ensures r == Err(DropAndStrict) <==> drop && strict
    ensures !strict ==> r.Ok?
    ensures r.Err? && !drop ==> r.error.Unmatched? && r.error.row < |lines| && Parse(p, lines, r.error.row).None?
  {
    if drop && strict then Err(DropAndStrict) else GsubFrom(MatcherOf(p, lines), lines, 0, drop, strict)
  }

  /** The rows the scan tries, from `row` on, in order. */
  function ScanRows(d: Matcher, lines: seq<string>, row: nat): (rows: seq<nat>)
    requires Advances(d, lines)
    ensures forall i :: 0 <= i < |rows| ==> row <= rows[i] < |lines|
    ensures row < |lines| <==> |rows| > 0
    ensures |rows| > 0 ==> rows[0] == row
    ensures forall i :: 0 <= i < |rows| - 1 ==> rows[i + 1] == Advance(d, lines, rows[i])
    ensures |rows| > 0 ==> Advance(d, lines, rows[|rows| - 1]) >= |lines|
    decreases |lines| - row
  {
    if row >= |lines| then [] else [row] + ScanRows(d, lines, Advance(d, lines, row))
  }

  /** The pieces of the given rows, in order. */
  function Pieces(d: Matcher, lines: seq<string>, rows: seq<nat>, drop: bool): seq<Item>
    requires forall i :: 0 <= i < |rows| ==> rows[i] < |lines|
  {
    if |rows| == 0 then [] else Piece(d, lines, rows[0], drop) + Pieces(d, lines, rows[1..], drop)
  }

  /**
   * The output of a lenient scan is, in original order, the emitted items
   * of the matches at the rows the scan tries interleaved with the unmatched
   * lines among them (copied, or omitted when `drop`).
   */
  lemma {:induction false} GsubConcatenatesPieces(d: Matcher, lines: seq<string>, row: nat, drop: bool)
    requires Advances(d, lines)
    ensures GsubFrom(d, lines, row, drop, false) == Ok(Pieces(d, lines, ScanRows(d, lines, row), drop))
    decreases |lines| - row
  {
    if row < |lines| {
      GsubConcatenatesPieces(d, lines, Advance(d, lines, row), drop);
      var rows := ScanRows(d, lines, row);
      assert rows[1..] == ScanRows(d, lines, Advance(d, lines, row));
    }
  }

  /** When strict mode succeeds, its output is the lenient one. */
  lemma {:induction false} StrictSuccessIsLenient(d: Matcher, lines: seq<string>, row: nat)
    requires Advances(d, lines)
    ensures GsubFrom(d, lines, row, false, true).Ok? ==>
              GsubFrom(d, lines, row, false, true) == GsubFrom(d, lines, row, false, false)
    decreases |lines| - row
  {
    if row < |lines| && d(row).Some? {
      StrictSuccessIsLenient(d, lines, Advance(d, lines, row));
    }
  }

  /** Strict mode succeeds only if the pattern matches at every row the scan tries. */
  lemma {:induction false} StrictSuccessMatchesEveryTriedRow(d: Matcher, lines: seq<string>, row: nat)
    requires Advances(d, lines)
    ensures GsubFrom(d, lines, row, false, true).Ok? ==>
              forall i :: 0 <= i < |ScanRows(d, lines, row)| ==> d(ScanRows(d, lines, row)[i]).Some?
    decreases |lines| - row
  {
    if row < |lines| && d(row).Some? {
      var next := Advance(d, lines, row);
      StrictSuccessMatchesEveryTriedRow(d, lines, next);
      var rows := ScanRows(d, lines, row);
      var rest := ScanRows(d, lines, next);
      assert rows == [row] + rest;
      assert forall i :: 1 <= i < |rows| ==> rows[i] == rest[i - 1];
    }
  }

  /** `rows[i]` is the first of `rows` where the pattern does not match. */
  predicate FirstUnmatched(d: Matcher, lines: seq<string>, rows: seq<nat>, i: nat)
  {
    i < |rows| && d(rows[i]).None? && forall j :: 0 <= j < i ==> d(rows[j]).Some?
  }

  lemma FirstUnmatchedCons(d: Matcher, lines: seq<string>, row: nat, rest: seq<nat>, i: nat)
    requires d(row).Some? && FirstUnmatched(d, lines, rest, i)
    ensures FirstUnmatched(d, lines, [row] + rest, i + 1)
  {
    var rows := [row] + rest;
    forall j | 0 <= j < i + 1 ensures d(rows[j]).Some? {
      if j > 0 {
        assert rows[j] == rest[j - 1];
      }
    }
  }

  /** Strict mode fails at the first row the scan tries where the pattern does not match. */
  lemma {:induction false} StrictFailsAtFirstUnmatchedRow(d: Matcher, lines: seq<string>, row: nat)
    requires Advances(d, lines)
    ensures GsubFrom(d, lines, row, false, true).Err? ==>
              exists i: nat :: FirstUnmatched(d, lines, ScanRows(d, lines, row), i)
                               && GsubFrom(d, lines, row, false, true).error == Unmatched(ScanRows(d, lines, row)[i])
    decreases |lines| - row
  {
    if row < |lines| {
      var rows := ScanRows(d, lines, row);
      if d(row).Some? {
        var next := Advance(d, lines, row);
        StrictFailsAtFirstUnmatchedRow(d, lines, next);
        var rest := ScanRows(d, lines, next);
        assert rows == [row] + rest;
        var strictRest := GsubFrom(d, lines, next, false, true);
        if strictRest.Err? {
          var i: nat :| FirstUnmatched(d, lines, rest, i) && strictRest.error == Unmatched(rest[i]);
          FirstUnmatchedCons(d, lines, row, rest, i);
          assert rows[i + 1] == rest[i];
        }
      } else {
        assert FirstUnmatched(d, lines, rows, 0);
      }
    }
  }

  /** Strict mode is rejected iff the pattern fails at some row the scan tries. */
  lemma StrictRejectsIffSomeTriedRowUnmatched(p: Pattern, lines: seq<string>)
    ensures var rows := ScanRows(MatcherOf(p, lines), lines, 0);
            Gsub(p, lines, false, true).Err? <==> exists i :: 0 <= i < |rows| && Parse(p, lines, rows[i]).None?
  {
    StrictFailsAtFirstUnmatchedRow(MatcherOf(p, lines), lines, 0);
    StrictSuccessMatchesEveryTriedRow(MatcherOf(p, lines), lines, 0);
  }

  /** A pattern that matches nowhere leaves the lines as they are, or drops them all, or is rejected at row 0. */
  lemma {:induction false} GsubWithoutMatches(p: Pattern, lines: seq<string>)
    requires forall i :: 0 <= i < |lines| ==> Parse(p, lines, i).None?
    ensures Gsub(p, lines, false, false) == Ok(Lines(lines))
    ensures Gsub(p, lines, true, false) == Ok([])
    ensures |lines| > 0 ==> Gsub(p, lines, false, true) == Err(Unmatched(0))
  {
    NoMatchesFrom(MatcherOf(p, lines), lines, 0);
    assert lines[0..] == lines;
  }

  lemma {:induction false} NoMatchesFrom(d: Matcher, lines: seq<string>, row: nat)
    requires Advances(d, lines)
    requires row <= |lines|
    requires forall i :: row <= i < |lines| ==> d(i).None?
    ensures GsubFrom(d, lines, row, false, false) == Ok(Lines(lines[row..]))
    ensures GsubFrom(d, lines, row, true, false) == Ok([])
    decreases |lines| - row
  {
    if row < |lines| {
      NoMatchesFrom(d, lines, row + 1);
      assert d(row).None?;
      assert GsubFrom(d, lines, row, false, false) == Prepend([Str(lines[row])], GsubFrom(d, lines, row + 1, false, false));
      assert Lines(lines[row..]) == [Str(lines[row])] + Lines(lines[row + 1..]);
      assert GsubFrom(d, lines, row, true, false) == Prepend([], GsubFrom(d, lines, row + 1, true, false));
    }
  }

  /** The pieces of every row from `row` to the end, none skipped. */
  function EveryRow(d: Matcher, lines: seq<string>, row: nat, drop: bool): seq<Item>
    decreases |lines| - row
  {
    if row >= |lines| then [] else Piece(d, lines, row, drop) + EveryRow(d, lines, row + 1, drop)
  }

  /**
   * When no match consumes more than one line (T, R and choices of them),
   * the scan tries every row, so the output is the row-by-row substitution.
   */
  lemma {:induction false} GsubOfSingleLinePattern(d: Matcher, lines: seq<string>, row: nat, drop: bool)
    requires Advances(d, lines)
    requires forall i :: row <= i < |lines| && d(i).Some? ==> d(i).value.next <= i + 1
    ensures GsubFrom(d, lines, row, drop, false) == Ok(EveryRow(d, lines, row, drop))
    decreases |lines| - row
  {
    if row < |lines| {
      assert Advance(d, lines, row) == row + 1;
      GsubOfSingleLinePattern(d, lines, row + 1, drop);
    }
  }

  /** The source's `while` loop, on the pattern's matcher. */
  method ScanGsub(d: Matcher, lines: seq<string>, drop: bool, strict: bool) returns (r: Result<seq<Item>, GsubError>)
    requires Advances(d, lines)
    ensures r == GsubFrom(d, lines, 0, drop, strict)
  {
    var replaced: seq<Item> := [];
    var row: nat := 0;
    PrependNothing(GsubFrom(d, lines, 0, drop, strict));
    while row < |lines|
      invariant row <= |lines|
      invariant GsubFrom(d, lines, 0, drop, strict) == Prepend(replaced, GsubFrom(d, lines, row, drop, strict))
      decreases |lines| - row
    {
      match d(row) {
        case None =>
          if strict {
            return Err(Unmatched(row));
          }
          var piece := if drop then [] else [Str(lines[row])];
          PrependTwice(replaced, piece, GsubFrom(d, lines, row + 1, drop, strict));
          if !drop {
            assert Lines(lines[row..row + 1]) == [Str(lines[row])];
            replaced := replaced + Lines(lines[row..row + 1]);
          } else {
            assert replaced + [] == replaced;
          }
          row := row + 1;
        case Some(m) =>
          PrependTwice(replaced, m.items, GsubFrom(d, lines, Advance(d, lines, row), drop, strict));
          replaced := replaced + m.items;
          if m.next == row {
            row := row + 1;
          } else {
            row := m.next;
          }
      }
    }
    assert replaced + [] == replaced;
    return Ok(replaced);
  }

  /** `gsub(pattern, seq, drop, strict)` as written: the option check, then the loop. */
  method RunGsub(p: Pattern, lines: seq<string>, drop: bool, strict: bool) returns (r: Result<seq<Item>, GsubError>)
    ensures r == Gsub(p, lines, drop, strict)
  {
    if drop && strict {
      return Err(DropAndStrict);
    }
    r := ScanGsub(MatcherOf(p, lines), lines, drop, strict);
  }
}
