/**
 * `split_by`: cut a line sequence into segments at the matches of a
 * delimiter pattern, found by a forward search from each segment start.
 */
module Splitting {
  import opened Basics
  import opened Patterns

  /** The error `split_by` raises: the first delimiter found at `row` consumed no line. */
  datatype SplitError = EmptyDelimiter(row: nat)

  /** A delimiter match: it starts at `start`, stops at `end` and emits `items`. */
  datatype Span = Span(start: nat, end: nat, items: seq<Item>)

  /** The first row at or after `from` where the delimiter matches. */
  function FindDelimiter(d: Matcher, lines: seq<string>, from: nat): (r: Option<nat>)
    ensures r.Some? ==> from <= r.value < |lines| && d(r.value).Some?
    ensures r.Some? ==> forall j :: from <= j < r.value ==> d(j).None?
    ensures r.None? <==> forall j :: from <= j < |lines| ==> d(j).None?
    decreases |lines| - from
  {
    if from >= |lines| then None
    else if d(from).Some? then Some(from)
    else FindDelimiter(d, lines, from + 1)
  }

  /** Conversely, the first row at or after `from` where the delimiter matches is what the search finds. */
  lemma {:induction false} FindDelimiterFindsFirstMatch(d: Matcher, lines: seq<string>, from: nat, f: nat)
    requires from <= f < |lines| && d(f).Some?
    requires forall j :: from <= j < f ==> d(j).None?
    ensures FindDelimiter(d, lines, from) == Some(f)
    decreases f - from
  {
    if from < f {
      FindDelimiterFindsFirstMatch(d, lines, from + 1, f);
    }
  }

  /** The segments from `row` on. */
  function SplitFrom(d: Matcher, lines: seq<string>, row: nat, keep: bool): (r: Result<seq<seq<Item>>, SplitError>)
    requires Advances(d, lines)
    ensures r.Ok? ==> |r.value| >= 1
    ensures r.Err? ==> && row <= r.error.row < |lines|
                       && d(r.error.row).Some?
                       && d(r.error.row).value.next == r.error.row
    decreases |lines| - row
  {
    if row >= |lines| then Ok([[]])
    else
      match FindDelimiter(d, lines, row)
      case None => Ok([Lines(lines[row..])])
      case Some(found) =>
        var m := d(found).value;
        if m.next == found then Err(EmptyDelimiter(found))
        else
          var before := [Lines(lines[row..found])] + (if keep then [m.items] else []);
          match SplitFrom(d, lines, m.next, keep)
          case Err(e) => Err(e)
          case Ok(rest) => Ok(before + rest)
  }

  /** `split_by(delimiter_pattern, seq, keep_delimiters)`. */
  function SplitBy(p: Pattern, lines: seq<string>, keep: bool): (r: Result<seq<seq<Item>>, SplitError>)
    ensures r.Ok? ==> |r.value| >= 1
    ensures r.Err? ==> r.error.row < |lines| && Parse(p, lines, r.error.row).Some?
                       && Parse(p, lines, r.error.row).value.next == r.error.row
  {
    SplitFrom(MatcherOf(p, lines), lines, 0, keep)
  }

  /** The delimiter matches the scan from `row` consumes, up to an empty match if there is one. */
  function Delimiters(d: Matcher, lines: seq<string>, row: nat): seq<Span>
    requires Advances(d, lines)
    decreases |lines| - row
  {
    if row >= |lines| then []
    else
      match FindDelimiter(d, lines, row)
      case None => []
      case Some(found) =>
        var m := d(found).value;
        if m.next == found then []
        else [Span(found, m.next, m.items)] + Delimiters(d, lines, m.next)
  }

  /** Where the data segment before delimiter `i` (or the last one, `i == |spans|`) starts. */
  function GapStart(row: nat, spans: seq<Span>, i: nat): nat
    requires i <= |spans|
  {
    if i == 0 then row else spans[i - 1].end
  }

  /**
   * The delimiter matches lie in order inside `lines[row..]`, each consumes at
   * least one line and is what the delimiter parses at its start, and the
   * delimiter matches at no row of the data segments before them.
   */
  predicate Delimits(d: Matcher, lines: seq<string>, row: nat, spans: seq<Span>)
  {
    forall i {:trigger GapStart(row, spans, i)} :: 0 <= i < |spans| ==> DelimitsAfter(d, lines, GapStart(row, spans, i), spans[i])
  }

  /**
   * One delimiter match after a data segment starting at `gap`: it consumes
   * at least one line, is what the delimiter parses at its start, and the
   * delimiter matches at no row of the segment.
   */
  predicate DelimitsAfter(d: Matcher, lines: seq<string>, gap: nat, s: Span)
  {
    && gap <= s.start < s.end <= |lines|
    && d(s.start) == Some(Parsed(s.items, s.end))
    && forall j :: gap <= j < s.start ==> d(j).None?
  }

  lemma LinesAppend(a: seq<string>, b: seq<string>)
    ensures Lines(a + b) == Lines(a) + Lines(b)
  {
  }

  /** Consing the first delimiter onto the delimiters of the rest keeps `Delimits`. */
  lemma {:induction false} DelimitsCons(d: Matcher, lines: seq<string>, row: nat, first: Span, rest: seq<Span>)
    requires DelimitsAfter(d, lines, row, first)
    requires Delimits(d, lines, first.end, rest)
    ensures Delimits(d, lines, row, [first] + rest)
    ensures forall i :: 0 <= i <= |rest| ==> GapStart(row, [first] + rest, i + 1) == GapStart(first.end, rest, i)
    ensures GapStart(row, [first] + rest, |rest| + 1) == GapStart(first.end, rest, |rest|)
  {
    var spans := [first] + rest;
    forall i | 0 <= i <= |rest| ensures GapStart(row, spans, i + 1) == GapStart(first.end, rest, i) {
      if i > 0 {
        assert spans[i] == rest[i - 1];
      }
    }
    forall i | 0 < i < |spans| ensures DelimitsAfter(d, lines, GapStart(row, spans, i), spans[i]) {
      assert spans[i] == rest[i - 1];
      assert GapStart(row, spans, i) == GapStart(first.end, rest, i - 1);
    }
  }

  /** One step of the scan: a delimiter consuming lines `f..next` found from `row`. */
  lemma {:induction false} ScanStep(d: Matcher, lines: seq<string>, row: nat, keep: bool)
    requires Advances(d, lines)
    requires row < |lines| && FindDelimiter(d, lines, row).Some?
    requires d(FindDelimiter(d, lines, row).value).value.next != FindDelimiter(d, lines, row).value
    ensures var f := FindDelimiter(d, lines, row).value;
            var m := d(f).value;
            && f < m.next <= |lines|
            && Delimiters(d, lines, row) == [Span(f, m.next, m.items)] + Delimiters(d, lines, m.next)
            && SplitFrom(d, lines, row, keep)
               == match SplitFrom(d, lines, m.next, keep)
                  case Err(e) => Err(e)
                  case Ok(rest) => Ok([Lines(lines[row..f])] + (if keep then [m.items] else []) + rest)
  {
  }

  /** The delimiters of the scan from `row`, when it finds a consuming one at `f`. */
  lemma {:induction false} DelimitersStep(d: Matcher, lines: seq<string>, row: nat, f: nat)
    requires Advances(d, lines)
    requires row < |lines| && FindDelimiter(d, lines, row) == Some(f)
    requires d(f).value.next != f
    ensures Delimiters(d, lines, row) == [Span(f, d(f).value.next, d(f).value.items)]
                                         + Delimiters(d, lines, d(f).value.next)
  {
  }

  /**
   * The delimiter matches the scan consumes lie in order, each is the
   * first match at or after the end of the previous one, and each consumes
   * at least one line.
   */
  lemma {:induction false} DelimitersDelimit(d: Matcher, lines: seq<string>, row: nat)
    requires Advances(d, lines)
    requires row <= |lines|
    ensures Delimits(d, lines, row, Delimiters(d, lines, row))
    ensures GapStart(row, Delimiters(d, lines, row), |Delimiters(d, lines, row)|) <= |lines|
    decreases |lines| - row
  {
    if row < |lines| && FindDelimiter(d, lines, row).Some? {
      var f := FindDelimiter(d, lines, row).value;
      var m := d(f).value;
      if m.next != f {
        DelimitersStep(d, lines, row, f);
        DelimitersDelimit(d, lines, m.next);
        DelimitsCons(d, lines, row, Span(f, m.next, m.items), Delimiters(d, lines, m.next));
      }
    }
  }

  /**
   * Without kept delimiters, a successful split returns exactly one more
   * segment than the delimiter matches it consumed, empty segments included;
   * with kept delimiters, twice as many plus one.
   */
  lemma {:induction false} SplitCountsSegments(d: Matcher, lines: seq<string>, row: nat, keep: bool)
    requires Advances(d, lines)
    requires SplitFrom(d, lines, row, keep).Ok?
    ensures |SplitFrom(d, lines, row, keep).value|
            == (if keep then 2 else 1) * |Delimiters(d, lines, row)| + 1
    decreases |lines| - row
  {
    if row < |lines| && FindDelimiter(d, lines, row).Some? {
      var f := FindDelimiter(d, lines, row).value;
      var m := d(f).value;
      ScanStep(d, lines, row, keep);
      SplitCountsSegments(d, lines, m.next, keep);
    }
  }

  /**
   * `segs` are the data segments around `spans` in `lines[row..]`: one more
   * than the delimiters, segment i running from the end of delimiter i - 1
   * (or `row`) to the start of delimiter i, the last one to the end.
   */
  predicate SegmentsAround(lines: seq<string>, row: nat, spans: seq<Span>, segs: seq<seq<Item>>)
  {
    && |segs| == |spans| + 1
    && GapStart(row, spans, |spans|) <= |lines|
    && (forall i {:trigger GapStart(row, spans, i)} :: 0 <= i < |spans| ==> GapStart(row, spans, i) <= spans[i].start <= |lines|)
    && (forall i {:trigger GapStart(row, spans, i)} :: 0 <= i < |spans| ==> segs[i] == Lines(lines[GapStart(row, spans, i)..spans[i].start]))
    && segs[|spans|] == Lines(lines[GapStart(row, spans, |spans|)..])
  }

  /**
   * Without kept delimiters, segment i of a successful split is exactly the
   * lines between delimiter i - 1 (or the start) and delimiter i, and the
   * last segment is everything after the last delimiter.
   */
  lemma {:induction false} SplitSegmentsBetweenDelimiters(d: Matcher, lines: seq<string>, row: nat)
    requires Advances(d, lines)
    requires row <= |lines|
    requires SplitFrom(d, lines, row, false).Ok?
    ensures SegmentsAround(lines, row, Delimiters(d, lines, row), SplitFrom(d, lines, row, false).value)
    decreases |lines| - row
  {
    if row < |lines| && FindDelimiter(d, lines, row).Some? {
      var f := FindDelimiter(d, lines, row).value;
      var m := d(f).value;
      ScanStep(d, lines, row, false);
      SplitSegmentsBetweenDelimiters(d, lines, m.next);
      SegmentsShift(lines, row, Span(f, m.next, m.items), Delimiters(d, lines, m.next),
                    SplitFrom(d, lines, row, false).value, SplitFrom(d, lines, m.next, false).value);
    }
  }

  /** The segments around the rest extend to the segments around one more delimiter in front. */
  lemma {:induction false} SegmentsShift(lines: seq<string>, row: nat, first: Span, rest: seq<Span>,
                      segs: seq<seq<Item>>, restSegs: seq<seq<Item>>)
    requires row <= first.start < first.end <= |lines|
    requires segs == [Lines(lines[row..first.start])] + restSegs
    requires SegmentsAround(lines, first.end, rest, restSegs)
    ensures SegmentsAround(lines, row, [first] + rest, segs)
  {
    var spans := [first] + rest;
    forall i | 0 <= i < |spans|
      ensures GapStart(row, spans, i) <= spans[i].start <= |lines|
      ensures segs[i] == Lines(lines[GapStart(row, spans, i)..spans[i].start])
    {
      if i > 0 {
        assert segs[i] == restSegs[i - 1];
        assert spans[i] == rest[i - 1];
        assert GapStart(row, spans, i) == GapStart(first.end, rest, i - 1) by {
          if i > 1 { assert spans[i - 1] == rest[i - 2]; }
        }
      }
    }
    assert segs[|spans|] == restSegs[|rest|];
    assert GapStart(row, spans, |spans|) == GapStart(first.end, rest, |rest|) by {
      if |rest| > 0 { assert spans[|spans| - 1] == rest[|rest| - 1]; }
    }
  }

  /** After the last delimiter of a successful split, the delimiter matches nowhere. */
  lemma {:induction false} NoDelimiterAfterLast(d: Matcher, lines: seq<string>, row: nat, keep: bool)
    requires Advances(d, lines)
    requires SplitFrom(d, lines, row, keep).Ok?
    ensures var spans := Delimiters(d, lines, row);
            forall j :: GapStart(row, spans, |spans|) <= j < |lines| ==> d(j).None?
    decreases |lines| - row
  {
    if row < |lines| && FindDelimiter(d, lines, row).Some? {
      var f := FindDelimiter(d, lines, row).value;
      var m := d(f).value;
      ScanStep(d, lines, row, keep);
      NoDelimiterAfterLast(d, lines, m.next, keep);
      var spans := Delimiters(d, lines, row);
      var rest := Delimiters(d, lines, m.next);
      assert GapStart(row, spans, |spans|) == GapStart(m.next, rest, |rest|) by {
        if |rest| > 0 { assert spans[|spans| - 1] == rest[|rest| - 1]; }
      }
    }
  }

  /** Every span lies inside `lines`. */
  predicate Within(lines: seq<string>, spans: seq<Span>)
  {
    forall i :: 0 <= i < |spans| ==> spans[i].start <= spans[i].end <= |lines|
  }

  /** The lines each delimiter match consumed. */
  function Consumed(lines: seq<string>, spans: seq<Span>): (r: seq<seq<Item>>)
    requires Within(lines, spans)
    ensures |r| == |spans|
    ensures forall i :: 0 <= i < |spans| ==> r[i] == Lines(lines[spans[i].start..spans[i].end])
  {
    seq(|spans|, i requires 0 <= i < |spans| => Lines(lines[spans[i].start..spans[i].end]))
  }

  /** Segments and the lists between them, concatenated back in order. */
  function Unsplit(segs: seq<seq<Item>>, between: seq<seq<Item>>): seq<Item>
    requires |segs| == |between| + 1
  {
    if |between| == 0 then segs[0] else segs[0] + between[0] + Unsplit(segs[1..], between[1..])
  }

  /**
   * `segs` and the lines consumed by `spans`, alternated, give back
   * `lines[row..]` exactly.
   */
  predicate Tiles(lines: seq<string>, row: nat, spans: seq<Span>, segs: seq<seq<Item>>)
    requires row <= |lines|
  {
    && Within(lines, spans)
    && |segs| == |spans| + 1
    && Unsplit(segs, Consumed(lines, spans)) == Lines(lines[row..])
  }

  /** Putting one more segment and delimiter in front of a tiling of `lines[first.end..]`. */
  lemma {:induction false} TileShift(lines: seq<string>, row: nat, first: Span, rest: seq<Span>,
                  segs: seq<seq<Item>>, restSegs: seq<seq<Item>>)
    requires row <= first.start <= first.end <= |lines|
    requires segs == [Lines(lines[row..first.start])] + restSegs
    requires Tiles(lines, first.end, rest, restSegs)
    ensures Tiles(lines, row, [first] + rest, segs)
  {
    var spans := [first] + rest;
    assert Within(lines, spans) by {
      forall i | 0 < i < |spans| ensures spans[i] == rest[i - 1] { }
    }
    assert Consumed(lines, spans)[1..] == Consumed(lines, rest);
    assert segs[1..] == restSegs;
    assert lines[row..] == lines[row..first.start] + lines[first.start..first.end] + lines[first.end..];
    LinesAppend(lines[row..first.start] + lines[first.start..first.end], lines[first.end..]);
    LinesAppend(lines[row..first.start], lines[first.start..first.end]);
  }

  /**
   * Tiling: the data segments and the lines each delimiter consumed,
   * concatenated in order, give back the input lines exactly.
   */
  lemma {:induction false} SegmentsAndDelimitersTileInput(d: Matcher, lines: seq<string>, row: nat)
    requires Advances(d, lines)
    requires row <= |lines|
    requires SplitFrom(d, lines, row, false).Ok?
    ensures Tiles(lines, row, Delimiters(d, lines, row), SplitFrom(d, lines, row, false).value)
    decreases |lines| - row
  {
    if row < |lines| && FindDelimiter(d, lines, row).Some? {
      var f := FindDelimiter(d, lines, row).value;
      var m := d(f).value;
      ScanStep(d, lines, row, false);
      SegmentsAndDelimitersTileInput(d, lines, m.next);
      TileShift(lines, row, Span(f, m.next, m.items), Delimiters(d, lines, m.next),
                SplitFrom(d, lines, row, false).value, SplitFrom(d, lines, m.next, false).value);
    }
  }

  /** Segments with each delimiter's emitted result inserted between its two neighbours. */
  function Interleave(segs: seq<seq<Item>>, delims: seq<seq<Item>>): seq<seq<Item>>
  {
    if |segs| == 0 || |delims| == 0 then segs
    else [segs[0], delims[0]] + Interleave(segs[1..], delims[1..])
  }

  /** What each delimiter match emitted. */
  function Emitted(spans: seq<Span>): (r: seq<seq<Item>>)
    ensures |r| == |spans| && forall i :: 0 <= i < |spans| ==> r[i] == spans[i].items
  {
    seq(|spans|, i requires 0 <= i < |spans| => spans[i].items)
  }

  /** One more segment and delimiter in front of an interleaving. */
  lemma {:induction false} InterleaveShift(seg: seq<Item>, first: Span, rest: seq<Span>,
                        plainRest: seq<seq<Item>>, keptRest: seq<seq<Item>>)
    requires |plainRest| >= 1
    requires keptRest == Interleave(plainRest, Emitted(rest))
    ensures [seg] + [first.items] + keptRest == Interleave([seg] + plainRest, Emitted([first] + rest))
  {
    var plain := [seg] + plainRest;
    var emitted := Emitted([first] + rest);
    assert emitted[1..] == Emitted(rest);
    assert plain[1..] == plainRest;
    assert Interleave(plain, emitted) == [plain[0], emitted[0]] + Interleave(plain[1..], emitted[1..]);
  }

  /**
   * Keeping delimiters changes neither whether the split fails nor where;
   * on success it inserts each delimiter's emitted result between the two
   * segments around it.
   */
  lemma {:induction false} KeptDelimitersSitBetweenSegments(d: Matcher, lines: seq<string>, row: nat)
    requires Advances(d, lines)
    ensures SplitFrom(d, lines, row, true).Err? <==> SplitFrom(d, lines, row, false).Err?
    ensures SplitFrom(d, lines, row, true).Err? ==> SplitFrom(d, lines, row, true) == SplitFrom(d, lines, row, false)
    ensures SplitFrom(d, lines, row, true).Ok? ==>
              SplitFrom(d, lines, row, true).value
              == Interleave(SplitFrom(d, lines, row, false).value, Emitted(Delimiters(d, lines, row)))
    decreases |lines| - row
  {
    if row < |lines| && FindDelimiter(d, lines, row).Some? {
      var f := FindDelimiter(d, lines, row).value;
      var m := d(f).value;
      if m.next != f {
        ScanStep(d, lines, row, false);
        ScanStep(d, lines, row, true);
        KeptDelimitersSitBetweenSegments(d, lines, m.next);
        if SplitFrom(d, lines, m.next, false).Ok? {
          InterleaveShift(Lines(lines[row..f]), Span(f, m.next, m.items), Delimiters(d, lines, m.next),
                          SplitFrom(d, lines, m.next, false).value, SplitFrom(d, lines, m.next, true).value);
        }
      }
    }
  }

  /**
   * A failing split stops at the first delimiter match found after the last
   * consumed delimiter, and that match is zero-width.
   */
  lemma {:induction false} SplitFailsOnEmptyDelimiter(d: Matcher, lines: seq<string>, row: nat, keep: bool)
    requires Advances(d, lines)
    requires SplitFrom(d, lines, row, keep).Err?
    ensures var spans := Delimiters(d, lines, row);
            && Delimits(d, lines, row, spans)
            && EmptyMatchAfter(d, lines, GapStart(row, spans, |spans|), SplitFrom(d, lines, row, keep).error.row)
    decreases |lines| - row
  {
    var f := FindDelimiter(d, lines, row).value;
    SplitAfterSearch(d, lines, row, f, keep);
    var m := d(f).value;
    if m.next != f {
      DelimitersStep(d, lines, row, f);
      SplitFailsOnEmptyDelimiter(d, lines, m.next, keep);
      DelimitsCons(d, lines, row, Span(f, m.next, m.items), Delimiters(d, lines, m.next));
    }
  }

  /**
   * The delimiter matches the empty sequence at row `e`, and at no row of the
   * data segment from `gap` up to it.
   */
  predicate EmptyMatchAfter(d: Matcher, lines: seq<string>, gap: nat, e: nat)
  {
    && gap <= e < |lines|
    && d(e).Some? && d(e).value.next == e
    && forall j :: gap <= j < e ==> d(j).None?
  }

  /** With no delimiter match anywhere the split is the whole input; empty input gives one empty segment. */
  lemma SplitWithoutDelimiter(p: Pattern, lines: seq<string>, keep: bool)
    ensures (forall j :: 0 <= j < |lines| ==> Parse(p, lines, j).None?) ==> SplitBy(p, lines, keep) == Ok([Lines(lines)])
    ensures |lines| == 0 ==> SplitBy(p, lines, keep) == Ok([[]])
  {
    assert lines[0..] == lines;
    var d := MatcherOf(p, lines);
    if forall j :: 0 <= j < |lines| ==> Parse(p, lines, j).None? {
      assert FindDelimiter(d, lines, 0).None?;
    }
  }

  /** The `for ... else` search of `split_by`: the first delimiter row at or after `row`, or `|lines|`. */
  method SearchDelimiter(d: Matcher, lines: seq<string>, row: nat) returns (found: nat)
    requires row <= |lines|
    ensures found <= |lines|
    ensures found == |lines| <==> FindDelimiter(d, lines, row).None?
    ensures found < |lines| ==> FindDelimiter(d, lines, row) == Some(found)
  {
    found := row;
    while found < |lines| && d(found).None?
      invariant row <= found <= |lines|
      invariant forall j :: row <= j < found ==> d(j).None?
      decreases |lines| - found
    {
      found := found + 1;
    }
  }

  /** The outcome of the scan from `row` when the first delimiter match from there is at `found`. */
  lemma {:induction false} SplitAfterSearch(d: Matcher, lines: seq<string>, row: nat, found: nat, keep: bool)
    requires Advances(d, lines)
    requires row < |lines|
    requires found < |lines| && FindDelimiter(d, lines, row) == Some(found)
    ensures var m := d(found).value;
            && (m.next == found ==> SplitFrom(d, lines, row, keep) == Err(EmptyDelimiter(found)))
            && (m.next != found ==>
                  SplitFrom(d, lines, row, keep)
                  == Prepend([Lines(lines[row..found])] + (if keep then [m.items] else []), SplitFrom(d, lines, m.next, keep)))
  {
  }

  /**
   * The loop of `split_by` as written: a forward search for the next
   * delimiter match, a segment before it, the delimiter's result when kept,
   * and an empty segment once the delimiters consume the last line.
   */
  method ScanSplits(d: Matcher, lines: seq<string>, keep: bool) returns (r: Result<seq<seq<Item>>, SplitError>)
    requires Advances(d, lines)
    ensures r == SplitFrom(d, lines, 0, keep)
  {
    var splitted: seq<seq<Item>> := [];
    var row: nat := 0;
    PrependNothing(SplitFrom(d, lines, 0, keep));
    while row < |lines|
      invariant row <= |lines|
      invariant SplitFrom(d, lines, 0, keep) == Prepend(splitted, SplitFrom(d, lines, row, keep))
      decreases |lines| - row
    {
      var found := SearchDelimiter(d, lines, row);
      if found == |lines| {
        return Ok(splitted + [Lines(lines[row..])]);
      }
      SplitAfterSearch(d, lines, row, found, keep);
      var m := d(found).value;
      if m.next == found {
        return Err(EmptyDelimiter(found));
      }
      var before := [Lines(lines[row..found])] + (if keep then [m.items] else []);
      PrependTwice(splitted, before, SplitFrom(d, lines, m.next, keep));
      splitted := splitted + before;
      row := m.next;
    }
    assert SplitFrom(d, lines, row, keep) == Ok([[]]);
    return Ok(splitted + [[]]);
  }

  /** `split_by(delimiter_pattern, seq, keep_delimiters)` run on the delimiter's matcher. */
  method RunSplitBy(p: Pattern, lines: seq<string>, keep: bool) returns (r: Result<seq<seq<Item>>, SplitError>)
    ensures r == SplitBy(p, lines, keep)
  {
    r := ScanSplits(MatcherOf(p, lines), lines, keep);
  }
}
