/** Batch splitting and combining of the v2 numbered format (`BatchManager`,
    scripts/translate_v2.py:194-253) and the reply parser
    `APITranslator._parse_response` (scripts/translate_v2.py:905-918). */
module Batches {
  import opened Strings
  import opened Wrappers
  import opened NumberedV2

  // ---------------------------------------------------------------------
  // get_batch_ranges
  // ---------------------------------------------------------------------

  /** `(batch_num, start, end)`: numbers `start..end` inclusive, 1-indexed. */
  datatype Range = Range(batch: nat, start: nat, end: nat)

  /** `batch_size`: ceil(total / num_batches), or every string in one batch
      when the batch count is not positive. */
  function BatchSize(total: nat, numBatches: int): nat {
    if numBatches > 0 then (total + numBatches - 1) / numBatches else total
  }

  /** The range the loop computes for index `i`. */
  function Candidate(total: nat, size: nat, i: nat): Range {
    Range(i + 1, i * size + 1, if (i + 1) * size < total then (i + 1) * size else total)
  }

  /** The ranges kept among the candidates for indices `0..k-1`. */
  function RangesUpTo(total: nat, size: nat, k: nat): seq<Range> {
    if k == 0 then []
    else
      var c := Candidate(total, size, k - 1);
      RangesUpTo(total, size, k - 1) + (if c.start <= total then [c] else [])
  }

  function BatchRanges(total: nat, numBatches: int): seq<Range> {
    RangesUpTo(total, BatchSize(total, numBatches), if numBatches > 0 then numBatches else 0)
  }

  /** `BatchManager(total, num_batches).get_batch_ranges()`. */
  method GetBatchRanges(total: nat, numBatches: int) returns (ranges: seq<Range>)
    ensures ranges == BatchRanges(total, numBatches)
  {
    var batchSize := BatchSize(total, numBatches);
    var n := if numBatches > 0 then numBatches else 0;
    ranges := [];
    for i := 0 to n
      invariant ranges == RangesUpTo(total, batchSize, i)
    {
      var start := i * batchSize + 1;
      var end := if (i + 1) * batchSize < total then (i + 1) * batchSize else total;
      if start <= total {
        ranges := ranges + [Range(i + 1, start, end)];
      }
    }
  }

  /** How many of the first `k` candidates are kept. */
  function KeptCount(total: nat, size: nat, k: nat): nat {
    if k == 0 then 0
    else if (k - 1) * size < total then k
    else KeptCount(total, size, k - 1)
  }

  /** The kept candidates are a prefix: exactly the indices `i` with
      `i * size < total`, as long as fewer than `k`. */
  lemma {:induction false} RangesUpToPrefix(total: nat, size: nat, k: nat)
    ensures var c := KeptCount(total, size, k);
      && c <= k
      && (forall i :: 0 <= i < c ==> i * size < total)
      && (c < k ==> c * size >= total)
      && (total == 0 ==> c == 0)
      && RangesUpTo(total, size, k) == seq(c, i requires 0 <= i => Candidate(total, size, i))
  {
    if k > 0 {
      RangesUpToPrefix(total, size, k - 1);
      MulMonotone(0, k - 1, size);
      if (k - 1) * size < total {
        if k > 1 {
          assert (k - 2) * size <= (k - 1) * size by {
            assert (k - 1) * size == (k - 2) * size + size;
          }
        }
        forall i | 0 <= i < k
          ensures i * size < total
        {
          MulMonotone(i, k - 1, size);
        }
      }
    }
  }

  lemma MulMonotone(a: nat, b: nat, c: nat)
    requires a <= b
    ensures a * c <= b * c
  {
    if a < b {
      MulMonotone(a, b - 1, c);
      assert b * c == (b - 1) * c + c;
    }
  }

  /** ceil(total / n) batches of the computed size hold every string. */
  lemma BatchSizeCovers(total: nat, n: nat)
    requires n > 0
    ensures BatchSize(total, n) * n >= total
    ensures total > 0 ==> BatchSize(total, n) >= 1
  {
    var q := (total + n - 1) / n;
    assert q * n + (total + n - 1) % n == total + n - 1;
  }

  /** For a positive count of strings and of batches, the ranges start at 1,
      are numbered 1, 2, ..., never empty, contiguous, end at `total`, and
      there are at most `num_batches` of them. */
  lemma BatchRangesShape(total: nat, numBatches: int)
    requires total > 0 && numBatches > 0
    ensures var rs := BatchRanges(total, numBatches);
      && 1 <= |rs| <= numBatches
      && rs[0].start == 1
      && rs[|rs| - 1].end == total
      && (forall j :: 0 <= j < |rs| ==> rs[j].batch == j + 1 && rs[j].start <= rs[j].end)
      && (forall j :: 0 <= j < |rs| - 1 ==> rs[j + 1].start == rs[j].end + 1)
  {
    var size := BatchSize(total, numBatches);
    BatchSizeCovers(total, numBatches);
    RangesUpToPrefix(total, size, numBatches);
    var c := KeptCount(total, size, numBatches);
    var rs := BatchRanges(total, numBatches);
    assert 0 * size < total;
    forall j | 0 <= j < |rs|
      ensures rs[j].start <= rs[j].end
    {
      assert rs[j] == Candidate(total, size, j);
      assert (j + 1) * size == j * size + size;
    }
    forall j | 0 <= j < |rs| - 1
      ensures rs[j + 1].start == rs[j].end + 1
    {
      assert rs[j + 1] == Candidate(total, size, j + 1);
      assert rs[j] == Candidate(total, size, j);
    }
    assert rs[c - 1] == Candidate(total, size, c - 1);
    if c == numBatches {
      assert c * size >= total;
    }
    assert (c - 1 + 1) * size >= total;
  }

  /** With nothing to split, or no positive batch count, there are no
      ranges: the `else total_strings` branch of the size never shows. */
  lemma {:induction false} NoRanges(total: nat, numBatches: int)
    requires total == 0 || numBatches <= 0
    ensures BatchRanges(total, numBatches) == []
  {
    if numBatches > 0 {
      var size := BatchSize(total, numBatches);
      RangesUpToPrefix(total, size, numBatches);
    }
  }

  /** Contiguous ranges from 1 to `total` cover every number `1..total`. */
  lemma {:induction false} ContiguousCovers(rs: seq<Range>, total: nat, m: nat)
    requires |rs| >= 1 && rs[0].start == 1 && rs[|rs| - 1].end == total
    requires forall j :: 0 <= j < |rs| ==> rs[j].start <= rs[j].end
    requires forall j :: 0 <= j < |rs| - 1 ==> rs[j + 1].start == rs[j].end + 1
    requires 1 <= m <= total
    ensures exists j :: 0 <= j < |rs| && rs[j].start <= m <= rs[j].end
  {
    var last := |rs| - 1;
    if m < rs[last].start {
      var init := rs[..last];
      ContiguousCovers(init, rs[last - 1].end, m);
      var j :| 0 <= j < |init| && init[j].start <= m <= init[j].end;
      assert rs[j] == init[j];
    } else {
      assert rs[last].start <= m <= rs[last].end;
    }
  }

  /** Contiguous non-empty ranges do not overlap: each ends before any
      later one starts. */
  lemma {:induction false} ContiguousDisjoint(rs: seq<Range>)
    requires forall j :: 0 <= j < |rs| ==> rs[j].start <= rs[j].end
    requires forall j :: 0 <= j < |rs| - 1 ==> rs[j + 1].start == rs[j].end + 1
    ensures forall j, l :: 0 <= j < l < |rs| ==> rs[j].end < rs[l].start
  {
    if |rs| > 1 {
      var last := |rs| - 1;
      var init := rs[..last];
      ContiguousDisjoint(init);
      forall j, l | 0 <= j < l < |rs|
        ensures rs[j].end < rs[l].start
      {
        assert init[j] == rs[j];
        if l < last {
          assert init[l] == rs[l];
        } else if j < last - 1 {
          assert init[last - 1] == rs[last - 1];
        }
      }
    }
  }

  /** Every string number `1..total` falls in exactly one batch. */
  lemma BatchRangesPartition(total: nat, numBatches: int, m: nat)
    requires numBatches > 0 && 1 <= m <= total
    ensures var rs := BatchRanges(total, numBatches);
      && (exists j :: 0 <= j < |rs| && rs[j].start <= m <= rs[j].end)
      && (forall j, l :: 0 <= j < l < |rs| ==> rs[j].end < rs[l].start)
  {
    BatchRangesShape(total, numBatches);
    ContiguousCovers(BatchRanges(total, numBatches), total, m);
    ContiguousDisjoint(BatchRanges(total, numBatches));
  }

  /** The documented example: 17 strings in 4 batches. */
  lemma SeventeenInFour()
    ensures BatchRanges(17, 4) == [Range(1, 1, 5), Range(2, 6, 10), Range(3, 11, 15), Range(4, 16, 17)]
  {
    assert BatchSize(17, 4) == 5;
    assert RangesUpTo(17, 5, 1) == [Range(1, 1, 5)];
    assert RangesUpTo(17, 5, 2) == [Range(1, 1, 5), Range(2, 6, 10)];
    assert RangesUpTo(17, 5, 3) == [Range(1, 1, 5), Range(2, 6, 10), Range(3, 11, 15)];
  }

  // ---------------------------------------------------------------------
  // split_to_files: the numbered lines of one batch
  // ---------------------------------------------------------------------

  /** The lines for the numbers `start..k-1` that have a string, in
      increasing order. */
  function Selection(strings: map<nat, string>, start: nat, k: nat): seq<string>
    decreases k
  {
    if k <= start then []
    else Selection(strings, start, k - 1) + (if k - 1 in strings then [NumberLine(k - 1, strings[k - 1])] else [])
  }

  /** `for num in range(start, end + 1): if num in strings: ...`. */
  method SelectLines(strings: map<nat, string>, start: nat, end: nat) returns (lines: seq<string>)
    ensures lines == Selection(strings, start, end + 1)
  {
    lines := [];
    for num := start to if end + 1 < start then start else end + 1
      invariant lines == Selection(strings, start, num)
    {
      if num in strings {
        lines := lines + [NumberLine(num, strings[num])];
      }
    }
  }

  lemma MatchesSnoc(lines: seq<string>, line: string)
    ensures Matches(lines + [line]) == Matches(lines) + [LineMatch(line)]
  {
  }

  /** Each string of the map, stripped. */
  function StripAll(strings: map<nat, string>): (r: map<nat, string>)
    ensures r.Keys == strings.Keys
  {
    map n | n in strings :: Strip(strings[n])
  }

  /** What the lines of `Selection` assign, stated without the parser:
      the (already stripped) value of each number in `start..k-1`. */
  function SelectionAssigns(values: map<nat, string>, start: nat, k: nat): seq<Option<(nat, string)>>
    decreases k
  {
    if k <= start then []
    else SelectionAssigns(values, start, k - 1) + (if k - 1 in values then [Some((k - 1, values[k - 1]))] else [])
  }

  lemma {:induction false} SelectionMatches(strings: map<nat, string>, start: nat, k: nat)
    ensures Matches(Selection(strings, start, k)) == SelectionAssigns(StripAll(strings), start, k)
    decreases k
  {
    if k > start {
      SelectionMatches(strings, start, k - 1);
      if k - 1 in strings {
        var line := NumberLine(k - 1, strings[k - 1]);
        MatchesSnoc(Selection(strings, start, k - 1), line);
        NumberLineRead(k - 1, strings[k - 1]);
      }
    }
  }

  lemma {:induction false} SelectionAssignsRead(values: map<nat, string>, start: nat, k: nat, n: nat)
    ensures var text := Assigned(SelectionAssigns(values, start, k));
      && (n in text <==> n in values && start <= n < k)
      && (n in text ==> text[n] == values[n])
    decreases k
  {
    if k > start {
      var init := SelectionAssigns(values, start, k - 1);
      SelectionAssignsRead(values, start, k - 1, n);
      if k - 1 in values {
        var m := Some((k - 1, values[k - 1]));
        assert SelectionAssigns(values, start, k) == init + [m];
        AssignedSnoc(init, m);
        assert Assigned(SelectionAssigns(values, start, k)) == Assigned(init)[k - 1 := values[k - 1]];
      } else {
        assert SelectionAssigns(values, start, k) == init;
      }
    }
  }

  /** The lines of a batch read back as the strings of its range, each
      stripped: number `n` is read exactly when it has a string and lies in
      `start..k-1`. */
  lemma SelectionRead(strings: map<nat, string>, start: nat, k: nat, n: nat)
    ensures var text := Collect(Matches(Selection(strings, start, k))).text;
      && (n in text <==> n in strings && start <= n < k)
      && (n in text ==> text[n] == Strip(strings[n]))
  {
    SelectionMatches(strings, start, k);
    CollectText(SelectionAssigns(StripAll(strings), start, k));
    SelectionAssignsRead(StripAll(strings), start, k, n);
  }

  // ---------------------------------------------------------------------
  // combine_from_files
  // ---------------------------------------------------------------------

  /** What `combine_from_files` reads from one line: the pattern alone,
      without the comment and blank-line test of the main parser. */
  function RawMatches(lines: seq<string>): (ms: seq<Option<(nat, string)>>)
    ensures |ms| == |lines|
  {
    seq(|lines|, i requires 0 <= i < |lines| => NumberedLine(lines[i]))
  }

  /** Comment and blank lines never match the pattern, so both readings
      agree. */
  lemma RawMatchesAreMatches(lines: seq<string>)
    ensures RawMatches(lines) == Matches(lines)
  {
    forall i | 0 <= i < |lines|
      ensures RawMatches(lines)[i] == Matches(lines)[i]
    {
      NumberedLineShape(lines[i]);
    }
  }

  /** The numbered texts of one batch file. */
  function FileMap(content: string): map<nat, string> {
    Assigned(RawMatches(Split(content, '\n')))
  }

  /** Reading a single batch file is `parse_v2_numbered_format` of it. */
  lemma FileMapIsParse(content: string)
    ensures FileMap(content) == Collect(Matches(Split(content, '\n'))).text
  {
    RawMatchesAreMatches(Split(content, '\n'));
    CollectText(Matches(Split(content, '\n')));
  }

  /** The maps of the batch files, in sorted-name order. */
  function FileMaps(contents: seq<string>): (fs: seq<map<nat, string>>)
    ensures |fs| == |contents|
  {
    seq(|contents|, f requires 0 <= f < |contents| => FileMap(contents[f]))
  }

  /** The fold over the files: later files overwrite earlier ones (`+` on
      maps keeps the right operand's values). */
  function Combined(fs: seq<map<nat, string>>): map<nat, string> {
    if fs == [] then map[]
    else Combined(fs[..|fs| - 1]) + fs[|fs| - 1]
  }

  /** `combine_from_files` on the contents of the batch files. */
  method CombineFromFiles(contents: seq<string>) returns (combined: map<nat, string>)
    ensures combined == Combined(FileMaps(contents))
  {
    ghost var fs := FileMaps(contents);
    combined := map[];
    for f := 0 to |contents|
      invariant combined == Combined(fs[..f])
    {
      combined := CombineFile(combined, contents[f]);
      assert fs[..f + 1][..f] == fs[..f];
    }
    assert fs[..|contents|] == fs;
  }

  /** The inner loop of `combine_from_files`: the lines of one file,
      written over what earlier files gave. */
  method CombineFile(before: map<nat, string>, content: string) returns (combined: map<nat, string>)
    ensures combined == before + FileMap(content)
  {
    var lines := Split(content, '\n');
    ghost var ms := RawMatches(lines);
    combined := before;
    for i := 0 to |lines|
      invariant combined == before + Assigned(ms[..i])
    {
      AssignedStep(ms, i);
      var m := NumberedLine(lines[i]);
      if m.Some? {
        UnionUpdate(before, Assigned(ms[..i]), m.value.0, m.value.1);
        combined := combined[m.value.0 := m.value.1];
      }
    }
    TakeAll(ms);
  }

  /** Writing a number over a union writes it over the right operand. */
  lemma UnionUpdate(before: map<nat, string>, a: map<nat, string>, n: nat, v: string)
    ensures (before + a)[n := v] == before + a[n := v]
  {
  }

  /** A number is combined exactly when some file has it. */
  lemma {:induction false} CombinedIff(fs: seq<map<nat, string>>, n: nat)
    ensures n in Combined(fs) <==> exists f :: 0 <= f < |fs| && n in fs[f]
  {
    if fs != [] {
      var init := fs[..|fs| - 1];
      CombinedIff(init, n);
      if exists f :: 0 <= f < |init| && n in init[f] {
        var f :| 0 <= f < |init| && n in init[f];
        assert fs[f] == init[f];
      }
      if exists f :: 0 <= f < |fs| && n in fs[f] {
        var f :| 0 <= f < |fs| && n in fs[f];
        if f < |init| {
          assert init[f] == fs[f];
        }
      }
    }
  }

  /** The text kept for a number is the one from the last file that has
      it. */
  lemma {:induction false} CombinedLastWins(fs: seq<map<nat, string>>, f: nat, n: nat)
    requires f < |fs| && n in fs[f]
    requires forall g :: f < g < |fs| ==> n !in fs[g]
    ensures n in Combined(fs) && Combined(fs)[n] == fs[f][n]
  {
    if f < |fs| - 1 {
      var init := fs[..|fs| - 1];
      assert init[f] == fs[f];
      forall g | f < g < |init|
        ensures n !in init[g]
      {
        assert init[g] == fs[g];
      }
      CombinedLastWins(init, f, n);
    }
  }

  // ---------------------------------------------------------------------
  // APITranslator._parse_response
  // ---------------------------------------------------------------------

  /** A reply line is stripped before matching; only numbers of the batch
      are kept. */
  function ReplyMatch(line: string, expected: set<nat>): Option<(nat, string)> {
    var m := NumberedLine(Strip(line));
    if m.Some? && m.value.0 in expected then m else None
  }

  function ReplyMatches(lines: seq<string>, expected: set<nat>): (ms: seq<Option<(nat, string)>>)
    ensures |ms| == |lines|
  {
    seq(|lines|, i requires 0 <= i < |lines| => ReplyMatch(lines[i], expected))
  }

  /** The numbers a batch asks for. */
  function Expected(batch: seq<(nat, string)>): set<nat> {
    set p | p in batch :: p.0
  }

  /** `_parse_response(response, batch)`. */
  method ParseResponse(response: string, batch: seq<(nat, string)>) returns (results: map<nat, string>)
    ensures results == Assigned(ReplyMatches(Split(response, '\n'), Expected(batch)))
  {
    var expectedNums := Expected(batch);
    var lines := Split(response, '\n');
    ghost var ms := ReplyMatches(lines, expectedNums);
    results := map[];
    for i := 0 to |lines|
      invariant results == Assigned(ms[..i])
    {
      AssignedStep(ms, i);
      var m := ReplyMatch(lines[i], expectedNums);
      if m.Some? {
        results := results[m.value.0 := m.value.1];
      }
    }
    assert ms[..|lines|] == ms;
  }

  /** A number is in the reply's result exactly when the batch asked for it
      and some stripped reply line carries it. */
  lemma ReplyKeyIff(lines: seq<string>, expected: set<nat>, n: nat)
    ensures n in Assigned(ReplyMatches(lines, expected))
        <==> n in expected && exists i :: 0 <= i < |lines| && Numbers(Strip(lines[i]), n)
  {
    var ms := ReplyMatches(lines, expected);
    AssignedIff(ms, n);
    forall i | 0 <= i < |lines|
      ensures (ms[i].Some? && ms[i].value.0 == n) <==> (n in expected && Numbers(Strip(lines[i]), n))
    {
    }
  }

  /** A reply that repeats a number keeps its last text. */
  lemma ReplyLastWins(lines: seq<string>, expected: set<nat>, i: nat, n: nat)
    requires i < |lines| && n in expected && Numbers(Strip(lines[i]), n)
    requires forall j :: i < j < |lines| ==> !Numbers(Strip(lines[j]), n)
    ensures n in Assigned(ReplyMatches(lines, expected))
    ensures Assigned(ReplyMatches(lines, expected))[n] == NumberedLine(Strip(lines[i])).value.1
  {
    var ms := ReplyMatches(lines, expected);
    forall j | i < j < |ms| && ms[j].Some?
      ensures ms[j].value.0 != n
    {
    }
    AssignedLastWins(ms, i);
  }
}
