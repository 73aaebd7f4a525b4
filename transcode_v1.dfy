/** The v1 grouped export and its import (scripts/translate.py:484-639):
    `group_entries`, `export_grouped_format`, `parse_numbered_format` and
    `import_translations`. Texts are split on `\n` into lines; the export
    header and the JSON mapping file are parameters. */
module TranscodeV1 {
  import opened Strings
  import opened Wrappers
  import opened PoEntry
  import opened Validate
  import opened ValidateV1
  import opened NumberedV2
  import ImportV2
  import opened PoEscape

  // ---------------------------------------------------------------------
  // group_entries
  // ---------------------------------------------------------------------

  /** The entries of group `g`, in input order. */
  function Group(entries: seq<Entry>, g: string): seq<Entry> {
    Filter(entries, e => GetGroup(e) == g)
  }

  lemma GroupSnoc(entries: seq<Entry>, e: Entry, g: string)
    ensures Group(entries + [e], g) == Group(entries, g) + (if GetGroup(e) == g then [e] else [])
  {
    FilterAppend(entries, [e], x => GetGroup(x) == g);
  }

  /** `group_entries`: a group is present exactly when some entry falls in
      it, and it lists those entries in input order. */
  method GroupEntries(entries: seq<Entry>) returns (groups: map<string, seq<Entry>>)
    ensures forall g :: g in groups <==> Group(entries, g) != []
    ensures forall g :: g in groups ==> groups[g] == Group(entries, g)
  {
    groups := map[];
    for i := 0 to |entries|
      invariant forall g :: g in groups <==> Group(entries[..i], g) != []
      invariant forall g :: g in groups ==> groups[g] == Group(entries[..i], g)
    {
      var e := entries[i];
      var g := GetGroup(e);
      TakeSnoc(entries, i + 1);
      forall h
        ensures Group(entries[..i + 1], h) == Group(entries[..i], h) + (if g == h then [e] else [])
      {
        GroupSnoc(entries[..i], e, h);
      }
      if g in groups {
        groups := groups[g := groups[g] + [e]];
      } else {
        groups := groups[g := [e]];
      }
    }
    TakeAll(entries);
  }

  // ---------------------------------------------------------------------
  // The export order
  // ---------------------------------------------------------------------

  /** The entries in export order: the groups `gs` one after the other,
      input order within each group. */
  function Grouped(entries: seq<Entry>, gs: seq<string>): seq<Entry> {
    if gs == [] then [] else Grouped(entries, gs[..|gs| - 1]) + Group(entries, gs[|gs| - 1])
  }

  predicate Distinct(gs: seq<string>) {
    forall i, j :: 0 <= i < j < |gs| ==> gs[i] != gs[j]
  }

  /** Two filters with disjoint tests together keep what their union keeps. */
  lemma {:induction false} FilterUnion<T>(s: seq<T>, p: T -> bool, q: T -> bool, r: T -> bool)
    requires forall x :: x in s ==> (r(x) <==> p(x) || q(x)) && !(p(x) && q(x))
    ensures multiset(Filter(s, r)) == multiset(Filter(s, p)) + multiset(Filter(s, q))
    decreases |s|
  {
    if s != [] {
      FilterUnion(s[1..], p, q, r);
    }
  }

  lemma {:induction false} FilterNone<T>(s: seq<T>, p: T -> bool)
    requires forall x :: x in s ==> !p(x)
    ensures Filter(s, p) == []
    decreases |s|
  {
    if s != [] {
      FilterNone(s[1..], p);
    }
  }

  lemma {:induction false} FilterAll<T>(s: seq<T>, p: T -> bool)
    requires forall x :: x in s ==> p(x)
    ensures Filter(s, p) == s
    decreases |s|
  {
    if s != [] {
      FilterAll(s[1..], p);
    }
  }

  /** The groups `gs` hold exactly the entries whose group is one of them. */
  lemma {:induction false} GroupedHolds(entries: seq<Entry>, gs: seq<string>)
    requires Distinct(gs)
    ensures multiset(Grouped(entries, gs)) == multiset(Filter(entries, e => GetGroup(e) in gs))
  {
    if gs == [] {
      FilterNone(entries, e => GetGroup(e) in gs);
    } else {
      var init, g := gs[..|gs| - 1], gs[|gs| - 1];
      assert Distinct(init);
      assert g !in init;
      GroupedHolds(entries, init);
      FilterUnion(entries, e => GetGroup(e) in init, e => GetGroup(e) == g, e => GetGroup(e) in gs);
    }
  }

  lemma GroupOrderDistinct()
    ensures Distinct(GROUP_ORDER)
  {
  }

  /** The export order is a permutation of the entries: every group an
      entry can fall in is listed in `group_order`. */
  lemma GroupedIsPermutation(entries: seq<Entry>)
    ensures multiset(Grouped(entries, GROUP_ORDER)) == multiset(entries)
    ensures |Grouped(entries, GROUP_ORDER)| == |entries|
  {
    GroupOrderDistinct();
    GroupedHolds(entries, GROUP_ORDER);
    FilterAll(entries, e => GetGroup(e) in GROUP_ORDER);
    assert |multiset(Grouped(entries, GROUP_ORDER))| == |multiset(entries)|;
  }

  // ---------------------------------------------------------------------
  // export_grouped_format
  // ---------------------------------------------------------------------

  /** `msgid.replace('\n', '\\n')`: the key on one line. */
  function Display(msgid: string): (r: string)
    ensures '\n' !in r
  {
    ReplaceRemovesAll(msgid, "\n", "\\n");
    NotContainsChar(Replace(msgid, "\n", "\\n"), '\n');
    Replace(msgid, "\n", "\\n")
  }

  /** The numbered lines of a group whose first entry is number `start`. */
  function NumberedLines(es: seq<Entry>, start: nat): (r: seq<string>)
    ensures |r| == |es|
  {
    seq(|es|, i requires 0 <= i < |es| => NumberLine(start + i, Display(es[i].msgid)))
  }

  /** A present group contributes its `## name` heading (after a blank
      line) and its numbered lines; an absent one nothing. */
  function Section(es: seq<Entry>, g: string, start: nat): seq<string> {
    if es == [] then [] else ["\n## " + g] + NumberedLines(es, start)
  }

  /** The list of output lines after the header, for the groups `gs`. */
  function Sections(entries: seq<Entry>, gs: seq<string>): seq<string> {
    if gs == [] then []
    else
      var init := gs[..|gs| - 1];
      Sections(entries, init) + Section(Group(entries, gs[|gs| - 1]), gs[|gs| - 1], |Grouped(entries, init)| + 1)
  }

  /** `export_grouped_format`: the text and the number-to-key mapping.
      Entries are numbered 1..N in export order, so the mapping covers
      exactly 1..N and number `n` is the key of the `n`-th entry in that
      order. */
  method ExportGroupedFormat(header: string, entries: seq<Entry>) returns (text: string, mapping: map<nat, string>)
    ensures |Grouped(entries, GROUP_ORDER)| == |entries|
    ensures text == Join([header] + Sections(entries, GROUP_ORDER), "\n")
    ensures forall n :: n in mapping <==> 1 <= n <= |entries|
    ensures forall n :: n in mapping ==> mapping[n] == Grouped(entries, GROUP_ORDER)[n - 1].msgid
    ensures mapping == Numbering(Keys(Grouped(entries, GROUP_ORDER)))
  {
    var groups := GroupEntries(entries);
    var lines;
    lines, mapping := ExportInOrder(header, entries, GROUP_ORDER, groups);
    GroupedIsPermutation(entries);
    text := Join(lines, "\n");
    NumberingOf(mapping, Grouped(entries, GROUP_ORDER));
  }

  /** A mapping from exactly 1..N to the keys of N entries in order. */
  lemma NumberingOf(mapping: map<nat, string>, es: seq<Entry>)
    requires forall n :: n in mapping <==> 1 <= n <= |es|
    requires forall n :: n in mapping ==> mapping[n] == es[n - 1].msgid
    ensures mapping == Numbering(Keys(es))
  {
    var m := Numbering(Keys(es));
    forall n | n in mapping ensures mapping[n] == m[n] {
      KeysAt(es, n - 1);
    }
  }

  /** What the loop of `export_grouped_format` has built after the groups
      `done`: the lines, the mapping, and the next number. */
  ghost predicate Exported(header: string, entries: seq<Entry>, done: seq<string>,
                     lines: seq<string>, mapping: map<nat, string>, number: nat)
  {
    lines == [header] + Sections(entries, done) && NumberedSoFar(Grouped(entries, done), mapping, number)
  }

  /** The entries `prior` hold numbers 1.. in order and `number` is next. */
  ghost predicate NumberedSoFar(prior: seq<Entry>, mapping: map<nat, string>, number: nat) {
    && number == |prior| + 1
    && (forall n :: n in mapping <==> 1 <= n < number)
    && (forall n :: n in mapping ==> mapping[n] == prior[n - 1].msgid)
  }

  /** The loop over `group_order`, for any order `gs`. */
  method ExportInOrder(header: string, entries: seq<Entry>, gs: seq<string>, groups: map<string, seq<Entry>>)
    returns (lines: seq<string>, mapping: map<nat, string>)
    requires forall g :: g in groups <==> Group(entries, g) != []
    requires forall g :: g in groups ==> groups[g] == Group(entries, g)
    ensures lines == [header] + Sections(entries, gs)
    ensures forall n :: n in mapping <==> 1 <= n <= |Grouped(entries, gs)|
    ensures forall n :: n in mapping ==> mapping[n] == Grouped(entries, gs)[n - 1].msgid
  {
    lines := [header];
    mapping := map[];
    var number: nat := 1;
    for k := 0 to |gs|
      invariant Exported(header, entries, gs[..k], lines, mapping, number)
    {
      assert gs[..k + 1] == gs[..k] + [gs[k]];
      lines, mapping, number := ExportGroup(header, entries, gs[..k], gs[k], groups, lines, mapping, number);
    }
    assert gs[..|gs|] == gs;
  }

  lemma GroupedSnoc(entries: seq<Entry>, done: seq<string>, g: string)
    ensures Grouped(entries, done + [g]) == Grouped(entries, done) + Group(entries, g)
  {
    assert (done + [g])[..|done|] == done;
  }

  lemma SectionsSnoc(entries: seq<Entry>, done: seq<string>, g: string)
    ensures Sections(entries, done + [g]) == Sections(entries, done) + Section(Group(entries, g), g, |Grouped(entries, done)| + 1)
  {
    var gs := done + [g];
    assert gs[..|gs| - 1] == done;
    assert gs[|gs| - 1] == g;
  }

  /** The body of the outer loop for group `g`: nothing when the group is
      absent, else its heading, then one numbered line and one mapping
      entry per entry. */
  method ExportGroup(header: string, entries: seq<Entry>, done: seq<string>, g: string, groups: map<string, seq<Entry>>,
                     lines: seq<string>, mapping: map<nat, string>, number: nat)
    returns (lines': seq<string>, mapping': map<nat, string>, number': nat)
    requires forall g :: g in groups <==> Group(entries, g) != []
    requires forall g :: g in groups ==> groups[g] == Group(entries, g)
    requires Exported(header, entries, done, lines, mapping, number)
    ensures Exported(header, entries, done + [g], lines', mapping', number')
  {
    if g !in groups {
      ExportedAbsent(header, entries, done, g, lines, mapping, number);
      return lines, mapping, number;
    }
    var es := groups[g];
    lines', mapping', number' := ExportEntries(es, g, Grouped(entries, done), lines + ["\n## " + g], mapping, number);
    ExportedPresent(header, entries, done, g, lines, mapping, number, lines', mapping', number');
  }

  lemma ExportedAbsent(header: string, entries: seq<Entry>, done: seq<string>, g: string,
                       lines: seq<string>, mapping: map<nat, string>, number: nat)
    requires Group(entries, g) == []
    requires Exported(header, entries, done, lines, mapping, number)
    ensures Exported(header, entries, done + [g], lines, mapping, number)
  {
    GroupedSnoc(entries, done, g);
    SectionsSnoc(entries, done, g);
  }

  lemma ExportedPresent(header: string, entries: seq<Entry>, done: seq<string>, g: string,
                        lines: seq<string>, mapping: map<nat, string>, number: nat,
                        lines': seq<string>, mapping': map<nat, string>, number': nat)
    requires Group(entries, g) != []
    requires Exported(header, entries, done, lines, mapping, number)
    requires lines' == lines + ["\n## " + g] + NumberedLines(Group(entries, g), number)
    requires NumberedSoFar(Grouped(entries, done) + Group(entries, g), mapping', number')
    ensures Exported(header, entries, done + [g], lines', mapping', number')
  {
    GroupedSnoc(entries, done, g);
    SectionLines(header, entries, done, g, lines, lines');
  }

  lemma SectionLines(header: string, entries: seq<Entry>, done: seq<string>, g: string, lines: seq<string>, lines': seq<string>)
    requires Group(entries, g) != []
    requires lines == [header] + Sections(entries, done)
    requires lines' == lines + ["\n## " + g] + NumberedLines(Group(entries, g), |Grouped(entries, done)| + 1)
    ensures lines' == [header] + Sections(entries, done + [g])
  {
    var s, sec := Sections(entries, done), Section(Group(entries, g), g, |Grouped(entries, done)| + 1);
    SectionsSnoc(entries, done, g);
    ConcatAssoc(lines, ["\n## " + g], NumberedLines(Group(entries, g), |Grouped(entries, done)| + 1));
    ConcatAssoc([header], s, sec);
  }


  /** The inner loop: entry `j` of the group becomes line and mapping entry
      `number + j`. */
  method ExportEntries(es: seq<Entry>, g: string, ghost prior: seq<Entry>,
                       lines: seq<string>, mapping: map<nat, string>, number: nat)
    returns (lines': seq<string>, mapping': map<nat, string>, number': nat)
    requires NumberedSoFar(prior, mapping, number)
    ensures lines' == lines + NumberedLines(es, number)
    ensures NumberedSoFar(prior + es, mapping', number')
  {
    lines', mapping', number' := lines, mapping, number;
    for j := 0 to |es|
      invariant lines' == lines + NumberedLines(es, number)[..j]
      invariant number' == number + j
      invariant forall n :: n in mapping' <==> 1 <= n < number'
      invariant forall n :: n in mapping' ==> mapping'[n] == (prior + es)[n - 1].msgid
    {
      assert NumberedLines(es, number)[..j + 1] == NumberedLines(es, number)[..j] + [NumberLine(number', Display(es[j].msgid))];
      lines' := lines' + [NumberLine(number', Display(es[j].msgid))];
      mapping' := mapping'[number' := es[j].msgid];
      number' := number' + 1;
    }
    assert NumberedLines(es, number)[..|es|] == NumberedLines(es, number);
  }

  /** Every number 1..N is written on its own line, followed by the key it
      maps to, with newlines shown as `\n`. */
  lemma {:induction false} LineForEveryNumber(entries: seq<Entry>, gs: seq<string>, n: nat)
    requires 1 <= n <= |Grouped(entries, gs)|
    ensures NumberLine(n, Display(Grouped(entries, gs)[n - 1].msgid)) in Sections(entries, gs)
  {
    var init, g := gs[..|gs| - 1], gs[|gs| - 1];
    assert gs == init + [g];
    if n <= |Grouped(entries, init)| {
      LineForEveryNumber(entries, init, n);
      LineInEarlierGroup(entries, init, g, n);
    } else {
      LineInLastGroup(entries, init, g, n);
    }
  }

  lemma LineInEarlierGroup(entries: seq<Entry>, init: seq<string>, g: string, n: nat)
    requires 1 <= n <= |Grouped(entries, init)|
    requires NumberLine(n, Display(Grouped(entries, init)[n - 1].msgid)) in Sections(entries, init)
    ensures NumberLine(n, Display(Grouped(entries, init + [g])[n - 1].msgid)) in Sections(entries, init + [g])
  {
    GroupedSnoc(entries, init, g);
    SectionsSnoc(entries, init, g);
  }

  lemma LineInLastGroup(entries: seq<Entry>, init: seq<string>, g: string, n: nat)
    requires |Grouped(entries, init)| < n <= |Grouped(entries, init + [g])|
    ensures NumberLine(n, Display(Grouped(entries, init + [g])[n - 1].msgid)) in Sections(entries, init + [g])
  {
    LastGroupAt(entries, init, g, n);
    InLastSection(entries, init, g, n - |Grouped(entries, init)| - 1, n);
  }

  /** The `i`-th entry of the last group is written in its section, under
      number `n`. */
  lemma InLastSection(entries: seq<Entry>, init: seq<string>, g: string, i: nat, n: nat)
    requires i < |Group(entries, g)| && n == |Grouped(entries, init)| + 1 + i
    ensures NumberLine(n, Display(Group(entries, g)[i].msgid)) in Sections(entries, init + [g])
  {
    SectionsSnoc(entries, init, g);
    SectionLineIn(Sections(entries, init), Group(entries, g), g, |Grouped(entries, init)| + 1, i);
  }

  lemma SectionLineIn(before: seq<string>, es: seq<Entry>, g: string, start: nat, i: nat)
    requires i < |es|
    ensures NumberLine(start + i, Display(es[i].msgid)) in before + Section(es, g, start)
  {
    var sec := Section(es, g, start);
    assert sec[i + 1] == NumberedLines(es, start)[i];
    InRight(before, sec, i + 1);
  }

  lemma LastGroupAt(entries: seq<Entry>, init: seq<string>, g: string, n: nat)
    requires |Grouped(entries, init)| < n <= |Grouped(entries, init + [g])|
    ensures var k := |Grouped(entries, init)|;
      n - k - 1 < |Group(entries, g)| && Grouped(entries, init + [g])[n - 1] == Group(entries, g)[n - k - 1]
  {
    GroupedSnoc(entries, init, g);
  }

  // ---------------------------------------------------------------------
  // parse_numbered_format
  // ---------------------------------------------------------------------

  /** `re.match(r'^(\d+)\.\s*(.*)$', line)`: the number and the rest of the
      line after the dot, without its leading whitespace (v1 does not
      strip the right-hand side). */
  function NumberedLineV1(line: string): Option<(nat, string)> {
    var k := DigitRun(line);
    if 0 < k < |line| && line[k] == '.' then Some((ParseNat(line[..k]), LStrip(line[k + 1..])))
    else None
  }

  /** The state of the loop: the dictionary built so far, `current_num`
      and `current_lines`. */
  datatype Reader = Reader(translations: Numbered, current: Option<nat>, pending: seq<string>)

  /** What the loop keeps: a well-formed dictionary holding only
      non-empty texts, and only non-empty pending lines. */
  ghost predicate ReaderOk(r: Reader) {
    && Valid(r.translations)
    && (forall n :: n in r.translations.text ==> r.translations.text[n] != [])
    && (forall i :: 0 <= i < |r.pending| ==> r.pending[i] != [])
  }

  /** Saving the open entry: its lines joined by newlines, if it has any. */
  function Flush(r: Reader): (d: Numbered)
    ensures ReaderOk(r) ==> Valid(d) && forall n :: n in d.text ==> d.text[n] != []
  {
    if r.current.Some? && r.pending != [] then Put(r.translations, r.current.value, Join(r.pending, "\n"))
    else r.translations
  }

  /** One turn of the loop. A skipped line closes the open entry; a
      numbered line closes it and opens its own, with `\n` written back
      as a newline; any other line continues the open entry, if any. */
  function ReadLine(r: Reader, line: string): Reader {
    if Skipped(line) then Reader(Flush(r), None, [])
    else match NumberedLineV1(line)
      case Some((n, t)) =>
        var u := Replace(t, "\\n", "\n");
        Reader(Flush(r), Some(n), if u != [] then [u] else [])
      case None =>
        if r.current.Some? then r.(pending := r.pending + [line]) else r
  }

  function ReadAll(lines: seq<string>): Reader {
    if lines == [] then Reader(Numbered([], map[]), None, [])
    else ReadLine(ReadAll(lines[..|lines| - 1]), lines[|lines| - 1])
  }

  /** The loop keeps its invariant. */
  lemma ReadLineOk(r: Reader, line: string)
    requires ReaderOk(r)
    ensures ReaderOk(ReadLine(r, line))
  {
    if Skipped(line) {
      ReadSkippedOk(r, line);
    } else if NumberedLineV1(line).Some? {
      ReadNumberedOk(r, line);
    } else {
      ReadTextOk(r, line);
    }
  }

  lemma ReadSkippedOk(r: Reader, line: string)
    requires ReaderOk(r) && Skipped(line)
    ensures ReaderOk(ReadLine(r, line))
  {
    assert ReadLine(r, line) == Reader(Flush(r), None, []);
  }

  lemma ReadNumberedOk(r: Reader, line: string)
    requires ReaderOk(r) && !Skipped(line) && NumberedLineV1(line).Some?
    ensures ReaderOk(ReadLine(r, line))
  {
    var (n, t) := NumberedLineV1(line).value;
    ReadOpenOk(r, n, Replace(t, "\\n", "\n"));
  }

  lemma ReadOpenOk(r: Reader, n: nat, u: string)
    requires ReaderOk(r)
    ensures ReaderOk(Reader(Flush(r), Some(n), if u != [] then [u] else []))
  {
  }

  lemma ReadTextOk(r: Reader, line: string)
    requires ReaderOk(r) && !Skipped(line) && NumberedLineV1(line).None?
    ensures ReaderOk(ReadLine(r, line))
  {
    assert ReadLine(r, line) == if r.current.Some? then r.(pending := r.pending + [line]) else r;
    assert line != [];
  }

  lemma {:induction false} ReadAllOk(lines: seq<string>)
    ensures ReaderOk(ReadAll(lines))
  {
    if lines != [] {
      ReadAllOk(lines[..|lines| - 1]);
      ReadLineOk(ReadAll(lines[..|lines| - 1]), lines[|lines| - 1]);
    }
  }

  /** The dictionary `parse_numbered_format` returns for these lines. */
  function ParseNumbered(lines: seq<string>): (d: Numbered)
    ensures Valid(d)
    ensures forall n :: n in d.text ==> d.text[n] != []
  {
    ReadAllOk(lines);
    Flush(ReadAll(lines))
  }

  /** `parse_numbered_format`. */
  method ParseNumberedFormat(text: string) returns (translations: Numbered)
    ensures translations == ParseNumbered(Split(text, '\n'))
  {
    var lines := Split(text, '\n');
    translations := Numbered([], map[]);
    var currentNum: Option<nat> := None;
    var currentLines: seq<string> := [];
    for i := 0 to |lines|
      invariant Reader(translations, currentNum, currentLines) == ReadAll(lines[..i])
    {
      assert lines[..i + 1][..i] == lines[..i];
      translations, currentNum, currentLines := ReadOne(translations, currentNum, currentLines, lines[i]);
    }
    assert lines[..|lines|] == lines;
    if currentNum.Some? && currentLines != [] {
      translations := Put(translations, currentNum.value, Join(currentLines, "\n"));
    }
  }

  /** One pass of the loop body. */
  method ReadOne(translations: Numbered, currentNum: Option<nat>, currentLines: seq<string>, line: string)
    returns (translations': Numbered, currentNum': Option<nat>, currentLines': seq<string>)
    ensures Reader(translations', currentNum', currentLines') == ReadLine(Reader(translations, currentNum, currentLines), line)
  {
    translations', currentNum', currentLines' := translations, currentNum, currentLines;
    if StartsWith(line, "#") || Strip(line) == [] {
      if currentNum.Some? && currentLines != [] {
        translations' := Put(translations, currentNum.value, Join(currentLines, "\n"));
      }
      return translations', None, [];
    }
    var m := NumberedLineV1(line);
    if m.Some? {
      if currentNum.Some? && currentLines != [] {
        translations' := Put(translations, currentNum.value, Join(currentLines, "\n"));
      }
      currentNum' := Some(m.value.0);
      var textPart := Replace(m.value.1, "\\n", "\n");
      currentLines' := if textPart != [] then [textPart] else [];
    } else if currentNum.Some? {
      currentLines' := currentLines + [line];
    }
  }

  /** `N. text` with Python's `str(N)` reads back as `N` and the text,
      when the text does not start with whitespace. */
  lemma NumberedLineV1Of(n: nat, text: string)
    requires text == [] || !IsSpace(text[0])
    ensures NumberedLineV1(NatToString(n) + ". " + text) == Some((n, text))
  {
    var d := NatToString(n);
    NumberedLinePieces(d, text);
    ParseNatToString(n);
    LStripBlankPrefix(" ", text);
  }

  /** How the pattern splits `d. text`: the digits, the dot, then a space
      before the text. */
  lemma NumberedLinePieces(d: string, text: string)
    requires d != [] && AllDigits(d)
    ensures var line := d + ". " + text;
      DigitRun(line) == |d| < |line| && line[|d|] == '.' && line[..|d|] == d && line[|d| + 1..] == " " + text
  {
    var rest := ". " + text;
    ConcatAssoc(d, ". ", text);
    DigitRunPrefix(d, rest);
    assert (d + rest)[|d|..] == rest;
    assert rest[1..] == " " + text;
  }

  /** Neither comment nor blank lines can match the numbered pattern. */
  lemma SkippedNotNumbered(line: string)
    requires Skipped(line)
    ensures NumberedLineV1(line).None?
  {
    if line != [] {
      assert !IsDigit(line[0]);
    }
  }

  /** A line that starts with no digit is never a numbered line. */
  lemma NotNumbered(line: string)
    requires line == [] || !IsDigit(line[0])
    ensures NumberedLineV1(line).None?
  {
  }

  /** A text line: not a comment, not blank, and not numbered. */
  predicate Continues(line: string) {
    line != [] && line[0] != '#' && !IsSpace(line[0]) && !IsDigit(line[0])
  }

  lemma ReadContinuation(r: Reader, line: string)
    requires Continues(line)
    ensures ReadLine(r, line) == if r.current.Some? then r.(pending := r.pending + [line]) else r
  {
    assert !IsBlank(line);
    assert !Skipped(line);
    NotNumbered(line);
  }

  /** A text that reads back unchanged after `N. `. */
  predicate Keyable(t: string) {
    t != [] && !IsSpace(t[0]) && '\\' !in t
  }

  lemma ReadNumberLine(r: Reader, n: nat, t: string)
    requires Keyable(t)
    ensures ReadLine(r, NatToString(n) + ". " + t) == Reader(Flush(r), Some(n), [t])
  {
    NumberLineNotSkipped(n, t);
    NumberedLineV1Of(n, t);
    ReplaceAbsent(t, "\\n", "\n");
  }

  lemma NumberLineNotSkipped(n: nat, t: string)
    ensures !Skipped(NatToString(n) + ". " + t)
  {
    var line := NatToString(n) + ". " + t;
    assert line[0] == NatToString(n)[0];
    assert !IsBlank(line);
  }

  /** A line that follows a numbered line and is neither blank, a comment
      nor numbered is another line of the same text: the lines are joined
      with newlines. */
  lemma ContinuationJoined(n: nat, t: string, more: string)
    requires Keyable(t) && Continues(more)
    ensures ParseNumbered([NatToString(n) + ". " + t, more]).text == map[n := t + "\n" + more]
  {
    var l1 := NatToString(n) + ". " + t;
    var r1 := Reader(Numbered([], map[]), Some(n), [t]);
    ReadFirstNumber(n, t);
    ParseTwo(l1, more);
    ReadContinuation(r1, more);
    JoinedPair(n, t, more);
  }

  /** Two lines are read one after the other. */
  lemma ParseTwo(l1: string, l2: string)
    ensures ParseNumbered([l1, l2]) == Flush(ReadLine(ReadAll([l1]), l2))
  {
    ReadAllTwo(l1, l2);
  }

  lemma ReadAllTwo(l1: string, l2: string)
    ensures ReadAll([l1, l2]) == ReadLine(ReadAll([l1]), l2)
  {
    assert [l1, l2][..1] == [l1];
  }

  lemma JoinedPair(n: nat, t: string, more: string)
    ensures Flush(Reader(Numbered([], map[]), Some(n), [t] + [more])).text == map[n := t + "\n" + more]
  {
    assert [t] + [more] == [t, more];
    assert [t, more][1..] == [more];
    assert Join([more], "\n") == more;
    assert Join([t, more], "\n") == t + "\n" + more;
  }

  /** A later line for the same number replaces the earlier text. */
  lemma LaterNumberReplaces(n: nat, t: string, t': string)
    requires Keyable(t) && Keyable(t')
    ensures ParseNumbered([NatToString(n) + ". " + t, NatToString(n) + ". " + t']).text == map[n := t']
  {
    var l1, l2 := NatToString(n) + ". " + t, NatToString(n) + ". " + t';
    var r1 := Reader(Numbered([], map[]), Some(n), [t]);
    ReadFirstNumber(n, t);
    ParseTwo(l1, l2);
    ReadNumberLine(r1, n, t');
    ReplacedPair(n, t, t');
  }

  lemma ReplacedPair(n: nat, t: string, t': string)
    ensures Flush(Reader(Flush(Reader(Numbered([], map[]), Some(n), [t])), Some(n), [t'])).text == map[n := t']
  {
  }

  lemma ReadFirstNumber(n: nat, t: string)
    requires Keyable(t)
    ensures ReadAll([NatToString(n) + ". " + t]) == Reader(Numbered([], map[]), Some(n), [t])
  {
    assert [NatToString(n) + ". " + t][..0] == [];
    ReadNumberLine(ReadAll([]), n, t);
  }

  /** A number with nothing after its dot saves nothing when a blank or
      comment line follows, but takes the next text line when one does. */
  lemma EmptyTextDropped(n: nat, skip: string, more: string)
    requires Skipped(skip) && Continues(more)
    ensures ParseNumbered([NatToString(n) + ".", skip]).text == map[]
    ensures ParseNumbered([NatToString(n) + ".", more]).text == map[n := more]
  {
    var l1 := NatToString(n) + ".";
    var r1 := Reader(Numbered([], map[]), Some(n), []);
    ReadBareNumber(n);
    ParseTwo(l1, skip);
    ParseTwo(l1, more);
    ReadSkipped(r1, skip);
    ReadContinuation(r1, more);
    OpenedByText(n, more);
  }

  lemma ReadSkipped(r: Reader, line: string)
    requires Skipped(line)
    ensures ReadLine(r, line) == Reader(Flush(r), None, [])
  {
  }

  lemma OpenedByText(n: nat, more: string)
    ensures Flush(Reader(Numbered([], map[]), Some(n), [] + [more])).text == map[n := more]
  {
    assert [] + [more] == [more];
    assert Join([more], "\n") == more;
  }

  lemma ReadBareNumber(n: nat)
    ensures ReadAll([NatToString(n) + "."]) == Reader(Numbered([], map[]), Some(n), [])
  {
    var l1: string := NatToString(n) + ".";
    assert [l1][..0] == [];
    BareNumberLine(n);
    BareNotSkipped(n);
    var r0 := ReadAll([]);
    assert ReadAll([l1]) == ReadLine(r0, l1);
    assert Replace([], "\\n", "\n") == [];
  }

  lemma BareNotSkipped(n: nat)
    ensures !Skipped(NatToString(n) + ".")
  {
    var d := NatToString(n);
    assert (d + ".")[0] == d[0];
    DigitFirstNotSkipped(d + ".");
  }

  lemma DigitFirstNotSkipped(line: string)
    requires line != [] && IsDigit(line[0])
    ensures !Skipped(line)
  {
    assert !IsBlank(line);
  }

  lemma BareNumberLine(n: nat)
    ensures NumberedLineV1(NatToString(n) + ".") == Some((n, []))
  {
    var l1 := NatToString(n) + ".";
    DigitRunPrefix(NatToString(n), ".");
    assert l1[..|NatToString(n)|] == NatToString(n);
    ParseNatToString(n);
    assert l1[|NatToString(n)| + 1..] == [];
  }
  // ---------------------------------------------------------------------
  // Reading an export back
  // ---------------------------------------------------------------------

  /** What a line assigns when it opens an entry: a numbered line its
      number and unescaped text, any other line nothing. */
  function Assign(line: string): Option<(nat, string)> {
    if Skipped(line) then None
    else match NumberedLineV1(line)
      case Some((n, t)) => Some((n, Replace(t, "\\n", "\n")))
      case None => None
  }

  function Assigns(lines: seq<string>): (ms: seq<Option<(nat, string)>>)
    ensures |ms| == |lines|
  {
    seq(|lines|, i requires 0 <= i < |lines| => Assign(lines[i]))
  }

  /** A line read the same whatever precedes it: a skipped line, or a
      numbered line with text. */
  predicate SelfContained(line: string) {
    Skipped(line) || (Assign(line).Some? && Assign(line).value.1 != [])
  }

  /** On lines that each stand alone, the reader saves exactly what the
      lines assign, later assignments overwriting earlier ones. */
  lemma {:induction false} ReadSelfContained(lines: seq<string>)
    requires forall i :: 0 <= i < |lines| ==> SelfContained(lines[i])
    ensures ParseNumbered(lines) == Collect(Assigns(lines))
  {
    if lines != [] {
      var init, l := lines[..|lines| - 1], lines[|lines| - 1];
      assert forall i :: 0 <= i < |init| ==> init[i] == lines[i];
      ReadSelfContained(init);
      assert SelfContained(l);
      ReadStandalone(ReadAll(init), l);
      AssignsSnoc(lines);
      CollectStep(Assigns(lines), |init|);
    }
  }

  lemma AssignsSnoc(lines: seq<string>)
    requires lines != []
    ensures Assigns(lines)[..|lines| - 1] == Assigns(lines[..|lines| - 1])
    ensures Assigns(lines)[|lines| - 1] == Assign(lines[|lines| - 1])
  {
  }

  /** A line that stands alone saves what it assigns, whatever came before. */
  lemma ReadStandalone(r: Reader, l: string)
    requires SelfContained(l)
    ensures Flush(ReadLine(r, l)) == if Assign(l).None? then Flush(r) else Put(Flush(r), Assign(l).value.0, Assign(l).value.1)
  {
    if Skipped(l) {
      assert ReadLine(r, l) == Reader(Flush(r), None, []);
    } else {
      var (n, t) := NumberedLineV1(l).value;
      var u := Replace(t, "\\n", "\n");
      assert Assign(l) == Some((n, u));
      assert ReadLine(r, l) == Reader(Flush(r), Some(n), [u]);
    }
  }

  /** The assignments that are present. */
  function Somes(ms: seq<Option<(nat, string)>>): seq<Option<(nat, string)>> {
    Filter(ms, (m: Option<(nat, string)>) => m.Some?)
  }

  lemma {:induction false} CollectSomes(ms: seq<Option<(nat, string)>>)
    ensures Collect(Somes(ms)) == Collect(ms)
  {
    if ms != [] {
      var init, m := ms[..|ms| - 1], ms[|ms| - 1];
      assert ms == init + [m];
      CollectSomes(init);
      FilterAppend(init, [m], (m: Option<(nat, string)>) => m.Some?);
      if m.Some? {
        assert Somes([m]) == [m];
        assert (Somes(init) + [m])[..|Somes(init)|] == Somes(init);
      } else {
        assert Somes([m]) == [];
        AppendEmpty(Somes(init));
      }
    }
  }

  /** The keys of some entries, in order. */
  function Keys(es: seq<Entry>): (ks: seq<string>)
    ensures |ks| == |es|
  {
    seq(|es|, i requires 0 <= i < |es| => es[i].msgid)
  }

  /** Numbers `start`, `start + 1`, ... assigned to `keys` in turn. */
  function Pairs(keys: seq<string>, start: nat): (ps: seq<Option<(nat, string)>>)
    ensures |ps| == |keys|
  {
    seq(|keys|, i requires 0 <= i < |keys| => Some((start + i, keys[i])))
  }

  /** A key the export writes so that it reads back unchanged: not empty,
      not starting with whitespace, without backslashes. */
  predicate Exportable(msgid: string) {
    msgid != [] && !IsSpace(msgid[0]) && '\\' !in msgid
  }

  /** Writing `\n` for each newline and reading it back is the identity on
      texts without backslashes. */
  lemma DisplayRoundTrip(m: string)
    requires '\\' !in m
    ensures Replace(Display(m), "\\n", "\n") == m
  {
    var ts := Plains(m);
    RenderPlains(m);
    EscapeStep(ts, '\n', 'n');
    var marked := Mark(ts, '\n', 'n');
    assert Unambiguous(marked) by {
      forall i | 0 <= i < |marked| ensures marked[i] != Plain('\\') && marked[i] != Pair('\\') {
        assert ts[i] == Plain(m[i]);
        assert m[i] in m;
      }
    }
    UnescapeStep(marked, 'n', '\n');
    assert Sub(marked, 'n', '\n') == ts;
  }

  lemma DisplayHead(m: string)
    requires m != [] && m[0] != '\n'
    ensures Display(m) != [] && Display(m)[0] == m[0]
  {
    assert m[..1] != "\n";
  }

  /** Every numbered line of the export reads back as its number and key. */
  lemma NumberLineAssign(n: nat, m: string)
    requires Exportable(m)
    ensures Assign(NumberLine(n, Display(m))) == Some((n, m))
  {
    var d := Display(m);
    DisplayHead(m);
    NumberedLineV1Of(n, d);
    NumberLineNotSkipped(n, d);
    DisplayRoundTrip(m);
  }

  /** Lines that each stand alone and together assign `start`,
      `start + 1`, ... to `keys`, in that order. */
  ghost predicate ReadsAs(ls: seq<string>, keys: seq<string>, start: nat) {
    AllSelfContained(ls) && Somes(Assigns(ls)) == Pairs(keys, start)
  }

  ghost predicate AllSelfContained(ls: seq<string>) {
    forall i :: 0 <= i < |ls| ==> SelfContained(ls[i])
  }

  /** Skipped lines assign nothing. */
  lemma SkippedRead(ls: seq<string>, start: nat)
    requires forall i :: 0 <= i < |ls| ==> Skipped(ls[i])
    ensures ReadsAs(ls, [], start)
  {
    FilterNone(Assigns(ls), (m: Option<(nat, string)>) => m.Some?);
  }

  /** Reading two runs of lines one after the other. */
  lemma ReadConcat(la: seq<string>, ka: seq<string>, lb: seq<string>, kb: seq<string>, start: nat, mid: nat)
    requires mid == start + |ka|
    requires ReadsAs(la, ka, start) && ReadsAs(lb, kb, mid)
    ensures ReadsAs(la + lb, ka + kb, start)
  {
    AllSelfContainedConcat(la, lb);
    SomesConcat(la, ka, lb, kb, start, mid);
  }

  lemma SomesConcat(la: seq<string>, ka: seq<string>, lb: seq<string>, kb: seq<string>, start: nat, mid: nat)
    requires mid == start + |ka|
    requires Somes(Assigns(la)) == Pairs(ka, start) && Somes(Assigns(lb)) == Pairs(kb, mid)
    ensures Somes(Assigns(la + lb)) == Pairs(ka + kb, start)
  {
    AssignsAppend(la, lb);
    SomesAppend(Assigns(la), Assigns(lb));
    PairsAppend(ka, kb, start);
  }

  lemma AllSelfContainedConcat(la: seq<string>, lb: seq<string>)
    requires AllSelfContained(la) && AllSelfContained(lb)
    ensures AllSelfContained(la + lb)
  {
    forall i | 0 <= i < |la + lb| ensures SelfContained((la + lb)[i]) {
      if i < |la| {
        assert (la + lb)[i] == la[i];
      } else {
        assert (la + lb)[i] == lb[i - |la|];
      }
    }
  }

  lemma SomesAppend(a: seq<Option<(nat, string)>>, b: seq<Option<(nat, string)>>)
    ensures Somes(a + b) == Somes(a) + Somes(b)
  {
    FilterAppend(a, b, (m: Option<(nat, string)>) => m.Some?);
  }

  /** The physical lines of a group's section. */
  lemma SectionRead(es: seq<Entry>, g: string, start: nat)
    requires '\n' !in g
    requires forall i :: 0 <= i < |es| ==> Exportable(es[i].msgid)
    ensures ReadsAs(SplitEach(Section(es, g, start), '\n'), Keys(es), start)
  {
    if es == [] {
      SkippedRead([], start);
    } else {
      SectionLinesSplit(es, g, start);
      HeadingRead(g, start);
      BodyRead(es, start);
      ReadConcat(["", "## " + g], [], NumberedLines(es, start), Keys(es), start, start);
      EmptyAppend(Keys(es));
    }
  }

  lemma SectionLinesSplit(es: seq<Entry>, g: string, start: nat)
    requires '\n' !in g && es != []
    ensures SplitEach(Section(es, g, start), '\n') == ["", "## " + g] + NumberedLines(es, start)
  {
    var body := NumberedLines(es, start);
    HeadingLines(g);
    SplitEachWhole(body, '\n');
    assert Section(es, g, start)[1..] == body;
  }

  lemma HeadingRead(g: string, start: nat)
    requires '\n' !in g
    ensures ReadsAs(["", "## " + g], [], start)
  {
    HeadingLines(g);
    SkippedRead(["", "## " + g], start);
  }

  /** The numbered lines assign their numbers and keys, one each. */
  lemma BodyRead(es: seq<Entry>, start: nat)
    requires forall i :: 0 <= i < |es| ==> Exportable(es[i].msgid)
    ensures ReadsAs(NumberedLines(es, start), Keys(es), start)
  {
    BodyAssigns(es, start);
    BodySelfContained(es, start);
    FilterAll(Assigns(NumberedLines(es, start)), (m: Option<(nat, string)>) => m.Some?);
  }

  lemma BodyAssigns(es: seq<Entry>, start: nat)
    requires forall i :: 0 <= i < |es| ==> Exportable(es[i].msgid)
    ensures Assigns(NumberedLines(es, start)) == Pairs(Keys(es), start)
  {
    var ms := Assigns(NumberedLines(es, start));
    forall i | 0 <= i < |es| ensures ms[i] == Pairs(Keys(es), start)[i] {
      BodyAssignAt(es, start, i);
    }
  }

  lemma BodyAssignAt(es: seq<Entry>, start: nat, i: nat)
    requires i < |es| && Exportable(es[i].msgid)
    ensures Assigns(NumberedLines(es, start))[i] == Pairs(Keys(es), start)[i]
  {
    NumberedLinesAt(es, start, i);
    NumberLineAssign(start + i, es[i].msgid);
    PairsAt(Keys(es), start, i);
  }

  lemma BodySelfContained(es: seq<Entry>, start: nat)
    requires forall i :: 0 <= i < |es| ==> Exportable(es[i].msgid)
    ensures AllSelfContained(NumberedLines(es, start))
  {
    var body := NumberedLines(es, start);
    forall i | 0 <= i < |es| ensures SelfContained(body[i]) {
      BodyLineAt(es, start, i);
    }
  }

  lemma BodyLineAt(es: seq<Entry>, start: nat, i: nat)
    requires i < |es| && Exportable(es[i].msgid)
    ensures SelfContained(NumberedLines(es, start)[i])
  {
    NumberedLinesAt(es, start, i);
    NumberLineSelfContained(start + i, es[i].msgid);
  }

  lemma PairsAt(keys: seq<string>, start: nat, i: nat)
    requires i < |keys|
    ensures Pairs(keys, start)[i].Some?
    ensures Pairs(keys, start)[i].value.0 == start + i && Pairs(keys, start)[i].value.1 == keys[i]
  {
  }

  lemma NumberedLinesAt(es: seq<Entry>, start: nat, i: nat)
    requires i < |es|
    ensures NumberedLines(es, start)[i] == NumberLine(start + i, Display(es[i].msgid))
    ensures Assigns(NumberedLines(es, start))[i] == Assign(NumberLine(start + i, Display(es[i].msgid)))
  {
  }

  lemma NumberLineSelfContained(n: nat, m: string)
    requires Exportable(m)
    ensures Assign(NumberLine(n, Display(m))) == Some((n, m))
    ensures SelfContained(NumberLine(n, Display(m)))
  {
    NumberLineAssign(n, m);
  }

  /** The heading part `\n## name` is a blank line and a comment line. */
  lemma HeadingLines(g: string)
    requires '\n' !in g
    ensures Split("\n## " + g, '\n') == ["", "## " + g]
    ensures Skipped("") && Skipped("## " + g)
  {
    assert "\n## " + g == [] + ['\n'] + ("## " + g);
    SplitConcat([], "## " + g, '\n');
    SplitJoin(["## " + g], '\n');
    assert StartsWith("## " + g, "#");
  }

  lemma AssignsAppend(a: seq<string>, b: seq<string>)
    ensures Assigns(a + b) == Assigns(a) + Assigns(b)
  {
    var l, r := Assigns(a + b), Assigns(a) + Assigns(b);
    forall i | 0 <= i < |l|
      ensures l[i] == r[i]
    {
      if i < |a| {
        assert (a + b)[i] == a[i];
      } else {
        assert (a + b)[i] == b[i - |a|];
      }
    }
  }

  lemma KeysAt(es: seq<Entry>, i: nat)
    requires i < |es|
    ensures Keys(es)[i] == es[i].msgid
  {
  }

  lemma KeysAppend(a: seq<Entry>, b: seq<Entry>)
    ensures Keys(a + b) == Keys(a) + Keys(b)
  {
  }

  lemma PairsAppend(a: seq<string>, b: seq<string>, start: nat)
    ensures Pairs(a, start) + Pairs(b, start + |a|) == Pairs(a + b, start)
  {
    var l, r := Pairs(a, start) + Pairs(b, start + |a|), Pairs(a + b, start);
    forall i | 0 <= i < |r| ensures l[i] == r[i] {
      PairsAt(a + b, start, i);
      if i < |a| {
        PairsAt(a, start, i);
      } else {
        PairsAt(b, start + |a|, i - |a|);
      }
    }
  }

  /** The lines after the header, group by group: each stands alone, and
      together they assign 1, 2, ... to the keys in export order. */
  lemma {:induction false} SectionsRead(entries: seq<Entry>, gs: seq<string>)
    requires forall g :: g in gs ==> '\n' !in g
    requires forall e :: e in entries ==> Exportable(e.msgid)
    ensures ReadsAs(SplitEach(Sections(entries, gs), '\n'), Keys(Grouped(entries, gs)), 1)
  {
    if gs == [] {
      SkippedRead([], 1);
    } else {
      var init, g := gs[..|gs| - 1], gs[|gs| - 1];
      assert gs == init + [g];
      assert g in gs;
      SectionsRead(entries, init);
      var k := |Grouped(entries, init)|;
      var es := Group(entries, g);
      forall i | 0 <= i < |es| ensures Exportable(es[i].msgid) {
        assert es[i] in es;
      }
      SectionRead(es, g, k + 1);
      var a, b := Sections(entries, init), Section(es, g, k + 1);
      var ka := Keys(Grouped(entries, init));
      assert ReadsAs(SplitEach(a, '\n'), ka, 1);
      assert ReadsAs(SplitEach(b, '\n'), Keys(es), k + 1);
      ReadConcat(SplitEach(a, '\n'), ka, SplitEach(b, '\n'), Keys(es), 1, k + 1);
      assert Sections(entries, gs) == a + b;
      SplitEachAppend(a, b, '\n');
      GroupedSnoc(entries, init, g);
      KeysAppend(Grouped(entries, init), es);
    }
  }

  /** Numbers assigned once each, in order, read back as a dictionary
      from exactly those numbers to their keys. */
  lemma PairsCollected(keys: seq<string>, n: nat)
    ensures n in Collect(Pairs(keys, 1)).text <==> 1 <= n <= |keys|
  {
    var ps := Pairs(keys, 1);
    CollectedIff(ps, n);
    if 1 <= n <= |keys| {
      PairsAt(keys, 1, n - 1);
    }
    forall i | 0 <= i < |ps| ensures ps[i].value.0 == i + 1 {
      PairsAt(keys, 1, i);
    }
  }

  lemma PairsCollectAt(keys: seq<string>, n: nat)
    requires 1 <= n <= |keys|
    ensures n in Collect(Pairs(keys, 1)).text && Collect(Pairs(keys, 1)).text[n] == keys[n - 1]
  {
    var ps := Pairs(keys, 1);
    forall j | 0 <= j < |ps| ensures ps[j].Some? && ps[j].value.0 == j + 1 {
      PairsAt(keys, 1, j);
    }
    PairsAt(keys, 1, n - 1);
    CollectLastWins(ps, n - 1);
  }

  lemma GroupNamesOneLine()
    ensures forall g :: g in GROUP_ORDER ==> '\n' !in g
  {
  }

  /** The mapping from 1..N to the keys, in order. */
  function Numbering(keys: seq<string>): (m: map<nat, string>)
    ensures forall n :: n in m <==> 1 <= n <= |keys|
    ensures forall i :: 0 <= i < |keys| ==> m[i + 1] == keys[i]
  {
    if keys == [] then map[]
    else
      var init := keys[..|keys| - 1];
      assert forall i :: 0 <= i < |init| ==> init[i] == keys[i];
      Numbering(init)[|keys| := keys[|keys| - 1]]
  }

  /** Reading the grouped export back: for a header of comment lines and
      keys that are non-empty, start with no whitespace and hold no
      backslash, the parser returns exactly the export's mapping, number
      `n` to the `n`-th key in export order. */
  lemma ExportParseRoundTrip(header: string, entries: seq<Entry>)
    requires forall l :: l in Split(header, '\n') ==> Skipped(l)
    requires forall e :: e in entries ==> Exportable(e.msgid)
    ensures ParseNumbered(Split(Join([header] + Sections(entries, GROUP_ORDER), "\n"), '\n')).text
         == Numbering(Keys(Grouped(entries, GROUP_ORDER)))
  {
    var keys := Keys(Grouped(entries, GROUP_ORDER));
    var lines := ExportedLines(header, entries);
    ReadBack(lines, keys);
    PairsCollect(keys);
  }

  /** Lines that assign 1, 2, ... to some keys in turn parse as those
      assignments. */
  lemma ReadBack(lines: seq<string>, keys: seq<string>)
    requires ReadsAs(lines, keys, 1)
    ensures ParseNumbered(lines) == Collect(Pairs(keys, 1))
  {
    ReadSelfContained(lines);
    CollectSomes(Assigns(lines));
  }

  /** Numbers assigned once each, in order, give the dictionary from
      exactly those numbers to their keys. */
  lemma PairsCollect(keys: seq<string>)
    ensures Collect(Pairs(keys, 1)).text == Numbering(keys)
  {
    var c := Collect(Pairs(keys, 1)).text;
    forall n: nat ensures n in c <==> n in Numbering(keys) {
      PairsCollected(keys, n);
    }
    forall n | n in c ensures c[n] == Numbering(keys)[n] {
      PairsCollected(keys, n);
      PairsCollectAt(keys, n);
    }
  }

  /** The lines of the export text: the header's, then the sections'. */
  lemma ExportedLines(header: string, entries: seq<Entry>) returns (lines: seq<string>)
    requires forall l :: l in Split(header, '\n') ==> Skipped(l)
    requires forall e :: e in entries ==> Exportable(e.msgid)
    ensures lines == Split(Join([header] + Sections(entries, GROUP_ORDER), "\n"), '\n')
    ensures ReadsAs(lines, Keys(Grouped(entries, GROUP_ORDER)), 1)
  {
    var keys := Keys(Grouped(entries, GROUP_ORDER));
    var sec := Sections(entries, GROUP_ORDER);
    GroupNamesOneLine();
    SectionsRead(entries, GROUP_ORDER);
    HeaderRead(header);
    ExportSplit(header, sec);
    lines := Split(header, '\n') + SplitEach(sec, '\n');
    ReadConcat(Split(header, '\n'), [], SplitEach(sec, '\n'), keys, 1, 1);
    EmptyAppend(keys);
  }

  /** The header's own lines are comments. */
  lemma HeaderRead(header: string)
    requires forall l :: l in Split(header, '\n') ==> Skipped(l)
    ensures ReadsAs(Split(header, '\n'), [], 1)
  {
    var hs := Split(header, '\n');
    forall i | 0 <= i < |hs| ensures Skipped(hs[i]) {
      assert hs[i] in hs;
    }
    SkippedRead(hs, 1);
  }

  /** A header of `#` lines ended by a newline, the shape
      `generate_export_header` returns, meets the round trip's premise:
      its one extra line is blank. */
  lemma NewlineEndedHeader(header: string)
    requires forall l :: l in Split(header, '\n') ==> StartsWith(l, "#")
    ensures forall l :: l in Split(header + "\n", '\n') ==> Skipped(l)
    ensures Split(header + "\n", '\n') == Split(header, '\n') + [""]
  {
    assert header + "\n" == header + ['\n'] + [];
    SplitConcat(header, [], '\n');
    assert Strip("") == "";
  }

  lemma ExportSplit(header: string, sec: seq<string>)
    ensures Split(Join([header] + sec, "\n"), '\n') == Split(header, '\n') + SplitEach(sec, '\n')
  {
    SplitJoinEach([header] + sec, '\n');
    SplitEachAppend([header], sec, '\n');
    assert SplitEach([header], '\n') == Split(header, '\n') by {
      assert [header][1..] == [];
    }
  }
}
