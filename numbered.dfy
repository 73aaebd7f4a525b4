/** The v2 numbered text format (scripts/translate_v2.py:535-666): export
    numbering and mapping, `parse_v2_numbered_format`, and the validated
    import loop of `import_v2_format`. Files are texts split on `\n`. */
module NumberedV2 {
  import opened Strings
  import opened Wrappers
  import opened PoEntry
  import opened Validate

  // ---------------------------------------------------------------------
  // One numbered line: re.match(r'^(\d+)\.\s*(.*)$', line)
  // ---------------------------------------------------------------------

  /** The number and the stripped text of a line `N. text`, or `None`.
      Whatever `\s*` consumes, `group(2).strip()` is the stripped rest of
      the line after the dot. */
  function NumberedLine(line: string): (r: Option<(nat, string)>)
  {
    var k := DigitRun(line);
    if 0 < k < |line| && line[k] == '.' then Some((ParseNat(line[..k]), Strip(line[k + 1..])))
    else None
  }

  /** `line` is a numbered line for `n`. */
  predicate Numbers(line: string, n: nat) {
    NumberedLine(line).Some? && NumberedLine(line).value.0 == n
  }

  /** The comment and blank lines the parser skips. */
  predicate Skipped(line: string) {
    StartsWith(line, "#") || Strip(line) == []
  }

  /** Skipping comment and blank lines changes nothing: neither kind can
      match the numbered-line pattern. The text of a match is stripped. */
  lemma NumberedLineShape(line: string)
    ensures Skipped(line) ==> NumberedLine(line).None?
    ensures NumberedLine(line).Some? ==> Stripped(NumberedLine(line).value.1)
  {
    if line != [] && (StartsWith(line, "#") || Strip(line) == []) {
      assert !IsDigit(line[0]);
    }
  }

  /** Numbering `N. text` with Python's `str(N)` reads back as `N` and the
      stripped text. */
  lemma NumberedLineOf(n: nat, text: string)
    ensures NumberedLine(NatToString(n) + ". " + text) == Some((n, Strip(text)))
  {
    var d := NatToString(n);
    var line := d + ". " + text;
    assert line == d + (". " + text);
    DigitRunPrefix(d, ". " + text);
    assert line[..|d|] == d;
    assert line[|d|] == '.';
    assert line[|d| + 1..] == " " + text;
    ParseNatToString(n);
    StripBlankPrefix(" ", text);
  }

  // ---------------------------------------------------------------------
  // Dictionaries keyed by number, in insertion order
  // ---------------------------------------------------------------------

  /** A Python dict from numbers to texts: the values and the order in
      which keys were first inserted (the order `items()` visits). */
  datatype Numbered = Numbered(order: seq<nat>, text: map<nat, string>)

  ghost predicate Valid(d: Numbered) {
    (forall n :: n in d.text <==> n in d.order)
    && (forall i, j :: 0 <= i < j < |d.order| ==> d.order[i] != d.order[j])
  }

  /** `d[n] = v`: a new key goes last, an existing key keeps its place. */
  function Put(d: Numbered, n: nat, v: string): (r: Numbered)
    ensures Valid(d) ==> Valid(r)
    ensures r.text == d.text[n := v]
  {
    if n in d.text then d.(text := d.text[n := v]) else Numbered(d.order + [n], d.text[n := v])
  }

  /** A run of `d[n] = v` assignments, one per match, in order; `None`
      stands for a line that assigns nothing. */
  function Collect(ms: seq<Option<(nat, string)>>): (d: Numbered)
    ensures Valid(d)
  {
    if ms == [] then Numbered([], map[])
    else
      var d := Collect(ms[..|ms| - 1]);
      match ms[|ms| - 1]
        case None => d
        case Some(p) => Put(d, p.0, p.1)
  }

  /** The values a run of assignments leaves, without the key order. */
  function Assigned(ms: seq<Option<(nat, string)>>): map<nat, string> {
    if ms == [] then map[]
    else
      var m := Assigned(ms[..|ms| - 1]);
      match ms[|ms| - 1]
        case None => m
        case Some(p) => m[p.0 := p.1]
  }

  lemma {:induction false} CollectText(ms: seq<Option<(nat, string)>>)
    ensures Collect(ms).text == Assigned(ms)
  {
    if ms != [] {
      CollectText(ms[..|ms| - 1]);
    }
  }

  lemma AssignedStep(ms: seq<Option<(nat, string)>>, i: nat)
    requires i < |ms|
    ensures Assigned(ms[..i + 1]) == (if ms[i].None? then Assigned(ms[..i]) else Assigned(ms[..i])[ms[i].value.0 := ms[i].value.1])
  {
    assert ms[..i + 1][..i] == ms[..i];
  }

  lemma AssignedSnoc(ms: seq<Option<(nat, string)>>, m: Option<(nat, string)>)
    ensures Assigned(ms + [m]) == if m.None? then Assigned(ms) else Assigned(ms)[m.value.0 := m.value.1]
  {
    assert (ms + [m])[..|ms|] == ms;
  }

  lemma CollectStep(ms: seq<Option<(nat, string)>>, i: nat)
    requires i < |ms|
    ensures Collect(ms[..i + 1]) == (if ms[i].None? then Collect(ms[..i]) else Put(Collect(ms[..i]), ms[i].value.0, ms[i].value.1))
  {
    assert ms[..i + 1][..i] == ms[..i];
  }

  /** A number is assigned exactly when some match carries it. */
  lemma {:induction false} CollectedIff(ms: seq<Option<(nat, string)>>, n: nat)
    ensures n in Collect(ms).text <==> exists i :: 0 <= i < |ms| && ms[i].Some? && ms[i].value.0 == n
  {
    if ms != [] {
      var w := ms[..|ms| - 1];
      CollectedIff(w, n);
      if exists i :: 0 <= i < |w| && w[i].Some? && w[i].value.0 == n {
        var i :| 0 <= i < |w| && w[i].Some? && w[i].value.0 == n;
        assert ms[i] == w[i];
      }
      if exists i :: 0 <= i < |ms| && ms[i].Some? && ms[i].value.0 == n {
        var i :| 0 <= i < |ms| && ms[i].Some? && ms[i].value.0 == n;
        if i < |w| {
          assert w[i] == ms[i];
        }
      }
    }
  }

  /** The value kept for a number is that of its last match. */
  lemma {:induction false} CollectLastWins(ms: seq<Option<(nat, string)>>, i: nat)
    requires i < |ms| && ms[i].Some?
    requires forall j :: i < j < |ms| && ms[j].Some? ==> ms[j].value.0 != ms[i].value.0
    ensures ms[i].value.0 in Collect(ms).text
    ensures Collect(ms).text[ms[i].value.0] == ms[i].value.1
  {
    var w := ms[..|ms| - 1];
    if i < |ms| - 1 {
      assert w[i] == ms[i];
      forall j | i < j < |w| && w[j].Some?
        ensures w[j].value.0 != w[i].value.0
      {
        assert w[j] == ms[j];
      }
      CollectLastWins(w, i);
    }
  }

  /** The same two facts for the bare map. */
  lemma AssignedIff(ms: seq<Option<(nat, string)>>, n: nat)
    ensures n in Assigned(ms) <==> exists i :: 0 <= i < |ms| && ms[i].Some? && ms[i].value.0 == n
  {
    CollectText(ms);
    CollectedIff(ms, n);
  }

  lemma AssignedLastWins(ms: seq<Option<(nat, string)>>, i: nat)
    requires i < |ms| && ms[i].Some?
    requires forall j :: i < j < |ms| && ms[j].Some? ==> ms[j].value.0 != ms[i].value.0
    ensures ms[i].value.0 in Assigned(ms)
    ensures Assigned(ms)[ms[i].value.0] == ms[i].value.1
  {
    CollectText(ms);
    CollectLastWins(ms, i);
  }

  // ---------------------------------------------------------------------
  // parse_v2_numbered_format
  // ---------------------------------------------------------------------

  /** The assignment each line makes: none for a skipped line. */
  function LineMatch(line: string): Option<(nat, string)> {
    if Skipped(line) then None else NumberedLine(line)
  }

  function Matches(lines: seq<string>): (ms: seq<Option<(nat, string)>>)
    ensures |ms| == |lines|
  {
    seq(|lines|, i requires 0 <= i < |lines| => LineMatch(lines[i]))
  }

  /** `parse_v2_numbered_format`. */
  method ParseV2NumberedFormat(text: string) returns (translations: Numbered)
    ensures translations == Collect(Matches(Split(text, '\n')))
  {
    var lines := Split(text, '\n');
    ghost var ms := Matches(lines);
    translations := Numbered([], map[]);
    for i := 0 to |lines|
      invariant translations == Collect(ms[..i])
    {
      var line := lines[i];
      CollectStep(ms, i);
      if StartsWith(line, "#") || Strip(line) == [] {
        continue;
      }
      var m := NumberedLine(line);
      if m.Some? {
        translations := Put(translations, m.value.0, m.value.1);
      }
    }
    assert ms[..|lines|] == ms;
  }

  /** A number is parsed exactly when some line carries it. */
  lemma ParsedIff(lines: seq<string>, n: nat)
    ensures n in Collect(Matches(lines)).text <==> exists i :: 0 <= i < |lines| && Numbers(lines[i], n)
  {
    var ms := Matches(lines);
    CollectedIff(ms, n);
    forall i | 0 <= i < |lines|
      ensures (ms[i].Some? && ms[i].value.0 == n) <==> Numbers(lines[i], n)
    {
      NumberedLineShape(lines[i]);
    }
  }

  /** A later line for the same number overwrites an earlier one: the text
      kept is that of the last line carrying the number. */
  lemma LastLineWins(lines: seq<string>, i: nat, n: nat, t: string)
    requires i < |lines| && NumberedLine(lines[i]) == Some((n, t))
    requires forall j :: i < j < |lines| ==> !Numbers(lines[j], n)
    ensures n in Collect(Matches(lines)).text && Collect(Matches(lines)).text[n] == t
  {
    var ms := Matches(lines);
    NumberedLineShape(lines[i]);
    forall j | i < j < |ms| && ms[j].Some?
      ensures ms[j].value.0 != n
    {
      NumberedLineShape(lines[j]);
    }
    CollectLastWins(ms, i);
  }

  // ---------------------------------------------------------------------
  // export_v2_format: numbering and mapping
  // ---------------------------------------------------------------------

  /** `f"{n}. {text}"`, the line written for number `n`. */
  function NumberLine(n: nat, text: string): string {
    NatToString(n) + ". " + text
  }

  /** A written line reads back as its number and its stripped text. */
  lemma NumberLineRead(n: nat, text: string)
    ensures LineMatch(NumberLine(n, text)) == Some((n, Strip(text)))
  {
    NumberedLineOf(n, text);
    NumberedLineShape(NumberLine(n, text));
  }

  /** The exported line for entry number `n`. */
  function ExportLine(n: nat, msgid: string): string {
    NumberLine(n, Encode(msgid))
  }

  /** The numbered lines, entry `i` of the list as number `i + 1`. */
  function ExportBody(entries: seq<Entry>): (r: seq<string>)
    ensures |r| == |entries|
  {
    seq(|entries|, i requires 0 <= i < |entries| => ExportLine(i + 1, entries[i].msgid))
  }

  /** `export_v2_format`: the text of the export file and the mapping from
      numbers to keys that is saved beside it. The header is a parameter. */
  method ExportV2(header: string, entries: seq<Entry>) returns (text: string, mapping: map<nat, string>)
    ensures text == Join([header, ""] + ExportBody(entries), "\n")
    ensures forall n :: n in mapping <==> 1 <= n <= |entries|
    ensures forall n :: n in mapping ==> mapping[n] == entries[n - 1].msgid
  {
    mapping := map[];
    var outputLines := [header, ""];
    ghost var body := ExportBody(entries);
    for i := 0 to |entries|
      invariant outputLines == [header, ""] + body[..i]
      invariant forall n :: n in mapping <==> 1 <= n <= i
      invariant forall n :: n in mapping ==> mapping[n] == entries[n - 1].msgid
    {
      var line := ExportLine(i + 1, entries[i].msgid);
      assert body[..i + 1] == body[..i] + [line];
      outputLines := outputLines + [line];
      mapping := mapping[i + 1 := entries[i].msgid];
    }
    assert body[..|entries|] == body;
    text := Join(outputLines, "\n");
  }

  /** The lines a reader of the export file sees. */
  lemma ExportLines(header: string, entries: seq<Entry>)
    ensures Split(Join([header, ""] + ExportBody(entries), "\n"), '\n')
         == Split(header, '\n') + [""] + ExportBody(entries)
  {
    var body := ExportBody(entries);
    var parts := [header, ""] + body;
    JoinCons(parts, "\n");
    assert parts[1..] == [""] + body;
    SplitConcat(header, Join([""] + body, "\n"), '\n');
    BodyLinesSingle(entries);
    BlankThenLines(body);
    ConcatAssoc(Split(header, '\n'), [""], body);
  }

  /** No numbered line holds a newline. */
  lemma BodyLinesSingle(entries: seq<Entry>)
    ensures forall i :: 0 <= i < |entries| ==> '\n' !in ExportBody(entries)[i]
  {
    forall i | 0 <= i < |entries|
      ensures '\n' !in ExportBody(entries)[i]
    {
      assert '\n' !in NatToString(i + 1) + ". ";
    }
  }

  /** A blank line followed by single lines, joined, splits back into them. */
  lemma BlankThenLines(body: seq<string>)
    requires forall i :: 0 <= i < |body| ==> '\n' !in body[i]
    ensures Split(Join([""] + body, "\n"), '\n') == [""] + body
  {
    if body == [] {
      assert [""] + body == [""];
    } else {
      JoinCons([""] + body, "\n");
      assert ([""] + body)[1..] == body;
      SplitConcat([], Join(body, "\n"), '\n');
      SplitJoin(body, '\n');
      EmptyAppend(Join(body, "\n"));
    }
  }

  /** The assignment each line of an export makes: none for the header
      lines and the blank line; body line `j` assigns its entry's number. */
  lemma ExportLineRead(hs: seq<string>, entries: seq<Entry>, j: nat)
    requires forall l :: l in hs ==> StartsWith(l, "#")
    requires j < |hs| + 1 + |entries|
    ensures Matches(hs + [""] + ExportBody(entries))[j] == Assignments(|hs|, ReadBackKeys(entries))[j]
  {
    var lines := hs + [""] + ExportBody(entries);
    var h := |hs|;
    if j < h {
      assert lines[j] == hs[j] && hs[j] in hs;
      NumberedLineShape(lines[j]);
    } else if j == h {
      NumberedLineShape(lines[j]);
    } else {
      assert lines[j] == ExportBody(entries)[j - h - 1];
      NumberedLineOf(j - h, Encode(entries[j - h - 1].msgid));
      NumberedLineShape(lines[j]);
      assert ReadBackKeys(entries)[j - h - 1] == ReadBackKey(entries[j - h - 1].msgid);
    }
  }

  /** The key an export's line for `msgid` reads back as. */
  function ReadBackKey(msgid: string): string {
    Strip(Encode(msgid))
  }

  function ReadBackKeys(entries: seq<Entry>): (r: seq<string>)
    ensures |r| == |entries|
  {
    seq(|entries|, i requires 0 <= i < |entries| => ReadBackKey(entries[i].msgid))
  }

  /** What each line of an export assigns, stated without the parser:
      nothing for the `h` header lines and the blank line, then
      number `k` with `keys[k - 1]`. */
  function Assignments(h: nat, keys: seq<string>): (ms: seq<Option<(nat, string)>>)
    ensures |ms| == h + 1 + |keys|
  {
    seq(h + 1 + |keys|, j requires 0 <= j < h + 1 + |keys| =>
      if j <= h then None else Some(((j - h) as nat, keys[j - h - 1])))
  }

  lemma ExportMatches(hs: seq<string>, entries: seq<Entry>)
    requires forall l :: l in hs ==> StartsWith(l, "#")
    ensures Matches(hs + [""] + ExportBody(entries)) == Assignments(|hs|, ReadBackKeys(entries))
  {
    var ms := Matches(hs + [""] + ExportBody(entries));
    forall j | 0 <= j < |ms|
      ensures ms[j] == Assignments(|hs|, ReadBackKeys(entries))[j]
    {
      ExportLineRead(hs, entries, j);
    }
  }

  /** The numbers assigned are 1..N, each to its own key. */
  lemma AssignmentsRead(h: nat, keys: seq<string>)
    ensures var d := Collect(Assignments(h, keys));
      (forall n: nat :: n in d.text <==> 1 <= n <= |keys|)
      && (forall n :: 1 <= n <= |keys| ==> d.text[n] == keys[n - 1])
  {
    var ms := Assignments(h, keys);
    forall n: nat
      ensures n in Collect(ms).text <==> 1 <= n <= |keys|
    {
      CollectedIff(ms, n);
      if 1 <= n <= |keys| {
        assert ms[h + n].Some? && ms[h + n].value.0 == n;
      }
    }
    forall n: nat | 1 <= n <= |keys|
      ensures Collect(ms).text[n] == keys[n - 1]
    {
      assert ms[h + n] == Some((n, keys[n - 1]));
      CollectLastWins(ms, h + n);
    }
  }

  /** Reading back an export whose header lines are comments gives the
      numbers 1..N and, for each, its key with newlines encoded and outer
      whitespace stripped. */
  lemma ExportParseRoundTrip(header: string, entries: seq<Entry>)
    requires forall l :: l in Split(header, '\n') ==> StartsWith(l, "#")
    ensures var d := Collect(Matches(Split(Join([header, ""] + ExportBody(entries), "\n"), '\n')));
      (forall n: nat :: n in d.text <==> 1 <= n <= |entries|)
      && (forall n :: 1 <= n <= |entries| ==> d.text[n] == ReadBackKeys(entries)[n - 1])
  {
    var hs := Split(header, '\n');
    ExportLines(header, entries);
    ExportMatches(hs, entries);
    AssignmentsRead(|hs|, ReadBackKeys(entries));
  }
}
