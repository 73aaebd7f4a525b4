/** Reading a catalog: `parse_po_file` (scripts/translate_v2.py:293-375,
    the same loop as scripts/translate.py:174-256). The file is the
    sequence of lines the loop iterates over. The specification is a fold
    of `Step` over the lines; `ParsePo` is the loop itself, proved equal to
    that fold, and the lemmas state what the fold guarantees. */
module PoParse {
  import opened Strings
  import opened Wrappers
  import opened PoEscape
  import opened PoEntry

  /** `current_field`; the plural form carries the index the code keeps
      inside the string `msgstr[N]`. */
  datatype Field = NoField | MsgIdField | MsgIdPluralField | MsgStrField | MsgStrPluralField(index: nat)

  /** The loop's state: the emitted entries, `current_entry`, `current_field`. */
  datatype ParseState = ParseState(entries: seq<Entry>, current: Option<Entry>, field: Field)

  const INIT: ParseState := ParseState([], None, NoField)

  /** A field is open only inside an entry, and an open plural field
      names a slot that exists. */
  predicate StateOk(st: ParseState) {
    (st.field != NoField ==> st.current.Some?)
    && (st.field.MsgStrPluralField? ==> st.current.Some? && st.field.index < |st.current.value.msgstrPlural|)
  }

  /** `value[1:-1]`, including the one-character value `"`. */
  function Inner(v: string): (r: string)
    ensures |v| >= 2 ==> r == v[1..|v| - 1]
  {
    if |v| >= 2 then v[1..|v| - 1] else []
  }

  predicate IsQuoted(v: string) {
    StartsWith(v, "\"") && EndsWith(v, "\"")
  }

  /** The value of a keyword line (`msgid `, `msgid_plural `, `msgstr `)
      after the keyword: unescaped when quoted, nothing otherwise. */
  function KeywordValue(rest: string): (r: Option<string>)
    ensures r.Some? <==> IsQuoted(Strip(rest))
  {
    var value := Strip(rest);
    if IsQuoted(value) then Some(Unescape(Inner(value))) else None
  }

  /** `re.match(r'msgstr\[(\d+)\] "(.*)"', line)`: the index and the raw
      text up to the last quote before any newline. */
  function IndexedMsgstr(line: string): (r: Option<(nat, string)>)
    ensures r.Some? ==> StartsWith(line, "msgstr[")
  {
    if !StartsWith(line, "msgstr[") then None
    else
      var rest := line[7..];
      var k := DigitRun(rest);
      if k == 0 || !StartsWith(rest[k..], "] \"") then None
      else
        var body := Before(rest[k + 3..], '\n');
        var j := RFind(body, '"');
        if j < 0 then None else Some((ParseNat(rest[..k]), body[..j]))
  }

  /** The growth of `msgstr_plural` for `msgstr[idx]`: pad with empty
      strings up to `idx`, then store the value there. */
  function Padded(ps: seq<string>, idx: nat, v: string): (r: seq<string>)
    ensures |r| == if idx < |ps| then |ps| else idx + 1
    ensures r[idx] == v
    ensures forall j :: 0 <= j < |ps| && j != idx ==> r[j] == ps[j]
    ensures forall j :: |ps| <= j < |r| && j != idx ==> r[j] == ""
  {
    var k := if |ps| <= idx then idx + 1 - |ps| else 0;
    (ps + seq(k, _ => ""))[idx := v]
  }

  /** The flags a `#,` line carries, as the parser reads them. */
  function LineFlags(line: string): seq<string>
    requires StartsWith(line, "#,")
  {
    StripEach(Split(Strip(line[2..]), ','))
  }

  predicate IsFlagComment(c: string) { StartsWith(c, "#,") }

  /** The flags the parser collects from a list of comment lines. */
  function ReadFlags(lines: seq<string>): seq<string>
    decreases |lines|
  {
    if lines == [] then [] else FlagsIn(lines[0]) + ReadFlags(lines[1..])
  }

  /** The flags one comment line adds. */
  function FlagsIn(line: string): seq<string> {
    if IsFlagComment(line) then LineFlags(line) else []
  }

  lemma {:induction false} ReadFlagsAppend(a: seq<string>, b: seq<string>)
    ensures ReadFlags(a + b) == ReadFlags(a) + ReadFlags(b)
    decreases |a|
  {
    if a == [] {
      assert a + b == b;
    } else {
      assert (a + b)[0] == a[0] && (a + b)[1..] == a[1..] + b;
      ReadFlagsAppend(a[1..], b);
    }
  }

  lemma ReadFlagsOne(line: string)
    ensures ReadFlags([line]) == FlagsIn(line)
  {
    assert [line][1..] == [];
  }

  /** A comment line: kept verbatim; `#:` adds references, `#,` flags. */
  function AddComment(e: Entry, line: string): (r: Entry)
    requires StartsWith(line, "#")
    ensures r.comments == e.comments + [line]
    ensures r.msgid == e.msgid && r.msgstr == e.msgstr && r.isHeader == e.isHeader
    ensures r.msgstrPlural == e.msgstrPlural
    ensures r.flags == e.flags + FlagsIn(line)
  {
    var e1 := e.(comments := e.comments + [line]);
    if StartsWith(line, "#:") then e1.(references := e1.references + SplitWs(Strip(line[2..])))
    else if StartsWith(line, "#,") then e1.(flags := e1.flags + LineFlags(line))
    else e1
  }

  /** A quoted continuation line: its text goes to the open field. */
  function Continue(e: Entry, field: Field, v: string): (r: Entry)
    requires field.MsgStrPluralField? ==> field.index < |e.msgstrPlural|
    ensures |r.msgstrPlural| == |e.msgstrPlural|
    ensures r.isHeader == e.isHeader && r.comments == e.comments && r.flags == e.flags
  {
    match field
    case NoField => e
    case MsgIdField => e.(msgid := e.msgid + v)
    case MsgIdPluralField => e.(msgidPlural := e.msgidPlural + v)
    case MsgStrField => e.(msgstr := e.msgstr + v)
    case MsgStrPluralField(i) => e.(msgstrPlural := e.msgstrPlural[i := e.msgstrPlural[i] + v])
  }

  /** A `msgid` line: a quoted empty key read while nothing has been
      emitted marks the entry as the header. */
  function SetMsgid(entries: seq<Entry>, e: Entry, value: Option<string>): (r: Entry)
    ensures r.msgstrPlural == e.msgstrPlural && r.comments == e.comments && r.flags == e.flags
    ensures r.isHeader <==> e.isHeader || (value == Some([]) && entries == [])
  {
    match value
    case None => e
    case Some(v) => e.(msgid := v, isHeader := if v == [] && entries == [] then true else e.isHeader)
  }

  /** A non-blank line, applied to the current entry `e`. */
  function ApplyLine(entries: seq<Entry>, e: Entry, field: Field, line: string): (r: ParseState)
    requires field.MsgStrPluralField? ==> field.index < |e.msgstrPlural|
    ensures r.entries == entries && r.current.Some? && StateOk(r)
  {
    if StartsWith(line, "#") then ParseState(entries, Some(AddComment(e, line)), field)
    else if StartsWith(line, "msgid ") then
      ParseState(entries, Some(SetMsgid(entries, e, KeywordValue(line[6..]))), MsgIdField)
    else if StartsWith(line, "msgid_plural ") then
      var e1 := match KeywordValue(line[13..]) case None => e case Some(v) => e.(msgidPlural := v);
      ParseState(entries, Some(e1), MsgIdPluralField)
    else if StartsWith(line, "msgstr ") then
      var e1 := match KeywordValue(line[7..]) case None => e case Some(v) => e.(msgstr := v);
      ParseState(entries, Some(e1), MsgStrField)
    else
      var (e1, f1) := ApplyValueLine(e, field, line);
      ParseState(entries, Some(e1), f1)
  }

  /** A line that is neither a comment nor a keyword line: `msgstr[N]`,
      a quoted continuation, or a line the parser ignores. */
  function ApplyValueLine(e: Entry, field: Field, line: string): (r: (Entry, Field))
    requires field.MsgStrPluralField? ==> field.index < |e.msgstrPlural|
    ensures r.1.MsgStrPluralField? ==> r.1.index < |r.0.msgstrPlural|
    ensures field == NoField ==> r.1 == NoField || r.1.MsgStrPluralField?
    ensures r.0.comments == e.comments && r.0.flags == e.flags
  {
    match IndexedMsgstr(line)
    case Some(m) => (e.(msgstrPlural := Padded(e.msgstrPlural, m.0, Unescape(m.1))), MsgStrPluralField(m.0))
    case None =>
      if IsQuoted(line) then (Continue(e, field, Unescape(Inner(line))), field)
      else (e, field)
  }

  /** The entry list after closing the current entry: it is kept only if
      it has a key or is the header. */
  function Emit(entries: seq<Entry>, current: Option<Entry>): (r: seq<Entry>)
    ensures r == entries || (current.Some? && r == entries + [current.value])
    ensures current.Some? && (current.value.msgid != [] || current.value.isHeader) ==> r == entries + [current.value]
  {
    if current.Some? && (current.value.msgid != [] || current.value.isHeader) then entries + [current.value]
    else entries
  }

  /** One iteration of the loop, for the 1-based line number `n`. */
  function Step(st: ParseState, raw: string, n: int): (r: ParseState)
    requires StateOk(st)
    ensures StateOk(r)
  {
    var line := RStripNewlines(raw);
    if IsBlank(line) then ParseState(Emit(st.entries, st.current), None, NoField)
    else
      var e := if st.current.Some? then st.current.value else NewEntry(n);
      ApplyLine(st.entries, e, st.field, line)
  }

  /** The loop over the remaining lines, the first of which is line `n`. */
  function Run(st: ParseState, lines: seq<string>, n: int): (r: ParseState)
    requires StateOk(st)
    ensures StateOk(r)
    decreases |lines|
  {
    if lines == [] then st else Run(Step(st, lines[0], n), lines[1..], n + 1)
  }

  /** What `parse_po_file` returns for a file with these lines. */
  function ParseSpec(lines: seq<string>): seq<Entry> {
    var st := Run(INIT, lines, 1);
    Emit(st.entries, st.current)
  }

  /** `parse_po_file` over the file's lines. */
  method ParsePo(lines: seq<string>) returns (entries: seq<Entry>)
    ensures entries == ParseSpec(lines)
    ensures forall i :: 0 <= i < |entries| ==> FlagsRead(entries[i])
  {
    ParsedFlagsRead(lines);
    entries := [];
    var current: Option<Entry> := None;
    var field: Field := NoField;
    var i := 0;
    while i < |lines|
      invariant 0 <= i <= |lines|
      invariant StateOk(ParseState(entries, current, field))
      invariant Run(ParseState(entries, current, field), lines[i..], i + 1) == Run(INIT, lines, 1)
    {
      ghost var before := ParseState(entries, current, field);
      var lineNumber := i + 1;
      var line := RStripNewlines(lines[i]);
      if IsBlank(line) {
        if current.Some? && (current.value.msgid != [] || current.value.isHeader) {
          entries := entries + [current.value];
        }
        current := None;
        field := NoField;
      } else {
        var e := if current.None? then NewEntry(lineNumber) else current.value;
        e, field := ParseLine(entries, e, field, line);
        current := Some(e);
      }
      assert ParseState(entries, current, field) == Step(before, lines[i], i + 1);
      assert lines[i..][1..] == lines[i + 1..];
      i := i + 1;
    }
    if current.Some? && (current.value.msgid != [] || current.value.isHeader) {
      entries := entries + [current.value];
    }
  }

  /** The body of the loop for a non-blank line. */
  method ParseLine(entries: seq<Entry>, e0: Entry, field0: Field, line: string) returns (e: Entry, field: Field)
    requires field0.MsgStrPluralField? ==> field0.index < |e0.msgstrPlural|
    ensures ApplyLine(entries, e0, field0, line) == ParseState(entries, Some(e), field)
  {
    e, field := e0, field0;
    if StartsWith(line, "#") {
      e := ParseComment(e, line);
    } else if StartsWith(line, "msgid ") {
      field := MsgIdField;
      e := ParseMsgid(entries, e, line);
    } else if StartsWith(line, "msgid_plural ") {
      field := MsgIdPluralField;
      var value := ReadKeywordValue(line[13..]);
      if value.Some? {
        e := e.(msgidPlural := value.value);
      }
    } else if StartsWith(line, "msgstr ") {
      field := MsgStrField;
      var value := ReadKeywordValue(line[7..]);
      if value.Some? {
        e := e.(msgstr := value.value);
      }
    } else {
      e, field := ParseValueLine(e, field, line);
    }
  }

  /** The quoted value after a keyword, when there is one. */
  method ReadKeywordValue(rest: string) returns (value: Option<string>)
    ensures value == KeywordValue(rest)
  {
    var v := Strip(rest);
    if IsQuoted(v) {
      value := Some(Unescape(Inner(v)));
    } else {
      value := None;
    }
  }

  method ParseComment(e0: Entry, line: string) returns (e: Entry)
    requires StartsWith(line, "#")
    ensures e == AddComment(e0, line)
  {
    e := e0.(comments := e0.comments + [line]);
    if StartsWith(line, "#:") {
      e := e.(references := e.references + SplitWs(Strip(line[2..])));
    } else if StartsWith(line, "#,") {
      e := e.(flags := e.flags + StripEach(Split(Strip(line[2..]), ',')));
    }
  }

  method ParseMsgid(entries: seq<Entry>, e0: Entry, line: string) returns (e: Entry)
    requires StartsWith(line, "msgid ")
    ensures e == SetMsgid(entries, e0, KeywordValue(line[6..]))
  {
    e := e0;
    var value := Strip(line[6..]);
    if IsQuoted(value) {
      e := e.(msgid := Unescape(Inner(value)));
      if e.msgid == [] && entries == [] {
        e := e.(isHeader := true);
      }
    }
  }

  method ParseValueLine(e0: Entry, field0: Field, line: string) returns (e: Entry, field: Field)
    requires field0.MsgStrPluralField? ==> field0.index < |e0.msgstrPlural|
    ensures ApplyValueLine(e0, field0, line) == (e, field)
  {
    e, field := e0, field0;
    var m := IndexedMsgstr(line);
    if m.Some? {
      var idx := m.value.0;
      var value := Unescape(m.value.1);
      var plural := SetPlural(e.msgstrPlural, idx, value);
      e := e.(msgstrPlural := plural);
      field := MsgStrPluralField(idx);
    } else if IsQuoted(line) {
      var value := Unescape(Inner(line));
      match field {
        case NoField =>
        case MsgIdField => e := e.(msgid := e.msgid + value);
        case MsgIdPluralField => e := e.(msgidPlural := e.msgidPlural + value);
        case MsgStrField => e := e.(msgstr := e.msgstr + value);
        case MsgStrPluralField(idx) =>
          e := e.(msgstrPlural := e.msgstrPlural[idx := e.msgstrPlural[idx] + value]);
      }
    }
  }

  /** The padding loop of `msgstr[N]`, then the store. */
  method SetPlural(ps: seq<string>, idx: nat, value: string) returns (plural: seq<string>)
    ensures plural == Padded(ps, idx, value)
  {
    plural := ps;
    while |plural| <= idx
      invariant |ps| <= |plural| <= if |ps| <= idx then idx + 1 else |ps|
      invariant plural == ps + seq(|plural| - |ps|, _ => "")
      decreases idx + 1 - |plural|
    {
      plural := plural + [""];
    }
    plural := plural[idx := value];
  }

  // ---------------------------------------------------------------------
  // What the parse guarantees
  // ---------------------------------------------------------------------

  predicate HasKeyOrHeader(e: Entry) { e.msgid != [] || e.isHeader }

  lemma {:induction false} RunKeepsKeyed(st: ParseState, lines: seq<string>, n: int)
    requires StateOk(st)
    requires forall i :: 0 <= i < |st.entries| ==> HasKeyOrHeader(st.entries[i])
    ensures forall i :: 0 <= i < |Run(st, lines, n).entries| ==> HasKeyOrHeader(Run(st, lines, n).entries[i])
    decreases |lines|
  {
    if lines != [] {
      RunKeepsKeyed(Step(st, lines[0], n), lines[1..], n + 1);
    }
  }

  /** Every returned entry has a non-empty key or is the header. */
  lemma EmittedEntriesHaveKey(lines: seq<string>)
    ensures forall i :: 0 <= i < |ParseSpec(lines)| ==> HasKeyOrHeader(ParseSpec(lines)[i])
  {
    RunKeepsKeyed(INIT, lines, 1);
  }

  /** Only the first entry can be the header, and the entry being read is
      the header only while nothing has been emitted. */
  predicate HeaderInv(st: ParseState) {
    (forall i :: 0 < i < |st.entries| ==> !st.entries[i].isHeader)
    && (st.current.Some? && st.current.value.isHeader ==> st.entries == [])
  }

  lemma {:induction false} RunKeepsHeaderInv(st: ParseState, lines: seq<string>, n: int)
    requires StateOk(st) && HeaderInv(st)
    ensures HeaderInv(Run(st, lines, n))
    decreases |lines|
  {
    if lines != [] {
      RunKeepsHeaderInv(Step(st, lines[0], n), lines[1..], n + 1);
    }
  }

  /** Only the first returned entry can be the header. */
  lemma HeaderOnlyFirst(lines: seq<string>)
    ensures forall i :: 0 < i < |ParseSpec(lines)| ==> !ParseSpec(lines)[i].isHeader
  {
    RunKeepsHeaderInv(INIT, lines, 1);
  }

  /** An entry's flags are exactly those its `#,` comments carry. */
  predicate FlagsRead(e: Entry) { e.flags == ReadFlags(e.comments) }

  predicate FlagsInv(st: ParseState) {
    (forall i :: 0 <= i < |st.entries| ==> FlagsRead(st.entries[i]))
    && (st.current.Some? ==> FlagsRead(st.current.value))
  }

  /** A non-blank line adds to the flags exactly what it adds as a
      `#,` comment. */
  lemma ApplyLineFlags(entries: seq<Entry>, e: Entry, field: Field, line: string)
    requires field.MsgStrPluralField? ==> field.index < |e.msgstrPlural|
    requires FlagsRead(e)
    ensures FlagsRead(ApplyLine(entries, e, field, line).current.value)
  {
    if StartsWith(line, "#") {
      CommentKeepsFlags(e, line);
      assert ApplyLine(entries, e, field, line).current.value == AddComment(e, line);
    }
  }

  /** A comment line adds to `flags` exactly the flags it lists. */
  lemma CommentKeepsFlags(e: Entry, line: string)
    requires StartsWith(line, "#") && FlagsRead(e)
    ensures FlagsRead(AddComment(e, line))
  {
    ReadFlagsAppend(e.comments, [line]);
    ReadFlagsOne(line);
  }

  lemma {:induction false} RunKeepsFlags(st: ParseState, lines: seq<string>, n: int)
    requires StateOk(st) && FlagsInv(st)
    ensures FlagsInv(Run(st, lines, n))
    decreases |lines|
  {
    if lines != [] {
      var line := RStripNewlines(lines[0]);
      if !IsBlank(line) {
        var e := if st.current.Some? then st.current.value else NewEntry(n);
        ApplyLineFlags(st.entries, e, st.field, line);
      }
      RunKeepsFlags(Step(st, lines[0], n), lines[1..], n + 1);
    }
  }

  /** Every returned entry's flags are the ones its `#,` comments carry,
      so `is_fuzzy` can be read off the comments. */
  lemma ParsedFlagsRead(lines: seq<string>)
    ensures forall i :: 0 <= i < |ParseSpec(lines)| ==> FlagsRead(ParseSpec(lines)[i])
  {
    RunKeepsFlags(INIT, lines, 1);
  }

  predicate BlankLine(raw: string) { IsBlank(RStripNewlines(raw)) }

  lemma {:induction false} RunEmitsAtBlanks(st: ParseState, lines: seq<string>, n: int)
    requires StateOk(st)
    ensures |Run(st, lines, n).entries| <= |st.entries| + CountIf(lines, BlankLine)
    ensures CountIf(lines, BlankLine) == 0 ==> Run(st, lines, n).entries == st.entries
    decreases |lines|
  {
    if lines != [] {
      RunEmitsAtBlanks(Step(st, lines[0], n), lines[1..], n + 1);
    }
  }

  /** An entry is emitted only at a blank line or at the end of input:
      never more entries than blank lines plus one, and none before the
      first blank line except the final one. */
  lemma EntriesBoundedByBlanks(lines: seq<string>)
    ensures |ParseSpec(lines)| <= CountIf(lines, BlankLine) + 1
    ensures CountIf(lines, BlankLine) == 0 ==> |ParseSpec(lines)| <= 1
  {
    RunEmitsAtBlanks(INIT, lines, 1);
  }

  // ---------------------------------------------------------------------
  // Lines of the shapes the writer produces
  // ---------------------------------------------------------------------

  /** `current_entry`, or the entry a non-blank line `n` would create. */
  function CurrentOr(st: ParseState, n: int): Entry {
    if st.current.Some? then st.current.value else NewEntry(n)
  }

  lemma QuotedLineShape(line: string, body: string)
    requires line == Quote(body)
    ensures RStripNewlines(line) == line && !IsBlank(line)
    ensures !StartsWith(line, "#") && !StartsWith(line, "msgid ") && !StartsWith(line, "msgid_plural ")
    ensures !StartsWith(line, "msgstr ") && IndexedMsgstr(line) == None
    ensures IsQuoted(line) && Inner(line) == body
    ensures Strip(line) == line
  {
    QuoteShape(body);
    assert line[0] == '"' && line[|line| - 1] == '"';
    assert !IsSpace(line[0]);
    assert line[1..|line| - 1] == body;
    StripOfStripped(line);
  }

  /** A continuation line `"body"` appends the unescaped body to the open
      field and changes nothing else. */
  lemma ContinuationLine(st: ParseState, body: string, n: int)
    requires StateOk(st)
    ensures Step(st, Quote(body), n)
         == ParseState(st.entries, Some(Continue(CurrentOr(st, n), st.field, Unescape(body))), st.field)
  {
    QuotedLineShape(Quote(body), body);
  }

  lemma PrefixOf(line: string, p: string, rest: string)
    requires line == p + rest
    ensures StartsWith(line, p) && line[|p|..] == rest
  {
    assert line[..|p|] == p;
  }

  lemma NotPrefix(line: string, p: string, k: nat)
    requires k < |p| && (k >= |line| || line[k] != p[k])
    ensures !StartsWith(line, p)
  {
    if |p| <= |line| {
      assert line[..|p|][k] == line[k];
    }
  }

  /** `kw "body"`: a keyword line whose value unescapes to the body. */
  lemma KeywordLineShape(kw: string, body: string)
    requires kw != [] && kw[0] == 'm'
    ensures var line := kw + Quote(body);
      RStripNewlines(line) == line && !IsBlank(line) && !StartsWith(line, "#")
      && StartsWith(line, kw) && KeywordValue(line[|kw|..]) == Some(Unescape(body))
  {
    var q := Quote(body);
    var line := kw + q;
    assert RStripNewlines(line) == line by { assert line[|line| - 1] == '"'; }
    assert !IsBlank(line) by { assert line[0] == 'm' && !IsSpace(line[0]); }
    assert !StartsWith(line, "#") by { NotPrefix(line, "#", 0); }
    assert StartsWith(line, kw) && line[|kw|..] == q by { PrefixOf(line, kw, q); }
    assert KeywordValue(q) == Some(Unescape(body)) by { QuotedLineShape(q, body); }
  }

  /** A keyword line, in terms of the tests the loop makes on it. */
  predicate KeywordLine(line: string, kw: string, v: string) {
    RStripNewlines(line) == line && !IsBlank(line) && !StartsWith(line, "#")
    && StartsWith(line, kw) && KeywordValue(line[|kw|..]) == Some(v)
  }

  lemma MsgidStep(st: ParseState, line: string, v: string, n: int)
    requires StateOk(st) && KeywordLine(line, "msgid ", v)
    ensures Step(st, line, n) == ParseState(st.entries, Some(SetMsgid(st.entries, CurrentOr(st, n), Some(v))), MsgIdField)
  {
  }

  lemma MsgidPluralStep(st: ParseState, line: string, v: string, n: int)
    requires StateOk(st) && KeywordLine(line, "msgid_plural ", v) && !StartsWith(line, "msgid ")
    ensures Step(st, line, n) == ParseState(st.entries, Some(CurrentOr(st, n).(msgidPlural := v)), MsgIdPluralField)
  {
  }

  lemma MsgstrStep(st: ParseState, line: string, v: string, n: int)
    requires StateOk(st) && KeywordLine(line, "msgstr ", v)
    requires !StartsWith(line, "msgid ") && !StartsWith(line, "msgid_plural ")
    ensures Step(st, line, n) == ParseState(st.entries, Some(CurrentOr(st, n).(msgstr := v)), MsgStrField)
  {
  }

  lemma MsgidLine(st: ParseState, body: string, n: int)
    requires StateOk(st)
    ensures Step(st, "msgid " + Quote(body), n)
         == ParseState(st.entries, Some(SetMsgid(st.entries, CurrentOr(st, n), Some(Unescape(body)))), MsgIdField)
  {
    KeywordLineShape("msgid ", body);
    MsgidStep(st, "msgid " + Quote(body), Unescape(body), n);
  }

  lemma MsgidPluralLine(st: ParseState, body: string, n: int)
    requires StateOk(st)
    ensures Step(st, "msgid_plural " + Quote(body), n)
         == ParseState(st.entries, Some(CurrentOr(st, n).(msgidPlural := Unescape(body))), MsgIdPluralField)
  {
    MsgidPluralShape(body);
    MsgidPluralStep(st, "msgid_plural " + Quote(body), Unescape(body), n);
  }

  lemma MsgidPluralShape(body: string)
    ensures var line := "msgid_plural " + Quote(body);
      KeywordLine(line, "msgid_plural ", Unescape(body)) && !StartsWith(line, "msgid ")
  {
    KeywordLineShape("msgid_plural ", body);
    PluralNotMsgid(Quote(body));
  }

  lemma PluralNotMsgid(q: string)
    ensures !StartsWith("msgid_plural " + q, "msgid ")
  {
    var line := "msgid_plural " + q;
    assert line[5] == '_';
    NotPrefix(line, "msgid ", 5);
  }

  lemma MsgstrShape(body: string)
    ensures var line := "msgstr " + Quote(body);
      KeywordLine(line, "msgstr ", Unescape(body)) && !StartsWith(line, "msgid ") && !StartsWith(line, "msgid_plural ")
  {
    KeywordLineShape("msgstr ", body);
    MsgstrNotMsgid(Quote(body));
  }

  lemma MsgstrNotMsgid(q: string)
    ensures !StartsWith("msgstr " + q, "msgid ") && !StartsWith("msgstr " + q, "msgid_plural ")
  {
    var line := "msgstr " + q;
    assert line[3] == "msgstr "[3] == 's';
    NotPrefix(line, "msgid ", 3);
    NotPrefix(line, "msgid_plural ", 3);
  }

  lemma MsgstrLine(st: ParseState, body: string, n: int)
    requires StateOk(st)
    ensures Step(st, "msgstr " + Quote(body), n)
         == ParseState(st.entries, Some(CurrentOr(st, n).(msgstr := Unescape(body))), MsgStrField)
  {
    MsgstrShape(body);
    MsgstrStep(st, "msgstr " + Quote(body), Unescape(body), n);
  }

  /** The loop's tests on a `msgstr[N]` line. */
  predicate IndexedLine(line: string, i: nat, raw: string) {
    RStripNewlines(line) == line && !IsBlank(line) && !StartsWith(line, "#")
    && !StartsWith(line, "msgid ") && !StartsWith(line, "msgid_plural ") && !StartsWith(line, "msgstr ")
    && IndexedMsgstr(line) == Some((i, raw))
  }

  lemma IndexedStep(st: ParseState, line: string, i: nat, raw: string, n: int)
    requires StateOk(st) && IndexedLine(line, i, raw)
    ensures Step(st, line, n)
         == ParseState(st.entries,
              Some(CurrentOr(st, n).(msgstrPlural := Padded(CurrentOr(st, n).msgstrPlural, i, Unescape(raw)))),
              MsgStrPluralField(i))
  {
  }

  lemma IndexedLineTests(i: nat, body: string)
    ensures var line := "msgstr[" + NatToString(i) + "] " + Quote(body);
      RStripNewlines(line) == line && !IsBlank(line) && !StartsWith(line, "#")
      && !StartsWith(line, "msgid ") && !StartsWith(line, "msgid_plural ") && !StartsWith(line, "msgstr ")
  {
    var line := "msgstr[" + NatToString(i) + "] " + Quote(body);
    assert RStripNewlines(line) == line by { assert line[|line| - 1] == '"'; }
    assert !IsBlank(line) by { assert line[0] == 'm' && !IsSpace(line[0]); }
    assert !StartsWith(line, "#") by { NotPrefix(line, "#", 0); }
    assert !StartsWith(line, "msgid ") by { NotPrefix(line, "msgid ", 3); }
    assert !StartsWith(line, "msgid_plural ") by { NotPrefix(line, "msgid_plural ", 3); }
    assert !StartsWith(line, "msgstr ") by { NotPrefix(line, "msgstr ", 6); }
  }

  /** The regex of `msgstr[N]`, in terms of the pieces it matches. */
  lemma IndexedMsgstrOf(line: string, k: nat, body: string)
    requires StartsWith(line, "msgstr[") && 0 < k && DigitRun(line[7..]) == k
    requires StartsWith(line[7..][k..], "] \"") && line[7..][k + 3..] == body + "\""
    requires '\n' !in body
    ensures IndexedMsgstr(line) == Some((ParseNat(line[7..][..k]), body))
  {
    var tail := body + "\"";
    assert Before(tail, '\n') == tail by { BeforeAbsent(tail, '\n'); }
    assert RFind(tail, '"') == |body|;
    assert tail[..|body|] == body;
  }

  lemma IndexedLineRegex(i: nat, body: string)
    requires '\n' !in body
    ensures IndexedMsgstr("msgstr[" + NatToString(i) + "] " + Quote(body)) == Some((i, body))
  {
    var line := "msgstr[" + NatToString(i) + "] " + Quote(body);
    IndexedLineParts(i, body);
    IndexedMsgstrOf(line, |NatToString(i)|, body);
    ParseNatToString(i);
  }

  /** How the pattern splits a written `msgstr[N]` line: the keyword, the
      digits of `N`, then `] "`, the body and the closing quote. */
  lemma IndexedLineParts(i: nat, body: string)
    ensures var d := NatToString(i);
      var line := "msgstr[" + d + "] " + Quote(body);
      && StartsWith(line, "msgstr[") && 0 < |d| && DigitRun(line[7..]) == |d|
      && StartsWith(line[7..][|d|..], "] \"") && line[7..][|d| + 3..] == body + "\""
      && line[7..][..|d|] == d
  {
    var d := NatToString(i);
    var q := Quote(body);
    var line := "msgstr[" + d + "] " + q;
    var tail := "] " + q;
    var rest := d + tail;
    ConcatAssoc("msgstr[" + d, "] ", q);
    ConcatAssoc("msgstr[", d, tail);
    assert StartsWith(line, "msgstr[") && line[7..] == rest by { PrefixOf(line, "msgstr[", rest); }
    assert DigitRun(rest) == |d| by { DigitRunPrefix(d, tail); }
    assert rest[|d|..] == tail && rest[..|d|] == d;
    assert StartsWith(tail, "] \"") && tail[3..] == body + "\"" by {
      ConcatAssoc("\"", body, "\"");
      ConcatAssoc("] ", "\"", body + "\"");
      assert "] " + "\"" == "] \"";
      PrefixOf(tail, "] \"", body + "\"");
    }
  }

  lemma IndexedLineShape(i: nat, body: string)
    requires '\n' !in body
    ensures IndexedLine("msgstr[" + NatToString(i) + "] " + Quote(body), i, body)
  {
    IndexedLineTests(i, body);
    IndexedLineRegex(i, body);
  }

  /** `msgstr[i] "body"` stores the unescaped body at index `i`. */
  lemma MsgstrIndexLine(st: ParseState, i: nat, body: string, n: int)
    requires StateOk(st)
    requires '\n' !in body
    ensures Step(st, "msgstr[" + NatToString(i) + "] " + Quote(body), n)
         == ParseState(st.entries,
              Some(CurrentOr(st, n).(msgstrPlural := Padded(CurrentOr(st, n).msgstrPlural, i, Unescape(body)))),
              MsgStrPluralField(i))
  {
    IndexedLineShape(i, body);
    IndexedStep(st, "msgstr[" + NatToString(i) + "] " + Quote(body), i, body, n);
  }

  lemma BeforeAbsent(s: string, c: char)
    requires c !in s
    ensures Before(s, c) == s
  {
  }

  /** The header flag is set by `msgid ""` before any continuation: a first
      entry whose key continues on the next line keeps the flag, although
      its key is not empty. */
  lemma RunThree(st: ParseState, a: string, b: string, c: string, n: int)
    requires StateOk(st)
    ensures Run(st, [a, b, c], n) == Step(Step(Step(st, a, n), b, n + 1), c, n + 2)
  {
    var s1 := Step(st, a, n);
    var s2 := Step(s1, b, n + 1);
    assert [a, b, c][1..] == [b, c] && [b, c][1..] == [c] && [c][1..] == [];
    assert Run(s2, [c], n + 2) == Step(s2, c, n + 2);
    assert Run(s1, [b, c], n + 1) == Run(s2, [c], n + 2);
  }

  lemma HeaderFlagSurvivesContinuation(k: string)
    requires k != [] && '\\' !in k
    ensures ParseSpec(["msgid " + Quote(""), Quote(Escape(k)), "msgstr " + Quote("")])
         == [Entry([], [], [], k, [], [], [], 1, true)]
  {
    var l1, l2, l3 := "msgid " + Quote(""), Quote(Escape(k)), "msgstr " + Quote("");
    var e := NewEntry(1).(isHeader := true);
    HeaderOpened();
    HeaderContinued(k);
    HeaderMsgstr(k);
    RunThree(INIT, l1, l2, l3, 1);
  }

  /** `msgid ""` as the first line opens the header entry. */
  lemma HeaderOpened()
    ensures Step(INIT, "msgid " + Quote(""), 1) == ParseState([], Some(NewEntry(1).(isHeader := true)), MsgIdField)
  {
    MsgidLine(INIT, "", 1);
    assert Unescape("") == "";
  }

  /** A continuation line then gives the header entry its key. */
  lemma HeaderContinued(k: string)
    requires '\\' !in k
    ensures var e := NewEntry(1).(isHeader := true);
      Step(ParseState([], Some(e), MsgIdField), Quote(Escape(k)), 2) == ParseState([], Some(e.(msgid := k)), MsgIdField)
  {
    var e := NewEntry(1).(isHeader := true);
    ContinuationLine(ParseState([], Some(e), MsgIdField), Escape(k), 2);
    UnescapeEscape(k);
    EmptyAppend(k);
  }

  /** `msgstr ""` then moves to the translation, keeping the flag. */
  lemma HeaderMsgstr(k: string)
    ensures var e := NewEntry(1).(isHeader := true, msgid := k);
      Step(ParseState([], Some(e), MsgIdField), "msgstr " + Quote(""), 3) == ParseState([], Some(e), MsgStrField)
  {
    var e := NewEntry(1).(isHeader := true, msgid := k);
    MsgstrLine(ParseState([], Some(e), MsgIdField), "", 3);
    assert Unescape("") == "";
  }
}
