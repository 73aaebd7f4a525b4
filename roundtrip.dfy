/** Reading back what the writer writes: the msgstr, msgid and plural
    lines of `write_po_file` (scripts/translate_v2.py:436-454) run through
    the loop of `parse_po_file` (scripts/translate_v2.py:293-375). Text
    without a backslash comes back unchanged, except that a block-form
    msgid loses the newline after any part equal to its last part, and
    that a block-form msgid read first marks the entry as the header. */
module PoRoundTrip {
  import opened Strings
  import opened Wrappers
  import opened PoEscape
  import opened PoEntry
  import opened PoParse
  import opened PoWrite

  lemma {:induction false} RunAppend(st: ParseState, a: seq<string>, b: seq<string>, n: int)
    requires StateOk(st)
    ensures Run(st, a + b, n) == Run(Run(st, a, n), b, n + |a|)
    decreases |a|, 1
  {
    if a == [] {
      EmptyAppend(b);
    } else {
      RunAppendCons(st, a, b, n);
    }
  }

  /** `RunAppend` when `a` has a first line: read it, then the rest. */
  lemma {:induction false} RunAppendCons(st: ParseState, a: seq<string>, b: seq<string>, n: int)
    requires StateOk(st) && a != []
    ensures Run(st, a + b, n) == Run(Run(st, a, n), b, n + |a|)
    decreases |a|, 0
  {
    ConsAppend(a, b);
    RunAppend(Step(st, a[0], n), a[1..], b, n + 1);
  }

  lemma RunOne(st: ParseState, line: string, n: int)
    requires StateOk(st)
    ensures Run(st, [line], n) == Step(st, line, n)
  {
    assert [line][1..] == [];
  }

  /** The text part `i` of a block contributes when read back. */
  function PartText(parts: seq<string>, i: nat): string
    requires i < |parts|
  {
    if i < |parts| - 1 then parts[i] + "\n" else parts[i]
  }

  function PartTexts(parts: seq<string>, k: nat): string
    requires k <= |parts|
    decreases k
  {
    if k == 0 then [] else PartTexts(parts, k - 1) + PartText(parts, k - 1)
  }

  /** The fields a block of continuation lines is written for. */
  predicate TextField(f: Field) { f == MsgIdField || f == MsgStrField }

  /** A state reading the text field `f` of entry `e`. */
  predicate Reading(st: ParseState, e: Entry, f: Field)
    ensures Reading(st, e, f) ==> StateOk(st)
  {
    st.current == Some(e) && st.field == f && TextField(f)
  }

  lemma ContinueTwice(e: Entry, f: Field, x: string, y: string)
    requires TextField(f)
    ensures Continue(Continue(e, f, x), f, y) == Continue(e, f, x + y)
  {
    if f == MsgIdField {
      assert (e.msgid + x) + y == e.msgid + (x + y);
    } else {
      assert (e.msgstr + x) + y == e.msgstr + (x + y);
    }
  }

  lemma ContinueNothing(e: Entry, f: Field)
    requires TextField(f)
    ensures Continue(e, f, []) == e
  {
    assert e.msgid + [] == e.msgid && e.msgstr + [] == e.msgstr;
  }

  /** Reading one part line appends the part's text to the open field. */
  lemma PartLineRead(st: ParseState, e: Entry, f: Field, parts: seq<string>, i: nat, n: int)
    requires Reading(st, e, f)
    requires i < |parts| && '\\' !in parts[i]
    ensures Run(st, PartLine(parts, i), n) == ParseState(st.entries, Some(Continue(e, f, PartText(parts, i))), f)
  {
    if i < |parts| - 1 {
      RunOne(st, Quote(Escape(parts[i]) + "\\n"), n);
      ContinuationLine(st, Escape(parts[i]) + "\\n", n);
      UnescapeEscapeMarked(parts[i]);
    } else if parts[i] != [] {
      RunOne(st, Quote(Escape(parts[i])), n);
      ContinuationLine(st, Escape(parts[i]), n);
      UnescapeEscape(parts[i]);
    } else {
      ContinueNothing(e, f);
    }
  }

  lemma PartLinesRead(st: ParseState, e: Entry, f: Field, parts: seq<string>, k: nat, n: int)
    requires Reading(st, e, f)
    requires k <= |parts| && forall i :: 0 <= i < |parts| ==> '\\' !in parts[i]
    ensures Run(st, PartLines(parts, k), n) == ParseState(st.entries, Some(Continue(e, f, PartTexts(parts, k))), f)
  {
    if k == 0 {
      ContinueNothing(e, f);
    } else {
      PartLinesReadFrom(st, e, f, parts, k, n);
    }
  }

  /** The induction behind `PartLinesRead`, from the first part up. */
  lemma {:induction false} PartLinesReadFrom(st: ParseState, e: Entry, f: Field, parts: seq<string>, k: nat, n: int)
    requires Reading(st, e, f)
    requires 0 < k <= |parts| && forall i :: 0 <= i < |parts| ==> '\\' !in parts[i]
    ensures Run(st, PartLines(parts, k), n) == ParseState(st.entries, Some(Continue(e, f, PartTexts(parts, k))), f)
    decreases k
  {
    if k == 1 {
      ContinueNothing(e, f);
    } else {
      PartLinesReadFrom(st, e, f, parts, k - 1, n);
    }
    PartLinesReadStep(st, e, f, parts, k, n);
  }

  lemma PartLinesReadStep(st: ParseState, e: Entry, f: Field, parts: seq<string>, k: nat, n: int)
    requires Reading(st, e, f)
    requires 0 < k <= |parts| && '\\' !in parts[k - 1]
    requires Run(st, PartLines(parts, k - 1), n) == ParseState(st.entries, Some(Continue(e, f, PartTexts(parts, k - 1))), f)
    ensures Run(st, PartLines(parts, k), n) == ParseState(st.entries, Some(Continue(e, f, PartTexts(parts, k))), f)
  {
    var before, x := PartLines(parts, k - 1), PartTexts(parts, k - 1);
    var e1 := Continue(e, f, x);
    PartLineRead(ParseState(st.entries, Some(e1), f), e1, f, parts, k - 1, n + |before|);
    PartLinesSnoc(parts, k);
    ContinueChain(st, e, f, before, PartLine(parts, k - 1), x, PartText(parts, k - 1), n);
  }

  /** Reading `a` continues the field with `x`, then reading `b` with `y`:
      together they continue it with `x + y`. */
  lemma ContinueChain(st: ParseState, e: Entry, f: Field, a: seq<string>, b: seq<string>, x: string, y: string, n: int)
    requires Reading(st, e, f)
    requires Run(st, a, n) == ParseState(st.entries, Some(Continue(e, f, x)), f)
    requires Run(ParseState(st.entries, Some(Continue(e, f, x)), f), b, n + |a|)
          == ParseState(st.entries, Some(Continue(Continue(e, f, x), f, y)), f)
    ensures Run(st, a + b, n) == ParseState(st.entries, Some(Continue(e, f, x + y)), f)
  {
    var mid := ParseState(st.entries, Some(Continue(e, f, x)), f);
    assert Reading(mid, Continue(e, f, x), f);
    ContinueTwice(e, f, x, y);
    RunAppend(st, a, b, n);
  }

  lemma PartLinesSnoc(parts: seq<string>, k: nat)
    requires 0 < k <= |parts|
    ensures PartLines(parts, k) == PartLines(parts, k - 1) + PartLine(parts, k - 1)
  {
  }

  /** Two runs chained: the lines `a` lead to `mid`, the lines `b` from
      there to `last`. */
  lemma RunChain(st: ParseState, a: seq<string>, b: seq<string>, mid: ParseState, last: ParseState, n: int)
    requires StateOk(st) && Run(st, a, n) == mid
    requires StateOk(mid) && Run(mid, b, n + |a|) == last
    ensures Run(st, a + b, n) == last
  {
    RunAppend(st, a, b, n);
  }

  lemma {:induction false} PartTextsPrefix(parts: seq<string>, k: nat)
    requires 1 <= k < |parts|
    ensures PartTexts(parts, k) == Join(parts[..k], "\n") + "\n"
    decreases k
  {
    if k > 1 {
      PartTextsPrefix(parts, k - 1);
      assert parts[..k] == parts[..k - 1] + [parts[k - 1]];
      JoinSnoc(parts[..k - 1], parts[k - 1], "\n");
    } else {
      assert parts[..1] == [parts[0]];
    }
  }

  lemma JoinLast(parts: seq<string>, sep: string)
    requires |parts| >= 2
    ensures Join(parts, sep) == Join(parts[..|parts| - 1], sep) + sep + parts[|parts| - 1]
  {
    var m := |parts| - 1;
    assert parts == parts[..m] + [parts[m]];
    JoinSnoc(parts[..m], parts[m], sep);
  }

  lemma PartTextsLast(parts: seq<string>)
    requires |parts| >= 1
    ensures PartTexts(parts, |parts|) == PartTexts(parts, |parts| - 1) + parts[|parts| - 1]
  {
  }

  /** The part texts of a whole block join back to the text. */
  lemma PartTextsJoin(parts: seq<string>)
    requires |parts| >= 1
    ensures PartTexts(parts, |parts|) == Join(parts, "\n")
  {
    PartTextsLast(parts);
    if |parts| > 1 {
      PartTextsPrefix(parts, |parts| - 1);
      JoinLast(parts, "\n");
    }
  }

  /** Reading the block of a text split at its newlines, from a state
      reading field `f`, appends the whole text to that field. */
  lemma BlockRead(st: ParseState, e: Entry, f: Field, t: string, n: int)
    requires Reading(st, e, f) && '\\' !in t
    ensures var parts := Split(t, '\n');
      Run(st, PartLines(parts, |parts|), n) == ParseState(st.entries, Some(Continue(e, f, t)), f)
  {
    var parts := Split(t, '\n');
    SplitChars(t, '\n', '\\');
    PartLinesRead(st, e, f, parts, |parts|, n);
    PartTextsJoin(parts);
    JoinSplit(t, '\n');
  }

  /** The lines `format_msgstr_for_po` writes read back as the text, for
      text without a backslash. */
  lemma MsgstrRoundTrip(st: ParseState, t: string, n: int)
    requires StateOk(st) && '\\' !in t
    ensures Run(st, MsgstrLines(t), n)
         == ParseState(st.entries, Some(CurrentOr(st, n).(msgstr := t)), MsgStrField)
  {
    if t == [] {
      MsgstrEmptyRead(st, n);
    } else if '\n' in t {
      MsgstrBlockRead(st, t, n);
    } else {
      MsgstrOneRead(st, t, n);
    }
  }

  /** `msgstr ""` reads as the empty text. */
  lemma MsgstrEmptyRead(st: ParseState, n: int)
    requires StateOk(st)
    ensures Run(st, ["msgstr " + Quote("")], n)
         == ParseState(st.entries, Some(CurrentOr(st, n).(msgstr := "")), MsgStrField)
  {
    RunOne(st, "msgstr " + Quote(""), n);
    MsgstrLine(st, "", n);
    assert Unescape("") == "";
  }

  /** A one-line `msgstr` reads as its text. */
  lemma MsgstrOneRead(st: ParseState, t: string, n: int)
    requires StateOk(st) && '\\' !in t && '\n' !in t
    ensures Run(st, ["msgstr " + Quote(Escape(t))], n)
         == ParseState(st.entries, Some(CurrentOr(st, n).(msgstr := t)), MsgStrField)
  {
    RunOne(st, "msgstr " + Quote(Escape(t)), n);
    MsgstrLine(st, Escape(t), n);
    UnescapeEscape(t);
  }

  /** `msgstr ""` followed by the block of a text with newlines reads as
      that text. */
  lemma MsgstrBlockRead(st: ParseState, t: string, n: int)
    requires StateOk(st) && '\\' !in t
    ensures var parts := Split(t, '\n');
      Run(st, ["msgstr " + Quote("")] + PartLines(parts, |parts|), n)
        == ParseState(st.entries, Some(CurrentOr(st, n).(msgstr := t)), MsgStrField)
  {
    var parts := Split(t, '\n');
    var e1 := CurrentOr(st, n).(msgstr := "");
    var mid := ParseState(st.entries, Some(e1), MsgStrField);
    MsgstrEmptyRead(st, n);
    BlockRead(mid, e1, MsgStrField, t, n + 1);
    EmptyAppend(t);
    RunChain(st, ["msgstr " + Quote("")], PartLines(parts, |parts|), mid,
             ParseState(st.entries, Some(CurrentOr(st, n).(msgstr := t)), MsgStrField), n);
  }

  /** No part of the split text before the last equals the last. */
  predicate LastPartUnique(parts: seq<string>) {
    forall i :: 0 <= i < |parts| - 1 ==> parts[i] != parts[|parts| - 1]
  }

  /** When the last part is unique, the msgid block is written exactly like
      a msgstr block. */
  lemma {:induction false} MsgidPartLinesAgree(parts: seq<string>, k: nat)
    requires LastPartUnique(parts) && k <= |parts|
    ensures MsgidPartLines(parts, k) == PartLines(parts, k)
    decreases k
  {
    if k > 0 {
      MsgidPartLinesAgree(parts, k - 1);
      assert MsgidPartLine(parts, k - 1) == PartLine(parts, k - 1);
    }
  }

  /** Whether reading the msgid lines marks the entry as the header: an
      empty msgid, or any block-form msgid, read before any entry. */
  predicate ReadsAsHeader(entries: seq<Entry>, k: string) {
    entries == [] && (k == [] || BlockForm(k))
  }

  /** The msgid lines read back as the key when its last part is unique. */
  lemma MsgidRoundTrip(st: ParseState, k: string, n: int)
    requires StateOk(st) && '\\' !in k && LastPartUnique(Split(k, '\n'))
    ensures var e := CurrentOr(st, n);
      Run(st, MsgidLines(k), n)
        == ParseState(st.entries,
             Some(e.(msgid := k, isHeader := e.isHeader || ReadsAsHeader(st.entries, k))),
             MsgIdField)
  {
    var e := CurrentOr(st, n);
    if BlockForm(k) {
      var first := "msgid " + Quote("");
      var parts := Split(k, '\n');
      MsgidPartLinesAgree(parts, |parts|);
      RunAppend(st, [first], PartLines(parts, |parts|), n);
      RunOne(st, first, n);
      MsgidLine(st, "", n);
      assert Unescape("") == "";
      var e1 := SetMsgid(st.entries, e, Some([]));
      BlockRead(ParseState(st.entries, Some(e1), MsgIdField), e1, MsgIdField, k, n + 1);
      EmptyAppend(k);
    } else {
      RunOne(st, "msgid " + Quote(Escape(k)), n);
      MsgidLine(st, Escape(k), n);
      UnescapeEscape(k);
    }
  }

  lemma SplitRepeated(p: string)
    requires '\n' !in p
    ensures Split(p + "\n" + p, '\n') == [p, p]
  {
    assert p + "\n" + p == p + ("\n" + p);
    assert Split(p, '\n') == [p] by {
      SplitPrefix(p, [], '\n');
      AppendEmpty(p);
    }
    assert Split("\n" + p, '\n') == [[], p] by {
      assert ("\n" + p)[0] == '\n' && ("\n" + p)[1..] == p;
    }
    SplitPrefix(p, "\n" + p, '\n');
    AppendEmpty(p);
  }

  lemma MsgidLinesRepeated(p: string)
    requires p != [] && '\n' !in p
    ensures MsgidLines(p + "\n" + p) == ["msgid " + Quote(""), Quote(Escape(p)), Quote(Escape(p))]
  {
    var k := p + "\n" + p;
    SplitRepeated(p);
    assert BlockForm(k) by { assert k[|p|] == '\n'; }
    var parts := Split(k, '\n');
    assert MsgidPartLines(parts, 1) == [Quote(Escape(p))];
    assert MsgidPartLines(parts, 2) == [Quote(Escape(p)), Quote(Escape(p))];
  }

  /** Reading `msgid ""` and then the line `"p"` twice. */
  lemma RepeatedLinesRead(st: ParseState, p: string, n: int)
    requires StateOk(st) && '\\' !in p
    ensures Run(st, ["msgid " + Quote(""), Quote(Escape(p)), Quote(Escape(p))], n)
         == ParseState(st.entries, Some(SetMsgid(st.entries, CurrentOr(st, n), Some([])).(msgid := p + p)), MsgIdField)
  {
    var line := Quote(Escape(p));
    var e := SetMsgid(st.entries, CurrentOr(st, n), Some([]));
    var first := "msgid " + Quote("");
    var s1 := ParseState(st.entries, Some(e), MsgIdField);
    assert Step(st, first, n) == s1 by {
      MsgidLine(st, "", n);
      assert Unescape("") == "";
    }
    var s2 := ParseState(st.entries, Some(e.(msgid := p)), MsgIdField);
    assert Step(s1, line, n + 1) == s2 by {
      ContinuationLine(s1, Escape(p), n + 1);
      UnescapeEscape(p);
      EmptyAppend(p);
    }
    assert Step(s2, line, n + 2) == ParseState(st.entries, Some(e.(msgid := p + p)), MsgIdField) by {
      ContinuationLine(s2, Escape(p), n + 2);
      UnescapeEscape(p);
    }
    RunThree(st, first, line, line, n);
  }

  /** A part equal to the last part loses its newline: the key `p\np` is
      written as two lines `"p"` and reads back as `pp`. */
  lemma RepeatedPartLosesNewline(st: ParseState, p: string, n: int)
    requires StateOk(st) && p != [] && '\n' !in p && '\\' !in p
    ensures MsgidLines(p + "\n" + p) == ["msgid " + Quote(""), Quote(Escape(p)), Quote(Escape(p))]
    ensures Run(st, MsgidLines(p + "\n" + p), n)
         == ParseState(st.entries, Some(SetMsgid(st.entries, CurrentOr(st, n), Some([])).(msgid := p + p)), MsgIdField)
    ensures p + p != p + "\n" + p
  {
    MsgidLinesRepeated(p);
    RepeatedLinesRead(st, p, n);
    assert |p + p| != |p + "\n" + p|;
  }

  lemma PaddedAppend(ps: seq<string>, v: string)
    ensures Padded(ps, |ps|, v) == ps + [v]
  {
  }

  /** A state that reads plural lines into an entry with no plural forms
      yet, and forms with no backslash. */
  predicate PluralReady(st: ParseState, ps: seq<string>, n: int) {
    && StateOk(st) && CurrentOr(st, n).msgstrPlural == []
    && forall i :: 0 <= i < |ps| ==> '\\' !in ps[i]
  }

  /** Reading the first `k` plural lines into an entry with no plural
      forms yet fills them in order. */
  lemma PluralLinesRead(st: ParseState, ps: seq<string>, k: nat, n: int)
    requires PluralReady(st, ps, n) && 1 <= k <= |ps|
    ensures Run(st, PluralLines(ps, k), n)
         == ParseState(st.entries, Some(CurrentOr(st, n).(msgstrPlural := ps[..k])), MsgStrPluralField(k - 1))
  {
    PluralLinesReadFrom(st, ps, k, n);
  }

  /** The first `k` plural lines fill the first `k` plural forms. */
  predicate PluralRead(st: ParseState, ps: seq<string>, k: nat, n: int)
    requires StateOk(st) && 1 <= k <= |ps|
  {
    Run(st, PluralLines(ps, k), n)
      == ParseState(st.entries, Some(CurrentOr(st, n).(msgstrPlural := ps[..k])), MsgStrPluralField(k - 1))
  }

  /** The induction behind `PluralLinesRead`. */
  lemma {:induction false} PluralLinesReadFrom(st: ParseState, ps: seq<string>, k: nat, n: int)
    requires StateOk(st) && CurrentOr(st, n).msgstrPlural == []
    requires 1 <= k <= |ps| && forall i :: 0 <= i < |ps| ==> '\\' !in ps[i]
    ensures PluralRead(st, ps, k, n)
    decreases k
  {
    if k == 1 {
      PluralFirstRead(st, ps, n);
    } else {
      PluralLinesReadFrom(st, ps, k - 1, n);
      PluralNextRead(st, ps, k, n);
    }
  }

  /** The first plural line fills the first form. */
  lemma PluralFirstRead(st: ParseState, ps: seq<string>, n: int)
    requires StateOk(st) && CurrentOr(st, n).msgstrPlural == []
    requires 1 <= |ps| && '\\' !in ps[0]
    ensures PluralRead(st, ps, 1, n)
  {
    PluralLinesSnoc(ps, 1);
    EmptyAppend([PluralLine(ps, 0)]);
    RunOne(st, PluralLine(ps, 0), n);
    EscapeNoNewline(ps[0]);
    MsgstrIndexLine(st, 0, Escape(ps[0]), n);
    UnescapeEscape(ps[0]);
    PaddedAppend([], ps[0]);
    TakeSnoc(ps, 1);
    EmptyAppend([ps[0]]);
  }

  /** The plural line `k - 1` fills the form after the first `k - 1`. */
  lemma PluralNextRead(st: ParseState, ps: seq<string>, k: nat, n: int)
    requires StateOk(st) && CurrentOr(st, n).msgstrPlural == []
    requires 1 < k <= |ps| && '\\' !in ps[k - 1]
    requires PluralRead(st, ps, k - 1, n)
    ensures PluralRead(st, ps, k, n)
  {
    var e := CurrentOr(st, n);
    var before := PluralLines(ps, k - 1);
    var mid := ParseState(st.entries, Some(e.(msgstrPlural := ps[..k - 1])), MsgStrPluralField(k - 2));
    var last := ParseState(st.entries, Some(e.(msgstrPlural := ps[..k])), MsgStrPluralField(k - 1));
    PluralLineRead(mid, ps, k, n + |before|);
    TakeSnoc(ps, k);
    PluralLinesSnoc(ps, k);
    RunChain(st, before, [PluralLine(ps, k - 1)], mid, last, n);
  }

  lemma PluralLinesSnoc(ps: seq<string>, k: nat)
    requires 0 < k <= |ps|
    ensures PluralLines(ps, k) == PluralLines(ps, k - 1) + [PluralLine(ps, k - 1)]
  {
  }

  /** Reading the plural line `k - 1` after the first `k - 1` forms. */
  lemma PluralLineRead(mid: ParseState, ps: seq<string>, k: nat, m: int)
    requires 1 < k <= |ps| && '\\' !in ps[k - 1]
    requires mid.current.Some? && mid.current.value.msgstrPlural == ps[..k - 1] && mid.field == MsgStrPluralField(k - 2)
    ensures StateOk(mid)
    ensures Run(mid, [PluralLine(ps, k - 1)], m)
         == ParseState(mid.entries, Some(mid.current.value.(msgstrPlural := ps[..k - 1] + [ps[k - 1]])), MsgStrPluralField(k - 1))
  {
    RunOne(mid, PluralLine(ps, k - 1), m);
    EscapeNoNewline(ps[k - 1]);
    MsgstrIndexLine(mid, k - 1, Escape(ps[k - 1]), m);
    UnescapeEscape(ps[k - 1]);
    PaddedAppend(ps[..k - 1], ps[k - 1]);
  }

  /** The `msgstr[N]` lines read back as the plural forms. */
  lemma PluralRoundTrip(st: ParseState, ps: seq<string>, n: int)
    requires PluralReady(st, ps, n) && ps != []
    ensures Run(st, PluralLines(ps, |ps|), n)
         == ParseState(st.entries, Some(CurrentOr(st, n).(msgstrPlural := ps)), MsgStrPluralField(|ps| - 1))
  {
    PluralLinesRead(st, ps, |ps|, n);
    TakeAll(ps);
  }
}
