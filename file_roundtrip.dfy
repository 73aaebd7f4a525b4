/** Reading back a whole catalog: the lines `write_po_file` writes for an
    entry (scripts/translate_v2.py:412-457), and for a list of entries
    separated by blank lines, run through `parse_po_file`
    (scripts/translate_v2.py:293-375). The field-level round trips of
    `PoRoundTrip` are chained here: comments, msgid, msgid_plural, msgstr
    and the plural forms of every entry come back, for entries that avoid
    the traps the field-level lemmas expose (a backslash in a text, a
    block-form key whose last part repeats, an empty key after the first
    entry). */
module PoFileRoundTrip {
  import opened Strings
  import opened Wrappers
  import opened PoEscape
  import opened PoEntry
  import opened PoParse
  import opened PoWrite
  import opened PoRoundTrip

  // ---------------------------------------------------------------------
  // Comment lines
  // ---------------------------------------------------------------------

  /** A comment line as the parser reads it back unchanged: it starts with
      `#` and holds no newline. */
  predicate CommentLineOk(l: string) {
    StartsWith(l, "#") && '\n' !in l
  }

  predicate CommentLinesOk(ls: seq<string>) {
    forall i :: 0 <= i < |ls| ==> CommentLineOk(ls[i])
  }

  predicate NoNewlines(fs: seq<string>) {
    forall i :: 0 <= i < |fs| ==> '\n' !in fs[i]
  }

  /** The flags of a flag comment without newlines hold none either. */
  lemma {:induction false} CommentFlagsWithout(c: string)
    requires IsFlagComment(c) && '\n' !in c
    ensures NoNewlines(CommentFlags(c))
  {
    var rest := c[2..];
    assert '\n' !in rest by {
      forall j | 0 <= j < |rest| ensures rest[j] != '\n' {
        assert rest[j] == c[j + 2];
      }
    }
    SplitChars(rest, ',', '\n');
    var parts := Split(rest, ',');
    forall i | 0 <= i < |parts|
      ensures '\n' !in StripEach(parts)[i]
    {
      StripWithout(parts[i], '\n');
    }
  }

  /** The writer's edit of the flags adds no newline. */
  lemma {:induction false} RewriteWithout(flags: seq<string>, remove: bool, add: bool)
    requires NoNewlines(flags)
    ensures NoNewlines(RewriteFlags(flags, remove, add))
  {
    var kept := if remove then Filter(flags, NotFuzzy) else flags;
    forall i | 0 <= i < |kept|
      ensures '\n' !in kept[i]
    {
      if remove {
        FilterKeeps(flags, NotFuzzy, kept[i]);
      }
    }
  }

  /** A written flag line is a comment line when its flags hold no
      newline. */
  lemma {:induction false} FlagLineOk(flags: seq<string>)
    requires NoNewlines(flags)
    ensures CommentLineOk(FlagLine(flags))
  {
    JoinWithout(flags, ", ", '\n');
    assert FlagLine(flags)[..1] == "#";
  }

  /** Every line written for a comment line is a comment line. */
  lemma {:induction false} CommentOutOk(c: string, remove: bool, add: bool)
    requires CommentLineOk(c)
    ensures CommentLinesOk(CommentOut(c, remove, add))
  {
    if IsFlagComment(c) {
      CommentFlagsWithout(c);
      var flags := RewriteFlags(CommentFlags(c), remove, add);
      RewriteWithout(CommentFlags(c), remove, add);
      if flags != [] {
        FlagLineOk(flags);
      }
    }
  }

  lemma {:induction false} CommentsOutOk(cs: seq<string>, k: nat, remove: bool, add: bool)
    requires k <= |cs| && CommentLinesOk(cs)
    ensures CommentLinesOk(CommentsOut(cs, k, remove, add))
    decreases k
  {
    if k > 0 {
      CommentsOutOk(cs, k - 1, remove, add);
      CommentOutOk(cs[k - 1], remove, add);
      AppendOk(CommentsOut(cs, k - 1, remove, add), CommentOut(cs[k - 1], remove, add));
    }
  }

  lemma {:induction false} AppendOk(a: seq<string>, b: seq<string>)
    requires CommentLinesOk(a) && CommentLinesOk(b)
    ensures CommentLinesOk(a + b)
  {
    forall i | 0 <= i < |a + b|
      ensures CommentLineOk((a + b)[i])
    {
      if i >= |a| {
        assert (a + b)[i] == b[i - |a|];
      }
    }
  }

  /** The whole written comment block consists of comment lines. */
  lemma {:induction false} CommentBlockOk(cs: seq<string>, remove: bool, add: bool)
    requires CommentLinesOk(cs)
    ensures CommentLinesOk(CommentBlock(cs, remove, add))
  {
    CommentsOutOk(cs, |cs|, remove, add);
    assert "#, fuzzy"[..1] == "#";
    var tail: seq<string> := if add && !HasFlagComment(cs) then ["#, fuzzy"] else [];
    AppendOk(CommentsOut(cs, |cs|, remove, add), tail);
  }

  /** When the writer neither removes nor adds `fuzzy`, the written block
      reads back as the flags of the original comments. */
  lemma {:induction false} UneditedFlagsRead(cs: seq<string>)
    ensures ReadFlags(CommentBlock(cs, false, false)) == ReadFlags(cs)
  {
    CommentsOutRead(cs, |cs|, false, false);
    RewrittenUnedited(cs, |cs|);
    assert cs[..|cs|] == cs;
    AppendEmpty(CommentsOut(cs, |cs|, false, false));
  }

  lemma {:induction false} RewrittenUnedited(cs: seq<string>, k: nat)
    requires k <= |cs|
    ensures RewrittenFlags(cs, k, false, false) == ReadFlags(cs[..k])
    decreases k
  {
    if k > 0 {
      RewrittenUnedited(cs, k - 1);
      ReadFlagsPrefix(cs, k);
    }
  }

  // ---------------------------------------------------------------------
  // Reading the comment lines
  // ---------------------------------------------------------------------

  /** The entry after the comment lines `ls`, one `AddComment` each. */
  function AddComments(e: Entry, ls: seq<string>): (r: Entry)
    requires CommentLinesOk(ls)
    decreases |ls|
  {
    if ls == [] then e else AddComments(AddComment(e, ls[0]), ls[1..])
  }

  /** Comment lines only add comments, flags and references. */
  lemma {:induction false} AddCommentsFields(e: Entry, ls: seq<string>)
    requires CommentLinesOk(ls)
    ensures var r := AddComments(e, ls);
      && r.comments == e.comments + ls && r.flags == e.flags + ReadFlags(ls)
      && r == e.(comments := r.comments, flags := r.flags, references := r.references)
    decreases |ls|
  {
    if ls == [] {
      AppendEmpty(e.comments);
      AppendEmpty(e.flags);
    } else {
      var e1 := AddComment(e, ls[0]);
      AddCommentsFields(e1, ls[1..]);
      ConcatAssoc(e.comments, [ls[0]], ls[1..]);
      ConsAppend([ls[0]], ls[1..]);
      ConcatAssoc(e.flags, FlagsIn(ls[0]), ReadFlags(ls[1..]));
    }
  }

  /** A comment line is one step of the loop that adds it to the entry. */
  lemma {:induction false} CommentStep(st: ParseState, l: string, n: int)
    requires StateOk(st) && CommentLineOk(l)
    ensures Step(st, l, n) == ParseState(st.entries, Some(AddComment(CurrentOr(st, n), l)), st.field)
  {
    assert l[0] == l[..1][0];
    assert !IsBlank(l);
  }

  /** Reading comment lines adds them to the current entry, or to a new
      one that starts at the first of them. */
  lemma {:induction false} CommentsRead(st: ParseState, ls: seq<string>, n: int)
    requires StateOk(st) && CommentLinesOk(ls) && ls != []
    ensures Run(st, ls, n) == ParseState(st.entries, Some(AddComments(CurrentOr(st, n), ls)), st.field)
    decreases |ls|
  {
    CommentStep(st, ls[0], n);
    var st1 := ParseState(st.entries, Some(AddComment(CurrentOr(st, n), ls[0])), st.field);
    if |ls| > 1 {
      CommentsRead(st1, ls[1..], n + 1);
    }
  }

  // ---------------------------------------------------------------------
  // One entry
  // ---------------------------------------------------------------------

  /** An entry the writer and the parser agree on: comment lines that read
      back as written, and texts without the backslash the unescape order
      mangles, with a key whose last newline-separated part is unique. */
  predicate Writable(e: Entry) {
    && CommentLinesOk(e.comments)
    && '\\' !in e.msgid && LastPartUnique(Split(e.msgid, '\n'))
    && '\\' !in e.msgidPlural && '\\' !in e.msgstr
    && forall i :: 0 <= i < |e.msgstrPlural| ==> '\\' !in e.msgstrPlural[i]
  }

  /** The comment block `write_po_file` writes for `e`. */
  function Block(e: Entry, removeFor: set<string>, addFor: set<string>, version: Version): seq<string> {
    CommentBlock(e.comments, e.msgid in removeFor, AddsFuzzy(e, addFor, version))
  }

  /** The entry the parser builds from the lines written for `e`, when it
      starts at line `n` after the entries `entries`. */
  function ReadBack(e: Entry, block: seq<string>, entries: seq<Entry>, n: int): Entry
    requires CommentLinesOk(block)
  {
    AddComments(NewEntry(n), block).(
      msgid := e.msgid, isHeader := ReadsAsHeader(entries, e.msgid),
      msgidPlural := e.msgidPlural, msgstr := e.msgstr, msgstrPlural := e.msgstrPlural)
  }

  /** What the read-back entry holds, field by field. */
  lemma {:induction false} ReadBackFields(e: Entry, block: seq<string>, entries: seq<Entry>, n: int)
    requires CommentLinesOk(block)
    ensures var r := ReadBack(e, block, entries, n);
      && r.comments == block && r.flags == ReadFlags(block)
      && r.msgid == e.msgid && r.msgidPlural == e.msgidPlural
      && r.msgstr == e.msgstr && r.msgstrPlural == e.msgstrPlural
      && r.isHeader == ReadsAsHeader(entries, e.msgid)
  {
    AddCommentsFields(NewEntry(n), block);
    EmptyAppend(block);
    EmptyAppend(ReadFlags(block));
  }

  /** Two runs chained, the second starting at line `m`. */
  lemma {:induction false} RunThen(st: ParseState, a: seq<string>, b: seq<string>, mid: ParseState, last: ParseState, n: int, m: int)
    requires StateOk(st) && Run(st, a, n) == mid
    requires StateOk(mid) && m == n + |a| && Run(mid, b, m) == last
    ensures Run(st, a + b, n) == last
  {
    RunAppend(st, a, b, n);
  }

  /** The comment block and the msgid lines, read from a state between
      entries, give a new entry `c` with the comments and then the key. */
  lemma {:induction false} HeadRead(st: ParseState, e: Entry, block: seq<string>, c: Entry, n: int, r: ParseState)
    requires StateOk(st) && st.current == None && CommentLinesOk(block)
    requires '\\' !in e.msgid && LastPartUnique(Split(e.msgid, '\n'))
    requires c == AddComments(NewEntry(n), block)
    requires r == ParseState(st.entries, Some(c.(msgid := e.msgid, isHeader := ReadsAsHeader(st.entries, e.msgid))), MsgIdField)
    ensures Run(st, block + MsgidLines(e.msgid), n) == r
  {
    if block == [] {
      assert c == NewEntry(n);
      BareMsgid(st, e.msgid, n, r);
    } else {
      CommentsThenMsgid(st, e.msgid, block, c, n, r);
    }
  }

  /** With no comment block, the msgid lines open the entry themselves. */
  lemma {:induction false} BareMsgid(st: ParseState, k: string, n: int, r: ParseState)
    requires StateOk(st) && st.current == None
    requires '\\' !in k && LastPartUnique(Split(k, '\n'))
    requires r == ParseState(st.entries, Some(NewEntry(n).(msgid := k, isHeader := ReadsAsHeader(st.entries, k))), MsgIdField)
    ensures Run(st, [] + MsgidLines(k), n) == r
  {
    assert [] + MsgidLines(k) == MsgidLines(k);
    MsgidOnto(st, NewEntry(n), k, n, r);
  }


  /** A non-empty comment block opens the entry `c`; the msgid lines then
      set its key. */
  lemma {:induction false} CommentsThenMsgid(st: ParseState, k: string, block: seq<string>, c: Entry, n: int, r: ParseState)
    requires StateOk(st) && st.current == None && CommentLinesOk(block) && block != []
    requires '\\' !in k && LastPartUnique(Split(k, '\n'))
    requires c == AddComments(NewEntry(n), block)
    requires r == ParseState(st.entries, Some(c.(msgid := k, isHeader := ReadsAsHeader(st.entries, k))), MsgIdField)
    ensures Run(st, block + MsgidLines(k), n) == r
  {
    AddCommentsFields(NewEntry(n), block);
    var mid := ParseState(st.entries, Some(c), st.field);
    var m := n + |block|;
    CommentsRead(st, block, n);
    MsgidOnto(mid, c, k, m, r);
    RunThen(st, block, MsgidLines(k), mid, r, n, m);
  }

  /** The msgid lines onto an entry that is not the header. */
  lemma {:induction false} MsgidOnto(st: ParseState, c: Entry, k: string, n: int, r: ParseState)
    requires StateOk(st) && CurrentOr(st, n) == c && !c.isHeader
    requires '\\' !in k && LastPartUnique(Split(k, '\n'))
    requires r == ParseState(st.entries, Some(c.(msgid := k, isHeader := ReadsAsHeader(st.entries, k))), MsgIdField)
    ensures Run(st, MsgidLines(k), n) == r
  {
    MsgidRoundTrip(st, k, n);
  }

  /** The field left open after the lines of `e`. */
  function EndField(e: Entry): Field {
    if e.msgstrPlural != [] then MsgStrPluralField(|e.msgstrPlural| - 1) else MsgStrField
  }

  /** The msgid_plural line, if any, sets the plural key. */
  lemma {:induction false} PluralIdRead(st: ParseState, c: Entry, e: Entry, n: int, r: ParseState)
    requires StateOk(st) && st.current == Some(c) && c.msgidPlural == [] && '\\' !in e.msgidPlural
    requires r == ParseState(st.entries, Some(c.(msgidPlural := e.msgidPlural)),
                             if e.msgidPlural != [] then MsgIdPluralField else st.field)
    ensures Run(st, MsgidPluralLines(e), n) == r
  {
    var p := e.msgidPlural;
    if p != [] {
      RunOne(st, "msgid_plural " + Quote(Escape(p)), n);
      MsgidPluralLine(st, Escape(p), n);
      UnescapeEscape(p);
    } else {
      assert c.(msgidPlural := p) == c;
    }
  }

  /** The msgstr lines set the text. */
  lemma {:induction false} MsgstrOnto(st: ParseState, c: Entry, t: string, n: int, r: ParseState)
    requires StateOk(st) && st.current == Some(c) && '\\' !in t
    requires r == ParseState(st.entries, Some(c.(msgstr := t)), MsgStrField)
    ensures Run(st, MsgstrLines(t), n) == r
  {
    MsgstrRoundTrip(st, t, n);
  }

  /** The plural lines `pl`, if any, set the plural forms. */
  lemma {:induction false} PluralsRead(st: ParseState, c: Entry, ps: seq<string>, pl: seq<string>, n: int, r: ParseState)
    requires PluralReady(st, ps, n) && st.current == Some(c) && pl == PluralLines(ps, |ps|)
    requires r == ParseState(st.entries, Some(c.(msgstrPlural := ps)),
                             if ps != [] then MsgStrPluralField(|ps| - 1) else st.field)
    ensures Run(st, pl, n) == r
  {
    if ps != [] {
      PluralRoundTrip(st, ps, n);
    } else {
      assert c.(msgstrPlural := ps) == c;
    }
  }

  /** The msgstr lines and the plural lines `pl` set the text and the
      plural forms of an entry that has no plural forms yet. */
  lemma {:induction false} TextsRead(st: ParseState, c: Entry, e: Entry, pl: seq<string>, n: int, r: ParseState)
    requires StateOk(st) && st.current == Some(c) && c.msgstrPlural == []
    requires '\\' !in e.msgstr && forall i :: 0 <= i < |e.msgstrPlural| ==> '\\' !in e.msgstrPlural[i]
    requires pl == PluralLines(e.msgstrPlural, |e.msgstrPlural|)
    requires r == ParseState(st.entries, Some(c.(msgstr := e.msgstr, msgstrPlural := e.msgstrPlural)), EndField(e))
    ensures Run(st, MsgstrLines(e.msgstr) + pl, n) == r
  {
    var c2 := c.(msgstr := e.msgstr);
    var s2 := ParseState(st.entries, Some(c2), MsgStrField);
    var m := n + |MsgstrLines(e.msgstr)|;
    MsgstrOnto(st, c, e.msgstr, n, s2);
    PluralsRead(s2, c2, e.msgstrPlural, pl, m, r);
    RunThen(st, MsgstrLines(e.msgstr), pl, s2, r, n, m);
  }

  /** The lines after the key set the plural key, the text and the plural
      forms of an entry that has none of them yet. */
  lemma {:induction false} TailRead(st: ParseState, c: Entry, e: Entry, pl: seq<string>, n: int, r: ParseState)
    requires StateOk(st) && st.current == Some(c) && c.msgidPlural == [] && c.msgstrPlural == []
    requires '\\' !in e.msgidPlural && '\\' !in e.msgstr
    requires forall i :: 0 <= i < |e.msgstrPlural| ==> '\\' !in e.msgstrPlural[i]
    requires pl == PluralLines(e.msgstrPlural, |e.msgstrPlural|)
    requires r == ParseState(st.entries,
                   Some(c.(msgidPlural := e.msgidPlural, msgstr := e.msgstr, msgstrPlural := e.msgstrPlural)),
                   EndField(e))
    ensures Run(st, MsgidPluralLines(e) + (MsgstrLines(e.msgstr) + pl), n) == r
  {
    var c1 := c.(msgidPlural := e.msgidPlural);
    var s1 := ParseState(st.entries, Some(c1), if e.msgidPlural != [] then MsgIdPluralField else st.field);
    var m := n + |MsgidPluralLines(e)|;
    PluralIdRead(st, c, e, n, s1);
    TextsRead(s1, c1, e, pl, m, r);
    RunThen(st, MsgidPluralLines(e), MsgstrLines(e.msgstr) + pl, s1, r, n, m);
  }

  /** The lines written for one entry, read from a state between entries,
      leave the entries alone and build the read-back entry. */
  lemma {:induction false} EntryRead(st: ParseState, e: Entry, removeFor: set<string>, addFor: set<string>, version: Version,
                                     lines: seq<string>, n: int, r: ParseState)
    requires StateOk(st) && st.current == None && Writable(e)
    requires lines == EntryLines(e, removeFor, addFor, version)
    requires CommentLinesOk(Block(e, removeFor, addFor, version))
    requires r == ParseState(st.entries, Some(ReadBack(e, Block(e, removeFor, addFor, version), st.entries, n)), EndField(e))
    ensures Run(st, lines, n) == r
  {
    var block := Block(e, removeFor, addFor, version);
    var pl := PluralLines(e.msgstrPlural, |e.msgstrPlural|);
    var head := block + MsgidLines(e.msgid);
    var tail := MsgidPluralLines(e) + (MsgstrLines(e.msgstr) + pl);
    EntryLinesSplit(e, removeFor, addFor, version, lines, block, pl);
    var c := AddComments(NewEntry(n), block);
    AddCommentsFields(NewEntry(n), block);
    var h := c.(msgid := e.msgid, isHeader := ReadsAsHeader(st.entries, e.msgid));
    var mid := ParseState(st.entries, Some(h), MsgIdField);
    var m := n + |head|;
    HeadRead(st, e, block, c, n, mid);
    TailRead(mid, h, e, pl, m, r);
    RunThen(st, head, tail, mid, r, n, m);
  }

  /** The lines of an entry: comment block and key, then the rest. */
  lemma {:induction false} EntryLinesSplit(e: Entry, removeFor: set<string>, addFor: set<string>, version: Version,
                                           lines: seq<string>, block: seq<string>, pl: seq<string>)
    requires lines == EntryLines(e, removeFor, addFor, version)
    requires block == Block(e, removeFor, addFor, version) && pl == PluralLines(e.msgstrPlural, |e.msgstrPlural|)
    ensures lines == (block + MsgidLines(e.msgid)) + (MsgidPluralLines(e) + (MsgstrLines(e.msgstr) + pl))
  {
  }

  // ---------------------------------------------------------------------
  // The whole file
  // ---------------------------------------------------------------------

  /** The flags the parser reads from a comment block, under a name of
      their own for the file-level lemmas. */
  function BlockFlags(block: seq<string>): seq<string> {
    ReadFlags(block)
  }

  /** What an entry read back from a written file holds: the written
      comment block and the flags it carries, the key, the texts and the
      plural forms; it is the header exactly when it is first and its key
      is empty or written in block form. */
  predicate ReadsBackAs(r: Entry, e: Entry, block: seq<string>, first: bool) {
    && r.comments == block && r.flags == BlockFlags(block)
    && r.msgid == e.msgid && r.msgidPlural == e.msgidPlural
    && r.msgstr == e.msgstr && r.msgstrPlural == e.msgstrPlural
    && (r.isHeader <==> first && (e.msgid == [] || BlockForm(e.msgid)))
  }

  /** Entries the file round trip needs: each writable, and only the first
      may have an empty key. */
  predicate FileWritable(es: seq<Entry>) {
    forall i :: 0 <= i < |es| ==> WritableAt(es, i)
  }

  /** Entry `i` of the list is writable, and its key is empty only when it
      is first. */
  predicate WritableAt(es: seq<Entry>, i: nat)
    requires i < |es|
  {
    Writable(es[i]) && (es[i].msgid != [] || i == 0)
  }

  /** Between entries: the first `k` entries have been read back. */
  predicate ReadSoFar(st: ParseState, es: seq<Entry>, k: nat, removeFor: set<string>, addFor: set<string>, version: Version)
    requires k <= |es|
  {
    && st.current == None && st.field == NoField && |st.entries| == k
    && forall i :: 0 <= i < k ==> ReadsBackAs(st.entries[i], es[i], Block(es[i], removeFor, addFor, version), i == 0)
  }

  /** The lines `write_po_file` writes for the first `k` entries, under a
      name of their own for the file-level lemmas. */
  function Written(es: seq<Entry>, k: nat, removeFor: set<string>, addFor: set<string>, version: Version): seq<string>
    requires k <= |es|
  {
    FileLines(es, k, removeFor, addFor, version)
  }

  /** Reading `lines` from the start of a file leaves the parser in `st`. */
  predicate Reaches(lines: seq<string>, st: ParseState) {
    Run(INIT, lines, 1) == st
  }

  /** The lines `lines` leave the parser in state `st`, between entries,
      with the first `k` entries read back. */
  predicate LinesRead(lines: seq<string>, st: ParseState, es: seq<Entry>, k: nat,
                      removeFor: set<string>, addFor: set<string>, version: Version)
    requires k <= |es|
  {
    StateOk(st) && Reaches(lines, st) && ReadSoFar(st, es, k, removeFor, addFor, version)
  }

  /** The entry read back for `es[k]` after `k` entries holds what
      `ReadsBackAs` says and is kept when the entry ends. */
  lemma {:induction false} ReadBackKept(es: seq<Entry>, k: nat, entries: seq<Entry>, removeFor: set<string>, addFor: set<string>, version: Version, n: int,
                                        x: Entry)
    requires k < |es| && WritableAt(es, k) && |entries| == k
    requires CommentLinesOk(Block(es[k], removeFor, addFor, version))
    requires x == ReadBack(es[k], Block(es[k], removeFor, addFor, version), entries, n)
    ensures ReadsBackAs(x, es[k], Block(es[k], removeFor, addFor, version), k == 0)
    ensures x.msgid != [] || x.isHeader
  {
    ReadBackHolds(es[k], Block(es[k], removeFor, addFor, version), entries, n, x, k == 0);
  }

  /** What the entry read back for `e` holds, `first` telling whether it
      comes before any other. */
  lemma {:induction false} ReadBackHolds(e: Entry, block: seq<string>, entries: seq<Entry>, n: int, x: Entry, first: bool)
    requires CommentLinesOk(block) && x == ReadBack(e, block, entries, n)
    requires (first <==> entries == []) && (e.msgid != [] || first)
    ensures ReadsBackAs(x, e, block, first)
    ensures x.msgid != [] || x.isHeader
  {
    ReadBackFields(e, block, entries, n);
  }

  /** The comment block written for an entry of a writable list. */
  lemma {:induction false} FileBlockOk(es: seq<Entry>, k: nat, removeFor: set<string>, addFor: set<string>, version: Version)
    requires k < |es| && WritableAt(es, k)
    ensures CommentLinesOk(Block(es[k], removeFor, addFor, version))
  {
    var e := es[k];
    CommentBlockOk(e.comments, e.msgid in removeFor, AddsFuzzy(e, addFor, version));
  }


  /** The blank line after an entry emits it and clears the state. */
  lemma {:induction false} BlankEmits(st: ParseState, x: Entry, n: int, r: ParseState)
    requires StateOk(st) && st.current == Some(x) && (x.msgid != [] || x.isHeader)
    requires r == ParseState(st.entries + [x], None, NoField)
    ensures Run(st, [""], n) == r
  {
    RunOne(st, "", n);
  }

  /** Reading the lines of the first `k` entries, each followed by a blank
      line, leaves the state `st` between entries. */
  lemma {:induction false} FileReadUpTo(es: seq<Entry>, k: nat, removeFor: set<string>, addFor: set<string>, version: Version)
    returns (st: ParseState)
    requires k < |es| && FileWritable(es)
    ensures LinesRead(Written(es, k, removeFor, addFor, version), st, es, k, removeFor, addFor, version)
    decreases k, 1
  {
    if k == 0 {
      st := INIT;
      NothingRead(es, removeFor, addFor, version);
    } else {
      st := FileReadStep(es, k, removeFor, addFor, version);
    }
  }

  /** The step of `FileReadUpTo`: the entries before `k - 1`, then entry
      `k - 1` and its blank line. */
  lemma {:induction false} FileReadStep(es: seq<Entry>, k: nat, removeFor: set<string>, addFor: set<string>, version: Version)
    returns (st: ParseState)
    requires 0 < k < |es| && FileWritable(es)
    ensures LinesRead(Written(es, k, removeFor, addFor, version), st, es, k, removeFor, addFor, version)
    decreases k, 0
  {
    var s0 := FileReadUpTo(es, k - 1, removeFor, addFor, version);
    st := FileReadEntry(es, k, removeFor, addFor, version, s0);
  }

  /** The entry `k - 1` and its blank line, after the lines of the entries
      ahead of it. */
  lemma {:induction false} FileReadEntry(es: seq<Entry>, k: nat, removeFor: set<string>, addFor: set<string>, version: Version,
                                         s0: ParseState)
    returns (st: ParseState)
    requires 0 < k < |es| && FileWritable(es)
    requires LinesRead(Written(es, k - 1, removeFor, addFor, version), s0, es, k - 1, removeFor, addFor, version)
    ensures LinesRead(Written(es, k, removeFor, addFor, version), st, es, k, removeFor, addFor, version)
  {
    var x := EntryStep(es, k, removeFor, addFor, version, s0);
    st := ParseState(s0.entries + [x], None, NoField);
    ReadSoFarSnoc(s0, x, es, k, removeFor, addFor, version);
  }

  /** No lines, no entries. */
  lemma {:induction false} NothingRead(es: seq<Entry>, removeFor: set<string>, addFor: set<string>, version: Version)
    requires 0 < |es|
    ensures LinesRead(Written(es, 0, removeFor, addFor, version), INIT, es, 0, removeFor, addFor, version)
  {
  }

  /** After the lines `before` of the earlier entries, an entry's lines and
      the blank line after them emit the read-back entry `x`. */
  lemma {:induction false} EntryThenBlank(before: seq<string>, s0: ParseState, e: Entry,
                                          removeFor: set<string>, addFor: set<string>, version: Version, n: int, x: Entry)
    requires StateOk(s0) && s0.current == None && Writable(e) && Reaches(before, s0) && n == 1 + |before|
    requires CommentLinesOk(Block(e, removeFor, addFor, version))
    requires x == ReadBack(e, Block(e, removeFor, addFor, version), s0.entries, n) && (x.msgid != [] || x.isHeader)
    ensures Reaches(before + EntryLines(e, removeFor, addFor, version) + [""], ParseState(s0.entries + [x], None, NoField))
  {
    var el := EntryLines(e, removeFor, addFor, version);
    var s1 := ParseState(s0.entries, Some(x), EndField(e));
    var st := ParseState(s0.entries + [x], None, NoField);
    var m := n + |el|;
    EntryRead(s0, e, removeFor, addFor, version, el, n, s1);
    BlankEmits(s1, x, m, st);
    RunThen(INIT, before, el, s0, s1, 1, n);
    RunThen(INIT, before + el, [""], s1, st, 1, m);
  }

  /** The entry `k - 1` read back after the lines of the entries ahead of
      it: what it holds, and the state once its lines and blank line are
      read. */
  lemma {:induction false} EntryStep(es: seq<Entry>, k: nat, removeFor: set<string>, addFor: set<string>, version: Version,
                                     s0: ParseState)
    returns (x: Entry)
    requires 0 < k < |es| && WritableAt(es, k - 1)
    requires StateOk(s0) && s0.current == None && |s0.entries| == k - 1
    requires Reaches(Written(es, k - 1, removeFor, addFor, version), s0)
    ensures ReadsBackAs(x, es[k - 1], Block(es[k - 1], removeFor, addFor, version), k - 1 == 0)
    ensures Reaches(Written(es, k, removeFor, addFor, version), ParseState(s0.entries + [x], None, NoField))
  {
    x := EntryReadAfter(Written(es, k - 1, removeFor, addFor, version), s0, es[k - 1], removeFor, addFor, version, k - 1 == 0);
    FileLinesStep(es, k, removeFor, addFor, version);
  }

  /** The lines of `e` and a blank line, read after lines `before` that
      leave the parser between entries, add the entry read back for `e`. */
  lemma {:induction false} EntryReadAfter(before: seq<string>, s0: ParseState, e: Entry,
                                          removeFor: set<string>, addFor: set<string>, version: Version, first: bool)
    returns (x: Entry)
    requires StateOk(s0) && s0.current == None && Reaches(before, s0)
    requires Writable(e) && (first <==> s0.entries == []) && (e.msgid != [] || first)
    ensures ReadsBackAs(x, e, Block(e, removeFor, addFor, version), first)
    ensures Reaches(before + EntryLines(e, removeFor, addFor, version) + [""], ParseState(s0.entries + [x], None, NoField))
  {
    var n := 1 + |before|;
    var block := Block(e, removeFor, addFor, version);
    CommentBlockOk(e.comments, e.msgid in removeFor, AddsFuzzy(e, addFor, version));
    x := ReadBack(e, block, s0.entries, n);
    ReadBackHolds(e, block, s0.entries, n, x, first);
    EntryThenBlank(before, s0, e, removeFor, addFor, version, n, x);
  }



  /** The lines of `k` entries, when more follow: those of `k - 1`, the
      entry's and a blank line. */
  lemma {:induction false} FileLinesStep(es: seq<Entry>, k: nat, removeFor: set<string>, addFor: set<string>, version: Version)
    requires 0 < k < |es|
    ensures Written(es, k, removeFor, addFor, version)
      == Written(es, k - 1, removeFor, addFor, version) + EntryLines(es[k - 1], removeFor, addFor, version) + [""]
  {
  }

  /** Emitting the read-back entry extends what has been read. */
  lemma {:induction false} ReadSoFarSnoc(s0: ParseState, x: Entry, es: seq<Entry>, k: nat,
                                         removeFor: set<string>, addFor: set<string>, version: Version)
    requires 0 < k <= |es| && ReadSoFar(s0, es, k - 1, removeFor, addFor, version)
    requires ReadsBackAs(x, es[k - 1], Block(es[k - 1], removeFor, addFor, version), k - 1 == 0)
    ensures ReadSoFar(ParseState(s0.entries + [x], None, NoField), es, k, removeFor, addFor, version)
  {
    var entries := s0.entries + [x];
    forall i | 0 <= i < k
      ensures ReadsBackAs(entries[i], es[i], Block(es[i], removeFor, addFor, version), i == 0)
    {
      if i < k - 1 {
        assert entries[i] == s0.entries[i];
      }
    }
  }

  /** The state after all the lines of a non-empty list of entries: the
      last entry is still open. */
  lemma {:induction false} FileReadAll(es: seq<Entry>, removeFor: set<string>, addFor: set<string>, version: Version,
                                       lines: seq<string>)
    requires es != [] && FileWritable(es) && lines == Written(es, |es|, removeFor, addFor, version)
    ensures var parsed := ParseSpec(lines);
      |parsed| == |es|
      && forall i :: 0 <= i < |es| ==> ReadsBackAs(parsed[i], es[i], Block(es[i], removeFor, addFor, version), i == 0)
  {
    var k := |es| - 1;
    var before := Written(es, k, removeFor, addFor, version);
    var s0 := FileReadUpTo(es, k, removeFor, addFor, version);
    var e := es[k];
    var el := EntryLines(e, removeFor, addFor, version);
    var n := 1 + |before|;
    FileBlockOk(es, k, removeFor, addFor, version);
    var x := ReadBack(e, Block(e, removeFor, addFor, version), s0.entries, n);
    ReadBackKept(es, k, s0.entries, removeFor, addFor, version, n, x);
    var s1 := ParseState(s0.entries, Some(x), EndField(e));
    EntryRead(s0, e, removeFor, addFor, version, el, n, s1);
    RunThen(INIT, before, el, s0, s1, 1, n);
    FileLinesLast(es, removeFor, addFor, version, before, el, lines);
    ParseOf(lines, s1);
    ReadAllEmitted(s0, x, es, removeFor, addFor, version);
  }

  /** The lines of all entries: those before the last, then the last
      entry's, with no blank line after it. */
  lemma {:induction false} FileLinesLast(es: seq<Entry>, removeFor: set<string>, addFor: set<string>, version: Version,
                                         before: seq<string>, el: seq<string>, lines: seq<string>)
    requires es != []
    requires before == Written(es, |es| - 1, removeFor, addFor, version) && el == EntryLines(es[|es| - 1], removeFor, addFor, version)
    requires lines == Written(es, |es|, removeFor, addFor, version)
    ensures lines == before + el
  {
    AppendEmpty(before + el);
  }

  /** The last entry, still open at the end, is emitted after the others. */
  lemma {:induction false} ReadAllEmitted(s0: ParseState, x: Entry, es: seq<Entry>,
                                          removeFor: set<string>, addFor: set<string>, version: Version)
    requires es != [] && ReadSoFar(s0, es, |es| - 1, removeFor, addFor, version)
    requires ReadsBackAs(x, es[|es| - 1], Block(es[|es| - 1], removeFor, addFor, version), |es| - 1 == 0)
    requires x.msgid != [] || x.isHeader
    ensures var parsed := Emit(s0.entries, Some(x));
      |parsed| == |es|
      && forall i :: 0 <= i < |es| ==> ReadsBackAs(parsed[i], es[i], Block(es[i], removeFor, addFor, version), i == 0)
  {
    ReadSoFarSnoc(s0, x, es, |es|, removeFor, addFor, version);
  }

  /** `parse_po_file` ends by emitting the entry still open. */
  lemma {:induction false} ParseOf(lines: seq<string>, st: ParseState)
    requires Run(INIT, lines, 1) == st
    ensures ParseSpec(lines) == Emit(st.entries, st.current)
  {
  }

  /** `parse_po_file` of what `write_po_file` writes gives back one entry
      per written entry, each with its key, texts, plural forms, written
      comments and the flags they carry. */
  lemma {:induction false} FileRoundTrip(es: seq<Entry>, removeFor: set<string>, addFor: set<string>, version: Version)
    requires FileWritable(es)
    ensures var parsed := ParseSpec(FileLines(es, |es|, removeFor, addFor, version));
      |parsed| == |es|
      && forall i :: 0 <= i < |es| ==> ReadsBackAs(parsed[i], es[i], Block(es[i], removeFor, addFor, version), i == 0)
  {
    var lines := Written(es, |es|, removeFor, addFor, version);
    if es == [] {
      ParseOf(lines, INIT);
    } else {
      FileReadAll(es, removeFor, addFor, version, lines);
    }
  }

  /** A catalog written back unchanged, as `write_po_file(entries, path)`
      with no fuzzy edits: every entry is read back with its key, its
      texts, its plural forms and, for entries whose flags are those of
      their comments as every parsed entry's are, its flags and so its
      fuzzy state. */
  lemma {:induction false} CatalogRoundTrip(es: seq<Entry>, version: Version)
    requires FileWritable(es)
    requires forall i :: 0 <= i < |es| ==> FlagsRead(es[i])
    ensures var parsed := ParseSpec(FileLines(es, |es|, {}, {}, version));
      |parsed| == |es|
      && forall i :: 0 <= i < |es| ==>
        && parsed[i].msgid == es[i].msgid && parsed[i].msgidPlural == es[i].msgidPlural
        && parsed[i].msgstr == es[i].msgstr && parsed[i].msgstrPlural == es[i].msgstrPlural
        && parsed[i].flags == es[i].flags && (parsed[i].IsFuzzy() <==> es[i].IsFuzzy())
  {
    FileRoundTrip(es, {}, {}, version);
    var parsed := ParseSpec(FileLines(es, |es|, {}, {}, version));
    forall i | 0 <= i < |es|
      ensures parsed[i].flags == es[i].flags
    {
      assert Block(es[i], {}, {}, version) == CommentBlock(es[i].comments, false, false);
      UneditedFlagsRead(es[i].comments);
    }
  }

  /** With fuzzy edits, an entry read back is fuzzy exactly when the
      writer added the flag, or the entry was fuzzy and the flag was not
      removed. */
  lemma {:induction false} EditedFuzzyRead(es: seq<Entry>, removeFor: set<string>, addFor: set<string>, version: Version, i: nat)
    requires FileWritable(es) && i < |es| && FlagsRead(es[i])
    ensures var parsed := ParseSpec(FileLines(es, |es|, removeFor, addFor, version));
      i < |parsed|
      && (parsed[i].IsFuzzy() <==>
          AddsFuzzy(es[i], addFor, version) || (es[i].msgid !in removeFor && es[i].IsFuzzy()))
  {
    FileRoundTrip(es, removeFor, addFor, version);
    CommentBlockFuzzy(es[i].comments, es[i].msgid in removeFor, AddsFuzzy(es[i], addFor, version));
  }
}
