/** Writing a catalog: `format_msgstr_for_po` and `write_po_file`
    (scripts/translate_v2.py:388-457; the v1 copy at scripts/translate.py:269-338
    differs only in the add-fuzzy guard at scripts/translate.py:298). The
    file is the sequence of lines written, each followed by a newline. Each
    loop is a method proved equal to a specification function; the lemmas
    state what the written lines guarantee. */
module PoWrite {
  import opened Strings
  import opened PoEscape
  import opened PoEntry
  import opened PoParse

  // ---------------------------------------------------------------------
  // format_msgstr_for_po
  // ---------------------------------------------------------------------

  /** The line written for part `i` of the newline-split text: a non-final
      part with a `\n` marker; the final part without one, and only when it
      is not empty. */
  function PartLine(parts: seq<string>, i: nat): (r: seq<string>)
    requires i < |parts|
    ensures |r| <= 1
  {
    if i < |parts| - 1 then [Quote(Escape(parts[i]) + "\\n")]
    else if parts[i] != [] then [Quote(Escape(parts[i]))]
    else []
  }

  /** The lines written for the first `k` parts. */
  function PartLines(parts: seq<string>, k: nat): (r: seq<string>)
    requires k <= |parts|
    decreases k
  {
    if k == 0 then [] else PartLines(parts, k - 1) + PartLine(parts, k - 1)
  }

  /** The lines `format_msgstr_for_po` returns. */
  function MsgstrLines(t: string): (r: seq<string>)
  {
    if t == [] then ["msgstr " + Quote("")]
    else if '\n' in t then ["msgstr " + Quote("")] + PartLines(Split(t, '\n'), |Split(t, '\n')|)
    else ["msgstr " + Quote(Escape(t))]
  }

  /** `format_msgstr_for_po`. */
  method FormatMsgstr(t: string) returns (lines: seq<string>)
    ensures lines == MsgstrLines(t)
  {
    if t == [] {
      return ["msgstr " + Quote("")];
    }
    if '\n' in t {
      var partLines := WriteParts(Split(t, '\n'));
      lines := ["msgstr " + Quote("")] + partLines;
    } else {
      lines := ["msgstr " + Quote(Escape(t))];
    }
  }

  /** The loop of `format_msgstr_for_po` over the newline-split parts. */
  method WriteParts(parts: seq<string>) returns (lines: seq<string>)
    ensures lines == PartLines(parts, |parts|)
  {
    lines := [];
    for i := 0 to |parts|
      invariant lines == PartLines(parts, i)
    {
      if i < |parts| - 1 {
        lines := lines + [Quote(Escape(parts[i]) + "\\n")];
      } else if parts[i] != [] {
        lines := lines + [Quote(Escape(parts[i]))];
      }
    }
  }

  // ---------------------------------------------------------------------
  // Comments and the flag line
  // ---------------------------------------------------------------------

  predicate NotFlagComment(c: string) { !StartsWith(c, "#,") }
  predicate NotFuzzy(f: string) { f != "fuzzy" }

  /** The flags of a `#,` comment as the writer reads them. */
  function CommentFlags(c: string): seq<string>
    requires IsFlagComment(c)
  {
    StripEach(Split(c[2..], ','))
  }

  /** The writer's flag edit: drop `fuzzy` when asked to remove it, then
      append it when asked to add it and it is not there. */
  function RewriteFlags(flags: seq<string>, remove: bool, add: bool): (r: seq<string>)
  {
    var kept := if remove then Filter(flags, NotFuzzy) else flags;
    if add && "fuzzy" !in kept then kept + ["fuzzy"] else kept
  }

  /** The written flag line. */
  function FlagLine(flags: seq<string>): string {
    "#, " + Join(flags, ", ")
  }

  /** The lines written for one comment: a flag comment is rewritten, and
      dropped when no flag is left; any other comment is copied. */
  function CommentOut(c: string, remove: bool, add: bool): (r: seq<string>)
  {
    if IsFlagComment(c) then
      var flags := RewriteFlags(CommentFlags(c), remove, add);
      if flags != [] then [FlagLine(flags)] else []
    else [c]
  }

  /** The lines written for the first `k` comments. */
  function CommentsOut(cs: seq<string>, k: nat, remove: bool, add: bool): (r: seq<string>)
    requires k <= |cs|
    decreases k
  {
    if k == 0 then [] else CommentsOut(cs, k - 1, remove, add) + CommentOut(cs[k - 1], remove, add)
  }

  predicate HasFlagComment(cs: seq<string>) {
    exists i :: 0 <= i < |cs| && IsFlagComment(cs[i])
  }

  /** All the comment lines written for an entry: a `#, fuzzy` line is
      added when fuzzy must be added and the entry had no flag comment. */
  function CommentBlock(cs: seq<string>, remove: bool, add: bool): seq<string> {
    CommentsOut(cs, |cs|, remove, add) + (if add && !HasFlagComment(cs) then ["#, fuzzy"] else [])
  }

  /** The body of the comment loop for one comment. */
  method WriteComment(c: string, remove: bool, add: bool) returns (lines: seq<string>)
    ensures lines == CommentOut(c, remove, add)
  {
    lines := [c];
    if StartsWith(c, "#,") {
      var flags := StripEach(Split(c[2..], ','));
      if remove {
        flags := Filter(flags, NotFuzzy);
      }
      if add && "fuzzy" !in flags {
        flags := flags + ["fuzzy"];
      }
      lines := if flags != [] then ["#, " + Join(flags, ", ")] else [];
    }
  }

  lemma HasFlagCommentStep(cs: seq<string>, i: nat)
    requires i < |cs|
    ensures HasFlagComment(cs[..i + 1]) <==> HasFlagComment(cs[..i]) || IsFlagComment(cs[i])
  {
    assert cs[..i + 1][i] == cs[i];
    if HasFlagComment(cs[..i + 1]) && !IsFlagComment(cs[i]) {
      var j :| 0 <= j < i + 1 && IsFlagComment(cs[..i + 1][j]);
      assert cs[..i][j] == cs[..i + 1][j];
    }
    if HasFlagComment(cs[..i]) {
      var j :| 0 <= j < i && IsFlagComment(cs[..i][j]);
      assert cs[..i + 1][j] == cs[..i][j];
    }
  }

  /** The comment loop of `write_po_file`, with its `wrote_fuzzy_line`. */
  method WriteComments(cs: seq<string>, remove: bool, add: bool) returns (lines: seq<string>)
    ensures lines == CommentBlock(cs, remove, add)
  {
    lines := [];
    var wrote := false;
    for i := 0 to |cs|
      invariant lines == CommentsOut(cs, i, remove, add)
      invariant wrote <==> HasFlagComment(cs[..i])
    {
      var out := WriteComment(cs[i], remove, add);
      lines := lines + out;
      HasFlagCommentStep(cs, i);
      if StartsWith(cs[i], "#,") {
        wrote := true;
      }
    }
    assert cs[..|cs|] == cs;
    if add && !wrote {
      lines := lines + ["#, fuzzy"];
    }
  }

  // ---------------------------------------------------------------------
  // What the written comments say when read back
  // ---------------------------------------------------------------------

  /** Flags a written flag line can carry unchanged: stripped pieces
      without a comma. */
  predicate CleanFlags(flags: seq<string>) {
    forall f :: f in flags ==> ',' !in f && Stripped(f)
  }

  /** The writer's and the parser's reading of a `#,` comment agree. */
  lemma CommentFlagsAgree(c: string)
    requires IsFlagComment(c)
    ensures LineFlags(c) == CommentFlags(c)
    ensures CommentFlags(c) != [] && CleanFlags(CommentFlags(c))
  {
    StripEachSplitStrip(c[2..], ',');
    StripEachClean(Split(c[2..], ','));
  }

  lemma StripEachClean(parts: seq<string>)
    requires forall i :: 0 <= i < |parts| ==> ',' !in parts[i]
    ensures CleanFlags(StripEach(parts))
  {
    forall f | f in StripEach(parts) ensures ',' !in f && Stripped(f) {
      var i :| 0 <= i < |parts| && f == StripEach(parts)[i];
      StripWithout(parts[i], ',');
    }
  }

  /** A written flag line reads back as the flags it was made of. */
  lemma FlagLineRead(flags: seq<string>)
    requires flags != [] && CleanFlags(flags)
    ensures IsFlagComment(FlagLine(flags)) && LineFlags(FlagLine(flags)) == flags
  {
    var line := FlagLine(flags);
    assert line[..2] == "#,";
    assert line[2..] == " " + Join(flags, ", ");
    StripEachSplitStrip(line[2..], ',');
    SplitSpacedJoin(flags);
  }

  /** The edit leaves every flag but `fuzzy` alone, in order... */
  lemma RewriteKeepsOthers(flags: seq<string>, remove: bool, add: bool)
    ensures Filter(RewriteFlags(flags, remove, add), NotFuzzy) == Filter(flags, NotFuzzy)
  {
    var kept := if remove then Filter(flags, NotFuzzy) else flags;
    if remove { FilterTwice(flags, NotFuzzy); }
    if add && "fuzzy" !in kept {
      FilterAppend(kept, ["fuzzy"], NotFuzzy);
      assert Filter(["fuzzy"], NotFuzzy) == [];
    }
  }

  /** ...and the result carries `fuzzy` exactly when it is added, or was
      there and is not removed. */
  lemma RewriteFuzzy(flags: seq<string>, remove: bool, add: bool)
    ensures "fuzzy" in RewriteFlags(flags, remove, add) <==> add || (!remove && "fuzzy" in flags)
    ensures CleanFlags(flags) ==> CleanFlags(RewriteFlags(flags, remove, add))
  {
    FilterKeeps(flags, NotFuzzy, "fuzzy");
    assert Stripped("fuzzy") && ',' !in "fuzzy";
  }

  /** What one written comment says when read back. */
  lemma CommentOutRead(c: string, remove: bool, add: bool)
    ensures ReadFlags(CommentOut(c, remove, add)) == RewrittenIn(c, remove, add)
  {
    if IsFlagComment(c) {
      CommentFlagsAgree(c);
      var flags := RewriteFlags(CommentFlags(c), remove, add);
      RewriteFuzzy(CommentFlags(c), remove, add);
      if flags != [] {
        FlagLineRead(flags);
        ReadFlagsOne(FlagLine(flags));
      }
    } else {
      ReadFlagsOne(c);
    }
  }

  /** The rewritten flags of the flag comments among the first `k`. */
  function RewrittenFlags(cs: seq<string>, k: nat, remove: bool, add: bool): seq<string>
    requires k <= |cs|
    decreases k
  {
    if k == 0 then []
    else
      RewrittenFlags(cs, k - 1, remove, add) + RewrittenIn(cs[k - 1], remove, add)
  }

  /** The flags one comment carries once the writer has edited them. */
  function RewrittenIn(c: string, remove: bool, add: bool): seq<string> {
    if IsFlagComment(c) then RewriteFlags(LineFlags(c), remove, add) else []
  }

  /** The first `k` comments, written, read back as their rewritten flags. */
  predicate ReadsAsRewritten(cs: seq<string>, k: nat, remove: bool, add: bool)
    requires k <= |cs|
  {
    ReadFlags(CommentsOut(cs, k, remove, add)) == RewrittenFlags(cs, k, remove, add)
  }

  lemma CommentsOutRead(cs: seq<string>, k: nat, remove: bool, add: bool)
    requires k <= |cs|
    ensures ReadFlags(CommentsOut(cs, k, remove, add)) == RewrittenFlags(cs, k, remove, add)
  {
    if k == 0 {
      CommentsOutReadBase(cs, remove, add);
    } else {
      CommentsOutReadFrom(cs, k, remove, add);
    }
  }

  /** The induction behind `CommentsOutRead`, from one comment up. */
  lemma {:induction false} CommentsOutReadFrom(cs: seq<string>, k: nat, remove: bool, add: bool)
    requires 0 < k <= |cs|
    ensures ReadsAsRewritten(cs, k, remove, add)
  {
    if k == 1 {
      CommentsOutReadBase(cs, remove, add);
    } else {
      CommentsOutReadFrom(cs, k - 1, remove, add);
    }
    CommentsOutReadStep(cs, k, remove, add);
  }

  lemma CommentsOutReadBase(cs: seq<string>, remove: bool, add: bool)
    ensures ReadsAsRewritten(cs, 0, remove, add)
  {
  }

  lemma CommentsOutReadStep(cs: seq<string>, k: nat, remove: bool, add: bool)
    requires 0 < k <= |cs|
    requires ReadsAsRewritten(cs, k - 1, remove, add)
    ensures ReadsAsRewritten(cs, k, remove, add)
  {
    ReadFlagsAppend(CommentsOut(cs, k - 1, remove, add), CommentOut(cs[k - 1], remove, add));
    CommentOutRead(cs[k - 1], remove, add);
  }

  lemma ReadFlagsPrefix(cs: seq<string>, k: nat)
    requires 0 < k <= |cs|
    ensures ReadFlags(cs[..k]) == ReadFlags(cs[..k - 1]) + FlagsIn(cs[k - 1])
  {
    assert cs[..k] == cs[..k - 1] + [cs[k - 1]];
    ReadFlagsAppend(cs[..k - 1], [cs[k - 1]]);
    ReadFlagsOne(cs[k - 1]);
  }

  lemma {:induction false} RewrittenKeepsOthers(cs: seq<string>, k: nat, remove: bool, add: bool)
    requires k <= |cs|
    ensures Filter(RewrittenFlags(cs, k, remove, add), NotFuzzy) == Filter(ReadFlags(cs[..k]), NotFuzzy)
    decreases k
  {
    if k > 0 {
      RewrittenKeepsOthers(cs, k - 1, remove, add);
      ReadFlagsPrefix(cs, k);
      var c := cs[k - 1];
      var mine := FlagsIn(c);
      var out := RewrittenIn(c, remove, add);
      FilterAppend(RewrittenFlags(cs, k - 1, remove, add), out, NotFuzzy);
      FilterAppend(ReadFlags(cs[..k - 1]), mine, NotFuzzy);
      if IsFlagComment(c) { RewriteKeepsOthers(LineFlags(c), remove, add); }
    }
  }

  lemma RewrittenFuzzy(cs: seq<string>, k: nat, remove: bool, add: bool)
    requires k <= |cs|
    ensures "fuzzy" in RewrittenFlags(cs, k, remove, add)
        <==> (add && HasFlagComment(cs[..k])) || (!remove && "fuzzy" in ReadFlags(cs[..k]))
  {
    assert !HasFlagComment(cs[..0]);
    var j := 0;
    while j < k
      invariant j <= k
      invariant "fuzzy" in RewrittenFlags(cs, j, remove, add)
        <==> (add && HasFlagComment(cs[..j])) || (!remove && "fuzzy" in ReadFlags(cs[..j]))
    {
      RewrittenFuzzyStep(cs, j + 1, remove, add);
      j := j + 1;
    }
  }

  lemma RewrittenFuzzyStep(cs: seq<string>, k: nat, remove: bool, add: bool)
    requires 0 < k <= |cs|
    requires "fuzzy" in RewrittenFlags(cs, k - 1, remove, add)
        <==> (add && HasFlagComment(cs[..k - 1])) || (!remove && "fuzzy" in ReadFlags(cs[..k - 1]))
    ensures "fuzzy" in RewrittenFlags(cs, k, remove, add)
        <==> (add && HasFlagComment(cs[..k])) || (!remove && "fuzzy" in ReadFlags(cs[..k]))
  {
    var f := "fuzzy";
    var a, b := RewrittenFlags(cs, k - 1, remove, add), RewrittenIn(cs[k - 1], remove, add);
    var c, d := ReadFlags(cs[..k - 1]), FlagsIn(cs[k - 1]);
    assert f in RewrittenFlags(cs, k, remove, add) <==> f in a || f in b by {
      assert RewrittenFlags(cs, k, remove, add) == a + b;
    }
    assert f in ReadFlags(cs[..k]) <==> f in c || f in d by {
      ReadFlagsPrefix(cs, k);
    }
    assert f in b <==> IsFlagComment(cs[k - 1]) && (add || (!remove && f in d)) by {
      RewrittenInFuzzy(cs[k - 1], remove, add);
    }
    assert !IsFlagComment(cs[k - 1]) ==> d == [];
    HasFlagCommentStep(cs, k - 1);
  }

  lemma RewrittenInFuzzy(c: string, remove: bool, add: bool)
    ensures "fuzzy" in RewrittenIn(c, remove, add)
        <==> IsFlagComment(c) && (add || (!remove && "fuzzy" in FlagsIn(c)))
  {
    if IsFlagComment(c) { RewriteFuzzy(LineFlags(c), remove, add); }
  }

  /** Writing keeps every flag of the entry other than `fuzzy`, in order. */
  lemma CommentBlockKeepsFlags(cs: seq<string>, remove: bool, add: bool)
    ensures Filter(ReadFlags(CommentBlock(cs, remove, add)), NotFuzzy) == Filter(ReadFlags(cs), NotFuzzy)
  {
    var body := CommentsOut(cs, |cs|, remove, add);
    var tail := if add && !HasFlagComment(cs) then ["#, fuzzy"] else [];
    ReadFlagsAppend(body, tail);
    CommentsOutRead(cs, |cs|, remove, add);
    RewrittenKeepsOthers(cs, |cs|, remove, add);
    assert cs[..|cs|] == cs;
    FuzzyLineRead();
    FilterAppend(ReadFlags(body), ReadFlags(tail), NotFuzzy);
    assert Filter(["fuzzy"], NotFuzzy) == [];
  }

  /** The synthesised flag line reads back as `fuzzy` alone. */
  lemma FuzzyLineRead()
    ensures ReadFlags(["#, fuzzy"]) == ["fuzzy"]
  {
    assert FlagLine(["fuzzy"]) == "#, fuzzy";
    RewriteFuzzy([], false, true);
    FlagLineRead(["fuzzy"]);
    ReadFlagsOne("#, fuzzy");
  }

  /** The written entry is fuzzy exactly when fuzzy is added, or it was
      fuzzy and fuzzy is not removed. */
  lemma CommentBlockFuzzy(cs: seq<string>, remove: bool, add: bool)
    ensures "fuzzy" in ReadFlags(CommentBlock(cs, remove, add)) <==> add || (!remove && "fuzzy" in ReadFlags(cs))
  {
    var body := CommentsOut(cs, |cs|, remove, add);
    var tail := if add && !HasFlagComment(cs) then ["#, fuzzy"] else [];
    ReadFlagsAppend(body, tail);
    CommentsOutRead(cs, |cs|, remove, add);
    RewrittenFuzzy(cs, |cs|, remove, add);
    assert cs[..|cs|] == cs;
    FuzzyLineRead();
  }

  /** Comments other than flag comments are written unchanged, in order. */
  lemma {:induction false} CommentsOutKeepsOthers(cs: seq<string>, k: nat, remove: bool, add: bool)
    requires k <= |cs|
    ensures Filter(CommentsOut(cs, k, remove, add), NotFlagComment) == Filter(cs[..k], NotFlagComment)
    decreases k
  {
    if k > 0 {
      CommentsOutKeepsOthers(cs, k - 1, remove, add);
      var c := cs[k - 1];
      assert cs[..k] == cs[..k - 1] + [c];
      FilterAppend(cs[..k - 1], [c], NotFlagComment);
      FilterAppend(CommentsOut(cs, k - 1, remove, add), CommentOut(c, remove, add), NotFlagComment);
      CommentOutKeepsOthers(c, remove, add);
    }
  }

  lemma CommentOutKeepsOthers(c: string, remove: bool, add: bool)
    ensures Filter(CommentOut(c, remove, add), NotFlagComment) == Filter([c], NotFlagComment)
  {
    if IsFlagComment(c) {
      var flags := RewriteFlags(CommentFlags(c), remove, add);
      if flags != [] {
        FlagLineDropped(flags);
      }
      FlagCommentDropped(c);
    }
  }

  lemma FlagLineDropped(flags: seq<string>)
    ensures Filter([FlagLine(flags)], NotFlagComment) == []
  {
    assert FlagLine(flags)[..2] == "#,";
  }

  lemma FlagCommentDropped(c: string)
    requires IsFlagComment(c)
    ensures Filter([c], NotFlagComment) == []
  {
  }

  lemma CommentBlockKeepsOthers(cs: seq<string>, remove: bool, add: bool)
    ensures Filter(CommentBlock(cs, remove, add), NotFlagComment) == Filter(cs, NotFlagComment)
  {
    var body := CommentsOut(cs, |cs|, remove, add);
    var tail := if add && !HasFlagComment(cs) then ["#, fuzzy"] else [];
    CommentsOutKeepsOthers(cs, |cs|, remove, add);
    assert cs[..|cs|] == cs;
    FilterAppend(body, tail, NotFlagComment);
    FuzzyLineDropped();
    AppendEmpty(Filter(body, NotFlagComment));
  }

  lemma FuzzyLineDropped()
    ensures Filter(["#, fuzzy"], NotFlagComment) == []
  {
    assert "#, fuzzy"[..2] == "#,";
  }

  /** In v1 a verified entry stays unfuzzy whatever it is listed for; in
      v2 an entry listed for fuzzy is written fuzzy even when verified. */
  lemma AddFuzzyGuard(e: Entry, removeFor: set<string>, addFor: set<string>)
    requires e.IsVerified() && FlagsRead(e)
    ensures "fuzzy" !in ReadFlags(CommentBlock(e.comments, e.msgid in removeFor, AddsFuzzy(e, addFor, V1)))
    ensures e.msgid in addFor ==>
      "fuzzy" in ReadFlags(CommentBlock(e.comments, e.msgid in removeFor, AddsFuzzy(e, addFor, V2)))
  {
    CommentBlockFuzzy(e.comments, e.msgid in removeFor, AddsFuzzy(e, addFor, V1));
    CommentBlockFuzzy(e.comments, e.msgid in removeFor, AddsFuzzy(e, addFor, V2));
  }

  // ---------------------------------------------------------------------
  // The msgid
  // ---------------------------------------------------------------------

  /** The line for part `i` of a block-form msgid. Unlike the msgstr, the
      marker depends on the part's TEXT: a part equal to the last part is
      written without its `\n`. */
  function MsgidPartLine(parts: seq<string>, i: nat): (r: seq<string>)
    requires i < |parts|
    ensures |r| <= 1
  {
    if parts[i] != parts[|parts| - 1] then [Quote(Escape(parts[i]) + "\\n")]
    else if parts[i] != [] then [Quote(Escape(parts[i]))]
    else []
  }

  function MsgidPartLines(parts: seq<string>, k: nat): (r: seq<string>)
    requires k <= |parts|
    decreases k
  {
    if k == 0 then [] else MsgidPartLines(parts, k - 1) + MsgidPartLine(parts, k - 1)
  }

  /** A msgid with a newline or over 70 characters is written in block
      form; any other on one line. */
  predicate BlockForm(k: string) { '\n' in k || |k| > 70 }

  function MsgidLines(k: string): seq<string> {
    if BlockForm(k) then ["msgid " + Quote("")] + MsgidPartLines(Split(k, '\n'), |Split(k, '\n')|)
    else ["msgid " + Quote(Escape(k))]
  }

  method FormatMsgid(k: string) returns (lines: seq<string>)
    ensures lines == MsgidLines(k)
  {
    if '\n' in k || |k| > 70 {
      var partLines := WriteMsgidParts(Split(k, '\n'));
      lines := ["msgid " + Quote("")] + partLines;
    } else {
      lines := ["msgid " + Quote(Escape(k))];
    }
  }

  /** The msgid loop over the newline-split parts. */
  method WriteMsgidParts(parts: seq<string>) returns (lines: seq<string>)
    ensures lines == MsgidPartLines(parts, |parts|)
  {
    lines := [];
    for i := 0 to |parts|
      invariant lines == MsgidPartLines(parts, i)
    {
      if parts[i] != parts[|parts| - 1] {
        lines := lines + [Quote(Escape(parts[i]) + "\\n")];
      } else if parts[i] != [] {
        lines := lines + [Quote(Escape(parts[i]))];
      }
    }
  }

  // ---------------------------------------------------------------------
  // Plural forms, entries and the file
  // ---------------------------------------------------------------------

  function PluralLine(ps: seq<string>, i: nat): string
    requires i < |ps|
  {
    "msgstr[" + NatToString(i) + "] " + Quote(Escape(ps[i]))
  }

  function PluralLines(ps: seq<string>, k: nat): (r: seq<string>)
    requires k <= |ps|
    ensures |r| == k
    ensures forall i :: 0 <= i < k ==> r[i] == PluralLine(ps, i)
    decreases k
  {
    if k == 0 then [] else PluralLines(ps, k - 1) + [PluralLine(ps, k - 1)]
  }

  method FormatPlurals(ps: seq<string>) returns (lines: seq<string>)
    ensures lines == PluralLines(ps, |ps|)
  {
    lines := [];
    for i := 0 to |ps|
      invariant lines == PluralLines(ps, i)
    {
      lines := lines + ["msgstr[" + NatToString(i) + "] " + Quote(Escape(ps[i]))];
    }
  }

  /** Whether fuzzy is added to an entry listed for it: always in v2; in
      v1 only when the entry is not verified. */
  predicate AddsFuzzy(e: Entry, addFor: set<string>, version: Version) {
    e.msgid in addFor && (version == V2 || !e.IsVerified())
  }

  function MsgidPluralLines(e: Entry): seq<string> {
    if e.msgidPlural != [] then ["msgid_plural " + Quote(Escape(e.msgidPlural))] else []
  }

  /** The lines written for one entry. */
  function EntryLines(e: Entry, removeFor: set<string>, addFor: set<string>, version: Version): seq<string> {
    CommentBlock(e.comments, e.msgid in removeFor, AddsFuzzy(e, addFor, version))
      + MsgidLines(e.msgid) + MsgidPluralLines(e)
      + MsgstrLines(e.msgstr) + PluralLines(e.msgstrPlural, |e.msgstrPlural|)
  }

  method WriteEntry(e: Entry, removeFor: set<string>, addFor: set<string>, version: Version)
    returns (lines: seq<string>)
    ensures lines == EntryLines(e, removeFor, addFor, version)
  {
    var remove := e.msgid in removeFor;
    var add := e.msgid in addFor;
    if version == V1 {
      add := add && !e.IsVerified();
    }
    var commentLines := WriteComments(e.comments, remove, add);
    var idLines := FormatMsgid(e.msgid);
    var pluralIdLines := [];
    if e.msgidPlural != [] {
      pluralIdLines := ["msgid_plural " + Quote(Escape(e.msgidPlural))];
    }
    var strLines := FormatMsgstr(e.msgstr);
    var pluralLines := FormatPlurals(e.msgstrPlural);
    lines := commentLines + idLines + pluralIdLines + strLines + pluralLines;
  }

  /** The lines written for the first `k` of `es`, each entry but the
      last followed by one blank line. */
  function FileLines(es: seq<Entry>, k: nat, removeFor: set<string>, addFor: set<string>, version: Version): seq<string>
    requires k <= |es|
    decreases k
  {
    if k == 0 then []
    else
      FileLines(es, k - 1, removeFor, addFor, version)
        + EntryLines(es[k - 1], removeFor, addFor, version)
        + (if k < |es| then [""] else [])
  }

  /** `write_po_file`: the lines of the file written. */
  method WritePo(es: seq<Entry>, removeFor: set<string>, addFor: set<string>, version: Version)
    returns (lines: seq<string>)
    ensures lines == FileLines(es, |es|, removeFor, addFor, version)
  {
    lines := [];
    for i := 0 to |es|
      invariant lines == FileLines(es, i, removeFor, addFor, version)
    {
      var entryLines := WriteEntry(es[i], removeFor, addFor, version);
      var blank := if i < |es| - 1 then [""] else [];
      lines := lines + entryLines + blank;
    }
  }
}
