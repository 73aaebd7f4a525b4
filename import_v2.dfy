/** The validated import loop of `import_v2_format`
    (scripts/translate_v2.py:598-673): each parsed number is looked up in
    the export mapping and the catalog, verified targets are skipped, the
    text is optionally auto-fixed, and it is accepted only when validation
    reports no error. */
module ImportV2 {
  import opened Strings
  import opened PoEntry
  import opened Validate
  import opened NumberedV2

  /** Errors carry the number they are about; message texts are not
      modelled. */
  datatype ImportError =
    | UnknownNumber(n: nat)
    | MsgidNotFound(n: nat)
    | Rejected(n: nat, issue: Issue)

  datatype ImportWarning = ImportWarning(n: nat, issue: Issue)

  /** The four results of `import_v2_format`. */
  datatype Imported = Imported(
    translations: map<string, string>,
    errors: seq<ImportError>,
    warnings: seq<ImportWarning>,
    skipped: nat)

  const NOTHING_IMPORTED := Imported(map[], [], [], 0)

  // ---------------------------------------------------------------------
  // msgid_to_entry = {e.msgid: e for e in entries if e.msgid}
  // ---------------------------------------------------------------------

  /** The catalog lookup: each non-empty key maps to the last entry
      carrying it. */
  function EntryIndex(entries: seq<Entry>): (idx: map<string, Entry>)
    ensures forall k :: k in idx ==> k != [] && idx[k].msgid == k && idx[k] in entries
  {
    if entries == [] then map[]
    else
      var e := entries[|entries| - 1];
      var idx := EntryIndex(entries[..|entries| - 1]);
      if e.msgid != [] then idx[e.msgid := e] else idx
  }

  /** A key is found exactly when it is non-empty and some entry has it. */
  lemma {:induction false} EntryIndexIff(entries: seq<Entry>, k: string)
    ensures k in EntryIndex(entries) <==> k != [] && exists i :: 0 <= i < |entries| && entries[i].msgid == k
  {
    if entries != [] {
      var init := entries[..|entries| - 1];
      EntryIndexIff(init, k);
      if exists i :: 0 <= i < |init| && init[i].msgid == k {
        var i :| 0 <= i < |init| && init[i].msgid == k;
        assert entries[i].msgid == k;
      }
      if k != [] && exists i :: 0 <= i < |entries| && entries[i].msgid == k {
        var i :| 0 <= i < |entries| && entries[i].msgid == k;
        if i < |init| {
          assert init[i].msgid == k;
        }
      }
    }
  }

  /** The entry found for a key is its last occurrence. */
  lemma {:induction false} EntryIndexLastWins(entries: seq<Entry>, i: nat)
    requires i < |entries| && entries[i].msgid != []
    requires forall j :: i < j < |entries| ==> entries[j].msgid != entries[i].msgid
    ensures entries[i].msgid in EntryIndex(entries)
    ensures EntryIndex(entries)[entries[i].msgid] == entries[i]
  {
    if i < |entries| - 1 {
      var init := entries[..|entries| - 1];
      assert init[i] == entries[i];
      EntryIndexLastWins(init, i);
    }
  }

  // ---------------------------------------------------------------------
  // The loop body
  // ---------------------------------------------------------------------

  /** What stays fixed during the loop: the mapping from the export, the
      catalog lookup, and whether `auto_fix` runs. */
  datatype Setup = Setup(mapping: map<nat, string>, index: map<string, Entry>, autoFix: bool)

  /** The decision the loop body takes for one parsed number. */
  datatype Outcome =
    | Unknown
    | NotFound
    | Skip
    | Reject(issues: seq<Issue>)
    | Accept(msgid: string, value: string, notes: seq<Issue>)

  /** The text that is validated: the translation after `auto_fix` against
      the encoded key when enabled, as is otherwise. */
  function Fixed(source: string, text: string, autoFix: bool): string {
    if autoFix then Remap(text, Placeholders(source)) else text
  }

  function Decide(s: Setup, n: nat, text: string): Outcome {
    if n !in s.mapping then Unknown
    else if s.mapping[n] !in s.index then NotFound
    else if s.index[s.mapping[n]].IsVerified() then Skip
    else
      var source := Encode(s.mapping[n]);
      var t := Fixed(source, text, s.autoFix);
      var errs := Errors(source, t);
      if errs != [] then Reject(errs) else Accept(s.mapping[n], Decode(t), Warnings(source, t))
  }

  function Notes(n: nat, issues: seq<Issue>): (r: seq<ImportWarning>)
    ensures |r| == |issues|
    ensures forall i :: 0 <= i < |r| ==> r[i] == ImportWarning(n, issues[i])
  {
    seq(|issues|, i requires 0 <= i < |issues| => ImportWarning(n, issues[i]))
  }

  /** One rejection error per validation issue of entry `n`. */
  function Rejections(n: nat, issues: seq<Issue>): seq<ImportError> {
    Tagged(n, issues, (k, x) => Rejected(k, x))
  }

  /** The effect of one decision on the results. */
  function Apply(st: Imported, n: nat, o: Outcome): Imported {
    match o
    case Unknown => st.(errors := st.errors + [UnknownNumber(n)])
    case NotFound => st.(errors := st.errors + [MsgidNotFound(n)])
    case Skip => st.(skipped := st.skipped + 1)
    case Reject(issues) => st.(errors := st.errors + Rejections(n, issues))
    case Accept(msgid, value, notes) =>
      st.(translations := st.translations[msgid := value], warnings := st.warnings + Notes(n, notes))
  }

  /** An accepted text belongs to a known, non-verified entry, passed
      validation after the optional fix, and is stored decoded, so it holds
      no `[NL]` marker. */
  lemma AcceptMeans(s: Setup, n: nat, text: string)
    requires Decide(s, n, text).Accept?
    ensures var o := Decide(s, n, text);
      && n in s.mapping && o.msgid == s.mapping[n]
      && o.msgid in s.index && !s.index[o.msgid].IsVerified()
      && Errors(Encode(o.msgid), Fixed(Encode(o.msgid), text, s.autoFix)) == []
      && o.value == Decode(Fixed(Encode(o.msgid), text, s.autoFix))
      && !Contains(o.value, NEWLINE_MARKER)
  {
  }

  // ---------------------------------------------------------------------
  // The loop: for num, trans_text in translations_raw.items()
  // ---------------------------------------------------------------------

  /** The parsed pairs in the dictionary's insertion order. */
  function Items(raw: Numbered): (items: seq<(nat, string)>)
    requires Valid(raw)
    ensures |items| == |raw.order|
    ensures forall i :: 0 <= i < |items| ==> items[i] == (raw.order[i], raw.text[raw.order[i]])
  {
    seq(|raw.order|, i requires 0 <= i < |raw.order| && Valid(raw) => (raw.order[i], raw.text[raw.order[i]]))
  }

  /** The decision taken for each parsed pair, under its number. */
  function Decisions(s: Setup, items: seq<(nat, string)>): (ds: seq<(nat, Outcome)>)
    ensures |ds| == |items|
    ensures forall i :: 0 <= i < |ds| ==> ds[i] == (items[i].0, Decide(s, items[i].0, items[i].1))
  {
    seq(|items|, i requires 0 <= i < |items| => (items[i].0, Decide(s, items[i].0, items[i].1)))
  }

  /** The results after the loop has applied the decisions `ds`. */
  function Fold(ds: seq<(nat, Outcome)>): Imported {
    if ds == [] then NOTHING_IMPORTED
    else Apply(Fold(ds[..|ds| - 1]), ds[|ds| - 1].0, ds[|ds| - 1].1)
  }

  lemma FoldStep(ds: seq<(nat, Outcome)>, i: nat)
    requires i < |ds|
    ensures Fold(ds[..i + 1]) == Apply(Fold(ds[..i]), ds[i].0, ds[i].1)
  {
    assert ds[..i + 1][..i] == ds[..i];
  }

  /** `import_v2_format` on the text of the import file. */
  method ImportV2Format(content: string, mapping: map<nat, string>, entries: seq<Entry>, autoFix: bool)
    returns (translations: map<string, string>, errors: seq<ImportError>, warnings: seq<ImportWarning>, skipped: nat)
    ensures Imported(translations, errors, warnings, skipped)
         == Fold(Decisions(Setup(mapping, EntryIndex(entries), autoFix), Items(Collect(Matches(Split(content, '\n'))))))
  {
    var raw := ParseV2NumberedFormat(content);
    var s := Setup(mapping, EntryIndex(entries), autoFix);
    ghost var ds := Decisions(s, Items(raw));
    var st := NOTHING_IMPORTED;
    for i := 0 to |raw.order|
      invariant st == Fold(ds[..i])
    {
      var num := raw.order[i];
      FoldStep(ds, i);
      st := ImportOne(s, st, num, raw.text[num]);
    }
    assert ds[..|raw.order|] == ds;
    translations, errors, warnings, skipped := st.translations, st.errors, st.warnings, st.skipped;
  }

  /** One pass of the loop body. */
  method ImportOne(s: Setup, st: Imported, num: nat, transText: string) returns (st': Imported)
    ensures st' == Apply(st, num, Decide(s, num, transText))
  {
    if num !in s.mapping {
      return st.(errors := st.errors + [UnknownNumber(num)]);
    }
    var msgid := s.mapping[num];
    if msgid !in s.index {
      return st.(errors := st.errors + [MsgidNotFound(num)]);
    }
    var entry := s.index[msgid];
    if entry.IsVerified() {
      return st.(skipped := st.skipped + 1);
    }
    st' := ImportText(s, st, num, transText);
  }

  /** The number names an entry of the catalog that is not verified. */
  predicate Pending(s: Setup, num: nat) {
    num in s.mapping && s.mapping[num] in s.index && !s.index[s.mapping[num]].IsVerified()
  }

  /** The rest of the loop body, for a pending entry: the optional fix, the
      validation, and the rejection or the stored text. */
  method ImportText(s: Setup, st: Imported, num: nat, transText: string) returns (st': Imported)
    requires Pending(s, num)
    ensures st' == Apply(st, num, Decide(s, num, transText))
  {
    var msgid := s.mapping[num];
    var sourceEncoded := Encode(msgid);
    var text := transText;
    if s.autoFix {
      var fixes;
      text, fixes := AutoFix(sourceEncoded, transText);
    }
    var validationErrors := Errors(sourceEncoded, text);
    var validationWarnings := Warnings(sourceEncoded, text);
    if validationErrors != [] {
      return st.(errors := st.errors + Rejections(num, validationErrors));
    }
    var finalText := Decode(text);
    st' := st.(translations := st.translations[msgid := finalText], warnings := st.warnings + Notes(num, validationWarnings));
  }

  // ---------------------------------------------------------------------
  // Properties of the loop
  // ---------------------------------------------------------------------

  /** A key is in the result exactly when some decision accepted it. */
  lemma {:induction false} TranslationKeysIff(ds: seq<(nat, Outcome)>, k: string)
    ensures k in Fold(ds).translations
        <==> exists i :: 0 <= i < |ds| && ds[i].1.Accept? && ds[i].1.msgid == k
  {
    if ds != [] {
      var init := ds[..|ds| - 1];
      TranslationKeysIff(init, k);
      if exists i :: 0 <= i < |init| && init[i].1.Accept? && init[i].1.msgid == k {
        var i :| 0 <= i < |init| && init[i].1.Accept? && init[i].1.msgid == k;
        assert ds[i] == init[i];
      }
      if exists i :: 0 <= i < |ds| && ds[i].1.Accept? && ds[i].1.msgid == k {
        var i :| 0 <= i < |ds| && ds[i].1.Accept? && ds[i].1.msgid == k;
        if i < |init| {
          assert init[i] == ds[i];
        }
      }
    }
  }

  /** Every stored value is the value of a decision that accepted its key. */
  lemma {:induction false} TranslationValueAccepted(ds: seq<(nat, Outcome)>, k: string)
    requires k in Fold(ds).translations
    ensures exists i :: 0 <= i < |ds| && ds[i].1.Accept? && ds[i].1.msgid == k
                     && ds[i].1.value == Fold(ds).translations[k]
  {
    var init := ds[..|ds| - 1];
    var o := ds[|ds| - 1].1;
    if !(o.Accept? && o.msgid == k) {
      TranslationValueAccepted(init, k);
      var i :| 0 <= i < |init| && init[i].1.Accept? && init[i].1.msgid == k
               && init[i].1.value == Fold(init).translations[k];
      assert ds[i] == init[i];
    }
  }

  /** Every imported key belongs to a non-verified entry of the catalog,
      its text passed validation, and its value holds no `[NL]`. */
  lemma ImportedSound(entries: seq<Entry>, mapping: map<nat, string>, autoFix: bool,
                      items: seq<(nat, string)>, k: string)
    requires k in Fold(Decisions(Setup(mapping, EntryIndex(entries), autoFix), items)).translations
    ensures exists e :: e in entries && e.msgid == k && !e.IsVerified()
    ensures exists n, text ::
      && (n, text) in items && n in mapping && mapping[n] == k
      && Errors(Encode(k), Fixed(Encode(k), text, autoFix)) == []
    ensures !Contains(Fold(Decisions(Setup(mapping, EntryIndex(entries), autoFix), items)).translations[k], NEWLINE_MARKER)
  {
    var s := Setup(mapping, EntryIndex(entries), autoFix);
    var ds := Decisions(s, items);
    TranslationValueAccepted(ds, k);
    var i :| 0 <= i < |ds| && ds[i].1.Accept? && ds[i].1.msgid == k
             && ds[i].1.value == Fold(ds).translations[k];
    AcceptMeans(s, items[i].0, items[i].1);
    assert (items[i].0, items[i].1) in items;
    assert EntryIndex(entries)[k] in entries;
  }

  /** The error list only grows. */
  lemma {:induction false} ErrorsGrow(ds: seq<(nat, Outcome)>, j: nat)
    requires j <= |ds|
    ensures Fold(ds[..j]).errors <= Fold(ds).errors
    decreases |ds| - j
  {
    if j < |ds| {
      ErrorsGrow(ds, j + 1);
      FoldStep(ds, j);
    } else {
      assert ds[..j] == ds;
    }
  }

  /** A number missing from the mapping, a key missing from the catalog,
      and every validation error are all reported, under their number. */
  lemma ErrorsReported(ds: seq<(nat, Outcome)>, i: nat)
    requires i < |ds|
    ensures var (n, o) := ds[i];
      var errors := Fold(ds).errors;
      && (o.Unknown? ==> UnknownNumber(n) in errors)
      && (o.NotFound? ==> MsgidNotFound(n) in errors)
      && (o.Reject? ==> forall issue :: issue in o.issues ==> Rejected(n, issue) in errors)
  {
    FoldStep(ds, i);
    ErrorsGrow(ds, i + 1);
    var (n, o) := ds[i];
    var errs := Fold(ds[..i + 1]).errors;
    if o.Reject? {
      forall issue | issue in o.issues
        ensures Rejected(n, issue) in Fold(ds).errors
      {
        var j :| 0 <= j < |o.issues| && o.issues[j] == issue;
        assert errs[|Fold(ds[..i]).errors| + j] == Rejected(n, issue);
      }
    } else if o.Unknown? || o.NotFound? {
      assert errs[|errs| - 1] in errs;
    }
  }

  /** A number absent from the mapping, or whose key is absent from the
      catalog, is reported and imports nothing. */
  lemma UnmatchedNumberReported(entries: seq<Entry>, mapping: map<nat, string>, autoFix: bool,
                                items: seq<(nat, string)>, i: nat)
    requires i < |items|
    ensures var r := Fold(Decisions(Setup(mapping, EntryIndex(entries), autoFix), items));
      var n := items[i].0;
      && (n !in mapping ==> UnknownNumber(n) in r.errors)
      && (n in mapping && (forall e :: e in entries ==> e.msgid != mapping[n]) ==> MsgidNotFound(n) in r.errors)
  {
    var s := Setup(mapping, EntryIndex(entries), autoFix);
    var n := items[i].0;
    ErrorsReported(Decisions(s, items), i);
    if n in mapping && (forall e :: e in entries ==> e.msgid != mapping[n]) {
      if mapping[n] in EntryIndex(entries) {
        assert EntryIndex(entries)[mapping[n]] in entries;
      }
    }
  }

  /** `skipped` counts exactly the decisions to skip a verified entry. */
  lemma {:induction false} SkippedCount(ds: seq<(nat, Outcome)>)
    ensures Fold(ds).skipped == CountIf(ds, (d: (nat, Outcome)) => d.1.Skip?)
  {
    if ds != [] {
      var init := ds[..|ds| - 1];
      SkippedCount(init);
      assert ds == init + [ds[|ds| - 1]];
      CountIfSnoc(init, ds[|ds| - 1], (d: (nat, Outcome)) => d.1.Skip?);
    }
  }
}
