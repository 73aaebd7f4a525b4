/** The v1 import, `import_translations` (scripts/translate.py:575-639):
    every parsed number is looked up in the export mapping and then in the
    catalog, verified targets are skipped, and a text is accepted only when
    `validate_entry` finds no error in a throwaway entry holding it. The
    mapping file is a parameter (`None` when it does not exist) and the
    import file is its text. */
module ImportV1 {
  import opened Strings
  import opened Wrappers
  import opened PoEntry
  import opened Validate
  import opened ValidateV1
  import opened NumberedV2
  import opened TranscodeV1
  import ImportV2

  /** Errors carry the number they are about; message texts are not
      modelled. */
  datatype ImportError =
    | MappingNotFound
    | UnknownNumber(n: nat)
    | MsgidNotFound(n: nat)
    | Rejected(n: nat, message: Message)

  /** The three results of `import_translations`. */
  datatype Imported = Imported(translations: map<string, string>, errors: seq<ImportError>, skipped: nat)

  /** The decision the loop body takes for one parsed number. */
  datatype Verdict =
    | Unknown
    | NotFound
    | Skip
    | Reject(messages: seq<Message>)
    | Accept(msgid: string, value: string)

  /** The throwaway entry that is validated: a fresh `POEntry()` with the
      key, the text, and the number as its line. */
  function Candidate(msgid: string, text: string, n: nat): (e: Entry)
    ensures !e.IsFuzzy() && e.msgid == msgid && e.msgstr == text && e.lineNumber == n
  {
    NewEntry(n).(msgid := msgid, msgstr := text)
  }

  function Judge(mapping: map<nat, string>, index: map<string, Entry>, n: nat, text: string): Verdict {
    if n !in mapping then Unknown
    else if mapping[n] !in index then NotFound
    else if index[mapping[n]].IsVerified() then Skip
    else
      var errs := EntryReport(Candidate(mapping[n], text, n)).0;
      if errs != [] then Reject(Tag(errs, n)) else Accept(mapping[n], text)
  }

  /** The effect of one verdict on the results. */
  function Record(st: Imported, n: nat, v: Verdict): Imported {
    match v
    case Unknown => st.(errors := st.errors + [UnknownNumber(n)])
    case NotFound => st.(errors := st.errors + [MsgidNotFound(n)])
    case Skip => st.(skipped := st.skipped + 1)
    case Reject(ms) => st.(errors := st.errors + Tagged(n, ms, (k, x) => Rejected(k, x)))
    case Accept(msgid, value) => st.(translations := st.translations[msgid := value])
  }

  /** The verdict for each parsed pair, under its number. */
  function Verdicts(mapping: map<nat, string>, index: map<string, Entry>, items: seq<(nat, string)>): (vs: seq<(nat, Verdict)>)
    ensures |vs| == |items|
    ensures forall i :: 0 <= i < |vs| ==> vs[i] == (items[i].0, Judge(mapping, index, items[i].0, items[i].1))
  {
    seq(|items|, i requires 0 <= i < |items| => (items[i].0, Judge(mapping, index, items[i].0, items[i].1)))
  }

  /** The results after the loop has recorded the verdicts `vs`. */
  function Tally(vs: seq<(nat, Verdict)>): Imported {
    if vs == [] then Imported(map[], [], 0)
    else Record(Tally(vs[..|vs| - 1]), vs[|vs| - 1].0, vs[|vs| - 1].1)
  }

  lemma TallyStep(vs: seq<(nat, Verdict)>, i: nat)
    requires i < |vs|
    ensures Tally(vs[..i + 1]) == Record(Tally(vs[..i]), vs[i].0, vs[i].1)
  {
    assert vs[..i + 1][..i] == vs[..i];
  }

  /** The results for an import text, a mapping and a catalog. */
  function ImportSpec(importText: string, mapping: map<nat, string>, entries: seq<Entry>): Imported {
    Tally(Verdicts(mapping, ImportV2.EntryIndex(entries), ImportV2.Items(ParseNumbered(Split(importText, '\n')))))
  }

  /** `import_translations`. */
  method ImportTranslations(importText: string, mapping: Option<map<nat, string>>, entries: seq<Entry>)
    returns (translations: map<string, string>, errors: seq<ImportError>, skipped: nat)
    ensures mapping.None? ==> translations == map[] && errors == [MappingNotFound] && skipped == 0
    ensures mapping.Some? ==> Imported(translations, errors, skipped) == ImportSpec(importText, mapping.value, entries)
  {
    if mapping.None? {
      return map[], [MappingNotFound], 0;
    }
    var numbers := mapping.value;
    var numbered := ParseNumberedFormat(importText);
    var index := ImportV2.EntryIndex(entries);
    ghost var vs := Verdicts(numbers, index, ImportV2.Items(numbered));
    var st := Imported(map[], [], 0);
    for i := 0 to |numbered.order|
      invariant st == Tally(vs[..i])
    {
      var num := numbered.order[i];
      TallyStep(vs, i);
      st := ImportOne(numbers, index, st, num, numbered.text[num]);
    }
    assert vs[..|numbered.order|] == vs;
    translations, errors, skipped := st.translations, st.errors, st.skipped;
  }

  /** One pass of the loop body. */
  method ImportOne(mapping: map<nat, string>, index: map<string, Entry>, st: Imported, num: nat, msgstr: string)
    returns (st': Imported)
    ensures st' == Record(st, num, Judge(mapping, index, num, msgstr))
  {
    if num !in mapping {
      return st.(errors := st.errors + [UnknownNumber(num)]);
    }
    var msgid := mapping[num];
    if msgid !in index {
      return st.(errors := st.errors + [MsgidNotFound(num)]);
    }
    var entry := index[msgid];
    if entry.IsVerified() {
      return st.(skipped := st.skipped + 1);
    }
    var errs := CandidateErrors(msgid, msgstr, num);
    if errs != [] {
      return st.(errors := st.errors + Tagged(num, errs, (k, x) => Rejected(k, x)));
    }
    st' := st.(translations := st.translations[msgid := msgstr]);
  }

  /** The throwaway `ValidationResult` of one pass: the errors the v1
      checks record for the candidate entry, tagged with its number. */
  method CandidateErrors(msgid: string, msgstr: string, num: nat) returns (errs: seq<Message>)
    ensures errs == Tag(EntryReport(Candidate(msgid, msgstr, num)).0, num)
  {
    var tempResult := new ValidationResult();
    var tempEntry := Candidate(msgid, msgstr, num);
    ValidateEntry(tempEntry, tempResult);
    errs := tempResult.errors;
    EmptyAppend(Tag(EntryReport(tempEntry).0, num));
  }

  // ---------------------------------------------------------------------
  // Properties of the loop
  // ---------------------------------------------------------------------

  /** Every stored value is the value of a verdict that accepted its key. */
  lemma {:induction false} AcceptedValue(vs: seq<(nat, Verdict)>, k: string)
    requires k in Tally(vs).translations
    ensures exists i :: 0 <= i < |vs| && vs[i].1.Accept? && vs[i].1.msgid == k
                     && vs[i].1.value == Tally(vs).translations[k]
  {
    var init := vs[..|vs| - 1];
    var v := vs[|vs| - 1].1;
    if !(v.Accept? && v.msgid == k) {
      AcceptedValue(init, k);
      var i :| 0 <= i < |init| && init[i].1.Accept? && init[i].1.msgid == k
               && init[i].1.value == Tally(init).translations[k];
      assert vs[i] == init[i];
    }
  }

  /** Every imported key belongs to a non-verified entry of the catalog
      (the one the lookup finds), came from a parsed pair whose number
      maps to it, and, when the text is not empty, passed the v1 checks
      with no finding. */
  lemma ImportedSound(entries: seq<Entry>, mapping: map<nat, string>, items: seq<(nat, string)>, k: string)
    requires k in Tally(Verdicts(mapping, ImportV2.EntryIndex(entries), items)).translations
    ensures k in ImportV2.EntryIndex(entries) && !ImportV2.EntryIndex(entries)[k].IsVerified()
    ensures exists e :: e in entries && e.msgid == k && !e.IsVerified()
    ensures var v := Tally(Verdicts(mapping, ImportV2.EntryIndex(entries), items)).translations[k];
      && (exists n :: (n, v) in items && n in mapping && mapping[n] == k)
      && (v == [] || Findings(k, v) == [])
  {
    var index := ImportV2.EntryIndex(entries);
    var vs := Verdicts(mapping, index, items);
    AcceptedValue(vs, k);
    var i :| 0 <= i < |vs| && vs[i].1.Accept? && vs[i].1.msgid == k
             && vs[i].1.value == Tally(vs).translations[k];
    assert items[i] in items;
    assert index[k] in entries;
  }

  /** The error list only grows. */
  lemma {:induction false} ErrorsGrow(vs: seq<(nat, Verdict)>, j: nat)
    requires j <= |vs|
    ensures Tally(vs[..j]).errors <= Tally(vs).errors
    decreases |vs| - j
  {
    if j < |vs| {
      ErrorsGrow(vs, j + 1);
      TallyStep(vs, j);
    } else {
      assert vs[..j] == vs;
    }
  }

  /** A number missing from the mapping, a key missing from the catalog,
      and every finding of a rejected text are reported under their
      number; a rejection's findings carry the number as their line. */
  lemma ErrorsReported(vs: seq<(nat, Verdict)>, i: nat)
    requires i < |vs|
    ensures var (n, v) := vs[i];
      var errors := Tally(vs).errors;
      && (v.Unknown? ==> UnknownNumber(n) in errors)
      && (v.NotFound? ==> MsgidNotFound(n) in errors)
      && (v.Reject? ==> forall m :: m in v.messages ==> Rejected(n, m) in errors)
  {
    TallyStep(vs, i);
    ErrorsGrow(vs, i + 1);
    var (n, v) := vs[i];
    var errs := Tally(vs[..i + 1]).errors;
    if v.Reject? {
      forall m | m in v.messages
        ensures Rejected(n, m) in Tally(vs).errors
      {
        var j :| 0 <= j < |v.messages| && v.messages[j] == m;
        assert errs[|Tally(vs[..i]).errors| + j] == Rejected(n, m);
      }
    } else if v.Unknown? || v.NotFound? {
      assert errs[|errs| - 1] in errs;
    }
  }

  /** A rejected text is rejected for the v1 findings of its key and text,
      each reported with the number as its line. */
  lemma RejectMeans(mapping: map<nat, string>, index: map<string, Entry>, n: nat, text: string)
    requires Judge(mapping, index, n, text).Reject?
    ensures n in mapping && mapping[n] in index && !index[mapping[n]].IsVerified()
    ensures mapping[n] != [] && text != []
    ensures Judge(mapping, index, n, text).messages == Tag(Findings(mapping[n], text), n)
    ensures Findings(mapping[n], text) != []
  {
  }

  /** `skipped` counts exactly the verdicts to skip a verified entry. */
  lemma {:induction false} SkippedCount(vs: seq<(nat, Verdict)>)
    ensures Tally(vs).skipped == CountIf(vs, (v: (nat, Verdict)) => v.1.Skip?)
  {
    if vs != [] {
      var init := vs[..|vs| - 1];
      SkippedCount(init);
      assert vs == init + [vs[|vs| - 1]];
      CountIfSnoc(init, vs[|vs| - 1], (v: (nat, Verdict)) => v.1.Skip?);
    }
  }

  /** A number whose key names a verified entry is skipped, never
      imported: its text leaves the results' translations as they were. */
  lemma VerifiedSkipped(mapping: map<nat, string>, index: map<string, Entry>, n: nat, text: string, st: Imported)
    requires n in mapping && mapping[n] in index && index[mapping[n]].IsVerified()
    ensures Record(st, n, Judge(mapping, index, n, text)) == st.(skipped := st.skipped + 1)
  {
  }
}
