/** Choosing entries for export and checking a whole catalog:
    `has_validation_issues`, `filter_entries` (scripts/translate_v2.py:463-504,
    scripts/translate.py:344-369) and `validate_all_translations`
    (scripts/translate_v2.py:1237-1256). */
module Catalog {
  import opened Strings
  import opened PoEntry
  import opened Validate

  /** The `mode` argument of `filter_entries`; any other string selects
      nothing. Only v2 knows `errors`. */
  datatype Mode = EmptyMode | FuzzyMode | AllMode | ErrorsMode | OtherMode

  /** `has_validation_issues`: a translated entry whose newline-encoded
      texts give an error or a warning. */
  predicate HasValidationIssues(e: Entry) {
    e.msgstr != [] && (Errors(Encode(e.msgid), Encode(e.msgstr)) != [] || Warnings(Encode(e.msgid), Encode(e.msgstr)) != [])
  }

  /** Whether `filter_entries` keeps an entry. */
  predicate Selected(e: Entry, mode: Mode, version: Version) {
    if e.isHeader || e.msgid == [] || e.IsVerified() then false
    else match mode
      case EmptyMode => e.IsEmpty()
      case FuzzyMode => e.IsFuzzy()
      case AllMode => true
      case ErrorsMode => version == V2 && e.IsFuzzy() && HasValidationIssues(e)
      case OtherMode => false
  }

  /** The tests `filter_entries` makes on one entry. */
  method Keep(e: Entry, mode: Mode, version: Version) returns (keep: bool)
    ensures keep == Selected(e, mode, version)
  {
    if e.isHeader || e.msgid == [] {
      return false;
    }
    if e.IsVerified() {
      return false;
    }
    if mode == EmptyMode && e.IsEmpty() {
      keep := true;
    } else if mode == FuzzyMode && e.IsFuzzy() {
      keep := true;
    } else if mode == AllMode {
      keep := true;
    } else if version == V2 && mode == ErrorsMode && e.IsFuzzy() {
      keep := HasValidationIssues(e);
    } else {
      keep := false;
    }
  }

  /** `filter_entries`. */
  method FilterEntries(entries: seq<Entry>, mode: Mode, version: Version) returns (result: seq<Entry>)
    ensures result == Filter(entries, e => Selected(e, mode, version))
  {
    result := [];
    for i := 0 to |entries|
      invariant result == Filter(entries[..i], e => Selected(e, mode, version))
    {
      var e := entries[i];
      TakeSnoc(entries, i + 1);
      FilterAppend(entries[..i], [e], e => Selected(e, mode, version));
      var keep := Keep(e, mode, version);
      if keep {
        result := result + [e];
      }
    }
    TakeAll(entries);
  }

  /** The selection never holds the header, an entry without a key, or a
      verified entry; it keeps every entry of the input that passes. */
  lemma SelectionSound(entries: seq<Entry>, mode: Mode, version: Version, e: Entry)
    ensures e in Filter(entries, x => Selected(x, mode, version))
        <==> e in entries && Selected(e, mode, version)
    ensures e in Filter(entries, x => Selected(x, mode, version))
        ==> !e.isHeader && e.msgid != [] && !e.IsVerified()
  {
    FilterKeeps(entries, x => Selected(x, mode, version), e);
  }

  /** The selection preserves order: selecting from two catalogs one after
      the other is selecting from their concatenation. */
  lemma SelectionKeepsOrder(a: seq<Entry>, b: seq<Entry>, mode: Mode, version: Version)
    ensures Filter(a + b, x => Selected(x, mode, version))
         == Filter(a, x => Selected(x, mode, version)) + Filter(b, x => Selected(x, mode, version))
  {
    FilterAppend(a, b, x => Selected(x, mode, version));
  }

  /** Mode `all` keeps exactly the translatable entries that are empty or
      fuzzy; `errors` keeps only fuzzy entries, and only in v2. */
  lemma AllModeExact(e: Entry, version: Version)
    ensures Selected(e, AllMode, version) <==> Translatable(e) && (e.IsEmpty() || e.IsFuzzy())
    ensures Selected(e, ErrorsMode, version) ==> version == V2 && e.IsFuzzy() && Translatable(e)
  {
    if Translatable(e) { StateTrichotomy(e); }
  }

  // ---------------------------------------------------------------------
  // validate_all_translations
  // ---------------------------------------------------------------------

  /** The entries `validate_all_translations` checks. */
  predicate Checked(e: Entry) {
    !e.isHeader && e.msgid != [] && e.msgstr != []
  }

  function EntryErrors(e: Entry): seq<Issue> { Errors(Encode(e.msgid), Encode(e.msgstr)) }
  function EntryWarnings(e: Entry): seq<Issue> { Warnings(Encode(e.msgid), Encode(e.msgstr)) }

  /** What one checked entry adds to the totals. */
  function Counted(e: Entry): (nat, nat) {
    if Checked(e) then (|EntryErrors(e)|, |EntryWarnings(e)|) else (0, 0)
  }

  /** The per-entry counts of a catalog, in order. */
  function PerEntry(entries: seq<Entry>): (r: seq<(nat, nat)>)
    ensures |r| == |entries|
  {
    Map(entries, Counted)
  }

  /** Entry `i`'s counts sit at position `i`. */
  lemma PerEntryAt(entries: seq<Entry>, i: nat)
    requires i < |entries|
    ensures PerEntry(entries)[i] == Counted(entries[i])
  {
    MapAt(entries, Counted, i);
  }

  /** The sum of a sequence of (errors, warnings) counts. */
  function Sum(cs: seq<(nat, nat)>): (nat, nat)
  {
    if cs == [] then (0, 0)
    else
      var t := Sum(cs[..|cs| - 1]);
      (t.0 + cs[|cs| - 1].0, t.1 + cs[|cs| - 1].1)
  }

  lemma SumStep(cs: seq<(nat, nat)>, i: nat)
    requires i < |cs|
    ensures Sum(cs[..i + 1]) == (Sum(cs[..i]).0 + cs[i].0, Sum(cs[..i]).1 + cs[i].1)
  {
    assert cs[..i + 1][..i] == cs[..i];
  }

  /** `validate_all_translations`. */
  method ValidateAll(entries: seq<Entry>) returns (errors: nat, warnings: nat)
    ensures (errors, warnings) == Sum(PerEntry(entries))
  {
    errors, warnings := 0, 0;
    ghost var cs := PerEntry(entries);
    for i := 0 to |entries|
      invariant (errors, warnings) == Sum(cs[..i])
    {
      errors, warnings := CountEntry(entries, i, errors, warnings);
    }
    TakeAll(cs);
  }

  /** The body of the loop: adds the counts of entry `i`. */
  method CountEntry(entries: seq<Entry>, i: nat, errors: nat, warnings: nat) returns (errors': nat, warnings': nat)
    requires i < |entries|
    requires (errors, warnings) == Sum(PerEntry(entries)[..i])
    ensures (errors', warnings') == Sum(PerEntry(entries)[..i + 1])
  {
    SumStep(PerEntry(entries), i);
    var e := entries[i];
    if e.isHeader || e.msgid == [] || e.msgstr == [] {
      SkippedCounts(entries, i);
      return errors, warnings;
    }
    var errs, warns := CheckEntry(entries, i);
    errors' := errors + |errs|;
    warnings' := warnings + |warns|;
  }

  /** An entry the loop skips adds nothing. */
  lemma SkippedCounts(entries: seq<Entry>, i: nat)
    requires i < |entries| && !Checked(entries[i])
    ensures PerEntry(entries)[i] == (0, 0)
  {
    PerEntryAt(entries, i);
  }

  /** The validator run on the newline-encoded texts of entry `i`: what it
      reports are the counts that entry adds. */
  method CheckEntry(entries: seq<Entry>, i: nat) returns (errs: seq<Issue>, warns: seq<Issue>)
    requires i < |entries| && Checked(entries[i])
    ensures PerEntry(entries)[i] == (|errs|, |warns|)
  {
    PerEntryAt(entries, i);
    var e := entries[i];
    var source := Encode(e.msgid);
    var trans := Encode(e.msgstr);
    errs := Errors(source, trans);
    warns := Warnings(source, trans);
  }


  /** The summed errors are zero exactly when every count is. */
  lemma {:induction false} SumZeroIff(cs: seq<(nat, nat)>)
    ensures Sum(cs).0 == 0 <==> forall i :: 0 <= i < |cs| ==> cs[i].0 == 0
  {
    if cs != [] {
      var w := cs[..|cs| - 1];
      SumZeroIff(w);
      assert forall i :: 0 <= i < |w| ==> w[i] == cs[i];
    }
  }

  /** No error is counted exactly when every checked entry validates. */
  lemma NoErrorsIff(entries: seq<Entry>)
    ensures Sum(PerEntry(entries)).0 == 0 <==> forall i :: 0 <= i < |entries| && Checked(entries[i]) ==> EntryErrors(entries[i]) == []
  {
    var cs := PerEntry(entries);
    SumZeroIff(cs);
    forall i | 0 <= i < |entries|
      ensures cs[i].0 == 0 <==> !Checked(entries[i]) || EntryErrors(entries[i]) == []
    {
      PerEntryAt(entries, i);
      CountedErrors(entries[i]);
    }
  }

  /** An entry counts no error exactly when it is unchecked or validates. */
  lemma CountedErrors(e: Entry)
    ensures Counted(e).0 == 0 <==> !Checked(e) || EntryErrors(e) == []
  {
  }
}
