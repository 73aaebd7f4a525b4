/** The v1 validator: `ValidationResult`, `validate_entry` and
    `validate_language` (scripts/translate.py:387-477). Unlike the v2
    validator it counts `%1`..`%9` as substrings in both directions, and it
    routes the placeholder, format and brand issues of a fuzzy entry to the
    warnings. */
module ValidateV1 {
  import opened Strings
  import opened Wrappers
  import opened PoEntry
  import opened Validate

  /** The v1 brand list (scripts/translate.py:35); it lacks v2's `(KOA)`. */
  const V1_BRANDS: seq<string> := ["KOAssistant", "KOReader"]

  /** A reported issue with its optional `Line N: ` prefix. */
  datatype Message = Message(line: Option<int>, issue: Issue)

  /** The prefix is written only for a truthy line number. */
  function Located(issue: Issue, line: int): Message {
    Message(if line != 0 then Some(line) else None, issue)
  }

  function Tag(issues: seq<Issue>, line: int): (r: seq<Message>)
    ensures |r| == |issues|
    ensures forall i :: 0 <= i < |r| ==> r[i] == Located(issues[i], line)
  {
    seq(|issues|, i requires 0 <= i < |issues| => Located(issues[i], line))
  }

  lemma TagAppend(a: seq<Issue>, b: seq<Issue>, line: int)
    ensures Tag(a + b, line) == Tag(a, line) + Tag(b, line)
  {
  }

  /** `ValidationResult`: two lists that only grow. */
  class ValidationResult {
    var errors: seq<Message>
    var warnings: seq<Message>

    constructor()
      ensures errors == [] && warnings == []
    {
      errors := [];
      warnings := [];
    }

    /** `add_error`. */
    method AddError(issue: Issue, line: int)
      modifies this
      ensures errors == old(errors) + [Located(issue, line)]
      ensures warnings == old(warnings)
    {
      errors := errors + [Located(issue, line)];
    }

    /** `add_warning`. */
    method AddWarning(issue: Issue, line: int)
      modifies this
      ensures warnings == old(warnings) + [Located(issue, line)]
      ensures errors == old(errors)
    {
      warnings := warnings + [Located(issue, line)];
    }

    /** `passed`: no error was recorded. */
    predicate Passed()
      reads this
    {
      |errors| == 0
    }

    lemma PassedIff()
      ensures Passed() <==> errors == []
    {
    }
  }

  // ---------------------------------------------------------------------
  // What validate_entry reports
  // ---------------------------------------------------------------------

  /** The count check of `validate_entry` over the placeholders `phs`, one
      issue per placeholder whose substring counts differ. It runs over
      `ALL_PLACEHOLDERS`, the `%1`..`%9` of `range(1, 10)`. */
  function CountMismatches(s: string, t: string, phs: seq<string>): (r: seq<Issue>)
    requires forall i :: 0 <= i < |phs| ==> IsPlaceholder(phs[i])
    ensures forall i :: 0 <= i < |r| ==> r[i].PlaceholderMismatch?
  {
    if phs == [] then []
    else
      var p := phs[0];
      assert IsPlaceholder(phs[0]);
      (if Count(s, p) != Count(t, p) then [PlaceholderMismatch(p, Count(s, p), Count(t, p))] else [])
      + CountMismatches(s, t, phs[1..])
  }

  /** The issues `validate_entry` sends through `add_issue`: counts, the
      `%s`/`%d`/`%f` format check and the brands. */
  function Findings(s: string, t: string): (r: seq<Issue>)
    ensures forall i :: 0 <= i < |r| ==> r[i].PlaceholderMismatch? || r[i].WrongFormat? || r[i].MissingBrand?
  {
    CountMismatches(s, t, ALL_PLACEHOLDERS)
    + (if Placeholders(s) != [] && WrongTokens(t) != [] then [WrongFormat] else [])
    + MissingBrands(V1_BRANDS, s, t)
  }

  /** What `validate_entry` adds to the errors and to the warnings. */
  function EntryReport(e: Entry): (seq<Issue>, seq<Issue>) {
    if e.msgid == [] || e.msgstr == [] then ([], [])
    else if e.IsFuzzy() then ([], Findings(e.msgid, e.msgstr) + Warnings(e.msgid, e.msgstr))
    else (Findings(e.msgid, e.msgstr), Warnings(e.msgid, e.msgstr))
  }

  /** Records `issues` in order, as warnings or as errors. */
  method Report(result: ValidationResult, issues: seq<Issue>, line: int, asWarnings: bool)
    modifies result
    ensures result.errors == old(result.errors) + (if asWarnings then [] else Tag(issues, line))
    ensures result.warnings == old(result.warnings) + (if asWarnings then Tag(issues, line) else [])
  {
    for i := 0 to |issues|
      invariant result.errors == old(result.errors) + (if asWarnings then [] else Tag(issues[..i], line))
      invariant result.warnings == old(result.warnings) + (if asWarnings then Tag(issues[..i], line) else [])
    {
      assert issues[..i + 1] == issues[..i] + [issues[i]];
      TagAppend(issues[..i], [issues[i]], line);
      if asWarnings {
        result.AddWarning(issues[i], line);
      } else {
        result.AddError(issues[i], line);
      }
    }
    assert issues[..|issues|] == issues;
  }

  /** `validate_entry`: `add_issue` is `add_warning` for a fuzzy entry. */
  method ValidateEntry(e: Entry, result: ValidationResult)
    modifies result
    ensures result.errors == old(result.errors) + Tag(EntryReport(e).0, e.lineNumber)
    ensures result.warnings == old(result.warnings) + Tag(EntryReport(e).1, e.lineNumber)
  {
    if e.msgid == [] || e.msgstr == [] {
      return;
    }
    var fuzzy := e.IsFuzzy();
    var findings := Findings(e.msgid, e.msgstr);
    var advisories := Warnings(e.msgid, e.msgstr);
    EntryReportParts(e);
    ReportBoth(result, findings, advisories, e.lineNumber, fuzzy);
  }

  /** The report of an entry with both texts, by the entry's fuzzy flag. */
  lemma EntryReportParts(e: Entry)
    requires e.msgid != [] && e.msgstr != []
    ensures var f, a := Findings(e.msgid, e.msgstr), Warnings(e.msgid, e.msgstr);
      EntryReport(e) == if e.IsFuzzy() then ([], f + a) else (f, a)
  {
  }

  /** The findings, as warnings when `fuzzy`, then the advisories as
      warnings. */
  method ReportBoth(result: ValidationResult, findings: seq<Issue>, advisories: seq<Issue>, line: int, fuzzy: bool)
    modifies result
    ensures result.errors == old(result.errors) + (if fuzzy then [] else Tag(findings, line))
    ensures result.warnings == old(result.warnings) + Tag(if fuzzy then findings + advisories else advisories, line)
  {
    ghost var errors0, warnings0 := result.errors, result.warnings;
    Report(result, findings, line, fuzzy);
    Report(result, advisories, line, true);
    ReportsJoined(errors0, warnings0, findings, advisories, line, fuzzy);
  }

  /** The two calls of `report` add up to what `ReportBoth` promises. */
  lemma ReportsJoined(errors: seq<Message>, warnings: seq<Message>, findings: seq<Issue>, advisories: seq<Issue>, line: int, fuzzy: bool)
    ensures errors + (if fuzzy then [] else Tag(findings, line)) + []
         == errors + (if fuzzy then [] else Tag(findings, line))
    ensures warnings + (if fuzzy then Tag(findings, line) else []) + Tag(advisories, line)
         == warnings + Tag(if fuzzy then findings + advisories else advisories, line)
  {
    TagAppend(findings, advisories, line);
    AppendEmpty(errors + (if fuzzy then [] else Tag(findings, line)));
    if !fuzzy {
      assert warnings + [] == warnings;
    }
  }

  // ---------------------------------------------------------------------
  // Properties of validate_entry
  // ---------------------------------------------------------------------

  /** The count check compares both directions: a placeholder is reported
      exactly when its substring counts differ, whichever side has more. */
  lemma {:induction false} CountMismatchesIff(s: string, t: string, phs: seq<string>, p: string, a: nat, b: nat)
    requires forall i :: 0 <= i < |phs| ==> IsPlaceholder(phs[i])
    ensures PlaceholderMismatch(p, a, b) in CountMismatches(s, t, phs) <==>
      p in phs && a == Count(s, p) && b == Count(t, p) && a != b
  {
    if phs != [] {
      CountMismatchesIff(s, t, phs[1..], p, a, b);
      assert phs == [phs[0]] + phs[1..];
    }
  }

  /** Unlike v2, a `%N` that only the translation has is reported, as an
      error of a translated entry that is not fuzzy. */
  lemma ExtraPlaceholderReported(e: Entry, p: string)
    requires p in ALL_PLACEHOLDERS && Count(e.msgid, p) == 0 < Count(e.msgstr, p)
    requires !e.IsFuzzy() && e.msgid != [] && e.msgstr != []
    ensures PlaceholderMismatch(p, 0, Count(e.msgstr, p)) in EntryReport(e).0
  {
    AllPlaceholdersValid();
    CountMismatchesIff(e.msgid, e.msgstr, ALL_PLACEHOLDERS, p, 0, Count(e.msgstr, p));
  }

  /** No count issue is reported exactly when each of `%1`..`%9` has the
      same substring count on both sides. */
  lemma CountMismatchesNoneIff(s: string, t: string)
    ensures CountMismatches(s, t, ALL_PLACEHOLDERS) == [] <==>
      forall p :: p in ALL_PLACEHOLDERS ==> Count(s, p) == Count(t, p)
  {
    var m := CountMismatches(s, t, ALL_PLACEHOLDERS);
    if m != [] {
      var x := m[0];
      CountMismatchesIff(s, t, ALL_PLACEHOLDERS, x.placeholder, x.sourceCount, x.transCount);
    } else {
      forall p | p in ALL_PLACEHOLDERS
        ensures Count(s, p) == Count(t, p)
      {
        CountMismatchesIff(s, t, ALL_PLACEHOLDERS, p, Count(s, p), Count(t, p));
      }
    }
  }

  /** An entry gains errors exactly when it is translated, not fuzzy, and
      some placeholder count differs, a `%s`/`%d`/`%f` stands beside a source
      placeholder, or a brand is lost. */
  lemma EntryErrorsIff(e: Entry)
    ensures EntryReport(e).0 == [] <==>
      e.msgid == [] || e.msgstr == [] || e.IsFuzzy() ||
      ((forall p :: p in ALL_PLACEHOLDERS ==> Count(e.msgid, p) == Count(e.msgstr, p))
       && !(Placeholders(e.msgid) != [] && WrongTokens(e.msgstr) != [])
       && (forall b :: b in V1_BRANDS && Contains(e.msgid, b) ==> Contains(e.msgstr, b)))
  {
    CountMismatchesNoneIff(e.msgid, e.msgstr);
    MissingBrandsNoneIff(V1_BRANDS, e.msgid, e.msgstr);
  }

  /** The brand check goes through `add_issue`: for a fuzzy entry a lost
      brand is a warning, not an error. */
  lemma FuzzyBrandIsWarning(e: Entry, b: string)
    requires e.msgid != [] && e.msgstr != [] && e.IsFuzzy()
    requires b in V1_BRANDS && Contains(e.msgid, b) && !Contains(e.msgstr, b)
    ensures MissingBrand(b) in EntryReport(e).1
    ensures EntryReport(e).0 == []
  {
    MissingBrandsIff(V1_BRANDS, e.msgid, e.msgstr, b);
    assert MissingBrand(b) in Findings(e.msgid, e.msgstr);
  }

  /** Provider issues are warnings whatever the entry's state, and appear
      exactly when the translated entry loses a provider name. */
  lemma ProviderIsWarning(e: Entry, p: string)
    ensures MissingProvider(p) !in EntryReport(e).0
    ensures MissingProvider(p) in EntryReport(e).1 <==>
      e.msgid != [] && e.msgstr != [] && p in PROVIDERS && Contains(e.msgid, p) && !Contains(e.msgstr, p)
  {
    if e.msgid != [] && e.msgstr != [] {
      var s, t := e.msgid, e.msgstr;
      MissingProvidersIff(PROVIDERS, s, t, p);
    }
  }

  // ---------------------------------------------------------------------
  // validate_language
  // ---------------------------------------------------------------------

  /** The entries `validate_language` passes on. */
  predicate Visited(e: Entry) {
    !e.isHeader && e.msgstr != []
  }

  /** The errors and warnings of `validate_language` over the first `k`
      entries. */
  function LanguageReport(entries: seq<Entry>, k: nat): (seq<Message>, seq<Message>)
    requires k <= |entries|
  {
    if k == 0 then ([], [])
    else
      var r := LanguageReport(entries, k - 1);
      var e := entries[k - 1];
      if Visited(e) then (r.0 + Tag(EntryReport(e).0, e.lineNumber), r.1 + Tag(EntryReport(e).1, e.lineNumber))
      else r
  }

  /** `validate_language`. */
  method ValidateLanguage(entries: seq<Entry>) returns (result: ValidationResult)
    ensures fresh(result)
    ensures result.errors == LanguageReport(entries, |entries|).0
    ensures result.warnings == LanguageReport(entries, |entries|).1
  {
    result := new ValidationResult();
    for i := 0 to |entries|
      invariant (result.errors, result.warnings) == LanguageReport(entries, i)
    {
      if !entries[i].isHeader && entries[i].msgstr != [] {
        ValidateEntry(entries[i], result);
      }
    }
  }

  /** A language passes exactly when no visited entry reports an error. */
  lemma {:induction false} LanguagePassesIff(entries: seq<Entry>, k: nat)
    requires k <= |entries|
    ensures LanguageReport(entries, k).0 == [] <==>
      forall i :: 0 <= i < k && Visited(entries[i]) ==> EntryReport(entries[i]).0 == []
  {
    if k > 0 {
      LanguagePassesIff(entries, k - 1);
    }
  }
}
