/** Applying imported translations to the catalog and writing it back:
    the merge loop of `cmd_import` (scripts/translate_v2.py:1050-1063,
    scripts/translate.py:794-809). Every entry whose key has an imported
    text gets that text as its `msgstr`, in place; the catalog is then
    written with the imported keys either listed to lose their fuzzy flag
    (a human-verified import) or listed to gain it (an AI import). */
module Merge {
  import opened Strings
  import opened PoEntry
  import opened PoParse
  import opened PoWrite
  import ImportV1
  import ImportV2
  import NumberedV2
  import TranscodeV1

  /** One entry after the merge. */
  function Merged(e: Entry, translations: map<string, string>): (r: Entry)
    ensures r.msgid == e.msgid && r.comments == e.comments && r.flags == e.flags
    ensures r.msgid in translations ==> r.msgstr == translations[e.msgid]
    ensures r.msgid !in translations ==> r == e
    ensures r == e.(msgstr := r.msgstr)
  {
    if e.msgid in translations then e.(msgstr := translations[e.msgid]) else e
  }

  /** The whole catalog after the merge. */
  function MergeAll(es: seq<Entry>, translations: map<string, string>): (r: seq<Entry>)
    ensures |r| == |es|
    ensures forall i :: 0 <= i < |es| ==> r[i] == Merged(es[i], translations)
  {
    seq(|es|, i requires 0 <= i < |es| => Merged(es[i], translations))
  }

  /** The merge loop: each entry of the array is updated in place. */
  method ApplyTranslations(a: array<Entry>, translations: map<string, string>)
    modifies a
    ensures a[..] == MergeAll(old(a[..]), translations)
  {
    for i := 0 to a.Length
      invariant forall j :: 0 <= j < i ==> a[j] == Merged(old(a[j]), translations)
      invariant forall j :: i <= j < a.Length ==> a[j] == old(a[j])
    {
      if a[i].msgid in translations {
        a[i] := a[i].(msgstr := translations[a[i].msgid]);
      }
    }
  }

  /** The sets passed to the writer: with `--verified` the imported keys
      lose their fuzzy flag, otherwise they gain it. */
  function RemoveFor(translations: map<string, string>, verified: bool): set<string> {
    if verified then translations.Keys else {}
  }

  function AddFor(translations: map<string, string>, verified: bool): set<string> {
    if verified then {} else translations.Keys
  }

  /** Merge, then write the catalog: the array holds the merged entries and
      the lines are those of the merged catalog. */
  method ApplyAndWrite(a: array<Entry>, translations: map<string, string>, verified: bool, version: Version)
    returns (lines: seq<string>)
    modifies a
    ensures a[..] == MergeAll(old(a[..]), translations)
    ensures lines == FileLines(a[..], a.Length, RemoveFor(translations, verified), AddFor(translations, verified), version)
  {
    ApplyTranslations(a, translations);
    var removeFor, addFor := RemoveFor(translations, verified), AddFor(translations, verified);
    lines := WritePo(a[..], removeFor, addFor, version);
  }

  // ---------------------------------------------------------------------
  // Fuzzy marks after the merge
  // ---------------------------------------------------------------------

  /** The comment block written for the merged entry `m`. */
  function WrittenComments(m: Entry, translations: map<string, string>, verified: bool, version: Version): seq<string> {
    CommentBlock(m.comments, m.msgid in RemoveFor(translations, verified), AddsFuzzy(m, AddFor(translations, verified), version))
  }

  /** An imported entry is written without fuzzy after a verified import.
      After an AI import it is written fuzzy whenever the writer adds the
      flag: always in v2, and in v1 when the merged entry is not verified. */
  lemma ImportedMarks(e: Entry, translations: map<string, string>, verified: bool, version: Version)
    requires e.msgid in translations
    ensures var m := Merged(e, translations);
      var flags := ReadFlags(WrittenComments(m, translations, verified, version));
      && (verified ==> "fuzzy" !in flags)
      && (!verified ==> ("fuzzy" in flags <==> version == V2 || !m.IsVerified() || "fuzzy" in ReadFlags(e.comments)))
    ensures FlagsRead(e) && !verified ==>
      ("fuzzy" in ReadFlags(WrittenComments(Merged(e, translations), translations, verified, version)) <==>
       version == V2 || !Merged(e, translations).IsVerified())
  {
    var m := Merged(e, translations);
    CommentBlockFuzzy(m.comments, m.msgid in RemoveFor(translations, verified), AddsFuzzy(m, AddFor(translations, verified), version));
  }

  /** An entry with no imported text keeps its fuzzy state. */
  lemma OthersKeepMarks(e: Entry, translations: map<string, string>, verified: bool, version: Version)
    requires e.msgid !in translations
    ensures var flags := ReadFlags(WrittenComments(Merged(e, translations), translations, verified, version));
      "fuzzy" in flags <==> "fuzzy" in ReadFlags(e.comments)
  {
    CommentBlockFuzzy(e.comments, false, false);
  }

  /** An empty, unflagged entry that receives an AI translation is verified
      at write time, so v1 writes it with no fuzzy flag while v2 marks it
      fuzzy. */
  lemma NewTranslationMarks(e: Entry, translations: map<string, string>)
    requires e.IsEmpty() && !e.IsFuzzy() && FlagsRead(e)
    requires e.msgid in translations && translations[e.msgid] != []
    ensures Merged(e, translations).IsVerified()
    ensures "fuzzy" !in ReadFlags(WrittenComments(Merged(e, translations), translations, false, V1))
    ensures "fuzzy" in ReadFlags(WrittenComments(Merged(e, translations), translations, false, V2))
  {
    ImportedMarks(e, translations, false, V1);
    ImportedMarks(e, translations, false, V2);
  }

  /** The same for an entry of a parsed catalog, whose flags are those of
      its comments. */
  lemma ParsedNewTranslationMarks(lines: seq<string>, i: nat, translations: map<string, string>)
    requires i < |ParseSpec(lines)|
    requires var e := ParseSpec(lines)[i]; e.IsEmpty() && !e.IsFuzzy() && e.msgid in translations && translations[e.msgid] != []
    ensures var m := Merged(ParseSpec(lines)[i], translations);
      && m.IsVerified()
      && "fuzzy" !in ReadFlags(WrittenComments(m, translations, false, V1))
      && "fuzzy" in ReadFlags(WrittenComments(m, translations, false, V2))
  {
    ParsedFlagsRead(lines);
    NewTranslationMarks(ParseSpec(lines)[i], translations);
  }

  // ---------------------------------------------------------------------
  // Verified entries
  // ---------------------------------------------------------------------

  /** No two entries share a key. */
  predicate UniqueKeys(es: seq<Entry>) {
    forall i, j :: 0 <= i < j < |es| ==> es[i].msgid != es[j].msgid
  }

  /** Every imported key names a non-verified entry, as both imports
      guarantee. */
  predicate OnlyUnverified(es: seq<Entry>, translations: map<string, string>) {
    forall k :: k in translations ==> exists e :: e in es && e.msgid == k && !e.IsVerified()
  }

  /** With unique keys, a merge of translations for non-verified entries
      leaves every verified entry as it was. */
  lemma VerifiedUntouched(es: seq<Entry>, translations: map<string, string>)
    requires UniqueKeys(es) && OnlyUnverified(es, translations)
    ensures forall i :: 0 <= i < |es| && es[i].IsVerified() ==> MergeAll(es, translations)[i] == es[i]
  {
  }

  /** The v1 import followed by the merge never changes a verified entry
      of a catalog with unique keys. */
  lemma ImportV1KeepsVerified(importText: string, mapping: map<nat, string>, es: seq<Entry>)
    requires UniqueKeys(es)
    ensures var r := ImportV1.ImportSpec(importText, mapping, es);
      forall i :: 0 <= i < |es| && es[i].IsVerified() ==> MergeAll(es, r.translations)[i] == es[i]
  {
    var r := ImportV1.ImportSpec(importText, mapping, es);
    forall k | k in r.translations
      ensures exists e :: e in es && e.msgid == k && !e.IsVerified()
    {
      ImportV1.ImportedSound(es, mapping, ImportV2.Items(TranscodeV1.ParseNumbered(Split(importText, '\n'))), k);
    }
    VerifiedUntouched(es, r.translations);
  }

  /** The v2 import followed by the merge never changes a verified entry
      of a catalog with unique keys. */
  lemma ImportV2KeepsVerified(content: string, mapping: map<nat, string>, es: seq<Entry>, autoFix: bool)
    requires UniqueKeys(es)
    ensures var r := ImportV2.Fold(ImportV2.Decisions(ImportV2.Setup(mapping, ImportV2.EntryIndex(es), autoFix),
                                                      ImportV2.Items(NumberedV2.Collect(NumberedV2.Matches(Split(content, '\n'))))));
      forall i :: 0 <= i < |es| && es[i].IsVerified() ==> MergeAll(es, r.translations)[i] == es[i]
  {
    var items := ImportV2.Items(NumberedV2.Collect(NumberedV2.Matches(Split(content, '\n'))));
    var r := ImportV2.Fold(ImportV2.Decisions(ImportV2.Setup(mapping, ImportV2.EntryIndex(es), autoFix), items));
    forall k | k in r.translations
      ensures exists e :: e in es && e.msgid == k && !e.IsVerified()
    {
      ImportV2.ImportedSound(es, mapping, autoFix, items, k);
    }
    VerifiedUntouched(es, r.translations);
  }

  /** Without unique keys the protection fails: the lookup keeps the last
      entry with a key, so a verified entry followed by an empty one with
      the same key lets a text through, and the merge writes it into both. */
  lemma DuplicateKeyOverwritesVerified(k: string, t: string, t': string)
    requires k != [] && t != [] && t' != t
    ensures var verifiedOne := NewEntry(0).(msgid := k, msgstr := t);
      var emptyOne := NewEntry(1).(msgid := k);
      var es := [verifiedOne, emptyOne];
      var translations := map[k := t'];
      && verifiedOne.IsVerified()
      && k in ImportV2.EntryIndex(es) && !ImportV2.EntryIndex(es)[k].IsVerified()
      && OnlyUnverified(es, translations)
      && MergeAll(es, translations)[0] != verifiedOne
  {
    var verifiedOne := NewEntry(0).(msgid := k, msgstr := t);
    var emptyOne := NewEntry(1).(msgid := k);
    var es := [verifiedOne, emptyOne];
    assert es[..1] == [verifiedOne];
    assert [verifiedOne][..0] == [];
    assert emptyOne in es;
    assert MergeAll(es, map[k := t'])[0].msgstr == t';
  }
}
