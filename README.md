# Gettext translation workflow — a Dafny model

The repository translates a plugin's gettext catalogs (`.po` files) with
the help of an AI service. Two scripts share one offline engine:
`scripts/translate.py` (v1) and `scripts/translate_v2.py` (v2). The engine:

- reads a catalog into entries (`parse_po_file`);
- classifies each entry as empty, fuzzy or verified, and counts them (`get_status`);
- chooses the entries that still need work (`filter_entries`);
- exports them as numbered text. v1 groups them by source area; v2 encodes
  newlines as `[NL]` and can split the list into batch files;
- parses the translated text back (`parse_numbered_format`,
  `parse_v2_numbered_format`, `combine_from_files`, `_parse_response`);
- validates every translated text against its source. It checks `%1`–`%9`
  placeholders, `%s`/`%d`/`%f` misuse, `[NL]` counts, brand names,
  provider names and technical terms;
- imports the texts that pass, never touching a verified entry;
- merges them into the entries and writes the catalog back, adding or
  removing the `fuzzy` flag (`write_po_file`).

This project models that engine in Dafny and proves properties of the model.

- A file is a sequence of lines.
- An entry is a value (`PoEntry.Entry`).
- A Python dictionary that is filled in order is a map plus its key order
  (`NumberedV2.Numbered`).
- A loop of the source that builds a result step by step (parsing,
  writing, exporting, importing, batching, the merge) is a method with a
  loop. Its `ensures` ties the result to a specification function, and
  lemmas state what the source promises about that function.
- The loops of the validators that only collect a list of issues are
  recursive functions instead: the per-placeholder, brand, provider and
  term loops of `PlaceholderValidator.validate` and `validate_warnings`
  (`Validate.Errors`, `Validate.Warnings`) and v1's count loop over
  `%1`..`%9` (`ValidateV1.CountMismatches`). List comprehensions
  (`get_status`, the catalog lookup) are functions too.
- v1's `ValidationResult` is a class whose lists the methods append to.
- The merge loop updates an `array` of entries in place.

Modules:

| module | file | models |
|---|---|---|
| `Strings` | strings.dfy | the `str` operations used: `strip`, `replace`, `count`, `split`/`join`, numerals |
| `Wrappers` | wrappers.dfy | `Option` |
| `PoEntry` | entry.dfy | `POEntry`, its properties, `get_group`, `get_status` |
| `PoEscape` | escape.dfy | `escape_po_string`, `unescape_po_string` |
| `PoParse` | po_parse.dfy | `parse_po_file` |
| `PoWrite` | po_write.dfy | `format_msgstr_for_po`, `write_po_file` (both versions) |
| `PoRoundTrip` | roundtrip.dfy | written lines read back by the parser |
| `PoFileRoundTrip` | file_roundtrip.dfy | a whole written catalog read back by the parser |
| `Validate` | validate.dfy | `NewlineHandler`, `PlaceholderValidator` |
| `ValidateV1` | validate_v1.dfy | `ValidationResult`, `validate_entry`, `validate_language` |
| `Catalog` | catalog.dfy | `has_validation_issues`, `filter_entries`, `validate_all_translations` |
| `NumberedV2` | numbered.dfy | the v2 export numbering and `parse_v2_numbered_format` |
| `Batches` | batches.dfy | `BatchManager`, `_parse_response` |
| `ImportV2` | import_v2.dfy | `import_v2_format` |
| `TranscodeV1` | transcode_v1.dfy | `group_entries`, `export_grouped_format`, `parse_numbered_format` |
| `ImportV1` | import_v1.dfy | `import_translations` |
| `Merge` | merge.dfy | the merge loop of `cmd_import` and the write that follows it |

Where the two scripts' copies of a function differ, a `Version`
parameter (`V1` or `V2`) selects the behaviour. This covers the add-fuzzy
guard of the writer and the `errors` mode of `filter_entries`. v1's
shorter brand list is its own constant, `ValidateV1.V1_BRANDS`.

The model reproduces these behaviours of the code, which are easy to get
wrong:

- Unescaping replaces `\n` first. `PoEscape.BackslashBreaksRoundTrip`
  exhibits a string that does not survive an escape and unescape.
- A block-form `msgid` decides whether a segment ends with a newline by
  comparing its text with the last segment, not by its position.
  `PoRoundTrip.RepeatedPartLosesNewline` shows `p\np` read back as `pp`.
- `is_header` is set as soon as `msgid ""` is read while no entry has
  been emitted, even when continuation lines then fill the key
  (`PoParse.HeaderFlagSurvivesContinuation`).
- v1 reports brand issues through `add_issue`, so a fuzzy entry gets
  them as warnings (`ValidateV1.FuzzyBrandIsWarning`). The comment at
  scripts/translate.py:439 says the opposite; the model follows the code.
- `auto_fix` is not idempotent (`Validate.AutoFixNotIdempotent`). The
  model follows the code, not the claim.

## Model

| member | source | states |
|---|---|---|
| Strings.Split | scripts/translate_v2.py:583 | `str.split` on one character gives at least one part, and no part contains the separator |
| Strings.JoinSplit | scripts/translate_v2.py:583 | joining the parts of a split with the separator gives back the original string |
| Strings.SplitJoin | scripts/translate_v2.py:560 | splitting a join whose parts have no separator gives back the parts |
| Strings.SplitJoinEach | scripts/translate.py:529 | splitting a join of lines gives the splits of each line, concatenated |
| Strings.ReplaceRemovesAll | scripts/translate_v2.py:97 | after `replace`, the pattern no longer occurs when the replacement shares no character with it |
| Strings.ReplaceAbsent | scripts/translate_v2.py:102 | `replace` returns the string unchanged when the pattern's first character does not occur in it |
| Strings.ParseNatToString | scripts/translate.py:559 | `int()` of the decimal numeral of `n` is `n` |
| Strings.DigitRunPrefix | scripts/translate.py:553 | the `\d+` run at the start of a line is exactly its leading digits |
| Strings.StripOfStripped | scripts/translate_v2.py:592 | `strip` leaves a string with no whitespace at either end unchanged |
| Strings.FilterAppend | scripts/translate_v2.py:488-504 | a list comprehension's filter distributes over concatenation |
| Strings.CountIfSnoc | scripts/translate_v2.py:642 | counting with a predicate grows by one exactly for a matching element |
| PoEntry.NewEntry | scripts/translate_v2.py:263-272 | a fresh `POEntry()` is empty, not fuzzy, not verified, and has no key |
| PoEntry.StateTrichotomy | scripts/translate_v2.py:274-290 | a non-header entry is exactly one of empty, verified, or translated and fuzzy |
| PoEntry.GetStatus | scripts/translate.py:372-380 | the verified count is disjoint from the empty and fuzzy counts: verified + empty <= total and verified + fuzzy <= total <= number of entries |
| PoEntry.GetGroup | scripts/translate.py:145-171 | a key starting `KOAssistant:` is in "Gestures"; no references gives "General"; "Error Messages" needs references; every group is in the export's group order |
| PoEntry.RefGroup | scripts/translate.py:155-171 | every group the tests on the first reference and the key can give is one of the export's groups |
| PoEntry.GroupIgnoresLaterReferences | scripts/translate.py:154 | only the first reference decides the group |
| PoEscape.EscapeNoNewline | scripts/translate_v2.py:383-385 | an escaped string has no newline, so it fits on one line |
| PoEscape.QuoteShape | scripts/translate_v2.py:398 | a quoted string starts and ends with `"` and holds the string between them |
| PoEscape.UnescapeEscape | scripts/translate_v2.py:378-385 | unescaping an escaped string without backslashes gives it back |
| PoEscape.UnescapeEscapeMarked | scripts/translate_v2.py:398 | the same round trip holds when the writer's `\n` marker is appended, and yields the newline |
| PoEscape.BackslashBreaksRoundTrip | scripts/translate_v2.py:380 | because `\n` is unescaped first, the escaped form of backslash-n reads back as a backslash and a newline |
| PoEscape.UnescapeRender | scripts/translate_v2.py:380 | unescaping text in escaped form decodes each escape pair |
| PoParse.KeywordValue | scripts/translate_v2.py:328-329 | a keyword line has a value exactly when its stripped rest is quoted |
| PoParse.IndexedMsgstr | scripts/translate_v2.py:349-352 | the `msgstr[N]` pattern only matches lines that start with `msgstr[` |
| PoParse.Padded | scripts/translate_v2.py:353-355 | the plural list is padded with `""` up to index N, the value is placed at N, and every other element is kept |
| PoParse.AddComment | scripts/translate_v2.py:316-324 | a comment line is appended to the comments, the flags grow by exactly the flags of a `#,` line, and key and texts are unchanged |
| PoParse.SetMsgid | scripts/translate_v2.py:326-333 | the entry becomes the header exactly when it already was, or `msgid ""` is read before any entry was emitted |
| PoParse.Emit | scripts/translate_v2.py:305-310 | an entry is emitted only if it has a key or is the header, and then it is appended |
| PoParse.ParsePo | scripts/translate_v2.py:293-375 | the parse loop yields the entries of the line-by-line specification, each with the flags its `#,` comments carry |
| PoParse.ParsedFlagsRead | scripts/translate_v2.py:316-324 | every parsed entry's flags are exactly the flags read from its own comments, since only `#,` lines add flags |
| PoParse.ParseValueLine | scripts/translate_v2.py:326-370 | one value line updates the current entry and field as the specification step does |
| PoParse.SetPlural | scripts/translate_v2.py:353-355 | the padding loop yields the padded list |
| PoParse.EmittedEntriesHaveKey | scripts/translate_v2.py:305-373 | every emitted entry has a non-empty key or is the header |
| PoParse.HeaderOnlyFirst | scripts/translate_v2.py:331-332 | only the first emitted entry can be the header |
| PoParse.EntriesBoundedByBlanks | scripts/translate_v2.py:305-373 | entries are emitted only at blank lines and at the end: at most one more entry than blank lines |
| PoParse.ContinuationLine | scripts/translate_v2.py:359-370 | a quoted line appends its unescaped body to the field last opened |
| PoParse.MsgidLine | scripts/translate_v2.py:326-333 | a `msgid` line sets the key and opens the key field |
| PoParse.MsgstrLine | scripts/translate_v2.py:342-347 | a `msgstr` line sets the text and opens the text field |
| PoParse.MsgidPluralLine | scripts/translate_v2.py:335-340 | a `msgid_plural` line sets the plural key and opens that field |
| PoParse.MsgstrIndexLine | scripts/translate_v2.py:349-357 | a `msgstr[N]` line pads the plural list and opens plural field N |
| PoParse.IndexedLineRegex | scripts/translate_v2.py:349-352 | the `msgstr[N] "…"` pattern recovers N and the body |
| PoParse.HeaderFlagSurvivesContinuation | scripts/translate_v2.py:331-332 | a `msgid ""` followed by a continuation line yields a header entry with a non-empty key |
| PoWrite.FormatMsgstr | scripts/translate_v2.py:388-404 | the loop yields the specified lines: `msgstr ""` for an empty text, one `msgstr "…"` line without a newline, otherwise a block whose last empty part is dropped |
| PoWrite.WriteComments | scripts/translate_v2.py:419-434 | the comment loop with its `wrote_fuzzy_line` flag yields the specified comment block |
| PoWrite.CommentBlockFuzzy | scripts/translate_v2.py:420-434 | a written block reads as fuzzy exactly when fuzzy is added, or it was fuzzy and is not removed |
| PoWrite.CommentBlockKeepsFlags | scripts/translate_v2.py:422-428 | flags other than fuzzy are kept, in order |
| PoWrite.CommentBlockKeepsOthers | scripts/translate_v2.py:430-431 | comments other than `#,` lines are written unchanged and in order |
| PoWrite.RewriteFuzzy | scripts/translate_v2.py:423-426 | a rewritten flag list holds fuzzy exactly when it is added, or was there and is not removed |
| PoWrite.FlagLineRead | scripts/translate_v2.py:428 | a written `#, …` line reads back as the same flags |
| PoWrite.FuzzyLineRead | scripts/translate_v2.py:433-434 | the synthesised `#, fuzzy` line reads back as the fuzzy flag alone |
| PoWrite.AddFuzzyGuard | scripts/translate.py:298 | a verified entry whose flags are those of its comments, as for every parsed entry, is never written fuzzy by v1; v2 writes it fuzzy when it is listed |
| PoWrite.FormatMsgid | scripts/translate_v2.py:436-445 | the loop yields the specified `msgid` lines, with the last-segment comparison |
| PoWrite.FormatPlurals | scripts/translate_v2.py:453-454 | one `msgstr[i] "…"` line per plural, in order |
| PoWrite.WriteEntry | scripts/translate_v2.py:415-454 | an entry's lines are its comment block, key, plural key, text and plurals |
| PoWrite.WritePo | scripts/translate_v2.py:407-457 | the file holds each entry's lines, separated by exactly one blank line, with none after the last |
| PoRoundTrip.MsgstrRoundTrip | scripts/translate_v2.py:388-404 | the written `msgstr` lines of a text without backslashes read back as that text by the parser's `msgstr` and continuation branches |
| PoRoundTrip.MsgidRoundTrip | scripts/translate_v2.py:436-445 | when no earlier segment equals the last, the written `msgid` lines read back as the key by the parser's `msgid` and continuation branches |
| PoRoundTrip.RepeatedPartLosesNewline | scripts/translate_v2.py:440 | the key `p\np` is written without its newline marker and reads back as `pp` |
| PoRoundTrip.PluralRoundTrip | scripts/translate_v2.py:453-454 | written plural lines read back as the same plural list by the parser's `msgstr[n]` branch |
| PoRoundTrip.BlockRead | scripts/translate_v2.py:359-370 | block lines for the parts of a text read back as the text |
| PoRoundTrip.RunAppend | scripts/translate_v2.py:301 | parsing a concatenation of lines is parsing the second part from the state the first left |
| PoFileRoundTrip.EntryRead | scripts/translate_v2.py:416-454 | the lines written for one entry, read from a state between entries, leave the earlier entries alone and open one entry with the written comments, their flags, the key, the plural key, the text and the plural forms |
| PoFileRoundTrip.UneditedFlagsRead | scripts/translate_v2.py:419-434 | with nothing removed or added, the written comment block reads back as the flags of the original comments |
| PoFileRoundTrip.FileRoundTrip | scripts/translate_v2.py:407-457 | `parse_po_file` of a written list of entries returns one entry per written entry; entry `i` has the key, plural key, text and plural forms written for it, the written comment block and its flags, and is the header exactly when it is first and its key is empty or written in block form |
| PoFileRoundTrip.CatalogRoundTrip | scripts/translate_v2.py:293-375 | a catalog written with no fuzzy edits reads back entry by entry with the same key, plural key, text, plural forms and flags, so with the same fuzzy state |
| PoFileRoundTrip.EditedFuzzyRead | scripts/translate_v2.py:416-434 | after a write with fuzzy edits, entry `i` reads back as fuzzy exactly when the writer added the flag, or it was fuzzy and its key was not in the remove set |
| Validate.Encode | scripts/translate_v2.py:95-97 | an encoded text has no newline |
| Validate.Decode | scripts/translate_v2.py:100-102 | a decoded text has no `[NL]` marker |
| Validate.DecodeEncode | scripts/translate_v2.py:95-102 | decoding an encoded text gives it back when it holds no `[NL]` |
| Validate.EncodeDecode | scripts/translate_v2.py:95-102 | encoding a decoded text gives it back when it holds no newline |
| Validate.OccurrencesIsCount | scripts/translate_v2.py:129-134 | counting a placeholder among the extracted ones equals counting it in the text |
| Validate.MismatchIssuesIff | scripts/translate_v2.py:132-136 | a mismatch is reported for a placeholder exactly when the source has it and the two counts differ |
| Validate.MissingBrandsIff | scripts/translate_v2.py:149-151 | a brand is reported exactly when the source has it and the translation does not |
| Validate.MissingProvidersIff | scripts/translate_v2.py:161-163 | a provider is warned about exactly when the source has it and the translation does not, case-sensitively |
| Validate.MissingTermsIff | scripts/translate_v2.py:166-168 | a technical term is warned about exactly when the upper-cased source has it and the upper-cased translation does not |
| Validate.Warnings | scripts/translate_v2.py:156-170 | warnings are only about providers and technical terms |
| Validate.ErrorsEmptyIff | scripts/translate_v2.py:124-153 | no error exactly when every source placeholder has the same count, there is no `%s`/`%d`/`%f` beside a `%N`, the `[NL]` counts match, and every brand in the source is kept |
| Validate.Errors | scripts/translate_v2.py:128-136 | a placeholder mismatch is only ever reported for a placeholder that the source holds |
| Validate.ExtraPlaceholderAccepted | scripts/translate_v2.py:132 | for every source and translation, a placeholder the source lacks is never reported as a mismatch, whatever its count in the translation |
| Validate.AutoFix | scripts/translate_v2.py:173-188 | the i-th wrong token is replaced by the i-th source placeholder; there are min(#wrong, #placeholders) fixes, listed in order |
| Validate.RemapNoop | scripts/translate_v2.py:182 | with no wrong token or no source placeholder, nothing changes |
| Validate.RemapClearsWrong | scripts/translate_v2.py:183-186 | with no more wrong tokens than placeholders, no wrong token remains |
| Validate.SecondFixIsNoop | scripts/translate_v2.py:173-188 | in that case a second fix changes nothing |
| Validate.AutoFixNotIdempotent | scripts/translate_v2.py:183-185 | in general a second fix changes the text again |
| ValidateV1.Tag | scripts/translate.py:393-399 | every issue gets the entry's line, or none when the line is 0 |
| ValidateV1.ValidationResult.AddError | scripts/translate.py:393-395 | one located message is appended to the errors, and the warnings are unchanged |
| ValidateV1.ValidationResult.AddWarning | scripts/translate.py:397-399 | one located message is appended to the warnings, and the errors are unchanged |
| ValidateV1.ValidationResult.PassedIff | scripts/translate.py:401-403 | `passed` holds exactly when there is no error |
| ValidateV1.Findings | scripts/translate.py:421-445 | v1 findings are only placeholder counts, wrong format and brands |
| ValidateV1.ValidateEntry | scripts/translate.py:406-464 | the result gains exactly the entry's findings as errors and its advisories as warnings, with the entry's line |
| ValidateV1.CountMismatchesIff | scripts/translate.py:422-428 | a count issue is reported for `%i` exactly when the two substring counts differ, in either direction |
| ValidateV1.ExtraPlaceholderReported | scripts/translate.py:422-428 | unlike v2, for every translated entry that is not fuzzy, a `%N` absent from the key but present in the text is reported as an error with counts 0 and its count in the text |
| ValidateV1.EntryErrorsIff | scripts/translate.py:415-445 | no error exactly when the key or text is empty, the entry is fuzzy, or every count matches, no wrong format, and every brand is kept |
| ValidateV1.FuzzyBrandIsWarning | scripts/translate.py:419-445 | a missing brand in a fuzzy entry is a warning and never an error |
| ValidateV1.ProviderIsWarning | scripts/translate.py:447-453 | a missing provider is always a warning, and never an error |
| ValidateV1.ValidateLanguage | scripts/translate.py:467-477 | the result holds the reports of the non-header entries with a text, in order |
| ValidateV1.LanguagePassesIff | scripts/translate.py:467-477 | the language passes exactly when no visited entry has a finding |
| Catalog.Keep | scripts/translate_v2.py:489-502 | the loop body keeps an entry exactly when it is selected |
| Catalog.FilterEntries | scripts/translate_v2.py:477-504 | the result is the order-preserving selection of the entries |
| Catalog.SelectionSound | scripts/translate_v2.py:486-493 | a selected entry is never the header, never keyless and never verified |
| Catalog.SelectionKeepsOrder | scripts/translate_v2.py:489 | the selection of a concatenation is the concatenation of the selections |
| Catalog.AllModeExact | scripts/translate_v2.py:499-502 | mode `all` keeps exactly the translatable entries that are empty or fuzzy; `errors` keeps only fuzzy ones, and only in v2 |
| Catalog.ValidateAll | scripts/translate_v2.py:1237-1256 | the totals are the sums of the error and warning counts of the checked entries |
| Catalog.NoErrorsIff | scripts/translate_v2.py:1242-1253 | the error total is zero exactly when no checked entry has an error |
| NumberedV2.NumberedLineOf | scripts/translate_v2.py:589-593 | the numbered-line pattern reads `n. text` as `n` and the stripped text |
| NumberedV2.Put | scripts/translate_v2.py:593 | a dictionary assignment sets the value and keeps the insertion order valid |
| NumberedV2.CollectedIff | scripts/translate_v2.py:583-593 | a number is in the result exactly when some line assigns it |
| NumberedV2.CollectLastWins | scripts/translate_v2.py:593 | the last assignment of a number wins |
| NumberedV2.ParseV2NumberedFormat | scripts/translate_v2.py:579-595 | the parse loop collects the matches of the lines |
| NumberedV2.ParsedIff | scripts/translate_v2.py:583-593 | a number is parsed exactly when some line numbers it |
| NumberedV2.LastLineWins | scripts/translate_v2.py:593 | a number's text comes from the last line that numbers it |
| NumberedV2.ExportV2 | scripts/translate_v2.py:549-560 | the text is the header, a blank line and `i. encoded key` lines; the mapping's domain is exactly 1..N and maps i to the i-th key |
| NumberedV2.ExportParseRoundTrip | scripts/translate_v2.py:579-595 | parsing an export recovers every number 1..N, and nothing else, with its key with newlines encoded as `[NL]` and outer whitespace stripped |
| Batches.GetBatchRanges | scripts/translate_v2.py:197-210 | the loop yields the specified ranges |
| Batches.BatchRangesShape | scripts/translate_v2.py:200-209 | there are at most `num_batches` ranges; they are numbered 1.., start at 1, end at the total, and each starts one past the previous end |
| Batches.BatchRangesPartition | scripts/translate_v2.py:202-210 | every string number lies in exactly one range |
| Batches.NoRanges | scripts/translate_v2.py:208 | no strings, or no batches, gives no range |
| Batches.SeventeenInFour | scripts/translate_v2.py:200-209 | 17 strings in 4 batches give 1-5, 6-10, 11-15, 16-17 |
| Batches.SelectLines | scripts/translate_v2.py:224-226 | a batch holds `n. text` lines for the numbers of its range that have a text, in order |
| Batches.SelectionRead | scripts/translate_v2.py:248-253 | parsing a batch recovers exactly the numbers of its range, with their stripped texts |
| Batches.CombineFromFiles | scripts/translate_v2.py:236-255 | the combined dictionary is the left fold of the files' parses |
| Batches.CombineFile | scripts/translate_v2.py:244-253 | one file's lines overwrite earlier values |
| Batches.CombinedIff | scripts/translate_v2.py:243-253 | a number is combined exactly when some file has it |
| Batches.CombinedLastWins | scripts/translate_v2.py:243-253 | a number's text comes from the last file that has it |
| Batches.ParseResponse | scripts/translate_v2.py:905-918 | the reply parser assigns the matched lines whose number was asked for |
| Batches.ReplyKeyIff | scripts/translate_v2.py:908-916 | a number is in the reply exactly when it was asked for and some stripped line numbers it |
| Batches.ReplyLastWins | scripts/translate_v2.py:916 | the last such line wins |
| ImportV2.EntryIndex | scripts/translate_v2.py:618 | the lookup maps non-empty keys to an entry with that key |
| ImportV2.EntryIndexIff | scripts/translate_v2.py:618 | a key is found exactly when it is non-empty and some entry has it |
| ImportV2.EntryIndexLastWins | scripts/translate_v2.py:618 | the lookup keeps the last entry with a key |
| ImportV2.AcceptMeans | scripts/translate_v2.py:626-666 | an accepted text has a mapped number, a found non-verified target, no validation error after the optional auto-fix, and a decoded value without `[NL]` |
| ImportV2.ImportV2Format | scripts/translate_v2.py:598-671 | the loop's results are the fold of the decisions over the parsed pairs, in file order |
| ImportV2.ImportOne | scripts/translate_v2.py:627-666 | one pass of the loop body applies the decision for its number |
| ImportV2.ImportText | scripts/translate_v2.py:644-666 | for a number naming a non-verified entry, the optional fix, both validations and the rejection or the stored decoded text have the effect of the decision for that number |
| ImportV2.TranslationKeysIff | scripts/translate_v2.py:666 | a key is imported exactly when some decision accepted it |
| ImportV2.ImportedSound | scripts/translate_v2.py:626-666 | every imported key belongs to a non-verified entry and came from a mapped number whose text passed validation; no value contains `[NL]` |
| ImportV2.ErrorsReported | scripts/translate_v2.py:627-658 | unknown numbers, missing keys and each validation error are reported under their number |
| ImportV2.UnmatchedNumberReported | scripts/translate_v2.py:627-636 | an unmapped number, or a mapped key absent from the catalog, is reported |
| ImportV2.SkippedCount | scripts/translate_v2.py:641-643 | `skipped` counts exactly the verified targets |
| TranscodeV1.GroupEntries | scripts/translate.py:484-489 | each group holds exactly its entries, in input order; only non-empty groups appear |
| TranscodeV1.GroupedIsPermutation | scripts/translate.py:508-523 | the entries in group order are a permutation of the input |
| TranscodeV1.ExportGroupedFormat | scripts/translate.py:492-529 | the text is the header and one section per non-empty group; the mapping's domain is exactly 1..N and maps n to the key exported as line n |
| TranscodeV1.ExportGroup | scripts/translate.py:511-523 | one group's pass appends its heading and numbered lines and extends the mapping consecutively |
| TranscodeV1.ExportEntries | scripts/translate.py:518-523 | the inner loop numbers its entries consecutively from the running counter |
| TranscodeV1.LineForEveryNumber | scripts/translate.py:518-523 | every number 1..N has its `n. key` line in the export |
| TranscodeV1.ParseNumbered | scripts/translate.py:536-572 | the parse yields a valid ordered dictionary whose texts are all non-empty |
| TranscodeV1.ParseNumberedFormat | scripts/translate.py:536-572 | the loop over `current_num` and `current_lines` yields the specified dictionary |
| TranscodeV1.NumberedLineV1Of | scripts/translate.py:553-560 | a line `n. text` is read as `n` and `text` when the text does not start with a space |
| TranscodeV1.SkippedNotNumbered | scripts/translate.py:544 | comment and blank lines are never read as numbered |
| TranscodeV1.ReadContinuation | scripts/translate.py:564-566 | a continuation line is added to the current entry, and ignored when there is none |
| TranscodeV1.ReadNumberLine | scripts/translate.py:554-563 | a numbered line saves the previous entry and starts a new one |
| TranscodeV1.ContinuationJoined | scripts/translate.py:564-570 | continuation lines are joined to the text with `\n` |
| TranscodeV1.LaterNumberReplaces | scripts/translate.py:557-559 | a later line with the same number overwrites the earlier text |
| TranscodeV1.EmptyTextDropped | scripts/translate.py:544-570 | a number with no text is dropped, unless a continuation line follows |
| TranscodeV1.DisplayRoundTrip | scripts/translate.py:520 | the display form of a key without backslashes unescapes back to the key |
| TranscodeV1.ExportParseRoundTrip | scripts/translate.py:492-572 | for a header of comment or blank lines, parsing an export recovers exactly the mapping, for non-empty keys without a backslash and without leading whitespace |
| TranscodeV1.NewlineEndedHeader | scripts/translate.py:89-108 | a header of `#` lines ended by a newline, as `generate_export_header` returns, splits into those lines and one blank line, so it meets the round trip's header premise |
| TranscodeV1.ReadSelfContained | scripts/translate.py:542-570 | on lines that each stand alone the state machine is a plain collection of their assignments |
| TranscodeV1.Numbering | scripts/translate.py:504-523 | the mapping of a key list has domain 1..N and maps i + 1 to the i-th key |
| ImportV1.ImportTranslations | scripts/translate.py:575-639 | a missing mapping gives no translations, one error and no skip; otherwise the results are the fold of the verdicts over the parsed pairs, in file order |
| ImportV1.ImportOne | scripts/translate.py:605-637 | one pass of the loop body, with its throwaway `ValidationResult`, records the verdict for its number |
| ImportV1.CandidateErrors | scripts/translate.py:622-631 | the throwaway `ValidationResult` ends up holding exactly the errors the v1 checks report for the candidate entry, tagged with its number |
| ImportV1.Candidate | scripts/translate.py:625-628 | the throwaway entry holds the key, the text and the number as its line, and is not fuzzy |
| ImportV1.ImportedSound | scripts/translate.py:604-637 | every imported key belongs to a non-verified entry, came from a mapped number, and its text has no v1 finding |
| ImportV1.ErrorsReported | scripts/translate.py:605-635 | unknown numbers, missing keys and each finding of a rejected text are reported under their number |
| ImportV1.RejectMeans | scripts/translate.py:622-635 | a rejected text is rejected for the v1 findings of its key and text, tagged with the number |
| ImportV1.SkippedCount | scripts/translate.py:617-620 | `skipped` counts exactly the verified targets |
| ImportV1.VerifiedSkipped | scripts/translate.py:617-620 | a verified target only increments `skipped` |
| Merge.Merged | scripts/translate_v2.py:1050-1052 | an entry with an imported text gets it as `msgstr`; nothing else of it changes, and other entries are unchanged |
| Merge.ApplyTranslations | scripts/translate_v2.py:1050-1052 | the loop updates the array in place to the merged catalog |
| Merge.ApplyAndWrite | scripts/translate_v2.py:1050-1063 | the merged catalog is written with the imported keys in the remove set (verified import) or the add set (AI import) |
| Merge.ImportedMarks | scripts/translate.py:795-809 | after a verified import an imported entry is written without fuzzy; after an AI import it is fuzzy exactly when v2, not verified, or already fuzzy; for an entry whose flags are those of its comments, exactly when v2 or not verified |
| Merge.OthersKeepMarks | scripts/translate_v2.py:416-434 | an entry without an imported text keeps its fuzzy state |
| Merge.NewTranslationMarks | scripts/translate.py:296-298 | an empty unflagged entry, with flags read from its comments, that receives a text is verified at write time: v1 writes it without fuzzy, v2 with fuzzy |
| Merge.ParsedNewTranslationMarks | scripts/translate.py:296-298 | the same holds for every empty, unflagged entry of a parsed catalog, with no premise on its comments |
| Merge.VerifiedUntouched | scripts/translate_v2.py:1050-1052 | with unique keys, merging texts for non-verified entries leaves every verified entry as it was |
| Merge.ImportV1KeepsVerified | scripts/translate.py:617-620 | the v1 import and merge never change a verified entry of a catalog with unique keys |
| Merge.ImportV2KeepsVerified | scripts/translate_v2.py:641-643 | the v2 import and merge never change a verified entry of a catalog with unique keys |
| Merge.DuplicateKeyOverwritesVerified | scripts/translate_v2.py:618 | with a duplicate key, the lookup keeps the later empty entry, so a text is imported and the merge overwrites the verified one |

## Left out

- HTTP calls to the translation providers, retries and sleeps. A reply is
  an input string, parsed by `Batches.ParseResponse`.
- The `Spinner` progress thread: it only draws output.
- The `cmd_*` handlers, `main`, argument parsing, prompts, printing and
  colours. The merge loop of `cmd_import` is modelled in `Merge`.
- File and directory work: `open`, `glob`, `mkdir`, `unlink`, copies.
  - A file is its text or its lines.
  - The batch files are given as contents already in sorted-name order.
  - The JSON mapping is a `map<nat, string>`; the v1 import gets
    `None` when the mapping file does not exist.
- `load_api_keys` (credentials), the cost estimates of `cmd_plan`
  (floating point), header templates and `LANGUAGE_NAMES`. Headers are
  parameters; the round-trip lemmas require every header line to be a
  comment or blank line, which admits the newline-ended `#` header that
  `generate_export_header` returns.
- The unvalidated apply loops of `cmd_all_run` and `cmd_multi_run`.
  They are network orchestration.
- translate_po.py is not part of this model. It is regex-template
  substitution over raw file text.
- Message texts: errors and warnings are datatype values that carry the
  number, placeholder, counts or name they are about, not formatted strings.
- Unicode beyond what the code needs:
  - `\d` is ASCII digits only;
  - `upper()`/`lower()` map ASCII letters only;
  - `strip()` and `isspace()` use Python's whitespace set.
- Validate.MismatchIssues: Python iterates over `set(source_ph)` in an
  unspecified order. The model reports mismatches in digit order `%1`..`%9`,
  so the order of errors is not modelled.
- The `startswith('##')` test at scripts/translate.py:544 is implied by
  `startswith('#')` and is not modelled separately.
- Merge.VerifiedUntouched, Merge.ImportV1KeepsVerified, Merge.ImportV2KeepsVerified:
  these require unique keys. The lookup keeps the last entry with a key,
  while the merge writes every entry with that key.
  `Merge.DuplicateKeyOverwritesVerified` shows the case they exclude.
- TranscodeV1.ExportParseRoundTrip: stated only for non-empty keys
  without a backslash and without leading whitespace.
  Other keys do not read back, because of the `\n` display and the
  `\s*` of the pattern.
- PoRoundTrip.MsgstrRoundTrip, PoRoundTrip.MsgidRoundTrip, PoRoundTrip.PluralRoundTrip:
  these are stated for texts without a backslash, because unescaping
  replaces `\n` first.
- PoFileRoundTrip.FileRoundTrip, PoFileRoundTrip.CatalogRoundTrip,
  PoFileRoundTrip.EditedFuzzyRead: these are stated for entries that
  avoid the traps shown above. No text may hold a backslash. A block-form
  key's last part must not occur earlier in it. Comment lines must start
  with `#` and hold no newline. Only the first entry may have an empty
  key, since a later one is dropped by the emit guard. The read-back line
  numbers and `#:` references are not compared.
- PoFileRoundTrip.FileRoundTrip, PoFileRoundTrip.CatalogRoundTrip,
  PoFileRoundTrip.EditedFuzzyRead: the model reads a file as the lines
  the writer wrote, split at `\n` only. Python's text mode also ends a
  line at a raw `\r`, and `escape_po_string` leaves `\r` unescaped, so a
  text such as `a\rb` (a reply line can carry one) is written on one line
  but read back as two, and its msgstr reads back as `""`. The lemmas do
  not capture this.
