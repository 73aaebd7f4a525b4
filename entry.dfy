/** One catalog entry and the state derived from it: `POEntry` and its
    properties (scripts/translate_v2.py:261-290, scripts/translate.py:114-171),
    the v1 display group, and `get_status`. */
module PoEntry {
  import opened Strings

  /** The two copies of the tool, where their behaviour differs. */
  datatype Version = V1 | V2

  /** `POEntry`: the fields a parse fills in. `lineNumber` is the line on
      which the entry's first line was read. */
  datatype Entry = Entry(
    comments: seq<string>,
    references: seq<string>,
    flags: seq<string>,
    msgid: string,
    msgidPlural: string,
    msgstr: string,
    msgstrPlural: seq<string>,
    lineNumber: int,
    isHeader: bool)
  {
    predicate IsFuzzy() { "fuzzy" in flags }
    predicate IsTranslated() { msgstr != [] && !isHeader }
    /** Translated and not fuzzy: a human-approved translation. */
    predicate IsVerified() { IsTranslated() && !IsFuzzy() }
    predicate IsEmpty() { msgstr == [] && !isHeader }
  }

  /** A freshly constructed `POEntry()`. */
  function NewEntry(lineNumber: int): (e: Entry)
    ensures e.IsEmpty() && !e.IsFuzzy() && !e.IsVerified() && e.msgid == []
  {
    Entry([], [], [], [], [], [], [], lineNumber, false)
  }

  /** The state predicates split every non-header entry into exactly one of
      empty, verified, and translated-but-fuzzy. */
  lemma StateTrichotomy(e: Entry)
    requires !e.isHeader
    ensures e.IsEmpty() || e.IsVerified() || (e.IsTranslated() && e.IsFuzzy())
    ensures !(e.IsEmpty() && e.IsVerified())
    ensures !(e.IsFuzzy() && e.IsVerified())
  {
  }

  // ---------------------------------------------------------------------
  // Status (get_status, identical in both copies)
  // ---------------------------------------------------------------------

  datatype Status = Status(total: nat, verified: nat, fuzzy: nat, empty: nat)

  predicate Translatable(e: Entry) { e.msgid != [] && !e.isHeader }

  /** `get_status`: counts over the entries with a key that are not the
      header. A verified entry is never counted as empty or fuzzy. */
  function GetStatus(entries: seq<Entry>): (s: Status)
    ensures s.total <= |entries|
    ensures s.verified + s.empty <= s.total
    ensures s.verified + s.fuzzy <= s.total
  {
    var t := Filter(entries, Translatable);
    CountIfDisjoint(t, (e: Entry) => e.IsVerified(), (e: Entry) => e.IsEmpty());
    CountIfDisjoint(t, (e: Entry) => e.IsVerified(), (e: Entry) => e.IsFuzzy());
    Status(|t|,
      CountIf(t, (e: Entry) => e.IsVerified()),
      CountIf(t, (e: Entry) => e.IsFuzzy()),
      CountIf(t, (e: Entry) => e.IsEmpty()))
  }

  // ---------------------------------------------------------------------
  // Display groups of the v1 export (POEntry.get_group)
  // ---------------------------------------------------------------------

  /** `group_order` of `export_grouped_format`. Joined from two displays,
      so that the verifier does not unfold functions of it element by
      element. */
  const GROUP_ORDER: seq<string> := ["Settings", "Actions", "Behaviors", "Domains", "Gestures"]
                                  + ["Chat History", "UI Managers", "Error Messages", "General"]

  /** `POEntry.get_group`: the key prefix `KOAssistant:` decides first; then
      only the first reference, lower-cased, is tested, in a fixed order. */
  function GetGroup(e: Entry): (g: string)
    ensures g in GROUP_ORDER
    ensures StartsWith(e.msgid, "KOAssistant:") ==> g == "Gestures"
    ensures !StartsWith(e.msgid, "KOAssistant:") && e.references == [] ==> g == "General"
    ensures g == "Error Messages" ==> e.references != []
  {
    if StartsWith(e.msgid, "KOAssistant:") then "Gestures"
    else if e.references == [] then "General"
    else RefGroup(Lower(e.references[0]), Lower(e.msgid))
  }

  /** The tests of `get_group` on the lower-cased first reference and key. */
  function RefGroup(ref: string, key: string): (g: string)
    ensures g in GROUP_ORDER
  {
    if Contains(ref, "prompts/actions.lua") then "Actions"
    else if Contains(ref, "prompts/system_prompts.lua") || Contains(ref, "behavior") then "Behaviors"
    else if Contains(ref, "settings_schema") || Contains(ref, "settings_manager") then "Settings"
    else if Contains(ref, "chat_history") then "Chat History"
    else if Contains(ref, "koassistant_ui/") then "UI Managers"
    else if Contains(ref, "domain") then "Domains"
    else if Contains(key, "error") || Contains(key, "fail") then "Error Messages"
    else "General"
  }

  /** Only the first reference takes part in the decision. */
  lemma GroupIgnoresLaterReferences(e: Entry, more: seq<string>)
    requires e.references != []
    ensures GetGroup(e.(references := e.references + more)) == GetGroup(e)
  {
    assert (e.references + more)[0] == e.references[0];
  }
}
