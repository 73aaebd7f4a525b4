/** The v2 validators: the `[NL]` newline marker (`NewlineHandler`,
    scripts/translate_v2.py:89-107) and `PlaceholderValidator`
    (scripts/translate_v2.py:113-188). Issues are values, not message text. */
module Validate {
  import opened Strings

  /** Names that must survive translation: a missing one is an error. */
  const BRANDS: seq<string> := ["KOAssistant", "KOReader", "(KOA)"]

  /** Provider names that should survive translation: a missing one is a
      warning. Written as three joined displays so that the verifier does not
      unfold the per-name checks wherever a warning list is mentioned. */
  const PROVIDERS: seq<string> := [
    "Claude", "GPT", "OpenAI", "Anthropic", "DeepSeek", "Gemini"] + [
    "Ollama", "Groq", "Mistral", "xAI", "OpenRouter", "Qwen"] + [
    "Kimi", "Together", "Fireworks", "SambaNova", "Cohere", "Doubao"]

  const TECH_TERMS: seq<string> := ["API"]

  const NEWLINE_MARKER: string := "[NL]"

  // ---------------------------------------------------------------------
  // NewlineHandler
  // ---------------------------------------------------------------------

  /** `NewlineHandler.encode`: every newline becomes `[NL]`. */
  function Encode(t: string): (r: string)
    ensures '\n' !in r
  {
    ReplaceRemovesAll(t, "\n", NEWLINE_MARKER);
    NotContainsChar(Replace(t, "\n", NEWLINE_MARKER), '\n');
    Replace(t, "\n", NEWLINE_MARKER)
  }

  /** `NewlineHandler.decode`: every `[NL]` becomes a newline. */
  function Decode(t: string): (r: string)
    ensures !Contains(r, NEWLINE_MARKER)
  {
    ReplaceRemovesAll(t, NEWLINE_MARKER, "\n");
    Replace(t, NEWLINE_MARKER, "\n")
  }

  /** `NewlineHandler.validate_count`. */
  predicate NewlineCountsMatch(source: string, translation: string) {
    Count(source, NEWLINE_MARKER) == Count(translation, NEWLINE_MARKER)
  }

  lemma EncodeHead(t: string)
    requires t != []
    ensures Encode(t)[0] == (if t[0] == '\n' then '[' else t[0])
    ensures t[0] != '\n' ==> Encode(t) == [t[0]] + Encode(t[1..])
  {
    if t[0] == '\n' {
      assert t[..1] == "\n";
    } else {
      assert t[..1] != "\n";
    }
  }

  /** The encoded text starts with a piece of text free of `[` and newlines
      only where the original text does. */
  lemma {:induction false} EncodeKeepsPrefix(t: string, p: string)
    requires '[' !in p && '\n' !in p
    requires StartsWith(Encode(t), p)
    ensures StartsWith(t, p)
    decreases |p|
  {
    if p != [] {
      EncodeHead(t);
      assert p[0] == Encode(t)[..|p|][0] && p[0] in p;
      assert Encode(t) == [t[0]] + Encode(t[1..]);
      assert Encode(t)[1..] == Encode(t[1..]);
      EncodeKeepsPrefix(t[1..], p[1..]);
      assert t == [t[0]] + t[1..];
    }
  }

  /** Round trip: decoding an encoded text gives it back, unless the text
      already held a literal `[NL]`. */
  lemma {:induction false} DecodeEncode(t: string)
    requires !Contains(t, NEWLINE_MARKER)
    ensures Decode(Encode(t)) == t
    decreases |t|
  {
    if t != [] {
      DecodeEncode(t[1..]);
      var e := Encode(t[1..]);
      if t[0] == '\n' {
        assert Encode(t) == NEWLINE_MARKER + e;
        assert (NEWLINE_MARKER + e)[..4] == NEWLINE_MARKER;
        assert (NEWLINE_MARKER + e)[4..] == e;
      } else {
        assert Encode(t) == [t[0]] + e;
        var s := [t[0]] + e;
        assert s[1..] == e;
        if |s| >= 4 && s[..4] == NEWLINE_MARKER {
          assert StartsWith(e, "NL]") by { assert e[..3] == s[1..4]; }
          EncodeKeepsPrefix(t[1..], "NL]");
          assert false;
        }
      }
    }
  }

  /** A text that went through `Decode` never fails the round trip the
      other way: `Encode(Decode(t))` is `t` for a text free of newlines. */
  lemma {:induction false} EncodeDecode(t: string)
    requires '\n' !in t
    ensures Encode(Decode(t)) == t
    decreases |t|
  {
    if |t| >= 4 && t[..4] == NEWLINE_MARKER {
      EncodeDecode(t[4..]);
      assert Decode(t) == "\n" + Decode(t[4..]);
      assert ("\n" + Decode(t[4..]))[1..] == Decode(t[4..]);
      assert t == NEWLINE_MARKER + t[4..];
    } else if t != [] {
      EncodeDecode(t[1..]);
      if |t| >= 4 {
        assert Decode(t) == [t[0]] + Decode(t[1..]);
      } else {
        assert Decode(t) == t;
        ReplaceAbsent(t, "\n", NEWLINE_MARKER);
      }
      assert ([t[0]] + Decode(t[1..]))[1..] == Decode(t[1..]);
    }
  }

  // ---------------------------------------------------------------------
  // Placeholders: `%[1-9]` and the wrong forms `%[sdf]`
  // ---------------------------------------------------------------------

  predicate IsPlaceholderDigit(c: char) { '1' <= c <= '9' }

  predicate IsWrongLetter(c: char) { c == 's' || c == 'd' || c == 'f' }

  /** A well-formed placeholder `%1` .. `%9`. */
  predicate IsPlaceholder(p: string) {
    |p| == 2 && p[0] == '%' && IsPlaceholderDigit(p[1])
  }

  /** `re.findall(r'%[1-9]', t)`. */
  function Placeholders(t: string): (r: seq<string>)
    ensures forall i :: 0 <= i < |r| ==> IsPlaceholder(r[i])
    decreases |t|
  {
    if |t| < 2 then []
    else if t[0] == '%' && IsPlaceholderDigit(t[1]) then [t[..2]] + Placeholders(t[2..])
    else Placeholders(t[1..])
  }

  /** `re.findall(r'%[sdf]', t)`. */
  function WrongTokens(t: string): (r: seq<string>)
    ensures forall i :: 0 <= i < |r| ==> |r[i]| == 2 && r[i][0] == '%' && IsWrongLetter(r[i][1])
    decreases |t|
  {
    if |t| < 2 then []
    else if t[0] == '%' && IsWrongLetter(t[1]) then [t[..2]] + WrongTokens(t[2..])
    else WrongTokens(t[1..])
  }

  /** Occurrences of `x` in a list: `list.count(x)`. */
  function Occurrences(s: seq<string>, x: string): (n: nat)
    ensures n <= |s|
    ensures n > 0 <==> x in s
    decreases |s|
  {
    if s == [] then 0 else (if s[0] == x then 1 else 0) + Occurrences(s[1..], x)
  }

  /** Since no placeholder overlaps another, the findall count of `%k` is the
      substring count `t.count("%k")` (the form the v1 validator uses). */
  lemma {:induction false} OccurrencesIsCount(t: string, p: string)
    requires IsPlaceholder(p)
    ensures Occurrences(Placeholders(t), p) == Count(t, p)
    decreases |t|
  {
    if |t| >= 2 {
      if t[0] == '%' && IsPlaceholderDigit(t[1]) {
        OccurrencesIsCount(t[2..], p);
        assert ([t[..2]] + Placeholders(t[2..]))[1..] == Placeholders(t[2..]);
        if t[..2] != p {
          assert t[..2][1] == t[1];
        }
      } else {
        OccurrencesIsCount(t[1..], p);
        assert t[..2] != p by { assert t[..2][0] == t[0] && t[..2][1] == t[1]; }
      }
    }
  }

  // ---------------------------------------------------------------------
  // validate / validate_warnings
  // ---------------------------------------------------------------------

  datatype Issue =
    | PlaceholderMismatch(placeholder: string, sourceCount: nat, transCount: nat)
    | WrongFormat
    | NewlineMismatch(sourceCount: nat, transCount: nat)
    | MissingBrand(brand: string)
    | MissingProvider(provider: string)
    | MissingTechTerm(term: string)

  /** The nine placeholders in digit order: the order in which the model
      visits `set(source_ph)`, whose iteration order Python leaves open.
      Joined from two displays, like `PROVIDERS`. */
  const ALL_PLACEHOLDERS: seq<string> := ["%1", "%2", "%3", "%4", "%5"] + ["%6", "%7", "%8", "%9"]

  lemma AllPlaceholdersValid()
    ensures forall i :: 0 <= i < |ALL_PLACEHOLDERS| ==> IsPlaceholder(ALL_PLACEHOLDERS[i])
  {
  }

  lemma AllPlaceholdersComplete(p: string)
    requires IsPlaceholder(p)
    ensures p in ALL_PLACEHOLDERS
  {
    assert p == ['%', p[1]];
  }

  /** One mismatch report per distinct placeholder of the source whose
      count differs in the translation. */
  function MismatchIssues(src: seq<string>, trans: seq<string>, phs: seq<string>): (r: seq<Issue>)
    ensures forall i :: 0 <= i < |r| ==> r[i].PlaceholderMismatch? && r[i].placeholder in src
    decreases |phs|
  {
    if phs == [] then []
    else
      var p := phs[0];
      var a := Occurrences(src, p);
      var b := Occurrences(trans, p);
      (if p in src && a != b then [PlaceholderMismatch(p, a, b)] else [])
      + MismatchIssues(src, trans, phs[1..])
  }

  function MissingBrands(brands: seq<string>, s: string, t: string): (r: seq<Issue>)
    ensures forall i :: 0 <= i < |r| ==> r[i].MissingBrand?
    decreases |brands|
  {
    if brands == [] then []
    else
      (if Contains(s, brands[0]) && !Contains(t, brands[0]) then [MissingBrand(brands[0])] else [])
      + MissingBrands(brands[1..], s, t)
  }

  function MissingProviders(names: seq<string>, s: string, t: string): (r: seq<Issue>)
    ensures forall i :: 0 <= i < |r| ==> r[i].MissingProvider?
    decreases |names|
  {
    if names == [] then []
    else
      (if Contains(s, names[0]) && !Contains(t, names[0]) then [MissingProvider(names[0])] else [])
      + MissingProviders(names[1..], s, t)
  }

  function MissingTerms(terms: seq<string>, s: string, t: string): (r: seq<Issue>)
    ensures forall i :: 0 <= i < |r| ==> r[i].MissingTechTerm?
    decreases |terms|
  {
    if terms == [] then []
    else
      var u := Upper(terms[0]);
      (if Contains(Upper(s), u) && !Contains(Upper(t), u) then [MissingTechTerm(terms[0])] else [])
      + MissingTerms(terms[1..], s, t)
  }

  /** A mismatch is reported for `p` exactly when `p` is one of the checked
      placeholders, occurs in the source, and its two counts differ. */
  lemma {:induction false} MismatchIssuesIff(src: seq<string>, trans: seq<string>, phs: seq<string>, p: string, a: nat, b: nat)
    ensures PlaceholderMismatch(p, a, b) in MismatchIssues(src, trans, phs) <==>
      p in phs && p in src && a == Occurrences(src, p) && b == Occurrences(trans, p) && a != b
    decreases |phs|
  {
    if phs != [] {
      MismatchIssuesIff(src, trans, phs[1..], p, a, b);
      assert phs == [phs[0]] + phs[1..];
    }
  }

  /** A brand is reported exactly when the source has it and the translation
      lacks it (case-sensitive). */
  lemma {:induction false} MissingBrandsIff(brands: seq<string>, s: string, t: string, b: string)
    ensures MissingBrand(b) in MissingBrands(brands, s, t) <==> b in brands && Contains(s, b) && !Contains(t, b)
    decreases |brands|
  {
    if brands != [] {
      MissingBrandsIff(brands[1..], s, t, b);
      assert brands == [brands[0]] + brands[1..];
    }
  }

  /** A provider is reported exactly when the source has it and the
      translation lacks it (case-sensitive). */
  lemma {:induction false} MissingProvidersIff(names: seq<string>, s: string, t: string, p: string)
    ensures MissingProvider(p) in MissingProviders(names, s, t) <==> p in names && Contains(s, p) && !Contains(t, p)
    decreases |names|
  {
    if names != [] {
      MissingProvidersIff(names[1..], s, t, p);
      assert names == [names[0]] + names[1..];
    }
  }

  /** A technical term is reported exactly when the upper-cased source has it
      and the upper-cased translation lacks it. */
  lemma {:induction false} MissingTermsIff(terms: seq<string>, s: string, t: string, m: string)
    ensures MissingTechTerm(m) in MissingTerms(terms, s, t) <==>
      m in terms && Contains(Upper(s), Upper(m)) && !Contains(Upper(t), Upper(m))
    decreases |terms|
  {
    if terms != [] {
      MissingTermsIff(terms[1..], s, t, m);
      assert terms == [terms[0]] + terms[1..];
    }
  }

  /** `PlaceholderValidator.validate`: the errors, in the order the code
      reports them. */
  function Errors(source: string, translation: string): (r: seq<Issue>)
    ensures forall i :: 0 <= i < |r| && r[i].PlaceholderMismatch? ==> r[i].placeholder in Placeholders(source)
  {
    var sp := Placeholders(source);
    var tp := Placeholders(translation);
    var sn := Count(source, NEWLINE_MARKER);
    var tn := Count(translation, NEWLINE_MARKER);
    MismatchIssues(sp, tp, ALL_PLACEHOLDERS)
    + (if sp != [] && WrongTokens(translation) != [] then [WrongFormat] else [])
    + (if sn != tn then [NewlineMismatch(sn, tn)] else [])
    + MissingBrands(BRANDS, source, translation)
  }

  /** `PlaceholderValidator.validate_warnings`. */
  function Warnings(source: string, translation: string): (r: seq<Issue>)
    ensures forall i :: 0 <= i < |r| ==> r[i].MissingProvider? || r[i].MissingTechTerm?
  {
    MissingProviders(PROVIDERS, source, translation) + MissingTerms(TECH_TERMS, source, translation)
  }

  /** No mismatch is reported exactly when every distinct placeholder of the
      source keeps its count in the translation. */
  lemma MismatchNoneIff(sp: seq<string>, tp: seq<string>)
    requires forall i :: 0 <= i < |sp| ==> IsPlaceholder(sp[i])
    ensures MismatchIssues(sp, tp, ALL_PLACEHOLDERS) == [] <==>
      (forall p :: p in sp ==> Occurrences(sp, p) == Occurrences(tp, p))
  {
    var m := MismatchIssues(sp, tp, ALL_PLACEHOLDERS);
    if m == [] {
      forall p | p in sp
        ensures Occurrences(sp, p) == Occurrences(tp, p)
      {
        AllPlaceholdersComplete(p);
        MismatchIssuesIff(sp, tp, ALL_PLACEHOLDERS, p, Occurrences(sp, p), Occurrences(tp, p));
      }
    } else {
      var x := m[0];
      MismatchIssuesIff(sp, tp, ALL_PLACEHOLDERS, x.placeholder, x.sourceCount, x.transCount);
    }
  }

  /** No brand is reported exactly when every listed brand of the source is
      kept. */
  lemma MissingBrandsNoneIff(brands: seq<string>, s: string, t: string)
    ensures MissingBrands(brands, s, t) == [] <==>
      (forall b :: b in brands && Contains(s, b) ==> Contains(t, b))
  {
    var mb := MissingBrands(brands, s, t);
    if mb != [] {
      MissingBrandsIff(brands, s, t, mb[0].brand);
    } else {
      forall b | b in brands && Contains(s, b)
        ensures Contains(t, b)
      {
        MissingBrandsIff(brands, s, t, b);
      }
    }
  }


  /** The translation passes validation exactly when every distinct source
      placeholder keeps its count, no `%s`/`%d`/`%f` appears beside source
      placeholders, the `[NL]` counts agree and every brand is kept. */
  lemma ErrorsEmptyIff(source: string, translation: string)
    ensures Errors(source, translation) == [] <==>
      (forall p :: p in Placeholders(source) ==>
         Occurrences(Placeholders(source), p) == Occurrences(Placeholders(translation), p))
      && !(Placeholders(source) != [] && WrongTokens(translation) != [])
      && NewlineCountsMatch(source, translation)
      && (forall b :: b in BRANDS && Contains(source, b) ==> Contains(translation, b))
  {
    MismatchNoneIff(Placeholders(source), Placeholders(translation));
    MissingBrandsNoneIff(BRANDS, source, translation);
  }

  /** A placeholder the source does not have is never reported, whatever
      the translation holds: only the source's placeholders are counted. */
  lemma ExtraPlaceholderAccepted(source: string, translation: string, p: string)
    requires p !in Placeholders(source)
    ensures forall a: nat, b: nat :: PlaceholderMismatch(p, a, b) !in Errors(source, translation)
  {
  }

  // ---------------------------------------------------------------------
  // auto_fix
  // ---------------------------------------------------------------------

  /** Reference definition of the repair: the first `|fix|` wrong tokens
      of `t`, read left to right, are replaced by `fix` in order; the rest
      of the text is kept. */
  function Remap(t: string, fix: seq<string>): (r: string)
    decreases |t|
  {
    if |t| < 2 then t
    else if t[0] == '%' && IsWrongLetter(t[1]) then
      if fix == [] then t else fix[0] + Remap(t[2..], fix[1..])
    else [t[0]] + Remap(t[1..], fix)
  }

  lemma {:induction false} RemapHead(t: string, fix: seq<string>)
    requires forall i :: 0 <= i < |fix| ==> IsPlaceholder(fix[i])
    requires t != []
    ensures Remap(t, fix) != [] && Remap(t, fix)[0] == t[0]
  {
    if |t| >= 2 && t[0] == '%' && IsWrongLetter(t[1]) && fix != [] {
      assert IsPlaceholder(fix[0]);
    }
  }

  lemma {:induction false} RemapEmpty(t: string)
    ensures Remap(t, []) == t
    decreases |t|
  {
    if |t| >= 2 && !(t[0] == '%' && IsWrongLetter(t[1])) {
      RemapEmpty(t[1..]);
    }
  }

  /** `replace(w, x, 1)` passes over a character that cannot start `w`
      here. */
  lemma ReplaceFirstSkip(c: char, r: string, w: string, x: string)
    requires |w| == 2 && (c != w[0] || (r != [] && r[0] != w[1]))
    ensures ReplaceFirst([c] + r, w, x) == [c] + ReplaceFirst(r, w, x)
  {
    var s := [c] + r;
    if |s| >= 2 {
      assert s[..2] != w by {
        assert s[0] == c;
        if c == w[0] { assert s[1] == r[0]; }
      }
      assert s[1..] == r;
    } else {
      assert r == [];
      AppendEmpty([c]);
    }
  }

  /** One more round of `replace(wrong[i], x, 1)` extends the remap by
      one token: the first occurrence of the next wrong token's text is that
      token itself. */
  lemma {:induction false} RemapStep(t: string, fix: seq<string>, x: string)
    requires forall i :: 0 <= i < |fix| ==> IsPlaceholder(fix[i])
    requires IsPlaceholder(x)
    requires |fix| < |WrongTokens(t)|
    ensures ReplaceFirst(Remap(t, fix), WrongTokens(t)[|fix|], x) == Remap(t, fix + [x])
    decreases |t|, 1
  {
    if t[0] == '%' && IsWrongLetter(t[1]) {
      if fix == [] {
        RemapStepFirst(t, x);
        EmptyAppend([x]);
      } else {
        RemapStepWrong(t, fix, x);
      }
    } else {
      RemapStepOther(t, fix, x);
    }
  }

  /** The first wrong token is the first occurrence of its text. */
  lemma RemapStepFirst(t: string, x: string)
    requires IsPlaceholder(x)
    requires |t| >= 2 && t[0] == '%' && IsWrongLetter(t[1])
    ensures ReplaceFirst(Remap(t, []), WrongTokens(t)[0], x) == Remap(t, [x])
  {
    assert WrongTokens(t)[0] == t[..2];
    assert [x][1..] == [];
    RemapEmpty(t[2..]);
    RemapEmpty(t);
  }

  /** A wrong token already repaired is skipped: its placeholder starts
      with `%` and a digit, not a wrong letter. */
  lemma {:induction false} RemapStepWrong(t: string, fix: seq<string>, x: string)
    requires forall i :: 0 <= i < |fix| ==> IsPlaceholder(fix[i])
    requires IsPlaceholder(x)
    requires |fix| < |WrongTokens(t)|
    requires |t| >= 2 && t[0] == '%' && IsWrongLetter(t[1]) && fix != []
    ensures ReplaceFirst(Remap(t, fix), WrongTokens(t)[|fix|], x) == Remap(t, fix + [x])
    decreases |t|, 0
  {
    var w := WrongTokens(t)[|fix|];
    var f := fix[0];
    var r := Remap(t[2..], fix[1..]);
    assert IsPlaceholder(f);
    assert w == WrongTokens(t[2..])[|fix| - 1];
    RemapStep(t[2..], fix[1..], x);
    assert (fix + [x])[1..] == fix[1..] + [x];
    assert f == [f[0]] + [f[1]];
    ConcatAssoc([f[0]], [f[1]], r);
    ReplaceFirstSkip(f[0], [f[1]] + r, w, x);
    ReplaceFirstSkip(f[1], r, w, x);
    ConcatAssoc([f[0]], [f[1]], ReplaceFirst(r, w, x));
  }

  /** A character that does not start a wrong token is kept. */
  lemma {:induction false} RemapStepOther(t: string, fix: seq<string>, x: string)
    requires forall i :: 0 <= i < |fix| ==> IsPlaceholder(fix[i])
    requires IsPlaceholder(x)
    requires |fix| < |WrongTokens(t)|
    requires !(t[0] == '%' && IsWrongLetter(t[1]))
    ensures ReplaceFirst(Remap(t, fix), WrongTokens(t)[|fix|], x) == Remap(t, fix + [x])
    decreases |t|, 0
  {
    var w := WrongTokens(t)[|fix|];
    assert WrongTokens(t) == WrongTokens(t[1..]);
    RemapStep(t[1..], fix, x);
    var r := Remap(t[1..], fix);
    if t[0] == '%' {
      RemapHead(t[1..], fix);
    }
    ReplaceFirstSkip(t[0], r, w, x);
  }

  /** One applied repair of `auto_fix`. */
  datatype Fix = Fix(wrong: string, placeholder: string)

  function Min(a: int, b: int): int { if a < b then a else b }

  /** `PlaceholderValidator.auto_fix`: the i-th wrong token is replaced by
      the i-th source placeholder, for as many as both lists provide. */
  method AutoFix(source: string, translation: string) returns (result: string, fixes: seq<Fix>)
    ensures result == Remap(translation, Placeholders(source))
    ensures |fixes| == Min(|WrongTokens(translation)|, |Placeholders(source)|)
    ensures forall i :: 0 <= i < |fixes| ==>
      fixes[i] == Fix(WrongTokens(translation)[i], Placeholders(source)[i])
  {
    fixes := [];
    result := translation;
    var sourcePh := Placeholders(source);
    var wrong := WrongTokens(result);
    RemapEmpty(translation);
    if wrong != [] && sourcePh != [] {
      var n := |wrong|;
      for i := 0 to n
        invariant |fixes| == Min(i, |sourcePh|)
        invariant result == Remap(translation, sourcePh[..Min(i, |sourcePh|)])
        invariant forall j :: 0 <= j < |fixes| ==> fixes[j] == Fix(wrong[j], sourcePh[j])
      {
        if i < |sourcePh| {
          assert sourcePh[..i + 1] == sourcePh[..i] + [sourcePh[i]];
          RemapStep(translation, sourcePh[..i], sourcePh[i]);
          result := ReplaceFirst(result, wrong[i], sourcePh[i]);
          fixes := fixes + [Fix(wrong[i], sourcePh[i])];
        }
      }
      RemapLong(translation, sourcePh, Min(n, |sourcePh|));
    } else {
      RemapNoop(translation, sourcePh);
    }
  }

  /** Placeholders beyond the number of wrong tokens are never used. */
  lemma {:induction false} RemapLong(t: string, fix: seq<string>, k: nat)
    requires k == Min(|WrongTokens(t)|, |fix|)
    ensures Remap(t, fix[..k]) == Remap(t, fix)
    decreases |t|
  {
    if |t| >= 2 {
      if t[0] == '%' && IsWrongLetter(t[1]) {
        assert WrongTokens(t) == [t[..2]] + WrongTokens(t[2..]);
        if fix != [] {
          assert fix[..k][1..] == fix[1..][..k - 1];
          RemapLong(t[2..], fix[1..], k - 1);
        }
      } else {
        assert WrongTokens(t) == WrongTokens(t[1..]);
        RemapLong(t[1..], fix, k);
      }
    } else {
      assert fix[..0] == [];
    }
  }

  /** With no wrong token, or nothing to map it to, the text is unchanged. */
  lemma {:induction false} RemapNoop(t: string, fix: seq<string>)
    requires WrongTokens(t) == [] || fix == []
    ensures Remap(t, fix) == t
    decreases |t|
  {
    if |t| >= 2 {
      if t[0] == '%' && IsWrongLetter(t[1]) {
        assert WrongTokens(t) != [];
      } else {
        assert WrongTokens(t) == WrongTokens(t[1..]);
        RemapNoop(t[1..], fix);
      }
    }
  }

  /** When the source offers at least as many placeholders as there are
      wrong tokens, none survives the repair, so repeating it changes
      nothing. */
  lemma {:induction false} RemapClearsWrong(t: string, fix: seq<string>)
    requires forall i :: 0 <= i < |fix| ==> IsPlaceholder(fix[i])
    requires |WrongTokens(t)| <= |fix|
    ensures WrongTokens(Remap(t, fix)) == []
    decreases |t|, 1
  {
    if |t| >= 2 {
      if t[0] == '%' && IsWrongLetter(t[1]) {
        ClearsAtToken(t, fix);
      } else {
        ClearsPastChar(t, fix);
      }
    }
  }

  /** A wrong token at the front is replaced by the next placeholder. */
  lemma {:induction false} ClearsAtToken(t: string, fix: seq<string>)
    requires forall i :: 0 <= i < |fix| ==> IsPlaceholder(fix[i])
    requires |WrongTokens(t)| <= |fix|
    requires |t| >= 2 && t[0] == '%' && IsWrongLetter(t[1])
    ensures WrongTokens(Remap(t, fix)) == []
    decreases |t|, 0
  {
    assert WrongTokens(t) == [t[..2]] + WrongTokens(t[2..]);
    var f := fix[0];
    assert IsPlaceholder(f);
    RemapClearsWrong(t[2..], fix[1..]);
    var r := Remap(t[2..], fix[1..]);
    var s := f + r;
    assert s[2..] == r;
    assert s[1..] == [f[1]] + r;
    assert ([f[1]] + r)[1..] == r;
    if |r| >= 1 {
      assert WrongTokens(s[1..]) == WrongTokens(r);
    }
  }

  /** Any other first character is kept and the rest is repaired. */
  lemma {:induction false} ClearsPastChar(t: string, fix: seq<string>)
    requires forall i :: 0 <= i < |fix| ==> IsPlaceholder(fix[i])
    requires |WrongTokens(t)| <= |fix|
    requires |t| >= 2 && !(t[0] == '%' && IsWrongLetter(t[1]))
    ensures WrongTokens(Remap(t, fix)) == []
    decreases |t|, 0
  {
    assert WrongTokens(t) == WrongTokens(t[1..]);
    RemapClearsWrong(t[1..], fix);
    var r := Remap(t[1..], fix);
    var s := [t[0]] + r;
    assert s[1..] == r;
    if t[0] == '%' {
      RemapHead(t[1..], fix);
    }
  }


  /** A second repair after a complete one is a no-op. */
  lemma SecondFixIsNoop(source: string, translation: string)
    requires |WrongTokens(translation)| <= |Placeholders(source)|
    ensures Remap(Remap(translation, Placeholders(source)), Placeholders(source))
         == Remap(translation, Placeholders(source))
  {
    RemapClearsWrong(translation, Placeholders(source));
    RemapNoop(Remap(translation, Placeholders(source)), Placeholders(source));
  }

  /** The repair is not idempotent: with one source placeholder and two
      wrong tokens, a second run repairs the token the first left over. */
  lemma AutoFixNotIdempotent()
    ensures Remap("%s %s", Placeholders("%1")) == "%1 %s"
    ensures Remap(Remap("%s %s", Placeholders("%1")), Placeholders("%1")) == "%1 %1"
  {
    assert Placeholders("%1") == ["%1"] by { assert "%1"[..2] == "%1"; }
    assert Remap("%s", []) == "%s";
    assert Remap(" %s", []) == " %s";
    assert Remap("%s %s", ["%1"]) == "%1" + Remap(" %s", []);
    assert Remap("%1 %s", ["%1"]) == "%1 %1";
  }
}
