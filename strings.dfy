/** The handful of Python `str` operations the translation tool relies on,
    written out over `seq<char>`: stripping, prefix tests, substring search,
    left-to-right `replace` and `count`, `split`/`join`, ASCII case mapping
    and decimal numerals. */
module Strings {

  /** Python's `str.isspace()` for one character: the full list of code
      points it accepts (also the set `\s` matches in `re`). */
  predicate IsSpace(c: char) {
    c == ' ' || ('\t' <= c <= '\r') || ('\U{1C}' <= c <= '\U{1F}')
    || c == '\U{85}' || c == '\U{A0}' || c == '\U{1680}'
    || ('\U{2000}' <= c <= '\U{200A}') || c == '\U{2028}' || c == '\U{2029}'
    || c == '\U{202F}' || c == '\U{205F}' || c == '\U{3000}'
  }

  /** `not s.strip()`: the string is empty or whitespace only. */
  predicate IsBlank(s: string) {
    forall i :: 0 <= i < |s| ==> IsSpace(s[i])
  }

  function LStrip(s: string): (r: string)
    ensures |r| <= |s|
    ensures r == [] || !IsSpace(r[0])
    ensures IsBlank(s[..|s| - |r|])
  {
    if s != [] && IsSpace(s[0]) then
      var r := LStrip(s[1..]);
      assert s[..|s| - |r|] == [s[0]] + s[1..][..|s| - 1 - |r|];
      r
    else s
  }

  /** A blank run followed by one more space is blank. */
  lemma BlankThenSpace(s: string, k: nat)
    requires k < |s| && IsBlank(s[..|s| - 1][k..]) && IsSpace(s[|s| - 1])
    ensures IsBlank(s[k..])
  {
    forall i | 0 <= i < |s| - k
      ensures IsSpace(s[k..][i])
    {
      if i < |s| - 1 - k {
        assert s[k..][i] == s[..|s| - 1][k..][i];
      }
    }
  }

  function RStrip(s: string): (r: string)
    ensures |r| <= |s|
    ensures r == [] || !IsSpace(r[|r| - 1])
    ensures IsBlank(s[|r|..])
  {
    if s != [] && IsSpace(s[|s| - 1]) then
      var r := RStrip(s[..|s| - 1]);
      BlankThenSpace(s, |r|);
      r
    else s
  }

  /** `LStrip` removes a prefix: what is left is a suffix of the input. */
  lemma {:induction false} LStripSuffix(s: string)
    ensures LStrip(s) == s[|s| - |LStrip(s)|..]
    decreases |s|
  {
    if s != [] && IsSpace(s[0]) {
      LStripSuffix(s[1..]);
    }
  }

  /** `RStrip` removes a suffix: what is left is a prefix of the input. */
  lemma {:induction false} RStripPrefix(s: string)
    ensures RStrip(s) == s[..|RStrip(s)|]
    decreases |s|
  {
    if s != [] && IsSpace(s[|s| - 1]) {
      RStripPrefix(s[..|s| - 1]);
    }
  }

  /** Python's `s.strip()`. */
  function Strip(s: string): (r: string)
    ensures Stripped(r)
    ensures r == [] <==> IsBlank(s)
  {
    LStripSuffix(s);
    RStripPrefix(LStrip(s));
    RStrip(LStrip(s))
  }

  lemma StripOfStripped(s: string)
    requires s == [] || (!IsSpace(s[0]) && !IsSpace(s[|s| - 1]))
    ensures Strip(s) == s
  {
  }

  /** `line.rstrip('\n')`. */
  function RStripNewlines(s: string): (r: string)
    ensures |r| <= |s| && r == s[..|r|]
  {
    if s != [] && s[|s| - 1] == '\n' then RStripNewlines(s[..|s| - 1]) else s
  }

  predicate StartsWith(s: string, p: string) {
    |p| <= |s| && s[..|p|] == p
  }

  predicate EndsWith(s: string, p: string) {
    |p| <= |s| && s[|s| - |p|..] == p
  }

  /** `sub in s`. */
  predicate Contains(s: string, sub: string)
    decreases |s|
  {
    StartsWith(s, sub) || (s != [] && Contains(s[1..], sub))
  }

  lemma ContainsAt(s: string, sub: string, i: nat)
    requires i + |sub| <= |s| && s[i..i + |sub|] == sub
    ensures Contains(s, sub)
    decreases i
  {
    if i > 0 {
      assert s[1..][i - 1..i - 1 + |sub|] == s[i..i + |sub|];
      ContainsAt(s[1..], sub, i - 1);
    }
  }

  /** Python's `s.replace(pat, rep)`: the leftmost occurrence is replaced,
      and the scan resumes after it. */
  function Replace(s: string, pat: string, rep: string): string
    requires |pat| > 0
    decreases |s|
  {
    if |s| < |pat| then s
    else if s[..|pat|] == pat then rep + Replace(s[|pat|..], pat, rep)
    else [s[0]] + Replace(s[1..], pat, rep)
  }

  /** A text without the pattern's first character is left unchanged. */
  lemma ReplaceAbsent(s: string, pat: string, rep: string)
    requires |pat| > 0 && pat[0] !in s
    ensures Replace(s, pat, rep) == s
    decreases |s|
  {
    if |s| >= |pat| {
      assert s[0] != pat[0];
      ReplaceAbsent(s[1..], pat, rep);
    }
  }

  /** Python's `s.replace(pat, rep, 1)`. */
  function ReplaceFirst(s: string, pat: string, rep: string): string
    requires |pat| > 0
    decreases |s|
  {
    if |s| < |pat| then s
    else if s[..|pat|] == pat then rep + s[|pat|..]
    else [s[0]] + ReplaceFirst(s[1..], pat, rep)
  }

  /** Python's `s.count(sub)`: non-overlapping occurrences, left to right. */
  function Count(s: string, sub: string): nat
    requires |sub| > 0
    decreases |s|
  {
    if |s| < |sub| then 0
    else if s[..|sub|] == sub then 1 + Count(s[|sub|..], sub)
    else Count(s[1..], sub)
  }

  lemma CountPositiveContains(s: string, sub: string)
    requires |sub| > 0
    ensures Count(s, sub) > 0 <==> Contains(s, sub)
    decreases |s|
  {
    if |s| >= |sub| && s[..|sub|] != sub {
      CountPositiveContains(s[1..], sub);
    }
  }

  /** A replacement whose text shares no character with the pattern leaves
      no occurrence of the pattern behind. */
  lemma ReplaceRemovesAll(s: string, pat: string, rep: string)
    requires |pat| > 0 && |rep| > 0
    requires forall c :: c in rep ==> c !in pat
    ensures !Contains(Replace(s, pat, rep), pat)
    decreases |s|
  {
    var r := Replace(s, pat, rep);
    if |s| < |pat| {
      NotContainsShort(s, pat);
    } else if s[..|pat|] == pat {
      var rest := Replace(s[|pat|..], pat, rep);
      ReplaceRemovesAll(s[|pat|..], pat, rep);
      NotContainsAfterForeign(rep, rest, pat);
    } else {
      var rest := Replace(s[1..], pat, rep);
      ReplaceRemovesAll(s[1..], pat, rep);
      if StartsWith(r, pat) {
        assert r == [s[0]] + rest;
        if |pat| > 1 {
          assert StartsWith(rest, pat[1..]) by {
            assert rest[..|pat| - 1] == r[1..|pat|];
          }
          ReplacePrefixFromSource(s[1..], pat, rep, pat[1..]);
        }
        assert false;
      }
      assert r[1..] == rest;
    }
  }

  lemma NotContainsChar(s: string, c: char)
    requires !Contains(s, [c])
    ensures c !in s
  {
    forall i | 0 <= i < |s| ensures s[i] != c {
      ContainsCharAt(s, c, i);
    }
  }

  lemma ContainsCharAt(s: string, c: char, i: nat)
    requires i < |s|
    ensures s[i] == c ==> Contains(s, [c])
  {
    if s[i] == c {
      ContainsAt(s, [c], i);
    }
  }

  /** Replacing cannot bring in a character that neither the text nor the
      replacement holds. */
  lemma {:induction false} ReplaceKeepsAbsent(s: string, pat: string, rep: string, c: char)
    requires |pat| > 0 && c !in s && c !in rep
    ensures c !in Replace(s, pat, rep)
    decreases |s|
  {
    if |s| >= |pat| {
      if s[..|pat|] == pat {
        ReplaceKeepsAbsent(s[|pat|..], pat, rep, c);
      } else {
        ReplaceKeepsAbsent(s[1..], pat, rep, c);
      }
    }
  }

  lemma NotContainsShort(s: string, sub: string)
    requires |s| < |sub|
    ensures !Contains(s, sub)
    decreases |s|
  {
    if s != [] { NotContainsShort(s[1..], sub); }
  }

  /** No occurrence of `sub` can start inside `a` when `a` shares no
      character with `sub`. */
  lemma {:induction false} NotContainsAfterForeign(a: string, b: string, sub: string)
    requires |sub| > 0
    requires forall c :: c in a ==> c !in sub
    requires !Contains(b, sub)
    ensures !Contains(a + b, sub)
    decreases |a|, 1
  {
    if a == [] {
      EmptyAppend(b);
    } else {
      NotContainsAfterForeignCons(a, b, sub);
    }
  }

  /** `NotContainsAfterForeign` when `a` has a first character. */
  lemma {:induction false} NotContainsAfterForeignCons(a: string, b: string, sub: string)
    requires |sub| > 0 && a != []
    requires forall c :: c in a ==> c !in sub
    requires !Contains(b, sub)
    ensures !Contains(a + b, sub)
    decreases |a|, 0
  {
    var ab := a + b;
    ConsAppend(a, b);
    assert forall c :: c in a[1..] ==> c in a;
    NotContainsAfterForeign(a[1..], b, sub);
    assert !StartsWith(ab, sub) by {
      assert a[0] in a;
    }
  }

  /** If the replaced string starts with a text foreign to `rep`, the
      source string started with the same text. */
  lemma ReplacePrefixFromSource(s: string, pat: string, rep: string, p: string)
    requires |pat| > 0 && |rep| > 0
    requires forall c :: c in p ==> c !in rep
    requires StartsWith(Replace(s, pat, rep), p)
    ensures StartsWith(s, p)
    decreases |s|
  {
    if |s| >= |pat| && p != [] {
      assert s[..|pat|] != pat by {
        assert p[0] in p;
      }
      {
        var rest := Replace(s[1..], pat, rep);
        assert Replace(s, pat, rep) == [s[0]] + rest;
        assert StartsWith(rest, p[1..]) by {
          assert rest[..|p| - 1] == Replace(s, pat, rep)[1..|p|];
        }
        ReplacePrefixFromSource(s[1..], pat, rep, p[1..]);
        assert s[..|p|] == [s[0]] + s[1..][..|p| - 1];
      }
    }
  }

  /** Python's `s.split(sep)` for a one-character separator. */
  function Split(s: string, sep: char): (r: seq<string>)
    ensures |r| >= 1
    ensures forall i :: 0 <= i < |r| ==> sep !in r[i]
    decreases |s|
  {
    if s == [] then [[]]
    else if s[0] == sep then [[]] + Split(s[1..], sep)
    else
      var rest := Split(s[1..], sep);
      [[s[0]] + rest[0]] + rest[1..]
  }

  /** Python's `sep.join(parts)`. */
  function Join(parts: seq<string>, sep: string): string
    decreases |parts|
  {
    if parts == [] then []
    else if |parts| == 1 then parts[0]
    else parts[0] + sep + Join(parts[1..], sep)
  }

  lemma {:induction false} JoinSplit(s: string, sep: char)
    ensures Join(Split(s, sep), [sep]) == s
    decreases |s|
  {
    if s == [] {
    } else if s[0] == sep {
      JoinSplit(s[1..], sep);
      var rest := Split(s[1..], sep);
      assert Split(s, sep) == [[]] + rest;
      assert ([[]] + rest)[1..] == rest;
    } else {
      JoinSplit(s[1..], sep);
      var rest := Split(s[1..], sep);
      var parts := [[s[0]] + rest[0]] + rest[1..];
      if |rest| == 1 {
        assert parts == [[s[0]] + rest[0]];
      } else {
        assert parts[1..] == rest[1..];
        assert Join(rest, [sep]) == rest[0] + [sep] + Join(rest[1..], [sep]);
      }
    }
  }

  lemma {:induction false} JoinSnoc(ps: seq<string>, x: string, sep: string)
    requires |ps| >= 1
    ensures Join(ps + [x], sep) == Join(ps, sep) + sep + x
    decreases |ps|
  {
    var q := ps + [x];
    assert q[1..] == ps[1..] + [x];
    if |ps| > 1 {
      JoinSnoc(ps[1..], x, sep);
    } else {
      assert q[1..] == [x];
    }
  }

  /** The pieces of a split hold only characters of the whole. */
  lemma {:induction false} SplitChars(s: string, sep: char, c: char)
    requires c !in s
    ensures forall i :: 0 <= i < |Split(s, sep)| ==> c !in Split(s, sep)[i]
    decreases |s|
  {
    if s != [] {
      SplitChars(s[1..], sep, c);
    }
  }

  /** A join of pieces and a separator without `c` holds no `c`. */
  lemma {:induction false} JoinWithout(parts: seq<string>, sep: string, c: char)
    requires c !in sep && forall i :: 0 <= i < |parts| ==> c !in parts[i]
    ensures c !in Join(parts, sep)
    decreases |parts|
  {
    if |parts| > 1 {
      JoinWithout(parts[1..], sep, c);
    }
  }

  /** Python's `s.rfind(c)`: index of the last `c`, or -1. */
  function RFind(s: string, c: char): (r: int)
    ensures -1 <= r < |s|
    ensures r >= 0 ==> s[r] == c && c !in s[r + 1..]
    ensures r == -1 ==> c !in s
    decreases |s|
  {
    if s == [] then -1
    else if s[|s| - 1] == c then |s| - 1
    else
      var r := RFind(s[..|s| - 1], c);
      assert r >= 0 ==> s[r + 1..] == s[..|s| - 1][r + 1..] + [s[|s| - 1]];
      r
  }

  /** The part of `s` before its first `c`, or all of `s`. */
  function Before(s: string, c: char): (r: string)
    ensures |r| <= |s| && r == s[..|r|] && c !in r
    ensures |r| < |s| ==> s[|r|] == c
    decreases |s|
  {
    if s == [] || s[0] == c then [] else [s[0]] + Before(s[1..], c)
  }

  /** `[x.strip() for x in xs]`. */
  function StripEach(xs: seq<string>): (r: seq<string>)
    ensures |r| == |xs|
    ensures forall i {:trigger r[i]} :: 0 <= i < |r| ==> r[i] == Strip(xs[i])
  {
    seq(|xs|, i requires 0 <= i < |xs| => Strip(xs[i]))
  }

  /** Splitting text that starts with a piece free of the separator. */
  lemma {:induction false} SplitPrefix(w: string, x: string, sep: char)
    requires sep !in w
    ensures Split(w + x, sep) == [w + Split(x, sep)[0]] + Split(x, sep)[1..]
    decreases |w|
  {
    if w != [] {
      assert (w + x)[0] == w[0] && (w + x)[1..] == w[1..] + x;
      SplitPrefix(w[1..], x, sep);
      assert [w[0]] + (w[1..] + Split(x, sep)[0]) == w + Split(x, sep)[0];
    } else {
      var q := Split(x, sep);
      assert w + x == x && w + q[0] == q[0];
      assert q == [q[0]] + q[1..];
    }
  }

  /** Splitting text that ends with a piece free of the separator. */
  lemma {:induction false} SplitSuffix(x: string, w: string, sep: char)
    requires sep !in w
    ensures var q := Split(x, sep); Split(x + w, sep) == q[..|q| - 1] + [q[|q| - 1] + w]
    decreases |x|, 1
  {
    if x == [] {
      EmptyAppend(w);
      SplitPrefix(w, [], sep);
      AppendEmpty(w);
    } else if x[0] == sep {
      SplitSuffixSep(x, w, sep);
    } else {
      SplitSuffixChar(x, w, sep);
    }
  }

  /** `SplitSuffix` for text that starts with the separator. */
  lemma {:induction false} SplitSuffixSep(x: string, w: string, sep: char)
    requires sep !in w && x != [] && x[0] == sep
    ensures var q := Split(x, sep); Split(x + w, sep) == q[..|q| - 1] + [q[|q| - 1] + w]
    decreases |x|, 0
  {
    var r := Split(x[1..], sep);
    ConsAppend(x, w);
    SplitSuffix(x[1..], w, sep);
    var q := Split(x, sep);
    assert q == [[]] + r;
    assert q[..|q| - 1] == [[]] + r[..|r| - 1];
    ConcatAssoc([[]], r[..|r| - 1], [r[|r| - 1] + w]);
  }

  /** `SplitSuffix` for text that starts with another character. */
  lemma {:induction false} SplitSuffixChar(x: string, w: string, sep: char)
    requires sep !in w && x != [] && x[0] != sep
    ensures var q := Split(x, sep); Split(x + w, sep) == q[..|q| - 1] + [q[|q| - 1] + w]
    decreases |x|, 0
  {
    var r := Split(x[1..], sep);
    ConsAppend(x, w);
    SplitSuffix(x[1..], w, sep);
    var q := Split(x, sep);
    assert q == [[x[0]] + r[0]] + r[1..];
    if |r| == 1 {
      assert [x[0]] + (r[0] + w) == ([x[0]] + r[0]) + w;
    } else {
      assert q[..|q| - 1] == [[x[0]] + r[0]] + r[1..|r| - 1];
    }
  }

  /** Splitting what `Join` joined gives the parts back. */
  lemma {:induction false} SplitJoin(ys: seq<string>, sep: char)
    requires |ys| >= 1
    requires forall i :: 0 <= i < |ys| ==> sep !in ys[i]
    ensures Split(Join(ys, [sep]), sep) == ys
    decreases |ys|
  {
    if |ys| == 1 {
      SplitPrefix(ys[0], [], sep);
      assert ys[0] + [] == ys[0];
      assert Split([], sep) == [[]];
    } else {
      SplitJoin(ys[1..], sep);
      var rest := Join(ys[1..], [sep]);
      assert Join(ys, [sep]) == ys[0] + ([sep] + rest);
      SplitPrefix(ys[0], [sep] + rest, sep);
      assert ([sep] + rest)[1..] == rest;
      var t := Split([sep] + rest, sep);
      assert t == [[]] + Split(rest, sep);
      assert t[0] == [] && t[1..] == ys[1..];
      assert ys[0] + t[0] == ys[0];
      assert ys == [ys[0]] + ys[1..];
    }
  }

  predicate Stripped(x: string) {
    x == [] || (!IsSpace(x[0]) && !IsSpace(x[|x| - 1]))
  }

  lemma {:induction false} LStripBlankPrefix(w: string, x: string)
    requires IsBlank(w)
    ensures LStrip(w + x) == LStrip(x)
    decreases |w|
  {
    if w != [] {
      assert (w + x)[0] == w[0] && (w + x)[1..] == w[1..] + x;
      LStripBlankPrefix(w[1..], x);
    } else {
      assert w + x == x;
    }
  }

  lemma {:induction false} RStripBlankSuffix(x: string, w: string)
    requires IsBlank(w)
    ensures RStrip(x + w) == RStrip(x)
    decreases |w|
  {
    if w != [] {
      var y := x + w;
      assert y[|y| - 1] == w[|w| - 1] && y[..|y| - 1] == x + w[..|w| - 1];
      RStripBlankSuffix(x, w[..|w| - 1]);
    } else {
      assert x + w == x;
    }
  }

  lemma {:induction false} LStripAppend(x: string, w: string)
    requires !IsBlank(x)
    ensures LStrip(x + w) == LStrip(x) + w
    decreases |x|
  {
    assert (x + w)[0] == x[0] && (x + w)[1..] == x[1..] + w;
    if IsSpace(x[0]) {
      assert !IsBlank(x[1..]) by {
        var i :| 0 <= i < |x| && !IsSpace(x[i]);
        assert x[1..][i - 1] == x[i];
      }
      LStripAppend(x[1..], w);
    }
  }

  lemma StripBlankPrefix(w: string, x: string)
    requires IsBlank(w)
    ensures Strip(w + x) == Strip(x)
  {
    LStripBlankPrefix(w, x);
  }

  lemma StripBlankSuffix(x: string, w: string)
    requires IsBlank(w)
    ensures Strip(x + w) == Strip(x)
  {
    if IsBlank(x) {
      assert IsBlank(x + w) by {
        forall i | 0 <= i < |x + w| ensures IsSpace((x + w)[i]) {
          if i < |x| { assert (x + w)[i] == x[i]; } else { assert (x + w)[i] == w[i - |x|]; }
        }
      }
    } else {
      LStripAppend(x, w);
      RStripBlankSuffix(LStrip(x), w);
    }
  }

  /** Blank margins around text without the separator only touch the
      first and the last piece, which `Strip` then removes. */
  lemma SplitAround(w1: string, core: string, w2: string, c: char)
    requires IsBlank(w1) && IsBlank(w2) && c !in w1 && c !in w2
    ensures StripEach(Split(w1 + (core + w2), c)) == StripEach(Split(core, c))
  {
    var q := Split(core, c);
    var p := Split(core + w2, c);
    var r := Split(w1 + (core + w2), c);
    SplitSuffix(core, w2, c);
    SplitPrefix(w1, core + w2, c);
    forall i | 0 <= i < |q|
      ensures Strip(r[i]) == Strip(q[i])
    {
      SplitAroundAt(w1, w2, q, p, r, i);
    }
  }

  /** One piece of `SplitAround`: the first piece gains `w1`, the last
      gains `w2`, and both are stripped away. */
  lemma SplitAroundAt(w1: string, w2: string, q: seq<string>, p: seq<string>, r: seq<string>, i: nat)
    requires IsBlank(w1) && IsBlank(w2) && i < |q|
    requires p == q[..|q| - 1] + [q[|q| - 1] + w2] && r == [w1 + p[0]] + p[1..]
    ensures |r| == |q| && Strip(r[i]) == Strip(q[i])
  {
    if i == 0 && |q| == 1 {
      StripBlankPrefix(w1, q[0] + w2);
      StripBlankSuffix(q[0], w2);
    } else if i == 0 {
      StripBlankPrefix(w1, q[0]);
    } else if i == |q| - 1 {
      StripBlankSuffix(q[i], w2);
    }
  }

  lemma BlankWithout(w: string, c: char)
    requires IsBlank(w) && !IsSpace(c)
    ensures c !in w
  {
  }

  /** Every string is its stripped core between two blank margins. */
  lemma StripMargins(s: string) returns (w1: string, w2: string)
    ensures s == w1 + (Strip(s) + w2) && IsBlank(w1) && IsBlank(w2)
  {
    var l := LStrip(s);
    var r := RStrip(l);
    w1 := s[..|s| - |l|];
    w2 := l[|r|..];
    LStripSplits(s);
    RStripSplits(l);
    assert s == w1 + (r + w2);
  }

  lemma LStripSplits(s: string)
    ensures s == s[..|s| - |LStrip(s)|] + LStrip(s)
  {
  }

  lemma RStripSplits(s: string)
    ensures s == RStrip(s) + s[|RStrip(s)|..]
  {
  }

  /** Stripping only removes characters. */
  lemma StripWithout(x: string, c: char)
    requires c !in x
    ensures c !in Strip(x)
  {
    var w1, w2 := StripMargins(x);
  }

  /** Stripping before splitting changes nothing once every piece is
      stripped: `s.strip().split(c)` and `s.split(c)` give the same
      stripped pieces, for a separator that is not whitespace. */
  lemma StripEachSplitStrip(s: string, c: char)
    requires !IsSpace(c)
    ensures StripEach(Split(Strip(s), c)) == StripEach(Split(s, c))
  {
    var w1, w2 := StripMargins(s);
    BlankWithout(w1, c);
    BlankWithout(w2, c);
    SplitAround(w1, Strip(s), w2, c);
  }

  /** Each piece prefixed by a space. */
  function Spaced(f: seq<string>): (g: seq<string>)
    ensures |g| == |f|
    ensures forall i :: 0 <= i < |g| ==> g[i] == " " + f[i]
  {
    seq(|f|, i requires 0 <= i < |f| => " " + f[i])
  }

  /** `", ".join(f)` with one space before it is the comma-join of the
      pieces each prefixed by a space. */
  lemma {:induction false} JoinSpaced(f: seq<string>)
    requires |f| >= 1
    ensures " " + Join(f, ", ") == Join(Spaced(f), ",")
    decreases |f|
  {
    if |f| > 1 {
      JoinSpaced(f[1..]);
      assert Spaced(f)[1..] == Spaced(f[1..]);
      assert " " + Join(f, ", ") == (" " + f[0]) + "," + (" " + Join(f[1..], ", "));
    }
  }

  lemma StripSpaceThenStripped(x: string)
    requires Stripped(x)
    ensures Strip(" " + x) == x
  {
    assert (" " + x)[1..] == x;
    assert IsSpace((" " + x)[0]);
    StripOfStripped(x);
  }

  /** Reading `", ".join(f)` after a space back with `split(',')` and
      `strip()` gives `f`, when its pieces are stripped and comma-free. */
  lemma SplitSpacedJoin(f: seq<string>)
    requires |f| >= 1
    requires forall i :: 0 <= i < |f| ==> ',' !in f[i] && Stripped(f[i])
    ensures StripEach(Split(" " + Join(f, ", "), ',')) == f
  {
    JoinSpaced(f);
    SpacedWithout(f, ',');
    SplitJoin(Spaced(f), ',');
    StripEachSpaced(f);
  }

  lemma SpacedWithout(f: seq<string>, c: char)
    requires c != ' ' && forall i :: 0 <= i < |f| ==> c !in f[i]
    ensures forall i :: 0 <= i < |f| ==> c !in Spaced(f)[i]
  {
    forall i | 0 <= i < |f| ensures c !in Spaced(f)[i] {
      assert Spaced(f)[i] == [' '] + f[i];
    }
  }

  lemma StripEachSpaced(f: seq<string>)
    requires forall i :: 0 <= i < |f| ==> Stripped(f[i])
    ensures StripEach(Spaced(f)) == f
  {
    var g := Spaced(f);
    forall i | 0 <= i < |f| ensures Strip(g[i]) == f[i] {
      StripSpaceThenStripped(f[i]);
    }
  }

  /** The leading run of non-whitespace characters. */
  function Word(s: string): (w: string)
    ensures |w| <= |s| && w == s[..|w|]
    ensures forall i :: 0 <= i < |w| ==> !IsSpace(w[i])
    ensures |w| == |s| || IsSpace(s[|w|])
    decreases |s|
  {
    if s == [] || IsSpace(s[0]) then [] else [s[0]] + Word(s[1..])
  }

  /** Python's `s.split()` with no argument: the maximal runs of
      non-whitespace characters, in order. */
  function SplitWs(s: string): (r: seq<string>)
    ensures forall i :: 0 <= i < |r| ==> r[i] != []
    decreases |s|
  {
    var t := LStrip(s);
    if t == [] then []
    else
      var w := Word(t);
      [w] + SplitWs(t[|w|..])
  }

  /** ASCII lower/upper case; other characters are left unchanged. */
  function LowerChar(c: char): char {
    if 'A' <= c <= 'Z' then (c as int + 32) as char else c
  }

  function UpperChar(c: char): char {
    if 'a' <= c <= 'z' then (c as int - 32) as char else c
  }

  function Lower(s: string): (r: string)
    ensures |r| == |s|
  {
    seq(|s|, i requires 0 <= i < |s| => LowerChar(s[i]))
  }

  function Upper(s: string): (r: string)
    ensures |r| == |s|
  {
    seq(|s|, i requires 0 <= i < |s| => UpperChar(s[i]))
  }

  predicate IsDigit(c: char) {
    '0' <= c <= '9'
  }

  predicate AllDigits(s: string) {
    forall i :: 0 <= i < |s| ==> IsDigit(s[i])
  }

  /** Length of the leading run of ASCII digits (what `\d+` consumes). */
  function DigitRun(s: string): (n: nat)
    ensures n <= |s| && AllDigits(s[..n])
    ensures n == |s| || !IsDigit(s[n])
    decreases |s|
  {
    if s != [] && IsDigit(s[0]) then
      var k := DigitRun(s[1..]);
      assert s[..k + 1] == [s[0]] + s[1..][..k];
      k + 1
    else 0
  }

  lemma DigitRunPrefix(d: string, rest: string)
    requires d != [] && AllDigits(d)
    requires rest == [] || !IsDigit(rest[0])
    ensures DigitRun(d + rest) == |d|
    decreases |d|
  {
    assert (d + rest)[0] == d[0];
    assert (d + rest)[1..] == d[1..] + rest;
    if |d| > 1 {
      DigitRunPrefix(d[1..], rest);
    } else {
      assert d[1..] + rest == rest;
    }
  }

  /** Python's `int(d)` on ASCII digits. */
  function ParseNat(d: string): nat
    requires AllDigits(d)
    decreases |d|
  {
    if d == [] then 0
    else ParseNat(d[..|d| - 1]) * 10 + (d[|d| - 1] as int - '0' as int)
  }

  /** Python's `str(n)` for a natural number. */
  function NatToString(n: nat): (s: string)
    ensures s != [] && AllDigits(s)
  {
    if n < 10 then [('0' as int + n) as char]
    else NatToString(n / 10) + [('0' as int + n % 10) as char]
  }

  lemma {:induction false} ParseNatToString(n: nat)
    ensures ParseNat(NatToString(n)) == n
  {
    if n >= 10 {
      ParseNatToString(n / 10);
      var s := NatToString(n);
      assert s[..|s| - 1] == NatToString(n / 10);
    }
  }

  /** Keeps the elements satisfying `p`, in order. */
  function Filter<T>(s: seq<T>, p: T -> bool): (r: seq<T>)
    ensures |r| <= |s|
    ensures forall x :: x in r ==> x in s && p(x)
    decreases |s|
  {
    if s == [] then []
    else if p(s[0]) then [s[0]] + Filter(s[1..], p)
    else Filter(s[1..], p)
  }

  /** Concatenation respects equality (stated to keep large proofs small). */
  lemma SumOfEquals<T>(a: seq<T>, a': seq<T>, b: seq<T>, b': seq<T>)
    requires a == a' && b == b'
    ensures a + b == a' + b'
  {
  }

  lemma AppendEmpty<T>(a: seq<T>)
    ensures a + [] == a
  {
  }

  lemma EmptyAppend<T>(a: seq<T>)
    ensures [] + a == a
  {
  }

  lemma TakeAll<T>(xs: seq<T>)
    ensures xs[..|xs|] == xs
  {
  }

  lemma TakeSnoc<T>(xs: seq<T>, k: nat)
    requires 0 < k <= |xs|
    ensures xs[..k - 1] + [xs[k - 1]] == xs[..k]
  {
  }

  lemma ConsAppend<T>(a: seq<T>, b: seq<T>)
    requires a != []
    ensures (a + b)[0] == a[0] && (a + b)[1..] == a[1..] + b
  {
  }

  lemma InRight<T>(a: seq<T>, b: seq<T>, i: nat)
    requires i < |b|
    ensures b[i] in a + b
  {
    assert (a + b)[|a| + i] == b[i];
  }

  lemma ConcatAssoc<T>(a: seq<T>, b: seq<T>, c: seq<T>)
    ensures a + b + c == a + (b + c)
  {
  }

  lemma FilterAppend<T>(a: seq<T>, b: seq<T>, p: T -> bool)
    ensures Filter(a + b, p) == Filter(a, p) + Filter(b, p)
    decreases |a|
  {
    if a != [] {
      assert (a + b)[1..] == a[1..] + b;
      FilterAppend(a[1..], b, p);
    } else {
      assert a + b == b;
    }
  }

  /** Number of elements satisfying `p`. */
  lemma {:induction false} FilterTwice<T>(s: seq<T>, p: T -> bool)
    ensures Filter(Filter(s, p), p) == Filter(s, p)
    decreases |s|
  {
    if s != [] {
      FilterTwice(s[1..], p);
      if p(s[0]) {
        assert ([s[0]] + Filter(s[1..], p))[1..] == Filter(s[1..], p);
      }
    }
  }

  /** A filter keeps exactly the elements that pass. */
  lemma {:induction false} FilterKeeps<T>(s: seq<T>, p: T -> bool, x: T)
    ensures x in Filter(s, p) <==> x in s && p(x)
    decreases |s|
  {
    if s != [] {
      FilterKeeps(s[1..], p, x);
      assert x in s <==> x == s[0] || x in s[1..];
    }
  }

  /** `[f(x) for x in xs]`, built from the back so that `f` is applied
      only where a proof asks for an element. */
  function Map<T, U>(xs: seq<T>, f: T -> U): (r: seq<U>)
    ensures |r| == |xs|
    decreases |xs|
  {
    if xs == [] then [] else Map(xs[..|xs| - 1], f) + [f(xs[|xs| - 1])]
  }

  lemma {:induction false} MapAt<T, U>(xs: seq<T>, f: T -> U, i: nat)
    requires i < |xs|
    ensures Map(xs, f)[i] == f(xs[i])
    decreases |xs|
  {
    var k := |xs| - 1;
    if i < k {
      MapAt(xs[..k], f, i);
    }
  }

  /** Every element of `xs` paired with the number `n` by `tag`: the
      per-number error lists both imports append. */
  function Tagged<T, U>(n: nat, xs: seq<T>, tag: (nat, T) -> U): (r: seq<U>)
    ensures |r| == |xs|
    ensures forall i :: 0 <= i < |r| ==> r[i] == tag(n, xs[i])
  {
    seq(|xs|, i requires 0 <= i < |xs| => tag(n, xs[i]))
  }

  function CountIf<T>(s: seq<T>, p: T -> bool): (n: nat)
    ensures n <= |s|
    decreases |s|
  {
    if s == [] then 0 else (if p(s[0]) then 1 else 0) + CountIf(s[1..], p)
  }

  lemma CountIfDisjoint<T>(s: seq<T>, p: T -> bool, q: T -> bool)
    requires forall x :: x in s ==> !(p(x) && q(x))
    ensures CountIf(s, p) + CountIf(s, q) <= |s|
    decreases |s|
  {
    if s != [] { CountIfDisjoint(s[1..], p, q); }
  }

  /** Counting over a sequence one element longer. */
  lemma {:induction false} CountIfSnoc<T>(s: seq<T>, x: T, p: T -> bool)
    ensures CountIf(s + [x], p) == CountIf(s, p) + (if p(x) then 1 else 0)
    decreases |s|
  {
    if s == [] {
      assert s + [x] == [x];
    } else {
      assert (s + [x])[1..] == s[1..] + [x];
      CountIfSnoc(s[1..], x, p);
    }
  }

  /** A join of two or more parts: the first, the separator, the rest. */
  lemma JoinCons(parts: seq<string>, sep: string)
    requires |parts| >= 2
    ensures Join(parts, sep) == parts[0] + sep + Join(parts[1..], sep)
  {
  }

  /** Splitting at one separator splits the two sides separately. */
  lemma {:induction false} SplitConcat(a: string, b: string, sep: char)
    ensures Split(a + [sep] + b, sep) == Split(a, sep) + Split(b, sep)
    decreases |a|, 1
  {
    if a == [] {
      var x := a + [sep] + b;
      assert x == [sep] + b && x[1..] == b;
    } else {
      SplitConcatCons(a, b, sep);
    }
  }

  /** `SplitConcat` when `a` has a first character. */
  lemma {:induction false} SplitConcatCons(a: string, b: string, sep: char)
    requires a != []
    ensures Split(a + [sep] + b, sep) == Split(a, sep) + Split(b, sep)
    decreases |a|, 0
  {
    var x := a + [sep] + b;
    assert x[0] == a[0] && x[1..] == a[1..] + [sep] + b;
    SplitConcat(a[1..], b, sep);
    var r := Split(a[1..], sep);
    var q := Split(x[1..], sep);
    if a[0] == sep {
      ConcatAssoc([[]], r, Split(b, sep));
    } else {
      assert q[0] == r[0] && q[1..] == r[1..] + Split(b, sep);
      ConcatAssoc([[a[0]] + r[0]], r[1..], Split(b, sep));
    }
  }

  /** The lines of each part in turn: what splitting their join yields. */
  function SplitEach(parts: seq<string>, sep: char): seq<string>
    decreases |parts|
  {
    if parts == [] then [] else Split(parts[0], sep) + SplitEach(parts[1..], sep)
  }

  lemma {:induction false} SplitJoinEach(parts: seq<string>, sep: char)
    requires |parts| >= 1
    ensures Split(Join(parts, [sep]), sep) == SplitEach(parts, sep)
    decreases |parts|
  {
    if |parts| == 1 {
      assert parts[1..] == [];
    } else {
      SplitJoinEach(parts[1..], sep);
      SplitConcat(parts[0], Join(parts[1..], [sep]), sep);
    }
  }

  lemma {:induction false} SplitEachAppend(a: seq<string>, b: seq<string>, sep: char)
    ensures SplitEach(a + b, sep) == SplitEach(a, sep) + SplitEach(b, sep)
    decreases |a|
  {
    if a == [] {
      assert a + b == b;
    } else {
      assert (a + b)[0] == a[0] && (a + b)[1..] == a[1..] + b;
      SplitEachAppend(a[1..], b, sep);
    }
  }

  /** Lines without the separator split into themselves. */
  lemma {:induction false} SplitEachWhole(parts: seq<string>, sep: char)
    requires forall i :: 0 <= i < |parts| ==> sep !in parts[i]
    ensures SplitEach(parts, sep) == parts
    decreases |parts|
  {
    if parts != [] {
      SplitEachWhole(parts[1..], sep);
      SplitJoin([parts[0]], sep);
    }
  }
}
