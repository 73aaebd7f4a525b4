/** String escaping for PO files (scripts/translate_v2.py:378-385, the same
    code as scripts/translate.py:259-266). Both directions are chains of
    `str.replace` calls; the proofs below reason about them through a token
    view of escaped text: a plain character or a backslash pair. */
module PoEscape {
  import opened Strings

  /** `unescape_po_string`: `\n`, then `\t`, then `\"`, then `\\`. */
  function Unescape(s: string): string {
    Replace(Replace(Replace(Replace(s, "\\n", "\n"), "\\t", "\t"), "\\\"", "\""), "\\\\", "\\")
  }

  /** `escape_po_string`: backslash first, then quote, newline and tab. */
  function Escape(s: string): string {
    Replace(Replace(Replace(Replace(s, "\\", "\\\\"), "\"", "\\\""), "\n", "\\n"), "\t", "\\t")
  }

  /** Escaped text holds no raw newline, so it fits on one line. */
  lemma EscapeNoNewline(s: string)
    ensures '\n' !in Escape(s)
  {
    var t := Replace(Replace(s, "\\", "\\\\"), "\"", "\\\"");
    ReplaceRemovesAll(t, "\n", "\\n");
    NotContainsChar(Replace(t, "\n", "\\n"), '\n');
    ReplaceKeepsAbsent(Replace(t, "\n", "\\n"), "\t", "\\t", '\n');
  }

  /** A PO string literal: the text between double quotes. */
  function Quote(s: string): string {
    "\"" + s + "\""
  }

  lemma QuoteShape(s: string)
    ensures var r := Quote(s); |r| == |s| + 2 && r[0] == '"' && r[|r| - 1] == '"' && r[1..|r| - 1] == s
  {
  }

  /** One unit of escaped text: a character written as itself, or a
      backslash pair `\c`. */
  datatype Tok = Plain(c: char) | Pair(c: char)

  function RenderTok(t: Tok): string {
    match t
    case Plain(c) => [c]
    case Pair(c) => ['\\', c]
  }

  function Render(ts: seq<Tok>): string
    decreases |ts|
  {
    if ts == [] then [] else RenderTok(ts[0]) + Render(ts[1..])
  }

  function Plains(s: string): (ts: seq<Tok>)
    ensures |ts| == |s|
  {
    seq(|s|, i requires 0 <= i < |s| => Plain(s[i]))
  }

  /** Turns every plain `c` into the pair `\d`. */
  function Mark(ts: seq<Tok>, c: char, d: char): (r: seq<Tok>)
    ensures |r| == |ts|
  {
    seq(|ts|, i requires 0 <= i < |ts| => if ts[i] == Plain(c) then Pair(d) else ts[i])
  }

  /** Turns every pair `\a` into the plain character `b`. */
  function Sub(ts: seq<Tok>, a: char, b: char): (r: seq<Tok>)
    ensures |r| == |ts|
  {
    seq(|ts|, i requires 0 <= i < |ts| => if ts[i] == Pair(a) then Plain(b) else ts[i])
  }

  /** No plain backslash and no pair `\\`: every backslash opens a pair. */
  predicate Unambiguous(ts: seq<Tok>) {
    forall i :: 0 <= i < |ts| ==> ts[i] != Plain('\\') && ts[i] != Pair('\\')
  }

  lemma {:induction false} RenderAppend(a: seq<Tok>, b: seq<Tok>)
    ensures Render(a + b) == Render(a) + Render(b)
    decreases |a|, 1
  {
    if a == [] {
      EmptyAppend(b);
      EmptyAppend(Render(b));
    } else {
      RenderAppendCons(a, b);
    }
  }

  lemma {:induction false} RenderAppendCons(a: seq<Tok>, b: seq<Tok>)
    requires a != []
    ensures Render(a + b) == Render(a) + Render(b)
    decreases |a|, 0
  {
    ConsAppend(a, b);
    RenderAppend(a[1..], b);
    ConcatAssoc(RenderTok(a[0]), Render(a[1..]), Render(b));
  }

  lemma {:induction false} RenderPlains(s: string)
    ensures Render(Plains(s)) == s
    decreases |s|
  {
    if s != [] {
      assert Plains(s)[1..] == Plains(s[1..]);
      RenderPlains(s[1..]);
    }
  }

  function MarkTok(t: Tok, c: char, d: char): Tok {
    if t == Plain(c) then Pair(d) else t
  }

  /** A character other than `c` is kept by replacing `c`. */
  lemma KeepReplaceStep(x: char, rest: string, c: char, rep: string)
    requires x != c
    ensures Replace([x] + rest, [c], rep) == [x] + Replace(rest, [c], rep)
  {
    var s := [x] + rest;
    assert s[..1] == [x];
    assert s[1..] == rest;
  }

  lemma EscapeTokStep(t: Tok, rest: string, c: char, d: char)
    requires c != '\\' && t != Pair(c)
    ensures Replace(RenderTok(t) + rest, [c], ['\\', d]) == RenderTok(MarkTok(t, c, d)) + Replace(rest, [c], ['\\', d])
  {
    match t
    case Plain(x) =>
      var s := [x] + rest;
      assert s[..1] == [x];
      assert s[1..] == rest;
    case Pair(x) =>
      assert ['\\', x] + rest == ['\\'] + ([x] + rest);
      KeepReplaceStep('\\', [x] + rest, c, ['\\', d]);
      KeepReplaceStep(x, rest, c, ['\\', d]);
      ConcatAssoc(['\\'], [x], Replace(rest, [c], ['\\', d]));
  }

  /** Replacing the character `c` by `\d` marks the plain `c` tokens. */
  lemma {:induction false} EscapeStep(ts: seq<Tok>, c: char, d: char)
    requires c != '\\'
    requires forall i :: 0 <= i < |ts| ==> ts[i] != Pair(c)
    ensures Replace(Render(ts), [c], ['\\', d]) == Render(Mark(ts, c, d))
    decreases |ts|
  {
    if ts != [] {
      var m := Mark(ts, c, d);
      assert m[1..] == Mark(ts[1..], c, d);
      assert m[0] == MarkTok(ts[0], c, d);
      EscapeStep(ts[1..], c, d);
      EscapeTokStep(ts[0], Render(ts[1..]), c, d);
    }
  }

  function SubTok(t: Tok, a: char, b: char): Tok {
    if t == Pair(a) then Plain(b) else t
  }

  /** A character other than a backslash never starts the pair `\a`. */
  lemma PlainReplaceStep(x: char, rest: string, a: char, b: char)
    requires x != '\\'
    ensures Replace([x] + rest, ['\\', a], [b]) == [x] + Replace(rest, ['\\', a], [b])
  {
    var s := [x] + rest;
    if |s| < 2 {
      assert rest == [];
      AppendEmpty([x]);
    } else {
      assert s[0] == x;
      assert s[1..] == rest;
    }
  }

  lemma UnescapeTokStep(t: Tok, rest: string, a: char, b: char)
    requires t != Plain('\\') && t != Pair('\\')
    ensures Replace(RenderTok(t) + rest, ['\\', a], [b]) == RenderTok(SubTok(t, a, b)) + Replace(rest, ['\\', a], [b])
  {
    match t
    case Plain(x) =>
      PlainReplaceStep(x, rest, a, b);
    case Pair(x) =>
      var s := ['\\', x] + rest;
      assert s[..2] == ['\\', x];
      if x == a {
        assert s[2..] == rest;
      } else {
        assert s[1..] == [x] + rest;
        PlainReplaceStep(x, rest, a, b);
        ConcatAssoc(['\\'], [x], Replace(rest, ['\\', a], [b]));
      }
  }

  /** Replacing the pair `\a` by `b` unmarks the pair tokens `\a`, provided
      every backslash in the text opens a pair. */
  lemma {:induction false} UnescapeStep(ts: seq<Tok>, a: char, b: char)
    requires Unambiguous(ts)
    ensures Replace(Render(ts), ['\\', a], [b]) == Render(Sub(ts, a, b))
    decreases |ts|, 1
  {
    if ts != [] {
      UnescapeStepCons(ts, a, b);
    }
  }

  lemma {:induction false} UnescapeStepCons(ts: seq<Tok>, a: char, b: char)
    requires Unambiguous(ts) && ts != []
    ensures Replace(Render(ts), ['\\', a], [b]) == Render(Sub(ts, a, b))
    decreases |ts|, 0
  {
    var sub := Sub(ts, a, b);
    assert sub[1..] == Sub(ts[1..], a, b);
    assert sub[0] == SubTok(ts[0], a, b);
    UnescapeStep(ts[1..], a, b);
    UnescapeTokStep(ts[0], Render(ts[1..]), a, b);
  }

  /** Tokens written by `Escape`: plain characters other than a backslash,
      pairs only for newline, tab and quote. */
  predicate EscapedForm(ts: seq<Tok>) {
    forall i :: 0 <= i < |ts| ==>
      (ts[i].Plain? && ts[i].c != '\\') || (ts[i].Pair? && ts[i].c in "nt\"")
  }

  /** What `Unescape` makes of each token of an escaped text. */
  function Decoded(ts: seq<Tok>): (r: seq<Tok>)
    ensures |r| == |ts|
  {
    Sub(Sub(Sub(ts, 'n', '\n'), 't', '\t'), '"', '"')
  }

  /** The token view of `Escape(s)` for a text without a backslash. */
  function EscapeToks(s: string): seq<Tok> {
    Mark(Mark(Mark(Plains(s), '"', '"'), '\n', 'n'), '\t', 't')
  }

  /** The tokens of `Escape(s)` are in escaped form and decode to `s`. */
  lemma EscapeToksDecode(s: string)
    requires '\\' !in s
    ensures EscapedForm(EscapeToks(s))
    ensures Decoded(EscapeToks(s)) == Plains(s)
  {
    var ts := EscapeToks(s);
    forall i | 0 <= i < |s|
      ensures (ts[i].Plain? && ts[i].c != '\\') || (ts[i].Pair? && ts[i].c in "nt\"")
      ensures Decoded(ts)[i] == Plain(s[i])
    {
      assert s[i] in s;
    }
  }

  /** Each replacement of `Escape` after the first marks one character. */
  lemma EscapeMarks(s: string)
    requires '\\' !in s
    ensures Escape(s) == Render(EscapeToks(s))
  {
    RenderPlains(s);
    ReplaceAbsent(s, "\\", "\\\\");
    var t0 := Plains(s);
    var t1 := Mark(t0, '"', '"');
    var t2 := Mark(t1, '\n', 'n');
    EscapeStep(t0, '"', '"');
    EscapeStep(t1, '\n', 'n');
    EscapeStep(t2, '\t', 't');
  }

  lemma EscapeAsToks(s: string)
    requires '\\' !in s
    ensures Escape(s) == Render(EscapeToks(s))
    ensures EscapedForm(EscapeToks(s))
    ensures Decoded(EscapeToks(s)) == Plains(s)
  {
    EscapeMarks(s);
    EscapeToksDecode(s);
  }

  /** Every step of the decoding keeps the tokens unambiguous, and the
      last one leaves only plain characters other than a backslash. */
  lemma DecodedSteps(ts: seq<Tok>)
    requires EscapedForm(ts)
    ensures Unambiguous(ts)
    ensures Unambiguous(Sub(ts, 'n', '\n'))
    ensures Unambiguous(Sub(Sub(ts, 'n', '\n'), 't', '\t'))
    ensures forall i :: 0 <= i < |ts| ==> Decoded(ts)[i].Plain? && Decoded(ts)[i].c != '\\'
  {
  }

  lemma UnescapeChain(r0: string, r1: string, r2: string, r3: string)
    requires Replace(r0, ['\\', 'n'], ['\n']) == r1
    requires Replace(r1, ['\\', 't'], ['\t']) == r2
    requires Replace(r2, ['\\', '"'], ['"']) == r3
    requires Replace(r3, "\\\\", "\\") == r3
    ensures Unescape(r0) == r3
  {
  }

  /** `Unescape` decodes every text in escaped form, token by token. */
  lemma UnescapeRender(ts: seq<Tok>)
    requires EscapedForm(ts)
    ensures Unescape(Render(ts)) == Render(Decoded(ts))
  {
    DecodedSteps(ts);
    var t1 := Sub(ts, 'n', '\n');
    var t2 := Sub(t1, 't', '\t');
    var t3 := Sub(t2, '"', '"');
    UnescapeStep(ts, 'n', '\n');
    UnescapeStep(t1, 't', '\t');
    UnescapeStep(t2, '"', '"');
    PlainRenderNoBackslash(t3);
    ReplaceAbsent(Render(t3), "\\\\", "\\");
    UnescapeChain(Render(ts), Render(t1), Render(t2), Render(t3));
  }

  lemma PlainRenderNoBackslash(ts: seq<Tok>)
    requires forall i :: 0 <= i < |ts| ==> ts[i].Plain? && ts[i].c != '\\'
    ensures '\\' !in Render(ts)
    decreases |ts|
  {
    if ts != [] { PlainRenderNoBackslash(ts[1..]); }
  }

  /** Round trip: unescaping an escaped text gives it back, for every text
      without a backslash. */
  lemma UnescapeEscape(s: string)
    requires '\\' !in s
    ensures Unescape(Escape(s)) == s
  {
    EscapeAsToks(s);
    UnescapeRender(EscapeToks(s));
    RenderPlains(s);
  }

  /** Appending the pair `\n` to escaped tokens keeps them in escaped
      form and appends a newline to their decoding. */
  lemma DecodedSnocNewline(ts: seq<Tok>)
    requires EscapedForm(ts)
    ensures EscapedForm(ts + [Pair('n')])
    ensures Decoded(ts + [Pair('n')]) == Decoded(ts) + [Plain('\n')]
  {
  }

  /** The body of a non-final block line, `escape(part) + "\n"` marker,
      unescapes to the part followed by a newline. */
  lemma UnescapeEscapeMarked(s: string)
    requires '\\' !in s
    ensures Unescape(Escape(s) + "\\n") == s + "\n"
  {
    var es := EscapeToks(s);
    EscapeAsToks(s);
    RenderAppend(es, [Pair('n')]);
    assert Render([Pair('n')]) == "\\n";
    DecodedSnocNewline(es);
    UnescapeRender(es + [Pair('n')]);
    RenderAppend(Plains(s), [Plain('\n')]);
    RenderPlains(s);
  }

  lemma EscapeBackslashN()
    ensures Escape("\\n") == "\\\\n"
  {
    var e := "\\\\n";
    assert Replace("n", "\\", "\\\\") == "n";
    assert Replace("\\n", "\\", "\\\\") == e;
    ReplaceAbsent(e, "\"", "\\\"");
    ReplaceAbsent(e, "\n", "\\n");
    ReplaceAbsent(e, "\t", "\\t");
  }

  /** Once `\n` has become a newline, the remaining lone backslash is
      followed by a newline and no later replacement touches it. */
  lemma UnescapeLoneBackslash(pat: string, rep: string)
    requires |pat| == 2 && pat[0] == '\\' && pat[1] != '\n'
    ensures Replace("\\\n", pat, rep) == "\\\n"
  {
    var s := "\\\n";
    assert s[..2] != pat by { assert s[1] == '\n'; }
    ReplaceAbsent(s[1..], pat, rep);
  }

  /** Because `\n` is unescaped first, a text holding a backslash before an
      `n` does not survive the round trip. */
  lemma BackslashBreaksRoundTrip()
    ensures Escape("\\n") == "\\\\n"
    ensures Unescape(Escape("\\n")) == "\\\n"
  {
    var e := "\\\\n";
    EscapeBackslashN();
    assert e[..2] != "\\n" by { assert e[1] == '\\'; }
    assert e[1..][..2] == "\\n";
    assert Replace(e[1..], "\\n", "\n") == "\n";
    assert Replace(e, "\\n", "\n") == "\\\n";
    UnescapeLoneBackslash("\\t", "\t");
    UnescapeLoneBackslash("\\\"", "\"");
    UnescapeLoneBackslash("\\\\", "\\");
  }
}
