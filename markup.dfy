/**
 * The pattern-matching layer over pfSense-style XML text: field extraction (`tagText`),
 * the template locators, the two splice primitives, `maxOptIndex` and the interface and
 * gateway name splitters.
 *
 * Each regular expression of the source becomes an explicit search. A chain
 * `A[\s\S]*?B[\s\S]*?C` matches at the first A, then the first B after it, then the first C
 * after that, or nowhere: a later choice at any step only leaves fewer candidates for the
 * steps after it, so backtracking can never succeed where the first choices failed.
 * Searches follow the `i` flag where the source sets it (`fold` = true).
 */
module Markup {
  import opened Outcomes
  import opened Text

  function Open(tag: string): string { "<" + tag + ">" }

  function Close(tag: string): string { "</" + tag + ">" }

  const CdataOpen: string := "<![CDATA["
  const CdataClose: string := "]]>"

  /* ---------------- replace with a string replacement ---------------- */

  /** GetSubstitution of `String.prototype.replace` for a pattern without capture groups:
      `$$`, `$&`, `` $` `` and `$'` are expanded, every other `$` is kept. */
  function Substitute(replacement: string, matched: string, before: string, after: string): string
    decreases |replacement|
  {
    if |replacement| == 0 then ""
    else if replacement[0] == '$' && |replacement| >= 2 then
      var c := replacement[1];
      if c == '$' then "$" + Substitute(replacement[2..], matched, before, after)
      else if c == '&' then matched + Substitute(replacement[2..], matched, before, after)
      else if c == '`' then before + Substitute(replacement[2..], matched, before, after)
      else if c == '\'' then after + Substitute(replacement[2..], matched, before, after)
      else [replacement[0]] + Substitute(replacement[1..], matched, before, after)
    else [replacement[0]] + Substitute(replacement[1..], matched, before, after)
  }

  /** A replacement without `$` is inserted literally. */
  lemma {:induction false} SubstituteLiteral(replacement: string, matched: string, before: string, after: string)
    requires '$' !in replacement
    ensures Substitute(replacement, matched, before, after) == replacement
  {
    if |replacement| > 0 {
      assert replacement[0] != '$';
      SubstituteLiteral(replacement[1..], matched, before, after);
      assert [replacement[0]] + replacement[1..] == replacement;
    }
  }

  /** The substitution of a replacement without `$`, when there is none. */
  lemma SubstituteLiteralIf(replacement: string, matched: string, before: string, after: string)
    ensures '$' !in replacement ==> Substitute(replacement, matched, before, after) == replacement
  {
    if '$' !in replacement {
      SubstituteLiteral(replacement, matched, before, after);
    }
  }

  /** `s.replace(re, replacement)` where `re` first matches the span [start, end): the text
      around the match is kept, and a replacement without `$` goes in as it is. */
  function ReplaceSpan(s: string, start: nat, end: nat, replacement: string): (r: string)
    requires start <= end <= |s|
    ensures start + (|s| - end) <= |r| && r[..start] == s[..start] && r[|r| - (|s| - end)..] == s[end..]
    ensures '$' !in replacement ==> r == s[..start] + replacement + s[end..]
  {
    SubstituteLiteralIf(replacement, s[start..end], s[..start], s[end..]);
    s[..start] + Substitute(replacement, s[start..end], s[..start], s[end..]) + s[end..]
  }

  /* ---------------- blocks and field text ---------------- */

  /** `<tag>[\s\S]*?</tag>` (case-insensitive): the span of its first match. */
  function BlockSpan(s: string, tag: string): (r: Option<(nat, nat)>)
    ensures r.Some? ==> r.value.0 + |Open(tag)| + |Close(tag)| <= r.value.1 <= |s|
    ensures r.Some? ==> MatchAt(s, r.value.0, Open(tag), true)
    ensures r.Some? ==> MatchAt(s, r.value.1 - |Close(tag)|, Close(tag), true)
    ensures r.Some? ==> forall j :: 0 <= j < r.value.0 ==> !MatchAt(s, j, Open(tag), true)
    ensures r.Some? ==> forall j :: r.value.0 + |Open(tag)| <= j < r.value.1 - |Close(tag)| ==>
      !MatchAt(s, j, Close(tag), true)
    ensures r.None? ==> forall p, c :: 0 <= p && p + |Open(tag)| <= c && MatchAt(s, p, Open(tag), true) ==>
      !MatchAt(s, c, Close(tag), true)
  {
    match IndexFrom(s, Open(tag), 0, true)
    case None => None
    case Some(p) =>
      match IndexFrom(s, Close(tag), p + |Open(tag)|, true)
      case None => None
      case Some(c) => Some((p, c + |Close(tag)|))
  }

  /* ---------------- searching a spliced text ---------------- */

  /** The first match at or after `from` is at `i` when `i` matches and nothing before it does. */
  lemma IndexFromIs(s: string, pat: string, from: nat, i: nat, fold: bool)
    requires from <= i && MatchAt(s, i, pat, fold)
    requires forall j :: from <= j < i ==> !MatchAt(s, j, pat, fold)
    ensures IndexFrom(s, pat, from, fold) == Some(i)
  {
  }

  /** Text that is `pat` itself matches `pat`. */
  lemma MatchLiteral(s: string, i: nat, pat: string, fold: bool)
    requires i + |pat| <= |s| && s[i..i + |pat|] == pat
    ensures MatchAt(s, i, pat, fold)
  {
    forall k | 0 <= k < |pat|
      ensures SameChar(s[i + k], pat[k], fold)
    {
      assert s[i + k] == s[i..i + |pat|][k];
    }
  }

  /** Splicing over [a, b) a replacement that opens with `pat`, where `s` has `pat` at `a`
      (ignoring case) and nowhere before, leaves the first match of `pat` at `a`. */
  lemma FirstMatchKept(s: string, a: nat, b: nat, repl: string, pat: string)
    requires a <= b <= |s| && MatchAt(s, a, pat, true)
    requires |pat| <= |repl| && repl[..|pat|] == pat
    requires forall j :: 0 <= j < a ==> !MatchAt(s, j, pat, true)
    ensures var t := s[..a] + repl + s[b..];
      IndexFrom(t, pat, 0, true) == Some(a) && t[a..a + |repl|] == repl
  {
    var t := s[..a] + repl + s[b..];
    assert t[a..a + |repl|] == repl;
    assert t[a..a + |pat|] == pat;
    MatchLiteral(t, a, pat, true);
    forall j | 0 <= j < a
      ensures !MatchAt(t, j, pat, true)
    {
      if MatchAt(t, j, pat, true) {
        forall k | 0 <= k < |pat|
          ensures SameChar(s[j + k], pat[k], true)
        {
          if j + k < a {
            assert t[j + k] == s[j + k];
          } else {
            assert t[j + k] == pat[j + k - a];
            assert SameChar(s[a + (j + k - a)], pat[j + k - a], true);
          }
        }
        assert MatchAt(s, j, pat, true);
      }
    }
    IndexFromIs(t, pat, 0, a, true);
  }

  /** Neither ending of the lazy capture, `</tag>` or `]]></tag>`, starts at `j` in `u`. */
  predicate NoEndAt(u: string, j: int, tag: string) {
    !MatchAt(u, j, Close(tag), true) && !MatchAt(u, j, CdataClose + Close(tag), true)
  }

  /** Where the lazy capture of tagText stops, when the first closing tag after `q` is at `e`
      and no `]]>` comes right before a closing tag in between. */
  lemma ContentEndIs(s: string, tag: string, q: nat, e: nat)
    requires q <= e && (MatchAt(s, e, CdataClose + Close(tag), true) || MatchAt(s, e, Close(tag), true))
    requires forall j :: q <= j < e ==> NoEndAt(s, j, tag)
    ensures ContentEnd(s, tag, q) == Some(e)
  {
    ContentEndFirst(s, tag, q);
    var r := ContentEnd(s, tag, q);
    assert !NoEndAt(s, e, tag);
    assert r.Some? ==> !NoEndAt(s, r.value, tag);
  }

  /** Text without `<` (no tag starts in it), `]` (no CDATA end) or `$` (no substitution
      pattern of `replace`). */
  predicate PlainText(v: string) {
    forall k :: 0 <= k < |v| ==> v[k] != '<' && v[k] != ']' && v[k] != '$'
  }

  /** A character of plain text never stands, case folded or not, for the `<` a tag opens with. */
  lemma NotTagStart(c: char, lt: char)
    requires c != '<' && lt == '<'
    ensures !SameChar(c, lt, true)
  {
  }

  /** A search for a tag from `from` finds the tag at `i` when only plain text lies between. */
  lemma TagAfterPlain(t: string, pat: string, from: nat, i: nat)
    requires from <= i && i + |pat| <= |t| && t[i..i + |pat|] == pat
    requires |pat| > 0 && pat[0] == '<' && PlainText(t[from..i])
    ensures IndexFrom(t, pat, from, true) == Some(i)
  {
    MatchLiteral(t, i, pat, true);
    forall j | from <= j < i
      ensures !MatchAt(t, j, pat, true)
    {
      assert t[j] == t[from..i][j - from];
      NotTagStart(t[j], pat[0]);
    }
    IndexFromIs(t, pat, from, i, true);
  }

  /** No CDATA section opens at `q` when `q` holds neither `<` nor the start of `</`. */
  lemma NoCdataAt(t: string, q: nat)
    requires q + 1 < |t| && (t[q] != '<' || t[q + 1] == '/')
    ensures !MatchAt(t, q, CdataOpen, true)
  {
    assert CdataOpen[0] == '<' && CdataOpen[1] == '!';
  }

  /** Plain text `v` from `q` to `e`, then `</tag>`: the lazy capture stops at `e`, and no
      CDATA section opens at `q`. */
  lemma PlainContent(t: string, tag: string, q: nat, e: nat, v: string)
    requires PlainText(v) && e == q + |v| && e + |Close(tag)| <= |t|
    requires t[q..e] == v && t[e..e + |Close(tag)|] == Close(tag)
    ensures ContentEnd(t, tag, q) == Some(e)
    ensures !MatchAt(t, q, CdataOpen, true)
  {
    MatchLiteral(t, e, Close(tag), true);
    forall j | q <= j < e
      ensures !MatchAt(t, j, Close(tag), true) && !MatchAt(t, j, CdataClose + Close(tag), true)
    {
      assert t[j] == v[j - q];
      assert !SameChar(t[j], Close(tag)[0], true);
      assert !SameChar(t[j], (CdataClose + Close(tag))[0], true);
    }
    ContentEndIs(t, tag, q, e);
    if |v| > 0 {
      assert t[q] == v[0];
    } else {
      assert t[q + 1] == Close(tag)[1];
    }
    NoCdataAt(t, q);
  }

  /** The capture when no CDATA section opens right after the first `<tag>`. */
  lemma CaptureWithoutCdata(t: string, tag: string, p: nat, q: nat, e: nat)
    requires q == p + |Open(tag)|
    requires !MatchAt(t, q, CdataOpen, true) && ContentEnd(t, tag, q) == Some(e)
    ensures CaptureAt(t, tag, p) == Some(t[q..e])
  {
    var a := p + |Open(tag)|;
    assert !MatchAt(t, a, CdataOpen, true);
  }

  /** The capture when a CDATA section opens right after the first `<tag>` and an ending
      follows it. */
  lemma CaptureWithCdata(t: string, tag: string, p: nat, c: nat, e: nat)
    requires c == p + |Open(tag)| + |CdataOpen| && MatchAt(t, p + |Open(tag)|, CdataOpen, true)
    requires ContentEnd(t, tag, c) == Some(e)
    ensures CaptureAt(t, tag, p) == Some(t[c..e])
  {
  }

  /** tagText trims what the pattern captures. */
  lemma TagTextOfCapture(t: string, tag: string, c: string)
    requires TagCapture(t, tag) == Some(c)
    ensures TagText(t, tag) == Trim(c)
  {
  }

  /** What the pattern captures, for the first `<tag>` at `p`. */
  lemma TagCaptureAt(t: string, tag: string, p: nat)
    requires IndexFrom(t, Open(tag), 0, true) == Some(p)
    ensures TagCapture(t, tag) == CaptureAt(t, tag, p)
  {
  }

  /** `<tag>` at `p`, then plain text `v` up to `e`, then `</tag>`: the tail of the pattern
      captures `v`. */
  lemma CaptureOfPlain(t: string, tag: string, p: nat, q: nat, e: nat, v: string)
    requires q == p + |Open(tag)| && PlainText(v) && e == q + |v| && e + |Close(tag)| <= |t|
    requires t[q..e] == v && t[e..e + |Close(tag)|] == Close(tag)
    ensures CaptureAt(t, tag, p) == Some(v)
  {
    PlainContent(t, tag, q, e, v);
    CaptureWithoutCdata(t, tag, p, q, e);
  }

  /** Where the parts of `x + (o + v + c) + y` sit. */
  lemma SpliceParts(x: string, o: string, v: string, c: string, y: string, q: nat, e: nat)
    requires q == |x| + |o| && e == q + |v|
    ensures var t := x + (o + v + c) + y;
      && e + |c| <= |t| && t[q..e] == v && t[e..e + |c|] == c
  {
    var t := x + (o + v + c) + y;
    assert t[q..e] == (o + v + c)[|o|..|o| + |v|];
    assert t[e..e + |c|] == (o + v + c)[|o| + |v|..];
  }

  /** `<tag>v</tag>` holds no `$` when neither `tag` nor `v` does. */
  lemma ElementLiteral(tag: string, v: string)
    requires PlainText(tag) && PlainText(v)
    ensures '$' !in Open(tag) + v + Close(tag)
  {
    assert Open(tag) + v + Close(tag) == "<" + tag + ">" + v + "</" + tag + ">";
  }

  /** Writing `<tag>v</tag>` over the first `<tag>` block, [a, b), spliced in as it is: the
      new block is the first one. */
  lemma ElementSpliced(s: string, tag: string, v: string, a: nat, b: nat)
    requires BlockSpan(s, tag) == Some((a, b)) && PlainText(tag) && PlainText(v)
    ensures ReplaceSpan(s, a, b, Open(tag) + v + Close(tag)) == s[..a] + (Open(tag) + v + Close(tag)) + s[b..]
    ensures IndexFrom(s[..a] + (Open(tag) + v + Close(tag)) + s[b..], Open(tag), 0, true) == Some(a)
  {
    var repl := Open(tag) + v + Close(tag);
    ElementLiteral(tag, v);
    assert repl[..|Open(tag)|] == Open(tag);
    FirstMatchKept(s, a, b, repl, Open(tag));
  }

  /** Writing `<tag>v</tag>` over the first `<tag>` block, [a, b): tagText reads `v` back,
      trimmed. */
  lemma ElementReplaced(s: string, tag: string, v: string, a: nat, b: nat)
    requires BlockSpan(s, tag) == Some((a, b)) && PlainText(tag) && PlainText(v)
    ensures TagText(ReplaceSpan(s, a, b, Open(tag) + v + Close(tag)), tag) == Trim(v)
  {
    ElementSpliced(s, tag, v, a, b);
    var t := s[..a] + (Open(tag) + v + Close(tag)) + s[b..];
    var q := a + |Open(tag)|;
    var e := q + |v|;
    SpliceParts(s[..a], Open(tag), v, Close(tag), s[b..], q, e);
    CaptureOfPlain(t, tag, a, q, e, v);
    TagCaptureAt(t, tag, a);
    TagTextOfCapture(t, tag, v);
  }

  /** Where `w` sits at `q` in `s`, a match inside `w` is a match in `s` and back. */
  lemma MatchShift(s: string, q: nat, w: string, j: nat, pat: string, fold: bool)
    requires q + |w| <= |s| && s[q..q + |w|] == w && j + |pat| <= |w|
    ensures MatchAt(s, q + j, pat, fold) <==> MatchAt(w, j, pat, fold)
  {
    forall i | q + j <= i < q + j + |pat|
      ensures s[i] == w[i - q]
    {
      assert s[i] == s[q..q + |w|][i - q];
    }
  }

  /** Neither ending of the lazy capture matches in `s` where none matches in `u`, which sits
      at `c` in `s`. */
  lemma NoEndShifted(s: string, c: nat, u: string, j: nat, tag: string)
    requires c + |u| <= |s| && s[c..c + |u|] == u && j + |CdataClose + Close(tag)| <= |u|
    requires NoEndAt(u, j, tag)
    ensures NoEndAt(s, c + j, tag)
  {
    MatchShift(s, c, u, j, Close(tag), true);
    MatchShift(s, c, u, j, CdataClose + Close(tag), true);
  }

  /** The text `v` of a CDATA section never holds `</tag>`, nor `]]></tag>` before its end. */
  predicate CdataBody(v: string, tag: string) {
    forall j :: 0 <= j < |v| ==> NoEndAt(v + CdataClose + Close(tag), j, tag)
  }

  /** A slice of the window `u`, which sits at `c` in `s`, is the same slice of `s`. */
  lemma WindowSlice(s: string, c: nat, u: string, a: nat, b: nat)
    requires c + |u| <= |s| && s[c..c + |u|] == u && a <= b <= |u|
    ensures s[c + a..c + b] == u[a..b]
  {
    assert forall i :: c + a <= i < c + b ==> s[i] == s[c..c + |u|][i - c];
  }

  /** `]]></tag>` follows the text `v` of a CDATA section. */
  lemma CdataEndAt(s: string, tag: string, c: nat, v: string, u: string)
    requires u == v + CdataClose + Close(tag)
    requires c + |u| <= |s| && s[c..c + |u|] == u
    ensures MatchAt(s, c + |v|, CdataClose + Close(tag), true)
  {
    var b := CdataClose + Close(tag);
    assert u[|v|..|u|] == b;
    WindowSlice(s, c, u, |v|, |u|);
    MatchLiteral(s, c + |v|, b, true);
  }

  /** Neither ending of the lazy capture matches inside the text of a CDATA section. */
  lemma NoEndInCdata(s: string, tag: string, c: nat, v: string, u: string)
    requires u == v + CdataClose + Close(tag)
    requires c + |u| <= |s| && s[c..c + |u|] == u
    requires CdataBody(v, tag)
    ensures forall j :: c <= j < c + |v| ==> NoEndAt(s, j, tag)
  {
    forall j | c <= j < c + |v|
      ensures NoEndAt(s, j, tag)
    {
      NoEndShifted(s, c, u, j - c, tag);
    }
  }

  /** The lazy capture started inside a CDATA section with text `v` stops right after `v`. */
  lemma EndOfCdataBody(s: string, tag: string, c: nat, v: string, u: string)
    requires u == v + CdataClose + Close(tag)
    requires c + |u| <= |s| && s[c..c + |u|] == u
    requires CdataBody(v, tag)
    ensures ContentEnd(s, tag, c) == Some(c + |v|)
  {
    CdataEndAt(s, tag, c, v, u);
    NoEndInCdata(s, tag, c, v, u);
    ContentEndIs(s, tag, c, c + |v|);
  }

  /** The CDATA opener at `q` matches, and the window at `c` opens with `v`. */
  lemma CdataWindow(s: string, q: nat, c: nat, v: string, u: string)
    requires c == q + |CdataOpen| && c + |u| <= |s| && |v| <= |u| && u[..|v|] == v
    requires s[q..c] == CdataOpen && s[c..c + |u|] == u
    ensures MatchAt(s, q, CdataOpen, true) && s[c..c + |v|] == v
  {
    MatchLiteral(s, q, CdataOpen, true);
    WindowSlice(s, c, u, 0, |v|);
  }

  /** `<tag>` at `p`, then a CDATA section with text `v`, then `</tag>`: the tail of the
      pattern captures `v`. */
  lemma CdataCapture(s: string, tag: string, p: nat, q: nat, c: nat, v: string)
    requires q == p + |Open(tag)| && c == q + |CdataOpen| && c + |v + CdataClose + Close(tag)| <= |s|
    requires s[q..c] == CdataOpen && s[c..c + |v + CdataClose + Close(tag)|] == v + CdataClose + Close(tag)
    requires CdataBody(v, tag)
    ensures CaptureAt(s, tag, p) == Some(v)
  {
    CdataWindow(s, q, c, v, v + CdataClose + Close(tag));
    EndOfCdataBody(s, tag, c, v, v + CdataClose + Close(tag));
    CaptureWithCdata(s, tag, p, c, c + |v|);
  }

  /** The first `<tag>` of `s`, at `p`, opens a CDATA section at `q` whose text `v` runs from
      `c` and is closed by `]]></tag>`: tagText gives `v` without the CDATA markers, trimmed. */
  lemma TagTextOfCdata(s: string, tag: string, p: nat, q: nat, c: nat, v: string)
    requires IndexFrom(s, Open(tag), 0, true) == Some(p)
    requires q == p + |Open(tag)| && c == q + |CdataOpen| && c + |v + CdataClose + Close(tag)| <= |s|
    requires s[q..c] == CdataOpen && s[c..c + |v + CdataClose + Close(tag)|] == v + CdataClose + Close(tag)
    requires CdataBody(v, tag)
    ensures TagText(s, tag) == Trim(v)
  {
    CdataCapture(s, tag, p, q, c, v);
    TagCaptureAt(s, tag, p);
    TagTextOfCapture(s, tag, v);
  }

  /** Text `v` that does not open a CDATA section and holds no `</tag>`, nor `]]></tag>`. */
  predicate PlainBody(v: string, tag: string) {
    var u := v + Close(tag);
    && !MatchAt(v, 0, CdataOpen, true)
    && forall j :: 0 <= j < |v| ==> NoEndAt(u, j, tag)
  }

  /** No CDATA section opens at `q` when the text there is `v` and then `</tag>`, and `v`
      itself does not open one; the text from `q` is `v`. */
  lemma NoCdataBefore(s: string, tag: string, q: nat, v: string, u: string)
    requires u == v + Close(tag) && q + |u| <= |s| && s[q..q + |u|] == u
    requires !MatchAt(v, 0, CdataOpen, true)
    ensures !MatchAt(s, q, CdataOpen, true) && s[q..q + |v|] == v
  {
    assert u[..|v|] == v;
    WindowSlice(s, q, u, 0, |v|);
    if |v| >= |CdataOpen| {
      MatchShift(s, q, u, 0, CdataOpen, true);
      MatchShift(u, 0, v, 0, CdataOpen, true);
    } else if |v| == 0 {
      assert s[q + 1] == u[1] == '/';
      assert !SameChar(s[q + 1], CdataOpen[1], true);
    } else {
      assert s[q + |v|] == u[|v|] == '<';
      assert !SameChar(s[q + |v|], CdataOpen[|v|], true);
    }
  }

  /** No `]]></tag>` starts in the last two characters before `</tag>`. */
  lemma NoCdataCloseAtEnd(s: string, tag: string, j: nat, e: nat)
    requires j < e < j + |CdataClose| && e + |Close(tag)| <= |s| && s[e] == '<'
    ensures !MatchAt(s, j, CdataClose + Close(tag), true)
  {
    assert (CdataClose + Close(tag))[e - j] == CdataClose[e - j] != '<';
    assert !SameChar(s[j + (e - j)], (CdataClose + Close(tag))[e - j], true);
  }

  /** `</tag>` follows the text `v`. */
  lemma PlainEndAt(s: string, tag: string, q: nat, v: string, u: string)
    requires u == v + Close(tag)
    requires q + |u| <= |s| && s[q..q + |u|] == u
    ensures MatchAt(s, q + |v|, Close(tag), true) && s[q + |v|] == '<'
  {
    assert u[|v|..|u|] == Close(tag);
    WindowSlice(s, q, u, |v|, |u|);
    MatchLiteral(s, q + |v|, Close(tag), true);
    assert s[q + |v|] == s[q + |v|..q + |u|][0];
  }

  /** Where `u` sits at `q` and `</tag>` at `q + n`, neither ending matches at `q + i` in `s`
      when none matches at `i` in `u`. */
  lemma NoEndBeforeClose(s: string, tag: string, q: nat, u: string, n: nat, i: nat)
    requires q + |u| <= |s| && s[q..q + |u|] == u && n + |Close(tag)| == |u| && i < n && s[q + n] == '<'
    requires NoEndAt(u, i, tag)
    ensures NoEndAt(s, q + i, tag)
  {
    if i + |CdataClose + Close(tag)| <= |u| {
      NoEndShifted(s, q, u, i, tag);
    } else {
      MatchShift(s, q, u, i, Close(tag), true);
      NoCdataCloseAtEnd(s, tag, q + i, q + n);
    }
  }

  /** Neither ending of the lazy capture matches inside text that PlainBody admits. */
  lemma NoEndInPlain(s: string, tag: string, q: nat, v: string, u: string)
    requires u == v + Close(tag)
    requires q + |u| <= |s| && s[q..q + |u|] == u && s[q + |v|] == '<'
    requires PlainBody(v, tag)
    ensures forall j :: q <= j < q + |v| ==> NoEndAt(s, j, tag)
  {
    forall j | q <= j < q + |v|
      ensures NoEndAt(s, j, tag)
    {
      NoEndBeforeClose(s, tag, q, u, |v|, j - q);
    }
  }

  /** The lazy capture started before text `v` and `</tag>` stops right after `v`. */
  lemma EndOfPlainBody(s: string, tag: string, q: nat, v: string, u: string)
    requires u == v + Close(tag)
    requires q + |u| <= |s| && s[q..q + |u|] == u
    requires PlainBody(v, tag)
    ensures ContentEnd(s, tag, q) == Some(q + |v|)
  {
    PlainEndAt(s, tag, q, v, u);
    NoEndInPlain(s, tag, q, v, u);
    ContentEndIs(s, tag, q, q + |v|);
  }

  /** `<tag>` at `p`, then text `v` that PlainBody admits, then `</tag>`: the tail of the
      pattern captures `v`. */
  lemma PlainCapture(s: string, tag: string, p: nat, q: nat, v: string)
    requires q == p + |Open(tag)| && q + |v + Close(tag)| <= |s| && s[q..q + |v + Close(tag)|] == v + Close(tag)
    requires PlainBody(v, tag)
    ensures CaptureAt(s, tag, p) == Some(v)
  {
    var u := v + Close(tag);
    NoCdataBefore(s, tag, q, v, u);
    EndOfPlainBody(s, tag, q, v, u);
    CaptureWithoutCdata(s, tag, p, q, q + |v|);
  }

  /** The first `<tag>` of `s`, at `p`, is followed by text `v` and `</tag>`: tagText gives
      `v`, trimmed, even when `v` holds `<` or `]`. */
  lemma TagTextOfContent(s: string, tag: string, p: nat, q: nat, v: string)
    requires IndexFrom(s, Open(tag), 0, true) == Some(p)
    requires q == p + |Open(tag)| && q + |v + Close(tag)| <= |s| && s[q..q + |v + Close(tag)|] == v + Close(tag)
    requires PlainBody(v, tag)
    ensures TagText(s, tag) == Trim(v)
  {
    PlainCapture(s, tag, p, q, v);
    TagCaptureAt(s, tag, p);
    TagTextOfCapture(s, tag, v);
  }

  /** `m ? m[0] : ''` for the block pattern. */
  function FirstBlock(s: string, tag: string): string {
    match BlockSpan(s, tag)
    case None => ""
    case Some((a, b)) => s[a..b]
  }

  /** The first index at or after `q` where `]]></tag>` or `</tag>` follows: where the lazy
      group of the tagText pattern stops. */
  function ContentEnd(s: string, tag: string, q: nat): (r: Option<nat>)
    ensures r.Some? ==> q <= r.value
    ensures r.Some? ==> MatchAt(s, r.value, CdataClose + Close(tag), true) || MatchAt(s, r.value, Close(tag), true)
    decreases |s| - q
  {
    if q + |Close(tag)| > |s| then None
    else if MatchAt(s, q, CdataClose + Close(tag), true) || MatchAt(s, q, Close(tag), true) then Some(q)
    else ContentEnd(s, tag, q + 1)
  }

  /** ContentEnd finds the first ending: neither `</tag>` nor `]]></tag>` starts between `q`
      and the index it returns, and none starts after `q` when it returns nothing. */
  lemma {:induction false} ContentEndFirst(s: string, tag: string, q: nat)
    ensures ContentEnd(s, tag, q).Some? ==> forall j :: q <= j < ContentEnd(s, tag, q).value ==>
      NoEndAt(s, j, tag)
    ensures ContentEnd(s, tag, q).None? ==> forall j :: q <= j ==>
      NoEndAt(s, j, tag)
    decreases |s| - q
  {
    if q + |Close(tag)| > |s| {
    } else if MatchAt(s, q, CdataClose + Close(tag), true) || MatchAt(s, q, Close(tag), true) {
    } else {
      ContentEndFirst(s, tag, q + 1);
    }
  }

  /** The capture of `<tag>(?:<![CDATA[)?([\s\S]*?)(?:]]>)?</tag>` (case-insensitive), if
      any, for the first `<tag>`. */
  function TagCapture(s: string, tag: string): Option<string> {
    match IndexFrom(s, Open(tag), 0, true)
    case None => None
    case Some(p) => CaptureAt(s, tag, p)
  }

  /** The capture of the pattern's tail when its `<tag>` is at `p`: the optional CDATA opener
      is taken when present, and dropped again only when no ending follows it. */
  function CaptureAt(s: string, tag: string, p: nat): Option<string> {
    var a := p + |Open(tag)|;
    var afterCdata := if MatchAt(s, a, CdataOpen, true) then ContentEnd(s, tag, a + |CdataOpen|) else None;
    if afterCdata.Some? then Some(s[a + |CdataOpen|..afterCdata.value])
    else
      match ContentEnd(s, tag, a)
      case None => None
      case Some(e) => Some(s[a..e])
  }

  /** `tagText(xml, tag)`, and `tagTextFrom`, whose `!section` guard gives the same ''. */
  function TagText(s: string, tag: string): (r: string)
    ensures Trimmed(r)
    ensures TagCapture(s, tag).None? ==> r == ""
  {
    match TagCapture(s, tag)
    case None => ""
    case Some(c) => Trim(c)
  }

  /** `^\s*<tag>[\s\S]*?</tag>\s*$` (and the greedy `[\s\S]*` variant, which matches the same
      inputs): after the leading white space the input opens with `<tag>`, and before the
      trailing white space it closes with `</tag>`. The match is always the whole input. */
  predicate Solo(s: string, tag: string) {
    var a := |s| - |TrimStart(s)|;
    var e := |TrimEnd(s)|;
    && MatchAt(s, a, Open(tag), true)
    && a + |Open(tag)| + |Close(tag)| <= e
    && MatchAt(s, e - |Close(tag)|, Close(tag), true)
  }

  /** `firstPppBlockFromAny` / `firstWanBlockFromAny`: the whole input when it is a lone block,
      else the first block, else ''. */
  function FirstBlockFromAny(s: string, tag: string): (r: string)
    ensures Solo(s, tag) ==> r == s
    ensures !Solo(s, tag) ==> r == FirstBlock(s, tag)
  {
    if Solo(s, tag) then s else FirstBlock(s, tag)
  }

  /** `<tag>` and `</tag>` both occur (hasInterfacesWrapper, hasFilterWrapper). */
  predicate HasWrapper(s: string, tag: string) {
    Contains(s, Open(tag), true) && Contains(s, Close(tag), true)
  }

  /** `getFirstPppBlock`: `<ppps>[\s\S]*?<ppp>[\s\S]*?</ppp>[\s\S]*?</ppps>`, or ''. The
      block is found exactly when the lazy chain after the first `<ppps>` is complete, and it
      runs from that `<ppps>` to the end of the chain's `</ppps>`. */
  function FirstPppsBlock(s: string): (r: string)
    ensures r != "" <==>
      IndexFrom(s, Open("ppps"), 0, true).Some? && PppsChain(s, IndexFrom(s, Open("ppps"), 0, true).value).Some?
    ensures r != "" ==> var p := IndexFrom(s, Open("ppps"), 0, true).value;
      r == s[p..PppsChain(s, p).value.2 + 7]
    ensures r != "" ==> (
      && IndexFrom(s, Open("ppps"), 0, true).Some?
      && var p := IndexFrom(s, Open("ppps"), 0, true).value;
      && |Open("ppps")| + |Close("ppps")| <= |r| && p + |r| <= |s| && r == s[p..p + |r|])
  {
    match IndexFrom(s, Open("ppps"), 0, true)
    case None => ""
    case Some(p) =>
      match PppsChain(s, p)
      case None => ""
      case Some((q, c, t)) =>
        assert |s[p..t + 7]| == t + 7 - p;
        s[p..t + 7]
  }

  /** The lazy `<ppp>[\s\S]*?</ppp>[\s\S]*?</ppps>` after the `<ppps>` at `p`: the positions of
      its `<ppp>`, `</ppp>` and `</ppps>`. */
  function PppsChain(s: string, p: nat): (r: Option<(nat, nat, nat)>)
    requires MatchAt(s, p, Open("ppps"), true)
    ensures r.Some? ==> var (q, c, t) := r.value;
      && p + 6 <= q && q + 5 <= c && c + 6 <= t && t + 7 <= |s|
      && MatchAt(s, q, Open("ppp"), true) && MatchAt(s, c, Close("ppp"), true)
      && MatchAt(s, t, Close("ppps"), true)
  {
    match IndexFrom(s, Open("ppp"), p + 6, true)
    case None => None
    case Some(q) =>
      match IndexFrom(s, Close("ppp"), q + 5, true)
      case None => None
      case Some(c) =>
        match IndexFrom(s, Close("ppps"), c + 6, true)
        case None => None
        case Some(t) => Some((q, c, t))
  }

  /** PppsChain takes the first match of each of the three tags in turn, and finds nothing
      only when no `<ppp>`, `</ppp>`, `</ppps>` follow one another after the `<ppps>`. */
  lemma PppsChainFirst(s: string, p: nat)
    requires MatchAt(s, p, Open("ppps"), true)
    ensures PppsChain(s, p).Some? ==> var (q, c, t) := PppsChain(s, p).value;
      && (forall j :: p + 6 <= j < q ==> !MatchAt(s, j, Open("ppp"), true))
      && (forall j :: q + 5 <= j < c ==> !MatchAt(s, j, Close("ppp"), true))
      && (forall j :: c + 6 <= j < t ==> !MatchAt(s, j, Close("ppps"), true))
    ensures PppsChain(s, p).None? ==> forall q, c, t ::
      && p + 6 <= q && q + 5 <= c && c + 6 <= t
      && MatchAt(s, q, Open("ppp"), true) && MatchAt(s, c, Close("ppp"), true)
      ==> !MatchAt(s, t, Close("ppps"), true)
  {
  }

  /** getFirstPppBlock gives '' exactly when no `<ppps>`, `<ppp>`, `</ppp>`, `</ppps>` follow
      one another anywhere in the text. */
  lemma FirstPppsBlockEmpty(s: string)
    ensures FirstPppsBlock(s) == "" <==> forall p, q, c, t ::
      && p + 6 <= q && q + 5 <= c && c + 6 <= t
      && MatchAt(s, p, Open("ppps"), true) && MatchAt(s, q, Open("ppp"), true) && MatchAt(s, c, Close("ppp"), true)
      ==> !MatchAt(s, t, Close("ppps"), true)
  {
    match IndexFrom(s, Open("ppps"), 0, true)
    case None =>
    case Some(p0) =>
      PppsChainFirst(s, p0);
      match PppsChain(s, p0)
      case None =>
      case Some((q, c, t)) =>
        assert MatchAt(s, p0, Open("ppps"), true) && MatchAt(s, t, Close("ppps"), true);
  }

  /* ---------------- splicing ---------------- */

  /** `insertBeforeClose`: `content` goes right before the last (case-sensitive) `</tag>`. */
  function InsertBeforeClose(xml: string, tag: string, content: string): (r: Result<string>)
    ensures r.Err? <==> forall j :: !MatchAt(xml, j, Close(tag), false)
    ensures r.Err? ==> r.error == MissingClosingTag(tag)
    ensures r.Ok? ==> var i := LastIndexOf(xml, Close(tag)).value;
      && |r.value| == |xml| + |content|
      && r.value[..i] == xml[..i]
      && r.value[i..i + |content|] == content
      && r.value[i + |content|..] == xml[i..]
  {
    match LastIndexOf(xml, Close(tag))
    case None => Err(MissingClosingTag(tag))
    case Some(i) =>
      var out := xml[..i] + content + xml[i..];
      assert out[i + |content|..] == xml[i..];
      Ok(out)
  }

  /** The end of the first match of `<tag[^>]*>` (case-insensitive): the first `<tag` that a
      `>` follows, up to and including that `>`. */
  function OpenTagEnd(s: string, tag: string): (r: Option<nat>)
    ensures r.Some? ==> 0 < r.value <= |s| && s[r.value - 1] == '>'
  {
    match IndexFrom(s, "<" + tag, 0, true)
    case None => None
    case Some(p) =>
      match IndexFrom(s, ">", p + 1 + |tag|, false)
      case None => None
      case Some(g) =>
        assert SameChar(s[g + 0], ">"[0], false);
        Some(g + 1)
  }

  /** `insertAfterOpen`: a newline and `content` go right after the first opening tag. */
  function InsertAfterOpen(xml: string, tag: string, content: string): (r: Result<string>)
    ensures r.Err? <==> OpenTagEnd(xml, tag).None?
    ensures r.Err? ==> r.error == MissingOpeningTag(tag)
    ensures r.Ok? ==> var at := OpenTagEnd(xml, tag).value;
      && |r.value| == |xml| + 1 + |content|
      && r.value[..at] == xml[..at]
      && r.value[at..at + 1 + |content|] == "\n" + content
      && r.value[at + 1 + |content|..] == xml[at..]
  {
    match OpenTagEnd(xml, tag)
    case None => Err(MissingOpeningTag(tag))
    case Some(at) =>
      var out := xml[..at] + "\n" + content + xml[at..];
      assert out[at + 1 + |content|..] == xml[at..];
      Ok(out)
  }

  /** A capture is a piece of its input, so it holds no `pat` when the input holds none. */
  lemma CaptureAbsent(s: string, tag: string, p: nat, pat: string, fold: bool)
    requires |pat| > 0 && Absent(s, pat, fold)
    ensures CaptureAt(s, tag, p).Some? ==> Absent(CaptureAt(s, tag, p).value, pat, fold)
  {
    var a := p + |Open(tag)|;
    var b := a + |CdataOpen|;
    ContentEndBound(s, tag, b);
    ContentEndBound(s, tag, a);
    if MatchAt(s, a, CdataOpen, true) && ContentEnd(s, tag, b).Some? {
      AbsentSlice(s, b, ContentEnd(s, tag, b).value, pat, fold);
    } else if ContentEnd(s, tag, a).Some? {
      AbsentSlice(s, a, ContentEnd(s, tag, a).value, pat, fold);
    }
  }

  /** An ending lies inside the text. */
  lemma ContentEndBound(s: string, tag: string, q: nat)
    ensures ContentEnd(s, tag, q).Some? ==> q <= ContentEnd(s, tag, q).value <= |s|
  {
  }

  /** tagText of a text without `pat` holds no `pat`. */
  lemma TagTextAbsent(s: string, tag: string, pat: string, fold: bool)
    requires |pat| > 0 && Absent(s, pat, fold)
    ensures Absent(TagText(s, tag), pat, fold)
  {
    match IndexFrom(s, Open(tag), 0, true)
    case None =>
    case Some(p) =>
      CaptureAbsent(s, tag, p, pat, fold);
      if CaptureAt(s, tag, p).Some? {
        TrimAbsent(CaptureAt(s, tag, p).value, pat, fold);
      }
  }

  /** The first `<ppps>` block of a text without `pat` holds no `pat`. */
  lemma FirstPppsBlockAbsent(s: string, pat: string, fold: bool)
    requires |pat| > 0 && Absent(s, pat, fold)
    ensures Absent(FirstPppsBlock(s), pat, fold)
  {
    var r := FirstPppsBlock(s);
    if r != "" {
      var p := IndexFrom(s, Open("ppps"), 0, true).value;
      AbsentSlice(s, p, p + |r|, pat, fold);
    }
  }

  /** insertBeforeClose creates no tag: the text before the closing tag, the content and the
      closing tag onwards hold none, the content does not begin inside one, and the closing
      tag begins with `<`. */
  lemma InsertBeforeCloseAbsent(xml: string, tag: string, content: string, pat: string, fold: bool)
    requires InsertBeforeClose(xml, tag, content).Ok?
    requires TagPattern(pat) && Absent(xml, pat, fold) && Absent(content, pat, fold)
    requires StartSafe(content, pat, fold)
    ensures Absent(InsertBeforeClose(xml, tag, content).value, pat, fold)
  {
    var i := LastIndexOf(xml, Close(tag)).value;
    var a, b := xml[..i], xml[i..];
    assert InsertBeforeClose(xml, tag, content).value == a + content + b;
    AbsentSlice(xml, 0, i, pat, fold);
    assert xml[0..i] == a;
    AbsentSlice(xml, i, |xml|, pat, fold);
    assert xml[i..|xml|] == b;
    assert b[0] == xml[i + 0] == Close(tag)[0] == '<';
    AnchorStartSafe(b, pat, fold);
    if |content| > 0 {
      AbsentJoin(a, content, pat, fold);
    } else {
      assert a + content == a;
    }
    AbsentJoin(a + content, b, pat, fold);
  }

  /* ---------------- an opening tag that is never closed ---------------- */

  /** No `>` follows any occurrence of `pat`, so `pat[^>]*>` has no match. */
  predicate Unclosed(s: string, pat: string, fold: bool) {
    forall j, g :: 0 <= j < |s| && MatchAt(s, j, pat, fold) && j + |pat| <= g < |s| ==> s[g] != '>'
  }

  /** `<tag[^>]*>` (case-insensitive) has no match exactly when no `>` follows any `<tag`. */
  lemma UnclosedIff(s: string, tag: string)
    ensures OpenTagEnd(s, tag).None? <==> Unclosed(s, "<" + tag, true)
  {
    var pat := "<" + tag;
    match IndexFrom(s, pat, 0, true)
    case None =>
    case Some(p) =>
      match IndexFrom(s, ">", p + 1 + |tag|, false)
      case None =>
        forall j, g | MatchAt(s, j, pat, true) && j + |pat| <= g < |s| ensures s[g] != '>' {
          assert !MatchAt(s, g, ">", false);
          assert !SameChar(s[g + 0], ">"[0], false);
        }
      case Some(g) =>
        assert SameChar(s[g + 0], ">"[0], false);
        assert MatchAt(s, p, pat, true) && p + |pat| <= g < |s| && s[g] == '>';
  }

  /** Where `pat` is never closed and holds no `>`, the text up to and including a `>` holds
      no `pat`. */
  lemma UnclosedBefore(s: string, pat: string, fold: bool, k: nat)
    requires |pat| > 0 && NotIn('>', pat, fold) && Unclosed(s, pat, fold)
    requires k < |s| && s[k] == '>'
    ensures Absent(s[..k + 1], pat, fold)
  {
    var t := s[..k + 1];
    forall j | 0 <= j < |t| ensures !MatchAt(t, j, pat, fold) {
      if j + |pat| <= k {
        assert !MatchAt(s, j, pat, fold);
        assert forall x :: j <= x < j + |pat| ==> t[x] == s[x];
      } else if j + |pat| == k + 1 {
        assert t[j + (|pat| - 1)] == '>';
        assert !SameChar('>', pat[|pat| - 1], fold);
      }
    }
  }

  /** The first `<ppps>` block of a text where `pat` is never closed holds no `pat`: the block
      ends with `>`. */
  lemma FirstPppsBlockUnclosed(s: string, pat: string, fold: bool)
    requires |pat| > 0 && NotIn('>', pat, fold) && Unclosed(s, pat, fold)
    ensures Absent(FirstPppsBlock(s), pat, fold)
  {
    var r := FirstPppsBlock(s);
    if r != "" {
      var p := IndexFrom(s, Open("ppps"), 0, true).value;
      var e := PppsChain(s, p).value.2 + 7;
      assert SameChar(s[(e - 7) + 6], Close("ppps")[6], true);
      assert s[e - 1] == '>';
      UnclosedBefore(s, pat, fold, e - 1);
      AbsentSlice(s[..e], p, e, pat, fold);
      assert s[..e][p..e] == r;
    }
  }

  /** insertBeforeClose keeps `pat` unclosed when the content holds none and does not begin
      inside one: no `pat` lies before the closing tag, which ends with `>`, and everything from
      the closing tag on is the input's own text. */
  lemma InsertBeforeCloseUnclosed(xml: string, tag: string, content: string, pat: string, fold: bool)
    requires InsertBeforeClose(xml, tag, content).Ok?
    requires Anchored(pat) && NotIn('>', pat, fold) && Unclosed(xml, pat, fold)
    requires Absent(content, pat, fold) && StartSafe(content, pat, fold)
    ensures Unclosed(InsertBeforeClose(xml, tag, content).value, pat, fold)
  {
    var i := LastIndexOf(xml, Close(tag)).value;
    var k := i + |Close(tag)| - 1;
    var out := InsertBeforeClose(xml, tag, content).value;
    var a, b := xml[..i], xml[i..];
    assert out == a + content + b;
    assert SameChar(xml[i + (|Close(tag)| - 1)], Close(tag)[|Close(tag)| - 1], false);
    UnclosedBefore(xml, pat, fold, k);
    AbsentSlice(xml[..k + 1], 0, i, pat, fold);
    assert xml[..k + 1][0..i] == a;
    if |content| > 0 {
      AbsentJoin(a, content, pat, fold);
    } else {
      assert a + content == a;
    }
    assert b[0] == xml[i + 0] == Close(tag)[0] == '<';
    UnclosedSuffix(xml, i, pat, fold);
    UnclosedJoin(a + content, b, pat, fold);
  }

  /** A text where `pat` is never closed keeps it never closed from any point on. */
  lemma UnclosedSuffix(s: string, i: nat, pat: string, fold: bool)
    requires i <= |s| && Unclosed(s, pat, fold)
    ensures Unclosed(s[i..], pat, fold)
  {
    var b := s[i..];
    forall j, g | 0 <= j < |b| && MatchAt(b, j, pat, fold) && j + |pat| <= g < |b| ensures b[g] != '>' {
      assert forall x :: j <= x < j + |pat| ==> b[x] == s[i + x];
      assert MatchAt(s, i + j, pat, fold);
    }
  }

  /** A text without `pat` followed by one that starts with `<` and leaves `pat` unclosed
      leaves `pat` unclosed. */
  lemma UnclosedJoin(h: string, b: string, pat: string, fold: bool)
    requires Anchored(pat) && Absent(h, pat, fold)
    requires |b| > 0 && b[0] == '<' && Unclosed(b, pat, fold)
    ensures Unclosed(h + b, pat, fold)
  {
    var out := h + b;
    AnchorStartSafe(b, pat, fold);
    forall j | 0 <= j < |h| ensures !MatchAt(out, j, pat, fold) {
      if j + |pat| <= |h| {
        assert !MatchAt(h, j, pat, fold);
        assert forall x :: j <= x < j + |pat| ==> out[x] == h[x];
      } else if j + |pat| <= |out| {
        assert out[j + (|h| - j)] == b[0];
        assert !SameChar(b[0], pat[|h| - j], fold);
      }
    }
    forall j, g | 0 <= j < |out| && MatchAt(out, j, pat, fold) && j + |pat| <= g < |out| ensures out[g] != '>' {
      assert forall x :: |h| <= x < |out| ==> out[x] == b[x - |h|];
      assert MatchAt(b, j - |h|, pat, fold);
    }
  }

  /** Taking the inserted text out again gives back the input, byte for byte. */
  lemma InsertBeforeCloseUndo(xml: string, tag: string, content: string)
    requires InsertBeforeClose(xml, tag, content).Ok?
    ensures var r := InsertBeforeClose(xml, tag, content).value;
      var i := LastIndexOf(xml, Close(tag)).value;
      r[..i] + r[i + |content|..] == xml
  {
    var i := LastIndexOf(xml, Close(tag)).value;
    assert xml == xml[..i] + xml[i..];
  }

  lemma InsertAfterOpenUndo(xml: string, tag: string, content: string)
    requires InsertAfterOpen(xml, tag, content).Ok?
    ensures var r := InsertAfterOpen(xml, tag, content).value;
      var at := OpenTagEnd(xml, tag).value;
      r[..at] + r[at + 1 + |content|..] == xml
  {
    var at := OpenTagEnd(xml, tag).value;
    assert xml == xml[..at] + xml[at..];
  }

  /** A pattern whose only possible `<` is its first character cannot straddle a `<`: a
      match survives text spliced in just before a `<`, moved along when it starts there. */
  lemma SpliceKeepsMatch(xml: string, i: nat, content: string, pat: string, fold: bool, j: nat)
    requires i < |xml| && xml[i] == '<'
    requires forall k :: 1 <= k < |pat| ==> pat[k] != '<'
    requires MatchAt(xml, j, pat, fold)
    ensures MatchAt(xml[..i] + content + xml[i..], if j + |pat| <= i then j else j + |content|, pat, fold)
  {
    var r := xml[..i] + content + xml[i..];
    if j + |pat| <= i {
      assert forall k :: 0 <= k < |pat| ==> r[j + k] == xml[j + k] && SameChar(r[j + k], pat[k], fold);
    } else {
      assert j >= i by {
        assert i <= j || SameChar(xml[j + (i - j)], pat[i - j], fold);
      }
      assert forall k :: 0 <= k < |pat| ==> r[j + |content| + k] == xml[j + k] && SameChar(r[j + |content| + k], pat[k], fold);
    }
  }

  /** insertBeforeClose keeps every match of such a pattern: a closing tag that was there is
      still there. */
  lemma InsertBeforeCloseKeeps(xml: string, tag: string, content: string, pat: string, fold: bool, j: nat)
    requires InsertBeforeClose(xml, tag, content).Ok?
    requires forall k :: 1 <= k < |pat| ==> pat[k] != '<'
    requires MatchAt(xml, j, pat, fold)
    ensures MatchAt(InsertBeforeClose(xml, tag, content).value, if j + |pat| <= LastIndexOf(xml, Close(tag)).value then j else j + |content|, pat, fold)
  {
    var i := LastIndexOf(xml, Close(tag)).value;
    assert SameChar(xml[i + 0], Close(tag)[0], false);
    SpliceKeepsMatch(xml, i, content, pat, fold, j);
  }

  /** `<tag[^>]*>` matches as soon as some `<tag` (any case) has a `>` after it. */
  lemma OpenTagEndOf(s: string, tag: string, p: nat, g: nat)
    requires MatchAt(s, p, "<" + tag, true)
    requires p + 1 + |tag| <= g && MatchAt(s, g, ">", false)
    ensures OpenTagEnd(s, tag).Some?
  {
  }

  /** insertBeforeClose keeps an opening `<tag…>` that was there (for a tag without `<`). */
  lemma InsertBeforeCloseKeepsOpen(xml: string, tag: string, content: string, open: string)
    requires InsertBeforeClose(xml, tag, content).Ok?
    requires forall k :: 0 <= k < |open| ==> open[k] != '<'
    requires OpenTagEnd(xml, open).Some?
    ensures OpenTagEnd(InsertBeforeClose(xml, tag, content).value, open).Some?
  {
    var p := IndexFrom(xml, "<" + open, 0, true).value;
    var g := OpenTagEnd(xml, open).value - 1;
    assert MatchAt(xml, g, ">", false);
    var i := LastIndexOf(xml, Close(tag)).value;
    InsertBeforeCloseKeeps(xml, tag, content, "<" + open, true, p);
    InsertBeforeCloseKeeps(xml, tag, content, ">", false, g);
    var r := InsertBeforeClose(xml, tag, content).value;
    OpenTagEndOf(r, open, if p + 1 + |open| <= i then p else p + |content|, if g + 1 <= i then g else g + |content|);
  }

  /* ---------------- <optN> tags ---------------- */

  /** `<opt(\d+)>` at `p`: the number and the index just past the `>`. */
  function OptTagAt(s: string, p: nat, fold: bool): (r: Option<(nat, nat)>)
    ensures r.Some? ==> p < r.value.1 <= |s|
  {
    if MatchAt(s, p, "<opt", fold) then
      var n := DigitRun(s[p + 4..]);
      if n > 0 && p + 4 + n < |s| && s[p + 4 + n] == '>' then
        Some((DigitsValue(s[p + 4..][..n]), p + 5 + n))
      else None
    else None
  }

  /** The largest number of the `<opt(\d+)>` matches from `from` on (scanning like `matchAll`),
      0 when there are none. */
  function MaxOptFrom(s: string, from: nat): nat
    decreases |s| - from
  {
    if from >= |s| then 0
    else
      match OptTagAt(s, from, false)
      case None => MaxOptFrom(s, from + 1)
      case Some((v, e)) =>
        var rest := MaxOptFrom(s, e);
        if v >= rest then v else rest
  }

  /** It is at least every match's number from `from` on ... */
  lemma {:induction false} MaxOptFromAbove(s: string, from: nat)
    ensures forall p, v, e :: from <= p && OptTagAt(s, p, false) == Some((v, e)) ==> v <= MaxOptFrom(s, from)
    decreases |s| - from
  {
    if from < |s| {
      match OptTagAt(s, from, false)
      case None => MaxOptFromAbove(s, from + 1);
      case Some((v, e)) =>
        MaxOptFromAbove(s, e);
        OptTagSkip(s, from, e);
    }
  }

  /** ... and, unless 0, the number of one of them. */
  lemma {:induction false} MaxOptFromAttained(s: string, from: nat)
    ensures MaxOptFrom(s, from) == 0
         || exists p :: from <= p < |s| && OptTagAt(s, p, false).Some? && OptTagAt(s, p, false).value.0 == MaxOptFrom(s, from)
    decreases |s| - from
  {
    if from < |s| {
      match OptTagAt(s, from, false)
      case None => MaxOptFromAttained(s, from + 1);
      case Some((v, e)) => MaxOptFromAttained(s, e);
    }
  }

  /** No `<opt(\d+)>` match starts inside another one. */
  lemma OptTagSkip(s: string, p: nat, e: nat)
    requires OptTagAt(s, p, false).Some? && OptTagAt(s, p, false).value.1 == e
    ensures forall j :: p < j < e ==> OptTagAt(s, j, false).None?
  {
    forall j | p < j < e ensures OptTagAt(s, j, false).None? {
      var n := DigitRun(s[p + 4..]);
      if j < p + 4 {
        assert SameChar(s[p + (j - p)], "<opt"[j - p], false);
      } else if j < p + 4 + n {
        assert s[j] == s[p + 4..][..n][j - p - 4];
      }
      assert s[j] != '<';
      assert !SameChar(s[j + 0], "<opt"[0], false);
    }
  }

  /** `maxOptIndex`: the case-sensitive `/<opt(\d+)>/g`, so `<OPT3>` is not seen. */
  function MaxOptIndex(s: string): (r: nat)
    ensures forall p, v, e :: OptTagAt(s, p, false) == Some((v, e)) ==> v <= r
    ensures r == 0 || exists p :: 0 <= p < |s| && OptTagAt(s, p, false).Some? && OptTagAt(s, p, false).value.0 == r
  {
    MaxOptFromAbove(s, 0);
    MaxOptFromAttained(s, 0);
    MaxOptFrom(s, 0)
  }

  /** The number of `/<opt\d+>/gi` matches from `from` on. */
  function CountOptFrom(s: string, from: nat): nat
    decreases |s| - from
  {
    if from >= |s| then 0
    else
      match OptTagAt(s, from, true)
      case None => CountOptFrom(s, from + 1)
      case Some((_, e)) => 1 + CountOptFrom(s, e)
  }

  /* ---------------- name splitters ---------------- */

  /** `^([a-zA-Z]+)(\d+)$`: a run of letters, then digits to the end. */
  function MatchIfName(s: string): (r: Option<(string, nat)>)
    ensures r.Some? ==> |r.value.0| > 0 && AllLetters(r.value.0)
  {
    var k := LetterRun(s);
    if k > 0 && k < |s| && AllDigits(s[k..]) then Some((s[..k], DigitsValue(s[k..])))
    else None
  }

  function LetterRun(s: string): (n: nat)
    ensures n <= |s| && AllLetters(s[..n])
    ensures n < |s| ==> !IsLetter(s[n])
  {
    if |s| > 0 && IsLetter(s[0]) then
      var n := 1 + LetterRun(s[1..]);
      assert s[..n] == [s[0]] + s[1..][..n - 1];
      n
    else 0
  }

  /** `parseIfPorts` / `parseIfSuffix`: prefix and number of an interface name such as
      `pppoe1`, else `pppoe` and 1. */
  function ParseIfName(str: string): (r: (string, nat))
    ensures |r.0| > 0 && AllLetters(r.0)
  {
    match MatchIfName(Trim(str))
    case Some(m) => m
    case None => PppoeLetters(); ("pppoe", 1)
  }

  lemma PppoeLetters()
    ensures AllLetters("pppoe")
  {
    assert forall k :: 0 <= k < 5 ==> "pppoe"[k] in "poe";
  }

  /** An interface name built from letters and a number splits back into them. */
  lemma IfNameRoundTrip(prefix: string, n: nat)
    requires |prefix| > 0 && AllLetters(prefix)
    ensures MatchIfName(prefix + NatToString(n)) == Some((prefix, n))
    ensures ParseIfName(prefix + NatToString(n)) == (prefix, n)
  {
    MatchIfNameOf(prefix, n);
    var s := prefix + NatToString(n);
    assert s[0] == prefix[0] && s[|s| - 1] == NatToString(n)[|NatToString(n)| - 1];
    LetterNotSpace(s[0]);
    DigitNotSpace(s[|s| - 1]);
  }

  lemma IfNameOf(prefix: string, n: nat, name: string)
    requires |prefix| > 0 && AllLetters(prefix)
    requires name == prefix + NatToString(n)
    ensures ParseIfName(name) == (prefix, n)
  {
    IfNameRoundTrip(prefix, n);
  }

  lemma MatchIfNameOf(prefix: string, n: nat)
    requires |prefix| > 0 && AllLetters(prefix)
    ensures MatchIfName(prefix + NatToString(n)) == Some((prefix, n))
  {
    var s := prefix + NatToString(n);
    LetterRunOf(prefix, NatToString(n));
    assert s[|prefix|..] == NatToString(n);
    assert s[..|prefix|] == prefix;
    DecimalRoundTrip(n);
  }

  lemma {:induction false} LetterRunOf(letters: string, rest: string)
    requires AllLetters(letters)
    requires rest == [] || !IsLetter(rest[0])
    ensures LetterRun(letters + rest) == |letters|
  {
    if |letters| > 0 {
      assert (letters + rest)[1..] == letters[1..] + rest;
      LetterRunOf(letters[1..], rest);
    } else {
      assert letters + rest == rest;
    }
  }

  /** `parseGatewayParts`: `^(.*?)(\d+)(.*)$` on the trimmed text splits at the first run of
      digits; `.` does not match line terminators. Without a match: the untrimmed text (or
      `WAN`), 1 and ''. */
  function ParseGatewayParts(gw: string): (string, nat, string) {
    match SplitAtNumber(Trim(gw))
    case Some(parts) => parts
    case None => (if gw == "" then "WAN" else gw, 1, "")
  }

  /** `^(.*?)(\d+)(.*)$` on one text: it matches when the text has a digit and no line
      terminator, and splits at the first run of digits. */
  function SplitAtNumber(t: string): Option<(string, nat, string)> {
    var i := FirstDigit(t);
    if i < |t| && forall k :: 0 <= k < |t| ==> !IsLineTerminator(t[k]) then
      var n := DigitRun(t[i..]);
      Some((t[..i], DigitsValue(t[i..][..n]), t[i + n..]))
    else None
  }

  /** A trimmed, single-line text made of a digit-free prefix, a run of digits and a suffix
      that does not continue the run splits back into those three parts. */
  lemma GatewayPartsOf(prefix: string, digits: string, suffix: string)
    requires forall k :: 0 <= k < |prefix| ==> !IsDigit(prefix[k])
    requires |digits| > 0 && AllDigits(digits)
    requires suffix == [] || !IsDigit(suffix[0])
    requires forall k :: 0 <= k < |prefix| ==> !IsLineTerminator(prefix[k])
    requires forall k :: 0 <= k < |suffix| ==> !IsLineTerminator(suffix[k])
    requires prefix == [] || !IsSpace(prefix[0])
    requires suffix == [] || !IsSpace(suffix[|suffix| - 1])
    ensures ParseGatewayParts(prefix + digits + suffix) == (prefix, DigitsValue(digits), suffix)
  {
    ThreePartsTrimmed(prefix, digits, suffix);
    SplitAtNumberOf(prefix, digits, suffix);
  }

  /** The parts SplitAtNumber cuts a trimmed text into meet the conditions of GatewayPartsOf. */
  lemma SplitAtNumberShape(t: string)
    requires Trimmed(t) && SplitAtNumber(t).Some?
    ensures var (prefix, _, suffix) := SplitAtNumber(t).value;
      && (forall k :: 0 <= k < |prefix| ==> !IsDigit(prefix[k]))
      && (suffix == [] || !IsDigit(suffix[0]))
      && (forall k :: 0 <= k < |prefix| ==> !IsLineTerminator(prefix[k]))
      && (forall k :: 0 <= k < |suffix| ==> !IsLineTerminator(suffix[k]))
      && (prefix == [] || !IsSpace(prefix[0]))
      && (suffix == [] || !IsSpace(suffix[|suffix| - 1]))
  {
    var i := FirstDigit(t);
    var n := DigitRun(t[i..]);
    var suffix := t[i + n..];
    assert suffix != [] ==> suffix[0] == t[i..][n];
    assert suffix != [] ==> suffix[|suffix| - 1] == t[|t| - 1];
  }

  lemma ThreePartsTrimmed(prefix: string, digits: string, suffix: string)
    requires |digits| > 0 && AllDigits(digits)
    requires prefix == [] || !IsSpace(prefix[0])
    requires suffix == [] || !IsSpace(suffix[|suffix| - 1])
    ensures Trimmed(prefix + digits + suffix)
  {
    var g := prefix + digits + suffix;
    if prefix == [] { assert g[0] == digits[0]; } else { assert g[0] == prefix[0]; }
    if suffix == [] { assert g[|g| - 1] == digits[|digits| - 1]; } else { assert g[|g| - 1] == suffix[|suffix| - 1]; }
  }

  lemma SplitAtNumberOf(prefix: string, digits: string, suffix: string)
    requires forall k :: 0 <= k < |prefix| ==> !IsDigit(prefix[k])
    requires |digits| > 0 && AllDigits(digits)
    requires suffix == [] || !IsDigit(suffix[0])
    requires forall k :: 0 <= k < |prefix| ==> !IsLineTerminator(prefix[k])
    requires forall k :: 0 <= k < |suffix| ==> !IsLineTerminator(suffix[k])
    ensures SplitAtNumber(prefix + digits + suffix) == Some((prefix, DigitsValue(digits), suffix))
  {
    var g := prefix + digits + suffix;
    FirstDigitOfParts(prefix, digits, suffix);
    NumberRunOfParts(prefix, digits, suffix);
    SingleLineParts(prefix, digits, suffix);
  }

  lemma FirstDigitOfParts(prefix: string, digits: string, suffix: string)
    requires forall k :: 0 <= k < |prefix| ==> !IsDigit(prefix[k])
    requires |digits| > 0 && AllDigits(digits)
    ensures FirstDigit(prefix + digits + suffix) == |prefix|
  {
    FirstDigitOf(prefix, digits + suffix);
    assert prefix + digits + suffix == prefix + (digits + suffix);
  }

  lemma NumberRunOfParts(prefix: string, digits: string, suffix: string)
    requires AllDigits(digits)
    requires suffix == [] || !IsDigit(suffix[0])
    ensures var g := prefix + digits + suffix;
      && DigitRun(g[|prefix|..]) == |digits|
      && g[|prefix|..][..|digits|] == digits
      && g[..|prefix|] == prefix
      && g[|prefix| + |digits|..] == suffix
  {
    var g := prefix + digits + suffix;
    assert g[|prefix|..] == digits + suffix;
    DigitRunOf(digits, suffix);
  }

  lemma SingleLineParts(prefix: string, digits: string, suffix: string)
    requires AllDigits(digits)
    requires forall k :: 0 <= k < |prefix| ==> !IsLineTerminator(prefix[k])
    requires forall k :: 0 <= k < |suffix| ==> !IsLineTerminator(suffix[k])
    ensures var g := prefix + digits + suffix; forall k :: 0 <= k < |g| ==> !IsLineTerminator(g[k])
  {
    var g := prefix + digits + suffix;
    forall k | 0 <= k < |g| ensures !IsLineTerminator(g[k]) {
      if k < |prefix| { assert g[k] == prefix[k]; }
      else if k < |prefix| + |digits| { assert g[k] == digits[k - |prefix|]; }
      else { assert g[k] == suffix[k - |prefix| - |digits|]; }
    }
  }

  lemma {:induction false} FirstDigitOf(prefix: string, rest: string)
    requires forall k :: 0 <= k < |prefix| ==> !IsDigit(prefix[k])
    requires rest != [] && IsDigit(rest[0])
    ensures FirstDigit(prefix + rest) == |prefix|
  {
    if prefix != [] {
      assert (prefix + rest)[1..] == prefix[1..] + rest;
      FirstDigitOf(prefix[1..], rest);
    }
  }

  function FirstDigit(s: string): (i: nat)
    ensures i <= |s| && (i < |s| ==> IsDigit(s[i]))
    ensures forall k :: 0 <= k < i ==> !IsDigit(s[k])
  {
    if |s| == 0 || IsDigit(s[0]) then 0 else 1 + FirstDigit(s[1..])
  }
}
