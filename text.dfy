/**
 * String primitives of the engine: the character classes of JavaScript regular
 * expressions, literal search (the building block of every regular expression the
 * engine uses), trim, split/join on one separator, and decimal and hexadecimal numerals.
 */
module Text {
  import opened Outcomes

  /* ---------------- character classes ---------------- */

  /** `\s` of a JavaScript regular expression and the set `String.prototype.trim` removes. */
  predicate IsSpace(c: char) {
    || c == '\t' || c == '\n' || c == '\U{B}' || c == '\U{C}' || c == '\r' || c == ' '
    || c == '\U{A0}' || c == '\U{1680}' || ('\U{2000}' <= c <= '\U{200A}')
    || c == '\U{2028}' || c == '\U{2029}' || c == '\U{202F}' || c == '\U{205F}'
    || c == '\U{3000}' || c == '\U{FEFF}'
  }

  /** The characters `.` does not match. */
  predicate IsLineTerminator(c: char) {
    c == '\n' || c == '\r' || c == '\U{2028}' || c == '\U{2029}'
  }

  predicate IsDigit(c: char) { '0' <= c <= '9' }

  predicate IsLetter(c: char) { 'a' <= c <= 'z' || 'A' <= c <= 'Z' }

  /** `\w` */
  predicate IsWordChar(c: char) { IsLetter(c) || IsDigit(c) || c == '_' }

  predicate IsHexDigit(c: char) { IsDigit(c) || 'a' <= c <= 'f' || 'A' <= c <= 'F' }

  predicate AllDigits(s: string) { forall k :: 0 <= k < |s| ==> IsDigit(s[k]) }

  predicate AllLetters(s: string) { forall k :: 0 <= k < |s| ==> IsLetter(s[k]) }

  lemma LetterNotSpace(c: char)
    requires IsLetter(c)
    ensures !IsSpace(c)
  {
  }

  lemma DigitNotSpace(c: char)
    requires IsDigit(c)
    ensures !IsSpace(c)
  {
  }

  /** ASCII case folding: the canonicalisation of the `i` flag for patterns made of ASCII. */
  function Lower(c: char): char {
    if 'A' <= c <= 'Z' then (c as int + 32) as char else c
  }

  function Upper(c: char): char {
    if 'a' <= c <= 'z' then (c as int - 32) as char else c
  }

  function UpperString(s: string): (r: string)
    ensures |r| == |s|
  {
    if |s| == 0 then [] else [Upper(s[0])] + UpperString(s[1..])
  }

  /** `toUpperCase` on ASCII: each character is folded to upper case. */
  lemma {:induction false} UpperStringAt(s: string)
    ensures forall k :: 0 <= k < |s| ==> UpperString(s)[k] == Upper(s[k])
  {
    if |s| > 0 {
      UpperStringAt(s[1..]);
      assert forall k :: 1 <= k < |s| ==> UpperString(s)[k] == UpperString(s[1..])[k - 1];
    }
  }

  /* ---------------- literal search ---------------- */

  /** Character equality, ignoring ASCII case when `fold` (the `i` flag). */
  predicate SameChar(a: char, b: char, fold: bool) {
    if fold then Lower(a) == Lower(b) else a == b
  }

  /** `pat` occurs in `s` at index `i`. */
  predicate MatchAt(s: string, i: int, pat: string, fold: bool) {
    && 0 <= i && i + |pat| <= |s|
    && forall k :: 0 <= k < |pat| ==> SameChar(s[i + k], pat[k], fold)
  }

  /** The first occurrence of `pat` at or after `from`. */
  function IndexFrom(s: string, pat: string, from: nat, fold: bool): (r: Option<nat>)
    ensures r.Some? ==> from <= r.value && MatchAt(s, r.value, pat, fold)
    ensures r.Some? ==> forall j :: from <= j < r.value ==> !MatchAt(s, j, pat, fold)
    ensures r.None? ==> forall j :: from <= j ==> !MatchAt(s, j, pat, fold)
    decreases |s| - from
  {
    if from + |pat| > |s| then None
    else if MatchAt(s, from, pat, fold) then Some(from)
    else IndexFrom(s, pat, from + 1, fold)
  }

  /** `pat` occurs somewhere in `s` (a `test` of a one-literal regular expression). */
  predicate Contains(s: string, pat: string, fold: bool) {
    IndexFrom(s, pat, 0, fold).Some?
  }

  /** The last occurrence of `pat` starting at or below `upto` (case-sensitive search). */
  function LastIndexUpTo(s: string, pat: string, upto: int): (r: Option<nat>)
    ensures r.Some? ==> r.value <= upto && MatchAt(s, r.value, pat, false)
    ensures r.Some? ==> forall j :: r.value < j <= upto ==> !MatchAt(s, j, pat, false)
    ensures r.None? ==> forall j :: j <= upto ==> !MatchAt(s, j, pat, false)
    decreases upto + 1
  {
    if upto < 0 then None
    else if MatchAt(s, upto, pat, false) then Some(upto)
    else LastIndexUpTo(s, pat, upto - 1)
  }

  /** `String.prototype.lastIndexOf`: the last case-sensitive occurrence. */
  function LastIndexOf(s: string, pat: string): (r: Option<nat>)
    ensures r.Some? ==> MatchAt(s, r.value, pat, false)
    ensures r.Some? ==> forall j :: r.value < j ==> !MatchAt(s, j, pat, false)
    ensures r.None? ==> forall j :: !MatchAt(s, j, pat, false)
  {
    LastIndexUpTo(s, pat, |s|)
  }

  /* ---------------- where a tag cannot occur ---------------- */

  /** `pat` occurs nowhere in `s`. */
  predicate Absent(s: string, pat: string, fold: bool) {
    forall j :: 0 <= j < |s| ==> !MatchAt(s, j, pat, fold)
  }

  /** `pat` opens with `<` and holds no other `<`, as every tag does. */
  predicate Anchored(pat: string) {
    |pat| > 0 && pat[0] == '<' && forall k :: 1 <= k < |pat| ==> pat[k] != '<'
  }

  /** `c` is none of the characters of `pat`. */
  predicate NotIn(c: char, pat: string, fold: bool) {
    forall k :: 0 <= k < |pat| ==> !SameChar(c, pat[k], fold)
  }

  /** No occurrence of `pat` can run into `b` from before it: `b` does not begin with a
      character of `pat` past its first. */
  predicate StartSafe(b: string, pat: string, fold: bool) {
    |b| > 0 ==> forall k :: 1 <= k < |pat| ==> !SameChar(b[0], pat[k], fold)
  }

  /** No occurrence of `pat` can run out of `a`: `a` does not end with a character of `pat`
      before its last. */
  predicate EndSafe(a: string, pat: string, fold: bool) {
    |a| > 0 ==> forall k :: 0 <= k < |pat| - 1 ==> !SameChar(a[|a| - 1], pat[k], fold)
  }

  /** Two texts without `pat` make a text without `pat` when no occurrence can straddle the
      point where they meet. */
  lemma AbsentJoin(a: string, b: string, pat: string, fold: bool)
    requires |pat| > 0 && Absent(a, pat, fold) && Absent(b, pat, fold)
    requires EndSafe(a, pat, fold) || StartSafe(b, pat, fold)
    ensures Absent(a + b, pat, fold)
  {
    var s := a + b;
    forall j | 0 <= j < |s| ensures !MatchAt(s, j, pat, fold) {
      if j + |pat| > |s| {
      } else if j + |pat| <= |a| {
        assert forall x :: j <= x < j + |pat| ==> s[x] == a[x];
        assert !MatchAt(a, j, pat, fold);
      } else if j >= |a| {
        assert forall x :: j <= x < j + |pat| ==> s[x] == b[x - |a|];
        assert !MatchAt(b, j - |a|, pat, fold);
      } else if StartSafe(b, pat, fold) {
        assert s[j + (|a| - j)] == b[0];
        assert !SameChar(s[j + (|a| - j)], pat[|a| - j], fold);
      } else {
        assert s[j + (|a| - 1 - j)] == a[|a| - 1];
        assert !SameChar(s[j + (|a| - 1 - j)], pat[|a| - 1 - j], fold);
      }
    }
  }

  /** A piece of a text without `pat` is without `pat`. */
  lemma AbsentSlice(s: string, i: nat, e: nat, pat: string, fold: bool)
    requires i <= e <= |s| && |pat| > 0 && Absent(s, pat, fold)
    ensures Absent(s[i..e], pat, fold)
  {
    var t := s[i..e];
    forall j | 0 <= j < |t| ensures !MatchAt(t, j, pat, fold) {
      if j + |pat| <= |t| {
        assert forall x :: j <= x < j + |pat| ==> t[x] == s[i + x];
        assert !MatchAt(s, i + j, pat, fold);
      }
    }
  }

  /** A text without `<` holds no tag. */
  lemma AbsentNoAnchor(s: string, pat: string, fold: bool)
    requires Anchored(pat) && forall j :: 0 <= j < |s| ==> s[j] != '<'
    ensures Absent(s, pat, fold)
  {
    forall j | 0 <= j < |s| ensures !MatchAt(s, j, pat, fold) {
      AnchorOnly(s[j + 0], pat[0], fold);
    }
  }

  /** Only `<` matches `<`, with or without case folding. */
  lemma AnchorOnly(c: char, d: char, fold: bool)
    requires c != '<' && d == '<'
    ensures !SameChar(c, d, fold) && !SameChar(d, c, fold)
  {
  }

  /** A text that begins with `<` lets no tag run into it. */
  lemma AnchorStartSafe(b: string, pat: string, fold: bool)
    requires Anchored(pat) && |b| > 0 && b[0] == '<'
    ensures StartSafe(b, pat, fold)
  {
    forall k | 1 <= k < |pat| ensures !SameChar(b[0], pat[k], fold) {
      AnchorOnly(pat[k], b[0], fold);
    }
  }

  /** A text that begins, or ends, with a character of none of `pat` lets no occurrence in
      or out. */
  lemma NotInSafe(s: string, pat: string, fold: bool)
    requires |s| > 0
    ensures NotIn(s[0], pat, fold) ==> StartSafe(s, pat, fold)
    ensures NotIn(s[|s| - 1], pat, fold) ==> EndSafe(s, pat, fold)
  {
  }

  /** A token of a template: it has no `<` past its first character, and it differs from
      `pat` at index `m` (or is shorter), so `pat` can only start at its first character
      and does not. */
  predicate TokenFree(t: string, pat: string, fold: bool, m: nat) {
    && (forall j :: 1 <= j < |t| ==> t[j] != '<')
    && m < |pat| && (m < |t| ==> !SameChar(t[m], pat[m], fold))
  }

  lemma AbsentToken(t: string, pat: string, fold: bool, m: nat)
    requires Anchored(pat) && TokenFree(t, pat, fold, m)
    ensures Absent(t, pat, fold)
  {
    forall j | 0 <= j < |t| ensures !MatchAt(t, j, pat, fold) {
      if j > 0 {
        AnchorOnly(t[j + 0], pat[0], fold);
      } else if m < |t| {
        assert !SameChar(t[0 + m], pat[m], fold);
      }
    }
  }

  /** A template grows one `<`-led token at a time without ever holding `pat`. */
  lemma AbsentStep(a: string, t: string, pat: string, fold: bool, m: nat)
    requires Anchored(pat) && Absent(a, pat, fold) && |t| > 0 && t[0] == '<' && TokenFree(t, pat, fold, m)
    ensures Absent(a + t, pat, fold)
  {
    AbsentToken(t, pat, fold, m);
    AnchorStartSafe(t, pat, fold);
    AbsentJoin(a, t, pat, fold);
  }

  /** The opening of a template, three tokens where every token past the first is `<`-led,
      holds no `pat`. */
  lemma AbsentThree(a: string, b: string, c: string, pat: string, fold: bool, ma: nat, mb: nat, mc: nat)
    requires Anchored(pat) && TokenFree(a, pat, fold, ma)
    requires |b| > 0 && b[0] == '<' && TokenFree(b, pat, fold, mb)
    requires |c| > 0 && c[0] == '<' && TokenFree(c, pat, fold, mc)
    ensures Absent(a + b + c, pat, fold)
  {
    AbsentToken(a, pat, fold, ma);
    AbsentStep(a, b, pat, fold, mb);
    AbsentStep(a + b, c, pat, fold, mc);
  }

  /** A text without `pat` has no first occurrence of it. */
  lemma AbsentNoIndex(s: string, pat: string, fold: bool)
    requires |pat| > 0 && Absent(s, pat, fold)
    ensures IndexFrom(s, pat, 0, fold).None?
  {
  }

  /** The shape of `<name` and `</name>`: a `<`, then `/` and lower-case letters, and a `>`
      only at the very end. */
  predicate TagPattern(pat: string) {
    && Anchored(pat)
    && forall k :: 1 <= k < |pat| ==> pat[k] == '/' || 'a' <= pat[k] <= 'z' || (k == |pat| - 1 && pat[k] == '>')
  }

  /** A character that occurs in no tag pattern, with or without case folding. */
  predicate Plain(c: char) {
    !IsLetter(c) && c != '/' && c != '<' && c != '>'
  }

  /** A text that begins, or ends, with a plain character lets no tag in or out there. */
  lemma PlainSafe(s: string, pat: string, fold: bool)
    requires TagPattern(pat) && |s| > 0
    ensures Plain(s[0]) ==> StartSafe(s, pat, fold)
    ensures Plain(s[|s| - 1]) ==> EndSafe(s, pat, fold)
  {
    forall c, k | Plain(c) && 0 <= k < |pat| ensures !SameChar(c, pat[k], fold) {
      assert Lower(c) == c;
    }
  }

  /** A text that ends with `>` lets no tag run out of it: a tag pattern has `>` only last. */
  lemma CloseEndSafe(a: string, pat: string, fold: bool)
    requires TagPattern(pat) && |a| > 0 && a[|a| - 1] == '>'
    ensures EndSafe(a, pat, fold)
  {
    forall k | 0 <= k < |pat| - 1 ensures !SameChar(a[|a| - 1], pat[k], fold) {
      assert Lower(pat[k]) == pat[k];
    }
  }

  /** A numeral holds no tag and lets none in or out. */
  lemma DigitsSafe(s: string, pat: string, fold: bool)
    requires TagPattern(pat) && |s| > 0 && AllDigits(s)
    ensures Absent(s, pat, fold) && StartSafe(s, pat, fold) && EndSafe(s, pat, fold)
  {
    AbsentNoAnchor(s, pat, fold);
    PlainSafe(s, pat, fold);
  }

  /** Joining texts that hold no `pat` and let none in at their start keeps both. */
  lemma AbsentAppend(a: string, b: string, pat: string, fold: bool)
    requires |pat| > 0 && Absent(a, pat, fold) && Absent(b, pat, fold)
    requires StartSafe(a, pat, fold) && StartSafe(b, pat, fold)
    ensures Absent(a + b, pat, fold) && StartSafe(a + b, pat, fold)
  {
    AbsentJoin(a, b, pat, fold);
    if |a| == 0 {
      assert a + b == b;
    } else {
      assert (a + b)[0] == a[0];
    }
  }

  /** A filled template begins with its first piece. */
  lemma FillHead(pieces: seq<string>, values: seq<string>)
    requires |pieces| == |values| + 1 && |pieces[0]| > 0
    ensures |Fill(pieces, values)| > 0 && Fill(pieces, values)[0] == pieces[0][0]
  {
  }

  /** A filled template holds no `pat` when neither its pieces nor its values do and no
      occurrence can straddle a seam between a piece and a value. */
  lemma {:induction false} FillAbsent(pieces: seq<string>, values: seq<string>, pat: string, fold: bool)
    requires |pieces| == |values| + 1 && |pat| > 0
    requires forall i :: 0 <= i < |pieces| ==> |pieces[i]| > 0 && Absent(pieces[i], pat, fold)
    requires forall i :: 0 <= i < |values| ==> Absent(values[i], pat, fold)
    requires forall i :: 0 <= i < |values| ==> EndSafe(pieces[i], pat, fold) || StartSafe(values[i], pat, fold)
    requires forall i :: 0 <= i < |values| ==>
      (|values[i]| > 0 && EndSafe(values[i], pat, fold)) || StartSafe(pieces[i + 1], pat, fold)
    ensures Absent(Fill(pieces, values), pat, fold)
    decreases |values|
  {
    if |values| > 0 {
      var ps, vs := pieces[1..], values[1..];
      assert forall i :: 0 <= i < |ps| ==> ps[i] == pieces[i + 1];
      assert forall i :: 0 <= i < |vs| ==> vs[i] == values[i + 1];
      FillAbsent(ps, vs, pat, fold);
      var rest := Fill(ps, vs);
      FillHead(ps, vs);
      AbsentJoin(pieces[0], values[0], pat, fold);
      var head := pieces[0] + values[0];
      if StartSafe(ps[0], pat, fold) {
        assert StartSafe(rest, pat, fold);
      } else {
        assert head[|head| - 1] == values[0][|values[0]| - 1];
        assert EndSafe(head, pat, fold);
      }
      AbsentJoin(head, rest, pat, fold);
    }
  }

  /** The number of non-overlapping occurrences from `from` on, scanning left to right
      (the length of the array a global `match` returns). */
  function CountFrom(s: string, pat: string, from: nat, fold: bool): nat
    requires |pat| > 0
    decreases |s| - from
  {
    match IndexFrom(s, pat, from, fold)
    case None => 0
    case Some(j) => 1 + CountFrom(s, pat, j + |pat|, fold)
  }

  /* ---------------- trim ---------------- */

  /** `String.prototype.trimStart` */
  function TrimStart(s: string): (r: string)
    ensures |r| <= |s| && r == s[|s| - |r|..]
    ensures forall k :: 0 <= k < |s| - |r| ==> IsSpace(s[k])
    ensures r == [] || !IsSpace(r[0])
  {
    if |s| > 0 && IsSpace(s[0]) then TrimStart(s[1..]) else s
  }

  /** `String.prototype.trimEnd` */
  function TrimEnd(s: string): (r: string)
    ensures |r| <= |s| && r == s[..|r|]
    ensures forall k :: |r| <= k < |s| ==> IsSpace(s[k])
    ensures r == [] || !IsSpace(r[|r| - 1])
  {
    if |s| > 0 && IsSpace(s[|s| - 1]) then TrimEnd(s[..|s| - 1]) else s
  }

  /** A string that neither starts nor ends with white space. */
  predicate Trimmed(s: string) {
    s == [] || (!IsSpace(s[0]) && !IsSpace(s[|s| - 1]))
  }

  /** `String.prototype.trim`: what it returns is trimmed, and a trimmed input comes back
      unchanged. */
  function Trim(s: string): (r: string)
    ensures Trimmed(r)
    ensures Trimmed(s) ==> r == s
  {
    var t := TrimStart(s);
    var r := TrimEnd(t);
    assert r != [] ==> r[0] == t[0];
    assert Trimmed(s) && s != [] ==> t == s;
    r
  }

  /** Every character `trim` keeps is one of the input's. */
  lemma TrimChars(s: string)
    ensures forall k :: 0 <= k < |Trim(s)| ==> Trim(s)[k] in s
  {
    var t := TrimStart(s);
    var r := Trim(s);
    assert forall k :: 0 <= k < |r| ==> r[k] == t[k];
    assert forall k :: 0 <= k < |t| ==> t[k] == s[|s| - |t| + k];
  }

  /** Trimming a text without `pat` leaves a text without `pat`. */
  lemma TrimAbsent(s: string, pat: string, fold: bool)
    requires |pat| > 0 && Absent(s, pat, fold)
    ensures Absent(Trim(s), pat, fold)
  {
    var t := TrimStart(s);
    AbsentSlice(s, |s| - |t|, |s|, pat, fold);
    assert s[|s| - |t|..|s|] == t;
    var r := TrimEnd(t);
    AbsentSlice(t, 0, |r|, pat, fold);
    assert t[0..|r|] == r;
  }

  /* ---------------- split and join on one character ---------------- */

  /** `s.split(sep)` for a one-character separator. */
  function Split(s: string, sep: char): (parts: seq<string>)
    ensures |parts| >= 1
    ensures forall k :: 0 <= k < |parts| ==> sep !in parts[k]
  {
    if |s| == 0 then [""]
    else
      var rest := Split(s[1..], sep);
      if s[0] == sep then [""] + rest
      else [[s[0]] + rest[0]] + rest[1..]
  }

  /** `parts.join(sep)` */
  function Join(parts: seq<string>, sep: char): string
  {
    if |parts| == 0 then ""
    else if |parts| == 1 then parts[0]
    else parts[0] + [sep] + Join(parts[1..], sep)
  }

  /** A template literal: the fixed pieces with the field values between them,
      `pieces[0] + values[0] + pieces[1] + ... + pieces[|values|]`. */
  function Fill(pieces: seq<string>, values: seq<string>): string
    requires |pieces| == |values| + 1
    decreases |values|
  {
    if |values| == 0 then pieces[0] else pieces[0] + values[0] + Fill(pieces[1..], values[1..])
  }

  lemma {:induction false} SplitWord(w: string, sep: char)
    requires sep !in w
    ensures Split(w, sep) == [w]
  {
    if |w| > 0 {
      SplitWord(w[1..], sep);
      assert [w[0]] + w[1..] == w;
    }
  }

  lemma {:induction false} SplitAtSeparator(w: string, t: string, sep: char)
    requires sep !in w
    ensures Split(w + [sep] + t, sep) == [w] + Split(t, sep)
  {
    if |w| == 0 {
      assert w + [sep] + t == [sep] + t;
      assert ([sep] + t)[1..] == t;
    } else {
      var s := w + [sep] + t;
      assert s[1..] == w[1..] + [sep] + t;
      SplitAtSeparator(w[1..], t, sep);
      assert [w[0]] + w[1..] == w;
    }
  }

  /** Splitting a join of separator-free parts gives the parts back. */
  lemma {:induction false} SplitJoin(parts: seq<string>, sep: char)
    requires |parts| >= 1
    requires forall k :: 0 <= k < |parts| ==> sep !in parts[k]
    ensures Split(Join(parts, sep), sep) == parts
  {
    if |parts| == 1 {
      SplitWord(parts[0], sep);
    } else {
      SplitJoin(parts[1..], sep);
      SplitAtSeparator(parts[0], Join(parts[1..], sep), sep);
      assert [parts[0]] + parts[1..] == parts;
    }
  }

  /** Joining what split returns gives the string back. */
  lemma {:induction false} JoinSplit(s: string, sep: char)
    ensures Join(Split(s, sep), sep) == s
  {
    if |s| > 0 {
      JoinSplit(s[1..], sep);
      var rest := Split(s[1..], sep);
      if s[0] == sep {
        assert [""] + rest == [""] + rest;
        assert Join([""] + rest, sep) == "" + [sep] + Join(rest, sep);
        assert s == [s[0]] + s[1..];
      } else {
        var parts := [[s[0]] + rest[0]] + rest[1..];
        if |rest| == 1 {
          assert Join(parts, sep) == [s[0]] + rest[0];
        } else {
          assert rest == [rest[0]] + rest[1..];
          assert Join(rest, sep) == rest[0] + [sep] + Join(rest[1..], sep);
          assert parts[1..] == rest[1..];
          assert Join(parts, sep) == [s[0]] + rest[0] + [sep] + Join(rest[1..], sep);
        }
        assert s == [s[0]] + s[1..];
      }
    }
  }

  /** A join of non-empty parts starts with the first part's first character and ends with
      the last part's last character. */
  lemma {:induction false} JoinEnds(parts: seq<string>, sep: char)
    requires |parts| >= 1
    requires forall k :: 0 <= k < |parts| ==> |parts[k]| > 0
    ensures var s := Join(parts, sep);
      |s| > 0 && s[0] == parts[0][0] && s[|s| - 1] == parts[|parts| - 1][|parts[|parts| - 1]| - 1]
  {
    if |parts| > 1 {
      JoinEnds(parts[1..], sep);
    }
  }

  /* ---------------- decimal numerals ---------------- */

  function DigitChar(d: nat): (c: char)
    requires d < 10
    ensures IsDigit(c)
  {
    ('0' as int + d) as char
  }

  function DigitValue(c: char): (d: nat)
    requires IsDigit(c)
    ensures d < 10 && DigitChar(d) == c
  {
    c as int - '0' as int
  }

  /** A numeral holds no character other than digits. */
  lemma DigitsExclude(s: string, c: char)
    requires AllDigits(s) && !IsDigit(c)
    ensures c !in s
  {
    assert forall k :: 0 <= k < |s| ==> s[k] != c;
  }

  /** The value of a run of decimal digits (`parseInt(run, 10)`; the empty run is 0). */
  function DigitsValue(s: string): nat
    requires AllDigits(s)
  {
    if |s| == 0 then 0 else DigitsValue(s[..|s| - 1]) * 10 + DigitValue(s[|s| - 1])
  }

  /** `String(n)` for a non-negative integer: its canonical decimal numeral. */
  function NatToString(n: nat): (r: string)
    ensures |r| >= 1 && AllDigits(r)
    ensures |r| > 1 ==> r[0] != '0'
  {
    if n < 10 then [DigitChar(n)]
    else NatToString(n / 10) + [DigitChar(n % 10)]
  }

  /** Reading back a rendered numeral gives the number. */
  lemma {:induction false} DecimalRoundTrip(n: nat)
    ensures DigitsValue(NatToString(n)) == n
  {
    if n >= 10 {
      DecimalRoundTrip(n / 10);
      var s := NatToString(n);
      assert s[..|s| - 1] == NatToString(n / 10);
    }
  }

  /** Every canonical numeral (no leading zero) is the rendering of its value. */
  lemma {:induction false} DecimalCanonical(s: string)
    requires |s| >= 1 && AllDigits(s) && (|s| > 1 ==> s[0] != '0')
    ensures NatToString(DigitsValue(s)) == s
  {
    if |s| > 1 {
      var init := s[..|s| - 1];
      DecimalCanonical(init);
      assert init[0] == s[0];
      PositiveValue(init);
      assert s == init + [s[|s| - 1]];
    }
  }

  lemma {:induction false} PositiveValue(s: string)
    requires |s| >= 1 && AllDigits(s) && s[0] != '0'
    ensures DigitsValue(s) >= 1
  {
    if |s| > 1 {
      PositiveValue(s[..|s| - 1]);
    }
  }

  /** The length of the maximal run of digits at the start of `s`. */
  function DigitRun(s: string): (n: nat)
    ensures n <= |s| && AllDigits(s[..n])
    ensures n < |s| ==> !IsDigit(s[n])
  {
    if |s| > 0 && IsDigit(s[0]) then
      var n := 1 + DigitRun(s[1..]);
      assert s[..n] == [s[0]] + s[1..][..n - 1];
      n
    else 0
  }

  /** `parseInt(s, 10)`: leading white space, an optional sign, then the longest run of
      digits; None stands for NaN (no digit). */
  function ParseInt(s: string): Option<int>
  {
    var t := TrimStart(s);
    var negative := |t| > 0 && t[0] == '-';
    var body := if |t| > 0 && (t[0] == '-' || t[0] == '+') then t[1..] else t;
    var n := DigitRun(body);
    if n == 0 then None
    else
      var v: int := DigitsValue(body[..n]);
      Some(if negative then -v else v)
  }

  /** `parseInt` reads a canonical numeral back exactly. */
  lemma ParseIntOfNumeral(n: nat)
    ensures ParseInt(NatToString(n)) == Some(n)
  {
    var s := NatToString(n);
    assert !IsSpace(s[0]);
    assert TrimStart(s) == s;
    assert DigitRun(s) == |s| by {
      DigitRunAll(s);
    }
    assert s[..|s|] == s;
    DecimalRoundTrip(n);
  }

  /** A run of digits followed by a non-digit (or nothing) is read up to that point. */
  lemma {:induction false} DigitRunOf(digits: string, rest: string)
    requires AllDigits(digits)
    requires rest == [] || !IsDigit(rest[0])
    ensures DigitRun(digits + rest) == |digits|
  {
    if digits != [] {
      assert (digits + rest)[1..] == digits[1..] + rest;
      DigitRunOf(digits[1..], rest);
    } else {
      assert digits + rest == rest;
    }
  }

  lemma {:induction false} DigitRunAll(s: string)
    requires AllDigits(s)
    ensures DigitRun(s) == |s|
  {
    if |s| > 0 {
      DigitRunAll(s[1..]);
    }
  }

  /* ---------------- hexadecimal ---------------- */

  function HexChar(d: nat): (c: char)
    requires d < 16
    ensures IsHexDigit(c) && !('a' <= c <= 'z')
  {
    if d < 10 then DigitChar(d) else ('A' as int + d - 10) as char
  }

  function HexValue(c: char): (d: nat)
    requires IsHexDigit(c)
    ensures d < 16
  {
    if IsDigit(c) then DigitValue(c)
    else if 'a' <= c <= 'f' then c as int - 'a' as int + 10
    else c as int - 'A' as int + 10
  }

  /** A hex digit written by `HexChar` reads back as its value. */
  lemma HexCharValue(d: nat)
    requires d < 16
    ensures HexValue(HexChar(d)) == d
  {
    if d < 10 {
      assert DigitValue(DigitChar(d)) == d;
    }
  }
}
