/**
 * `parseConfig` and `serializeConfig`: the line-oriented virtual-machine configuration
 * (`key: value` lines) that the editor reads into a state, edits and writes back.
 */
module LineConfig {
  import opened Outcomes
  import opened Text

  /** One `netN:` line: its number, NIC model, MAC address (upper case), bridge and VLAN tag. */
  datatype Net = Net(index: nat, model: string, mac: string, bridge: string, tag: string)

  /** The state parseConfig returns: the three scalar settings, the NICs and every other line. */
  datatype Config = Config(name: string, vmgenid: string, scsi0: string, nets: seq<Net>, other: seq<string>)

  const Empty: Config := Config("", "", "", [], [])

  /* ---------------- lines ---------------- */

  /** `text.split(/\r?\n/).map(l => l.trim())`. Splitting on '\n' alone gives the same lines
      once they are trimmed: a '\r' before a '\n' is white space at the end of its line. */
  function Lines(text: string): (ls: seq<string>)
    ensures |ls| == |Split(text, '\n')|
    ensures forall k :: 0 <= k < |ls| ==> ls[k] == Trim(Split(text, '\n')[k])
    ensures forall k :: 0 <= k < |ls| ==> Trimmed(ls[k]) && '\n' !in ls[k]
  {
    var parts := Split(text, '\n');
    seq(|parts|, k requires 0 <= k < |parts| => TrimKeepsOut(parts[k], '\n'); Trim(parts[k]))
  }

  lemma TrimKeepsOut(s: string, c: char)
    requires c !in s
    ensures c !in Trim(s)
  {
    TrimChars(s);
  }

  /** `.filter(Boolean)`: the non-empty lines, in order. */
  function NonBlank(ls: seq<string>): (r: seq<string>)
    ensures |r| <= |ls|
    ensures forall k :: 0 <= k < |r| ==> r[k] != ""
  {
    if |ls| == 0 then [] else NonBlank(ls[..|ls| - 1]) + (if ls[|ls| - 1] == "" then [] else [ls[|ls| - 1]])
  }

  /** Filtering keeps a list with no empty line as it is. */
  lemma {:induction false} NonBlankKeeps(ls: seq<string>)
    requires forall k :: 0 <= k < |ls| ==> ls[k] != ""
    ensures NonBlank(ls) == ls
  {
    if |ls| > 0 {
      NonBlankKeeps(ls[..|ls| - 1]);
    }
  }

  /** The length of the maximal run of word characters (`\w`) at the start of `s`. */
  function WordRun(s: string): (n: nat)
    ensures n <= |s|
    ensures forall k :: 0 <= k < n ==> IsWordChar(s[k])
    ensures n < |s| ==> !IsWordChar(s[n])
  {
    if |s| > 0 && IsWordChar(s[0]) then 1 + WordRun(s[1..]) else 0
  }

  lemma {:induction false} WordRunOf(word: string, rest: string)
    requires forall k :: 0 <= k < |word| ==> IsWordChar(word[k])
    requires rest == [] || !IsWordChar(rest[0])
    ensures WordRun(word + rest) == |word|
  {
    if word != [] {
      assert (word + rest)[1..] == word[1..] + rest;
      WordRunOf(word[1..], rest);
    } else {
      assert word + rest == rest;
    }
  }

  predicate NoLineTerminator(s: string) {
    forall k :: 0 <= k < |s| ==> !IsLineTerminator(s[k])
  }

  /* ---------------- reading one line ---------------- */

  /** `line.match(/^(\w[\w\d]+)\s*:\s*(.*)$/)`: the key is the whole leading run of word
      characters, at least two of them; the value is what follows the colon and the white
      space after it, and `.` does not let it hold a line terminator. */
  function KeyValue(line: string): (r: Option<(string, string)>)
    ensures r.Some? ==> 2 <= WordRun(line) && r.value.0 == line[..WordRun(line)] && ColonAfter(line, WordRun(line))
    ensures r.Some? ==> NoLineTerminator(r.value.1) && (r.value.1 == [] || !IsSpace(r.value.1[0]))
  {
    var k := WordRun(line);
    if k >= 2 && ColonAfter(line, k) then
      var v := TrimStart(TrimStart(line[k..])[1..]);
      if NoLineTerminator(v) then Some((line[..k], v)) else None
    else None
  }

  /** The key of a `key: value` line is the line's word run, whichever value follows. */
  lemma KeyValueOf(key: string, gap: string, val: string)
    requires |key| >= 2 && forall k :: 0 <= k < |key| ==> IsWordChar(key[k])
    requires forall k :: 0 <= k < |gap| ==> IsSpace(gap[k])
    requires NoLineTerminator(val) && (val == [] || !IsSpace(val[0]))
    ensures KeyValue(key + (":" + (gap + val))) == Some((key, val))
  {
    var tail := ":" + (gap + val);
    var line := key + tail;
    WordRunOf(key, tail);
    assert line[|key|..] == tail;
    assert TrimStart(tail) == tail;
    assert tail[1..] == gap + val;
    SkipSpaces(gap, val);
    assert line[..|key|] == key;
  }

  lemma {:induction false} SkipSpaces(gap: string, rest: string)
    requires forall k :: 0 <= k < |gap| ==> IsSpace(gap[k])
    requires rest == [] || !IsSpace(rest[0])
    ensures TrimStart(gap + rest) == rest
  {
    if gap != [] {
      assert (gap + rest)[1..] == gap[1..] + rest;
      SkipSpaces(gap[1..], rest);
    } else {
      assert gap + rest == rest;
    }
  }

  /** `/^net\d+$/`: "net" followed by at least one digit and nothing else. */
  predicate IsNetKey(key: string) {
    |key| > 3 && key[..3] == "net" && AllDigits(key[3..])
  }

  /* ---------------- reading a NIC ---------------- */

  /** `[0-9A-Fa-f:]` */
  predicate IsMacChar(c: char) { IsHexDigit(c) || c == ':' }

  /** A value character of `bridge=([^,\s]+)`, or of `tag=(\d+)` when `digits`. */
  predicate ValueChar(c: char, digits: bool) {
    if digits then IsDigit(c) else c != ',' && !IsSpace(c)
  }

  /** The length of the maximal run of value characters at the start of `s`. */
  function ValueRun(s: string, digits: bool): (n: nat)
    ensures n <= |s|
    ensures forall k :: 0 <= k < n ==> ValueChar(s[k], digits)
    ensures n < |s| ==> !ValueChar(s[n], digits)
  {
    if |s| > 0 && ValueChar(s[0], digits) then 1 + ValueRun(s[1..], digits) else 0
  }

  lemma {:induction false} ValueRunOf(v: string, rest: string, digits: bool)
    requires forall k :: 0 <= k < |v| ==> ValueChar(v[k], digits)
    requires rest == [] || !ValueChar(rest[0], digits)
    ensures ValueRun(v + rest, digits) == |v|
  {
    if v != [] {
      assert (v + rest)[1..] == v[1..] + rest;
      ValueRunOf(v[1..], rest, digits);
    } else {
      assert v + rest == rest;
    }
  }

  /** The lazy `.*?name=(V+)` from position `j`: the first `name=` followed by at least one
      value character with no line terminator before it; the (maximal) value and its end. */
  function FieldFrom(val: string, j: nat, name: string, digits: bool): (r: Option<(string, nat)>)
    ensures r.Some? ==> 0 < |r.value.0| && j + |name| + 1 + |r.value.0| <= r.value.1 <= |val|
    decreases |val| - j
  {
    if j >= |val| then None
    else
      var b := j + |name| + 1;
      if MatchAt(val, j, name + "=", false) && ValueRun(val[b..], digits) > 0 then
        Some((val[b..b + ValueRun(val[b..], digits)], b + ValueRun(val[b..], digits)))
      else if IsLineTerminator(val[j]) then None
      else FieldFrom(val, j + 1, name, digits)
  }

  /** What the lazy search finds is a non-empty, maximal run of value characters. */
  lemma {:induction false} FieldFromValue(val: string, j: nat, name: string, digits: bool)
    ensures var r := FieldFrom(val, j, name, digits);
      r.Some? ==> && |r.value.0| > 0 && (forall k :: 0 <= k < |r.value.0| ==> ValueChar(r.value.0[k], digits))
                  && (r.value.1 == |val| || !ValueChar(val[r.value.1], digits))
    decreases |val| - j
  {
    if j < |val| {
      var b := j + |name| + 1;
      if MatchAt(val, j, name + "=", false) && ValueRun(val[b..], digits) > 0 {
        FieldHere(val, b, ValueRun(val[b..], digits), digits);
      } else if !IsLineTerminator(val[j]) {
        FieldFromValue(val, j + 1, name, digits);
      }
    }
  }

  lemma FieldHere(val: string, b: nat, n: nat, digits: bool)
    requires b <= |val| && n == ValueRun(val[b..], digits)
    ensures forall k :: 0 <= k < n ==> val[b..b + n][k] == val[b..][k] && ValueChar(val[b..][k], digits)
    ensures b + n == |val| || !ValueChar(val[b + n], digits)
  {
  }

  /** A field written right at the search position is the one found. */
  lemma FieldAt(val: string, j: nat, name: string, v: string, digits: bool)
    requires j + |name| + 1 + |v| <= |val|
    requires val[j..j + |name| + 1] == name + "="
    requires val[j + |name| + 1..j + |name| + 1 + |v|] == v
    requires |v| > 0 && forall k :: 0 <= k < |v| ==> ValueChar(v[k], digits)
    requires j + |name| + 1 + |v| == |val| || !ValueChar(val[j + |name| + 1 + |v|], digits)
    ensures FieldFrom(val, j, name, digits) == Some((v, j + |name| + 1 + |v|))
  {
    var b := j + |name| + 1;
    assert MatchAt(val, j, name + "=", false) by {
      assert forall k :: 0 <= k < |name| + 1 ==> val[j + k] == val[j..b][k];
    }
    assert val[b..] == v + val[b + |v|..];
    ValueRunOf(v, val[b + |v|..], digits);
  }

  /** No `name=` can start where the first letter of `name` never occurs. */
  lemma {:induction false} FieldAbsent(val: string, j: nat, name: string, digits: bool)
    requires |name| > 0
    requires forall k :: j <= k < |val| ==> val[k] != name[0]
    ensures FieldFrom(val, j, name, digits).None?
    decreases |val| - j
  {
    if j < |val| {
      assert !SameChar(val[j], (name + "=")[0], false);
      FieldAbsent(val, j + 1, name, digits);
    }
  }

  /** `[0-9A-F:]`: a MAC character as `toUpperCase` leaves it. */
  predicate IsUpperMacChar(c: char) { IsDigit(c) || 'A' <= c <= 'F' || c == ':' }

  /** What a NIC read from a matching value looks like: a word for the model, seventeen
      upper-case MAC characters, a bridge free of commas and white space, a numeric tag. */
  predicate WellFormed(n: Net) {
    && |n.model| > 0 && (forall k :: 0 <= k < |n.model| ==> IsWordChar(n.model[k]))
    && |n.mac| == 17 && (forall k :: 0 <= k < 17 ==> IsUpperMacChar(n.mac[k]))
    && (forall k :: 0 <= k < |n.bridge| ==> ValueChar(n.bridge[k], false))
    && AllDigits(n.tag)
  }

  /** `^(\w+)=([0-9A-Fa-f:]{17})`: the length of the model when the value starts with a model
      word, '=' and seventeen MAC characters. */
  function MacHead(val: string): (r: Option<nat>)
    ensures r.Some? ==> 1 <= r.value && r.value + 18 <= |val| && val[r.value] == '='
  {
    var m := WordRun(val);
    if 1 <= m && m + 18 <= |val| && val[m] == '=' && (forall k :: m + 1 <= k < m + 18 ==> IsMacChar(val[k]))
    then Some(m) else None
  }

  /** `(?:,.*?bridge=([^,\s]+))?` at `p`: the bridge and where the match ends ("" and `p`
      when the optional group does not match). */
  function BridgeAt(val: string, p: nat): (r: (string, nat))
    ensures p <= r.1 && (r.0 == "" <==> r.1 == p)
  {
    var hit := if p < |val| && val[p] == ',' then FieldFrom(val, p + 1, "bridge", false) else None;
    if hit.Some? then hit.value else ("", p)
  }

  /** `(?:,.*?tag=(\d+))?` at `q`: the tag, "" when the optional group does not match. */
  function TagAt(val: string, q: nat): string
  {
    var hit := if q < |val| && val[q] == ',' then FieldFrom(val, q + 1, "tag", true) else None;
    if hit.Some? then hit.value.0 else ""
  }

  /** The bridge read is free of commas and white space, and the match ends at the end of
      the value or before a character that cannot continue it; the tag read is numeric. */
  lemma FieldsRead(val: string, p: nat, q: nat)
    ensures var r := BridgeAt(val, p);
      && (forall k :: 0 <= k < |r.0| ==> ValueChar(r.0[k], false))
      && (r.1 < |val| ==> r.1 == p || val[r.1] == ',' || IsSpace(val[r.1]))
    ensures AllDigits(TagAt(val, q))
  {
    if p < |val| && val[p] == ',' {
      FieldFromValue(val, p + 1, "bridge", false);
    }
    if q < |val| && val[q] == ',' {
      FieldFromValue(val, q + 1, "tag", true);
    }
  }

  /** The value of a `netN:` line, read with
      `^(\w+)=([0-9A-Fa-f:]{17})(?:,.*?bridge=([^,\s]+))?(?:,.*?tag=(\d+))?`. When it matches,
      the NIC is well formed; when it does not, the NIC is a bare `virtio` one with no MAC. */
  function ParseNet(index: nat, val: string): (n: Net)
    ensures n.index == index
    ensures MacHead(val).None? ==> n.model == "virtio" && n.mac == "" && n.bridge == "" && n.tag == ""
    ensures MacHead(val).Some? ==> var m := MacHead(val).value;
      n.model == val[..m] && n.mac == UpperString(val[m + 1..m + 18])
  {
    match MacHead(val)
    case None => Net(index, "virtio", "", "", "")
    case Some(m) => NetAt(index, val, m)
  }

  /** The NIC read from a value whose model ends at `m`, given that the MAC follows. */
  function NetAt(index: nat, val: string, m: nat): Net
    requires m + 18 <= |val|
  {
    var b := BridgeAt(val, m + 18);
    Net(index, val[..m], UpperString(val[m + 1..m + 18]), b.0, TagAt(val, b.1))
  }

  /** A NIC value that matches reads as a well-formed NIC; one that does not reads as a bare
      `virtio` NIC with no MAC. */
  lemma ParseNetShape(index: nat, val: string)
    ensures var n := ParseNet(index, val);
      && (n.mac == "" ==> n == Net(index, "virtio", "", "", ""))
      && (n.mac != "" ==> WellFormed(n))
  {
    if MacHead(val).Some? {
      ParseNetMatched(index, val, MacHead(val).value);
    }
  }

  lemma ParseNetMatched(index: nat, val: string, m: nat)
    requires MacHead(val) == Some(m)
    ensures ParseNet(index, val).mac != "" && WellFormed(ParseNet(index, val))
  {
    ParseNetAt(index, val, m);
    MacHeadChars(val, m);
    FieldsRead(val, m + 18, BridgeAt(val, m + 18).1);
  }

  lemma ParseNetAt(index: nat, val: string, m: nat)
    requires MacHead(val) == Some(m)
    ensures ParseNet(index, val) == NetAt(index, val, m)
  {
  }

  /** The model before '=' is a word, and the MAC after it reads in upper case. */
  lemma MacHeadChars(val: string, m: nat)
    requires MacHead(val) == Some(m)
    ensures forall k :: 0 <= k < m ==> IsWordChar(val[..m][k])
    ensures var mac := UpperString(val[m + 1..m + 18]);
      |mac| == 17 && forall k :: 0 <= k < 17 ==> IsUpperMacChar(mac[k])
  {
    var hex := val[m + 1..m + 18];
    UpperStringAt(hex);
    assert forall k :: 0 <= k < 17 ==> hex[k] == val[m + 1 + k];
    assert forall k :: 0 <= k < m ==> val[..m][k] == val[k];
  }


  /* ---------------- reading the whole text ---------------- */

  datatype Field = Name | VmGenId | Scsi0

  /** What one non-empty line contributes to the state. */
  datatype Entry = Setting(field: Field, value: string) | Interface(net: Net) | Verbatim(line: string)

  /** The branches of parseConfig's loop body. */
  function Classify(line: string): Entry {
    var kv := KeyValue(line);
    if kv.None? then Verbatim(line) else Keyed(kv.value.0, kv.value.1, line)
  }

  /** What a `key: value` line stands for. */
  function Keyed(key: string, val: string, line: string): Entry {
    if key == "name" then Setting(Name, Trim(val))
    else if key == "vmgenid" then Setting(VmGenId, Trim(val))
    else if key == "scsi0" then Setting(Scsi0, Trim(val))
    else if IsNetKey(key) then Interface(ParseNet(DigitsValue(key[3..]), val))
    else Verbatim(line)
  }

  /** What each line stands for, in order. */
  function Entries(ls: seq<string>): (es: seq<Entry>)
    ensures |es| == |ls|
  {
    if |ls| == 0 then [] else Entries(ls[..|ls| - 1]) + [Classify(ls[|ls| - 1])]
  }

  /** The state after one more line. */
  function Apply(c: Config, e: Entry): Config {
    match e
    case Setting(Name, v) => c.(name := v)
    case Setting(VmGenId, v) => c.(vmgenid := v)
    case Setting(Scsi0, v) => c.(scsi0 := v)
    case Interface(n) => c.(nets := c.nets + [n])
    case Verbatim(line) => c.(other := c.other + [line])
  }

  /** The state after the entries, in order, starting from `c`. */
  function Build(c: Config, es: seq<Entry>): Config {
    if |es| == 0 then c else Apply(Build(c, es[..|es| - 1]), es[|es| - 1])
  }

  /** The result of `parseConfig(text)`. */
  function Parsed(text: string): Config {
    var c := Build(Empty, Entries(NonBlank(Lines(text))));
    c.(nets := SortByIndex(c.nets))
  }


  /* ---------------- the stable sort by index ---------------- */

  predicate SortedByIndex(s: seq<Net>) {
    forall i, j :: 0 <= i < j < |s| ==> s[i].index <= s[j].index
  }

  /** Insert `x` after every element whose index is not above its own. */
  function InsertByIndex(x: Net, s: seq<Net>): (r: seq<Net>)
    ensures |r| == |s| + 1
  {
    if |s| == 0 then [x]
    else if x.index < s[0].index then [x] + s
    else [s[0]] + InsertByIndex(x, s[1..])
  }

  /** `nets.sort((a, b) => a.index - b.index)`: a stable sort (ECMAScript 2019 requires it). */
  function SortByIndex(s: seq<Net>): seq<Net> {
    if |s| == 0 then [] else InsertByIndex(s[|s| - 1], SortByIndex(s[..|s| - 1]))
  }

  /** The NICs with a given index, in their order. */
  function WithIndex(s: seq<Net>, v: nat): seq<Net> {
    if |s| == 0 then []
    else WithIndex(s[..|s| - 1], v) + (if s[|s| - 1].index == v then [s[|s| - 1]] else [])
  }

  lemma {:induction false} InsertSorted(x: Net, s: seq<Net>)
    requires SortedByIndex(s)
    ensures SortedByIndex(InsertByIndex(x, s))
  {
    if |s| > 0 && x.index >= s[0].index {
      var tail := s[1..];
      assert SortedByIndex(tail) by {
        assert forall i, j :: 0 <= i < j < |tail| ==> tail[i] == s[i + 1] && tail[j] == s[j + 1];
      }
      InsertSorted(x, tail);
      assert forall k :: 0 <= k < |tail| ==> tail[k] == s[k + 1];
      InsertAbove(x, tail, s[0].index);
    }
  }

  /** Inserting keeps a lower bound every element and `x` respect. */
  lemma {:induction false} InsertAbove(x: Net, s: seq<Net>, lo: nat)
    requires lo <= x.index && forall k :: 0 <= k < |s| ==> lo <= s[k].index
    ensures forall k :: 0 <= k < |s| + 1 ==> lo <= InsertByIndex(x, s)[k].index
  {
    if |s| > 0 && x.index >= s[0].index {
      var tail := s[1..];
      assert forall k :: 0 <= k < |tail| ==> tail[k] == s[k + 1];
      InsertAbove(x, tail, lo);
    }
  }

  lemma {:induction false} InsertPermutes(x: Net, s: seq<Net>)
    ensures multiset(InsertByIndex(x, s)) == multiset(s) + multiset{x}
  {
    if |s| > 0 && x.index >= s[0].index {
      InsertPermutes(x, s[1..]);
      assert s == [s[0]] + s[1..];
    }
  }

  lemma {:induction false} SortSorted(s: seq<Net>)
    ensures SortedByIndex(SortByIndex(s))
  {
    if |s| > 0 {
      SortSorted(s[..|s| - 1]);
      InsertSorted(s[|s| - 1], SortByIndex(s[..|s| - 1]));
    }
  }

  lemma {:induction false} SortPermutes(s: seq<Net>)
    ensures multiset(SortByIndex(s)) == multiset(s)
  {
    if |s| > 0 {
      SortPermutes(s[..|s| - 1]);
      InsertPermutes(s[|s| - 1], SortByIndex(s[..|s| - 1]));
      assert s == s[..|s| - 1] + [s[|s| - 1]];
    }
  }

  lemma {:induction false} WithIndexCons(x: Net, s: seq<Net>, v: nat)
    ensures WithIndex([x] + s, v) == (if x.index == v then [x] else []) + WithIndex(s, v)
    decreases |s|
  {
    if |s| > 0 {
      assert ([x] + s)[..|s|] == [x] + s[..|s| - 1];
      WithIndexCons(x, s[..|s| - 1], v);
    } else {
      assert ([x] + s)[..0] == [];
    }
  }

  /** In a sorted list, every element of index v comes before the first one above v. */
  lemma {:induction false} NoneAbove(s: seq<Net>, v: nat)
    requires SortedByIndex(s) && |s| > 0 && v < s[0].index
    ensures WithIndex(s, v) == []
  {
    if |s| > 1 {
      NoneAbove(s[..|s| - 1], v);
    } else {
      assert s[..0] == [];
    }
  }

  /** Inserting `x` puts it after every element with the same index. */
  lemma {:induction false} InsertStable(x: Net, s: seq<Net>, v: nat)
    requires SortedByIndex(s)
    ensures WithIndex(InsertByIndex(x, s), v) == WithIndex(s, v) + (if x.index == v then [x] else [])
  {
    if |s| == 0 {
      assert [x][..0] == [];
    } else if x.index < s[0].index {
      InsertFront(x, s, v);
    } else {
      assert SortedByIndex(s[1..]) by {
        assert forall i, j :: 0 <= i < j < |s| - 1 ==> s[1..][i] == s[i + 1] && s[1..][j] == s[j + 1];
      }
      InsertStable(x, s[1..], v);
      InsertPast(x, s, v);
    }
  }

  lemma InsertFront(x: Net, s: seq<Net>, v: nat)
    requires SortedByIndex(s) && |s| > 0 && x.index < s[0].index
    ensures WithIndex(InsertByIndex(x, s), v) == WithIndex(s, v) + (if x.index == v then [x] else [])
  {
    WithIndexCons(x, s, v);
    if x.index == v {
      NoneAbove(s, v);
    }
  }

  lemma InsertPast(x: Net, s: seq<Net>, v: nat)
    requires |s| > 0 && x.index >= s[0].index
    requires WithIndex(InsertByIndex(x, s[1..]), v) == WithIndex(s[1..], v) + (if x.index == v then [x] else [])
    ensures WithIndex(InsertByIndex(x, s), v) == WithIndex(s, v) + (if x.index == v then [x] else [])
  {
    assert InsertByIndex(x, s) == [s[0]] + InsertByIndex(x, s[1..]);
    WithIndexCons(s[0], InsertByIndex(x, s[1..]), v);
    WithIndexCons(s[0], s[1..], v);
    assert [s[0]] + s[1..] == s;
  }

  /** The sort is stable: NICs with the same index keep their relative order. */
  lemma {:induction false} SortStable(s: seq<Net>, v: nat)
    ensures WithIndex(SortByIndex(s), v) == WithIndex(s, v)
  {
    if |s| > 0 {
      SortStable(s[..|s| - 1], v);
      SortSorted(s[..|s| - 1]);
      InsertStable(s[|s| - 1], SortByIndex(s[..|s| - 1]), v);
    }
  }

  /** A list already in order comes back unchanged. */
  lemma {:induction false} SortKeepsSorted(s: seq<Net>)
    requires SortedByIndex(s)
    ensures SortByIndex(s) == s
  {
    if |s| > 0 {
      var init := s[..|s| - 1];
      SortKeepsSorted(init);
      AppendLast(s[|s| - 1], init);
      assert init + [s[|s| - 1]] == s;
    }
  }

  lemma {:induction false} AppendLast(x: Net, s: seq<Net>)
    requires forall k :: 0 <= k < |s| ==> s[k].index <= x.index
    ensures InsertByIndex(x, s) == s + [x]
  {
    if |s| > 0 {
      AppendLast(x, s[1..]);
      assert [s[0]] + (s[1..] + [x]) == s + [x];
    }
  }

  /* ---------------- parseConfig, step by step ---------------- */

  /** `parseConfig` */
  method ParseConfig(text: string) returns (state: Config)
    ensures state == Parsed(text)
  {
    var lines := NonBlank(Lines(text));
    state := AbsorbLines(lines);
    var sorted := SortNets(state.nets);
    state := state.(nets := sorted);
  }

  /** The loop of parseConfig over the non-empty lines. */
  method AbsorbLines(lines: seq<string>) returns (state: Config)
    ensures state == Build(Empty, Entries(lines))
  {
    state := Empty;
    for i := 0 to |lines|
      invariant state == Build(Empty, Entries(lines[..i]))
    {
      EntriesSnoc(lines, i);
      state := AbsorbLine(state, lines[i]);
    }
    assert lines[..|lines|] == lines;
  }

  lemma EntriesSnoc(ls: seq<string>, i: nat)
    requires i < |ls|
    ensures Entries(ls[..i + 1]) == Entries(ls[..i]) + [Classify(ls[i])]
  {
    assert ls[..i + 1][..i] == ls[..i];
  }

  /** One pass of parseConfig's loop body. */
  method AbsorbLine(state: Config, line: string) returns (next: Config)
    ensures next == Apply(state, Classify(line))
  {
    var mKey := KeyValue(line);
    if mKey.None? {
      return state.(other := state.other + [line]);
    }
    next := AbsorbKeyed(state, mKey.value.0, mKey.value.1, line);
  }

  method AbsorbKeyed(state: Config, key: string, val: string, line: string) returns (next: Config)
    ensures next == Apply(state, Keyed(key, val, line))
  {
    if key == "name" {
      next := state.(name := Trim(val));
    } else if key == "vmgenid" {
      next := state.(vmgenid := Trim(val));
    } else if key == "scsi0" {
      next := state.(scsi0 := Trim(val));
    } else if IsNetKey(key) {
      next := state.(nets := state.nets + [ParseNet(DigitsValue(key[3..]), val)]);
    } else {
      next := state.(other := state.other + [line]);
    }
  }

  /** The sort, one insertion at a time. */
  method SortNets(nets: seq<Net>) returns (sorted: seq<Net>)
    ensures sorted == SortByIndex(nets)
  {
    sorted := [];
    for i := 0 to |nets|
      invariant sorted == SortByIndex(nets[..i])
    {
      assert nets[..i + 1][..i] == nets[..i];
      sorted := InsertNet(nets[i], sorted);
    }
    assert nets[..|nets|] == nets;
  }

  /** Scan past every element whose index is not above `x`'s and put `x` there. */
  method InsertNet(x: Net, s: seq<Net>) returns (r: seq<Net>)
    ensures r == InsertByIndex(x, s)
  {
    var j := 0;
    while j < |s| && s[j].index <= x.index
      invariant 0 <= j <= |s|
      invariant forall k :: 0 <= k < j ==> s[k].index <= x.index
    {
      j := j + 1;
    }
    InsertAt(x, s, j);
    r := s[..j] + [x] + s[j..];
  }

  lemma {:induction false} InsertAt(x: Net, s: seq<Net>, j: nat)
    requires j <= |s|
    requires forall k :: 0 <= k < j ==> s[k].index <= x.index
    requires j < |s| ==> x.index < s[j].index
    ensures InsertByIndex(x, s) == s[..j] + [x] + s[j..]
  {
    if j > 0 {
      var tail := s[1..];
      assert forall k :: 0 <= k < j - 1 ==> tail[k] == s[k + 1];
      assert j - 1 < |tail| ==> tail[j - 1] == s[j];
      InsertAt(x, tail, j - 1);
      InsertPastHead(x, s, j);
    } else {
      assert s[..0] + [x] + s[0..] == [x] + s;
    }
  }

  lemma InsertPastHead(x: Net, s: seq<Net>, j: nat)
    requires 0 < j <= |s| && s[0].index <= x.index
    requires InsertByIndex(x, s[1..]) == s[1..][..j - 1] + [x] + s[1..][j - 1..]
    ensures InsertByIndex(x, s) == s[..j] + [x] + s[j..]
  {
    var tail := s[1..];
    assert InsertByIndex(x, s) == [s[0]] + InsertByIndex(x, tail);
    SplitAfterHead(s, j, [x]);
  }

  /** Cutting a sequence at `j` past its head is cutting its tail at `j - 1`. */
  lemma SplitAfterHead<T>(s: seq<T>, j: nat, mid: seq<T>)
    requires 0 < j <= |s|
    ensures [s[0]] + (s[1..][..j - 1] + mid + s[1..][j - 1..]) == s[..j] + mid + s[j..]
  {
    assert [s[0]] + s[1..][..j - 1] == s[..j];
    assert s[1..][j - 1..] == s[j..];
  }

  /* ---------------- serializeConfig ---------------- */

  predicate StartsWith(line: string, word: string) {
    |word| <= |line| && line[..|word|] == word
  }

  /** After the first `n` characters come optional white space and a colon. */
  predicate ColonAfter(line: string, n: nat) {
    n <= |line| && var t := TrimStart(line[n..]); |t| > 0 && t[0] == ':'
  }

  /** `/^(name|vmgenid|scsi0)\s*:/` or `/^net\d+\s*:/`: a line serializeConfig writes anew. */
  predicate Managed(line: string) {
    || (StartsWith(line, "name") && ColonAfter(line, 4))
    || (StartsWith(line, "vmgenid") && ColonAfter(line, 7))
    || (StartsWith(line, "scsi0") && ColonAfter(line, 5))
    || (StartsWith(line, "net") && DigitRun(line[3..]) > 0 && ColonAfter(line, 3 + DigitRun(line[3..])))
  }

  /** The lines of the original text serializeConfig keeps, in order. */
  function Unmanaged(ls: seq<string>): (r: seq<string>)
    ensures |r| <= |ls|
    ensures forall k :: 0 <= k < |r| ==> r[k] != "" && !Managed(r[k]) && r[k] in ls
  {
    if |ls| == 0 then []
    else
      var line := ls[|ls| - 1];
      Unmanaged(ls[..|ls| - 1]) + (if line != "" && !Managed(line) then [line] else [])
  }

  function FieldKey(f: Field): string {
    match f
    case Name => "name"
    case VmGenId => "vmgenid"
    case Scsi0 => "scsi0"
  }

  /** The `key: value` line for a setting, when the value is not empty. */
  function SettingLine(f: Field, v: string): seq<string> {
    if v != "" then [FieldKey(f) + ": " + v] else []
  }

  /** The `name:`, `vmgenid:` and `scsi0:` lines for the settings that are not empty. */
  function Settings(c: Config): seq<string> {
    SettingLine(Name, c.name) + SettingLine(VmGenId, c.vmgenid) + SettingLine(Scsi0, c.scsi0)
  }

  function ModelOf(n: Net): string {
    if n.model == "" then "virtio" else n.model
  }

  function BridgeSuffix(bridge: string): string {
    if bridge != "" then ",bridge=" + bridge else ""
  }

  function TagSuffix(tag: string): string {
    if tag != "" then ",tag=" + tag else ""
  }

  /** The value serializeConfig writes for a NIC: the comma-joined `model=MAC`, `bridge=…`
      and `tag=…` parts, the last two only when set. */
  function NetValue(n: Net): string {
    ModelOf(n) + "=" + n.mac + BridgeSuffix(n.bridge) + TagSuffix(n.tag)
  }

  /** The line for the NIC at position `i`: numbered by its position, not by its index. */
  function NetLine(i: nat, n: Net): string {
    "net" + NatToString(i) + ": " + NetValue(n)
  }

  /** The lines for the first `count` NICs: one per NIC with a MAC, each numbered by its
      position (so a skipped NIC leaves a gap in the numbers). */
  function NetLines(nets: seq<Net>, count: nat): (r: seq<string>)
    requires count <= |nets|
    ensures |r| <= count
  {
    if count == 0 then []
    else
      var n := nets[count - 1];
      NetLines(nets, count - 1) + (if n.mac != "" then [NetLine(count - 1, n)] else [])
  }

  /** The lines serializeConfig joins. */
  function OutLines(c: Config, originalText: string): seq<string> {
    Unmanaged(Lines(originalText)) + Settings(c) + NetLines(c.nets, |c.nets|)
  }

  /** The result of `serializeConfig(state, originalText)`. */
  function Serialized(c: Config, originalText: string): string {
    Join(OutLines(c, originalText), '\n') + "\n"
  }

  /** `serializeConfig` */
  method SerializeConfig(state: Config, originalText: string) returns (r: string)
    ensures r == Serialized(state, originalText)
  {
    var unmanaged := KeepUnmanaged(Lines(originalText));
    var out := AppendSettings(unmanaged, state);
    out := AppendNetLines(out, state.nets);
    r := Join(out, '\n') + "\n";
  }

  /** The first loop of serializeConfig: skip empty and managed lines. */
  method KeepUnmanaged(lines: seq<string>) returns (unmanaged: seq<string>)
    ensures unmanaged == Unmanaged(lines)
  {
    unmanaged := [];
    for i := 0 to |lines|
      invariant unmanaged == Unmanaged(lines[..i])
    {
      assert lines[..i + 1][..i] == lines[..i];
      var line := lines[i];
      if line != "" && !Managed(line) {
        unmanaged := unmanaged + [line];
      }
    }
    assert lines[..|lines|] == lines;
  }

  /** The scalar settings serializeConfig writes after the kept lines. */
  method AppendSettings(prefix: seq<string>, state: Config) returns (out: seq<string>)
    ensures out == prefix + Settings(state)
  {
    var name := if state.name != "" then ["name" + ": " + state.name] else [];
    var vmgenid := if state.vmgenid != "" then ["vmgenid" + ": " + state.vmgenid] else [];
    var scsi0 := if state.scsi0 != "" then ["scsi0" + ": " + state.scsi0] else [];
    out := prefix + name + vmgenid + scsi0;
  }

  /** The NIC loop of serializeConfig. */
  method AppendNetLines(prefix: seq<string>, nets: seq<Net>) returns (out: seq<string>)
    ensures out == prefix + NetLines(nets, |nets|)
  {
    out := prefix;
    for i := 0 to |nets|
      invariant out == prefix + NetLines(nets, i)
    {
      var n := nets[i];
      if n.mac != "" {
        out := out + [NetLine(i, n)];
      }
    }
  }
}
