/**
 * What serializeConfig writes, parseConfig reads back: the kept lines as unparsed lines, the
 * settings as they were, and every NIC with a MAC renumbered by its position.
 */
module ConfigRoundTrip {
  import opened Outcomes
  import opened Text
  import opened LineConfig

  /** A setting value serializeConfig can write and parseConfig read back unchanged. */
  predicate Clean(v: string) {
    Trimmed(v) && NoLineTerminator(v)
  }

  /** A NIC serializeConfig can write and parseConfig read back: one without a MAC (it is
      not written), or one that is well formed once an empty model reads as `virtio`. */
  predicate Writable(n: Net) {
    n.mac == "" || WellFormed(n.(model := ModelOf(n)))
  }

  /** The NIC parseConfig reads from the line serializeConfig writes for `n` at position `i`. */
  function Renumbered(i: nat, n: Net): Net {
    Net(i, ModelOf(n), n.mac, n.bridge, n.tag)
  }

  /** The NICs parseConfig reads back from the first `count` NIC lines: those with a MAC,
      numbered by position, hence in strictly increasing order. */
  function Renumber(nets: seq<Net>, count: nat): (r: seq<Net>)
    requires count <= |nets|
    ensures |r| <= count
  {
    if count == 0 then []
    else
      var n := nets[count - 1];
      Renumber(nets, count - 1) + (if n.mac != "" then [Renumbered(count - 1, n)] else [])
  }

  /** A key parseConfig files as a setting or a NIC. */
  predicate ManagedKey(key: string) {
    key == "name" || key == "vmgenid" || key == "scsi0" || IsNetKey(key)
  }

  /** Every line parseConfig files as a setting or a NIC is one serializeConfig rewrites;
      so every line it keeps reads back as an unparsed line. */
  lemma ManagedCovers(line: string)
    ensures Classify(line) == Verbatim(line) || Managed(line)
  {
    if KeyValue(line).Some? {
      KeyedCovers(line);
    }
  }

  lemma KeyedCovers(line: string)
    requires KeyValue(line).Some?
    ensures Classify(line) == Verbatim(line) || Managed(line)
  {
    var k := WordRun(line);
    if ManagedKey(line[..k]) {
      KeyManaged(line, k);
    } else {
      KeyedPlain(line[..k], KeyValue(line).value.1, line);
    }
  }

  /** Any other key leaves the line unparsed. */
  lemma KeyedPlain(key: string, val: string, line: string)
    requires !ManagedKey(key)
    ensures Keyed(key, val, line) == Verbatim(line)
  {
  }

  /** A line whose key parseConfig recognises is one serializeConfig rewrites. */
  lemma KeyManaged(line: string, k: nat)
    requires 2 <= k <= |line| && ManagedKey(line[..k]) && ColonAfter(line, k)
    ensures Managed(line)
  {
    if IsNetKey(line[..k]) {
      NetKeySplit(line, k);
      NetKeyManaged(line, k);
    } else {
      FixedKeyManaged(line, k);
    }
  }

  lemma NetKeySplit(line: string, k: nat)
    requires 2 <= k <= |line| && IsNetKey(line[..k])
    ensures 3 < k && line[..3] == "net" && AllDigits(line[3..k])
  {
    assert line[..3] == line[..k][..3] && line[3..k] == line[..k][3..];
  }

  lemma FixedKeyManaged(line: string, k: nat)
    requires k <= |line| && ColonAfter(line, k)
    requires line[..k] == "name" || line[..k] == "vmgenid" || line[..k] == "scsi0"
    ensures Managed(line)
  {
    if line[..k] == "name" {
      assert StartsWith(line, "name") && ColonAfter(line, 4);
    } else if line[..k] == "vmgenid" {
      assert StartsWith(line, "vmgenid") && ColonAfter(line, 7);
    } else {
      assert StartsWith(line, "scsi0") && ColonAfter(line, 5);
    }
  }

  lemma NetKeyManaged(line: string, k: nat)
    requires 3 < k <= |line| && line[..3] == "net" && AllDigits(line[3..k])
    requires ColonAfter(line, k)
    ensures Managed(line)
  {
    ColonAfterNoDigit(line, k);
    NetKeyRun(line, k);
    assert StartsWith(line, "net");
  }

  /** What precedes the colon, after the key, is white space. */
  lemma ColonAfterNoDigit(line: string, k: nat)
    requires ColonAfter(line, k)
    ensures k < |line| && !IsDigit(line[k])
  {
    var t := TrimStart(line[k..]);
    assert line[k..] != [];
    if !IsSpace(line[k]) {
      assert t == line[k..];
    }
  }

  lemma NetKeyRun(line: string, k: nat)
    requires 3 < k < |line| && AllDigits(line[3..k]) && !IsDigit(line[k])
    ensures DigitRun(line[3..]) == k - 3
  {
    assert line[3..] == line[3..k] + line[k..];
    DigitRunOf(line[3..k], line[k..]);
  }

  lemma {:induction false} BuildAppend(c: Config, a: seq<Entry>, b: seq<Entry>)
    ensures Build(c, a + b) == Build(Build(c, a), b)
  {
    if |b| > 0 {
      BuildAppend(c, a, b[..|b| - 1]);
      assert (a + b)[..|a + b| - 1] == a + b[..|b| - 1];
    } else {
      assert a + b == a;
    }
  }

  lemma BuildSnoc(c: Config, es: seq<Entry>, e: Entry)
    ensures Build(c, es + [e]) == Apply(Build(c, es), e)
  {
    assert (es + [e])[..|es|] == es;
  }

  lemma {:induction false} EntriesAppend(a: seq<string>, b: seq<string>)
    ensures Entries(a + b) == Entries(a) + Entries(b)
  {
    if |b| > 0 {
      EntriesAppend(a, b[..|b| - 1]);
      AppendSnoc(a, b);
      EntriesLast(a + b);
      EntriesLast(b);
    } else {
      assert a + b == a;
    }
  }

  lemma EntriesLast(ls: seq<string>)
    requires |ls| > 0
    ensures Entries(ls) == Entries(ls[..|ls| - 1]) + [Classify(ls[|ls| - 1])]
  {
  }

  lemma AppendSnoc<T>(a: seq<T>, b: seq<T>)
    requires |b| > 0
    ensures (a + b)[..|a + b| - 1] == a + b[..|b| - 1] && (a + b)[|a + b| - 1] == b[|b| - 1]
  {
  }

  lemma EntriesOne(line: string)
    ensures Entries([line]) == [Classify(line)]
  {
    assert [line][..0] == [];
  }

  /** The entries of lines that are all kept verbatim. */
  function Verbatims(ls: seq<string>): (es: seq<Entry>)
    ensures |es| == |ls| && forall k :: 0 <= k < |ls| ==> es[k] == Verbatim(ls[k])
  {
    seq(|ls|, k requires 0 <= k < |ls| => Verbatim(ls[k]))
  }

  /** Verbatim lines all go, in order, to `other`. */
  lemma {:induction false} BuildVerbatims(c: Config, ls: seq<string>)
    ensures Build(c, Verbatims(ls)) == c.(other := c.other + ls)
  {
    if |ls| > 0 {
      var init, last := ls[..|ls| - 1], ls[|ls| - 1];
      BuildVerbatims(c, init);
      assert Verbatims(ls) == Verbatims(init) + [Verbatim(last)];
      BuildSnoc(c, Verbatims(init), Verbatim(last));
      assert c.other + init + [last] == c.other + ls;
    } else {
      assert c.other + ls == c.other;
    }
  }

  /** Lines parseConfig leaves unparsed are read as verbatim entries. */
  lemma {:induction false} EntriesUnparsed(ls: seq<string>)
    requires forall k {:trigger Classify(ls[k])} :: 0 <= k < |ls| ==> Classify(ls[k]) == Verbatim(ls[k])
    ensures Entries(ls) == Verbatims(ls)
  {
    if |ls| > 0 {
      var init := ls[..|ls| - 1];
      forall k | 0 <= k < |init|
        ensures Classify(init[k]) == Verbatim(init[k])
      {
        assert init[k] == ls[k];
      }
      EntriesUnparsed(init);
      EntriesLast(ls);
    }
  }

  /** Lines parseConfig leaves unparsed all go, in order, to `other`. */
  lemma BuildUnparsed(c: Config, ls: seq<string>)
    requires forall k {:trigger Classify(ls[k])} :: 0 <= k < |ls| ==> Classify(ls[k]) == Verbatim(ls[k])
    ensures Build(c, Entries(ls)) == c.(other := c.other + ls)
  {
    EntriesUnparsed(ls);
    BuildVerbatims(c, ls);
  }

  /** A setting line reads back as the setting it was written from. */
  lemma SettingReadBack(f: Field, v: string)
    requires v != "" && Clean(v)
    ensures Classify(FieldKey(f) + ": " + v) == Setting(f, v)
  {
    SettingKeyValue(f, v);
    KeyedSetting(f, v, FieldKey(f) + ": " + v);
  }

  lemma SettingKeyValue(f: Field, v: string)
    requires v != "" && Clean(v)
    ensures KeyValue(FieldKey(f) + ": " + v) == Some((FieldKey(f), v))
  {
    var key := FieldKey(f);
    assert key + ": " + v == key + (":" + (" " + v));
    KeyValueOf(key, " ", v);
  }

  lemma KeyedSetting(f: Field, v: string, line: string)
    requires Trimmed(v)
    ensures Keyed(FieldKey(f), v, line) == Setting(f, v)
  {
  }

  lemma EntriesSetting(f: Field, v: string)
    requires Clean(v)
    ensures Entries(SettingLine(f, v)) == if v == "" then [] else [Setting(f, v)]
  {
    if v != "" {
      EntriesOne(FieldKey(f) + ": " + v);
      SettingReadBack(f, v);
    }
  }

  /** The setting lines read back as the settings, over a state that has none yet. */
  lemma BuildSettings(c: Config, s: Config)
    requires c.name == "" && c.vmgenid == "" && c.scsi0 == ""
    requires Clean(s.name) && Clean(s.vmgenid) && Clean(s.scsi0)
    ensures Build(c, Entries(Settings(s))) == c.(name := s.name, vmgenid := s.vmgenid, scsi0 := s.scsi0)
  {
    var a, b, d := SettingLine(Name, s.name), SettingLine(VmGenId, s.vmgenid), SettingLine(Scsi0, s.scsi0);
    EntriesAppend(a + b, d);
    EntriesAppend(a, b);
    var ea, eb, ed := Entries(a), Entries(b), Entries(d);
    BuildAppend(c, ea + eb, ed);
    BuildAppend(c, ea, eb);
    BuildSetting(c, Name, s.name);
    var c1 := c.(name := s.name);
    BuildSetting(c1, VmGenId, s.vmgenid);
    var c2 := c1.(vmgenid := s.vmgenid);
    BuildSetting(c2, Scsi0, s.scsi0);
  }

  lemma BuildSetting(c: Config, f: Field, v: string)
    requires Clean(v)
    ensures Build(c, Entries(SettingLine(f, v))) == if v == "" then c else Apply(c, Setting(f, v))
  {
    EntriesSetting(f, v);
    if v != "" {
      assert [Setting(f, v)][..0] == [];
    }
  }

  /* reading back a NIC line */

  lemma UpperMac(mac: string)
    requires forall k :: 0 <= k < |mac| ==> IsUpperMacChar(mac[k])
    ensures UpperString(mac) == mac
  {
    UpperStringAt(mac);
  }

  lemma TagAtOf(val: string, q: nat, tag: string)
    requires q <= |val| && val[q..] == TagSuffix(tag) && AllDigits(tag)
    ensures TagAt(val, q) == tag
  {
    if tag != "" {
      assert val[q] == ',';
      assert val[q + 1..q + 5] == "tag=" by {
        assert forall k :: q + 1 <= k < q + 5 ==> val[k] == val[q..][k - q];
      }
      assert val[q + 5..q + 5 + |tag|] == tag by {
        assert forall k :: q + 5 <= k < q + 5 + |tag| ==> val[k] == val[q..][k - q];
      }
      FieldAt(val, q + 1, "tag", tag, true);
    } else {
      assert q == |val|;
    }
  }

  /** The optional `,bridge=` and `,tag=` fields after the MAC read back as written. */
  lemma NetTailOf(val: string, p: nat, bridge: string, tag: string)
    requires p <= |val| && val[p..] == BridgeSuffix(bridge) + TagSuffix(tag)
    requires (forall k :: 0 <= k < |bridge| ==> ValueChar(bridge[k], false)) && AllDigits(tag)
    ensures BridgeAt(val, p).0 == bridge && TagAt(val, BridgeAt(val, p).1) == tag
  {
    BridgeAtOf(val, p, bridge, tag);
    var q := BridgeAt(val, p).1;
    SuffixAfter(val, p, BridgeSuffix(bridge), TagSuffix(tag));
    TagAtOf(val, q, tag);
  }

  lemma BridgeAtOf(val: string, p: nat, bridge: string, tag: string)
    requires p <= |val| && val[p..] == BridgeSuffix(bridge) + TagSuffix(tag)
    requires (forall k :: 0 <= k < |bridge| ==> ValueChar(bridge[k], false)) && AllDigits(tag)
    ensures BridgeAt(val, p).0 == bridge && BridgeAt(val, p).1 == p + |BridgeSuffix(bridge)|
  {
    if bridge != "" {
      BridgeAtSome(val, p, bridge, tag);
    } else {
      BridgeAtEmpty(val, p, bridge, tag);
    }
  }

  lemma BridgeAtSome(val: string, p: nat, bridge: string, tag: string)
    requires p <= |val| && val[p..] == BridgeSuffix(bridge) + TagSuffix(tag)
    requires (forall k :: 0 <= k < |bridge| ==> ValueChar(bridge[k], false)) && AllDigits(tag)
    requires bridge != ""
    ensures BridgeAt(val, p) == (bridge, p + |BridgeSuffix(bridge)|)
  {
    TagSuffixHead(tag);
    BridgeFound(val, p, bridge, TagSuffix(tag));
  }

  lemma TagSuffixHead(tag: string)
    ensures TagSuffix(tag) == [] || TagSuffix(tag)[0] == ','
  {
  }

  lemma BridgeAtEmpty(val: string, p: nat, bridge: string, tag: string)
    requires p <= |val| && val[p..] == BridgeSuffix(bridge) + TagSuffix(tag)
    requires AllDigits(tag) && bridge == ""
    ensures BridgeAt(val, p) == (bridge, p + |BridgeSuffix(bridge)|)
  {
    assert val[p..] == TagSuffix(tag);
    BridgeNone(val, p, tag);
  }

  lemma BridgeNone(val: string, p: nat, tag: string)
    requires p <= |val| && val[p..] == TagSuffix(tag) && AllDigits(tag)
    ensures BridgeAt(val, p) == ("", p)
  {
    if tag != "" {
      BridgeAbsent(val, p, tag);
    } else {
      assert |val[p..]| == 0;
    }
  }

  /** What follows a known prefix of a suffix. */
  lemma SuffixAfter(val: string, p: nat, a: string, b: string)
    requires p <= |val| && val[p..] == a + b
    ensures val[p + |a|..] == b
  {
    assert val[p + |a|..] == val[p..][|a|..];
  }

  lemma BridgeFound(val: string, p: nat, bridge: string, rest: string)
    requires p <= |val| && val[p..] == ",bridge=" + bridge + rest
    requires bridge != "" && forall k :: 0 <= k < |bridge| ==> ValueChar(bridge[k], false)
    requires rest == [] || rest[0] == ','
    ensures BridgeAt(val, p) == (bridge, p + 8 + |bridge|)
  {
    var x := val[p..];
    var e := p + 8 + |bridge|;
    assert forall k :: p <= k < |val| ==> val[k] == x[k - p];
    assert val[p] == ',';
    assert val[p + 1..p + 8] == "bridge=";
    assert val[p + 8..e] == bridge;
    assert e < |val| ==> val[e] == ',';
    FieldAt(val, p + 1, "bridge", bridge, false);
  }

  lemma BridgeAbsent(val: string, p: nat, tag: string)
    requires p <= |val| && val[p..] == ",tag=" + tag && AllDigits(tag)
    ensures BridgeAt(val, p) == ("", p)
  {
    var x := val[p..];
    assert forall k :: p <= k < |val| ==> val[k] == x[k - p];
    assert val[p] == ',';
    FieldAbsent(val, p + 1, "bridge", false);
  }

  /** The value written for a well-formed NIC reads back as that NIC. */
  lemma ParseNetOf(index: nat, n: Net)
    requires WellFormed(n)
    ensures ParseNet(index, NetValue(n)) == n.(index := index)
  {
    NetValueShape(n);
    NetValueLayout(n, NetValue(n));
    ParseNetLaidOut(index, NetValue(n), n);
  }

  lemma NetValueShape(n: Net)
    requires WellFormed(n)
    ensures NetValue(n) == n.model + "=" + n.mac + (BridgeSuffix(n.bridge) + TagSuffix(n.tag))
  {
  }

  /** Where each part of a NIC sits in the value written for it, as parseConfig finds them. */
  predicate LaidOut(val: string, n: Net) {
    MacHead(val) == Some(|n.model|) && PartsAt(val, n)
  }

  /** The model, MAC, bridge and tag of `n`, read after a model of its length. */
  predicate PartsAt(val: string, n: Net) {
    var m := |n.model|;
    && m + 18 <= |val|
    && val[..m] == n.model && val[m + 1..m + 18] == n.mac && UpperString(n.mac) == n.mac
    && BridgeAt(val, m + 18).0 == n.bridge && TagAt(val, BridgeAt(val, m + 18).1) == n.tag
  }

  lemma NetValueLayout(n: Net, val: string)
    requires WellFormed(n)
    requires val == n.model + "=" + n.mac + (BridgeSuffix(n.bridge) + TagSuffix(n.tag))
    ensures LaidOut(val, n)
  {
    var m := |n.model|;
    MacHeadOf(val, m, n.model, n.mac, BridgeSuffix(n.bridge) + TagSuffix(n.tag));
    UpperMac(n.mac);
    NetTailOf(val, m + 18, n.bridge, n.tag);
  }

  lemma ParseNetLaidOut(index: nat, val: string, n: Net)
    requires LaidOut(val, n)
    ensures ParseNet(index, val) == n.(index := index)
  {
    ParseNetAt(index, val, |n.model|);
    NetAtOf(index, val, n);
  }

  lemma NetAtOf(index: nat, val: string, n: Net)
    requires PartsAt(val, n)
    ensures NetAt(index, val, |n.model|) == n.(index := index)
  {
  }

  lemma MacHeadOf(val: string, m: nat, model: string, mac: string, tail: string)
    requires val == model + "=" + mac + tail && m == |model|
    requires |model| > 0 && forall k :: 0 <= k < |model| ==> IsWordChar(model[k])
    requires |mac| == 17 && forall k :: 0 <= k < 17 ==> IsUpperMacChar(mac[k])
    ensures MacHead(val) == Some(m)
    ensures val[..m] == model && val[m + 1..m + 18] == mac && val[m + 18..] == tail
  {
    WordRunOf(model, "=" + mac + tail);
    assert val == model + ("=" + mac + tail);
    assert forall k :: m + 1 <= k < m + 18 ==> val[k] == mac[k - m - 1];
    assert val[m + 1..m + 18] == mac;
  }

  /** What serializeConfig writes after `netN: ` holds no line terminator and starts with a
      word character. */
  lemma NetValueClean(n: Net)
    requires WellFormed(n)
    ensures NoLineTerminator(NetValue(n)) && !IsSpace(NetValue(n)[0])
    ensures Trimmed(NetValue(n))
  {
    var b, t := BridgeSuffix(n.bridge), TagSuffix(n.tag);
    assert SpaceFree(n.model);
    assert SpaceFree("=");
    assert SpaceFree(n.mac);
    LabelSpaceFree(",bridge=", n.bridge);
    LabelSpaceFree(",tag=", n.tag);
    SpaceFreeConcat(n.model, "=");
    SpaceFreeConcat(n.model + "=", n.mac);
    SpaceFreeConcat(n.model + "=" + n.mac, b);
    SpaceFreeConcat(n.model + "=" + n.mac + b, t);
    SpaceFreeClean(NetValue(n));
  }

  /** A string with no white space at all. */
  predicate SpaceFree(s: string) {
    forall k :: 0 <= k < |s| ==> !IsSpace(s[k])
  }

  lemma SpaceFreeConcat(a: string, b: string)
    requires SpaceFree(a) && SpaceFree(b)
    ensures SpaceFree(a + b)
  {
    forall k | 0 <= k < |a + b|
      ensures !IsSpace((a + b)[k])
    {
      if k >= |a| {
        assert (a + b)[k] == b[k - |a|];
      }
    }
  }

  /** `,bridge=` or `,tag=` followed by a value with no white space, when the value is set. */
  lemma LabelSpaceFree(lead: string, x: string)
    requires lead == ",bridge=" || lead == ",tag="
    requires forall k :: 0 <= k < |x| ==> ValueChar(x[k], false) || IsDigit(x[k])
    ensures SpaceFree(if x != "" then lead + x else "")
  {
    assert SpaceFree(lead);
    assert SpaceFree(x);
    SpaceFreeConcat(lead, x);
  }

  lemma SpaceFreeClean(s: string)
    requires SpaceFree(s)
    ensures NoLineTerminator(s) && Trimmed(s)
    ensures s != "" ==> !IsSpace(s[0])
  {
  }

  /** The line for a NIC with a MAC reads back as that NIC, numbered by its position. */
  lemma NetLineReadBack(i: nat, n: Net)
    requires n.mac != "" && Writable(n)
    ensures Classify(NetLine(i, n)) == Interface(Renumbered(i, n))
  {
    var w := n.(model := ModelOf(n));
    var key := "net" + NatToString(i);
    var val := NetValue(n);
    assert NetValue(w) == val;
    NetValueClean(w);
    assert NetLine(i, n) == key + (":" + (" " + val));
    NetKeyOf(i);
    KeyValueOf(key, " ", val);
    assert Classify(NetLine(i, n)) == Keyed(key, val, NetLine(i, n));
    ParseNetOf(i, w);
  }

  /** `net` followed by a rendered position is a NIC key naming that position. */
  lemma NetKeyOf(i: nat)
    ensures var key := "net" + NatToString(i);
      && 2 <= |key| && (forall k :: 0 <= k < |key| ==> IsWordChar(key[k]))
      && key != "name" && key != "vmgenid" && key != "scsi0"
      && IsNetKey(key) && DigitsValue(key[3..]) == i
  {
    var key := "net" + NatToString(i);
    assert key[0] == 'n' && key[1] == 'e';
    assert key[3..] == NatToString(i);
    DecimalRoundTrip(i);
  }

  /** The entries of the NIC lines written for `xs`. */
  function Interfaces(xs: seq<Net>): (es: seq<Entry>)
    ensures |es| == |xs|
  {
    if |xs| == 0 then [] else Interfaces(xs[..|xs| - 1]) + [Interface(xs[|xs| - 1])]
  }

  lemma InterfacesSnoc(xs: seq<Net>, x: Net)
    ensures Interfaces(xs + [x]) == Interfaces(xs) + [Interface(x)]
  {
    assert (xs + [x])[..|xs|] == xs;
  }

  /** Building from NIC entries appends their NICs and changes nothing else. */
  lemma {:induction false} BuildInterfaces(c: Config, xs: seq<Net>)
    ensures Build(c, Interfaces(xs)) == c.(nets := c.nets + xs)
  {
    if |xs| > 0 {
      var init := xs[..|xs| - 1];
      BuildInterfaces(c, init);
      BuildSnoc(c, Interfaces(init), Interface(xs[|xs| - 1]));
      assert c.nets + init + [xs[|xs| - 1]] == c.nets + xs;
    } else {
      assert c.nets + xs == c.nets;
    }
  }

  /** The NIC lines read back as the NICs with a MAC, renumbered by position. */
  lemma {:induction false} EntriesNetLines(nets: seq<Net>, count: nat)
    requires count <= |nets|
    requires forall k :: 0 <= k < |nets| ==> Writable(nets[k])
    ensures Entries(NetLines(nets, count)) == Interfaces(Renumber(nets, count))
    decreases count, 1
  {
    if count == 0 {
    } else if nets[count - 1].mac != "" {
      EntriesNetLineWritten(nets, count);
    } else {
      EntriesNetLines(nets, count - 1);
      EntriesNetLineSkipped(nets, count);
    }
  }

  /** A NIC without a MAC adds no line and no entry. */
  lemma EntriesNetLineSkipped(nets: seq<Net>, count: nat)
    requires 0 < count <= |nets| && nets[count - 1].mac == ""
    requires Entries(NetLines(nets, count - 1)) == Interfaces(Renumber(nets, count - 1))
    ensures Entries(NetLines(nets, count)) == Interfaces(Renumber(nets, count))
  {
    NetLinesSkipped(nets, count);
  }

  lemma {:induction false} EntriesNetLineWritten(nets: seq<Net>, count: nat)
    requires 0 < count <= |nets| && nets[count - 1].mac != ""
    requires forall k :: 0 <= k < |nets| ==> Writable(nets[k])
    ensures Entries(NetLines(nets, count)) == Interfaces(Renumber(nets, count))
    decreases count, 0
  {
    var i := count - 1;
    var n := nets[i];
    var line := NetLine(i, n);
    NetLinesWritten(nets, count);
    calc {
      Entries(NetLines(nets, count));
      Entries(NetLines(nets, i) + [line]);
      { EntriesAppend(NetLines(nets, i), [line]); }
      Entries(NetLines(nets, i)) + Entries([line]);
      { EntriesNetLines(nets, i); EntriesOne(line); NetLineReadBack(i, n); }
      Interfaces(Renumber(nets, i)) + [Interface(Renumbered(i, n))];
      { InterfacesSnoc(Renumber(nets, i), Renumbered(i, n)); }
      Interfaces(Renumber(nets, i) + [Renumbered(i, n)]);
      Interfaces(Renumber(nets, count));
    }
  }

  lemma NetLinesWritten(nets: seq<Net>, count: nat)
    requires 0 < count <= |nets| && nets[count - 1].mac != ""
    ensures NetLines(nets, count) == NetLines(nets, count - 1) + [NetLine(count - 1, nets[count - 1])]
    ensures Renumber(nets, count) == Renumber(nets, count - 1) + [Renumbered(count - 1, nets[count - 1])]
  {
  }

  lemma NetLinesSkipped(nets: seq<Net>, count: nat)
    requires 0 < count <= |nets| && nets[count - 1].mac == ""
    ensures NetLines(nets, count) == NetLines(nets, count - 1)
    ensures Renumber(nets, count) == Renumber(nets, count - 1)
  {
  }

  /** The NICs read back are numbered below `count` and in increasing order. */
  lemma {:induction false} RenumberSorted(nets: seq<Net>, count: nat)
    requires count <= |nets|
    ensures forall k :: 0 <= k < |Renumber(nets, count)| ==> Renumber(nets, count)[k].index < count
    ensures SortedByIndex(Renumber(nets, count))
  {
    if count > 0 {
      RenumberSorted(nets, count - 1);
    }
  }

  /* ---------------- the text between the two ---------------- */

  /** Appending one more part appends the separator and that part. */
  lemma {:induction false} JoinSnoc(parts: seq<string>, x: string, sep: char)
    requires |parts| >= 1
    ensures Join(parts + [x], sep) == Join(parts, sep) + [sep] + x
  {
    if |parts| > 1 {
      JoinSnoc(parts[1..], x, sep);
      assert (parts + [x])[1..] == parts[1..] + [x];
    } else {
      assert (parts + [x])[1..] == [x];
    }
  }

  /** A line serializeConfig can join and parseConfig split back out unchanged. */
  predicate CleanLine(line: string) {
    line != "" && Trimmed(line) && '\n' !in line
  }

  /** Joining clean lines with newlines and a final newline, then splitting, trimming and
      dropping blank lines, gives the lines back. */
  lemma LinesOfJoined(out: seq<string>)
    requires forall k :: 0 <= k < |out| ==> CleanLine(out[k])
    ensures NonBlank(Lines(Join(out, '\n') + "\n")) == out
  {
    if |out| == 0 {
      LinesOfNewline();
    } else {
      LinesOfJoinedSome(out);
    }
  }

  lemma LinesOfNewline()
    ensures NonBlank(Lines(Join([], '\n') + "\n")) == []
  {
    var text := Join([], '\n') + "\n";
    assert text == "\n";
    assert Split(text, '\n') == ["", ""] by {
      assert text[1..] == "";
    }
    assert Lines(text) == ["", ""];
  }

  lemma LinesOfJoinedSome(out: seq<string>)
    requires |out| > 0 && forall k :: 0 <= k < |out| ==> CleanLine(out[k])
    ensures NonBlank(Lines(Join(out, '\n') + "\n")) == out
  {
    JoinNewline(out);
    TrimmedWithBlank(out);
    LinesOfTrimmed(out + [""]);
    NonBlankDropsLast(out);
  }

  lemma JoinNewline(out: seq<string>)
    requires |out| > 0
    ensures Join(out + [""], '\n') == Join(out, '\n') + "\n"
  {
    var j := Join(out, '\n');
    JoinSnoc(out, "", '\n');
    assert j + ['\n'] + "" == j + "\n";
  }

  lemma TrimmedWithBlank(out: seq<string>)
    requires forall k :: 0 <= k < |out| ==> CleanLine(out[k])
    ensures forall k :: 0 <= k < |out| + 1 ==> Trimmed((out + [""])[k]) && '\n' !in (out + [""])[k]
  {
    forall k | 0 <= k < |out| + 1
      ensures Trimmed((out + [""])[k]) && '\n' !in (out + [""])[k]
    {
      if k < |out| {
        assert (out + [""])[k] == out[k];
      } else {
        assert (out + [""])[k] == "";
      }
    }
  }

  lemma NonBlankDropsLast(out: seq<string>)
    requires forall k :: 0 <= k < |out| ==> out[k] != ""
    ensures NonBlank(out + [""]) == out
  {
    assert (out + [""])[..|out|] == out;
    NonBlankKeeps(out);
  }

  /** Splitting trimmed lines joined by newlines gives them back. */
  lemma LinesOfTrimmed(ls: seq<string>)
    requires |ls| >= 1 && forall k :: 0 <= k < |ls| ==> Trimmed(ls[k]) && '\n' !in ls[k]
    ensures Lines(Join(ls, '\n')) == ls
  {
    var parts := Split(Join(ls, '\n'), '\n');
    SplitJoin(ls, '\n');
    assert parts == ls;
    var r := Lines(Join(ls, '\n'));
    forall k | 0 <= k < |r|
      ensures r[k] == ls[k]
    {
      assert r[k] == Trim(parts[k]);
    }
  }

  /** A configuration serializeConfig writes so that parseConfig reads it back: settings
      with no line terminator and no surrounding white space, and writable NICs. */
  predicate Portable(c: Config) {
    && Clean(c.name) && Clean(c.vmgenid) && Clean(c.scsi0)
    && forall k :: 0 <= k < |c.nets| ==> Writable(c.nets[k])
  }

  lemma UnmanagedClean(text: string)
    ensures forall k :: 0 <= k < |Unmanaged(Lines(text))| ==> CleanLine(Unmanaged(Lines(text))[k])
  {
    var ls := Lines(text);
    var u := Unmanaged(ls);
    forall k | 0 <= k < |u|
      ensures CleanLine(u[k])
    {
      var j :| 0 <= j < |ls| && ls[j] == u[k];
    }
  }

  lemma SettingLineClean(f: Field, v: string)
    requires Clean(v)
    ensures forall k :: 0 <= k < |SettingLine(f, v)| ==> CleanLine(SettingLine(f, v)[k])
  {
    if v != "" {
      var line := FieldKey(f) + ": " + v;
      assert line[0] == FieldKey(f)[0];
      assert line[|line| - 1] == v[|v| - 1];
      assert '\n' !in line by {
        assert forall k :: 0 <= k < |v| ==> !IsLineTerminator(v[k]);
      }
    }
  }

  lemma SettingsClean(c: Config)
    requires Clean(c.name) && Clean(c.vmgenid) && Clean(c.scsi0)
    ensures forall k :: 0 <= k < |Settings(c)| ==> CleanLine(Settings(c)[k])
  {
    SettingLineClean(Name, c.name);
    SettingLineClean(VmGenId, c.vmgenid);
    SettingLineClean(Scsi0, c.scsi0);
  }

  lemma NetLineClean(i: nat, n: Net)
    requires n.mac != "" && Writable(n)
    ensures CleanLine(NetLine(i, n))
  {
    var w := n.(model := ModelOf(n));
    var val := NetValue(n);
    assert NetValue(w) == val;
    NetValueClean(w);
    var line := NetLine(i, n);
    assert line == "net" + NatToString(i) + ": " + val;
    assert line[|line| - 1] == val[|val| - 1];
    assert '\n' !in line by {
      NetKeyOf(i);
      assert forall k :: 0 <= k < |val| ==> !IsLineTerminator(val[k]);
      assert forall k :: 3 <= k < |line| - |val| - 2 ==> IsDigit(line[k]);
    }
  }

  lemma {:induction false} NetLinesClean(nets: seq<Net>, count: nat)
    requires count <= |nets|
    requires forall k :: 0 <= k < count ==> Writable(nets[k])
    ensures forall k :: 0 <= k < |NetLines(nets, count)| ==> CleanLine(NetLines(nets, count)[k])
  {
    if count > 0 {
      NetLinesClean(nets, count - 1);
      if nets[count - 1].mac != "" {
        NetLineClean(count - 1, nets[count - 1]);
      }
    }
  }

  /* ---------------- the round trip ---------------- */

  /** Building from the written lines: the kept lines become `other`, then the settings, then the
      NICs read back. */
  lemma BuildOutLines(c: Config, text: string)
    requires Portable(c)
    ensures Build(Empty, Entries(OutLines(c, text)))
      == Config(c.name, c.vmgenid, c.scsi0, Renumber(c.nets, |c.nets|), Unmanaged(Lines(text)))
  {
    var u, st, nl := Unmanaged(Lines(text)), Settings(c), NetLines(c.nets, |c.nets|);
    EntriesAppend(u + st, nl);
    EntriesAppend(u, st);
    var eu, es, en := Entries(u), Entries(st), Entries(nl);
    BuildAppend(Empty, eu + es, en);
    BuildAppend(Empty, eu, es);
    BuildKept(text);
    var c1 := Empty.(other := u);
    BuildSettings(c1, c);
    var c2 := c1.(name := c.name, vmgenid := c.vmgenid, scsi0 := c.scsi0);
    EntriesNetLines(c.nets, |c.nets|);
    BuildInterfaces(c2, Renumber(c.nets, |c.nets|));
  }

  /** The lines serializeConfig keeps from the original text all read back as unparsed. */
  lemma BuildKept(text: string)
    ensures Build(Empty, Entries(Unmanaged(Lines(text)))) == Empty.(other := Unmanaged(Lines(text)))
  {
    var u := Unmanaged(Lines(text));
    forall k | 0 <= k < |u|
      ensures Classify(u[k]) == Verbatim(u[k])
    {
      ManagedCovers(u[k]);
    }
    BuildUnparsed(Empty, u);
  }

  lemma CleanLinesConcat(a: seq<string>, b: seq<string>, d: seq<string>)
    requires forall k :: 0 <= k < |a| ==> CleanLine(a[k])
    requires forall k :: 0 <= k < |b| ==> CleanLine(b[k])
    requires forall k :: 0 <= k < |d| ==> CleanLine(d[k])
    ensures forall k :: 0 <= k < |a + b + d| ==> CleanLine((a + b + d)[k])
  {
    forall k | 0 <= k < |a + b + d|
      ensures CleanLine((a + b + d)[k])
    {
      if k < |a| {
        assert (a + b + d)[k] == a[k];
      } else if k < |a| + |b| {
        assert (a + b + d)[k] == b[k - |a|];
      } else {
        assert (a + b + d)[k] == d[k - |a| - |b|];
      }
    }
  }

  /** serializeConfig then parseConfig: the settings come back as they were, the lines
      serializeConfig kept come back as the unparsed lines, and every NIC with a MAC comes
      back renumbered by its position. */
  lemma SerializeThenParse(c: Config, text: string)
    requires Portable(c)
    ensures Parsed(Serialized(c, text))
      == Config(c.name, c.vmgenid, c.scsi0, Renumber(c.nets, |c.nets|), Unmanaged(Lines(text)))
  {
    var out := OutLines(c, text);
    var u, st, nl := Unmanaged(Lines(text)), Settings(c), NetLines(c.nets, |c.nets|);
    UnmanagedClean(text);
    SettingsClean(c);
    NetLinesClean(c.nets, |c.nets|);
    CleanLinesConcat(u, st, nl);
    LinesOfJoined(out);
    BuildOutLines(c, text);
    RenumberSorted(c.nets, |c.nets|);
    SortKeepsSorted(Renumber(c.nets, |c.nets|));
  }

  /* ---------------- what parseConfig reads is writable ---------------- */

  /** What one line contributes is something serializeConfig can write back. */
  predicate EntryPortable(e: Entry) {
    && (e.Setting? ==> Clean(e.value))
    && (e.Interface? ==> Writable(e.net))
  }

  /** A trimmed value with no line terminator is clean. */
  lemma TrimClean(v: string)
    requires NoLineTerminator(v)
    ensures Clean(Trim(v))
  {
    TrimChars(v);
  }

  lemma ParseNetWritable(index: nat, val: string)
    ensures Writable(ParseNet(index, val))
  {
    var n := ParseNet(index, val);
    ParseNetShape(index, val);
    if n.mac != "" {
      assert n.(model := ModelOf(n)) == n;
    }
  }

  lemma KeyedPortable(key: string, val: string, line: string)
    requires NoLineTerminator(val)
    ensures EntryPortable(Keyed(key, val, line))
  {
    if key == "name" || key == "vmgenid" || key == "scsi0" {
      TrimClean(val);
    } else if IsNetKey(key) {
      ParseNetWritable(DigitsValue(key[3..]), val);
    }
  }

  lemma ClassifyPortable(line: string)
    ensures EntryPortable(Classify(line))
  {
    if KeyValue(line).Some? {
      ClassifyKeyedPortable(line);
    } else {
      ClassifyPlainPortable(line);
    }
  }

  lemma ClassifyKeyedPortable(line: string)
    requires KeyValue(line).Some?
    ensures EntryPortable(Classify(line))
  {
    var kv := KeyValue(line);
    KeyedPortable(kv.value.0, kv.value.1, line);
  }

  lemma ClassifyPlainPortable(line: string)
    requires KeyValue(line).None?
    ensures EntryPortable(Classify(line))
  {
  }

  lemma ApplyPortable(c: Config, e: Entry)
    requires Portable(c) && EntryPortable(e)
    ensures Portable(Apply(c, e))
  {
    if e.Interface? {
      var r := Apply(c, e);
      assert forall k :: 0 <= k < |r.nets| ==> r.nets[k] == (c.nets + [e.net])[k];
    }
  }

  lemma {:induction false} BuildPortable(c: Config, es: seq<Entry>)
    requires Portable(c)
    requires forall k :: 0 <= k < |es| ==> EntryPortable(es[k])
    ensures Portable(Build(c, es))
  {
    if |es| > 0 {
      var init := es[..|es| - 1];
      assert forall k :: 0 <= k < |init| ==> init[k] == es[k];
      BuildPortable(c, init);
      ApplyPortable(Build(c, init), es[|es| - 1]);
    }
  }

  /** Every entry parseConfig reads from any lines can be written back. */
  lemma {:induction false} EntriesPortable(ls: seq<string>)
    ensures forall k :: 0 <= k < |Entries(ls)| ==> EntryPortable(Entries(ls)[k])
  {
    if |ls| > 0 {
      var init := ls[..|ls| - 1];
      EntriesPortable(init);
      ClassifyPortable(ls[|ls| - 1]);
      EntriesPortableSnoc(Entries(init), Classify(ls[|ls| - 1]));
    }
  }

  lemma EntriesPortableSnoc(es: seq<Entry>, e: Entry)
    requires forall k :: 0 <= k < |es| ==> EntryPortable(es[k])
    requires EntryPortable(e)
    ensures forall k :: 0 <= k < |es + [e]| ==> EntryPortable((es + [e])[k])
  {
  }

  lemma SortPortable(c: Config)
    requires Portable(c)
    ensures Portable(c.(nets := SortByIndex(c.nets)))
  {
    var s := SortByIndex(c.nets);
    SortPermutes(c.nets);
    forall k | 0 <= k < |s|
      ensures Writable(s[k])
    {
      assert s[k] in multiset(c.nets);
    }
  }

  /** Every configuration parseConfig reads is one serializeConfig writes back faithfully. */
  lemma ParsedPortable(text: string)
    ensures Portable(Parsed(text))
  {
    var es := Entries(NonBlank(Lines(text)));
    EntriesPortable(NonBlank(Lines(text)));
    BuildPortable(Empty, es);
    SortPortable(Build(Empty, es));
  }

  /** Reading a file, writing it over an original and reading the result gives back the
      settings read, the NICs read (renumbered) and the lines kept from the original. */
  lemma ParseSerializeParse(text: string, original: string)
    ensures var c := Parsed(text);
      Parsed(Serialized(c, original))
        == Config(c.name, c.vmgenid, c.scsi0, Renumber(c.nets, |c.nets|), Unmanaged(Lines(original)))
  {
    ParsedPortable(text);
    SerializeThenParse(Parsed(text), original);
  }

  /** NICs numbered by position, each with a MAC and a model, are read back as they are. */
  lemma {:induction false} RenumberFixed(nets: seq<Net>, count: nat)
    requires count <= |nets|
    requires forall k :: 0 <= k < count ==> nets[k].index == k && nets[k].mac != "" && nets[k].model != ""
    ensures Renumber(nets, count) == nets[..count]
  {
    if count > 0 {
      RenumberFixed(nets, count - 1);
      assert nets[..count] == nets[..count - 1] + [nets[count - 1]];
    }
  }
}
