/**
 * The firewall-rule rewriters and `buildRuleClones`: copies of a `<rule>` template, each with
 * its own source address, gateway and tracker.
 */
module RuleFamily {
  import opened Outcomes
  import opened Text
  import opened Markup
  import Ip
  import PppFamily

  /* ---------------- source address ---------------- */

  /** `<source>[\s\S]*?<address>([\s\S]*?)</address>[\s\S]*?</source>` (case-insensitive):
      the positions of `<source>`, `<address>`, `</address>` and `</source>` of its match. */
  function SourceChain(rule: string): (r: Option<(nat, nat, nat, nat)>)
    ensures r.Some? ==> var (p, q, c, t) := r.value;
      && p + 8 <= q && q + 9 <= c && c + 10 <= t && t + 9 <= |rule|
      && MatchAt(rule, p, Open("source"), true) && MatchAt(rule, q, Open("address"), true)
      && MatchAt(rule, c, Close("address"), true) && MatchAt(rule, t, Close("source"), true)
    ensures r.Some? ==> IndexFrom(rule, Open("source"), 0, true) == Some(r.value.0)
  {
    match IndexFrom(rule, Open("source"), 0, true)
    case None => None
    case Some(p) =>
      match IndexFrom(rule, Open("address"), p + 8, true)
      case None => None
      case Some(q) =>
        match IndexFrom(rule, Close("address"), q + 9, true)
        case None => None
        case Some(c) =>
          match IndexFrom(rule, Close("source"), c + 10, true)
          case None => None
          case Some(t) => Some((p, q, c, t))
  }

  /** SourceChain takes the first match of each of the four tags in turn, and finds nothing
      only when no `<source>`, `<address>`, `</address>`, `</source>` follow one another. */
  lemma SourceChainFirst(rule: string)
    ensures SourceChain(rule).Some? ==> var (p, q, c, t) := SourceChain(rule).value;
      && (forall j :: 0 <= j < p ==> !MatchAt(rule, j, Open("source"), true))
      && (forall j :: p + 8 <= j < q ==> !MatchAt(rule, j, Open("address"), true))
      && (forall j :: q + 9 <= j < c ==> !MatchAt(rule, j, Close("address"), true))
      && (forall j :: c + 10 <= j < t ==> !MatchAt(rule, j, Close("source"), true))
    ensures SourceChain(rule).None? ==> forall p, q, c, t ::
      && 0 <= p && p + 8 <= q && q + 9 <= c && c + 10 <= t
      && MatchAt(rule, p, Open("source"), true) && MatchAt(rule, q, Open("address"), true)
      && MatchAt(rule, c, Close("address"), true)
      ==> !MatchAt(rule, t, Close("source"), true)
  {
  }

  /** `getSourceAddressFromRule`: the trimmed captured address, or ''. */
  function SourceAddress(rule: string): (r: string)
    ensures Trimmed(r)
    ensures SourceChain(rule).None? ==> r == ""
    ensures SourceChain(rule).Some? ==> r == Trim(rule[SourceChain(rule).value.1 + 9..SourceChain(rule).value.2])
  {
    Trim(SourceCapture(rule))
  }

  /** The text the pattern captures between `<address>` and `</address>`, or ''. */
  function SourceCapture(rule: string): (r: string)
    ensures SourceChain(rule).Some? ==> r == rule[SourceChain(rule).value.1 + 9..SourceChain(rule).value.2]
    ensures SourceChain(rule).None? ==> r == ""
  {
    match SourceChain(rule)
    case None => ""
    case Some((p, q, c, t)) => rule[q + 9..c]
  }

  /** `r` is `s` with [a, b) replaced as `replace` does it: the text around the span is kept,
      and the new text is `block` when it has no `$`. */
  predicate Spliced(s: string, r: string, a: nat, b: nat, block: string) {
    && a <= b <= |s| && a + (|s| - b) <= |r|
    && r[..a] == s[..a] && r[|r| - (|s| - b)..] == s[b..]
    && ('$' !in block ==> r == s[..a] + block + s[b..])
  }

  /** The replacement text for a `<source>` block. */
  function SourceBlock(ip: string): string {
    Open("source") + "\n        " + Open("address") + ip + Close("address") + "\n      " + Close("source")
  }

  /** The `<source>` element inserted after `</ipprotocol>` when the rule has none. */
  function SourceLine(ip: string): string {
    "\n      <source><address>" + ip + "</address></source>"
  }

  /** `replaceSourceAddressBlock`: replace the first source-with-address, else the first
      `<source>` block, else put a source after `</ipprotocol>`; with none of these the rule
      comes back unchanged. */
  function ReplaceSourceAddress(rule: string, newIp: string): (r: string)
    ensures SourceChain(rule).Some? ==>
      Spliced(rule, r, SourceChain(rule).value.0, SourceChain(rule).value.3 + 9, SourceBlock(newIp))
    ensures Contains(rule, Open("source"), true) && SourceChain(rule).None? && BlockSpan(rule, "source").Some? ==>
      Spliced(rule, r, BlockSpan(rule, "source").value.0, BlockSpan(rule, "source").value.1, SourceBlock(newIp))
    ensures Contains(rule, Open("source"), true) && SourceChain(rule).None? && BlockSpan(rule, "source").None? ==>
      r == rule
    ensures !Contains(rule, Open("source"), true) ==> r == InsertSource(rule, newIp)
  {
    if Contains(rule, Open("source"), true) then
      match SourceChain(rule)
      case Some((p, q, c, t)) => ReplaceSpan(rule, p, t + 9, SourceBlock(newIp))
      case None =>
        match BlockSpan(rule, "source")
        case Some((a, b)) => ReplaceSpan(rule, a, b, SourceBlock(newIp))
        case None => rule
    else
      InsertSource(rule, newIp)
  }

  /** A rule without `<source>` gets one right after its first `</ipprotocol>`, or stays as it
      is without one. */
  function InsertSource(rule: string, newIp: string): (r: string)
    ensures IndexFrom(rule, Close("ipprotocol"), 0, true).Some? ==>
      var m := IndexFrom(rule, Close("ipprotocol"), 0, true).value + 13;
      m <= |rule| && r == rule[..m] + SourceLine(newIp) + rule[m..]
    ensures IndexFrom(rule, Close("ipprotocol"), 0, true).None? ==> r == rule
  {
    match IndexFrom(rule, Close("ipprotocol"), 0, true)
    case Some(m) => rule[..m + 13] + SourceLine(newIp) + rule[m + 13..]
    case None => rule
  }

  /* ---------------- gateway ---------------- */

  /** `replaceGateway`: replace the first `<gateway>` block, else put one before the first
      `</rule>`; with neither the rule comes back unchanged. */
  function ReplaceGateway(rule: string, gw: string): (r: string)
    ensures BlockSpan(rule, "gateway").Some? ==>
      Spliced(rule, r, BlockSpan(rule, "gateway").value.0, BlockSpan(rule, "gateway").value.1, Open("gateway") + gw + Close("gateway"))
    ensures BlockSpan(rule, "gateway").None? && IndexFrom(rule, Close("rule"), 0, true).Some? ==>
      var m := IndexFrom(rule, Close("rule"), 0, true).value;
      Spliced(rule, r, m, m + 7, "  <gateway>" + gw + "</gateway>\n    </rule>")
    ensures BlockSpan(rule, "gateway").None? && IndexFrom(rule, Close("rule"), 0, true).None? ==> r == rule
  {
    match BlockSpan(rule, "gateway")
    case Some((a, b)) => ReplaceSpan(rule, a, b, Open("gateway") + gw + Close("gateway"))
    case None =>
      match IndexFrom(rule, Close("rule"), 0, true)
      case Some(m) => ReplaceSpan(rule, m, m + 7, "  <gateway>" + gw + "</gateway>\n    </rule>")
      case None => rule
  }

  /** The gateway of clone `i`: the number in the template's gateway moved on by i - 1. */
  function GatewayOf(parts: (string, nat, string), i: nat): string
    requires i >= 1
  {
    parts.0 + NatToString(parts.1 + (i - 1)) + parts.2
  }

  /* ---------------- created / updated / id ---------------- */

  /** A global replace of `<tag>[\s\S]*?</tag>` (case-insensitive) by '': each match is cut
      out and the scan goes on after it. */
  function RemoveBlocks(s: string, tag: string): (r: string)
    ensures |r| <= |s|
    ensures BlockSpan(s, tag).None? ==> r == s
    ensures BlockSpan(s, tag).Some? ==> var (a, b) := BlockSpan(s, tag).value;
      a <= |r| && r[..a] == s[..a] && |r| <= |s| - (b - a)
    decreases |s|
  {
    match BlockSpan(s, tag)
    case None => s
    case Some((a, b)) => s[..a] + RemoveBlocks(s[b..], tag)
  }

  /** `stripCreatedUpdated`: the rule never grows, and one without `<created>` or `<updated>`
      blocks comes back unchanged. The first `<created>` block is cut out; in a rule without
      one, the first `<updated>` block is cut out and the text before it is kept. */
  function StripCreatedUpdated(rule: string): (r: string)
    ensures |r| <= |rule|
    ensures BlockSpan(rule, "created").None? && BlockSpan(rule, "updated").None? ==> r == rule
    ensures BlockSpan(rule, "created").Some? ==> var (a, b) := BlockSpan(rule, "created").value;
      |r| <= |rule| - (b - a)
    ensures BlockSpan(rule, "created").None? && BlockSpan(rule, "updated").Some? ==>
      var (a, b) := BlockSpan(rule, "updated").value;
      a <= |r| && r[..a] == rule[..a] && |r| <= |rule| - (b - a)
  {
    RemoveBlocks(RemoveBlocks(rule, "created"), "updated")
  }

  /** The length of the white space run that ends at `i`. */
  function SpaceRunBefore(s: string, i: nat): (n: nat)
    requires i <= |s|
    ensures n <= i && forall k :: i - n <= k < i ==> IsSpace(s[k])
    ensures n < i ==> !IsSpace(s[i - n - 1])
  {
    if i == 0 || !IsSpace(s[i - 1]) then 0 else 1 + SpaceRunBefore(s, i - 1)
  }

  /** The length of the white space run that starts at `i`. */
  function SpaceRunAfter(s: string, i: nat): (n: nat)
    requires i <= |s|
    ensures i + n <= |s| && forall k :: i <= k < i + n ==> IsSpace(s[k])
    ensures i + n < |s| ==> !IsSpace(s[i + n])
    decreases |s| - i
  {
    if i == |s| || !IsSpace(s[i]) then 0 else 1 + SpaceRunAfter(s, i + 1)
  }

  /** `removeId`: `\s*<id>[\s\S]*?</id>\s*` (case-insensitive) is cut out once, together with
      the white space on both sides of the first `<id>` block. */
  function RemoveId(rule: string): (r: string)
    ensures |r| <= |rule|
    ensures BlockSpan(rule, "id").None? ==> r == rule
  {
    match BlockSpan(rule, "id")
    case None => rule
    case Some((a, b)) => CutWithSpace(rule, a, b)
  }

  /** `s` without [a, b) and the white space runs on both sides of it. */
  function CutWithSpace(s: string, a: nat, b: nat): (r: string)
    requires a <= b <= |s|
    ensures |r| <= |s| - (b - a)
  {
    s[..a - SpaceRunBefore(s, a)] + s[b + SpaceRunAfter(s, b)..]
  }

  /** The run of white space that ends at `i` starts at `x` when `x` is not preceded by
      white space. */
  lemma SpaceRunBeforeIs(s: string, i: nat, x: nat)
    requires x <= i <= |s| && forall k :: x <= k < i ==> IsSpace(s[k])
    requires x == 0 || !IsSpace(s[x - 1])
    ensures SpaceRunBefore(s, i) == i - x
  {

  }

  /** The run of white space that starts at `i` ends at `y` when `y` holds no white space. */
  lemma SpaceRunAfterIs(s: string, i: nat, y: nat)
    requires i <= y <= |s| && forall k :: i <= k < y ==> IsSpace(s[k])
    requires y == |s| || !IsSpace(s[y])
    ensures SpaceRunAfter(s, i) == y - i
  {

  }

  /** removeId cuts out the first `<id>` block, [a, b), together with all the white space
      right before it, [x, a), and right after it, [b, y). */
  lemma RemoveIdCuts(rule: string, a: nat, b: nat, x: nat, y: nat)
    requires BlockSpan(rule, "id") == Some((a, b))
    requires x <= a && b <= y <= |rule| && AllSpace(rule, x, a) && AllSpace(rule, b, y)
    requires x == 0 || !IsSpace(rule[x - 1])
    requires y == |rule| || !IsSpace(rule[y])
    ensures RemoveId(rule) == rule[..x] + rule[y..]
  {
    CutWithSpaceIs(rule, a, b, x, y);
  }

  /** Every character of s[i..j] is white space. */
  predicate AllSpace(s: string, i: nat, j: nat)
    requires i <= j <= |s|
  {
    forall k :: i <= k < j ==> IsSpace(s[k])
  }

  /** The white space runs around [a, b) are [x, a) and [b, y). */
  lemma CutWithSpaceIs(s: string, a: nat, b: nat, x: nat, y: nat)
    requires x <= a <= b <= y <= |s| && AllSpace(s, x, a) && AllSpace(s, b, y)
    requires x == 0 || !IsSpace(s[x - 1])
    requires y == |s| || !IsSpace(s[y])
    ensures CutWithSpace(s, a, b) == s[..x] + s[y..]
  {
    SpaceRunBeforeIs(s, a, x);
    SpaceRunAfterIs(s, b, y);
  }

  /* ---------------- tracker ---------------- */

  /** `<tracker>(\d+)</tracker>` (case-insensitive) at `p`: its number. */
  function TrackerAt(rule: string, p: nat): Option<nat> {
    if MatchAt(rule, p, Open("tracker"), true) then TrackerDigits(rule, p + 9) else None
  }

  /** `(\d+)</tracker>` (case-insensitive) at `q`: the number. */
  function TrackerDigits(rule: string, q: nat): Option<nat> {
    if q > |rule| then None
    else
      var n := DigitRun(rule[q..]);
      if n > 0 && MatchAt(rule, q + n, Close("tracker"), true) then Some(DigitsValue(rule[q..][..n]))
      else None
  }

  /** The number of the first `<tracker>(\d+)</tracker>` at or after `from`. */
  function TrackerFrom(rule: string, from: nat): (r: Option<nat>)
    ensures r.None? ==> forall p :: from <= p ==> TrackerAt(rule, p).None?
    ensures r.Some? ==> exists p: nat ::
      from <= p && TrackerAt(rule, p) == r && (forall j: nat :: from <= j < p ==> TrackerAt(rule, j).None?)
    decreases |rule| - from
  {
    if from >= |rule| then None
    else if TrackerAt(rule, from).Some? then TrackerAt(rule, from)
    else TrackerFrom(rule, from + 1)
  }

  /** `parseTracker`: the number of the first `<tracker>(\d+)</tracker>`, and nothing exactly
      when there is no such element. */
  function ParseTracker(rule: string): (r: Option<nat>)
    ensures r.None? <==> forall p :: TrackerAt(rule, p).None?
    ensures r.Some? ==> exists p: nat :: TrackerAt(rule, p) == r && (forall j: nat :: j < p ==> TrackerAt(rule, j).None?)
  {
    TrackerFrom(rule, 0)
  }

  /** `replaceOrInsertTracker`: replace the first `<tracker>` block, else insert one after the
      first `</type>`, else before the first `</rule>`; with none of these the rule comes back
      unchanged. */
  function ReplaceOrInsertTracker(rule: string, value: nat): (r: string)
    ensures BlockSpan(rule, "tracker").Some? ==> var (a, b) := (BlockSpan(rule, "tracker").value.0, BlockSpan(rule, "tracker").value.1);
      r == rule[..a] + (Open("tracker") + NatToString(value) + Close("tracker")) + rule[b..]
    ensures BlockSpan(rule, "tracker").None? && IndexFrom(rule, Close("type"), 0, true).Some? ==>
      var m := IndexFrom(rule, Close("type"), 0, true).value;
      m + 7 <= |rule| && r == rule[..m + 7] + "\n      <tracker>" + NatToString(value) + "</tracker>" + rule[m + 7..]
    ensures BlockSpan(rule, "tracker").None? && IndexFrom(rule, Close("type"), 0, true).None? && IndexFrom(rule, Close("rule"), 0, true).Some? ==>
      var m := IndexFrom(rule, Close("rule"), 0, true).value;
      Spliced(rule, r, m, m + 7, "  <tracker>" + NatToString(value) + "</tracker>\n    </rule>")
    ensures BlockSpan(rule, "tracker").None? && !Contains(rule, Close("type"), true) && !Contains(rule, Close("rule"), true) ==>
      r == rule
  {
    var v := NatToString(value);
    DigitsPlain(v);
    assert '$' !in Open("tracker") + v + Close("tracker");
    match BlockSpan(rule, "tracker")
    case Some((a, b)) => ReplaceSpan(rule, a, b, Open("tracker") + v + Close("tracker"))
    case None =>
      match IndexFrom(rule, Close("type"), 0, true)
      case Some(m) => rule[..m + 7] + "\n      <tracker>" + v + "</tracker>" + rule[m + 7..]
      case None =>
        match IndexFrom(rule, Close("rule"), 0, true)
        case Some(m) => ReplaceSpan(rule, m, m + 7, "  <tracker>" + v + "</tracker>\n    </rule>")
        case None => rule
  }

  /* ---------------- reading back what the rewriters write ---------------- */

  /** The element names the rewriters write are plain text. */
  lemma RuleTagsPlain()
    ensures PlainText("gateway") && PlainText("tracker")
  {
  }

  /** A decimal numeral is plain text. */
  lemma DigitsPlain(v: string)
    requires AllDigits(v)
    ensures PlainText(v)
  {
    forall k | 0 <= k < |v|
      ensures v[k] != '<' && v[k] != ']' && v[k] != '$'
    {
      assert IsDigit(v[k]);
    }
  }

  /** Over an existing `<gateway>` block, replaceGateway writes a gateway that tagText reads
      back (trimmed), for a name without `<`, `]` or `$`. */
  lemma GatewayReplaced(rule: string, gw: string)
    requires BlockSpan(rule, "gateway").Some? && PlainText(gw)
    ensures TagText(ReplaceGateway(rule, gw), "gateway") == Trim(gw)
  {
    var (a, b) := BlockSpan(rule, "gateway").value;
    RuleTagsPlain();
    ElementReplaced(rule, "gateway", gw, a, b);
  }

  /** A run of digits `v` from `q` to `e`, then `</tracker>`: the number `v` spells. */
  lemma DigitsThenClose(t: string, q: nat, e: nat, v: string)
    requires AllDigits(v) && |v| > 0 && e == q + |v| && e + 10 <= |t|
    requires t[q..e] == v && t[e..e + 10] == Close("tracker")
    ensures TrackerDigits(t, q) == Some(DigitsValue(v))
  {
    assert t[q..] == v + t[e..];
    assert t[e..][0] == t[e..e + 10][0];
    DigitRunOf(v, t[e..]);
    assert t[q..][..|v|] == v;
    MatchLiteral(t, e, Close("tracker"), true);
  }

  /** `<tracker>` at `p`: parseTracker's pattern continues with the digits at `q`. */
  lemma TrackerAtOpen(t: string, p: nat, q: nat)
    requires MatchAt(t, p, Open("tracker"), true) && q == p + 9
    ensures TrackerAt(t, p) == TrackerDigits(t, q)
  {
  }

  /** parseTracker's scan from `from` stops at the first position where the pattern matches. */
  lemma {:induction false} TrackerFromFirst(rule: string, from: nat, a: nat)
    requires from <= a && TrackerAt(rule, a).Some?
    requires forall j :: from <= j < a ==> TrackerAt(rule, j).None?
    ensures TrackerFrom(rule, from) == TrackerAt(rule, a)
    decreases a - from
  {
    assert a < |rule|;
    if from < a {
      TrackerFromFirst(rule, from + 1, a);
    }
  }

  /** Over an existing `<tracker>` block, replaceOrInsertTracker writes a tracker that
      parseTracker reads back. */
  lemma TrackerReplaced(rule: string, value: nat)
    requires BlockSpan(rule, "tracker").Some?
    ensures ParseTracker(ReplaceOrInsertTracker(rule, value)) == Some(value)
  {
    var (a, b) := BlockSpan(rule, "tracker").value;
    var v := NatToString(value);
    RuleTagsPlain();
    DigitsPlain(v);
    ElementSpliced(rule, "tracker", v, a, b);
    var t := rule[..a] + (Open("tracker") + v + Close("tracker")) + rule[b..];
    var q := a + 9;
    var e := q + |v|;
    SpliceParts(rule[..a], Open("tracker"), v, Close("tracker"), rule[b..], q, e);
    DigitsThenClose(t, q, e, v);
    TrackerAtOpen(t, a, q);
    DecimalRoundTrip(value);
    forall j | 0 <= j < a
      ensures TrackerAt(t, j).None?
    {
      assert !MatchAt(t, j, Open("tracker"), true);
    }
    TrackerFromFirst(t, 0, a);
  }

  /* ---------------- the clones ---------------- */

  /** One rule rewritten for a given address, gateway and tracker, in the order the builder
      applies the rewriters. */
  function Rewrite(rule: string, ip: string, gw: string, tracker: nat): string {
    ReplaceOrInsertTracker(ReplaceGateway(ReplaceSourceAddress(RemoveId(StripCreatedUpdated(rule)), ip), gw), tracker)
  }

  /** What buildRuleClones reads from its template. */
  datatype RuleTemplate = RuleTemplate(rule: string, startIp: string, startGw: string,
                                       gwParts: (string, nat, string), baseIp: int, baseTracker: nat)

  /** The source address (as a number), gateway and tracker of one clone. */
  datatype RuleEntry = RuleEntry(addr: int, gw: string, tracker: nat)

  /** Clone number `i` of a run that starts at `begin`. */
  function EntryOf(t: RuleTemplate, begin: nat, i: nat): RuleEntry
    requires 1 <= begin <= i
  {
    RuleEntry(t.baseIp + (i - 1), GatewayOf(t.gwParts, i), t.baseTracker + (i - begin + 1))
  }

  function Plan(t: RuleTemplate, begin: nat, desired: nat): (es: seq<RuleEntry>)
    requires begin >= 1
    ensures |es| == if desired < begin then 0 else desired - begin + 1
    ensures forall k :: 0 <= k < |es| ==> es[k] == EntryOf(t, begin, begin + k)
  {
    if desired < begin then [] else seq(desired - begin + 1, k requires 0 <= k => EntryOf(t, begin, begin + k))
  }

  /** One clone as the loop appends it: a line break and indent, the trimmed rule, a line break. */
  function RenderRule(t: RuleTemplate, e: RuleEntry): string {
    "\n    " + Trim(Rewrite(t.rule, Ip.NumToIp(e.addr), e.gw, e.tracker)) + "\n"
  }

  function RenderRules(t: RuleTemplate, es: seq<RuleEntry>): string {
    if |es| == 0 then "" else RenderRules(t, es[..|es| - 1]) + RenderRule(t, es[|es| - 1])
  }

  lemma RenderRulesSnoc(t: RuleTemplate, es: seq<RuleEntry>, e: RuleEntry)
    ensures RenderRules(t, es + [e]) == RenderRules(t, es) + RenderRule(t, e)
  {
    assert (es + [e])[..|es|] == es;
  }

  /** The template rule and what is read from it, or the first error the builder raises:
      no rule, no source address, an address that is not a dotted quad. The tracker falls
      back to `now` (the caller's `Math.floor(Date.now() / 1000)`). */
  function ReadTemplate(baseInput: string, now: nat): Result<RuleTemplate> {
    var rule := FirstBlock(baseInput, "rule");
    if rule == "" then Err(TemplateNotFound("rule"))
    else
      var startIp := SourceAddress(rule);
      if startIp == "" then Err(MissingSourceAddress)
      else
        var gwText := TagText(rule, "gateway");
        var startGw := if gwText == "" then "WAN1_PPPOE" else gwText;
        match Ip.IpToNum(startIp)
        case Err(e) => Err(e)
        case Ok(base) =>
          var tracker := match ParseTracker(rule) case Some(n) => n case None => now;
          Ok(RuleTemplate(rule, startIp, startGw, ParseGatewayParts(startGw), base, tracker))
  }

  /** The first rule of a bare input: the template itself, cleaned, with its own address,
      gateway and tracker. */
  function FirstWrapped(t: RuleTemplate): string {
    Trim(Rewrite(t.rule, t.startIp, t.startGw, t.baseTracker))
  }

  /** The result of `buildRuleClones(baseInput, total)`. */
  function RuleClones(baseInput: string, total: int, now: nat): Result<string> {
    var t :- ReadTemplate(baseInput, now);
    var desired := PppFamily.DesiredTotal(total);
    var isFilter := HasWrapper(baseInput, "filter");
    var begin := if isFilter then 2 else 1;
    var rules := RenderRules(t, Plan(t, begin, desired));
    if isFilter then InsertAfterOpen(baseInput, "filter", TrimStart(rules))
    else Ok("<filter>\n    " + FirstWrapped(t) + "\n" + rules + "  </filter>")
  }

  /** The rewriters applied one after the other to a copy of the template. */
  method RewriteSteps(rule: string, ip: string, gw: string, tracker: nat) returns (r: string)
    ensures r == Rewrite(rule, ip, gw, tracker)
  {
    r := rule;
    r := StripCreatedUpdated(r);
    r := RemoveId(r);
    r := ReplaceSourceAddress(r, ip);
    r := ReplaceGateway(r, gw);
    r := ReplaceOrInsertTracker(r, tracker);
  }

  /** One pass of the clone loop: the address written out, the template rewritten, the
      result trimmed and indented. */
  method RenderClone(t: RuleTemplate, e: RuleEntry) returns (block: string)
    ensures block == RenderRule(t, e)
  {
    var ip := Ip.NumToIp(e.addr);
    var r := RewriteSteps(t.rule, ip, e.gw, e.tracker);
    block := "\n    " + Trim(r) + "\n";
  }

  lemma CloneRunStep(t: RuleTemplate, begin: nat, i: nat)
    requires 1 <= begin <= i
    ensures RenderRules(t, Plan(t, begin, i)) == RenderRules(t, Plan(t, begin, i - 1)) + RenderRule(t, EntryOf(t, begin, i))
  {
    assert Plan(t, begin, i) == Plan(t, begin, i - 1) + [EntryOf(t, begin, i)];
    RenderRulesSnoc(t, Plan(t, begin, i - 1), EntryOf(t, begin, i));
  }

  /** The clone loop of buildRuleClones. */
  method CloneRun(t: RuleTemplate, begin: nat, desired: nat) returns (rules: string)
    requires begin >= 1
    ensures rules == RenderRules(t, Plan(t, begin, desired))
  {
    rules := "";
    var i := begin;
    while i <= desired
      invariant begin <= i <= if desired < begin then begin else desired + 1
      invariant rules == RenderRules(t, Plan(t, begin, i - 1))
    {
      rules := AppendClone(t, begin, i, rules);
      i := i + 1;
    }
    assert Plan(t, begin, i - 1) == Plan(t, begin, desired);
  }

  /** One pass of the clone loop: clone `i` is appended to the ones before it. */
  method AppendClone(t: RuleTemplate, begin: nat, i: nat, rules: string) returns (rules': string)
    requires 1 <= begin <= i && rules == RenderRules(t, Plan(t, begin, i - 1))
    ensures rules' == RenderRules(t, Plan(t, begin, i))
  {
    var gw := t.gwParts.0 + NatToString(t.gwParts.1 + (i - 1)) + t.gwParts.2;
    var e := RuleEntry(t.baseIp + (i - 1), gw, t.baseTracker + (i - begin + 1));
    assert e == EntryOf(t, begin, i);
    var block := RenderClone(t, e);
    CloneRunStep(t, begin, i);
    rules' := rules + block;
  }

  /** `buildRuleClones` */
  method BuildRuleClones(baseInput: string, total: int, now: nat) returns (r: Result<string>)
    ensures r == RuleClones(baseInput, total, now)
  {
    var t :- ReadTemplate(baseInput, now);
    var desired := PppFamily.DesiredTotal(total);
    var isFilter := HasWrapper(baseInput, "filter");
    var begin := if isFilter then 2 else 1;
    var rules := CloneRun(t, begin, desired);
    if isFilter {
      r := InsertAfterOpen(baseInput, "filter", TrimStart(rules));
    } else {
      r := Ok("<filter>\n    " + FirstWrapped(t) + "\n" + rules + "  </filter>");
    }
  }

  /* ---------------- what the result is ---------------- */

  /** A case-insensitive `<tag>` anywhere means `<tag[^>]*>` matches too. */
  lemma OpenTagFound(s: string, tag: string)
    requires Contains(s, Open(tag), true)
    ensures OpenTagEnd(s, tag).Some?
  {
    var p := IndexFrom(s, Open(tag), 0, true).value;
    assert MatchAt(s, p, "<" + tag, true) by {
      forall k | 0 <= k < |"<" + tag| ensures SameChar(s[p + k], ("<" + tag)[k], true) {
        assert ("<" + tag)[k] == Open(tag)[k];
      }
    }
    var q := IndexFrom(s, "<" + tag, 0, true).value;
    var g := p + 1 + |tag|;
    assert SameChar(s[p + (1 + |tag|)], Open(tag)[1 + |tag|], true);
    assert s[g] == '>';
    assert MatchAt(s, g, ">", false);
  }

  /** buildRuleClones fails only for its template: no `<rule>`, no source address, or an
      address that is not a dotted quad, checked in that order; with a `<filter>` wrapper the
      splice after `<filter>` cannot fail. */
  lemma RuleClonesErrors(baseInput: string, total: int, now: nat)
    ensures RuleClones(baseInput, total, now).Err? <==> ReadTemplate(baseInput, now).Err?
    ensures FirstBlock(baseInput, "rule") == "" ==>
      RuleClones(baseInput, total, now) == Err(TemplateNotFound("rule"))
    ensures var rule := FirstBlock(baseInput, "rule");
      rule != "" && SourceAddress(rule) == "" ==> RuleClones(baseInput, total, now) == Err(MissingSourceAddress)
    ensures var rule := FirstBlock(baseInput, "rule");
      rule != "" && SourceAddress(rule) != "" && Ip.IpToNum(SourceAddress(rule)).Err? ==>
        RuleClones(baseInput, total, now) == Err(InvalidIp(SourceAddress(rule)))
  {
    if ReadTemplate(baseInput, now).Ok? && HasWrapper(baseInput, "filter") {
      OpenTagFound(baseInput, "filter");
    }
  }

  /** Clone `begin + k` has address base + begin + k - 1, which reads back as that number
      modulo 2^32; its gateway is the template's number moved on by begin + k - 1; its tracker
      is k + 1 above the template's. */
  lemma PlanFacts(t: RuleTemplate, begin: nat, desired: nat, k: nat)
    requires 1 <= begin && k < |Plan(t, begin, desired)|
    ensures |Plan(t, begin, desired)| == desired - begin + 1
    ensures var e := Plan(t, begin, desired)[k];
      && e.addr == t.baseIp + (begin + k - 1)
      && Ip.IpToNum(Ip.NumToIp(e.addr)) == Ok(e.addr % Ip.Two32)
      && e.gw == GatewayOf(t.gwParts, begin + k)
      && e.tracker == t.baseTracker + k + 1
  {
    var e := Plan(t, begin, desired)[k];
    assert e == EntryOf(t, begin, begin + k);
    Ip.NumToIpRoundTrip(e.addr);
  }

  /** The emitted trackers strictly increase, so they are pairwise distinct, and all lie above
      the template's own. */
  lemma TrackersIncrease(t: RuleTemplate, begin: nat, desired: nat, j: nat, k: nat)
    requires 1 <= begin && j < k < |Plan(t, begin, desired)|
    ensures t.baseTracker < Plan(t, begin, desired)[j].tracker < Plan(t, begin, desired)[k].tracker
  {
    assert Plan(t, begin, desired)[j] == EntryOf(t, begin, begin + j);
    assert Plan(t, begin, desired)[k] == EntryOf(t, begin, begin + k);
  }

  /** Different clones get different gateways, whatever the template's gateway looks like. */
  lemma GatewaysDistinct(parts: (string, nat, string), i: nat, j: nat)
    requires 1 <= i && 1 <= j && i != j
    ensures GatewayOf(parts, i) != GatewayOf(parts, j)
  {
    var x, y := parts.1 + (i - 1), parts.1 + (j - 1);
    if GatewayOf(parts, i) == GatewayOf(parts, j) {
      MiddleEqual(parts.0, NatToString(x), NatToString(y), parts.2);
      NumeralInjective(x, y);
    }
  }

  /** Two strings with the same prefix and suffix around them are equal when the whole are. */
  lemma MiddleEqual(p: string, a: string, b: string, q: string)
    requires p + a + q == p + b + q
    ensures a == b
  {
    assert |a| == |b|;
    assert a == (p + a + q)[|p|..|p| + |a|];
    assert b == (p + b + q)[|p|..|p| + |b|];
  }

  lemma NumeralInjective(x: nat, y: nat)
    requires NatToString(x) == NatToString(y)
    ensures x == y
  {
    DecimalRoundTrip(x);
    DecimalRoundTrip(y);
  }

  /** When the template's gateway has a number (and no line break), every clone's gateway
      splits back into the same prefix and suffix around the moved-on number. */
  lemma GatewayRoundTrip(gw: string, i: nat)
    requires 1 <= i
    requires SplitAtNumber(Trim(gw)).Some?
    ensures var parts := ParseGatewayParts(gw);
      ParseGatewayParts(GatewayOf(parts, i)) == (parts.0, parts.1 + (i - 1), parts.2)
  {
    var parts := ParseGatewayParts(gw);
    SplitAtNumberShape(Trim(gw));
    GatewayPartsOf(parts.0, NatToString(parts.1 + (i - 1)), parts.2);
    DecimalRoundTrip(parts.1 + (i - 1));
  }
}
