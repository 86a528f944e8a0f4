/**
 * `buildPfSenseXML`: add WAN links 2..total to a whole pfSense configuration, each as an
 * `<optN>` interface, a `<ppp>` link and a `<gateway_item>`, and put one firewall rule per
 * WAN (1..total) at the top of `<filter>`.
 */
module PfSense {
  import opened Outcomes
  import opened Text
  import opened Markup
  import Ip
  import PppFamily

  /** WAN number `wan` sits on interface `opt<opt>`. */
  datatype Link = Link(wan: nat, opt: nat)

  /** The fixed text of an added `<optN>` interface around its fields (opt, wan, wan, opt),
      written in pieces that each begin at a `<`. */
  const IfPieces: seq<string> := [
    "\n    " + "<opt",
    ">\n      " + "<enable>" + "</enable>\n      " + "<if>pppoe",
    "</if>\n      " + "<descr>" + "<![CDATA[WAN",
    "]]>" + "</descr>\n      " + "<ipaddr>pppoe" + "</ipaddr>\n    " + "</opt",
    ">"
  ]

  /** The fixed text of an added `<gateway_item>` around its fields (opt, wan, wan), written in
      pieces that each begin at a `<`. */
  const GatewayPieces: seq<string> := [
    "\n    " + "<gateway_item>\n      " + "<interface>opt",
    "</interface>\n      " + "<gateway>dynamic" + "</gateway>\n      " + "<name>WAN",
    ("_PPPOE" + "</name>\n      " + "<weight>1" + "</weight>\n      ")
    + ("<ipprotocol>inet" + "</ipprotocol>\n      " + "<descr>" + "<![CDATA[Interface WAN"),
    "_PPPOE Gateway]]>" + "</descr>\n      " + "<gw_down_kill_states>" + "</gw_down_kill_states>\n      " + "<monitor>1.1.1.1" + "</monitor>\n    " + "</gateway_item>"
  ]

  /** The fixed text of an added `<rule>` around its fields (address, wan). */
  const RulePieces: seq<string> := [
    "\n    <rule>\n      <type>pass</type>\n      <interface>lan</interface>\n      <ipprotocol>inet</ipprotocol>\n      <source><address>",
    "</address></source>\n      <destination><any></any></destination>\n      <descr></descr>\n      <gateway>WAN",
    "_PPPOE</gateway>\n    </rule>"
  ]

  function RenderIf(l: Link): string {
    Fill(IfPieces, [NatToString(l.opt), NatToString(l.wan), NatToString(l.wan), NatToString(l.opt)])
  }

  function RenderGateway(l: Link): string {
    Fill(GatewayPieces, [NatToString(l.opt), NatToString(l.wan), NatToString(l.wan)])
  }

  function RenderIfs(ls: seq<Link>): string {
    if |ls| == 0 then "" else RenderIfs(ls[..|ls| - 1]) + RenderIf(ls[|ls| - 1])
  }

  function RenderGateways(ls: seq<Link>): string {
    if |ls| == 0 then "" else RenderGateways(ls[..|ls| - 1]) + RenderGateway(ls[|ls| - 1])
  }

  lemma RenderIfsSnoc(ls: seq<Link>, l: Link)
    ensures RenderIfs(ls + [l]) == RenderIfs(ls) + RenderIf(l)
  {
    assert (ls + [l])[..|ls|] == ls;
  }

  lemma RenderGatewaysSnoc(ls: seq<Link>, l: Link)
    ensures RenderGateways(ls + [l]) == RenderGateways(ls) + RenderGateway(l)
  {
    assert (ls + [l])[..|ls|] == ls;
  }

  /** WAN 2..`total` on `opt` indices counting up from `startOpt`. */
  function Links(startOpt: nat, total: int): (ls: seq<Link>)
    ensures |ls| == if total < 2 then 0 else total - 1
    ensures forall k :: 0 <= k < |ls| ==> ls[k] == Link(k + 2, startOpt + k)
  {
    if total < 2 then [] else seq(total - 1, k requires 0 <= k => Link(k + 2, startOpt + k))
  }

  lemma LinksSnoc(startOpt: nat, i: nat)
    requires i >= 2
    ensures Links(startOpt, i) == Links(startOpt, i - 1) + [Link(i, startOpt + (i - 2))]
  {
    assert Links(startOpt, i) == Links(startOpt, i - 1) + [Link(i, startOpt + (i - 2))];
  }

  /** One more WAN adds its interface and gateway blocks at the end. */
  lemma LinkStep(startOpt: nat, i: nat)
    requires i >= 2
    ensures RenderIfs(Links(startOpt, i)) == RenderIfs(Links(startOpt, i - 1)) + RenderIf(Link(i, startOpt + (i - 2)))
    ensures RenderGateways(Links(startOpt, i)) == RenderGateways(Links(startOpt, i - 1)) + RenderGateway(Link(i, startOpt + (i - 2)))
  {
    LinksSnoc(startOpt, i);
    RenderIfsSnoc(Links(startOpt, i - 1), Link(i, startOpt + (i - 2)));
    RenderGatewaysSnoc(Links(startOpt, i - 1), Link(i, startOpt + (i - 2)));
  }

  /** The rule for WAN `wan` has source address `addr` (as a number). */
  datatype RuleRow = RuleRow(wan: nat, addr: int)

  function RenderRule(r: RuleRow): string {
    Fill(RulePieces, [Ip.NumToIp(r.addr), NatToString(r.wan)])
  }

  function RenderRules(rs: seq<RuleRow>): string {
    if |rs| == 0 then "" else RenderRules(rs[..|rs| - 1]) + RenderRule(rs[|rs| - 1])
  }

  lemma RenderRulesSnoc(rs: seq<RuleRow>, r: RuleRow)
    ensures RenderRules(rs + [r]) == RenderRules(rs) + RenderRule(r)
  {
    assert (rs + [r])[..|rs|] == rs;
  }

  /** WAN 1..`total` with addresses counting up from `baseIp`. */
  function RuleRows(baseIp: int, total: int): (rs: seq<RuleRow>)
    ensures |rs| == if total < 1 then 0 else total
    ensures forall k :: 0 <= k < |rs| ==> rs[k] == RuleRow(k + 1, baseIp + k)
  {
    if total < 1 then [] else seq(total, k requires 0 <= k => RuleRow(k + 1, baseIp + k))
  }

  lemma RuleRowsSnoc(baseIp: int, i: nat)
    requires i >= 1
    ensures RuleRows(baseIp, i) == RuleRows(baseIp, i - 1) + [RuleRow(i, baseIp + (i - 1))]
  {
    assert RuleRows(baseIp, i) == RuleRows(baseIp, i - 1) + [RuleRow(i, baseIp + (i - 1))];
  }

  /** What the builder reads before it writes anything. */
  datatype Setup = Setup(user: string, pass: string, portPrefix: string, portStart: nat,
                         baseIp: int, startOpt: nat)

  /** `^([a-zA-Z]+)(\d+)$` on the (already trimmed) ports text, else `vtnet` and 1. */
  function PortParts(portsVal: string): (r: (string, nat))
    ensures |r.0| > 0 && AllLetters(r.0)
  {
    match MatchIfName(portsVal)
    case Some(m) => m
    case None => ("vtnet", 1)
  }

  /** `1 + Math.max(0, Number(addCount) || 0)` for an integer `addCount`. */
  function Total(addCount: int): (t: nat)
    ensures t >= 1 && t >= addCount + 1
    ensures addCount >= 0 ==> t == addCount + 1
  {
    1 + (if addCount > 0 then addCount else 0)
  }

  /** The user name, password and ports of the first `<ppps><ppp>`, the start address and the
      first free `opt` index; or the first error: no user name, then an invalid address. */
  function ReadSetup(baseXml: string, startIp: string): Result<Setup> {
    var firstPpp := FirstPppsBlock(baseXml);
    var user := TagText(firstPpp, "username");
    var portsText := TagText(firstPpp, "ports");
    var portp := PortParts(if portsText == "" then "vtnet1" else portsText);
    if user == "" then Err(MissingUsername)
    else
      var baseIp :- Ip.IpToNum(Trim(startIp));
      Ok(Setup(user, TagText(firstPpp, "password"), portp.0, portp.1, baseIp, MaxOptIndex(baseXml) + 1))
  }

  /** The `<ppp>` links are written like buildPPPClones' clones, from a template whose `if` is
      `pppoe1`. */
  function PppTemplateOf(s: Setup): PppFamily.PppTemplate {
    PppFamily.PppTemplate(s.user, s.pass, "pppoe", 1, s.portPrefix, s.portStart)
  }

  /** The result of `buildPfSenseXML(baseXml, addCount, startIp)`. */
  function PfSenseXml(baseXml: string, addCount: int, startIp: string): Result<string> {
    var s :- ReadSetup(baseXml, startIp);
    var total := Total(addCount);
    Splice(baseXml, RenderIfs(Links(s.startOpt, total)),
           PppFamily.RenderPpps(PppFamily.Plan(PppTemplateOf(s), 2, total)),
           RenderGateways(Links(s.startOpt, total)), RenderRules(RuleRows(s.baseIp, total)))
  }

  /** The four splices, in order: interfaces, links and gateways before their closing tags,
      rules after the opening `<filter…>`. */
  function Splice(xml: string, ifs: string, ppps: string, gws: string, rules: string): Result<string> {
    var out1 :- InsertBeforeClose(xml, "interfaces", ifs);
    var out2 :- InsertBeforeClose(out1, "ppps", ppps);
    var out3 :- InsertBeforeClose(out2, "gateways", gws);
    InsertAfterOpen(out3, "filter", rules)
  }

  /** The three accumulators hold the blocks of WAN 2..`n`. */
  predicate LinksWritten(s: Setup, n: nat, ifBlocks: string, pppBlocks: string, gwBlocks: string) {
    && ifBlocks == RenderIfs(Links(s.startOpt, n))
    && pppBlocks == PppFamily.RenderPpps(PppFamily.Plan(PppTemplateOf(s), 2, n))
    && gwBlocks == RenderGateways(Links(s.startOpt, n))
  }

  /** The link the loop writes for WAN `i` is the template's clone `i`. */
  lemma PppOfSetup(s: Setup, i: nat)
    requires i >= 2
    ensures PppFamily.PppEntry(i, "pppoe" + NatToString(i), s.portPrefix + NatToString(s.portStart + (i - 1)),
                               s.user, s.pass)
         == PppFamily.EntryOf(PppTemplateOf(s), i)
  {
    assert 1 + (i - 1) == i;
  }

  /** Writing WAN `i`'s blocks extends the accumulators from 2..i-1 to 2..i. */
  lemma LinksWrittenStep(s: Setup, i: nat, ifBlocks: string, pppBlocks: string, gwBlocks: string)
    requires i >= 2 && LinksWritten(s, i - 1, ifBlocks, pppBlocks, gwBlocks)
    ensures LinksWritten(s, i, ifBlocks + RenderIf(Link(i, s.startOpt + (i - 2))),
                         pppBlocks + PppFamily.RenderPpp(PppFamily.EntryOf(PppTemplateOf(s), i)),
                         gwBlocks + RenderGateway(Link(i, s.startOpt + (i - 2))))
  {
    LinkStep(s.startOpt, i);
    PppFamily.RenderPlanSnoc(PppTemplateOf(s), 2, i);
  }

  /** The loop over WAN 2..total that writes the interface, link and gateway blocks. */
  method LinkBlocks(s: Setup, total: nat) returns (ifBlocks: string, pppBlocks: string, gwBlocks: string)
    ensures ifBlocks == RenderIfs(Links(s.startOpt, total))
    ensures pppBlocks == PppFamily.RenderPpps(PppFamily.Plan(PppTemplateOf(s), 2, total))
    ensures gwBlocks == RenderGateways(Links(s.startOpt, total))
  {
    ifBlocks, pppBlocks, gwBlocks := "", "", "";
    var i := 2;
    while i <= total
      invariant 2 <= i <= if total < 2 then 2 else total + 1
      invariant LinksWritten(s, i - 1, ifBlocks, pppBlocks, gwBlocks)
    {
      var link := Link(i, s.startOpt + (i - 2));
      var ppp := PppFamily.PppEntry(i, "pppoe" + NatToString(i), s.portPrefix + NatToString(s.portStart + (i - 1)),
                                    s.user, s.pass);
      PppOfSetup(s, i);
      LinksWrittenStep(s, i, ifBlocks, pppBlocks, gwBlocks);
      ifBlocks := ifBlocks + RenderIf(link);
      pppBlocks := pppBlocks + PppFamily.RenderPpp(ppp);
      gwBlocks := gwBlocks + RenderGateway(link);
      i := i + 1;
    }
    assert Links(s.startOpt, i - 1) == Links(s.startOpt, total);
    assert PppFamily.Plan(PppTemplateOf(s), 2, i - 1) == PppFamily.Plan(PppTemplateOf(s), 2, total);
  }

  /** The loop over WAN 1..total that writes the rules. */
  method RuleBlocks(baseIp: int, total: nat) returns (ruleBlocks: string)
    ensures ruleBlocks == RenderRules(RuleRows(baseIp, total))
  {
    ruleBlocks := "";
    var i := 1;
    while i <= total
      invariant 1 <= i <= if total < 1 then 1 else total + 1
      invariant ruleBlocks == RenderRules(RuleRows(baseIp, i - 1))
    {
      var row := RuleRow(i, baseIp + (i - 1));
      RuleBlocksStep(baseIp, i);
      ruleBlocks := ruleBlocks + RenderRule(row);
      i := i + 1;
    }
    assert i - 1 == total;
  }

  /** One pass of the rule loop appends rule `i` to the rules before it. */
  lemma RuleBlocksStep(baseIp: int, i: nat)
    requires i >= 1
    ensures RenderRules(RuleRows(baseIp, i)) == RenderRules(RuleRows(baseIp, i - 1)) + RenderRule(RuleRow(i, baseIp + (i - 1)))
  {
    RuleRowsSnoc(baseIp, i);
    RenderRulesSnoc(RuleRows(baseIp, i - 1), RuleRow(i, baseIp + (i - 1)));
  }

  /** `buildPfSenseXML` */
  method BuildPfSenseXml(baseXml: string, addCount: int, startIp: string) returns (r: Result<string>)
    ensures r == PfSenseXml(baseXml, addCount, startIp)
  {
    var s :- ReadSetupSteps(baseXml, startIp);
    var total := Total(addCount);
    var ifBlocks, pppBlocks, gwBlocks := LinkBlocks(s, total);
    var ruleBlocks := RuleBlocks(s.baseIp, total);
    r := SpliceSteps(baseXml, ifBlocks, pppBlocks, gwBlocks, ruleBlocks);
  }

  /** The reads at the head of buildPfSenseXML, with its two early failures. */
  method ReadSetupSteps(baseXml: string, startIp: string) returns (r: Result<Setup>)
    ensures r == ReadSetup(baseXml, startIp)
  {
    var firstPpp := FirstPppsBlock(baseXml);
    var user := TagText(firstPpp, "username");
    var pass := TagText(firstPpp, "password");
    var portsText := TagText(firstPpp, "ports");
    var portsVal := if portsText == "" then "vtnet1" else portsText;
    if user == "" {
      return Err(MissingUsername);
    }
    var portp := PortParts(portsVal);
    var baseIpNum :- Ip.IpToNum(Trim(startIp));
    r := Ok(Setup(user, pass, portp.0, portp.1, baseIpNum, MaxOptIndex(baseXml) + 1));
  }

  /** The four splices at the tail of buildPfSenseXML, each failing when its tag is missing. */
  method SpliceSteps(xml: string, ifs: string, ppps: string, gws: string, rules: string) returns (r: Result<string>)
    ensures r == Splice(xml, ifs, ppps, gws, rules)
  {
    var out := xml;
    out :- InsertBeforeClose(out, "interfaces", ifs);
    out :- InsertBeforeClose(out, "ppps", ppps);
    out :- InsertBeforeClose(out, "gateways", gws);
    r := InsertAfterOpen(out, "filter", rules);
  }

  /* ---------------- what the result is ---------------- */

  /** The four places the builder writes to: case-sensitive `</interfaces>`, `</ppps>` and
      `</gateways>`, and an opening `<filter…>`. */
  predicate Skeleton(xml: string) {
    && (exists j :: 0 <= j < |xml| && MatchAt(xml, j, Close("interfaces"), false))
    && (exists j :: 0 <= j < |xml| && MatchAt(xml, j, Close("ppps"), false))
    && (exists j :: 0 <= j < |xml| && MatchAt(xml, j, Close("gateways"), false))
    && OpenTagEnd(xml, "filter").Some?
  }

  /** A closing tag present before an insertBeforeClose is present after it. */
  lemma KeepsClose(xml: string, tag: string, content: string, other: string)
    requires InsertBeforeClose(xml, tag, content).Ok?
    requires forall k :: 0 <= k < |other| ==> other[k] != '<'
    ensures (exists j :: MatchAt(xml, j, Close(other), false)) ==>
      exists j :: MatchAt(InsertBeforeClose(xml, tag, content).value, j, Close(other), false)
  {
    if exists j :: MatchAt(xml, j, Close(other), false) {
      var j :| MatchAt(xml, j, Close(other), false);
      assert forall k :: 1 <= k < |Close(other)| ==> Close(other)[k] != '<' by {
        forall k | 1 <= k < |Close(other)| ensures Close(other)[k] != '<' {
          if 2 <= k < 2 + |other| { assert Close(other)[k] == other[k - 2]; }
        }
      }
      InsertBeforeCloseKeeps(xml, tag, content, Close(other), false, j);
    }
  }

  /** buildPfSenseXML's first checks, in its order: a user name in the first
      `<ppps><ppp>`, then a start address that is a dotted quad (reported trimmed). */
  lemma SetupErrors(baseXml: string, addCount: int, startIp: string)
    ensures var user := TagText(FirstPppsBlock(baseXml), "username");
      user == "" ==> PfSenseXml(baseXml, addCount, startIp) == Err(MissingUsername)
    ensures var user := TagText(FirstPppsBlock(baseXml), "username");
      user != "" && Ip.IpToNum(Trim(startIp)).Err? ==>
        PfSenseXml(baseXml, addCount, startIp) == Err(InvalidIp(Trim(startIp)))
    ensures var user := TagText(FirstPppsBlock(baseXml), "username");
      ReadSetup(baseXml, startIp).Ok? <==> user != "" && Ip.IpToNum(Trim(startIp)).Ok?
  {
  }

  /** After those checks, the first splice fails exactly when the input has no
      case-sensitive `</interfaces>`. */
  lemma InterfacesError(xml: string, ifs: string, ppps: string, gws: string, rules: string)
    ensures Splice(xml, ifs, ppps, gws, rules) == Err(MissingClosingTag("interfaces")) <==>
      forall j :: !MatchAt(xml, j, Close("interfaces"), false)
  {
  }

  /** What one insertBeforeClose keeps of the places later splices need. */
  lemma KeepsPlaces(xml: string, tag: string, content: string)
    requires InsertBeforeClose(xml, tag, content).Ok?
    ensures var out := InsertBeforeClose(xml, tag, content).value;
      && ((exists j :: MatchAt(xml, j, Close("ppps"), false)) ==> exists j :: MatchAt(out, j, Close("ppps"), false))
      && ((exists j :: MatchAt(xml, j, Close("gateways"), false)) ==> exists j :: MatchAt(out, j, Close("gateways"), false))
      && (OpenTagEnd(xml, "filter").Some? ==> OpenTagEnd(out, "filter").Some?)
  {
    KeepsClose(xml, tag, content, "ppps");
    KeepsClose(xml, tag, content, "gateways");
    if OpenTagEnd(xml, "filter").Some? {
      InsertBeforeCloseKeepsOpen(xml, tag, content, "filter");
    }
  }

  /** A missing `</ppps>` is reported only when the input lacks it: the interfaces spliced in
      before cannot supply or break one. */
  lemma PppsError(xml: string, ifs: string, ppps: string, gws: string, rules: string)
    ensures Splice(xml, ifs, ppps, gws, rules) == Err(MissingClosingTag("ppps")) ==>
      forall j :: !MatchAt(xml, j, Close("ppps"), false)
  {
    if InsertBeforeClose(xml, "interfaces", ifs).Ok? {
      KeepsPlaces(xml, "interfaces", ifs);
    }
  }

  /** Likewise a missing `</gateways>`. */
  lemma GatewaysError(xml: string, ifs: string, ppps: string, gws: string, rules: string)
    ensures Splice(xml, ifs, ppps, gws, rules) == Err(MissingClosingTag("gateways")) ==>
      forall j :: !MatchAt(xml, j, Close("gateways"), false)
  {
    var r1 := InsertBeforeClose(xml, "interfaces", ifs);
    if r1.Ok? {
      KeepsPlaces(xml, "interfaces", ifs);
      if InsertBeforeClose(r1.value, "ppps", ppps).Ok? {
        KeepsPlaces(r1.value, "ppps", ppps);
      }
    }
  }

  /** Likewise a missing opening `<filter…>`; and an input with all four places always gets
      its blocks. */
  lemma FilterError(xml: string, ifs: string, ppps: string, gws: string, rules: string)
    ensures Splice(xml, ifs, ppps, gws, rules) == Err(MissingOpeningTag("filter")) ==>
      OpenTagEnd(xml, "filter").None?
    ensures Skeleton(xml) ==> Splice(xml, ifs, ppps, gws, rules).Ok?
  {
    var r1 := InsertBeforeClose(xml, "interfaces", ifs);
    if r1.Ok? {
      KeepsPlaces(xml, "interfaces", ifs);
      var r2 := InsertBeforeClose(r1.value, "ppps", ppps);
      if r2.Ok? {
        KeepsPlaces(r1.value, "ppps", ppps);
        if InsertBeforeClose(r2.value, "gateways", gws).Ok? {
          KeepsPlaces(r2.value, "gateways", gws);
        }
      }
    }
  }

  /** The added interfaces take `opt` indices counting up from one past the largest
      case-sensitive `<optN>` of the input, so none of them reuses an index already written;
      interface k serves WAN k + 2. */
  lemma NewOptsFresh(baseXml: string, startIp: string, total: int, k: nat, p: nat, v: nat, e: nat)
    requires ReadSetup(baseXml, startIp).Ok?
    requires k < |Links(ReadSetup(baseXml, startIp).value.startOpt, total)|
    requires OptTagAt(baseXml, p, false) == Some((v, e))
    ensures var l := Links(ReadSetup(baseXml, startIp).value.startOpt, total)[k];
      l == Link(k + 2, MaxOptIndex(baseXml) + 1 + k) && l.opt > v
  {
  }

  /** The `<ppp>` link for WAN i = k + 2 has ptpid i and carries the user name and password
      read from the first `<ppp>`. */
  lemma LinkFields(baseXml: string, startIp: string, s: Setup, total: nat, k: nat)
    requires ReadSetup(baseXml, startIp) == Ok(s)
    requires k + 2 <= total
    ensures |PppFamily.Plan(PppTemplateOf(s), 2, total)| == total - 1
    ensures var e := PppFamily.Plan(PppTemplateOf(s), 2, total)[k];
      && e.ptpid == k + 2
      && e.user == TagText(FirstPppsBlock(baseXml), "username") != ""
      && e.pass == TagText(FirstPppsBlock(baseXml), "password")
  {
  }

  /** The `<ppp>` link for WAN i = k + 2 has `if` pppoe{i} and `ports` counting on from the
      first link's port, each name splitting back into its prefix and number. */
  lemma LinkNames(s: Setup, total: nat, k: nat)
    requires |s.portPrefix| > 0 && AllLetters(s.portPrefix)
    requires k + 2 <= total
    ensures var e := PppFamily.Plan(PppTemplateOf(s), 2, total)[k];
      && ParseIfName(e.ifName) == ("pppoe", k + 2)
      && ParseIfName(e.portName) == (s.portPrefix, s.portStart + k + 1)
  {
    PppoeLetters();
    PppFamily.PlanIfName(PppTemplateOf(s), 2, total, k);
    PppFamily.PlanPortName(PppTemplateOf(s), 2, total, k);
  }

  /** The rule for WAN k + 1 has source address base + k, which reads back as that number
      modulo 2^32, and uses gateway WAN{k+1}_PPPOE: the gateway of the interface added for
      that WAN when k >= 1. */
  lemma RuleFacts(baseIp: int, startOpt: nat, total: nat, k: nat)
    requires k < total
    ensures |RuleRows(baseIp, total)| == total
    ensures var r := RuleRows(baseIp, total)[k];
      && r.wan == k + 1 && r.addr == baseIp + k
      && Ip.IpToNum(Ip.NumToIp(r.addr)) == Ok(r.addr % Ip.Two32)
    ensures k >= 1 ==> RuleRows(baseIp, total)[k].wan == Links(startOpt, total)[k - 1].wan
  {
    var r := RuleRows(baseIp, total)[k];
    assert r == RuleRow(k + 1, baseIp + k);
    Ip.NumToIpRoundTrip(r.addr);
  }
}
