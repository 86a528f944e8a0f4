/**
 * `buildWANClones`: append `<optN>` interface blocks after a `<wan>` template until the
 * number of WAN interfaces reaches a total.
 */
module WanFamily {
  import opened Outcomes
  import opened Text
  import opened Markup
  import PppFamily

  /** The fields one `<optN>` clone is written from. */
  datatype WanEntry = WanEntry(opt: nat, ifName: string, wanNum: nat, ipaddr: string)

  /** The fixed text of an `<optN>` clone around its fields. */
  const OptPieces: seq<string> := [
    "\n    <opt",
    ">\n      <enable></enable>\n      <if>",
    "</if>\n      <blockpriv></blockpriv>\n      <blockbogons></blockbogons>\n      <descr><![CDATA[WAN",
    "]]></descr>\n      <spoofmac></spoofmac>\n      <ipaddr>",
    "</ipaddr>\n    </opt",
    ">"
  ]

  function RenderOpt(e: WanEntry): string {
    Fill(OptPieces, [NatToString(e.opt), e.ifName, NatToString(e.wanNum), e.ipaddr, NatToString(e.opt)])
  }

  function RenderOpts(es: seq<WanEntry>): string {
    if |es| == 0 then "" else RenderOpts(es[..|es| - 1]) + RenderOpt(es[|es| - 1])
  }

  lemma RenderOptsSnoc(es: seq<WanEntry>, e: WanEntry)
    ensures RenderOpts(es + [e]) == RenderOpts(es) + RenderOpt(e)
  {
    assert (es + [e])[..|es|] == es;
  }

  /** What buildWANClones reads from its template: the `if` prefix and the `ipaddr` text. */
  datatype WanTemplate = WanTemplate(ifPrefix: string, ipaddr: string)

  function ReadTemplate(wanBlock: string): (t: WanTemplate)
    ensures |t.ifPrefix| > 0 && AllLetters(t.ifPrefix)
    ensures t.ipaddr != ""
  {
    var ifText := TagText(wanBlock, "if");
    var ipText := TagText(wanBlock, "ipaddr");
    WanTemplate(ParseIfName(if ifText == "" then "pppoe1" else ifText).0,
                if ipText == "" then "pppoe" else ipText)
  }

  /** WAN number `i` goes to `opt` index `startOpt + (i - firstNum)`; its interface name is
      the template's prefix followed by the WAN number itself (the template's own number
      plays no part). */
  function EntryOf(t: WanTemplate, startOpt: nat, firstNum: nat, i: nat): WanEntry
    requires i >= firstNum
  {
    WanEntry(startOpt + (i - firstNum), t.ifPrefix + NatToString(i), i, t.ipaddr)
  }

  /** The clones for WAN numbers `from` .. `to`. */
  function Plan(t: WanTemplate, startOpt: nat, from: nat, to: int): (es: seq<WanEntry>)
    ensures |es| == if to < from then 0 else to - from + 1
    ensures forall k :: 0 <= k < |es| ==> es[k] == EntryOf(t, startOpt, from, from + k)
  {
    if to < from then [] else seq(to - from + 1, k requires 0 <= k => EntryOf(t, startOpt, from, from + k))
  }

  /** The input holds both `<interfaces>` and `</interfaces>`. */
  predicate WithInterfaces(baseInput: string) {
    HasWrapper(baseInput, "interfaces")
  }

  /** 1 for the `<wan>` itself plus every `<optN>` (counted case-insensitively) when wrapped. */
  function ExistingTotal(baseInput: string): nat {
    1 + (if WithInterfaces(baseInput) then CountOptFrom(baseInput, 0) else 0)
  }

  /** The first new `opt` index: one past the largest case-sensitive `<optN>` when wrapped. */
  function StartOpt(baseInput: string): nat {
    if WithInterfaces(baseInput) then MaxOptIndex(baseInput) + 1 else 1
  }

  /** The result of `buildWANClones(baseInput, total)`. */
  function WanClones(baseInput: string, total: int): Result<string> {
    var wanBlock := FirstBlockFromAny(baseInput, "wan");
    if wanBlock == "" then Err(TemplateNotFound("wan"))
    else Grow(baseInput, ReadTemplate(wanBlock), ExistingTotal(baseInput), StartOpt(baseInput),
              PppFamily.DesiredTotal(total))
  }

  /** The input, which has `existing` WANs, grown to `desired` from template fields `t`, the new
      `opt` indices counting up from `startOpt`. */
  function Grow(baseInput: string, t: WanTemplate, existing: nat, startOpt: nat, desired: nat): Result<string> {
    if desired <= existing then Ok(if WithInterfaces(baseInput) then baseInput else "")
    else Extend(baseInput, RenderOpts(Plan(t, startOpt, existing + 1, desired)))
  }

  /** The input with the new `clones` added: before the last `</interfaces>` when wrapped,
      else the clones alone with their leading whitespace trimmed. */
  function Extend(baseInput: string, clones: string): Result<string> {
    if WithInterfaces(baseInput) then InsertBeforeClose(baseInput, "interfaces", clones)
    else Ok(TrimStart(clones))
  }

  /** The clone loop of buildWANClones. */
  method CloneRun(t: WanTemplate, startOpt: nat, from: nat, to: nat) returns (clones: string)
    ensures clones == RenderOpts(Plan(t, startOpt, from, to))
  {
    clones := "";
    var i := from;
    while i <= to
      invariant from <= i <= if to < from then from else to + 1
      invariant clones == RenderOpts(Plan(t, startOpt, from, i - 1))
    {
      RenderPlanSnoc(t, startOpt, from, i);
      clones := clones + RenderOpt(EntryOf(t, startOpt, from, i));
      i := i + 1;
    }
    assert Plan(t, startOpt, from, i - 1) == Plan(t, startOpt, from, to);
  }

  /** One more clone adds its block at the end. */
  lemma RenderPlanSnoc(t: WanTemplate, startOpt: nat, from: nat, i: nat)
    requires from <= i
    ensures RenderOpts(Plan(t, startOpt, from, i))
         == RenderOpts(Plan(t, startOpt, from, i - 1)) + RenderOpt(EntryOf(t, startOpt, from, i))
  {
    assert Plan(t, startOpt, from, i) == Plan(t, startOpt, from, i - 1) + [EntryOf(t, startOpt, from, i)];
    RenderOptsSnoc(Plan(t, startOpt, from, i - 1), EntryOf(t, startOpt, from, i));
  }

  /** `buildWANClones` */
  method BuildWanClones(baseInput: string, total: int) returns (r: Result<string>)
    ensures r == WanClones(baseInput, total)
  {
    var wanBlock := FirstBlockFromAny(baseInput, "wan");
    if wanBlock == "" {
      return Err(TemplateNotFound("wan"));
    }
    r := GrowMethod(baseInput, ReadTemplate(wanBlock), ExistingTotal(baseInput), StartOpt(baseInput),
                    PppFamily.DesiredTotal(total));
  }

  /** The part of buildWANClones after the template is read and the interfaces are counted. */
  method GrowMethod(baseInput: string, t: WanTemplate, existing: nat, startOpt: nat, desired: nat)
    returns (r: Result<string>)
    ensures r == Grow(baseInput, t, existing, startOpt, desired)
  {
    if desired <= existing {
      r := Ok(if WithInterfaces(baseInput) then baseInput else "");
    } else {
      var clones := CloneRun(t, startOpt, existing + 1, desired);
      r := Extend(baseInput, clones);
    }
  }

  /* ---------------- what the result is ---------------- */

  lemma NoTemplate(baseInput: string, total: int)
    requires FirstBlockFromAny(baseInput, "wan") == ""
    ensures WanClones(baseInput, total) == Err(TemplateNotFound("wan"))
  {
  }

  /** Enough interfaces already: a wrapped input comes back unchanged, a bare one gives ''. */
  lemma AlreadyEnough(baseInput: string, t: WanTemplate, existing: nat, startOpt: nat, desired: nat)
    requires desired <= existing
    ensures WithInterfaces(baseInput) ==> Grow(baseInput, t, existing, startOpt, desired) == Ok(baseInput)
    ensures !WithInterfaces(baseInput) ==> Grow(baseInput, t, existing, startOpt, desired) == Ok("")
  {
  }

  /** Growing a wrapped input fails exactly when it has no case-sensitive `</interfaces>`, and
      otherwise splices the clones in before the last one, leaving the rest intact. */
  lemma GrowWrapped(baseInput: string, t: WanTemplate, existing: nat, startOpt: nat, desired: nat)
    requires WithInterfaces(baseInput) && desired > existing
    ensures Grow(baseInput, t, existing, startOpt, desired).Err? <==> forall j :: !MatchAt(baseInput, j, Close("interfaces"), false)
    ensures Grow(baseInput, t, existing, startOpt, desired).Ok? ==>
      var i := LastIndexOf(baseInput, Close("interfaces")).value;
      var clones := RenderOpts(Plan(t, startOpt, existing + 1, desired));
      var out := Grow(baseInput, t, existing, startOpt, desired).value;
      && out[..i] == baseInput[..i]
      && out[i..i + |clones|] == clones
      && out[i + |clones|..] == baseInput[i..]
  {
  }

  /** The clones carry WAN numbers existingTotal+1 .. desired and consecutive `opt` indices
      from the start index, and copy the template's `ipaddr`. */
  lemma PlanFacts(t: WanTemplate, startOpt: nat, existing: nat, desired: nat, k: nat)
    requires existing < desired && k < desired - existing
    ensures |Plan(t, startOpt, existing + 1, desired)| == desired - existing
    ensures var e := Plan(t, startOpt, existing + 1, desired)[k];
      e.wanNum == existing + 1 + k && e.opt == startOpt + k && e.ipaddr == t.ipaddr
  {
  }

  /** A clone's interface name splits back into the template's prefix and its WAN number. */
  lemma PlanIfName(t: WanTemplate, startOpt: nat, from: nat, to: nat, k: nat)
    requires from <= to && k <= to - from
    requires |t.ifPrefix| > 0 && AllLetters(t.ifPrefix)
    ensures ParseIfName(Plan(t, startOpt, from, to)[k].ifName) == (t.ifPrefix, from + k)
  {
    var e := Plan(t, startOpt, from, to)[k];
    assert e == EntryOf(t, startOpt, from, from + k);
    IfNameOf(t.ifPrefix, from + k, e.ifName);
  }

  /** No clone reuses an `opt` number already written (case-sensitively) in a wrapped input:
      every new index is above all of them. */
  lemma FreshOptIndices(baseInput: string, t: WanTemplate, desired: nat, k: nat, p: nat, v: nat, e: nat)
    requires WithInterfaces(baseInput)
    requires k < |Plan(t, StartOpt(baseInput), ExistingTotal(baseInput) + 1, desired)|
    requires OptTagAt(baseInput, p, false) == Some((v, e))
    ensures Plan(t, StartOpt(baseInput), ExistingTotal(baseInput) + 1, desired)[k].opt > v
  {
  }
}
