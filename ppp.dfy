/**
 * `buildPPPClones`: grow a `<ppp>` template (alone, or inside `<ppps>`) to an absolute number
 * of PPPoE links.
 */
module PppFamily {
  import opened Outcomes
  import opened Text
  import opened Markup

  /** The fields one `<ppp>` clone is written from. */
  datatype PppEntry = PppEntry(ptpid: nat, ifName: string, portName: string, user: string, pass: string)

  /** The fixed text of a `<ppp>` clone around its five fields, written in pieces that each
      begin at a `<`. */
  const PppPieces: seq<string> := [
    "\n    " + "<ppp>\n      " + "<ptpid>",
    "</ptpid>\n      " + "<type>pppoe" + "</type>\n      " + "<if>",
    "</if>\n      " + "<ports>",
    "</ports>\n      " + "<username>" + "<![CDATA[",
    "]]>" + "</username>\n      " + "<password>" + "<![CDATA[",
    ("]]>" + "</password>\n      " + "<provider>" + "</provider>\n      " + "<bandwidth>" + "</bandwidth>\n      " + "<mtu>")
    + ("</mtu>\n      " + "<mru>" + "</mru>\n      " + "<mrru>" + "</mrru>\n    " + "</ppp>")
  ]

  /** One `<ppp>` clone, as both buildPPPClones and buildPfSenseXML write it. */
  function RenderPpp(e: PppEntry): string {
    Fill(PppPieces, [NatToString(e.ptpid), e.ifName, e.portName, e.user, e.pass])
  }

  /** The clones, one after the other. */
  function RenderPpps(es: seq<PppEntry>): string {
    if |es| == 0 then "" else RenderPpps(es[..|es| - 1]) + RenderPpp(es[|es| - 1])
  }

  lemma RenderPppsSnoc(es: seq<PppEntry>, e: PppEntry)
    ensures RenderPpps(es + [e]) == RenderPpps(es) + RenderPpp(e)
  {
    assert (es + [e])[..|es|] == es;
  }

  /** What buildPPPClones reads from its template. */
  datatype PppTemplate = PppTemplate(user: string, pass: string, ifPrefix: string, ifStart: nat,
                                     portPrefix: string, portStart: nat)

  /** `user`, `pass` and the split `if`/`ports` names (defaults `pppoe1` and `vtnet1`) of a
      template block. */
  function ReadTemplate(template: string): (t: PppTemplate)
    ensures t.user == TagText(template, "username") && t.pass == TagText(template, "password")
  {
    var ifText := TagText(template, "if");
    var portsText := TagText(template, "ports");
    var ifp := ParseIfName(if ifText == "" then "pppoe1" else ifText);
    var portp := ParseIfName(if portsText == "" then "vtnet1" else portsText);
    PppTemplate(TagText(template, "username"), TagText(template, "password"), ifp.0, ifp.1, portp.0, portp.1)
  }

  /** Clone number `i` (1-based): `if` and `ports` count on from the template's numbers. */
  function EntryOf(t: PppTemplate, i: nat): PppEntry
    requires i >= 1
  {
    PppEntry(i, t.ifPrefix + NatToString(t.ifStart + (i - 1)), t.portPrefix + NatToString(t.portStart + (i - 1)),
             t.user, t.pass)
  }

  /** The clones numbered `from` .. `to`, in order. */
  function Plan(t: PppTemplate, from: nat, to: int): (es: seq<PppEntry>)
    requires from >= 1
    ensures |es| == if to < from then 0 else to - from + 1
    ensures forall k :: 0 <= k < |es| ==> es[k] == EntryOf(t, from + k)
  {
    if to < from then [] else seq(to - from + 1, k requires 0 <= k => EntryOf(t, from + k))
  }

  /** `Math.max(1, Number(total) || 1)` for an integer `total`. */
  function DesiredTotal(total: int): (d: nat)
    ensures d >= 1 && d >= total
    ensures total >= 1 ==> d == total
  {
    if total >= 1 then total else 1
  }

  /** The greedy solo test: the input is one `<ppp>` block and nothing else. */
  predicate IsSolo(baseInput: string) {
    Solo(baseInput, "ppp")
  }

  /** How many links the input already has: 1 for a lone block, else the number of `<ppp>`. */
  function ExistingCount(baseInput: string): nat {
    if IsSolo(baseInput) then 1 else CountFrom(baseInput, Open("ppp"), 0, true)
  }

  /** A lone block gets the `<ppps>` wrapper around its trimmed text. */
  function Wrapped(baseInput: string, clones: string): string {
    if clones == "" then "<ppps>\n" + Trim(baseInput) + "\n</ppps>"
    else "<ppps>\n" + Trim(baseInput) + "\n" + clones + "\n</ppps>"
  }

  /** The result of `buildPPPClones(baseInput, total)`. */
  function PppClones(baseInput: string, total: int): Result<string> {
    var template := FirstBlockFromAny(baseInput, "ppp");
    if template == "" then Err(TemplateNotFound("ppp"))
    else Grow(baseInput, ReadTemplate(template), ExistingCount(baseInput), DesiredTotal(total))
  }

  /** The input, which has `existing` links, grown to `desired` links from template fields `t`. */
  function Grow(baseInput: string, t: PppTemplate, existing: nat, desired: nat): Result<string> {
    if desired <= existing then Ok(if IsSolo(baseInput) then Wrapped(baseInput, "") else baseInput)
    else Extend(baseInput, RenderPpps(Plan(t, existing + 1, desired)))
  }

  /** The input with the new `clones` added: a lone block is wrapped, a wrapped input gets
      them before its last `</ppps>`. */
  function Extend(baseInput: string, clones: string): Result<string> {
    if IsSolo(baseInput) then Ok(Wrapped(baseInput, clones))
    else InsertBeforeClose(baseInput, "ppps", clones)
  }

  /** The clone loop of buildPPPClones: blocks `from` .. `to` appended one by one. */
  method CloneRun(t: PppTemplate, from: nat, to: nat) returns (clones: string)
    requires from >= 1
    ensures clones == RenderPpps(Plan(t, from, to))
  {
    clones := "";
    var i := from;
    while i <= to
      invariant from <= i <= if to < from then from else to + 1
      invariant clones == RenderPpps(Plan(t, from, i - 1))
    {
      RenderPlanSnoc(t, from, i);
      clones := clones + RenderPpp(EntryOf(t, i));
      i := i + 1;
    }
    assert Plan(t, from, i - 1) == Plan(t, from, to);
  }

  /** One more clone adds its block at the end. */
  lemma RenderPlanSnoc(t: PppTemplate, from: nat, i: nat)
    requires 1 <= from <= i
    ensures RenderPpps(Plan(t, from, i)) == RenderPpps(Plan(t, from, i - 1)) + RenderPpp(EntryOf(t, i))
  {
    assert Plan(t, from, i) == Plan(t, from, i - 1) + [EntryOf(t, i)];
    RenderPppsSnoc(Plan(t, from, i - 1), EntryOf(t, i));
  }

  /** `buildPPPClones` */
  method BuildPppClones(baseInput: string, total: int) returns (r: Result<string>)
    ensures r == PppClones(baseInput, total)
  {
    var template := FirstBlockFromAny(baseInput, "ppp");
    if template == "" {
      return Err(TemplateNotFound("ppp"));
    }
    r := GrowMethod(baseInput, ReadTemplate(template), ExistingCount(baseInput), DesiredTotal(total));
  }

  /** The part of buildPPPClones after the template is read and the links are counted. */
  method GrowMethod(baseInput: string, t: PppTemplate, existing: nat, desired: nat) returns (r: Result<string>)
    ensures r == Grow(baseInput, t, existing, desired)
  {
    if desired <= existing {
      r := Ok(if IsSolo(baseInput) then Wrapped(baseInput, "") else baseInput);
    } else {
      var clones := CloneRun(t, existing + 1, desired);
      r := Extend(baseInput, clones);
    }
  }

  /* ---------------- what the result is ---------------- */

  /** Without a `<ppp>` block there is nothing to copy. */
  lemma NoTemplate(baseInput: string, total: int)
    requires FirstBlockFromAny(baseInput, "ppp") == ""
    ensures PppClones(baseInput, total) == Err(TemplateNotFound("ppp"))
  {
  }

  /** Enough links already: a lone block only gains its wrapper, a wrapped input comes back. */
  lemma AlreadyEnough(baseInput: string, total: int)
    requires FirstBlockFromAny(baseInput, "ppp") != ""
    requires DesiredTotal(total) <= ExistingCount(baseInput)
    ensures IsSolo(baseInput) ==> PppClones(baseInput, total) == Ok("<ppps>\n" + Trim(baseInput) + "\n</ppps>")
    ensures !IsSolo(baseInput) ==> PppClones(baseInput, total) == Ok(baseInput)
  {
  }

  /** Growing a wrapped input fails exactly when it has no case-sensitive `</ppps>`, and
      otherwise splices in exactly the missing clones, leaving the rest of the input intact. */
  lemma GrowWrapped(baseInput: string, t: PppTemplate, existing: nat, desired: nat)
    requires !IsSolo(baseInput) && desired > existing
    ensures Grow(baseInput, t, existing, desired).Err? <==> forall j :: !MatchAt(baseInput, j, Close("ppps"), false)
    ensures Grow(baseInput, t, existing, desired).Err? ==> Grow(baseInput, t, existing, desired).error == MissingClosingTag("ppps")
    ensures Grow(baseInput, t, existing, desired).Ok? ==>
      var i := LastIndexOf(baseInput, Close("ppps")).value;
      var clones := RenderPpps(Plan(t, existing + 1, desired));
      var out := Grow(baseInput, t, existing, desired).value;
      && out[..i] == baseInput[..i]
      && out[i..i + |clones|] == clones
      && out[i + |clones|..] == baseInput[i..]
  {
  }

  /** Growing a lone block wraps it, followed by exactly the missing clones. */
  lemma GrowSolo(baseInput: string, t: PppTemplate, desired: nat)
    requires IsSolo(baseInput) && desired > 1
    ensures Grow(baseInput, t, ExistingCount(baseInput), desired)
      == Ok("<ppps>\n" + Trim(baseInput) + "\n" + RenderPpps(Plan(t, 2, desired)) + "\n</ppps>")
  {
    assert RenderPpps(Plan(t, 2, desired)) != "" by {
      var es := Plan(t, 2, desired);
      assert |es| > 0;
      assert |RenderPpp(es[|es| - 1])| > 0;
    }
  }

  /** The clones are numbered on from the existing links up to the total, and every one
      carries the template's credentials. */
  lemma PlanFacts(t: PppTemplate, existing: nat, desired: nat, k: nat)
    requires existing < desired && k < desired - existing
    ensures |Plan(t, existing + 1, desired)| == desired - existing
    ensures var e := Plan(t, existing + 1, desired)[k];
      e.ptpid == existing + 1 + k && e.user == t.user && e.pass == t.pass
  {
  }

  /** The `if` and `ports` names of each clone read back, through the same splitter, as the
      template's prefixes with the template's numbers shifted by the clone's number. */
  lemma PlanNames(t: PppTemplate, existing: nat, desired: nat, k: nat)
    requires existing < desired && k < desired - existing
    requires |t.ifPrefix| > 0 && AllLetters(t.ifPrefix)
    requires |t.portPrefix| > 0 && AllLetters(t.portPrefix)
    ensures var e := Plan(t, existing + 1, desired)[k];
      && ParseIfName(e.ifName) == (t.ifPrefix, t.ifStart + existing + k)
      && ParseIfName(e.portName) == (t.portPrefix, t.portStart + existing + k)
  {
    PlanIfName(t, existing + 1, desired, k);
    PlanPortName(t, existing + 1, desired, k);
  }

  lemma PlanIfName(t: PppTemplate, from: nat, to: nat, k: nat)
    requires 1 <= from <= to && k <= to - from
    requires |t.ifPrefix| > 0 && AllLetters(t.ifPrefix)
    ensures ParseIfName(Plan(t, from, to)[k].ifName) == (t.ifPrefix, t.ifStart + from - 1 + k)
  {
    var e := Plan(t, from, to)[k];
    assert e == EntryOf(t, from + k);
    IfNameOf(t.ifPrefix, t.ifStart + from - 1 + k, e.ifName);
  }

  lemma PlanPortName(t: PppTemplate, from: nat, to: nat, k: nat)
    requires 1 <= from <= to && k <= to - from
    requires |t.portPrefix| > 0 && AllLetters(t.portPrefix)
    ensures ParseIfName(Plan(t, from, to)[k].portName) == (t.portPrefix, t.portStart + from - 1 + k)
  {
    var e := Plan(t, from, to)[k];
    assert e == EntryOf(t, from + k);
    IfNameOf(t.portPrefix, t.portStart + from - 1 + k, e.portName);
  }

  /** The prefixes a template yields are always a non-empty run of letters. */
  lemma TemplatePrefixes(template: string)
    ensures var t := ReadTemplate(template);
      |t.ifPrefix| > 0 && AllLetters(t.ifPrefix) && |t.portPrefix| > 0 && AllLetters(t.portPrefix)
  {
  }
}
