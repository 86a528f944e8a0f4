/**
 * Why buildPfSenseXML reports a missing `</ppps>`, `</gateways>` or `<filter…>` exactly when its
 * input lacks one: none of the blocks it splices in before that search can supply the tag.
 */
module PfSenseAnchors {
  import opened Outcomes
  import opened Text
  import opened Markup
  import opened PfSense
  import PppFamily

  /** The tags whose absence the builder reports have the shape of a tag. */
  lemma Patterns()
    ensures TagPattern(Close("ppps")) && TagPattern(Close("gateways")) && TagPattern("<" + "filter")
    ensures NotIn('>', "<" + "filter", true)
  {
  }

  /* ---------------- the blocks the builder writes ---------------- */

  /** An added interface holds no tag its template's pieces lack: its fields are numerals. */
  lemma RenderIfAbsent(l: Link, pat: string, fold: bool)
    requires TagPattern(pat)
    requires forall i :: 0 <= i < |IfPieces| ==> Absent(IfPieces[i], pat, fold)
    ensures Absent(RenderIf(l), pat, fold) && StartSafe(RenderIf(l), pat, fold)
  {
    var vs := [NatToString(l.opt), NatToString(l.wan), NatToString(l.wan), NatToString(l.opt)];
    forall i | 0 <= i < |vs|
      ensures |vs[i]| > 0 && Absent(vs[i], pat, fold) && StartSafe(vs[i], pat, fold) && EndSafe(vs[i], pat, fold)
    {
      DigitsSafe(vs[i], pat, fold);
    }
    assert forall i :: 0 <= i < |IfPieces| ==> |IfPieces[i]| > 0;
    FillAbsent(IfPieces, vs, pat, fold);
    FillHead(IfPieces, vs);
    assert Plain(IfPieces[0][0]);
    PlainSafe(RenderIf(l), pat, fold);
  }

  lemma {:induction false} RenderIfsAbsent(ls: seq<Link>, pat: string, fold: bool)
    requires TagPattern(pat)
    requires forall i :: 0 <= i < |IfPieces| ==> Absent(IfPieces[i], pat, fold)
    ensures Absent(RenderIfs(ls), pat, fold) && StartSafe(RenderIfs(ls), pat, fold)
  {
    if |ls| > 0 {
      RenderIfsAbsent(ls[..|ls| - 1], pat, fold);
      RenderIfAbsent(ls[|ls| - 1], pat, fold);
      AbsentAppend(RenderIfs(ls[..|ls| - 1]), RenderIf(ls[|ls| - 1]), pat, fold);
    }
  }

  /** An added gateway holds no tag its template's pieces lack: its fields are numerals. */
  lemma RenderGatewayAbsent(l: Link, pat: string, fold: bool)
    requires TagPattern(pat)
    requires forall i :: 0 <= i < |GatewayPieces| ==> Absent(GatewayPieces[i], pat, fold)
    ensures Absent(RenderGateway(l), pat, fold) && StartSafe(RenderGateway(l), pat, fold)
  {
    var vs := [NatToString(l.opt), NatToString(l.wan), NatToString(l.wan)];
    forall i | 0 <= i < |vs|
      ensures |vs[i]| > 0 && Absent(vs[i], pat, fold) && StartSafe(vs[i], pat, fold) && EndSafe(vs[i], pat, fold)
    {
      DigitsSafe(vs[i], pat, fold);
    }
    assert forall i :: 0 <= i < |GatewayPieces| ==> |GatewayPieces[i]| > 0;
    FillAbsent(GatewayPieces, vs, pat, fold);
    FillHead(GatewayPieces, vs);
    assert Plain(GatewayPieces[0][0]);
    PlainSafe(RenderGateway(l), pat, fold);
  }

  lemma {:induction false} RenderGatewaysAbsent(ls: seq<Link>, pat: string, fold: bool)
    requires TagPattern(pat)
    requires forall i :: 0 <= i < |GatewayPieces| ==> Absent(GatewayPieces[i], pat, fold)
    ensures Absent(RenderGateways(ls), pat, fold) && StartSafe(RenderGateways(ls), pat, fold)
  {
    if |ls| > 0 {
      RenderGatewaysAbsent(ls[..|ls| - 1], pat, fold);
      RenderGatewayAbsent(ls[|ls| - 1], pat, fold);
      AbsentAppend(RenderGateways(ls[..|ls| - 1]), RenderGateway(ls[|ls| - 1]), pat, fold);
    }
  }

  /** A `<ppp>` link whose names hold no `<` and whose user name and password hold no `pat`. */
  predicate CleanEntry(e: PppFamily.PppEntry, pat: string, fold: bool) {
    && (forall k :: 0 <= k < |e.ifName| ==> e.ifName[k] != '<')
    && (forall k :: 0 <= k < |e.portName| ==> e.portName[k] != '<')
    && Absent(e.user, pat, fold) && Absent(e.pass, pat, fold)
  }

  /** A written `<ppp>` link holds no tag that its fields and its template's pieces lack: every
      seam of the template is a `>` or `[` before a field and a `<` or `]` after it. */
  lemma RenderPppAbsent(e: PppFamily.PppEntry, pat: string, fold: bool)
    requires TagPattern(pat) && CleanEntry(e, pat, fold)
    requires forall i :: 0 <= i < |PppFamily.PppPieces| ==> Absent(PppFamily.PppPieces[i], pat, fold)
    ensures Absent(PppFamily.RenderPpp(e), pat, fold) && StartSafe(PppFamily.RenderPpp(e), pat, fold)
  {
    var ps := PppFamily.PppPieces;
    var vs := [NatToString(e.ptpid), e.ifName, e.portName, e.user, e.pass];
    DigitsSafe(vs[0], pat, fold);
    AbsentNoAnchor(e.ifName, pat, fold);
    AbsentNoAnchor(e.portName, pat, fold);
    assert forall i :: 0 <= i < |ps| ==> |ps[i]| > 0;
    assert ps[0][|ps[0]| - 1] == '>' && ps[1][|ps[1]| - 1] == '>' && ps[2][|ps[2]| - 1] == '>';
    CloseEndSafe(ps[0], pat, fold);
    CloseEndSafe(ps[1], pat, fold);
    CloseEndSafe(ps[2], pat, fold);
    assert Plain(ps[3][|ps[3]| - 1]) && Plain(ps[4][|ps[4]| - 1]);
    PlainSafe(ps[3], pat, fold);
    PlainSafe(ps[4], pat, fold);
    assert ps[1][0] == '<' && ps[2][0] == '<' && ps[3][0] == '<';
    AnchorStartSafe(ps[1], pat, fold);
    AnchorStartSafe(ps[2], pat, fold);
    AnchorStartSafe(ps[3], pat, fold);
    assert Plain(ps[4][0]) && Plain(ps[5][0]);
    PlainSafe(ps[5], pat, fold);
    FillAbsent(ps, vs, pat, fold);
    FillHead(ps, vs);
    assert Plain(ps[0][0]);
    PlainSafe(PppFamily.RenderPpp(e), pat, fold);
  }

  lemma {:induction false} RenderPppsAbsent(es: seq<PppFamily.PppEntry>, pat: string, fold: bool)
    requires TagPattern(pat) && forall k :: 0 <= k < |es| ==> CleanEntry(es[k], pat, fold)
    requires forall i :: 0 <= i < |PppFamily.PppPieces| ==> Absent(PppFamily.PppPieces[i], pat, fold)
    ensures Absent(PppFamily.RenderPpps(es), pat, fold) && StartSafe(PppFamily.RenderPpps(es), pat, fold)
  {
    if |es| > 0 {
      var init := es[..|es| - 1];
      assert forall k :: 0 <= k < |init| ==> init[k] == es[k];
      RenderPppsAbsent(init, pat, fold);
      RenderPppAbsent(es[|es| - 1], pat, fold);
      AbsentAppend(PppFamily.RenderPpps(init), PppFamily.RenderPpp(es[|es| - 1]), pat, fold);
    }
  }

  /** The values buildPfSenseXML reads hold no tag its first `<ppps>` block lacks: the user
      name and password are pieces of that block, the port prefix is letters. */
  lemma SetupAbsent(baseXml: string, startIp: string, s: Setup, pat: string, fold: bool)
    requires ReadSetup(baseXml, startIp) == Ok(s)
    requires |pat| > 0 && Absent(FirstPppsBlock(baseXml), pat, fold)
    ensures Absent(s.user, pat, fold) && Absent(s.pass, pat, fold) && AllLetters(s.portPrefix)
  {
    TagTextAbsent(FirstPppsBlock(baseXml), "username", pat, fold);
    TagTextAbsent(FirstPppsBlock(baseXml), "password", pat, fold);
  }

  /** A name made of letters and a numeral holds no `<`. */
  lemma NameNoAnchor(prefix: string, n: nat)
    requires AllLetters(prefix)
    ensures var name := prefix + NatToString(n);
      forall k :: 0 <= k < |name| ==> name[k] != '<'
  {
    var d := NatToString(n);
    var name := prefix + d;
    forall k | 0 <= k < |name| ensures name[k] != '<' {
      if k < |prefix| {
        assert name[k] == prefix[k] && IsLetter(prefix[k]);
      } else {
        assert name[k] == d[k - |prefix|] && IsDigit(d[k - |prefix|]);
      }
    }
  }

  /** Every link of the plan is clean when the values read hold no `pat`. */
  lemma PlanClean(s: Setup, total: nat, pat: string, fold: bool)
    requires Absent(s.user, pat, fold) && Absent(s.pass, pat, fold) && AllLetters(s.portPrefix)
    ensures var es := PppFamily.Plan(PppTemplateOf(s), 2, total);
      forall k :: 0 <= k < |es| ==> CleanEntry(es[k], pat, fold)
  {
    PppoeLetters();
    var t := PppTemplateOf(s);
    var es := PppFamily.Plan(t, 2, total);
    forall k | 0 <= k < |es| ensures CleanEntry(es[k], pat, fold) {
      assert es[k] == PppFamily.EntryOf(t, 2 + k);
      NameNoAnchor("pppoe", 1 + (2 + k - 1));
      NameNoAnchor(s.portPrefix, s.portStart + (2 + k - 1));
    }
  }

  /* ---------------- the errors of buildPfSenseXML ---------------- */

  /** The first checks fail only with a missing user name or an invalid address. */
  lemma SetupErrorKinds(baseXml: string, startIp: string)
    ensures ReadSetup(baseXml, startIp).Err? ==>
      ReadSetup(baseXml, startIp).error == MissingUsername || ReadSetup(baseXml, startIp).error.InvalidIp?
  {
  }

  /** Past the first checks, the result is the four splices of the written blocks. */
  lemma PfSenseSplice(baseXml: string, addCount: int, startIp: string, s: Setup)
    requires ReadSetup(baseXml, startIp) == Ok(s)
    ensures var total := Total(addCount);
      PfSenseXml(baseXml, addCount, startIp) ==
        Splice(baseXml, RenderIfs(Links(s.startOpt, total)),
               PppFamily.RenderPpps(PppFamily.Plan(PppTemplateOf(s), 2, total)),
               RenderGateways(Links(s.startOpt, total)), RenderRules(RuleRows(s.baseIp, total)))
  {
  }

  /** With a `</interfaces>` and no `</ppps>` in the input, and none in the interfaces spliced
      in, the second splice fails. */
  lemma SplicePppsMissing(xml: string, ifs: string, ppps: string, gws: string, rules: string)
    requires exists j :: MatchAt(xml, j, Close("interfaces"), false)
    requires forall j :: !MatchAt(xml, j, Close("ppps"), false)
    requires Absent(ifs, Close("ppps"), false) && StartSafe(ifs, Close("ppps"), false)
    ensures Splice(xml, ifs, ppps, gws, rules) == Err(MissingClosingTag("ppps"))
  {
    Patterns();
    InsertBeforeCloseAbsent(xml, "interfaces", ifs, Close("ppps"), false);
  }

  /** buildPfSenseXML reports a missing `</ppps>` exactly when its input passes the first
      checks, has a `</interfaces>` and has no `</ppps>`. */
  lemma PppsMissing(baseXml: string, addCount: int, startIp: string)
    ensures PfSenseXml(baseXml, addCount, startIp) == Err(MissingClosingTag("ppps")) <==>
      && ReadSetup(baseXml, startIp).Ok?
      && (exists j :: MatchAt(baseXml, j, Close("interfaces"), false))
      && forall j :: !MatchAt(baseXml, j, Close("ppps"), false)
  {
    SetupErrorKinds(baseXml, startIp);
    if ReadSetup(baseXml, startIp).Ok? {
      var s := ReadSetup(baseXml, startIp).value;
      var total := Total(addCount);
      var ifs := RenderIfs(Links(s.startOpt, total));
      var ppps := PppFamily.RenderPpps(PppFamily.Plan(PppTemplateOf(s), 2, total));
      var gws := RenderGateways(Links(s.startOpt, total));
      var rules := RenderRules(RuleRows(s.baseIp, total));
      PfSenseSplice(baseXml, addCount, startIp, s);
      InterfacesError(baseXml, ifs, ppps, gws, rules);
      PppsError(baseXml, ifs, ppps, gws, rules);
      if (exists j :: MatchAt(baseXml, j, Close("interfaces"), false)) && forall j :: !MatchAt(baseXml, j, Close("ppps"), false) {
        Patterns();
        forall i | 0 <= i < |IfPieces| ensures Absent(IfPieces[i], Close("ppps"), false) {
          IfPiecesNoClose(i, "ppps");
        }
        RenderIfsAbsent(Links(s.startOpt, total), Close("ppps"), false);
        SplicePppsMissing(baseXml, ifs, ppps, gws, rules);
      }
    }
  }

  /** With `</interfaces>` and `</ppps>` but no `</gateways>` in the input, and none in the
      interfaces and links spliced in, the third splice fails. */
  lemma SpliceGatewaysMissing(xml: string, ifs: string, ppps: string, gws: string, rules: string)
    requires exists j :: MatchAt(xml, j, Close("interfaces"), false)
    requires exists j :: MatchAt(xml, j, Close("ppps"), false)
    requires forall j :: !MatchAt(xml, j, Close("gateways"), false)
    requires Absent(ifs, Close("gateways"), false) && StartSafe(ifs, Close("gateways"), false)
    requires Absent(ppps, Close("gateways"), false) && StartSafe(ppps, Close("gateways"), false)
    ensures Splice(xml, ifs, ppps, gws, rules) == Err(MissingClosingTag("gateways"))
  {
    Patterns();
    var out1 := InsertBeforeClose(xml, "interfaces", ifs).value;
    KeepsPlaces(xml, "interfaces", ifs);
    InsertBeforeCloseAbsent(xml, "interfaces", ifs, Close("gateways"), false);
    InsertBeforeCloseAbsent(out1, "ppps", ppps, Close("gateways"), false);
  }

  /** The written interfaces and links hold no tag the first `<ppps>` block of the input
      lacks, for a tag that no piece of their templates holds. */
  lemma BlocksAbsent(baseXml: string, startIp: string, s: Setup, total: nat, pat: string, fold: bool)
    requires ReadSetup(baseXml, startIp) == Ok(s)
    requires TagPattern(pat) && Absent(FirstPppsBlock(baseXml), pat, fold)
    requires forall i :: 0 <= i < |IfPieces| ==> Absent(IfPieces[i], pat, fold)
    requires forall i :: 0 <= i < |PppFamily.PppPieces| ==> Absent(PppFamily.PppPieces[i], pat, fold)
    ensures var ifs := RenderIfs(Links(s.startOpt, total));
      Absent(ifs, pat, fold) && StartSafe(ifs, pat, fold)
    ensures var ppps := PppFamily.RenderPpps(PppFamily.Plan(PppTemplateOf(s), 2, total));
      Absent(ppps, pat, fold) && StartSafe(ppps, pat, fold)
  {
    SetupAbsent(baseXml, startIp, s, pat, fold);
    PlanClean(s, total, pat, fold);
    RenderIfsAbsent(Links(s.startOpt, total), pat, fold);
    RenderPppsAbsent(PppFamily.Plan(PppTemplateOf(s), 2, total), pat, fold);
  }

  /** buildPfSenseXML reports a missing `</gateways>` exactly when its input passes the first
      checks, has `</interfaces>` and `</ppps>`, and has no `</gateways>`. */
  lemma GatewaysMissing(baseXml: string, addCount: int, startIp: string)
    ensures PfSenseXml(baseXml, addCount, startIp) == Err(MissingClosingTag("gateways")) <==>
      && ReadSetup(baseXml, startIp).Ok?
      && (exists j :: MatchAt(baseXml, j, Close("interfaces"), false))
      && (exists j :: MatchAt(baseXml, j, Close("ppps"), false))
      && forall j :: !MatchAt(baseXml, j, Close("gateways"), false)
  {
    SetupErrorKinds(baseXml, startIp);
    PppsMissing(baseXml, addCount, startIp);
    if ReadSetup(baseXml, startIp).Ok? {
      var s := ReadSetup(baseXml, startIp).value;
      var total := Total(addCount);
      var ifs := RenderIfs(Links(s.startOpt, total));
      var ppps := PppFamily.RenderPpps(PppFamily.Plan(PppTemplateOf(s), 2, total));
      var gws := RenderGateways(Links(s.startOpt, total));
      var rules := RenderRules(RuleRows(s.baseIp, total));
      PfSenseSplice(baseXml, addCount, startIp, s);
      InterfacesError(baseXml, ifs, ppps, gws, rules);
      GatewaysError(baseXml, ifs, ppps, gws, rules);
      if && (exists j :: MatchAt(baseXml, j, Close("interfaces"), false))
         && (exists j :: MatchAt(baseXml, j, Close("ppps"), false))
         && forall j :: !MatchAt(baseXml, j, Close("gateways"), false)
      {
        Patterns();
        forall i | 0 <= i < |IfPieces| ensures Absent(IfPieces[i], Close("gateways"), false) {
          IfPiecesNoClose(i, "gateways");
        }
        forall i | 0 <= i < |PppFamily.PppPieces| ensures Absent(PppFamily.PppPieces[i], Close("gateways"), false) {
          PppPiecesNoGatewaysClose(i);
        }
        FirstPppsBlockAbsent(baseXml, Close("gateways"), false);
        BlocksAbsent(baseXml, startIp, s, total, Close("gateways"), false);
        SpliceGatewaysMissing(baseXml, ifs, ppps, gws, rules);
      }
    }
  }

  /** With the three closing tags and no `>` after any `<filter` in the input, and no `<filter`
      in the blocks spliced in, the last splice fails. */
  lemma SpliceFilterMissing(xml: string, ifs: string, ppps: string, gws: string, rules: string)
    requires exists j :: MatchAt(xml, j, Close("interfaces"), false)
    requires exists j :: MatchAt(xml, j, Close("ppps"), false)
    requires exists j :: MatchAt(xml, j, Close("gateways"), false)
    requires Unclosed(xml, "<" + "filter", true)
    requires Absent(ifs, "<" + "filter", true) && StartSafe(ifs, "<" + "filter", true)
    requires Absent(ppps, "<" + "filter", true) && StartSafe(ppps, "<" + "filter", true)
    requires Absent(gws, "<" + "filter", true) && StartSafe(gws, "<" + "filter", true)
    ensures Splice(xml, ifs, ppps, gws, rules) == Err(MissingOpeningTag("filter"))
  {
    Patterns();
    var pat := "<" + "filter";
    var out1 := InsertBeforeClose(xml, "interfaces", ifs).value;
    KeepsPlaces(xml, "interfaces", ifs);
    InsertBeforeCloseUnclosed(xml, "interfaces", ifs, pat, true);
    var out2 := InsertBeforeClose(out1, "ppps", ppps).value;
    KeepsPlaces(out1, "ppps", ppps);
    InsertBeforeCloseUnclosed(out1, "ppps", ppps, pat, true);
    var out3 := InsertBeforeClose(out2, "gateways", gws).value;
    InsertBeforeCloseUnclosed(out2, "gateways", gws, pat, true);
    UnclosedIff(out3, "filter");
  }

  /** The written interfaces, links and gateways hold no `<filter` that the first `<ppps>` block
      of the input lacks. */
  lemma FilterBlocksAbsent(baseXml: string, startIp: string, s: Setup, total: nat)
    requires ReadSetup(baseXml, startIp) == Ok(s)
    requires Absent(FirstPppsBlock(baseXml), "<" + "filter", true)
    ensures var ifs := RenderIfs(Links(s.startOpt, total));
      Absent(ifs, "<" + "filter", true) && StartSafe(ifs, "<" + "filter", true)
    ensures var ppps := PppFamily.RenderPpps(PppFamily.Plan(PppTemplateOf(s), 2, total));
      Absent(ppps, "<" + "filter", true) && StartSafe(ppps, "<" + "filter", true)
    ensures var gws := RenderGateways(Links(s.startOpt, total));
      Absent(gws, "<" + "filter", true) && StartSafe(gws, "<" + "filter", true)
  {
    var pat := "<" + "filter";
    Patterns();
    forall i | 0 <= i < |IfPieces| ensures Absent(IfPieces[i], pat, true) {
      IfPiecesNoFilterOpen(i);
    }
    forall i | 0 <= i < |PppFamily.PppPieces| ensures Absent(PppFamily.PppPieces[i], pat, true) {
      PppPiecesNoFilterOpen(i);
    }
    forall i | 0 <= i < |GatewayPieces| ensures Absent(GatewayPieces[i], pat, true) {
      GatewayPiecesNoFilterOpen(i);
    }
    BlocksAbsent(baseXml, startIp, s, total, pat, true);
    RenderGatewaysAbsent(Links(s.startOpt, total), pat, true);
  }

  /** buildPfSenseXML reports a missing `<filter…>` only when its input passes the first checks,
      has the three closing tags and has no complete opening `<filter…>`. */
  lemma FilterReported(baseXml: string, addCount: int, startIp: string)
    ensures PfSenseXml(baseXml, addCount, startIp) == Err(MissingOpeningTag("filter")) ==>
      && ReadSetup(baseXml, startIp).Ok?
      && (exists j :: MatchAt(baseXml, j, Close("interfaces"), false))
      && (exists j :: MatchAt(baseXml, j, Close("ppps"), false))
      && (exists j :: MatchAt(baseXml, j, Close("gateways"), false))
      && OpenTagEnd(baseXml, "filter").None?
  {
    SetupErrorKinds(baseXml, startIp);
    PppsMissing(baseXml, addCount, startIp);
    GatewaysMissing(baseXml, addCount, startIp);
    if ReadSetup(baseXml, startIp).Ok? {
      var s := ReadSetup(baseXml, startIp).value;
      var total := Total(addCount);
      var ifs := RenderIfs(Links(s.startOpt, total));
      var ppps := PppFamily.RenderPpps(PppFamily.Plan(PppTemplateOf(s), 2, total));
      var gws := RenderGateways(Links(s.startOpt, total));
      var rules := RenderRules(RuleRows(s.baseIp, total));
      PfSenseSplice(baseXml, addCount, startIp, s);
      InterfacesError(baseXml, ifs, ppps, gws, rules);
      FilterError(baseXml, ifs, ppps, gws, rules);
    }
  }

  /** And it does report it for every such input: each block goes in before a closing tag,
      which ends with `>` and so lies before every `<filter` of the input, and the blocks hold
      no `<filter` themselves. */
  lemma FilterMissing(baseXml: string, addCount: int, startIp: string)
    requires ReadSetup(baseXml, startIp).Ok?
    requires exists j :: MatchAt(baseXml, j, Close("interfaces"), false)
    requires exists j :: MatchAt(baseXml, j, Close("ppps"), false)
    requires exists j :: MatchAt(baseXml, j, Close("gateways"), false)
    requires OpenTagEnd(baseXml, "filter").None?
    ensures PfSenseXml(baseXml, addCount, startIp) == Err(MissingOpeningTag("filter"))
  {
    var s := ReadSetup(baseXml, startIp).value;
    var total := Total(addCount);
    var ifs := RenderIfs(Links(s.startOpt, total));
    var ppps := PppFamily.RenderPpps(PppFamily.Plan(PppTemplateOf(s), 2, total));
    var gws := RenderGateways(Links(s.startOpt, total));
    var rules := RenderRules(RuleRows(s.baseIp, total));
    PfSenseSplice(baseXml, addCount, startIp, s);
    UnclosedIff(baseXml, "filter");
    Patterns();
    FirstPppsBlockUnclosed(baseXml, "<" + "filter", true);
    FilterBlocksAbsent(baseXml, startIp, s, total);
    SpliceFilterMissing(baseXml, ifs, ppps, gws, rules);
  }

  /* ---------------- the fixed text of the templates ---------------- */

  /** No piece of the interface template holds `</ppps>` or `</gateways>`. */
  lemma IfPiecesNoClose(i: nat, tag: string)
    requires i < |IfPieces| && (tag == "ppps" || tag == "gateways")
    ensures Absent(IfPieces[i], Close(tag), false)
  {
    var pat := Close(tag);
    assert Anchored(pat) && (pat[2] == 'p' || pat[2] == 'g');
    if i == 0 {
      var s := "\n    ";
      AbsentToken(s, pat, false, 0);
      AbsentStep(s, "<opt", pat, false, 1);
      s := s + "<opt";
    } else if i == 1 {
      var s := ">\n      ";
      AbsentToken(s, pat, false, 0);
      AbsentStep(s, "<enable>", pat, false, 1);
      s := s + "<enable>";
      AbsentStep(s, "</enable>\n      ", pat, false, 2);
      s := s + "</enable>\n      ";
      AbsentStep(s, "<if>pppoe", pat, false, 1);
      s := s + "<if>pppoe";
    } else if i == 2 {
      var s := "</if>\n      ";
      AbsentToken(s, pat, false, 2);
      AbsentStep(s, "<descr>", pat, false, 1);
      s := s + "<descr>";
      AbsentStep(s, "<![CDATA[WAN", pat, false, 1);
      s := s + "<![CDATA[WAN";
    } else if i == 3 {
      var s := "]]>";
      AbsentToken(s, pat, false, 0);
      AbsentStep(s, "</descr>\n      ", pat, false, 2);
      s := s + "</descr>\n      ";
      AbsentStep(s, "<ipaddr>pppoe", pat, false, 1);
      s := s + "<ipaddr>pppoe";
      AbsentStep(s, "</ipaddr>\n    ", pat, false, 2);
      s := s + "</ipaddr>\n    ";
      AbsentStep(s, "</opt", pat, false, 2);
      s := s + "</opt";
    } else if i == 4 {
      var s := ">";
      AbsentToken(s, pat, false, 0);
    }
  }

  /** No piece of the interface template holds `<filter`, in any case. */
  lemma IfPiecesNoFilterOpen(i: nat)
    requires i < |IfPieces|
    ensures Absent(IfPieces[i], "<" + "filter", true)
  {
    var pat := "<" + "filter";
    assert Anchored(pat);
    if i == 0 {
      var s := "\n    ";
      AbsentToken(s, pat, true, 0);
      AbsentStep(s, "<opt", pat, true, 1);
      s := s + "<opt";
    } else if i == 1 {
      var s := ">\n      ";
      AbsentToken(s, pat, true, 0);
      AbsentStep(s, "<enable>", pat, true, 1);
      s := s + "<enable>";
      AbsentStep(s, "</enable>\n      ", pat, true, 1);
      s := s + "</enable>\n      ";
      AbsentStep(s, "<if>pppoe", pat, true, 1);
      s := s + "<if>pppoe";
    } else if i == 2 {
      var s := "</if>\n      ";
      AbsentToken(s, pat, true, 1);
      AbsentStep(s, "<descr>", pat, true, 1);
      s := s + "<descr>";
      AbsentStep(s, "<![CDATA[WAN", pat, true, 1);
      s := s + "<![CDATA[WAN";
    } else if i == 3 {
      var s := "]]>";
      AbsentToken(s, pat, true, 0);
      AbsentStep(s, "</descr>\n      ", pat, true, 1);
      s := s + "</descr>\n      ";
      AbsentStep(s, "<ipaddr>pppoe", pat, true, 1);
      s := s + "<ipaddr>pppoe";
      AbsentStep(s, "</ipaddr>\n    ", pat, true, 1);
      s := s + "</ipaddr>\n    ";
      AbsentStep(s, "</opt", pat, true, 1);
      s := s + "</opt";
    } else if i == 4 {
      var s := ">";
      AbsentToken(s, pat, true, 0);
    }
  }

  /** No piece of the `<ppp>` template holds `</gateways>`. */
  lemma PppPiecesNoGatewaysClose(i: nat)
    requires i < |PppFamily.PppPieces|
    ensures Absent(PppFamily.PppPieces[i], Close("gateways"), false)
  {
    if i < 4 {
      PppPiecesNoGatewaysClose1(i);
    } else if i < 5 {
      PppPiecesNoGatewaysClose2(i);
    } else {
      PppPiecesNoGatewaysClose3(i);
    }
  }

  /** Pieces 0 to 3 of the above. */
  lemma PppPiecesNoGatewaysClose1(i: nat)
    requires i < 4
    ensures Absent(PppFamily.PppPieces[i], Close("gateways"), false)
  {
    var pat := Close("gateways");
    assert Anchored(pat);
    if i == 0 {
      var s := "\n    ";
      AbsentToken(s, pat, false, 0);
      AbsentStep(s, "<ppp>\n      ", pat, false, 1);
      s := s + "<ppp>\n      ";
      AbsentStep(s, "<ptpid>", pat, false, 1);
      s := s + "<ptpid>";
    } else if i == 1 {
      var s := "</ptpid>\n      ";
      AbsentToken(s, pat, false, 2);
      AbsentStep(s, "<type>pppoe", pat, false, 1);
      s := s + "<type>pppoe";
      AbsentStep(s, "</type>\n      ", pat, false, 2);
      s := s + "</type>\n      ";
      AbsentStep(s, "<if>", pat, false, 1);
      s := s + "<if>";
    } else if i == 2 {
      var s := "</if>\n      ";
      AbsentToken(s, pat, false, 2);
      AbsentStep(s, "<ports>", pat, false, 1);
      s := s + "<ports>";
    } else if i == 3 {
      var s := "</ports>\n      ";
      AbsentToken(s, pat, false, 2);
      AbsentStep(s, "<username>", pat, false, 1);
      s := s + "<username>";
      AbsentStep(s, "<![CDATA[", pat, false, 1);
      s := s + "<![CDATA[";
    }
  }

  /** Pieces 4 to 4 of the above. */
  lemma PppPiecesNoGatewaysClose2(i: nat)
    requires 4 <= i < 5
    ensures Absent(PppFamily.PppPieces[i], Close("gateways"), false)
  {
    var pat := Close("gateways");
    assert Anchored(pat);
    if i == 4 {
      var s := "]]>";
      AbsentToken(s, pat, false, 0);
      AbsentStep(s, "</username>\n      ", pat, false, 2);
      s := s + "</username>\n      ";
      AbsentStep(s, "<password>", pat, false, 1);
      s := s + "<password>";
      AbsentStep(s, "<![CDATA[", pat, false, 1);
      s := s + "<![CDATA[";
    }
  }

  /** Piece 5 of the above. */
  lemma PppPiecesNoGatewaysClose3(i: nat)
    requires i == 5
    ensures Absent(PppFamily.PppPieces[i], Close("gateways"), false)
  {
    PppPiecesNoGatewaysClose3Head();
    PppPiecesNoGatewaysClose3Tail();
    AnchorStartSafe(("</mtu>\n      " + "<mru>" + "</mru>\n      " + "<mrru>" + "</mrru>\n    " + "</ppp>"), Close("gateways"), false);
    AbsentJoin(("]]>" + "</password>\n      " + "<provider>" + "</provider>\n      " + "<bandwidth>" + "</bandwidth>\n      " + "<mtu>"), ("</mtu>\n      " + "<mru>" + "</mru>\n      " + "<mrru>" + "</mrru>\n    " + "</ppp>"), Close("gateways"), false);
  }

  /** The first half of piece 5 of the above. */
  lemma PppPiecesNoGatewaysClose3Head()
    ensures Absent(("]]>" + "</password>\n      " + "<provider>" + "</provider>\n      " + "<bandwidth>" + "</bandwidth>\n      " + "<mtu>"), Close("gateways"), false)
  {
    var pat := Close("gateways");
    assert Anchored(pat);
    var s := "]]>" + "</password>\n      " + "<provider>";
    AbsentThree("]]>", "</password>\n      ", "<provider>", Close("gateways"), false, 0, 2, 1);
    AbsentStep(s, "</provider>\n      ", pat, false, 2);
    s := s + "</provider>\n      ";
    AbsentStep(s, "<bandwidth>", pat, false, 1);
    s := s + "<bandwidth>";
    AbsentStep(s, "</bandwidth>\n      ", pat, false, 2);
    s := s + "</bandwidth>\n      ";
    AbsentStep(s, "<mtu>", pat, false, 1);
    s := s + "<mtu>";
  }

  /** The second half of piece 5 of the above. */
  lemma PppPiecesNoGatewaysClose3Tail()
    ensures Absent(("</mtu>\n      " + "<mru>" + "</mru>\n      " + "<mrru>" + "</mrru>\n    " + "</ppp>"), Close("gateways"), false)
  {
    var pat := Close("gateways");
    assert Anchored(pat);
    var s := "</mtu>\n      " + "<mru>" + "</mru>\n      ";
    AbsentThree("</mtu>\n      ", "<mru>", "</mru>\n      ", Close("gateways"), false, 2, 1, 2);
    AbsentStep(s, "<mrru>", pat, false, 1);
    s := s + "<mrru>";
    AbsentStep(s, "</mrru>\n    ", pat, false, 2);
    s := s + "</mrru>\n    ";
    AbsentStep(s, "</ppp>", pat, false, 2);
    s := s + "</ppp>";
  }

  /** No piece of the `<ppp>` template holds `<filter`, in any case. */
  lemma PppPiecesNoFilterOpen(i: nat)
    requires i < |PppFamily.PppPieces|
    ensures Absent(PppFamily.PppPieces[i], "<" + "filter", true)
  {
    if i < 4 {
      PppPiecesNoFilterOpen1(i);
    } else if i < 5 {
      PppPiecesNoFilterOpen2(i);
    } else {
      PppPiecesNoFilterOpen3(i);
    }
  }

  /** Pieces 0 to 3 of the above. */
  lemma PppPiecesNoFilterOpen1(i: nat)
    requires i < 4
    ensures Absent(PppFamily.PppPieces[i], "<" + "filter", true)
  {
    var pat := "<" + "filter";
    assert Anchored(pat);
    if i == 0 {
      var s := "\n    ";
      AbsentToken(s, pat, true, 0);
      AbsentStep(s, "<ppp>\n      ", pat, true, 1);
      s := s + "<ppp>\n      ";
      AbsentStep(s, "<ptpid>", pat, true, 1);
      s := s + "<ptpid>";
    } else if i == 1 {
      var s := "</ptpid>\n      ";
      AbsentToken(s, pat, true, 1);
      AbsentStep(s, "<type>pppoe", pat, true, 1);
      s := s + "<type>pppoe";
      AbsentStep(s, "</type>\n      ", pat, true, 1);
      s := s + "</type>\n      ";
      AbsentStep(s, "<if>", pat, true, 1);
      s := s + "<if>";
    } else if i == 2 {
      var s := "</if>\n      ";
      AbsentToken(s, pat, true, 1);
      AbsentStep(s, "<ports>", pat, true, 1);
      s := s + "<ports>";
    } else if i == 3 {
      var s := "</ports>\n      ";
      AbsentToken(s, pat, true, 1);
      AbsentStep(s, "<username>", pat, true, 1);
      s := s + "<username>";
      AbsentStep(s, "<![CDATA[", pat, true, 1);
      s := s + "<![CDATA[";
    }
  }

  /** Pieces 4 to 4 of the above. */
  lemma PppPiecesNoFilterOpen2(i: nat)
    requires 4 <= i < 5
    ensures Absent(PppFamily.PppPieces[i], "<" + "filter", true)
  {
    var pat := "<" + "filter";
    assert Anchored(pat);
    if i == 4 {
      var s := "]]>";
      AbsentToken(s, pat, true, 0);
      AbsentStep(s, "</username>\n      ", pat, true, 1);
      s := s + "</username>\n      ";
      AbsentStep(s, "<password>", pat, true, 1);
      s := s + "<password>";
      AbsentStep(s, "<![CDATA[", pat, true, 1);
      s := s + "<![CDATA[";
    }
  }

  /** Piece 5 of the above. */
  lemma PppPiecesNoFilterOpen3(i: nat)
    requires i == 5
    ensures Absent(PppFamily.PppPieces[i], "<" + "filter", true)
  {
    PppPiecesNoFilterOpen3Head();
    PppPiecesNoFilterOpen3Tail();
    AnchorStartSafe(("</mtu>\n      " + "<mru>" + "</mru>\n      " + "<mrru>" + "</mrru>\n    " + "</ppp>"), "<" + "filter", true);
    AbsentJoin(("]]>" + "</password>\n      " + "<provider>" + "</provider>\n      " + "<bandwidth>" + "</bandwidth>\n      " + "<mtu>"), ("</mtu>\n      " + "<mru>" + "</mru>\n      " + "<mrru>" + "</mrru>\n    " + "</ppp>"), "<" + "filter", true);
  }

  /** The first half of piece 5 of the above. */
  lemma PppPiecesNoFilterOpen3Head()
    ensures Absent(("]]>" + "</password>\n      " + "<provider>" + "</provider>\n      " + "<bandwidth>" + "</bandwidth>\n      " + "<mtu>"), "<" + "filter", true)
  {
    var pat := "<" + "filter";
    assert Anchored(pat);
    var s := "]]>" + "</password>\n      " + "<provider>";
    AbsentThree("]]>", "</password>\n      ", "<provider>", "<" + "filter", true, 0, 1, 1);
    AbsentStep(s, "</provider>\n      ", pat, true, 1);
    s := s + "</provider>\n      ";
    AbsentStep(s, "<bandwidth>", pat, true, 1);
    s := s + "<bandwidth>";
    AbsentStep(s, "</bandwidth>\n      ", pat, true, 1);
    s := s + "</bandwidth>\n      ";
    AbsentStep(s, "<mtu>", pat, true, 1);
    s := s + "<mtu>";
  }

  /** The second half of piece 5 of the above. */
  lemma PppPiecesNoFilterOpen3Tail()
    ensures Absent(("</mtu>\n      " + "<mru>" + "</mru>\n      " + "<mrru>" + "</mrru>\n    " + "</ppp>"), "<" + "filter", true)
  {
    var pat := "<" + "filter";
    assert Anchored(pat);
    var s := "</mtu>\n      " + "<mru>" + "</mru>\n      ";
    AbsentThree("</mtu>\n      ", "<mru>", "</mru>\n      ", "<" + "filter", true, 1, 1, 1);
    AbsentStep(s, "<mrru>", pat, true, 1);
    s := s + "<mrru>";
    AbsentStep(s, "</mrru>\n    ", pat, true, 1);
    s := s + "</mrru>\n    ";
    AbsentStep(s, "</ppp>", pat, true, 1);
    s := s + "</ppp>";
  }

  /** No piece of the gateway template holds `<filter`, in any case. */
  lemma GatewayPiecesNoFilterOpen(i: nat)
    requires i < |GatewayPieces|
    ensures Absent(GatewayPieces[i], "<" + "filter", true)
  {
    if i < 2 {
      GatewayPiecesNoFilterOpen1(i);
    } else if i < 3 {
      GatewayPiecesNoFilterOpen2(i);
    } else {
      GatewayPiecesNoFilterOpen3(i);
    }
  }

  /** Pieces 0 to 1 of the above. */
  lemma GatewayPiecesNoFilterOpen1(i: nat)
    requires i < 2
    ensures Absent(GatewayPieces[i], "<" + "filter", true)
  {
    var pat := "<" + "filter";
    assert Anchored(pat);
    if i == 0 {
      var s := "\n    ";
      AbsentToken(s, pat, true, 0);
      AbsentStep(s, "<gateway_item>\n      ", pat, true, 1);
      s := s + "<gateway_item>\n      ";
      AbsentStep(s, "<interface>opt", pat, true, 1);
      s := s + "<interface>opt";
    } else if i == 1 {
      var s := "</interface>\n      ";
      AbsentToken(s, pat, true, 1);
      AbsentStep(s, "<gateway>dynamic", pat, true, 1);
      s := s + "<gateway>dynamic";
      AbsentStep(s, "</gateway>\n      ", pat, true, 1);
      s := s + "</gateway>\n      ";
      AbsentStep(s, "<name>WAN", pat, true, 1);
      s := s + "<name>WAN";
    }
  }

  /** Pieces 2 to 2 of the above. */
  lemma GatewayPiecesNoFilterOpen2(i: nat)
    requires 2 <= i < 3
    ensures Absent(GatewayPieces[i], "<" + "filter", true)
  {
    var pat := "<" + "filter";
    assert Anchored(pat);
    if i == 2 {
      var a := "_PPPOE";
      AbsentToken(a, pat, true, 0);
      AbsentStep(a, "</name>\n      ", pat, true, 1);
      a := a + "</name>\n      ";
      AbsentStep(a, "<weight>1", pat, true, 1);
      a := a + "<weight>1";
      AbsentStep(a, "</weight>\n      ", pat, true, 1);
      a := a + "</weight>\n      ";
      var b := "<ipprotocol>inet";
      AbsentToken(b, pat, true, 1);
      AbsentStep(b, "</ipprotocol>\n      ", pat, true, 1);
      b := b + "</ipprotocol>\n      ";
      AbsentStep(b, "<descr>", pat, true, 1);
      b := b + "<descr>";
      AbsentStep(b, "<![CDATA[Interface WAN", pat, true, 1);
      b := b + "<![CDATA[Interface WAN";
      AnchorStartSafe(b, pat, true);
      AbsentJoin(a, b, pat, true);
    }
  }

  /** Pieces 3 to 3 of the above. */
  lemma GatewayPiecesNoFilterOpen3(i: nat)
    requires 3 <= i < 4
    ensures Absent(GatewayPieces[i], "<" + "filter", true)
  {
    var pat := "<" + "filter";
    assert Anchored(pat);
    if i == 3 {
      var s := "_PPPOE Gateway]]>" + "</descr>\n      " + "<gw_down_kill_states>";
      AbsentThree("_PPPOE Gateway]]>", "</descr>\n      ", "<gw_down_kill_states>", "<" + "filter", true, 0, 1, 1);
      AbsentStep(s, "</gw_down_kill_states>\n      ", pat, true, 1);
      s := s + "</gw_down_kill_states>\n      ";
      AbsentStep(s, "<monitor>1.1.1.1", pat, true, 1);
      s := s + "<monitor>1.1.1.1";
      AbsentStep(s, "</monitor>\n    ", pat, true, 1);
      s := s + "</monitor>\n    ";
      AbsentStep(s, "</gateway_item>", pat, true, 1);
      s := s + "</gateway_item>";
    }
  }
}
