# pfSense and Proxmox config engines — a verified model

The web tool in `public/assets/app.js` works on configuration text in two ways.

- It rewrites pfSense XML. It clones a `<ppp>` PPPoE link, an `<optN>` WAN interface or a
  firewall `<rule>` up to a requested total. It also extends a full pfSense configuration
  with matching interface, PPP, gateway and rule blocks.
- It edits a Proxmox `key: value` VM configuration. It reads the name, the generation id,
  the disk and the `netN` NICs, lets the user resize the NIC list, and writes the file back.

This project models that engine in Dafny and proves what each operation promises. The
modules are:

- `Outcomes`: `Option`, `Result` and the error kinds.
- `Text`: the string built-ins the engine relies on, namely trimming with the ECMAScript
  white-space set, splitting and joining, index searches with and without ASCII case
  folding, decimal numerals and hex digits.
- `Ip`: the dotted-quad conversions.
- `Markup`: the field extraction, the template locators, the two splice primitives,
  `maxOptIndex` and the name splitters.
- `PppFamily`, `WanFamily` and `RuleFamily`: the three clone builders.
- `PfSense`: the full-configuration builder.
- `PfSenseAnchors`: why that builder reports a missing anchor exactly when its input lacks one.
- `LineConfig`: the VM config reader and writer.
- `ConfigRoundTrip`: reading back what the writer wrote.
- `MacUtil`: MAC generation and checks.
- `NetList`: the NIC list, as a class with `nets` and `baselineNets` fields.

Every regular expression of the source becomes an explicit search. A lazy chain
`A[\s\S]*?B[\s\S]*?C` is the first `A`, then the first `B` after it, then the first `C`
after that. Each search follows the source's case sensitivity. `insertBeforeClose` uses a
case-sensitive `lastIndexOf`, and the `<optN>` scans have no `i` flag.

Each builder is modelled twice:

- a specification function, such as `PppFamily.PppClones`;
- a method that builds the text the way the source does, with counting loops that append
  to a string and a chain of steps that reassign the result.

Each method's postcondition equals the specification, and lemmas state what the
specification promises. The random MAC bytes and the `Date.now()` tracker seed are
parameters.

## Model

| member | source | states |
|---|---|---|
| Ip.IpToNum | public/assets/app.js:38-42 | conversion succeeds exactly when the trimmed input splits at `.` into four parts that each parse to an octet; a converted address lies in 0 .. 2^32-1; a rejected one fails with `InvalidIp` naming the input |
| Ip.NumToIp | public/assets/app.js:43-45 | the text is already trimmed and splits at `.` into exactly four parts, each an octet, so `ipToNum` accepts it |
| Ip.IpToNumOfParts | public/assets/app.js:38-42 | trimmed text that splits at `.` into exactly four parts, each an octet, converts to a·2^24 + b·2^16 + c·2^8 + d |
| Ip.IpToNumOfDotted | public/assets/app.js:38-42 | a dotted quad of octets converts to its 32-bit value |
| Ip.OutOfRangeRejected | public/assets/app.js:38-42 | a dotted quad with a part above 255 is rejected |
| Ip.NumToIpRoundTrip | public/assets/app.js:38-45 | for every integer n, `ipToNum(numToIp(n))` is n modulo 2^32 |
| Ip.QuadRoundTrip | public/assets/app.js:38-45 | a canonical dotted quad converts to a number and back to the same text, and the number converts back to the quad |
| Markup.BlockSpan | public/assets/app.js:72-73 | the first `<tag>…</tag>` match (case-insensitive): the first opening tag, the first closing tag after it, and no match at all exactly when no opening tag is followed by a closing one |
| Markup.TagText | public/assets/app.js:46-49 | the extracted field is trimmed, and it is empty when the input has no `<tag>…</tag>` |
| Markup.ElementReplaced | public/assets/app.js:46-49 | writing `<tag>v</tag>` over the first `<tag>` block, with plain `v`, makes `tagText` read `v` back, trimmed |
| Markup.ContentEnd | public/assets/app.js:46-49 | where the lazy capture of `tagText` stops: at or after the opening tag, at a `]]></tag>` or a `</tag>` |
| Markup.ContentEndFirst | public/assets/app.js:46-49 | the capture stops at the first ending: no `</tag>` or `]]></tag>` starts before it, and none at all when it finds nothing |
| Markup.TagTextOfContent | public/assets/app.js:46-49 | when the first `<tag>` is followed by text `v` and `</tag>`, `tagText` gives `v` trimmed, even when `v` holds `<` or `]` |
| Markup.TagTextOfCdata | public/assets/app.js:46-49 | when the first `<tag>` opens a CDATA section holding `v` closed by `]]></tag>`, `tagText` gives `v` trimmed, without the CDATA markers |
| Markup.TagTextAbsent | public/assets/app.js:46-49 | the extracted field of a text without a given tag holds no such tag |
| Markup.FirstPppsBlock | public/assets/app.js:50-53 | the block is found (non-empty) exactly when the first `<ppps>` (case-insensitive) is followed by `<ppp>`, `</ppp>` and `</ppps>` in that order; it is then the input from that `<ppps>` through the end of the `</ppps>` the chain reaches |
| Markup.PppsChain | public/assets/app.js:51 | the lazy chain from a `<ppps>`: a `<ppp>`, a `</ppp>` and a `</ppps>` each starting after the end of the one before |
| Markup.PppsChainFirst | public/assets/app.js:51 | each tag of the chain is the first one after the previous tag, and the chain fails exactly when no such three tags follow in order |
| Markup.FirstPppsBlockEmpty | public/assets/app.js:50-53 | "" exactly when no `<ppps>`, `<ppp>`, `</ppp>` chain is followed by a `</ppps>` |
| Markup.FirstBlockFromAny | public/assets/app.js:75-86 | an input that is one block between white space comes back whole; otherwise the first lazy block (or "") |
| Markup.InsertBeforeClose | public/assets/app.js:59-62 | fails exactly when there is no case-sensitive `</tag>`; otherwise the content is spliced in just before the last `</tag>` and everything else is kept |
| Markup.InsertBeforeCloseUndo | public/assets/app.js:59-62 | cutting the inserted content back out gives the input |
| Markup.InsertBeforeCloseAbsent | public/assets/app.js:59-62 | splicing content without a given tag, which does not begin inside one, into a text without it creates no such tag |
| Markup.InsertAfterOpen | public/assets/app.js:63-66 | fails exactly when there is no `<tag…>`; otherwise a line break and the content follow the first opening tag and everything else is kept |
| Markup.InsertAfterOpenUndo | public/assets/app.js:63-66 | cutting the inserted line break and content back out gives the input |
| Markup.MaxOptIndex | public/assets/app.js:67-70 | the result is at least every case-sensitive `<optN>` number and is one of them, or 0 when there are none |
| Markup.ParseIfName | public/assets/app.js:87-90 | the prefix is always a non-empty run of ASCII letters (`pppoe` when the name does not match) |
| Markup.IfNameRoundTrip | public/assets/app.js:87-90 | a letter prefix followed by a decimal number splits back into that prefix and number |
| Markup.GatewayPartsOf | public/assets/app.js:199-203 | text made of a digit-free prefix, a number and a suffix not starting with a digit splits back into those three parts |
| PppFamily.ReadTemplate | public/assets/app.js:96-100 | the user name and password are the trimmed `username` and `password` fields of the template |
| PppFamily.TemplatePrefixes | public/assets/app.js:101-102 | the `if` and `ports` prefixes read from any template are non-empty letter runs |
| PppFamily.DesiredTotal | public/assets/app.js:103 | the requested total is at least 1 and at least the argument, and equals a positive argument |
| PppFamily.CloneRun | public/assets/app.js:111-129 | the loop builds exactly the rendering of the planned clones |
| PppFamily.GrowMethod | public/assets/app.js:107-134 | the grow-or-return step equals its specification for every existing count |
| PppFamily.BuildPppClones | public/assets/app.js:92-135 | the builder's result equals the specification `PppClones` |
| PppFamily.NoTemplate | public/assets/app.js:94-95 | without a `<ppp>` template the builder fails with `TemplateNotFound("ppp")` |
| PppFamily.AlreadyEnough | public/assets/app.js:105-109 | when there are already enough links, a solo `<ppp>` comes back trimmed and wrapped in `<ppps>`, and a wrapped input comes back unchanged |
| PppFamily.GrowWrapped | public/assets/app.js:134 | growing a wrapped input fails exactly when there is no `</ppps>`; otherwise the new links sit just before the last `</ppps>` and the rest is kept |
| PppFamily.GrowSolo | public/assets/app.js:131-132 | a solo `<ppp>` grows to the trimmed template followed by links 2 .. desired, wrapped in `<ppps>` |
| PppFamily.PlanFacts | public/assets/app.js:112-122 | exactly desired − existing links are added; link k has ptpid existing + 1 + k and the template's user name and password |
| PppFamily.PlanNames | public/assets/app.js:113-114 | the `if` and `ports` names of each new link split back into the template's prefixes with the template's numbers moved on by i − 1 |
| WanFamily.ReadTemplate | public/assets/app.js:145-147 | the interface prefix is a non-empty letter run and the `ipaddr` value is never empty (`pppoe` by default) |
| WanFamily.CloneRun | public/assets/app.js:159-174 | the loop builds exactly the rendering of the planned interfaces |
| WanFamily.GrowMethod | public/assets/app.js:154-176 | the grow-or-return step equals its specification for every existing total and start index |
| WanFamily.BuildWanClones | public/assets/app.js:142-177 | the builder's result equals the specification `WanClones` |
| WanFamily.NoTemplate | public/assets/app.js:143-144 | without a `<wan>` template the builder fails with `TemplateNotFound("wan")` |
| WanFamily.AlreadyEnough | public/assets/app.js:154-156 | with enough interfaces already, a wrapped input comes back unchanged and a bare one gives "" |
| WanFamily.GrowWrapped | public/assets/app.js:176 | growing inside `<interfaces>` fails exactly when there is no `</interfaces>`; otherwise the new blocks sit just before the last `</interfaces>` and the rest is kept |
| WanFamily.PlanFacts | public/assets/app.js:160-172 | exactly desired − existing interfaces are added; interface k is WAN existing + 1 + k at opt startOpt + k with the template's `ipaddr` |
| WanFamily.PlanIfName | public/assets/app.js:163 | each new interface name splits back into the template's prefix and its WAN number |
| WanFamily.FreshOptIndices | public/assets/app.js:152-162 | every new opt index is above every `<optN>` already in a wrapped input |
| RuleFamily.SourceChain | public/assets/app.js:180-183 | the match of `<source>…<address>…</address>…</source>`: four tags in order, the first at the first `<source>` of the rule |
| RuleFamily.SourceChainFirst | public/assets/app.js:180-183 | each of the four tags is the first one after the previous, and there is no match only when no `<source>`, `<address>`, `</address>`, `</source>` follow one another |
| RuleFamily.SourceAddress | public/assets/app.js:180-183 | the source address is the trimmed text between the matched `<address>` and `</address>`, and empty when the rule has no source with an address |
| RuleFamily.ReplaceSourceAddress | public/assets/app.js:184-198 | the first source-with-address, else the first `<source>` block, is replaced by the new source and the text around it kept; a `<source>` without a closing tag leaves the rule unchanged; without `<source>` the rule goes to `InsertSource` |
| RuleFamily.InsertSource | public/assets/app.js:192-197 | the new source line is inserted right after the first `</ipprotocol>`, and the rule comes back unchanged without one |
| RuleFamily.ReplaceGateway | public/assets/app.js:204-209 | the first `<gateway>` block is replaced by the new gateway, else the first `</rule>` is replaced by a gateway line and `</rule>`, the text around kept; with neither the rule is unchanged |
| RuleFamily.StripCreatedUpdated | public/assets/app.js:210-214 | the rule never grows and one without `<created>` or `<updated>` blocks comes back unchanged; the first `<created>` block is cut out, and in a rule without one the first `<updated>` block is cut out and the text before it kept |
| RuleFamily.RemoveBlocks | public/assets/app.js:210-214 | removing blocks never lengthens the rule and leaves a rule without such a block unchanged; the first block is cut out and the text before it is kept |
| RuleFamily.RemoveId | public/assets/app.js:215-218 | removing the id never lengthens the rule and leaves a rule without `<id>…</id>` unchanged |
| RuleFamily.RemoveIdCuts | public/assets/app.js:215-218 | the first `<id>` block is cut out together with all the white space right before and right after it, and the rest of the rule is kept |
| RuleFamily.CutWithSpaceIs | public/assets/app.js:217 | the cut spans exactly the maximal white-space runs on both sides of the block |
| RuleFamily.TrackerFrom | public/assets/app.js:219-222 | no tracker number is found only when no `<tracker>digits</tracker>` starts at or after the position |
| RuleFamily.ParseTracker | public/assets/app.js:219-222 | no number exactly when no `<tracker>digits</tracker>` occurs anywhere; otherwise the number of the first one |
| RuleFamily.ReplaceOrInsertTracker | public/assets/app.js:223-233 | the first `<tracker>` block is replaced; else a tracker line goes right after the first `</type>`; else the first `</rule>` is replaced by a tracker line and `</rule>`; with none of these the rule is unchanged |
| RuleFamily.GatewayReplaced | public/assets/app.js:204-209 | over a rule that has a `<gateway>` block, the gateway written in (a name without `<`, `]` or `$`) is what `tagText` then reads back from the rule, trimmed |
| RuleFamily.TrackerReplaced | public/assets/app.js:219-233 | over a rule that has a `<tracker>` block, the tracker number written in is what `parseTracker` then reads back from the rule |
| RuleFamily.TrackerFromFirst | public/assets/app.js:219-222 | `parseTracker` returns the number at the first position where `<tracker>digits</tracker>` matches |
| RuleFamily.RewriteSteps | public/assets/app.js:253-259 | the rewriters applied one after the other give the composed rewrite |
| RuleFamily.RenderClone | public/assets/app.js:253-260 | one loop step appends the trimmed, rewritten rule between line breaks |
| RuleFamily.CloneRun | public/assets/app.js:248-261 | the loop builds exactly the rendering of the planned clones |
| RuleFamily.BuildRuleClones | public/assets/app.js:234-276 | the builder's result equals the specification `RuleClones` |
| RuleFamily.RuleClonesErrors | public/assets/app.js:235-242 | the builder fails exactly when reading the template fails: no `<rule>`, no source address, or an address that is not a dotted quad, each with its own error |
| RuleFamily.PlanFacts | public/assets/app.js:249-252 | clone begin + k has address base + begin + k − 1, which reads back modulo 2^32, the template's gateway number moved on by begin + k − 1, and tracker base + k + 1 |
| RuleFamily.TrackersIncrease | public/assets/app.js:246-252 | the trackers of the clones are above the template's and strictly increasing, so pairwise distinct |
| RuleFamily.GatewaysDistinct | public/assets/app.js:251 | different clones get different gateway names |
| RuleFamily.GatewayRoundTrip | public/assets/app.js:199-203 | a clone's gateway splits back into the template's prefix and suffix around the moved-on number |
| PfSense.Total | public/assets/app.js:338 | the WAN count is 1 + the added count, and 1 when the added count is not positive |
| PfSense.PortParts | public/assets/app.js:334-336 | the port prefix is a non-empty letter run (`vtnet` when the `ports` value does not match) |
| PfSense.ReadSetupSteps | public/assets/app.js:329-340 | reading the first `<ppps><ppp>`, the ports and the start address equals its specification |
| PfSense.LinkBlocks | public/assets/app.js:342-379 | the loop builds exactly the renderings of the interface, PPP and gateway blocks for WAN 2 .. total |
| PfSense.RuleBlocks | public/assets/app.js:380-392 | the loop builds exactly the rendering of the rules for WAN 1 .. total |
| PfSense.SpliceSteps | public/assets/app.js:394-399 | the four splices, failing at the first missing anchor, equal their specification |
| PfSense.BuildPfSenseXml | public/assets/app.js:327-400 | the builder's result equals the specification `PfSenseXml` |
| PfSense.SetupErrors | public/assets/app.js:333-339 | no user name fails with `MissingUsername`; otherwise a start address that is not a dotted quad fails with `InvalidIp`; reading succeeds exactly when neither happens |
| PfSense.InterfacesError | public/assets/app.js:395 | the splicing fails with `MissingClosingTag("interfaces")` exactly when the input has no `</interfaces>` |
| PfSense.PppsError | public/assets/app.js:395-396 | a `MissingClosingTag("ppps")` failure of the splicing means the input has no `</ppps>` |
| PfSense.GatewaysError | public/assets/app.js:395-397 | a `MissingClosingTag("gateways")` failure of the splicing means the input has no `</gateways>` |
| PfSense.FilterError | public/assets/app.js:395-398 | a `MissingOpeningTag("filter")` failure of the splicing means the input has no complete `<filter…>`; an input with all four anchors never fails to splice |
| PfSense.NewOptsFresh | public/assets/app.js:340-344 | the added interfaces take opt indices from `maxOptIndex` + 1 upward, above every `<optN>` in the input |
| PfSense.LinkFields | public/assets/app.js:353-360 | the PPP link for WAN k + 2 has ptpid k + 2 and the non-empty user name and the password of the first `<ppp>` |
| PfSense.LinkNames | public/assets/app.js:357-358 | the PPP link for WAN i is on `pppoe`i and on port prefix + (start + i − 1) |
| PfSense.RuleFacts | public/assets/app.js:380-390 | rule k serves WAN k + 1, its address is base + k and reads back modulo 2^32, and it matches the gateway of the link for the same WAN |
| PfSenseAnchors.PppsMissing | public/assets/app.js:327-396 | the builder fails with `MissingClosingTag("ppps")` exactly when the setup reads, the input has `</interfaces>`, and it has no `</ppps>` |
| PfSenseAnchors.GatewaysMissing | public/assets/app.js:327-397 | the builder fails with `MissingClosingTag("gateways")` exactly when the setup reads, the input has `</interfaces>` and `</ppps>`, and no `</gateways>` |
| PfSenseAnchors.FilterReported | public/assets/app.js:327-398 | a `MissingOpeningTag("filter")` failure means the setup reads, the three closing tags are present and the input has no complete `<filter…>` |
| PfSenseAnchors.FilterMissing | public/assets/app.js:327-398 | an input whose setup reads, that has the three closing tags and no complete `<filter…>`, fails with `MissingOpeningTag("filter")`; with PfSenseAnchors.FilterReported this is an if-and-only-if |
| Markup.UnclosedIff | public/assets/app.js:63-66 | `insertAfterOpen` finds no `<tag…>` exactly when no `>` follows any `<tag` |
| Markup.InsertBeforeCloseUnclosed | public/assets/app.js:59-62 | splicing content without `<tag`, which does not begin inside one, before a closing tag keeps every `<tag` of the text without a `>` after it |
| PfSenseAnchors.RenderIfsAbsent | public/assets/app.js:343-351 | the added interface blocks hold no tag the template text lacks, and do not begin inside one |
| PfSenseAnchors.RenderPppsAbsent | public/assets/app.js:353-366 | the added PPP blocks hold no tag that the template text, the user name and the password lack |
| PfSenseAnchors.RenderGatewaysAbsent | public/assets/app.js:368-378 | the added gateway blocks hold no tag the template text lacks |
| LineConfig.Lines | public/assets/app.js:279 | one trimmed line per line-feed-separated piece of the text, none holding a line feed |
| LineConfig.NonBlank | public/assets/app.js:279 | the non-empty lines are kept in order |
| LineConfig.KeyValue | public/assets/app.js:282 | a key is a word run of two or more characters followed by a colon after optional white space; the value starts after the white space and holds no line terminator |
| LineConfig.KeyValueOf | public/assets/app.js:282 | `key: value` written with any white-space gap reads back as that key and value |
| LineConfig.ParseNetShape | public/assets/app.js:290-292 | a NIC value without a model and 17-character MAC head gives a `virtio` NIC without MAC; otherwise the model is a word, the MAC is upper-case, the bridge has no comma or white space and the tag is digits |
| LineConfig.ParseNetMatched | public/assets/app.js:290-292 | a value with a MAC head always gives a NIC with that MAC |
| LineConfig.ParseNet | public/assets/app.js:288-292 | the NIC keeps the line's index; without a model and MAC head it is a bare `virtio` NIC; with one its model is the text before `=` and its MAC the upper-cased 17 characters after it |
| LineConfig.SortSorted | public/assets/app.js:298 | the NICs come out ordered by index |
| LineConfig.SortPermutes | public/assets/app.js:298 | sorting keeps exactly the same NICs |
| LineConfig.SortStable | public/assets/app.js:298 | NICs with the same index keep their relative order |
| LineConfig.AbsorbLine | public/assets/app.js:282-296 | one loop step files a line as a setting, a NIC or an other line, as its specification says |
| LineConfig.AbsorbLines | public/assets/app.js:281-297 | the loop equals folding the classified lines into the empty state |
| LineConfig.SortNets | public/assets/app.js:298 | the in-place sort equals the stable sort by index |
| LineConfig.ParseConfig | public/assets/app.js:278-300 | the reader's result equals its specification `Parsed` |
| LineConfig.Unmanaged | public/assets/app.js:303-310 | the kept lines are non-empty lines of the original text, none of them a `name`, `vmgenid`, `scsi0` or `netN` line |
| LineConfig.KeepUnmanaged | public/assets/app.js:303-310 | the loop keeps exactly those lines |
| LineConfig.AppendSettings | public/assets/app.js:312-314 | name, vmgenid and scsi0 are appended in that order when non-empty |
| LineConfig.AppendNetLines | public/assets/app.js:315-322 | one `net` line per NIC with a MAC, numbered by its position |
| LineConfig.SerializeConfig | public/assets/app.js:302-324 | the writer's result equals its specification `Serialized` |
| ConfigRoundTrip.ManagedCovers | public/assets/app.js:282-296 | every line the reader does not keep as an other line is one the writer drops from the original text |
| ConfigRoundTrip.SettingReadBack | public/assets/app.js:285-287 | a written `name`, `vmgenid` or `scsi0` line reads back as the same setting |
| ConfigRoundTrip.NetLineReadBack | public/assets/app.js:288-293 | a written `netI` line reads back as the same NIC numbered I |
| ConfigRoundTrip.RenumberSorted | public/assets/app.js:315-321 | the NICs written come back numbered below the list length and in increasing order, so re-sorting leaves them as they are |
| ConfigRoundTrip.RenumberFixed | public/assets/app.js:315-321 | NICs already numbered by position, each with a MAC and a model, come back unchanged |
| ConfigRoundTrip.LinesOfJoined | public/assets/app.js:279 | lines joined by line feeds with a final line feed split back into the same lines |
| ConfigRoundTrip.BuildOutLines | public/assets/app.js:302-323 | reading the writer's lines gives the settings, the renumbered NICs and the original's other lines |
| ConfigRoundTrip.ParsedPortable | public/assets/app.js:278-300 | whatever the reader produces can be written without breaking a line |
| ConfigRoundTrip.SerializeThenParse | public/assets/app.js:278-324 | reading what the writer wrote gives the same name, vmgenid and scsi0, the NICs with a MAC renumbered by position, and the original's other lines |
| ConfigRoundTrip.ParseSerializeParse | public/assets/app.js:278-324 | reading, writing and reading again keeps every setting, every NIC with a MAC and the original's other lines |
| MacUtil.ByteToHexRoundTrip | public/assets/app.js:12-14 | the two hex digits of a byte read back as the byte |
| MacUtil.ByteToHex | public/assets/app.js:12-14 | a byte becomes a pair of hex digits with no lower-case letter |
| MacUtil.NonEmptyTrimmedParts | public/assets/app.js:16 | the prefix parts kept are trimmed, non-empty and free of the separator |
| MacUtil.GenMac | public/assets/app.js:15-20 | the generator's loop gives the six completed parts joined by colons |
| MacUtil.CompletedShape | public/assets/app.js:16-19 | exactly six parts: the given prefix parts first (at most six), then hex pairs of the random bytes |
| MacUtil.MacSplitsIntoParts | public/assets/app.js:19 | the generated MAC splits at `:` back into its six parts |
| MacUtil.GenMacValid | public/assets/app.js:15-23 | with a prefix made of hex pairs the generated MAC is valid |
| MacUtil.DefaultMacValid | public/assets/app.js:7-23 | the default prefix gives `D8:FC:93` followed by three random hex bytes, and the result is valid |
| MacUtil.ValidMacIsSixPairs | public/assets/app.js:21-23 | a MAC is valid exactly when it splits at `:` into six hex pairs |
| MacUtil.IsValidMac | public/assets/app.js:21-23 | a valid MAC is 17 characters long with a colon exactly at every third position |
| MacUtil.MatchesMacShape | public/assets/app.js:21-23 | text matching `n` hex pairs with colons, then a final pair, is 3n + 2 long with a colon exactly at every third position |
| MacUtil.UniqueMacs | public/assets/app.js:24-33 | the check succeeds exactly when no two entries are equal ignoring case |
| MacUtil.DistinctIgnoringCaseDistinct | public/assets/app.js:24-33 | MACs distinct ignoring case are distinct |
| NetList.NetState.AddNet | public/assets/app.js:543-580 | one NIC is appended, built from the defaults and the list so far; the imported list is untouched |
| NetList.NetState.EnsureNetCount | public/assets/app.js:582-597 | the list is cut or grown to the final count, refilling from the imported NICs, then new ones |
| NetList.FinalCountBounds | public/assets/app.js:583-585 | the final count is clamped to 0 .. 24 and is never below the kept imported NICs (at most 2) |
| NetList.GrownKeeps | public/assets/app.js:586-593 | growing keeps the NICs already there |
| NetList.ResizedKeeps | public/assets/app.js:586-594 | after resizing, the list has the final count and every slot that existed keeps its NIC |
| NetList.GrownSlots | public/assets/app.js:549-593 | a new slot holds the imported NIC of that slot when there is one; otherwise a `virtio` NIC with that index, the upper-cased drawn MAC, `vmbr0` in slot 0, and net1's bridge and tag from slot 2 on |
| NetList.ResizedIdempotent | public/assets/app.js:582-594 | resizing twice to the same count changes nothing the second time |
| NetList.NewNetInherits | public/assets/app.js:556-567 | from slot 2 on, a NIC added without defaults takes net1's bridge and tag |
| NetList.NewNetDefaults | public/assets/app.js:552-575 | given bridge, tag, model and MAC defaults win; an empty model becomes `virtio` and the MAC is upper-cased |

## Left out

- The DOM and the UI are not modelled: element lookups, rendering of the NIC table, status text, the modal, event wiring, downloads and the clipboard. `validateMacs` is only its status side around `isValidMac` and `uniqueMacs`, so only those two are modelled.
- The static-asset worker and the tab initialisation script are not part of this model. Both are I/O and UI plumbing.
- The pfSense import block hands the XML to the browser's `DOMParser` and `XMLSerializer`, which are foreign code, so it is not modelled.
- `Math.random` is not modelled. `genMac` takes its random bytes as a parameter `random` of at least six bytes, and `addNet` takes the generated MAC as a parameter.
- NetList.NetState.EnsureNetCount: the MAC that `genMac()` would return for slot i is `drawn[i]`, so at least 24 drawn MACs are required. The list never grows past 24.
- `Date.now()` is not modelled. The rule builder takes the fallback tracker as a parameter `now`.
- Counts are whole numbers in the model. `Number(total) || 1` for text, fractions or NaN is not modelled: `total` is an `int`.
- Numbers are unbounded integers in the model. JavaScript numbers are doubles, so `parseInt` rounds digit runs above 2^53, sums above 2^53 round, and very large numbers print in exponent form. This affects the NIC index parsed from `netN`, the tracker read from a rule (app.js:221) and the trackers summed from it (app.js:252), the `<optN>` indices (app.js:68), gateway numbers (app.js:202), interface and ptpid numbers (app.js:89, app.js:140), and the port start (app.js:336). None of this is modelled.
- `deepClone` is a value copy: records are values here, so there is no aliasing to model.
- Case folding is ASCII-only. It matches the `i` flag for the ASCII patterns of the source, and `toUpperCase` only for ASCII text.
- Lines are split at `\n` and then trimmed, which also removes the `\r` of `\r\n`. The split at `\r?\n` is modelled that way.
- `Array.prototype.sort` is modelled as a stable insertion sort by index. ECMAScript requires a stable sort, so the result is the same.
- RuleFamily.RemoveBlocks: the contract states that a rule without such a block is unchanged and that the first block is cut out. It does not state that no block remains afterwards, because a global replace can splice a new `<created>…</created>` out of the text around a removed one.
- RuleFamily.StripCreatedUpdated: for the same reason, the contract does not state that no `<created>` or `<updated>` block remains. It states that the first `<created>` block is cut out, and the first `<updated>` block when there is no `<created>` one. When both exist, the removal of `<created>` blocks can move or create `<updated>` blocks, so only the length bound is stated.
- RuleFamily.ReplaceSourceAddress: there is no read-back lemma. The contract states where the new source goes, but it does not prove that `getSourceAddressFromRule` then finds the address just written. Walking the four searches of the source pattern through the written block is beyond what the solver does within the resource limit. RuleFamily.SourceChain and RuleFamily.SourceAddress state where the match lies and what it captures. The rewrite is also covered through `RewriteSteps` and the builder equations.
- RuleFamily.ReplaceGateway and RuleFamily.ReplaceOrInsertTracker: the read-back lemmas cover only the rewrite of an existing block. For the insertion after `</type>` or before `</rule>`, the contracts state where the new line goes, but not that it reads back.
- PfSense.PppsError and PfSense.GatewaysError: these state one direction, at the level of the four splices. Both directions, for the whole builder, are PfSenseAnchors.PppsMissing and PfSenseAnchors.GatewaysMissing.
- PfSense.FilterError: this states one direction, at the level of the four splices. Both directions, for the whole builder, are PfSenseAnchors.FilterReported and PfSenseAnchors.FilterMissing.
- NetList.NewNet: the `baselineNets[1]` fallback of `addNet` is never taken, because from slot 2 on the list already has a `net1`. The model reads `nets[1]` only.
- The writer numbers NICs by their position in the list, not by their parsed index, and a NIC without a MAC still takes a position. The model does the same, which is why `SerializeThenParse` states renumbered NICs.
