/**
 * The editor's list of NICs: `addNet` appends one with defaults inherited from `net1`, and
 * `ensureNetCount` grows or shrinks the list to a requested size, refilling slots from the
 * NICs that were imported.
 */
module NetList {
  import opened Outcomes
  import opened Text
  import opened LineConfig

  /** The most NICs `ensureNetCount` keeps. */
  const MaxNets: nat := 24

  /** The `defaults` object of `addNet`: `bridge` and `tag` when present as own properties,
      and `model` and `mac`, where the empty string is absent (both are read through `||`). */
  datatype NetDefaults = NetDefaults(bridge: Option<string>, tag: Option<string>, model: string, mac: string)

  /** `{}`, what every caller of `addNet` passes. */
  const NoDefaults := NetDefaults(None, None, "", "")

  /** The NIC `addNet(d)` appends to `nets`, with `freshMac` standing for what `genMac()`
      returns. Slot 0 gets bridge `vmbr0`; slots from 2 on copy bridge and tag from `net1`.
      (With slot >= 2 the list already has a `net1`, so the `baselineNets[1]` fallback is
      never taken.) */
  function NewNet(nets: seq<Net>, d: NetDefaults, freshMac: string): Net {
    var i := |nets|;
    var bridge := match d.bridge
      case Some(b) => b
      case None => if i == 0 then "vmbr0" else if i >= 2 then nets[1].bridge else "";
    var tag := match d.tag
      case Some(t) => t
      case None => if i >= 2 then nets[1].tag else "";
    Net(i, if d.model == "" then "virtio" else d.model, UpperString(if d.mac == "" then freshMac else d.mac),
        bridge, tag)
  }

  /** `Math.max(0, Math.min(24, count))` for an integer count. */
  function DesiredCount(count: int): nat {
    if count <= 0 then 0 else if count >= MaxNets then MaxNets else count
  }

  /** `Math.min(2, baselineNets.length)`: the imported NICs that are never removed. */
  function MinKeep(baselineCount: nat): nat {
    if baselineCount < 2 then baselineCount else 2
  }

  /** `Math.max(desired, minKeep)`: the size `ensureNetCount` leaves the list at. */
  function FinalCount(count: int, baselineCount: nat): nat {
    var desired := DesiredCount(count);
    if desired >= MinKeep(baselineCount) then desired else MinKeep(baselineCount)
  }

  /** What fills slot `|nets|`: a copy of the imported NIC there, else a new one drawn with
      `drawn[|nets|]` as its generated MAC. */
  function SlotNet(nets: seq<Net>, baseline: seq<Net>, drawn: seq<string>): Net
    requires |nets| < |drawn|
  {
    if |nets| < |baseline| then baseline[|nets|] else NewNet(nets, NoDefaults, drawn[|nets|])
  }

  /** `nets` filled slot by slot up to `k` entries. */
  function Grown(nets: seq<Net>, baseline: seq<Net>, k: nat, drawn: seq<string>): (r: seq<Net>)
    requires |nets| <= k <= |drawn|
    ensures |r| == k
    decreases k
  {
    if k == |nets| then nets
    else
      var prev := Grown(nets, baseline, k - 1, drawn);
      prev + [SlotNet(prev, baseline, drawn)]
  }

  /** The list after `ensureNetCount` brings it to `target` entries: cut, or grown. */
  function Resized(nets: seq<Net>, baseline: seq<Net>, target: nat, drawn: seq<string>): seq<Net>
    requires target <= |drawn|
  {
    if |nets| >= target then nets[..target] else Grown(nets, baseline, target, drawn)
  }

  /** `appState.nets` and `appState.baselineNets`. */
  class NetState {
    var nets: seq<Net>
    var baselineNets: seq<Net>

    /** The state after an import: no NICs yet, `baseline` remembered. */
    constructor (baseline: seq<Net>)
      ensures nets == [] && baselineNets == baseline
    {
      nets := [];
      baselineNets := baseline;
    }

    /** `addNet(d)`; `freshMac` is what `genMac()` returns for it. */
    method AddNet(d: NetDefaults, freshMac: string)
      modifies this
      ensures baselineNets == old(baselineNets)
      ensures nets == old(nets) + [NewNet(old(nets), d, freshMac)]
    {
      nets := nets + [NewNet(nets, d, freshMac)];
    }

    /** `ensureNetCount(count)`; `drawn[i]` is what `genMac()` returns when slot `i` gets a
        new NIC. */
    method EnsureNetCount(count: int, drawn: seq<string>)
      requires |drawn| >= MaxNets
      modifies this
      ensures baselineNets == old(baselineNets)
      ensures nets == Resized(old(nets), baselineNets, FinalCount(count, |baselineNets|), drawn)
    {
      ghost var start := nets;
      var minKeep := MinKeep(|baselineNets|);
      var finalCount := FinalCount(count, |baselineNets|);
      while |nets| < finalCount
        invariant baselineNets == old(baselineNets)
        invariant Filling(start, nets, baselineNets, finalCount, drawn)
        decreases finalCount - |nets|
      {
        ghost var prev := nets;
        var idx := |nets|;
        if idx < |baselineNets| {
          nets := nets + [baselineNets[idx]];
        } else {
          AddNet(NoDefaults, drawn[idx]);
        }
        FillOne(start, prev, baselineNets, finalCount, drawn);
      }
      while |nets| > finalCount && |nets| > minKeep
        invariant baselineNets == old(baselineNets)
        invariant Trimming(start, nets, baselineNets, finalCount, drawn)
        decreases |nets|
      {
        nets := nets[..|nets| - 1];
      }
    }
  }

  /** While `ensureNetCount` grows the list: the slots filled so far, in order. */
  predicate Filling(start: seq<Net>, nets: seq<Net>, baseline: seq<Net>, target: nat, drawn: seq<string>) {
    && target <= |drawn|
    && if |start| < target then |start| <= |nets| <= target && nets == Grown(start, baseline, |nets|, drawn)
       else nets == start
  }

  /** While `ensureNetCount` shrinks the list: a prefix of the original, never below the target. */
  predicate Trimming(start: seq<Net>, nets: seq<Net>, baseline: seq<Net>, target: nat, drawn: seq<string>) {
    && target <= |drawn|
    && if |start| < target then nets == Grown(start, baseline, target, drawn)
       else target <= |nets| <= |start| && nets == start[..|nets|]
  }

  /** Filling one more slot keeps the growing invariant. */
  lemma FillOne(start: seq<Net>, prev: seq<Net>, baseline: seq<Net>, target: nat, drawn: seq<string>)
    requires Filling(start, prev, baseline, target, drawn) && |prev| < target
    ensures Filling(start, prev + [SlotNet(prev, baseline, drawn)], baseline, target, drawn)
  {
  }

  /* ---------------- what ensureNetCount leaves ---------------- */

  /** The list ends up with the requested count clamped to 0..24, but never fewer than the
      first two imported NICs. */
  lemma FinalCountBounds(count: int, baselineCount: nat)
    ensures MinKeep(baselineCount) <= FinalCount(count, baselineCount) <= MaxNets
    ensures 0 <= count <= MaxNets && count >= MinKeep(baselineCount) ==> FinalCount(count, baselineCount) == count
    ensures FinalCount(count, baselineCount) >= DesiredCount(count)
  {
  }

  /** Growing keeps the NICs already there, as they are. */
  lemma {:induction false} GrownKeeps(nets: seq<Net>, baseline: seq<Net>, k: nat, drawn: seq<string>)
    requires |nets| <= k <= |drawn|
    ensures Grown(nets, baseline, k, drawn)[..|nets|] == nets
    decreases k
  {
    if k > |nets| {
      GrownKeeps(nets, baseline, k - 1, drawn);
      var prev := Grown(nets, baseline, k - 1, drawn);
      assert (prev + [SlotNet(prev, baseline, drawn)])[..|nets|] == prev[..|nets|];
    }
  }

  /** Each grown slot holds what was chosen for it once the slots before it were filled. */
  lemma {:induction false} GrownSlot(nets: seq<Net>, baseline: seq<Net>, k: nat, drawn: seq<string>, i: nat)
    requires |nets| <= i < k <= |drawn|
    ensures Grown(nets, baseline, k, drawn)[..i] == Grown(nets, baseline, i, drawn)
    ensures Grown(nets, baseline, k, drawn)[i] == SlotNet(Grown(nets, baseline, i, drawn), baseline, drawn)
    decreases k
  {
    var prev := Grown(nets, baseline, k - 1, drawn);
    assert Grown(nets, baseline, k, drawn) == prev + [SlotNet(prev, baseline, drawn)];
    if i < k - 1 {
      GrownSlot(nets, baseline, k - 1, drawn, i);
      assert (prev + [SlotNet(prev, baseline, drawn)])[..i] == prev[..i];
    }
  }

  /** Shrinking or growing, the NICs that fit in the new size are kept as they were. */
  lemma ResizedKeeps(nets: seq<Net>, baseline: seq<Net>, target: nat, drawn: seq<string>)
    requires target <= |drawn|
    ensures |Resized(nets, baseline, target, drawn)| == target
    ensures forall i :: 0 <= i < target && i < |nets| ==> Resized(nets, baseline, target, drawn)[i] == nets[i]
  {
    if |nets| < target {
      GrownKeeps(nets, baseline, target, drawn);
      var r := Grown(nets, baseline, target, drawn);
      assert forall i :: 0 <= i < |nets| ==> r[i] == r[..|nets|][i];
    }
  }

  /** A slot the list grows into is refilled with the imported NIC of that slot when there
      is one; otherwise it gets a new `virtio` NIC numbered by its slot, with the generated
      MAC upper-cased, bridge `vmbr0` in slot 0, nothing in slot 1, and `net1`'s bridge and
      tag from slot 2 on. */
  lemma GrownSlots(nets: seq<Net>, baseline: seq<Net>, target: nat, drawn: seq<string>, i: nat)
    requires |nets| <= i < target <= |drawn|
    ensures var r := Grown(nets, baseline, target, drawn);
      && (i < |baseline| ==> r[i] == baseline[i])
      && (i >= |baseline| ==>
            && r[i].index == i && r[i].model == "virtio" && r[i].mac == UpperString(drawn[i])
            && r[i].bridge == (if i == 0 then "vmbr0" else if i == 1 then "" else r[1].bridge)
            && r[i].tag == (if i >= 2 then r[1].tag else ""))
  {
    GrownSlot(nets, baseline, target, drawn, i);
    var r := Grown(nets, baseline, target, drawn);
    var prev := Grown(nets, baseline, i, drawn);
    if i >= 2 {
      assert r[1] == r[..i][1];
    }
  }

  /** Asking for the same count again changes nothing. */
  lemma ResizedIdempotent(nets: seq<Net>, baseline: seq<Net>, target: nat, drawn: seq<string>)
    requires target <= |drawn|
    ensures Resized(Resized(nets, baseline, target, drawn), baseline, target, drawn)
         == Resized(nets, baseline, target, drawn)
  {
    ResizedKeeps(nets, baseline, target, drawn);
  }

  /* ---------------- addNet ---------------- */

  /** From slot 2 on, a NIC added without defaults takes `net1`'s bridge and tag. */
  lemma NewNetInherits(nets: seq<Net>, freshMac: string)
    requires |nets| >= 2
    ensures NewNet(nets, NoDefaults, freshMac).bridge == nets[1].bridge
    ensures NewNet(nets, NoDefaults, freshMac).tag == nets[1].tag
    ensures NewNet(nets, NoDefaults, freshMac).index == |nets|
  {
  }

  /** Given defaults win over the inherited values; an empty model falls back to `virtio`. */
  lemma NewNetDefaults(nets: seq<Net>, d: NetDefaults, freshMac: string)
    ensures d.bridge.Some? ==> NewNet(nets, d, freshMac).bridge == d.bridge.value
    ensures d.tag.Some? ==> NewNet(nets, d, freshMac).tag == d.tag.value
    ensures NewNet(nets, d, freshMac).model == if d.model == "" then "virtio" else d.model
    ensures d.mac != "" ==> NewNet(nets, d, freshMac).mac == UpperString(d.mac)
  {
  }
}
