/**
 * The MAC address helpers of the editor: `byteToHex`, `genMac`, `isValidMac` and
 * `uniqueMacs`.
 */
module MacUtil {
  import opened Text

  /** `DEFAULT_MAC_PREFIX`: the vendor part given to new NICs. */
  const DefaultMacPrefix: string := "D8:FC:93"

  /** A value `randByte` can return: `Math.floor(Math.random() * 256)`. */
  type Byte = b: nat | b < 256

  /** Two hex digits, either case. */
  predicate IsHexPair(s: string) {
    |s| == 2 && IsHexDigit(s[0]) && IsHexDigit(s[1])
  }

  /** The number two hex digits spell, high digit first. */
  function HexPairValue(s: string): (v: nat)
    requires IsHexPair(s)
    ensures v < 256
  {
    16 * HexValue(s[0]) + HexValue(s[1])
  }

  /** `byteToHex`: `toString(16)`, upper-cased, padded to two digits. */
  function ByteToHex(b: Byte): (r: string)
    ensures IsHexPair(r) && forall k :: 0 <= k < 2 ==> !('a' <= r[k] <= 'z')
  {
    [HexChar(b / 16), HexChar(b % 16)]
  }

  /** The two digits of `byteToHex` read back as the byte. */
  lemma ByteToHexRoundTrip(b: Byte)
    ensures HexPairValue(ByteToHex(b)) == b
  {
    HexCharValue(b / 16);
    HexCharValue(b % 16);
  }

  /* ---------------- genMac ---------------- */

  /** `.map(s => s.trim()).filter(Boolean)`: the trimmed parts that are not empty. */
  function NonEmptyTrimmed(xs: seq<string>): (ps: seq<string>)
    ensures |ps| <= |xs|
  {
    if |xs| == 0 then []
    else
      var t := Trim(xs[|xs| - 1]);
      NonEmptyTrimmed(xs[..|xs| - 1]) + (if t == "" then [] else [t])
  }

  /** What is kept is trimmed, not empty, and holds no character the parts do not hold. */
  lemma {:induction false} NonEmptyTrimmedParts(xs: seq<string>, c: char)
    requires forall k :: 0 <= k < |xs| ==> c !in xs[k]
    ensures forall k :: 0 <= k < |NonEmptyTrimmed(xs)| ==>
      NonEmptyTrimmed(xs)[k] != "" && Trimmed(NonEmptyTrimmed(xs)[k]) && c !in NonEmptyTrimmed(xs)[k]
  {
    if |xs| > 0 {
      NonEmptyTrimmedParts(xs[..|xs| - 1], c);
      TrimChars(xs[|xs| - 1]);
    }
  }

  /** The parts `genMac` keeps from its prefix. */
  function PrefixParts(prefix: string): seq<string> {
    NonEmptyTrimmed(Split(prefix, ':'))
  }

  /** The upper-case hex pairs of the bytes drawn. */
  function HexBytes(bs: seq<Byte>): (hs: seq<string>)
    ensures |hs| == |bs|
  {
    if |bs| == 0 then [] else HexBytes(bs[..|bs| - 1]) + [ByteToHex(bs[|bs| - 1])]
  }

  lemma {:induction false} HexBytesAt(bs: seq<Byte>)
    ensures forall k :: 0 <= k < |bs| ==> HexBytes(bs)[k] == ByteToHex(bs[k])
  {
    if |bs| > 0 {
      HexBytesAt(bs[..|bs| - 1]);
    }
  }

  /** The six parts of the address `genMac(prefix)` returns when `randByte` yields `random`
      in turn. */
  function MacParts(prefix: string, random: seq<Byte>): seq<string>
    requires |random| >= 6
  {
    Completed(PrefixParts(prefix), random)
  }

  /** The `given` parts cut to six, or followed by as many drawn bytes as are missing. */
  function Completed(given: seq<string>, random: seq<Byte>): seq<string>
    requires |random| >= 6
  {
    if |given| >= 6 then given[..6] else given + HexBytes(random[..6 - |given|])
  }

  /** `genMac(prefix)`, drawing its random bytes from `random` in order. */
  method GenMac(prefix: string, random: seq<Byte>) returns (mac: string)
    requires |random| >= 6
    ensures mac == Join(MacParts(prefix, random), ':')
  {
    var given := PrefixParts(prefix);
    var parts := given;
    var need := 6 - |parts|;
    var i := 0;
    while i < need
      invariant 0 <= i <= 6 && (if need > 0 then i <= need else i == 0)
      invariant parts == given + HexBytes(random[..i])
    {
      DrawOne(given, random, i);
      parts := parts + [ByteToHex(random[i])];
      i := i + 1;
    }
    DrawsDone(given, random, parts, i);
    mac := Join(parts[..if |parts| < 6 then |parts| else 6], ':');
  }

  /** Drawing one more byte appends its hex pair to the parts. */
  lemma DrawOne(given: seq<string>, random: seq<Byte>, i: nat)
    requires i < |random|
    ensures given + HexBytes(random[..i + 1]) == given + HexBytes(random[..i]) + [ByteToHex(random[i])]
  {
    assert random[..i + 1][..i] == random[..i];
  }

  /** Once the missing bytes are drawn, the first six parts are the completed ones. */
  lemma DrawsDone(given: seq<string>, random: seq<Byte>, parts: seq<string>, i: nat)
    requires |random| >= 6
    requires i == if |given| < 6 then 6 - |given| else 0
    requires parts == given + HexBytes(random[..i])
    ensures parts[..if |parts| < 6 then |parts| else 6] == Completed(given, random)
  {
    if |given| < 6 {
      assert parts[..6] == parts;
    } else {
      assert random[..i] == [];
      assert parts == given;
    }
  }

  /** There are always six parts: first the given ones (at most six), then upper-case hex
      pairs of the drawn bytes, in the order they were drawn. */
  lemma CompletedShape(given: seq<string>, random: seq<Byte>)
    requires |random| >= 6
    ensures var ps := Completed(given, random);
      && |ps| == 6
      && (forall k :: 0 <= k < 6 && k < |given| ==> ps[k] == given[k])
      && (forall k :: |given| <= k < 6 ==> ps[k] == ByteToHex(random[k - |given|]))
  {
    if |given| < 6 {
      var drawn := random[..6 - |given|];
      var ps := given + HexBytes(drawn);
      HexBytesAt(drawn);
      forall k | |given| <= k < 6 ensures ps[k] == ByteToHex(random[k - |given|]) {
        assert ps[k] == HexBytes(drawn)[k - |given|];
      }
    }
  }

  /** No part holds a colon, so the address splits back into exactly its six parts. */
  lemma MacSplitsIntoParts(prefix: string, random: seq<Byte>)
    requires |random| >= 6
    ensures |MacParts(prefix, random)| == 6
    ensures Split(Join(MacParts(prefix, random), ':'), ':') == MacParts(prefix, random)
  {
    var given := PrefixParts(prefix);
    var ps := Completed(given, random);
    CompletedShape(given, random);
    NonEmptyTrimmedParts(Split(prefix, ':'), ':');
    forall k | 0 <= k < 6 ensures ':' !in ps[k] {
      if k >= |given| {
        assert ps[k] == ByteToHex(random[k - |given|]);
        HexNotColon(ps[k][0]);
        HexNotColon(ps[k][1]);
      }
    }
    SplitJoin(ps, ':');
  }

  /** Hex-pair parts, completed with drawn bytes, make a valid address. */
  lemma CompletedValid(given: seq<string>, random: seq<Byte>)
    requires |random| >= 6
    requires forall k :: 0 <= k < |given| ==> IsHexPair(given[k])
    ensures IsValidMac(Join(Completed(given, random), ':'))
  {
    var ps := Completed(given, random);
    CompletedShape(given, random);
    forall k | 0 <= k < 6 ensures IsHexPair(ps[k]) {
    }
    JoinPairsValid(ps, 5);
  }

  /** With a prefix made of hex pairs, such as the default one, the address is valid. */
  lemma GenMacValid(prefix: string, random: seq<Byte>)
    requires |random| >= 6
    requires forall k :: 0 <= k < |PrefixParts(prefix)| ==> IsHexPair(PrefixParts(prefix)[k])
    ensures IsValidMac(Join(MacParts(prefix, random), ':'))
  {
    CompletedValid(PrefixParts(prefix), random);
  }

  /** Parts that are already trimmed and not empty are all kept. */
  lemma {:induction false} NonEmptyTrimmedKeeps(xs: seq<string>)
    requires forall k :: 0 <= k < |xs| ==> xs[k] != "" && Trimmed(xs[k])
    ensures NonEmptyTrimmed(xs) == xs
  {
    if |xs| > 0 {
      var last := xs[|xs| - 1];
      NonEmptyTrimmedKeeps(xs[..|xs| - 1]);
      assert Trim(last) == last;
      assert xs[..|xs| - 1] + [last] == xs;
    }
  }

  /** The default prefix keeps its three parts `D8`, `FC` and `93`. */
  lemma DefaultPrefixParts()
    ensures PrefixParts(DefaultMacPrefix) == ["D8", "FC", "93"]
  {
    DefaultPrefixSplit();
    DefaultPartsKept();
  }

  lemma DefaultPrefixSplit()
    ensures Split(DefaultMacPrefix, ':') == ["D8", "FC", "93"]
  {
    var ps := ["D8", "FC", "93"];
    assert Join(ps, ':') == DefaultMacPrefix by {
      assert Join(ps[2..], ':') == "93";
      assert Join(ps[1..], ':') == "FC:93";
    }
    SplitJoin(ps, ':');
  }

  lemma DefaultPartsKept()
    ensures NonEmptyTrimmed(["D8", "FC", "93"]) == ["D8", "FC", "93"]
  {
    var ps := ["D8", "FC", "93"];
    forall k | 0 <= k < 3 ensures ps[k] != "" && Trimmed(ps[k]) {
      HexPairTrimmed(ps[k]);
    }
    NonEmptyTrimmedKeeps(ps);
  }

  lemma HexPairTrimmed(s: string)
    requires IsHexPair(s)
    ensures s != "" && Trimmed(s)
  {
    HexNotSpace(s[0]);
    HexNotSpace(s[1]);
  }

  lemma HexNotSpace(c: char)
    requires IsHexDigit(c)
    ensures !IsSpace(c)
  {
    if IsDigit(c) {
      DigitNotSpace(c);
    } else {
      LetterNotSpace(c);
    }
  }

  /** `genMac()` with the default prefix gives `D8:FC:93:` and three drawn bytes, a valid
      address. */
  lemma DefaultMacValid(random: seq<Byte>)
    requires |random| >= 6
    ensures MacParts(DefaultMacPrefix, random)
         == ["D8", "FC", "93", ByteToHex(random[0]), ByteToHex(random[1]), ByteToHex(random[2])]
    ensures IsValidMac(Join(MacParts(DefaultMacPrefix, random), ':'))
  {
    DefaultPrefixParts();
    var given := ["D8", "FC", "93"];
    assert MacParts(DefaultMacPrefix, random) == Completed(given, random);
    DefaultCompleted(random);
    forall k | 0 <= k < |given| ensures IsHexPair(given[k]) {
      assert k == 0 || k == 1 || k == 2;
    }
    CompletedValid(given, random);
  }

  lemma DefaultCompleted(random: seq<Byte>)
    requires |random| >= 6
    ensures Completed(["D8", "FC", "93"], random)
         == ["D8", "FC", "93", ByteToHex(random[0]), ByteToHex(random[1]), ByteToHex(random[2])]
  {
    CompletedShape(["D8", "FC", "93"], random);
  }

  /* ---------------- isValidMac ---------------- */

  /** `([0-9A-F]{2}:){groups}[0-9A-F]{2}$`, case-insensitively, matched from the start. */
  predicate MatchesMac(s: string, groups: nat)
    decreases groups
  {
    if groups == 0 then IsHexPair(s)
    else |s| >= 3 && IsHexPair(s[..2]) && s[2] == ':' && MatchesMac(s[3..], groups - 1)
  }

  /** `isValidMac`: `/^([0-9A-F]{2}:){5}[0-9A-F]{2}$/i`. A valid MAC is 17 characters long,
      with a colon after every second hex digit. */
  predicate IsValidMac(mac: string): (ok: bool)
    ensures ok ==> |mac| == 17 && forall k :: 0 <= k < 17 ==> (mac[k] == ':' <==> k % 3 == 2)
  {
    MatchesMacShape(mac, 5);
    MatchesMac(mac, 5)
  }

  /** A string that matches is `3 * groups + 2` characters long, with a colon exactly at every
      third position. */
  lemma {:induction false} MatchesMacShape(s: string, groups: nat)
    ensures MatchesMac(s, groups) ==>
      |s| == 3 * groups + 2 && forall k :: 0 <= k < |s| ==> (s[k] == ':' <==> k % 3 == 2)
  {
    if MatchesMac(s, groups) {
      if groups == 0 {
        HexNotColon(s[0]);
        HexNotColon(s[1]);
      } else {
        MatchesMacShape(s[3..], groups - 1);
        HexNotColon(s[0]);
        HexNotColon(s[1]);
        forall k | 3 <= k < |s| ensures (s[k] == ':' <==> k % 3 == 2) {
          assert s[k] == s[3..][k - 3];
        }
      }
    }
  }

  lemma HexNotColon(c: char)
    requires IsHexDigit(c)
    ensures c != ':'
  {
  }

  /** Hex pairs joined by colons match the pattern with one group per colon. */
  lemma {:induction false} JoinPairsValid(ps: seq<string>, groups: nat)
    requires |ps| == groups + 1
    requires forall k :: 0 <= k < |ps| ==> IsHexPair(ps[k])
    ensures MatchesMac(Join(ps, ':'), groups)
  {
    if groups > 0 {
      JoinPairsValid(ps[1..], groups - 1);
      var s := Join(ps, ':');
      assert s == ps[0] + [':'] + Join(ps[1..], ':');
      assert s[..2] == ps[0] && s[3..] == Join(ps[1..], ':');
    }
  }

  /** A string that matches splits at its colons into hex pairs, one more than the groups. */
  lemma {:induction false} MatchSplits(s: string, groups: nat)
    requires MatchesMac(s, groups)
    ensures |Split(s, ':')| == groups + 1
    ensures forall k :: 0 <= k < groups + 1 ==> IsHexPair(Split(s, ':')[k])
  {
    if groups == 0 {
      assert ':' !in s;
      SplitWord(s, ':');
    } else {
      MatchSplits(s[3..], groups - 1);
      assert ':' !in s[..2];
      assert s == s[..2] + [':'] + s[3..];
      SplitAtSeparator(s[..2], s[3..], ':');
    }
  }

  /** A MAC is valid exactly when it splits at its colons into six hex pairs. */
  lemma ValidMacIsSixPairs(mac: string)
    ensures IsValidMac(mac) <==>
      |Split(mac, ':')| == 6 && forall k :: 0 <= k < 6 ==> IsHexPair(Split(mac, ':')[k])
  {
    if IsValidMac(mac) {
      MatchSplits(mac, 5);
    } else if |Split(mac, ':')| == 6 && forall k :: 0 <= k < 6 ==> IsHexPair(Split(mac, ':')[k]) {
      JoinSplit(mac, ':');
      JoinPairsValid(Split(mac, ':'), 5);
      assert false;
    }
  }

  /* ---------------- uniqueMacs ---------------- */

  /** No two entries are equal once upper-cased. */
  predicate DistinctIgnoringCase(macs: seq<string>) {
    forall i, j :: 0 <= i < j < |macs| ==> UpperString(macs[i]) != UpperString(macs[j])
  }

  /** `uniqueMacs`: one pass remembering the upper-cased entries seen so far. */
  method UniqueMacs(macs: seq<string>) returns (unique: bool)
    ensures unique <==> DistinctIgnoringCase(macs)
  {
    var seen: set<string> := {};
    var i := 0;
    while i < |macs|
      invariant 0 <= i <= |macs|
      invariant seen == set k | 0 <= k < i :: UpperString(macs[k])
      invariant forall a, b :: 0 <= a < b < i ==> UpperString(macs[a]) != UpperString(macs[b])
    {
      var upper := UpperString(macs[i]);
      if upper in seen {
        var k :| 0 <= k < i && UpperString(macs[k]) == upper;
        assert !DistinctIgnoringCase(macs) by {
          assert UpperString(macs[k]) == UpperString(macs[i]);
        }
        return false;
      }
      seen := seen + {upper};
      i := i + 1;
    }
    return true;
  }

  /** Entries that are distinct ignoring case are distinct. */
  lemma DistinctIgnoringCaseDistinct(macs: seq<string>, i: nat, j: nat)
    requires DistinctIgnoringCase(macs) && i < j < |macs|
    ensures macs[i] != macs[j]
  {
  }
}
