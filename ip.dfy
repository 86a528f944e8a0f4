/**
 * `ipToNum` and `numToIp`: a dotted quad and the unsigned 32-bit integer it denotes.
 */
module Ip {
  import opened Outcomes
  import opened Text

  const Two32: int := 0x1_0000_0000

  predicate IsOctet(v: int) { 0 <= v < 256 }

  /** The big-endian value of four octets. */
  function QuadValue(a: int, b: int, c: int, d: int): int {
    a * 0x100_0000 + b * 0x1_0000 + c * 0x100 + d
  }

  /** The canonical dotted quad `a.b.c.d`. */
  function Dotted(a: nat, b: nat, c: nat, d: nat): string {
    Join([NatToString(a), NatToString(b), NatToString(c), NatToString(d)], '.')
  }

  /** The octet `parseInt` reads from one part, or None when it is NaN or out of 0..255. */
  function OctetOf(part: string): Option<nat> {
    match ParseInt(part)
    case Some(v) => if IsOctet(v) then Some(v) else None
    case None => None
  }

  /** `ipToNum(ip)`: the trimmed input split on '.', which must give four parts that each
      parse to 0..255; the value is big-endian, so always below 2^32. */
  function IpToNum(ip: string): (r: Result<int>)
    ensures r.Ok? <==> var p := Split(Trim(ip), '.');
      |p| == 4 && OctetOf(p[0]).Some? && OctetOf(p[1]).Some? && OctetOf(p[2]).Some? && OctetOf(p[3]).Some?
    ensures r.Ok? ==> 0 <= r.value < Two32
    ensures r.Err? ==> r.error == InvalidIp(ip)
  {
    var parts := Split(Trim(ip), '.');
    if |parts| != 4 then Err(InvalidIp(ip))
    else
      var a, b, c, d := OctetOf(parts[0]), OctetOf(parts[1]), OctetOf(parts[2]), OctetOf(parts[3]);
      if a.None? || b.None? || c.None? || d.None? then Err(InvalidIp(ip))
      else Ok(QuadValue(a.value, b.value, c.value, d.value))
  }

  /** `numToIp(n)`: the four bytes of `n` read as an unsigned 32-bit integer (`>>>` first
      reduces its operand modulo 2^32), most significant first. */
  function NumToIp(n: int): (r: string)
    ensures Trim(r) == r
    ensures var p := Split(r, '.');
      |p| == 4 && OctetOf(p[0]).Some? && OctetOf(p[1]).Some? && OctetOf(p[2]).Some? && OctetOf(p[3]).Some?
  {
    var m := n % Two32;
    var a, b, c, d := m / 0x100_0000, (m / 0x1_0000) % 256, (m / 0x100) % 256, m % 256;
    ByteDecomposition(m);
    DottedParts(a, b, c, d);
    OctetsOfNumerals(a, b, c, d);
    Dotted(a, b, c, d)
  }

  lemma DottedParts(a: nat, b: nat, c: nat, d: nat)
    ensures Trim(Dotted(a, b, c, d)) == Dotted(a, b, c, d)
    ensures Split(Dotted(a, b, c, d), '.') == [NatToString(a), NatToString(b), NatToString(c), NatToString(d)]
  {
    DottedTrimmed(a, b, c, d);
    DottedSplit(a, b, c, d);
  }

  lemma DottedSplit(a: nat, b: nat, c: nat, d: nat)
    ensures Split(Dotted(a, b, c, d), '.') == [NatToString(a), NatToString(b), NatToString(c), NatToString(d)]
  {
    var parts := [NatToString(a), NatToString(b), NatToString(c), NatToString(d)];
    NumeralsHaveNoDot(parts);
    SplitJoin(parts, '.');
  }

  lemma NumeralsHaveNoDot(parts: seq<string>)
    requires forall k :: 0 <= k < |parts| ==> AllDigits(parts[k])
    ensures forall k :: 0 <= k < |parts| ==> '.' !in parts[k]
  {
    forall k | 0 <= k < |parts|
      ensures '.' !in parts[k]
    {
      DigitsExclude(parts[k], '.');
    }
  }

  /** A dotted quad starts and ends with a digit, so `trim` leaves it as it is. */
  lemma DottedTrimmed(a: nat, b: nat, c: nat, d: nat)
    ensures Trim(Dotted(a, b, c, d)) == Dotted(a, b, c, d)
  {
    var parts := [NatToString(a), NatToString(b), NatToString(c), NatToString(d)];
    JoinEnds(parts, '.');
    var s := Dotted(a, b, c, d);
    DigitNotSpace(s[0]);
    DigitNotSpace(s[|s| - 1]);
  }

  lemma OctetOfNumeral(v: nat)
    requires v < 256
    ensures OctetOf(NatToString(v)) == Some(v)
  {
    ParseIntOfNumeral(v);
  }

  lemma OctetsOfNumerals(a: nat, b: nat, c: nat, d: nat)
    requires a < 256 && b < 256 && c < 256 && d < 256
    ensures OctetOf(NatToString(a)) == Some(a) && OctetOf(NatToString(b)) == Some(b)
    ensures OctetOf(NatToString(c)) == Some(c) && OctetOf(NatToString(d)) == Some(d)
  {
    OctetOfNumeral(a);
    OctetOfNumeral(b);
    OctetOfNumeral(c);
    OctetOfNumeral(d);
  }

  /** The four bytes of a 32-bit value put back together give the value. */
  lemma ByteDecomposition(m: int)
    requires 0 <= m < Two32
    ensures m / 0x100_0000 < 256
    ensures m == QuadValue(m / 0x100_0000, (m / 0x1_0000) % 256, (m / 0x100) % 256, m % 256)
  {
    var q1, q2, a := m / 0x100, m / 0x1_0000, m / 0x100_0000;
    ShiftTwice(m, 0x100, 0x1_0000);
    ShiftTwice(m, 0x1_0000, 0x100_0000);
    assert m == q1 * 256 + m % 256;
    assert q1 == q2 * 256 + q1 % 256;
    assert q2 == a * 256 + q2 % 256;
  }

  /** Shifting right by one more byte is dividing the shifted value by 256. */
  lemma ShiftTwice(m: int, unit: int, next: int)
    requires 0 <= m && ((unit == 0x100 && next == 0x1_0000) || (unit == 0x1_0000 && next == 0x100_0000))
    ensures m / next == (m / unit) / 256
  {
    var q := (m / unit) / 256;
    assert m / unit == q * 256 + (m / unit) % 256;
    assert m == (m / unit) * unit + m % unit;
    assert m == q * next + ((m / unit) % 256) * unit + m % unit;
  }

  /** The value of four octets, cut back into bytes, gives the octets. */
  lemma ByteComposition(a: int, b: int, c: int, d: int)
    requires IsOctet(a) && IsOctet(b) && IsOctet(c) && IsOctet(d)
    ensures var v := QuadValue(a, b, c, d);
      && v % Two32 == v && v / 0x100_0000 == a && (v / 0x1_0000) % 256 == b
      && (v / 0x100) % 256 == c && v % 256 == d
  {
    var v := a * 0x100_0000 + b * 0x1_0000 + c * 0x100 + d;
    assert v % Two32 == v;
    assert v % 256 == d;
    var q1 := a * 0x1_0000 + b * 0x100 + c;
    assert v == q1 * 256 + d;
    assert v / 256 == q1;
    assert q1 % 256 == c;
    var q2 := a * 0x100 + b;
    assert v == q2 * 0x1_0000 + (c * 256 + d);
    assert v / 0x1_0000 == q2;
    assert q2 % 256 == b;
    assert v == a * 0x100_0000 + (b * 0x1_0000 + c * 256 + d);
  }

  /** Four parts that each read as an octet give their big-endian value. */
  lemma IpToNumOfParts(ip: string, p0: string, p1: string, p2: string, p3: string, a: nat, b: nat, c: nat, d: nat)
    requires Split(Trim(ip), '.') == [p0, p1, p2, p3]
    requires OctetOf(p0) == Some(a) && OctetOf(p1) == Some(b)
    requires OctetOf(p2) == Some(c) && OctetOf(p3) == Some(d)
    ensures IpToNum(ip) == Ok(QuadValue(a, b, c, d))
  {
  }

  /** `ipToNum` of a canonical quad is the big-endian value of its octets. */
  lemma IpToNumOfDotted(a: nat, b: nat, c: nat, d: nat)
    requires a < 256 && b < 256 && c < 256 && d < 256
    ensures IpToNum(Dotted(a, b, c, d)) == Ok(QuadValue(a, b, c, d))
  {
    DottedParts(a, b, c, d);
    OctetsOfNumerals(a, b, c, d);
    IpToNumOfParts(Dotted(a, b, c, d), NatToString(a), NatToString(b), NatToString(c), NatToString(d), a, b, c, d);
  }

  /** Reading back what `numToIp` writes gives the argument modulo 2^32. */
  lemma NumToIpRoundTrip(n: int)
    ensures IpToNum(NumToIp(n)) == Ok(n % Two32)
  {
    var m := n % Two32;
    var a, b, c, d := m / 0x100_0000, (m / 0x1_0000) % 256, (m / 0x100) % 256, m % 256;
    ByteDecomposition(m);
    IpToNumOfDotted(a, b, c, d);
  }

  /** A canonical dotted quad survives `ipToNum` then `numToIp` unchanged. */
  lemma QuadRoundTrip(a: nat, b: nat, c: nat, d: nat)
    requires a < 256 && b < 256 && c < 256 && d < 256
    ensures IpToNum(Dotted(a, b, c, d)) == Ok(QuadValue(a, b, c, d))
    ensures NumToIp(QuadValue(a, b, c, d)) == Dotted(a, b, c, d)
  {
    IpToNumOfDotted(a, b, c, d);
    ByteComposition(a, b, c, d);
  }

  /** A dotted quad with a number above 255 in it, such as 10.0.0.300, is rejected. */
  lemma OutOfRangeRejected(a: nat, b: nat, c: nat, d: nat)
    requires a > 255 || b > 255 || c > 255 || d > 255
    ensures IpToNum(Dotted(a, b, c, d)) == Err(InvalidIp(Dotted(a, b, c, d)))
  {
    DottedParts(a, b, c, d);
    ParseIntOfNumeral(a);
    ParseIntOfNumeral(b);
    ParseIntOfNumeral(c);
    ParseIntOfNumeral(d);
  }
}
