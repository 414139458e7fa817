/** IP addresses as numbers, their text, and the subnet test of src/stats.rs. */
module Addresses {
  import opened Text
  import opened Bits

  const TWO32: nat := 0x1_0000_0000
  const TWO64: nat := 0x1_0000_0000_0000_0000
  const TWO128: nat := 0x1_0000_0000_0000_0000_0000_0000_0000_0000

  type U32 = n: nat | n < 0x1_0000_0000
  type U128 = n: nat | n < 0x1_0000_0000_0000_0000_0000_0000_0000_0000

  datatype IpAddr = V4(bits4: U32) | V6(bits6: U128)

  function ToSet(ips: seq<IpAddr>): set<IpAddr> {
    set ip | ip in ips
  }

  /** The parser for IPv6 text, which belongs to the standard library and is left open here. */
  type V6Parser = string -> Option<U128>

  lemma PowersOfWidths()
    ensures Pow2(32) == TWO32 && Pow2(64) == TWO64 && Pow2(128) == TWO128
  {
    assert Pow2(2) == 4;
    PowDouble(2, 4, 16);
    PowDouble(4, 16, 256);
    PowDouble(8, 256, 0x1_0000);
    PowDouble(16, 0x1_0000, TWO32);
    PowDouble(32, TWO32, TWO64);
    PowDouble(64, TWO64, TWO128);
  }

  lemma PowDouble(n: nat, v: nat, square: nat)
    requires Pow2(n) == v && square == v * v
    ensures Pow2(2 * n) == square
  {
    PowSum(n, n);
  }

  lemma {:induction false} PowSum(a: nat, b: nat)
    ensures Pow2(a + b) == Pow2(a) * Pow2(b)
  {
    if a > 0 {
      PowSum(a - 1, b);
    }
  }

  // ---------- IPv4 text ----------

  function Octets(a: U32): (o: seq<nat>)
    ensures |o| == 4 && forall i :: 0 <= i < 4 ==> o[i] < 256
  {
    [a / 0x100_0000, a / 0x1_0000 % 256, a / 256 % 256, a % 256]
  }

  function FormatV4(a: U32): string {
    var o := Octets(a);
    Join([Decimal(o[0]), Decimal(o[1]), Decimal(o[2]), Decimal(o[3])], '.')
  }

  lemma OctetsOf(v: U32, a: nat, b: nat, c: nat, d: nat)
    requires a < 256 && b < 256 && c < 256 && d < 256 && v == 0x100_0000 * a + 0x1_0000 * b + 256 * c + d
    ensures Octets(v) == [a, b, c, d]
  {
    ModUnique(v, 256, 0x1_0000 * a + 256 * b + c, d);
    ModUnique(v, 0x1_0000, 256 * a + b, 256 * c + d);
    ModUnique(v, 0x100_0000, a, 0x1_0000 * b + 256 * c + d);
    ModUnique(0x1_0000 * a + 256 * b + c, 256, 256 * a + b, c);
    ModUnique(256 * a + b, 256, a, b);
  }

  /** Dotted notation, written out. */
  lemma QuadText(v: U32, a: nat, b: nat, c: nat, d: nat)
    requires a < 256 && b < 256 && c < 256 && d < 256 && v == 0x100_0000 * a + 0x1_0000 * b + 256 * c + d
    ensures FormatV4(v) == Decimal(a) + "." + Decimal(b) + "." + Decimal(c) + "." + Decimal(d)
  {
    OctetsOf(v, a, b, c, d);
    FormatOctets(v, a, b, c, d);
  }

  lemma FormatOctets(v: U32, a: nat, b: nat, c: nat, d: nat)
    requires Octets(v) == [a, b, c, d]
    ensures FormatV4(v) == Decimal(a) + "." + Decimal(b) + "." + Decimal(c) + "." + Decimal(d)
  {
    JoinQuad(Decimal(a), Decimal(b), Decimal(c), Decimal(d));
  }

  lemma JoinQuad(p: string, q: string, r: string, s: string)
    ensures Join([p, q, r, s], '.') == p + "." + q + "." + r + "." + s
  {
    assert [p, q, r, s][1..] == [q, r, s] && [q, r, s][1..] == [r, s] && [r, s][1..] == [s];
    assert Join([r, s], '.') == r + "." + s;
    assert Join([q, r, s], '.') == q + "." + r + "." + s;
  }

  /** One to three digits, no superfluous leading zero, at most 255. */
  function ParseOctet(s: string): Option<nat> {
    if !(1 <= |s| <= 3) || (|s| > 1 && s[0] == '0') then None
    else
      match ParseDigits(s)
      case Some(v) => if v < 256 then Some(v) else None
      case None => None
  }

  function ParseV4(s: string): Option<U32> {
    var parts := Split(s, '.');
    if |parts| != 4 then None
    else
      match (ParseOctet(parts[0]), ParseOctet(parts[1]), ParseOctet(parts[2]), ParseOctet(parts[3]))
      case (Some(a), Some(b), Some(c), Some(d)) => FromOctets(a, b, c, d)
      case _ => None
  }

  function FromOctets(a: nat, b: nat, c: nat, d: nat): Option<U32> {
    var v := 0x100_0000 * a + 0x1_0000 * b + 256 * c + d;
    if v < TWO32 then Some(v) else None
  }

  lemma OctetRoundTrip(n: nat)
    requires n < 256
    ensures ParseOctet(Decimal(n)) == Some(n)
    ensures '.' !in Decimal(n) && '/' !in Decimal(n)
  {
    DecimalRoundTrip(n);
    OctetDigits(n);
  }

  lemma OctetDigits(n: nat)
    requires n < 256
    ensures |Decimal(n)| <= 3 && (|Decimal(n)| > 1 ==> Decimal(n)[0] != '0')
  {
    var tens := n / 10;
    assert tens < 26 && tens / 10 < 10;
    assert |Decimal(tens / 10)| == 1 && |Decimal(tens)| <= 2;
  }

  lemma OctetsValue(a: U32)
    ensures var o := Octets(a); a == 0x100_0000 * o[0] + 0x1_0000 * o[1] + 256 * o[2] + o[3]
  {
    var b := a / 256;
    assert a / 0x1_0000 == b / 256 && a / 0x100_0000 == b / 256 / 256;
  }

  lemma ParseJoinedOctets(o: seq<nat>)
    requires |o| == 4 && forall i :: 0 <= i < 4 ==> o[i] < 256
    ensures Split(Join([Decimal(o[0]), Decimal(o[1]), Decimal(o[2]), Decimal(o[3])], '.'), '.')
         == [Decimal(o[0]), Decimal(o[1]), Decimal(o[2]), Decimal(o[3])]
  {
    OctetRoundTrip(o[0]);
    OctetRoundTrip(o[1]);
    OctetRoundTrip(o[2]);
    OctetRoundTrip(o[3]);
    SplitJoin([Decimal(o[0]), Decimal(o[1]), Decimal(o[2]), Decimal(o[3])], '.');
  }

  lemma V4RoundTrip(a: U32)
    ensures ParseV4(FormatV4(a)) == Some(a)
  {
    var o := Octets(a);
    ParseFourOctets(o[0], o[1], o[2], o[3]);
    OctetsValue(a);
  }

  lemma ParseFourOctets(a: nat, b: nat, c: nat, d: nat)
    requires a < 256 && b < 256 && c < 256 && d < 256
    ensures ParseV4(Join([Decimal(a), Decimal(b), Decimal(c), Decimal(d)], '.')) == FromOctets(a, b, c, d)
  {
    ParseJoinedOctets([a, b, c, d]);
    OctetRoundTrip(a);
    OctetRoundTrip(b);
    OctetRoundTrip(c);
    OctetRoundTrip(d);
    ParseParts(Join([Decimal(a), Decimal(b), Decimal(c), Decimal(d)], '.'),
      Decimal(a), Decimal(b), Decimal(c), Decimal(d), a, b, c, d);
  }

  lemma ParseParts(s: string, p: string, q: string, r: string, t: string, a: nat, b: nat, c: nat, d: nat)
    requires Split(s, '.') == [p, q, r, t]
    requires ParseOctet(p) == Some(a) && ParseOctet(q) == Some(b)
    requires ParseOctet(r) == Some(c) && ParseOctet(t) == Some(d)
    ensures ParseV4(s) == FromOctets(a, b, c, d)
  {
  }

  lemma V4TextChars(a: U32)
    ensures FormatV4(a) != ""
    ensures forall c :: c in FormatV4(a) ==> c == '.' || '0' <= c <= '9'
  {
    var o := Octets(a);
    var parts := [Decimal(o[0]), Decimal(o[1]), Decimal(o[2]), Decimal(o[3])];
    JoinChars(parts, '.');
    assert forall i, c :: 0 <= i < |parts| && c in parts[i] ==> '0' <= c <= '9';
    assert FormatV4(a)[0] == parts[0][0];
  }

  lemma {:induction false} JoinChars(parts: seq<string>, sep: char)
    ensures forall c :: c in Join(parts, sep) ==> c == sep || exists i :: 0 <= i < |parts| && c in parts[i]
  {
    if |parts| > 1 {
      JoinChars(parts[1..], sep);
      forall c | c in Join(parts[1..], sep) && c != sep
        ensures exists i :: 0 <= i < |parts| && c in parts[i]
      {
        var i :| 0 <= i < |parts[1..]| && c in parts[1..][i];
        assert c in parts[i + 1];
      }
    }
  }

  /** `u32::from_str`: decimal digits, optionally after a plus sign, within range. */
  function ParseU32(s: string): Option<U32> {
    match ParseDigits(if HasPrefix(s, "+") then s[1..] else s)
    case Some(v) => if v < TWO32 then Some(v) else None
    case None => None
  }

  lemma DecimalIsU32(n: U32)
    ensures ParseU32(Decimal(n)) == Some(n)
  {
    DecimalRoundTrip(n);
    NoPlusSign(Decimal(n));
  }

  lemma NoPlusSign(s: string)
    requires s != "" && '0' <= s[0] <= '9'
    ensures !HasPrefix(s, "+")
  {
    assert "+"[0] == '+';
  }

  // ---------- subnets ----------

  /** `a.b.c.d/len` */
  function CidrText(a: U32, len: nat): string {
    FormatV4(a) + "/" + Decimal(len)
  }

  function Mask(width: nat, prefix: nat): nat {
    if prefix == 0 then 0
    else if prefix >= width then Pow2(width) - 1
    else ShiftedOnes(width, width - prefix)
  }

  predicate SameMasked(width: nat, ip: nat, net: nat, prefix: nat) {
    And(ip, Mask(width, prefix)) == And(net, Mask(width, prefix))
  }

  /** An IPv4-mapped IPv6 address stands for its IPv4 address (section 2.5.5.2 of RFC 4291). */
  function Unmapped(ip: IpAddr): IpAddr {
    match ip
    case V4(_) => ip
    case V6(b) => if b / TWO32 == 0xFFFF then V4(b % TWO32) else ip
  }

  predicate InNetwork(ip: IpAddr, net: IpAddr, prefix: nat) {
    match (ip, net)
    case (V4(a), V4(b)) => SameMasked(32, a, b, prefix)
    case (V6(a), V6(b)) => SameMasked(128, a, b, prefix)
    case _ => false
  }

  function ParseIp(s: string, v6: V6Parser): Option<IpAddr> {
    match ParseV4(s)
    case Some(a) => Some(V4(a))
    case None => match v6(s) case Some(b) => Some(V6(b)) case None => None
  }

  /** Does the block written as `network/prefix` hold the address? */
  predicate InCidr(ip: IpAddr, cidr: string, v6: V6Parser) {
    var parts := Split(cidr, '/');
    var prefixText := if |parts| > 1 then parts[1] else "";
    match (ParseIp(parts[0], v6), ParseU32(prefixText))
    case (Some(net), Some(prefix)) => InNetwork(ip, net, prefix)
    case _ => false
  }

  predicate IpInSubnet(ip: IpAddr, subnet: string, v6: V6Parser) {
    InCidr(Unmapped(ip), subnet, v6)
  }

  function Min(a: nat, b: nat): nat {
    if a <= b then a else b
  }

  /** Comparing under the mask is comparing the quotients by 2^(width - prefix),
      for every prefix length, 0 and oversized ones included. */
  lemma MaskIsQuotient(width: nat, ip: nat, net: nat, prefix: nat)
    requires width > 0 && ip < Pow2(width) && net < Pow2(width)
    ensures SameMasked(width, ip, net, prefix) <==>
            ip / Pow2(width - Min(prefix, width)) == net / Pow2(width - Min(prefix, width))
  {
    if prefix == 0 {
      SmallQuotient(ip, Pow2(width));
      SmallQuotient(net, Pow2(width));
    } else {
      var shift := width - Min(prefix, width);
      if 0 < shift {
        ShiftedOnesValue(width, shift);
      }
      assert Mask(width, prefix) == HighOnes(width, shift);
      MaskClearsLowBits(width, shift, ip);
      MaskClearsLowBits(width, shift, net);
      SameMultiple(ip / Pow2(shift), net / Pow2(shift), Pow2(shift));
    }
  }

  lemma SmallQuotient(x: nat, m: nat)
    requires x < m
    ensures x / m == 0
  {
    ModUnique(x, m, 0, x);
  }

  lemma SameMultiple(a: nat, b: nat, k: nat)
    requires k >= 1
    ensures a * k == b * k <==> a == b
  {
    ModUnique(a * k, k, a, 0);
    ModUnique(b * k, k, b, 0);
  }

  lemma CidrTextParses(ip: IpAddr, a: U32, len: U32, v6: V6Parser)
    ensures InCidr(ip, CidrText(a, len), v6) == InNetwork(ip, V4(a), len)
  {
    V4RoundTrip(a);
    DecimalIsU32(len);
    CidrSplits(a, len);
  }

  /** The addresses sharing the first `len` bits of `a`. */
  predicate InBlock(ip: IpAddr, a: U32, len: nat) {
    len <= 32 && ip.V4? && ip.bits4 / Pow2(32 - len) == a / Pow2(32 - len)
  }

  /** The text of an IPv4 block denotes the addresses with the same leading bits, and nothing else. */
  lemma CidrTextMeaning(ip: IpAddr, a: U32, len: U32, v6: V6Parser)
    requires len <= 32
    ensures InCidr(ip, CidrText(a, len), v6) == InBlock(ip, a, len)
  {
    CidrTextParses(ip, a, len, v6);
    if ip.V4? {
      PowersOfWidths();
      MaskIsQuotient(32, ip.bits4, a, len);
      assert Min(len, 32) == len;
    }
  }

  lemma SingleAddress(ip: IpAddr, a: U32)
    ensures InBlock(ip, a, 32) <==> ip == V4(a)
  {
    assert Pow2(32 - 32) == 1;
    if ip.V4? {
      assert ip.bits4 / 1 == ip.bits4 && a / 1 == a;
    }
  }

  lemma CidrSplits(a: U32, len: nat)
    ensures Split(CidrText(a, len), '/') == [FormatV4(a), Decimal(len)]
  {
    V4TextChars(a);
    SplitPlain(FormatV4(a), '/');
    SplitPlain(Decimal(len), '/');
    SplitAppend(FormatV4(a), Decimal(len), '/');
  }

  lemma CidrTextInjective(a: U32, len: nat, b: U32, len': nat)
    requires CidrText(a, len) == CidrText(b, len')
    ensures a == b && len == len'
  {
    CidrSplits(a, len);
    CidrSplits(b, len');
    V4RoundTrip(a);
    V4RoundTrip(b);
    DecimalRoundTrip(len);
    DecimalRoundTrip(len');
  }

  // ---------- what the readers mean ----------

  lemma OctetIsDecimal(s: string)
    requires ParseOctet(s).Some?
    ensures Decimal(ParseOctet(s).value) == s && ParseOctet(s).value < 256
  {
    DigitsAreDecimal(s);
  }

  /** The IPv4 texts read are exactly the ones printed: four octets without superfluous zeros. */
  lemma ParseV4Iff(s: string, a: U32)
    ensures ParseV4(s) == Some(a) <==> s == FormatV4(a)
  {
    V4RoundTrip(a);
    if ParseV4(s) == Some(a) {
      var parts := Split(s, '.');
      JoinSplit(s, '.');
      assert parts == [parts[0], parts[1], parts[2], parts[3]];
      PartsAreOctets(a, parts[0], parts[1], parts[2], parts[3]);
    }
  }

  lemma PartsAreOctets(v: U32, p: string, q: string, r: string, t: string)
    requires ParseOctet(p).Some? && ParseOctet(q).Some? && ParseOctet(r).Some? && ParseOctet(t).Some?
    requires FromOctets(ParseOctet(p).value, ParseOctet(q).value, ParseOctet(r).value, ParseOctet(t).value) == Some(v)
    ensures FormatV4(v) == Join([p, q, r, t], '.')
  {
    OctetIsDecimal(p);
    OctetIsDecimal(q);
    OctetIsDecimal(r);
    OctetIsDecimal(t);
    OctetsOf(v, ParseOctet(p).value, ParseOctet(q).value, ParseOctet(r).value, ParseOctet(t).value);
  }

  /** Numbers are read with or without a plus sign, and not from 2^32 on. */
  lemma U32Texts(n: nat)
    ensures ParseU32(Decimal(n)) == ParseU32("+" + Decimal(n)) == if n < TWO32 then Some(n) else None
  {
    DecimalRoundTrip(n);
    NoPlusSign(Decimal(n));
    assert ("+" + Decimal(n))[1..] == Decimal(n);
  }

  /** Exactly the addresses ::ffff:a.b.c.d stand for IPv4 addresses; all others stand for themselves. */
  lemma UnmappedMeaning(b: U128, a: U32)
    ensures Unmapped(V4(a)) == V4(a)
    ensures Unmapped(V6(b)) == V4(a) <==> b == 0xFFFF * 0x1_0000_0000 + a
    ensures Unmapped(V6(b)) == V6(b) <==> !(0xFFFF * 0x1_0000_0000 <= b < 0x1_0000 * 0x1_0000_0000)
  {
  }

  /** A network holds the addresses of its family with the same leading bits, for every prefix length. */
  lemma NetworkMeaning(ip: IpAddr, net: IpAddr, prefix: nat)
    ensures InNetwork(ip, net, prefix) <==>
      match (ip, net)
      case (V4(a), V4(b)) => a / Pow2(32 - Min(prefix, 32)) == b / Pow2(32 - Min(prefix, 32))
      case (V6(a), V6(b)) => a / Pow2(128 - Min(prefix, 128)) == b / Pow2(128 - Min(prefix, 128))
      case _ => false
  {
    match (ip, net)
    case (V4(a), V4(b)) => MaskedMeaning(32, a, b, prefix);
    case (V6(a), V6(b)) => MaskedMeaning(128, a, b, prefix);
    case _ =>
  }

  lemma MaskedMeaning(width: nat, a: nat, b: nat, prefix: nat)
    requires (width == 32 && a < TWO32 && b < TWO32) || (width == 128 && a < TWO128 && b < TWO128)
    ensures SameMasked(width, a, b, prefix) <==>
      a / Pow2(width - Min(prefix, width)) == b / Pow2(width - Min(prefix, width))
  {
    PowersOfWidths();
    MaskIsQuotient(width, a, b, prefix);
  }
}
