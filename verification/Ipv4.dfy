/** IPv4 addresses, networks and their textual form. */
module Ipv4 {
  import opened Bits
  import opened Wrappers

  /** A network as parsed: the address may carry host bits, which containment ignores. */
  datatype Network = Network(address: u32, prefix: prefixlen)

  type prefixlen = n: int | 0 <= n <= 32

  /** `a.b.c.d/n` contains the addresses that agree with it on the top `n` bits (RFC 4632, section 3.1). */
  predicate Contains(net: Network, address: u32) {
    Shr(address, 32 - net.prefix) == Shr(net.address, 32 - net.prefix)
  }

  // ----- the path of an address through a binary tree -----

  /** The `width` low bits of `a`, most significant first. */
  function BitString(a: nat, width: nat): (s: seq<bool>)
    ensures |s| == width
  {
    if width == 0 then [] else BitString(a / 2, width - 1) + [a % 2 == 1]
  }

  function AddressPath(a: u32): (s: seq<bool>)
    ensures |s| == 32
  {
    BitString(a, 32)
  }

  function NetworkPath(net: Network): (s: seq<bool>)
    ensures |s| == net.prefix
  {
    AddressPath(net.address)[..net.prefix]
  }

  lemma {:induction false} TopBits(a: nat, width: nat, n: nat)
    requires n <= width
    ensures BitString(a, width)[..n] == BitString(Shr(a, width - n), n)
  {
    if n < width { TopBits(a / 2, width - 1, n); }
  }

  lemma {:induction false} BitStringInjective(a: nat, b: nat, width: nat)
    requires a < Pow2(width) && b < Pow2(width)
    requires BitString(a, width) == BitString(b, width)
    ensures a == b
  {
    if width > 0 {
      var s, t := BitString(a, width), BitString(b, width);
      assert s[..width - 1] == BitString(a / 2, width - 1);
      assert t[..width - 1] == BitString(b / 2, width - 1);
      BitStringInjective(a / 2, b / 2, width - 1);
      assert s[width - 1] == t[width - 1];
    }
  }

  /** A network contains an address iff its path is the beginning of the address's path. */
  lemma ContainsIsPrefix(net: Network, address: u32)
    ensures Contains(net, address) <==> NetworkPath(net) <= AddressPath(address)
  {
    var n := net.prefix;
    TopBits(address, 32, n);
    TopBits(net.address, 32, n);
    Pow2Words();
    ShrFits(address, 32 - n, n);
    ShrFits(net.address, 32 - n, n);
    if BitString(Shr(address, 32 - n), n) == BitString(Shr(net.address, 32 - n), n) {
      BitStringInjective(Shr(address, 32 - n), Shr(net.address, 32 - n), n);
    }
  }

  lemma {:induction false} ShrQuotient(a: nat, k: nat)
    ensures Shr(a, k) == a / Pow2(k)
  {
    if k > 0 {
      ShrQuotient(a / 2, k - 1);
      HalfQuotient(a, Pow2(k - 1));
      hide Shr, Pow2;
    }
  }

  lemma HalfQuotient(a: nat, p: nat)
    requires p > 0
    ensures a / 2 / p == a / (2 * p)
  {
    var q, r := a / 2 / p, a / 2 % p;
    HalfSplit(a, p, q, r);
    QuotientUnique(a, 2 * p, q, 2 * r + a % 2);
  }

  lemma HalfSplit(a: nat, p: nat, q: nat, r: nat)
    requires p > 0 && a / 2 == p * q + r && r < p
    ensures a == 2 * p * q + (2 * r + a % 2) && 2 * r + a % 2 < 2 * p
  {}

  /** The addresses of a network are the 2^(32-n) ones from its first address on. */
  lemma ContainsRange(net: Network, address: u32)
    ensures
      var size := Pow2(32 - net.prefix);
      Contains(net, address) <==> net.address - net.address % size <= address < net.address - net.address % size + size
  {
    hide Pow2, Shr;
    var size := Pow2(32 - net.prefix);
    ShrQuotient(address, 32 - net.prefix);
    ShrQuotient(net.address, 32 - net.prefix);
    var q := net.address / size;
    assert net.address == size * q + net.address % size;
    if size * q <= address < size * q + size {
      QuotientUnique(address, size, q, address - size * q);
    }
    if address / size == q {
      assert address == size * q + address % size;
    }
  }

  // ----- text -----

  function DigitChar(d: nat): char
    requires d < 10
  {
    '0' + d as char
  }

  predicate IsDigit(c: char) {
    '0' <= c <= '9'
  }

  /** Decimal digits of `n`, as `Display` prints an unsigned integer. */
  function FormatNumber(n: nat): string {
    if n < 10 then [DigitChar(n)] else FormatNumber(n / 10) + [DigitChar(n % 10)]
  }

  function DecimalValue(s: string): nat
    requires forall c <- s :: IsDigit(c)
  {
    if s == "" then 0
    else
      assert IsDigit(s[|s| - 1]);
      10 * DecimalValue(s[..|s| - 1]) + (s[|s| - 1] as int - '0' as int)
  }

  /** `a.b.c.d` */
  function FormatAddress(a: u32): string {
    FormatQuad(a / 0x100_0000, a / 0x1_0000 % 0x100, a / 0x100 % 0x100, a % 0x100)
  }

  function FormatQuad(o1: nat, o2: nat, o3: nat, o4: nat): string {
    Dotted(o1, Dotted(o2, Dotted(o3, FormatNumber(o4))))
  }

  function Dotted(octet: nat, rest: string): string {
    FormatNumber(octet) + "." + rest
  }

  function QuadValue(o1: nat, o2: nat, o3: nat, o4: nat): u32
    requires o1 < 256 && o2 < 256 && o3 < 256 && o4 < 256
  {
    o1 * 0x100_0000 + o2 * 0x1_0000 + o3 * 0x100 + o4
  }

  /** `a.b.c.d/n` */
  function FormatNetwork(net: Network): string {
    FormatAddress(net.address) + ("/" + FormatNumber(net.prefix))
  }

  /** Length of the run of digits `s` starts with. */
  function DigitRun(s: string): (n: nat)
    ensures n <= |s| && (n < |s| ==> !IsDigit(s[n])) && forall c <- s[..n] :: IsDigit(c)
  {
    if s == "" || !IsDigit(s[0]) then 0
    else
      var n := 1 + DigitRun(s[1..]);
      assert s[..n] == [s[0]] + s[1..][..n - 1];
      n
  }

  /** A number below `limit` of at most `maxDigits` digits without leading zero, and what follows it. */
  function ReadNumber(s: string, maxDigits: nat, limit: nat): (r: Option<(nat, string)>)
    ensures r.Some? ==> r.value.0 < limit
  {
    var n := DigitRun(s);
    if n == 0 || n > maxDigits || (n > 1 && s[0] == '0') || DecimalValue(s[..n]) >= limit then None
    else Some((DecimalValue(s[..n]), s[n..]))
  }

  /** An octet followed by a dot. */
  function ReadOctet(s: string): (r: Option<(nat, string)>)
    ensures r.Some? ==> r.value.0 < 256
  {
    match ReadNumber(s, 3, 256)
    case Some((value, rest)) => if rest != "" && rest[0] == '.' then Some((value, rest[1..])) else None
    case None => None
  }

  /** A dotted quad, and what follows it. */
  function ReadAddress(s: string): Option<(u32, string)> {
    match ReadOctet(s)
    case None => None
    case Some((a, s1)) =>
      match ReadOctet(s1)
      case None => None
      case Some((b, s2)) =>
        match ReadOctet(s2)
        case None => None
        case Some((c, s3)) =>
          match ReadNumber(s3, 3, 256)
          case None => None
          case Some((d, rest)) => Some((QuadValue(a, b, c, d), rest))
  }

  function ParseAddress(s: string): Option<u32> {
    match ReadAddress(s)
    case Some((a, rest)) => if rest == "" then Some(a) else None
    case None => None
  }

  function ParseCidr(s: string): Option<Network> {
    match ReadAddress(s)
    case None => None
    case Some((a, rest)) => ReadPrefix(a, rest)
  }

  /** The `/n` after an address. */
  function ReadPrefix(a: u32, rest: string): Option<Network> {
    if rest == "" || rest[0] != '/' then None
    else
      match ReadNumber(rest[1..], 2, 33)
      case Some((n, tail)) => if tail == "" then Some(Network(a, n)) else None
      case None => None
  }

  // ----- printing, then parsing -----

  lemma Octets(o1: byte, o2: byte, o3: byte, o4: byte)
    ensures
      var a := o1 * 0x100_0000 + o2 * 0x1_0000 + o3 * 0x100 + o4;
      && a / 0x100_0000 == o1 && a / 0x1_0000 % 0x100 == o2 && a / 0x100 % 0x100 == o3 && a % 0x100 == o4
  {
    var high := o1 * 0x100 + o2;
    var a := high * 0x1_0000 + o3 * 0x100 + o4;
    QuotientUnique(a, 0x100_0000, o1, o2 * 0x1_0000 + o3 * 0x100 + o4);
    QuotientUnique(a, 0x1_0000, high, o3 * 0x100 + o4);
    QuotientUnique(high, 0x100, o1, o2);
    QuotientUnique(a, 0x100, high * 0x100 + o3, o4);
    QuotientUnique(high * 0x100 + o3, 0x100, high, o3);
  }

  lemma QuadDotted(s1: string, s2: string, s3: string, s4: string)
    ensures s1 + "." + (s2 + "." + (s3 + "." + s4)) == s1 + "." + s2 + "." + s3 + "." + s4
  {
    Regroup(s1 + "." + s2 + ".", s3 + ".", s4);
    Regroup(s1 + ".", s2 + ".", s3 + "." + s4);
    Regroup(s1 + ".", s2, ".");
    Regroup(s1 + "." + s2 + ".", s3, ".");
  }

  /** The four octets in order, most significant first. */
  lemma QuadText(o1: byte, o2: byte, o3: byte, o4: byte)
    ensures
      FormatAddress(o1 * 0x100_0000 + o2 * 0x1_0000 + o3 * 0x100 + o4) ==
      FormatNumber(o1) + "." + FormatNumber(o2) + "." + FormatNumber(o3) + "." + FormatNumber(o4)
  {
    Octets(o1, o2, o3, o4);
    QuadDotted(FormatNumber(o1), FormatNumber(o2), FormatNumber(o3), FormatNumber(o4));
    hide FormatNumber;
  }

  lemma {:induction false} FormatNumberShape(n: nat)
    ensures FormatNumber(n) != ""
    ensures forall c <- FormatNumber(n) :: IsDigit(c)
    ensures DecimalValue(FormatNumber(n)) == n
    ensures FormatNumber(n)[0] == '0' ==> n == 0
  {
    if n >= 10 {
      FormatNumberShape(n / 10);
      var s := FormatNumber(n);
      assert s[..|s| - 1] == FormatNumber(n / 10);
    }
  }

  lemma {:induction false} DigitRunStops(s: string, rest: string)
    requires forall c <- s :: IsDigit(c)
    requires rest == "" || !IsDigit(rest[0])
    ensures DigitRun(s + rest) == |s|
  {
    if s == "" {
      assert s + rest == rest;
    } else {
      assert (s + rest)[1..] == s[1..] + rest;
      DigitRunStops(s[1..], rest);
    }
  }

  lemma ReadFormatted(n: nat, maxDigits: nat, limit: nat, rest: string)
    requires n < limit && |FormatNumber(n)| <= maxDigits
    requires rest == "" || !IsDigit(rest[0])
    ensures ReadNumber(FormatNumber(n) + rest, maxDigits, limit) == Some((n, rest))
  {
    var s := FormatNumber(n);
    FormatNumberShape(n);
    DigitRunStops(s, rest);
    assert (s + rest)[..|s|] == s && (s + rest)[|s|..] == rest;
  }

  lemma ReadFormattedOctet(n: nat, rest: string)
    requires n < 256
    ensures ReadOctet(Dotted(n, rest)) == Some((n, rest))
  {
    OctetDigits(n);
    ReadFormatted(n, 3, 256, "." + rest);
    assert Dotted(n, rest) == FormatNumber(n) + ("." + rest);
  }

  lemma DottedAppend(n: nat, s: string, rest: string)
    ensures Dotted(n, s) + rest == Dotted(n, s + rest)
  {}

  lemma OctetDigits(n: nat)
    requires n < 256
    ensures |FormatNumber(n)| <= 3 && (n < 100 ==> |FormatNumber(n)| <= 2)
  {}

  lemma ReadFormattedQuad(o1: nat, o2: nat, o3: nat, o4: nat, rest: string)
    requires o1 < 256 && o2 < 256 && o3 < 256 && o4 < 256
    requires rest == "" || !IsDigit(rest[0])
    ensures ReadAddress(FormatQuad(o1, o2, o3, o4) + rest) == Some((QuadValue(o1, o2, o3, o4), rest))
  {
    hide FormatNumber, ReadNumber, ReadOctet, Dotted;
    var s3 := FormatNumber(o4) + rest;
    var s2 := Dotted(o3, s3);
    var s1 := Dotted(o2, s2);
    assert FormatQuad(o1, o2, o3, o4) + rest == Dotted(o1, s1) by {
      DottedAppend(o1, Dotted(o2, Dotted(o3, FormatNumber(o4))), rest);
      DottedAppend(o2, Dotted(o3, FormatNumber(o4)), rest);
      DottedAppend(o3, FormatNumber(o4), rest);
    }
    ReadFormattedOctet(o1, s1);
    ReadFormattedOctet(o2, s2);
    ReadFormattedOctet(o3, s3);
    OctetDigits(o4);
    ReadFormatted(o4, 3, 256, rest);
  }

  lemma OctetsOfAddress(a: u32)
    ensures QuadValue(a / 0x100_0000, a / 0x1_0000 % 0x100, a / 0x100 % 0x100, a % 0x100) == a
  {
    var high := a / 0x1_0000;
    assert a / 0x100 == 0x100 * high + a / 0x100 % 0x100 by { assert a / 0x100 / 0x100 == high; }
    assert a / 0x100_0000 == high / 0x100;
  }

  lemma ReadFormattedAddress(a: u32, rest: string)
    requires rest == "" || !IsDigit(rest[0])
    ensures ReadAddress(FormatAddress(a) + rest) == Some((a, rest))
  {
    OctetsOfAddress(a);
    ReadFormattedQuad(a / 0x100_0000, a / 0x1_0000 % 0x100, a / 0x100 % 0x100, a % 0x100, rest);
  }

  lemma ParseWhole(s: string, a: u32)
    requires ReadAddress(s + "") == Some((a, ""))
    ensures ParseAddress(s) == Some(a)
  {
    assert s + "" == s;
  }

  lemma ReadFormattedPrefix(a: u32, n: nat)
    requires n <= 32
    ensures ReadPrefix(a, "/" + FormatNumber(n)) == Some(Network(a, n))
  {
    var digits := FormatNumber(n);
    OctetDigits(n);
    ReadFormatted(n, 2, 33, "");
    assert digits + "" == digits && ("/" + digits)[1..] == digits;
  }

  /** Printing an address and parsing the text gives it back. */
  lemma AddressRoundTrip(a: u32)
    ensures ParseAddress(FormatAddress(a)) == Some(a)
  {
    ReadFormattedAddress(a, "");
    ParseWhole(FormatAddress(a), a);
  }

  /** Printing a network and parsing the text gives it back, host bits included. */
  lemma NetworkRoundTrip(net: Network)
    ensures ParseCidr(FormatNetwork(net)) == Some(net)
  {
    var tail := "/" + FormatNumber(net.prefix);
    ReadFormattedAddress(net.address, tail);
    ReadFormattedPrefix(net.address, net.prefix);
  }

  /** Printed addresses contain digits and dots only. */
  lemma AddressCharacters(a: u32)
    ensures FormatAddress(a) != ""
    ensures forall c <- FormatAddress(a) :: IsDigit(c) || c == '.'
  {
    FormatNumberShape(a / 0x100_0000);
    FormatNumberShape(a / 0x1_0000 % 0x100);
    FormatNumberShape(a / 0x100 % 0x100);
    FormatNumberShape(a % 0x100);
  }
}
