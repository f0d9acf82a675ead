/** IP address literals as the migration stores them (`migrate_ips`,
    obligate/obligate.py:152-164): the version is kept, and the integer is the
    IPv6 form of the address, an IPv4 address being written as an IPv4-mapped
    IPv6 address (section 2.5.5.2 of RFC 4291, `::ffff:a.b.c.d`). */
module Addressing {
  /** The two address families netaddr distinguishes. */
  datatype IpVersion = V4 | V6

  /** 2^32 IPv4 values. */
  const Ipv4Space: nat := 0x1_0000_0000

  /** 2^128 IPv6 values. */
  const Ipv6Space: nat := 0x1_0000_0000_0000_0000_0000_0000_0000_0000

  /** `::ffff:0.0.0.0`, the first IPv4-mapped IPv6 address: 80 zero bits, then 16 one bits. */
  const MappedPrefix: nat := 0xffff_0000_0000

  /** An address as text, already parsed into its family and integer value. */
  datatype IpLiteral = IpLiteral(text: string, version: IpVersion, value: nat)

  /** The parsed value fits its family. */
  predicate ValidLiteral(lit: IpLiteral)
  {
    match lit.version
    case V4 => lit.value < Ipv4Space
    case V6 => lit.value < Ipv6Space
  }

  /** The `version` attribute netaddr reports: 4 or 6. */
  function VersionNumber(v: IpVersion): (n: int)
    ensures n == 4 <==> v == V4
    ensures n == 6 <==> v == V6
  {
    match v
    case V4 => 4
    case V6 => 6
  }

  /** `int(IPAddress(text).ipv6())`: an IPv4 value is placed after the mapped prefix, an
      IPv6 value is kept. The result is an IPv6 value, and for an IPv4 literal a mapped
      address from which the IPv4 value is recovered unchanged. */
  function Ipv6Value(lit: IpLiteral): (v: nat)
    ensures ValidLiteral(lit) ==> v < Ipv6Space
    ensures ValidLiteral(lit) && lit.version == V4 ==> IsIpv4Mapped(v) && Ipv4OfMapped(v) == lit.value
    ensures lit.version == V6 ==> v == lit.value
  {
    match lit.version
    case V4 => MappedPrefix + lit.value
    case V6 => lit.value
  }

  /** The IPv6 values that are IPv4-mapped addresses. */
  predicate IsIpv4Mapped(x: nat)
  {
    MappedPrefix <= x < MappedPrefix + Ipv4Space
  }

  /** The IPv4 value carried in the low 32 bits of a mapped address. */
  function Ipv4OfMapped(x: nat): (v: nat)
    requires IsIpv4Mapped(x)
    ensures v < Ipv4Space
  {
    x - MappedPrefix
  }

  /** Together with the stored version, the stored integer determines the parsed value:
      no two different addresses of one family are stored as the same integer. */
  lemma Ipv6ValueInjective(a: IpLiteral, b: IpLiteral)
    requires a.version == b.version
    ensures Ipv6Value(a) == Ipv6Value(b) <==> a.value == b.value
  {
  }

  /** Every mapped address is the stored form of exactly the IPv4 value it carries. */
  lemma MappedIsStoredForm(x: nat, text: string)
    requires IsIpv4Mapped(x)
    ensures var lit := IpLiteral(text, V4, Ipv4OfMapped(x));
      ValidLiteral(lit) && Ipv6Value(lit) == x
  {
  }

  /** The dotted quad `a.b.c.d` as a 32-bit value. */
  function DottedQuad(a: nat, b: nat, c: nat, d: nat): (v: nat)
    requires a < 256 && b < 256 && c < 256 && d < 256
    ensures v < Ipv4Space
  {
    ((a * 256 + b) * 256 + c) * 256 + d
  }

  /** `10.0.0.1` is stored as `0xffff0a000001`, version 4. */
  lemma TenDotOneExample()
    ensures var lit := IpLiteral("10.0.0.1", V4, DottedQuad(10, 0, 0, 1));
      && ValidLiteral(lit)
      && Ipv6Value(lit) == 0xffff_0a00_0001
      && VersionNumber(lit.version) == 4
  {
  }
}
