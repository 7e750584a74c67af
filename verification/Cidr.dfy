/** CIDR membership: the 32-bit shift-and-mask test, the 128-bit byte-string mask test, and the
    walk over the blocked ranges. Addresses are natural numbers; `&` is defined bit by bit. */
module Cidr {
  import opened Bits
  import opened Php
  import opened Sequences

  // ---------------------------------------------------------------- prefixes

  /** The numeric definition of a prefix: both addresses agree on their top `bits` bits. */
  predicate SamePrefix(x: nat, y: nat, width: nat, bits: nat)
    requires bits <= width
  {
    Shr(x, width - bits) == Shr(y, width - bits)
  }

  /** Sharing a prefix of a base whose remaining bits are 0 is lying in the block that starts there. */
  lemma BlockIsInterval(x: nat, q: nat, width: nat, bits: nat)
    requires bits <= width
    ensures
      var size := Pow2(width - bits);
      SamePrefix(x, q * size, width, bits) <==> q * size <= x < q * size + size
  {
    var k := width - bits;
    ShrIsQuotient(x, k);
    ShrIsQuotient(q * Pow2(k), k);
    QuotientInterval(x, q, Pow2(k));
  }

  // ---------------------------------------------------------------- IPv4

  /** `ipInCidr`; None stands for an address that does not parse. On integers of `word` bits (64 on
      the platforms PHP runs on here) the mask `-1 << (32 - bits)` is ones above 32 - bits zeros. */
  predicate IpInCidr(ip: Option<nat>, subnet: Option<nat>, bits: nat, word: nat)
    requires bits <= 32 <= word
  {
    ip.Some? && subnet.Some? && AgreeUnderMask(ip.value, subnet.value, word, 32 - bits)
  }

  /** The shift-and-mask test is the numeric prefix definition (section 3.1 of RFC 4632). */
  lemma IpInCidrIsPrefix(ip: nat, subnet: nat, bits: nat, word: nat)
    requires ip < Pow2(32) && subnet < Pow2(32) && bits <= 32 <= word
    ensures IpInCidr(Some(ip), Some(subnet), bits, word) <==> SamePrefix(ip, subnet, 32, bits)
  {
    Pow2Monotone(32, word);
    MaskedEqual(ip, subnet, word, 32 - bits);
  }

  datatype Range = Range(base: nat, bits: nat)

  predicate WellFormed(table: seq<Range>, width: nat) {
    forall i :: 0 <= i < |table| ==> table[i].bits <= width && table[i].base < Pow2(width)
  }

  predicate InSome(x: nat, table: seq<Range>, width: nat)
    requires WellFormed(table, width)
  {
    exists i :: 0 <= i < |table| && SamePrefix(x, table[i].base, width, table[i].bits)
  }

  /** The IPv4 part of `isPrivateOrReserved`; builtin stands for the verdict of PHP's own filter. */
  method IsBlocked4(ip: nat, builtin: bool, table: seq<Range>) returns (blocked: bool)
    requires ip < Pow2(32) && WellFormed(table, 32)
    ensures blocked <==> builtin || InSome(ip, table, 32)
  {
    if builtin {
      return true;
    }
    for i := 0 to |table|
      invariant forall j :: 0 <= j < i ==> !SamePrefix(ip, table[j].base, 32, table[j].bits)
    {
      IpInCidrIsPrefix(ip, table[i].base, table[i].bits, 64);
      if IpInCidr(Some(ip), Some(table[i].base), table[i].bits, 64) {
        return true;
      }
    }
    return false;
  }

  function Dotted(a: nat, b: nat, c: nat, d: nat): nat { ((a * 256 + b) * 256 + c) * 256 + d }

  function BlockedCidrs(): seq<Range> {
    [Range(Dotted(0, 0, 0, 0), 8), Range(Dotted(10, 0, 0, 0), 8), Range(Dotted(100, 64, 0, 0), 10),
     Range(Dotted(127, 0, 0, 0), 8), Range(Dotted(169, 254, 0, 0), 16), Range(Dotted(172, 16, 0, 0), 12),
     Range(Dotted(192, 0, 0, 0), 24), Range(Dotted(192, 0, 2, 0), 24), Range(Dotted(192, 88, 99, 0), 24),
     Range(Dotted(192, 168, 0, 0), 16), Range(Dotted(198, 18, 0, 0), 15), Range(Dotted(198, 51, 100, 0), 24),
     Range(Dotted(203, 0, 113, 0), 24), Range(Dotted(224, 0, 0, 0), 4), Range(Dotted(240, 0, 0, 0), 4),
     Range(Dotted(255, 255, 255, 255), 32)]
  }

  /** x lies between two dotted addresses, both included. */
  predicate Between(x: nat, lo: nat, hi: nat) { lo <= x <= hi }

  /** Belonging to one range of the table is lying between its first and its last address. */
  lemma RangeIsInterval(x: nat, base: nat, bits: nat, size: nat, q: nat)
    requires bits <= 32 && size == Pow2(32 - bits) && base == q * size
    ensures SamePrefix(x, base, 32, bits) <==> Between(x, base, base + size - 1)
  {
    BlockIsInterval(x, q, 32, bits);
  }

  lemma PowersUsed()
    ensures Pow2(0) == 1 && Pow2(8) == 256 && Pow2(16) == 0x1_0000 && Pow2(17) == 0x2_0000 && Pow2(20) == 0x10_0000
    ensures Pow2(22) == 0x40_0000 && Pow2(24) == 0x100_0000 && Pow2(28) == 0x1000_0000 && Pow2(32) == 0x1_0000_0000
  {
  }

  lemma BlockedCidrsWellFormed()
    ensures WellFormed(BlockedCidrs(), 32)
  {
    PowersUsed();
  }

  /** The blocked IPv4 table as a union of address intervals; the broadcast address is already in the
      last one. */
  lemma BlockedIntervals(x: nat)
    requires x < Pow2(32)
    ensures WellFormed(BlockedCidrs(), 32)
    ensures InSome(x, BlockedCidrs(), 32)
       <==> || Between(x, Dotted(0, 0, 0, 0), Dotted(0, 255, 255, 255))
            || Between(x, Dotted(10, 0, 0, 0), Dotted(10, 255, 255, 255))
            || Between(x, Dotted(100, 64, 0, 0), Dotted(100, 127, 255, 255))
            || Between(x, Dotted(127, 0, 0, 0), Dotted(127, 255, 255, 255))
            || Between(x, Dotted(169, 254, 0, 0), Dotted(169, 254, 255, 255))
            || Between(x, Dotted(172, 16, 0, 0), Dotted(172, 31, 255, 255))
            || Between(x, Dotted(192, 0, 0, 0), Dotted(192, 0, 0, 255))
            || Between(x, Dotted(192, 0, 2, 0), Dotted(192, 0, 2, 255))
            || Between(x, Dotted(192, 88, 99, 0), Dotted(192, 88, 99, 255))
            || Between(x, Dotted(192, 168, 0, 0), Dotted(192, 168, 255, 255))
            || Between(x, Dotted(198, 18, 0, 0), Dotted(198, 19, 255, 255))
            || Between(x, Dotted(198, 51, 100, 0), Dotted(198, 51, 100, 255))
            || Between(x, Dotted(203, 0, 113, 0), Dotted(203, 0, 113, 255))
            || Between(x, Dotted(224, 0, 0, 0), Dotted(255, 255, 255, 255))
  {
    BlockedCidrsWellFormed();
    SixteenEntries(x, BlockedCidrs());
    FirstIntervals(x);
    LastIntervals(x);
  }

  predicate InEntry(x: nat, table: seq<Range>, i: nat) {
    i < |table| && table[i].bits <= 32 && SamePrefix(x, table[i].base, 32, table[i].bits)
  }

  lemma SixteenEntries(x: nat, t: seq<Range>)
    requires |t| == 16 && WellFormed(t, 32)
    ensures InSome(x, t, 32)
       <==> || InEntry(x, t, 0) || InEntry(x, t, 1) || InEntry(x, t, 2) || InEntry(x, t, 3)
            || InEntry(x, t, 4) || InEntry(x, t, 5) || InEntry(x, t, 6) || InEntry(x, t, 7)
            || InEntry(x, t, 8) || InEntry(x, t, 9) || InEntry(x, t, 10) || InEntry(x, t, 11)
            || InEntry(x, t, 12) || InEntry(x, t, 13) || InEntry(x, t, 14) || InEntry(x, t, 15)
  {
  }

  lemma FirstIntervals(x: nat)
    ensures
      var t := BlockedCidrs();
      && (SamePrefix(x, t[0].base, 32, t[0].bits) <==> Between(x, Dotted(0, 0, 0, 0), Dotted(0, 255, 255, 255)))
      && (SamePrefix(x, t[1].base, 32, t[1].bits) <==> Between(x, Dotted(10, 0, 0, 0), Dotted(10, 255, 255, 255)))
      && (SamePrefix(x, t[2].base, 32, t[2].bits) <==> Between(x, Dotted(100, 64, 0, 0), Dotted(100, 127, 255, 255)))
      && (SamePrefix(x, t[3].base, 32, t[3].bits) <==> Between(x, Dotted(127, 0, 0, 0), Dotted(127, 255, 255, 255)))
      && (SamePrefix(x, t[4].base, 32, t[4].bits) <==> Between(x, Dotted(169, 254, 0, 0), Dotted(169, 254, 255, 255)))
      && (SamePrefix(x, t[5].base, 32, t[5].bits) <==> Between(x, Dotted(172, 16, 0, 0), Dotted(172, 31, 255, 255)))
      && (SamePrefix(x, t[6].base, 32, t[6].bits) <==> Between(x, Dotted(192, 0, 0, 0), Dotted(192, 0, 0, 255)))
      && (SamePrefix(x, t[7].base, 32, t[7].bits) <==> Between(x, Dotted(192, 0, 2, 0), Dotted(192, 0, 2, 255)))
  {
    PowersUsed();
    var t := BlockedCidrs();
    RangeIsInterval(x, t[0].base, 8, 0x100_0000, 0);
    RangeIsInterval(x, t[1].base, 8, 0x100_0000, 10);
    RangeIsInterval(x, t[2].base, 10, 0x40_0000, 100 * 4 + 1);
    RangeIsInterval(x, t[3].base, 8, 0x100_0000, 127);
    RangeIsInterval(x, t[4].base, 16, 0x1_0000, 169 * 256 + 254);
    RangeIsInterval(x, t[5].base, 12, 0x10_0000, 172 * 16 + 1);
    RangeIsInterval(x, t[6].base, 24, 256, 192 * 0x1_0000);
    RangeIsInterval(x, t[7].base, 24, 256, 192 * 0x1_0000 + 2);
  }

  lemma LastIntervals(x: nat)
    ensures
      var t := BlockedCidrs();
      && (SamePrefix(x, t[8].base, 32, t[8].bits) <==> Between(x, Dotted(192, 88, 99, 0), Dotted(192, 88, 99, 255)))
      && (SamePrefix(x, t[9].base, 32, t[9].bits) <==> Between(x, Dotted(192, 168, 0, 0), Dotted(192, 168, 255, 255)))
      && (SamePrefix(x, t[10].base, 32, t[10].bits) <==> Between(x, Dotted(198, 18, 0, 0), Dotted(198, 19, 255, 255)))
      && (SamePrefix(x, t[11].base, 32, t[11].bits) <==> Between(x, Dotted(198, 51, 100, 0), Dotted(198, 51, 100, 255)))
      && (SamePrefix(x, t[12].base, 32, t[12].bits) <==> Between(x, Dotted(203, 0, 113, 0), Dotted(203, 0, 113, 255)))
      && (SamePrefix(x, t[13].base, 32, t[13].bits) <==> Between(x, Dotted(224, 0, 0, 0), Dotted(239, 255, 255, 255)))
      && (SamePrefix(x, t[14].base, 32, t[14].bits) <==> Between(x, Dotted(240, 0, 0, 0), Dotted(255, 255, 255, 255)))
      && (SamePrefix(x, t[15].base, 32, t[15].bits)
          <==> Between(x, Dotted(255, 255, 255, 255), Dotted(255, 255, 255, 255)))
  {
    PowersUsed();
    var t := BlockedCidrs();
    RangeIsInterval(x, t[8].base, 24, 256, (192 * 256 + 88) * 256 + 99);
    RangeIsInterval(x, t[9].base, 16, 0x1_0000, 192 * 256 + 168);
    RangeIsInterval(x, t[10].base, 15, 0x2_0000, 198 * 128 + 9);
    RangeIsInterval(x, t[11].base, 24, 256, (198 * 256 + 51) * 256 + 100);
    RangeIsInterval(x, t[12].base, 24, 256, 203 * 0x1_0000 + 113);
    RangeIsInterval(x, t[13].base, 4, 0x1000_0000, 14);
    RangeIsInterval(x, t[14].base, 4, 0x1000_0000, 15);
    RangeIsInterval(x, t[15].base, 32, 1, Dotted(255, 255, 255, 255));
  }

  // ---------------------------------------------------------------- IPv6

  /** `ipv6InCidr` on packed addresses; None stands for an address that does not parse. */
  method Ipv6InCidr(ip: Option<seq<Byte>>, prefix: Option<seq<Byte>>, bits: nat) returns (r: bool)
    requires bits <= 128
    requires ip.Some? ==> |ip.value| == 16
    requires prefix.Some? ==> |prefix.value| == 16
    ensures r <==> ip.Some? && prefix.Some? && SamePrefix(Value(ip.value), Value(prefix.value), 128, bits)
  {
    if ip.None? || prefix.None? {
      return false;
    }
    var mask: seq<Byte> := seq(bits / 8, _ => 255);
    if bits % 8 != 0 {
      mask := mask + [255 * Pow2(8 - bits % 8) % 256];
    }
    while |mask| < 16
      invariant bits <= 8 * |mask| && |mask| <= 16
      invariant mask == MaskBytes(bits, |mask|)
    {
      mask := mask + [0];
    }
    r := AndBytes(ip.value, mask) == AndBytes(prefix.value, mask);
    BytesPrefix(ip.value, prefix.value, bits);
  }

  /** Masking the bytes and comparing them is comparing the leading bits of the values. */
  lemma {:induction false} BytesPrefix(x: seq<Byte>, y: seq<Byte>, bits: nat)
    requires |x| == |y| && bits <= 8 * |x|
    ensures AndBytes(x, MaskBytes(bits, |x|)) == AndBytes(y, MaskBytes(bits, |x|))
       <==> Shr(Value(x), 8 * |x| - bits) == Shr(Value(y), 8 * |x| - bits)
    decreases |x|
  {
    if x != [] {
      var n := |x| - 1;
      var xs, ys, b, c := x[..n], y[..n], x[n], y[n];
      AndBytesSnoc(x, bits);
      AndBytesSnoc(y, bits);
      SnocEqual(AndBytes(xs, MaskBytes(bits, n)), And(b, MaskByte(bits, n)),
                AndBytes(ys, MaskBytes(bits, n)), And(c, MaskByte(bits, n)));
      if bits <= 8 * n {
        BytesPrefix(xs, ys, bits);
        LastByteDropped(Value(xs), b, Value(ys), c, bits, n);
      } else {
        FullBytes(xs, bits);
        FullBytes(ys, bits);
        ValueInjective(xs, ys);
        LastByteKept(Value(xs), b, Value(ys), c, bits, n);
      }
    }
  }

  // ---------------------------------------------------------------- the IPv6 table

  datatype Entry = Exact(address: seq<Byte>) | Prefix(address: seq<Byte>, bits: nat)

  predicate Packed(e: Entry) { |e.address| == 16 && (e.Prefix? ==> e.bits <= 128) }

  predicate Matches(ip: seq<Byte>, e: Entry)
    requires |ip| == 16 && Packed(e)
  {
    match e
    case Exact(address) => Value(ip) == Value(address)
    case Prefix(address, bits) => SamePrefix(Value(ip), Value(address), 128, bits)
  }

  /** The IPv6 part of `isPrivateOrReserved`. */
  method IsBlocked6(ip: seq<Byte>, table: seq<Entry>) returns (blocked: bool)
    requires |ip| == 16
    requires forall i :: 0 <= i < |table| ==> Packed(table[i])
    ensures blocked <==> Value(ip) <= 1 || exists i :: 0 <= i < |table| && Matches(ip, table[i])
  {
    if Value(ip) == 1 || Value(ip) == 0 {
      return true;
    }
    for i := 0 to |table|
      invariant forall j :: 0 <= j < i ==> !Matches(ip, table[j])
    {
      match table[i]
      case Prefix(address, bits) =>
        var inside := Ipv6InCidr(Some(ip), Some(address), bits);
        if inside { return true; }
      case Exact(address) =>
        ValueInjective(ip, address);
        if ip == address { return true; }
    }
    return false;
  }

  function BlockedIpv6(): seq<Entry> {
    [Exact(Zeros(15) + [1]), Exact(Zeros(16)), Prefix([0xfe, 0x80] + Zeros(14), 10),
     Prefix([0xfc] + Zeros(15), 7), Prefix([0xff] + Zeros(15), 8)]
  }

  /** Sharing a prefix with s followed by zero bytes is having the leading bits of s. */
  lemma PaddedPrefix(x: nat, s: seq<Byte>, n: nat, bits: nat, q: nat)
    requires |s| + n == 16 && 8 * n <= 128 - bits && bits <= 128
    requires Value(s) * Pow2(8 * n) == q * Pow2(128 - bits)
    ensures SamePrefix(x, Value(s + Zeros(n)), 128, bits) <==> x / Pow2(128 - bits) == q
  {
    ValuePadded(s, n);
    ShrIsQuotient(x, 128 - bits);
    ShrIsQuotient(q * Pow2(128 - bits), 128 - bits);
    QuotientInterval(x, q, Pow2(128 - bits));
  }

  /** The blocked IPv6 table by leading bits: loopback, unspecified, fe80::/10, fc00::/7, ff00::/8. */
  lemma BlockedIpv6Means(ip: seq<Byte>)
    requires |ip| == 16
    ensures
      var t, x := BlockedIpv6(), Value(ip);
      && (forall i :: 0 <= i < |t| ==> Packed(t[i]))
      && (Matches(ip, t[0]) <==> x == 1)
      && (Matches(ip, t[1]) <==> x == 0)
      && (Matches(ip, t[2]) <==> x / Pow2(118) == 0x3fa)
      && (Matches(ip, t[3]) <==> x / Pow2(121) == 0x7e)
      && (Matches(ip, t[4]) <==> x / Pow2(120) == 0xff)
  {
    ExactEntries();
    PrefixEntries(Value(ip));
  }

  lemma ExactEntries()
    ensures Value(Zeros(15) + [1]) == 1 && Value(Zeros(16)) == 0
  {
    ValueOfZeros(15);
    ValueOfZeros(16);
    assert (Zeros(15) + [1])[..15] == Zeros(15);
  }

  lemma PrefixEntries(x: nat)
    ensures SamePrefix(x, Value([0xfe, 0x80] + Zeros(14)), 128, 10) <==> x / Pow2(118) == 0x3fa
    ensures SamePrefix(x, Value([0xfc] + Zeros(15)), 128, 7) <==> x / Pow2(121) == 0x7e
    ensures SamePrefix(x, Value([0xff] + Zeros(15)), 128, 8) <==> x / Pow2(120) == 0xff
  {
    ValueShort(0xfe, 0x80);
    ValueShort(0xfc, 0);
    ValueShort(0xff, 0);
    Pow2Four(112);
    assert Pow2(118) == 4 * Pow2(116);
    PaddedPrefix(x, [0xfe, 0x80], 14, 10, 0x3fa);
    PaddedPrefix(x, [0xfc], 15, 7, 0x7e);
    PaddedPrefix(x, [0xff], 15, 8, 0xff);
  }
}
