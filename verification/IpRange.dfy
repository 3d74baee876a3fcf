/** pkg/util/ipallocator/allocator.go: a CIDR block (section 3.1 of RFC 4632) handed out address by address over an
    AllocationBitmap. Addresses are byte strings, blocks are a base value and a number of host bits. */
module IpRange {
  import opened Basics
  import opened Bits
  import Bitmap
  import opened Allocator

  type Address = seq<nat>

  /** net.IPNet: 32 or 128 bits, the network number, and how many low bits the mask leaves free. */
  datatype Cidr = Cidr(bits: nat, base: nat, hostBits: nat)

  ghost predicate ValidCidr(c: Cidr) {
    && (c.bits == 32 || c.bits == 128) && c.hostBits <= c.bits
    && Low(c.base, c.hostBits) == 0  // aligned
    && c.base + Power2(c.hostBits) <= Space(c.bits)
  }

  /** How many addresses a family has: two to the number of its bits. */
  function Space(bits: nat): nat {
    if bits == 32 then 0x1_0000_0000 else 0x1_0000_0000_0000_0000_0000_0000_0000_0000
  }

  /** ::ffff:a.b.c.d, which Go treats as an IPv4 address. */
  predicate Mapped(ip: Address) {
    |ip| == 16 && (forall i :: 0 <= i < 10 ==> ip[i] == 0) && ip[10] == 255 && ip[11] == 255
  }

  /** ip.To4() where it exists, otherwise ip itself. */
  function Short(ip: Address): Address { if Mapped(ip) then ip[12..] else ip }

  /** bigForIP: a slice that is no address at all counts as nil, whose value is 0. */
  function BigForIP(ip: Address): nat {
    if |Short(ip)| == 4 || |Short(ip)| == 16 then FromBytes(Short(ip)) else 0
  }

  /** IPNet.Contains: same family and same bits above the host part. */
  predicate NetContains(c: Cidr, ip: Address) {
    |Short(ip)| == Width(c) && High(FromBytes(Short(ip)), c.hostBits) == High(Net(c).base, c.hostBits)
  }

  /** The first value of ::ffff:0:0/96, where IPv4 addresses are mapped. */
  const V4_BASE := 0xffff_0000_0000

  /** A block written in IPv6 inside the mapped addresses. */
  predicate MappedBlock(c: Cidr) { c.bits == 128 && V4_BASE <= c.base < V4_BASE + 0x1_0000_0000 }

  /** The block as IPNet.Contains and bigForIP see it: a mapped one is shortened to IPv4. */
  function Net(c: Cidr): Cidr { if MappedBlock(c) then Cidr(32, c.base - V4_BASE, c.hostBits) else c }

  /** The bytes of an address that can be in the block. */
  function Width(c: Cidr): nat { Net(c).bits / 8 }

  /** The size is that of the mask as written, mapped or not. */
  function RangeSize(c: Cidr): nat {
    if (c.bits == 32 && c.hostBits >= 31) || (c.bits == 128 && c.hostBits >= 127) then 0
    else if c.bits == 128 && c.hostBits >= 16 then 65536
    else Power2(c.hostBits)
  }

  /** The usable addresses: all but the first and the last of the (capped) range. */
  function Max(c: Cidr): nat { if RangeSize(c) <= 2 then 0 else RangeSize(c) - 2 }

  function First(c: Cidr): nat { Net(c).base + 1 }

  /** The slice behind a big.Int's bytes: leading zero bytes are gone. */
  function AddIPOffset(base: nat, offset: nat): Address { Bytes(base + offset) }

  /** The address `index` above the network address, if the block recognises it. */
  function GetIndexedIP(c: Cidr, index: nat): Option<Address> {
    var ip := AddIPOffset(Net(c).base, index);
    if NetContains(c, ip) then Some(ip) else None
  }

  /** big.Int.Int64: the low 64 bits of the magnitude, read as a signed word, with the sign put back. */
  function Int64(x: int): int {
    var m := (if x < 0 then -x else x) % 0x1_0000_0000_0000_0000;
    var v := if m >= 0x8000_0000_0000_0000 then m - 0x1_0000_0000_0000_0000 else m;
    if x < 0 then -v else v
  }

  function CalculateIPOffset(base: nat, ip: Address): int { Int64(BigForIP(ip) - base) }

  function InRange(offset: int, max: nat): (bool, int) {
    if offset < 0 || offset >= max then (false, 0) else (true, offset)
  }

  /** Range.contains: the offset of an address of the range. */
  function Contains(c: Cidr, ip: Address): (bool, int) {
    if !NetContains(c, ip) then (false, 0) else InRange(CalculateIPOffset(First(c), ip), Max(c))
  }

  // ---- Powers of two ----

  lemma {:induction false} PowerMonotone(a: nat, b: nat)
    requires a <= b
    ensures 1 <= Power2(a) <= Power2(b)
    decreases b
  {
    if a < b { PowerMonotone(a, b - 1); }
    else if a > 0 { PowerMonotone(a - 1, b - 1); }
  }

  lemma {:induction false} NextBlock(p: nat, a: nat, b: nat)
    requires a < b
    ensures p * a + p <= p * b
    decreases b
  {
    if b > a + 1 { NextBlock(p, a, b - 1); }
    assert p * b == p * (b - 1) + p;
  }

  /** Blocks of length `p` do not overlap. */
  lemma SameBlock(p: nat, a: nat, b: nat, l: nat)
    requires l < p
    ensures a == b <==> p * a <= l + p * b < p * a + p
  {
    if a < b { NextBlock(p, a, b); }
    if b < a { NextBlock(p, b, a); }
  }

  /** Having the block's high bits is being in the block. */
  lemma MaskMeaning(c: Cidr, v: nat)
    requires ValidCidr(c)
    ensures High(v, c.hostBits) == High(c.base, c.hostBits) <==> c.base <= v < c.base + Power2(c.hostBits)
  {
    SplitValue(v, c.hostBits);
    SplitValue(c.base, c.hostBits);
    SameBlock(Power2(c.hostBits), High(c.base, c.hostBits), High(v, c.hostBits), Low(v, c.hostBits));
  }

  lemma {:induction false} PowerSum(a: nat, b: nat)
    ensures Power2(a + b) == Power2(a) * Power2(b)
    decreases a
  {
    if a > 0 {
      PowerSum(a - 1, b);
      var x, y := Power2(a - 1), Power2(b);
      assert 2 * (x * y) == (2 * x) * y;
    }
  }

  /** 2^32 and 2^33, the exponent kept symbolic so that nothing is unrolled. */
  lemma TwoTo32(bits: nat)
    requires bits == 32
    ensures Power2(bits) == 0x1_0000_0000 && Power2(bits + 1) == 0x2_0000_0000
  {
    var k: nat :| k == 4;
    PowerOfBytes(k);
    assert Power256(k) == 256 * Power256(k - 1) == 256 * 256 * Power256(k - 2);
    assert Power256(k - 2) == 256 * Power256(k - 3) == 256 * 256 * Power256(k - 4);
  }

  lemma SpaceIsPower(bits: nat)
    requires bits == 32 || bits == 128
    ensures Space(bits) == Power2(bits)
  {
    if bits == 32 {
      TwoTo32(bits);
    } else {
      var half: nat :| half == 64;
      TwoTo64(half);
      PowerSum(half, half);
    }
  }

  lemma Coarse(base: nat, h: nat) returns (q: nat)
    requires h >= 33 && Low(base, h) == 0
    ensures base == 0x2_0000_0000 * q
  {
    var k, p := High(base, h), Power2(h - 33);
    var bits: nat :| bits == 32;
    SplitValue(base, h);
    PowerSum(bits + 1, h - 33);
    TwoTo32(bits);
    q := p * k;
    Associate(0x2_0000_0000, p, k);
  }

  lemma Associate(a: nat, b: nat, c: nat)
    ensures a * (b * c) == (a * b) * c && a * (b * c) == b * (a * c)
  {}

  lemma TooCoarse(q: nat)
    ensures !(V4_BASE <= 0x2_0000_0000 * q < V4_BASE + 0x1_0000_0000)
  {}

  /** A mapped block has at most 32 host bits: a longer one would not be aligned. */
  lemma MappedIsNarrow(c: Cidr)
    requires ValidCidr(c) && MappedBlock(c)
    ensures c.hostBits <= 32
  {
    if c.hostBits > 32 {
      var q := Coarse(c.base, c.hostBits);
      TooCoarse(q);
    }
  }

  /** Multiples of a block's length are aligned. */
  lemma MultipleIsAligned(h: nat, k: nat)
    ensures Low(Power2(h) * k, h) == 0
  {
    var p, v := Power2(h), Power2(h) * k;
    PowerMonotone(0, h);
    SplitValue(v, h);
    SameBlock(p, k, High(v, h), Low(v, h));
  }

  /** What Contains sees is again a block. */
  lemma NetIsValid(c: Cidr)
    requires ValidCidr(c)
    ensures ValidCidr(Net(c)) && Net(c).hostBits == c.hostBits && Net(c).bits == 8 * Width(c)
  {
    if MappedBlock(c) {
      MappedIsNarrow(c);
      var n := Net(c);
      assert Low(n.base, n.hostBits) == 0 && n.base + Power2(n.hostBits) <= Space(n.bits) by {
        MappedParts(c.base, c.hostBits, n.bits);
      }
    }
  }

  lemma MappedParts(base: nat, h: nat, bits: nat)
    requires bits == 32 && h <= bits && Low(base, h) == 0 && V4_BASE <= base < V4_BASE + 0x1_0000_0000
    ensures Low(base - V4_BASE, h) == 0 && base - V4_BASE + Power2(h) <= Space(bits)
  {
    var p, k, rest := BlockParts(base, h, bits);
    MappedMultiple(base, p, rest, k);
    LowOfMultiple(base - V4_BASE, h, k - 0xffff * rest);
  }

  /** An aligned address is a multiple of the block size, of which the IPv4 space holds a whole number. */
  lemma BlockParts(base: nat, h: nat, bits: nat) returns (p: nat, k: nat, rest: nat)
    requires bits == 32 && h <= bits && Low(base, h) == 0
    ensures p == Power2(h) && p >= 1 && base == p * k && p * rest == 0x1_0000_0000
  {
    p, rest, k := Power2(h), Power2(bits - h), High(base, h);
    assert base == p * k by { SplitValue(base, h); }
    assert p * rest == 0x1_0000_0000 by {
      PowerSum(h, bits - h);
      TwoTo32(bits);
    }
    assert p >= 1 by { PowerMonotone(0, h); }
  }

  lemma LowOfMultiple(m: nat, h: nat, n: nat)
    requires m == Power2(h) * n
    ensures Low(m, h) == 0
  {
    MultipleIsAligned(h, n);
  }

  lemma MappedMultiple(base: nat, p: nat, rest: nat, k: nat)
    requires p >= 1 && p * rest == 0x1_0000_0000 && base == p * k && V4_BASE <= base < V4_BASE + 0x1_0000_0000
    ensures k >= 0xffff * rest && base - V4_BASE == p * (k - 0xffff * rest) && base - V4_BASE + p <= 0x1_0000_0000
  {
    Associate(p, 0xffff, rest);
    MappedAligned(p, k, 0xffff * rest, rest);
  }

  lemma MappedAligned(p: nat, k: nat, n: nat, rest: nat)
    requires p >= 1 && p * rest == 0x1_0000_0000 && p * n <= p * k < p * n + 0x1_0000_0000
    ensures k >= n && p * (k - n) == p * k - p * n && p * (k - n) + p <= 0x1_0000_0000
  {
    if k < n { NextBlock(p, k, n); }
    if k - n >= rest { Scaled(p, rest, k - n); } else { NextBlock(p, k - n, rest); }
  }

  lemma Scaled(p: nat, a: nat, b: nat)
    requires a <= b
    ensures p * a <= p * b
  {
    if a < b { NextBlock(p, a, b); }
  }

  lemma PowerValues()
    ensures Power2(16) == 65536 && Power2(30) == 0x4000_0000
  {
    PowerOfBytes(2);
    PowerOfBytes(3);
    FourDoublings(24);
    assert Power2(30) == 2 * Power2(29) == 4 * Power2(28);
  }

  lemma TwoTo64(bits: nat)
    requires bits == 64
    ensures Power2(bits) == 0x1_0000_0000_0000_0000
  {
    var half: nat :| half == 32;
    TwoTo32(half);
    PowerSum(half, half);
  }

  /** The capped range lies inside the block. */
  lemma MaxFits(c: Cidr)
    requires ValidCidr(c)
    ensures Max(c) > 0 ==> Max(c) + 2 <= Power2(c.hostBits)
    ensures Max(c) <= 0x4000_0000
  {
    PowerValues();
    if c.hostBits >= 16 { PowerMonotone(16, c.hostBits); }
    if c.hostBits <= 30 { PowerMonotone(c.hostBits, 30); }
  }

  function Power256(k: nat): nat { if k == 0 then 1 else 256 * Power256(k - 1) }

  lemma {:induction false} BytesLength(v: nat, k: nat)
    ensures |Bytes(v)| <= k <==> v < Power256(k)
    decreases v
  {
    if v > 0 {
      if k > 0 {
        BytesLength(v / 256, k - 1);
      }
    } else {
      PowerPositive(k);
    }
  }

  lemma {:induction false} PowerPositive(k: nat)
    ensures Power256(k) >= 1
  {
    if k > 0 { PowerPositive(k - 1); }
  }

  lemma {:induction false} PowerOfBytes(k: nat)
    ensures Power2(8 * k) == Power256(k)
  {
    if k > 0 {
      PowerOfBytes(k - 1);
      assert Power2(8 * k) == 256 * Power2(8 * (k - 1)) by { EightDoublings(8 * (k - 1)); }
    }
  }

  lemma EightDoublings(w: nat)
    ensures Power2(w + 8) == 256 * Power2(w)
  {
    FourDoublings(w);
    FourDoublings(w + 4);
  }

  lemma FourDoublings(w: nat)
    ensures Power2(w + 4) == 16 * Power2(w)
  {
    assert Power2(w + 2) == 2 * Power2(w + 1) == 4 * Power2(w);
    assert Power2(w + 4) == 2 * Power2(w + 3) == 4 * Power2(w + 2);
  }

  // ---- Offsets and addresses ----

  /** Distances inside a block of at most 64 host bits: Int64 keeps the usable ones and makes the others unusable. */
  lemma BlockDistance(h: nat, max: nat, x: int)
    requires h <= 64 && max <= 0x4000_0000 && -1 <= x < Power2(h)
    ensures InRange(Int64(x), max) == InRange(x, max)
  {
    var bits: nat :| bits == 64;
    PowerMonotone(h, bits);
    TwoTo64(bits);
  }

  /** With at most 64 host bits, `contains` accepts exactly the addresses of the block strictly between its first and
      last usable neighbours, and the offset it returns is the distance from the first one. */
  lemma ContainsMeaning(c: Cidr, ip: Address)
    requires ValidCidr(c) && c.hostBits <= 64
    ensures Contains(c, ip).0 <==> NetContains(c, ip) && First(c) <= BigForIP(ip) < First(c) + Max(c)
    ensures Contains(c, ip).0 ==> Contains(c, ip).1 == BigForIP(ip) - First(c)
  {
    if NetContains(c, ip) {
      NetIsValid(c);
      MaskMeaning(Net(c), BigForIP(ip));
      MaxFits(c);
      BlockDistance(c.hostBits, Max(c), BigForIP(ip) - First(c));
      assert Contains(c, ip) == InRange(BigForIP(ip) - First(c), Max(c));
    }
  }

  lemma BuiltLength(k: nat, v: nat)
    requires k > 0 && v < Power2(8 * k)
    ensures |Bytes(v)| <= k && (|Bytes(v)| == k <==> v >= Power256(k - 1))
  {
    BytesLength(v, k);
    BytesLength(v, k - 1);
    PowerOfBytes(k);
  }

  /** Bytes never start with zero, so they never look like an IPv4-mapped address. */
  lemma BuiltIsShort(v: nat)
    ensures Short(Bytes(v)) == Bytes(v)
  {
    BytesShape(v);
  }

  /** The address built for an offset is an address of the block's family exactly when its top byte is not zero:
      the byte string has lost its leading zeros. */
  lemma BuiltAddress(c: Cidr, v: nat)
    requires ValidCidr(c) && Net(c).base <= v < Net(c).base + Power2(c.hostBits)
    ensures NetContains(c, Bytes(v)) <==> v >= Power256(Width(c) - 1)
    ensures NetContains(c, Bytes(v)) ==> BigForIP(Bytes(v)) == v
  {
    NetIsValid(c);
    SpaceIsPower(Net(c).bits);
    BuiltLength(Width(c), v);
    BuiltIsShort(v);
    BytesRoundTrip(v);
    MaskMeaning(Net(c), v);
  }

  lemma SmallOffset(x: nat)
    requires x < 0x4000_0000
    ensures Int64(x) == x
  {}

  lemma FoundAt(c: Cidr, ip: Address, offset: nat)
    requires NetContains(c, ip) && BigForIP(ip) == First(c) + offset && Int64(offset) == offset && offset < Max(c)
    ensures Contains(c, ip) == (true, offset)
  {
    assert CalculateIPOffset(First(c), ip) == offset;
  }

  /** For every usable offset: it is found again from the address handed out for it if that address has a non-zero top
      byte, and otherwise the range does not recognise its own address. */
  lemma OffsetRoundTrip(c: Cidr, offset: nat)
    requires ValidCidr(c) && offset < Max(c)
    ensures Contains(c, AddIPOffset(First(c), offset)) ==
            if First(c) + offset >= Power256(Width(c) - 1) then (true, offset) else (false, 0)
  {
    MaxFits(c);
    BuiltAddress(c, First(c) + offset);
    SmallOffset(offset);
    var ip := AddIPOffset(First(c), offset);
    if NetContains(c, ip) {
      FoundAt(c, ip, offset);
    }
  }

  /** What is promised of an address handed out for an offset: it is neither the network address nor the last address
      of the (capped) range, and it leads back to its offset exactly when its top byte is not zero. */
  ghost predicate HandsOut(c: Cidr, ip: Address, offset: nat)
    requires ValidCidr(c)
  {
    && FromBytes(ip) == First(c) + offset
    && Net(c).base < FromBytes(ip) < Net(c).base + RangeSize(c) - 1
    && Contains(c, ip) == if FromBytes(ip) >= Power256(Width(c) - 1) then (true, offset) else (false, 0)
  }

  lemma HandedOut(c: Cidr, offset: nat)
    requires ValidCidr(c) && offset < Max(c)
    ensures HandsOut(c, AddIPOffset(First(c), offset), offset)
  {
    OffsetRoundTrip(c, offset);
    BytesRoundTrip(First(c) + offset);
  }

  /** Two addresses never share an offset. */
  ghost predicate OffsetsFaithful(c: Cidr) {
    forall ip, other :: Contains(c, ip).0 && Contains(c, other) == Contains(c, ip) ==> BigForIP(ip) == BigForIP(other)
  }

  // ---- Full-width addresses ----

  /** The address of full width with this value. */
  function Pad(v: nat, width: nat): Address
    requires |Bytes(v)| <= width
  {
    seq(width - |Bytes(v)|, _ => 0) + Bytes(v)
  }

  lemma {:induction false} FromBytesConcat(a: seq<nat>, b: seq<nat>)
    ensures FromBytes(a + b) == FromBytes(a) * Power256(|b|) + FromBytes(b)
    decreases |b|
  {
    if b == [] {
      assert a + b == a;
    } else {
      var n := |b| - 1;
      assert (a + b)[..|a| + n] == a + b[..n];
      FromBytesConcat(a, b[..n]);
      var x, y := FromBytes(a), Power256(n);
      assert x * (256 * y) == 256 * (x * y);
    }
  }

  lemma {:induction false} FromBytesBound(b: seq<nat>)
    requires AreBytes(b)
    ensures FromBytes(b) < Power256(|b|)
    decreases |b|
  {
    if b != [] { FromBytesBound(b[..|b| - 1]); }
  }

  lemma {:induction false} FromZeros(n: nat)
    ensures FromBytes(seq(n, _ => 0)) == 0
  {
    if n > 0 {
      var z := seq(n, _ => 0);
      assert z[..n - 1] == seq(n - 1, _ => 0);
      FromZeros(n - 1);
    }
  }

  lemma PadValue(v: nat, width: nat)
    requires |Bytes(v)| <= width
    ensures FromBytes(Pad(v, width)) == v && |Pad(v, width)| == width && AreBytes(Pad(v, width))
  {
    BytesRoundTrip(v);
    BytesShape(v);
    ZerosBefore(width - |Bytes(v)|, Bytes(v));
  }

  lemma ZerosBefore(n: nat, b: seq<nat>)
    requires AreBytes(b)
    ensures var padded := seq(n, _ => 0) + b; FromBytes(padded) == FromBytes(b) && AreBytes(padded)
  {
    FromZeros(n);
    FromBytesConcat(seq(n, _ => 0), b);
  }

  /** A mapped address has a mapped value. */
  lemma MappedValue(ip: Address)
    requires Mapped(ip) && AreBytes(ip)
    ensures V4_BASE <= FromBytes(ip) < V4_BASE + 0x1_0000_0000
  {
    var zeros, ff, last: Address := seq(10, _ => 0), [255, 255], ip[12..];
    assert ip == (zeros + ff) + last;
    FromZeros(10);
    FromBytesConcat(zeros, ff);
    assert FromBytes(ff) == 65535 by {
      assert ff[..1] == [255] && [255][..0] == [];
      assert FromBytes([255]) == 255;
    }
    FromBytesConcat(zeros + ff, last);
    FromBytesBound(last);
    assert Power256(4) == 256 * 256 * 256 * 256 * Power256(0);
  }

  lemma FoundAtZero(c: Cidr, v: nat)
    requires ValidCidr(c) && Width(c) == 16 && First(c) <= v < Net(c).base + Power2(c.hostBits)
    requires !(V4_BASE <= v < V4_BASE + 0x1_0000_0000) && Int64(v - First(c)) == 0 && Max(c) > 0
    ensures |Bytes(v)| <= 16 && Contains(c, Pad(v, 16)) == (true, 0) && BigForIP(Pad(v, 16)) == v
  {
    NetIsValid(c);
    SpaceIsPower(Net(c).bits);
    BuiltLength(Width(c), v);
    PadValue(v, 16);
    var ip := Pad(v, 16);
    if Mapped(ip) { MappedValue(ip); }
    assert Short(ip) == ip;
    MaskMeaning(Net(c), v);
  }

  /** The first usable address and the one 2^64 above it both get offset 0. */
  lemma Aliases(c: Cidr)
    requires ValidCidr(c) && c.hostBits > 64 && Max(c) > 0
    ensures !OffsetsFaithful(c)
  {
    if MappedBlock(c) { MappedIsNarrow(c); }
    var bits: nat :| bits == 64;
    var step := Power2(bits);
    TwoTo64(bits);
    PowerMonotone(bits + 1, c.hostBits);
    assert Power2(bits + 1) == 2 * step;
    var v, w := First(c), First(c) + step;
    assert c.base == 0 || c.base >= 2 * step by {
      SplitValue(c.base, c.hostBits);
      if High(c.base, c.hostBits) > 0 { Scaled(Power2(c.hostBits), 1, High(c.base, c.hostBits)); }
    }
    FoundAtZero(c, v);
    FoundAtZero(c, w);
    assert Contains(c, Pad(v, 16)) == Contains(c, Pad(w, 16));
  }

  /** No value of a usable offset falls among the mapped addresses unless the whole block does. */
  lemma UsableNotMapped(c: Cidr, offset: nat)
    requires ValidCidr(c) && c.bits == 128 && !MappedBlock(c) && offset < Max(c)
    ensures !(V4_BASE <= c.base + 1 + offset < V4_BASE + 0x1_0000_0000)
  {
    MaxFits(c);
    if c.hostBits >= 33 {
      var q := Coarse(c.base, c.hostBits);
      BelowMapped(q, offset);
    } else {
      NarrowBlocks(c.base, c.hostBits);
    }
  }

  lemma BelowMapped(q: nat, offset: nat)
    requires offset < 0x4000_0000
    ensures !(V4_BASE <= 0x2_0000_0000 * q + 1 + offset < V4_BASE + 0x1_0000_0000)
  {}

  /** A block of at most 32 host bits that does not start among the mapped addresses does not reach them. */
  lemma NarrowBlocks(base: nat, h: nat)
    requires h <= 32 && Low(base, h) == 0 && !(V4_BASE <= base < V4_BASE + 0x1_0000_0000)
    ensures base < V4_BASE ==> base + Power2(h) <= V4_BASE
  {
    var bits: nat :| bits == 32;
    var p, rest, k := Power2(h), Power2(bits - h), High(base, h);
    assert base == p * k by { SplitValue(base, h); }
    assert p * rest == 0x1_0000_0000 by {
      PowerSum(h, bits - h);
      TwoTo32(bits);
    }
    BlocksEndBefore(p, rest, k);
  }

  lemma BlocksEndBefore(p: nat, rest: nat, k: nat)
    requires p * rest == 0x1_0000_0000
    ensures p * k < V4_BASE ==> p * k + p <= V4_BASE
  {
    Associate(p, 0xffff, rest);
    var n := 0xffff * rest;
    if k >= n { Scaled(p, n, k); } else { NextBlock(p, k, n); }
  }

  lemma PaddedIsShort(c: Cidr, offset: nat)
    requires ValidCidr(c) && offset < Max(c) && |Bytes(First(c) + offset)| <= Width(c)
    ensures Short(Pad(First(c) + offset, Width(c))) == Pad(First(c) + offset, Width(c))
  {
    var v := First(c) + offset;
    PadValue(v, Width(c));
    if Mapped(Pad(v, Width(c))) {
      MappedValue(Pad(v, Width(c)));
      UsableNotMapped(c, offset);
    }
  }

  /** Every usable offset has an address of full width that leads to it. */
  lemma OffsetHasAddress(c: Cidr, offset: nat)
    requires ValidCidr(c) && offset < Max(c)
    ensures |Bytes(First(c) + offset)| <= Width(c)
    ensures var ip := Pad(First(c) + offset, Width(c));
            |ip| == Width(c) && AreBytes(ip) && Contains(c, ip) == (true, offset) && BigForIP(ip) == First(c) + offset
  {
    var v := First(c) + offset;
    NetIsValid(c);
    MaxFits(c);
    SpaceIsPower(Net(c).bits);
    BuiltLength(Width(c), v);
    PadValue(v, Width(c));
    PaddedIsShort(c, offset);
    MaskMeaning(Net(c), v);
    SmallOffset(offset);
    FoundAt(c, Pad(v, Width(c)), offset);
  }

  /** The first address of 0.0.0.0/24 is built as one byte and rejected. */
  lemma ZeroBlockExample()
    ensures ValidCidr(Cidr(32, 0, 8)) && Max(Cidr(32, 0, 8)) == 254
    ensures Contains(Cidr(32, 0, 8), AddIPOffset(First(Cidr(32, 0, 8)), 0)) == (false, 0)
  {
    var c := Cidr(32, 0, 8);
    LowOfZero(8);
    EightDoublings(0);
    assert ValidCidr(c) && First(c) == 1;
    OffsetRoundTrip(c, 0);
    PowerPositive(3);
    assert Power256(3) == 256 * Power256(2) && Power256(2) == 256 * Power256(1);
  }

  lemma {:induction false} LowOfZero(w: nat)
    ensures Low(0, w) == 0
  {
    if w > 0 { LowOfZero(w - 1); }
  }

  /** No two addresses share an offset exactly when the block has at most 64 host bits (or no usable
      address at all). */
  lemma OffsetsFaithfulIff(c: Cidr)
    requires ValidCidr(c)
    ensures OffsetsFaithful(c) <==> c.hostBits <= 64 || Max(c) == 0
  {
    if c.hostBits <= 64 {
      forall ip, other | Contains(c, ip).0 && Contains(c, other) == Contains(c, ip)
        ensures BigForIP(ip) == BigForIP(other)
      {
        ContainsMeaning(c, ip);
        ContainsMeaning(c, other);
      }
    } else if Max(c) > 0 {
      Aliases(c);
    }
  }

  // ---- How many addresses a range has ----

  /** The block has an address at this distance above its second one, other than its last, that may be used: IPv4 blocks of
      at most 30 host bits are used up to the address before the last, IPv6 blocks of at most 126 so too but never beyond
      the 65534th, and the larger blocks of either family not at all. */
  ghost predicate HasOffset(c: Cidr, offset: int) {
    && 0 <= offset && offset + 2 < Power2(c.hostBits)
    && if c.bits == 32 then c.hostBits <= 30 else c.hostBits <= 126 && offset < 65534
  }

  lemma MaxMeaning(c: Cidr, offset: int)
    requires ValidCidr(c)
    ensures 0 <= offset < Max(c) <==> HasOffset(c, offset)
  {
    PowerValues();
    if c.hostBits >= 16 { PowerMonotone(16, c.hostBits); } else { PowerMonotone(c.hostBits, 16); }
  }

  /** These are exactly the offsets that some address leads to. */
  lemma UsableOffsetIff(c: Cidr, offset: int)
    requires ValidCidr(c)
    ensures (exists ip :: Contains(c, ip) == (true, offset)) <==> HasOffset(c, offset)
  {
    MaxMeaning(c, offset);
    if HasOffset(c, offset) { OffsetHasAddress(c, offset); }
  }

  /** With at most 64 host bits the addresses accepted are those of the block other than its first and its last, of an IPv6
      block only the first 65534 of them, and none of an IPv4 block with more than 30. */
  lemma UsableAddressIff(c: Cidr, ip: Address)
    requires ValidCidr(c) && c.hostBits <= 64
    ensures var v, first := FromBytes(Short(ip)), Net(c).base;
            Contains(c, ip).0 <==>
            && |Short(ip)| == Width(c) && first < v < first + Power2(c.hostBits) - 1
            && if c.bits == 32 then c.hostBits <= 30 else v <= first + 65534
  {
    NetIsValid(c);
    ContainsMeaning(c, ip);
    MaxMeaning(c, BigForIP(ip) - First(c));
    MaskMeaning(Net(c), FromBytes(Short(ip)));
  }

  /** An IPv4 address in its 16-byte form, ::ffff:a.b.c.d, counts as the address, and no such address is in a block of other
      IPv6 addresses. */
  lemma BothFormsAlike(c: Cidr, ip: Address)
    requires |ip| == 4
    ensures var long := [0, 0, 0, 0, 0, 0, 0, 0, 0, 0, 255, 255] + ip;
            Contains(c, long) == Contains(c, ip) && (Width(c) != 4 ==> !Contains(c, long).0)
  {
    var long := [0, 0, 0, 0, 0, 0, 0, 0, 0, 0, 255, 255] + ip;
    assert long[12..] == ip && Mapped(long);
    assert Short(ip) == ip == Short(long);
  }

  /** The bitmap after offsets were taken one by one. */
  function TakenAll(offsets: seq<nat>): nat {
    if offsets == [] then 0 else SetBit(TakenAll(offsets[..|offsets| - 1]), offsets[|offsets| - 1], 1)
  }

  /** After so many successful calls on an empty range so many bits are set, whichever they are. */
  lemma {:induction false} TakenCount(offsets: seq<nat>)
    requires forall i, j :: 0 <= i < j < |offsets| ==> offsets[i] != offsets[j]
    ensures |Ones(TakenAll(offsets))| == |offsets| && forall x :: x in Ones(TakenAll(offsets)) <==> x in offsets
    decreases |offsets|
  {
    if offsets == [] {
      PopCountOnes(0);
    } else {
      var init, last := offsets[..|offsets| - 1], offsets[|offsets| - 1];
      TakenCount(init);
      assert offsets == init + [last];
      OnesSetBit(TakenAll(init), last, 1);
      assert last !in Ones(TakenAll(init));
    }
  }

  // ---- Range ----

  datatype Outcome = Allocated | ErrNotInRange | ErrAllocated

  class Range {
    const cidr: Cidr
    const base: nat
    const max: nat
    const alloc: AllocationBitmap

    ghost predicate Valid()
      reads this, alloc
    {
      ValidCidr(cidr) && base == First(cidr) && max == Max(cidr) && alloc.max == max && alloc.Valid()
    }

    /** Only usable offsets are set. Every operation keeps this; only Restore of foreign data can break it. */
    ghost predicate NoStrays()
      reads this, alloc
    {
      Ones(alloc.taken) <= Usable(max)
    }

    constructor (cidr: Cidr, rangeSpec: string)
      requires ValidCidr(cidr)
      ensures Valid() && this.cidr == cidr && fresh(alloc) && alloc.taken == 0 && !alloc.contiguous && NoStrays()
      ensures base == Net(cidr).base + 1 && forall offset: int :: HasOffset(cidr, offset) <==> 0 <= offset < max
    {
      forall offset: int ensures HasOffset(cidr, offset) <==> 0 <= offset < Max(cidr) { MaxMeaning(cidr, offset); }
      var size: int := RangeSize(cidr);
      this.cidr := cidr;
      base := First(cidr);
      max := if size - 2 > 0 then size - 2 else 0;
      var bitmap := new AllocationBitmap(false, if size - 2 > 0 then size - 2 else 0, rangeSpec);
      alloc := bitmap;
    }

    method Allocate(ip: Address) returns (r: Outcome)
      requires Valid()
      modifies alloc
      ensures Valid() && (old(NoStrays()) ==> NoStrays())
      ensures r == if !Contains(cidr, ip).0 then ErrNotInRange
                   else if Contains(cidr, ip).1 in old(Ones(alloc.taken)) then ErrAllocated else Allocated
      ensures alloc.taken == if r == Allocated then SetBit(old(alloc.taken), Contains(cidr, ip).1, 1) else old(alloc.taken)
    {
      var (ok, offset) := Contains(cidr, ip);
      if !ok { return ErrNotInRange; }
      var taken := alloc.Allocate(offset);
      if !taken { return ErrAllocated; }
      return Allocated;
    }

    /** Succeeds exactly while the number of set bits is itself an offset of the block, so from an empty range as often as
        the block has usable addresses. Without stray bits it fails exactly when every usable address is taken; otherwise the address stands for an offset that was free and is now recorded. */
    method AllocateNext(start: nat) returns (ip: Address, ok: bool, ghost offset: nat)
      requires Valid() && (max > 0 ==> start < max)
      modifies alloc
      ensures Valid() && (old(NoStrays()) ==> NoStrays())
      ensures ok <==> |old(Ones(alloc.taken))| < max
      ensures ok <==> HasOffset(cidr, |old(Ones(alloc.taken))|)
      ensures old(NoStrays()) ==> (!ok <==> Full(old(alloc.taken), max))
      ensures !ok ==> ip == [] && alloc.taken == old(alloc.taken)
      ensures ok ==> offset < max && HandsOut(cidr, ip, offset)
      ensures ok ==> offset !in old(Ones(alloc.taken)) && alloc.taken == SetBit(old(alloc.taken), offset, 1)
    {
      PopCountOnes(alloc.taken);
      MaxMeaning(cidr, |Ones(alloc.taken)|);
      RefusalMeansFullIff(alloc.taken, max);
      var at, found := alloc.AllocateNext(start);
      if !found { return [], false, 0; }
      HandedOut(cidr, at);
      return AddIPOffset(base, at), true, at;
    }

    method Release(ip: Address)
      requires Valid()
      modifies alloc
      ensures Valid() && (old(NoStrays()) ==> NoStrays())
      ensures var (inside, offset) := Contains(cidr, ip);
              alloc.taken == if inside && offset in old(Ones(alloc.taken)) then SetBit(old(alloc.taken), offset, 0) else old(alloc.taken)
    {
      var (ok, offset) := Contains(cidr, ip);
      if !ok { return; }
      alloc.Release(offset);
    }

    method Has(ip: Address) returns (r: bool)
      requires Valid()
      ensures r <==> Contains(cidr, ip).0 && Contains(cidr, ip).1 in Ones(alloc.taken)
    {
      var (ok, offset) := Contains(cidr, ip);
      if !ok { return false; }
      r := alloc.Has(offset);
    }

    /** The calls of fn, None for nil; `offsets` are the set bits in ascending order. */
    method ForEach(w: nat) returns (calls: seq<Option<Address>>, ghost offsets: seq<nat>)
      requires Valid() && w > 0
      ensures forall i, j :: 0 <= i < j < |offsets| ==> offsets[i] < offsets[j]
      ensures forall x: nat :: x in offsets <==> x in Ones(alloc.taken)
      ensures |calls| == |offsets| && forall i :: 0 <= i < |calls| ==> calls[i] == GetIndexedIP(cidr, offsets[i] + 1)
    {
      var bits := Bitmap.ForEach(alloc.taken, w);
      OnesMeaning(alloc.taken);
      offsets := bits;
      calls := seq(|bits|, i requires 0 <= i < |bits| => GetIndexedIP(cidr, bits[i] + 1));
    }

    method Snapshot() returns (spec: string, data: seq<nat>)
      ensures spec == alloc.rangeSpec && FromBytes(data) == alloc.taken
    {
      spec, data := alloc.Snapshot();
    }

    /** The network must be the range's own, whose spelling is then the bitmap's too. */
    method Restore(net: Cidr, data: seq<nat>) returns (ok: bool)
      requires Valid()
      modifies alloc
      ensures Valid() && (ok <==> net == cidr)
      ensures alloc.taken == if ok then FromBytes(data) else old(alloc.taken)
    {
      if net != cidr { return false; }
      ok := alloc.Restore(alloc.rangeSpec, data);
    }
  }

  /** ForEach calls fn with the address of a recorded usable offset exactly when that address has a non-zero top byte, and
      with nil otherwise. So it lists exactly the allocated addresses if and only if none of them has a zero top byte. */
  lemma ForEachListsIff(c: Cidr, taken: nat)
    requires ValidCidr(c) && Ones(taken) <= Usable(Max(c))
    ensures forall x :: x in Ones(taken) ==>
              GetIndexedIP(c, x + 1) == if First(c) + x >= Power256(Width(c) - 1) then Some(AddIPOffset(First(c), x)) else None
    ensures (forall x :: x in Ones(taken) ==> GetIndexedIP(c, x + 1).Some?) <==>
            forall x :: x in Ones(taken) ==> First(c) + x >= Power256(Width(c) - 1)
  {
    MaxFits(c);
    forall x | x in Ones(taken)
      ensures GetIndexedIP(c, x + 1) == if First(c) + x >= Power256(Width(c) - 1) then Some(AddIPOffset(First(c), x)) else None
    {
      assert x in Usable(Max(c));
      BuiltAddress(c, First(c) + x);
    }
  }

  /** Allocating a free usable offset makes Has true of its address and Release of that address restores the exact
      previous bitmap, if and only if the address has a non-zero top byte. Otherwise Has stays false and Release leaves
      the bit set. */
  lemma AllocateReleaseRoundTrip(c: Cidr, taken: nat, offset: nat)
    requires ValidCidr(c) && offset < Max(c) && offset !in Ones(taken)
    ensures var ip := AddIPOffset(First(c), offset);
            var (inside, found) := Contains(c, ip);
            var after := SetBit(taken, offset, 1);
            var has := inside && found in Ones(after);
            var released := if has then SetBit(after, found, 0) else after;
            && (has <==> First(c) + offset >= Power256(Width(c) - 1))
            && (released == taken <==> First(c) + offset >= Power256(Width(c) - 1))
  {
    OffsetRoundTrip(c, offset);
    OnesMeaning(taken);
    BitBound(taken, offset);
    OnesSetBit(taken, offset, 1);
    ReleaseUndoes(taken, offset);
  }
}
