/**
 Byte strings: the encode utilities that turn integers into the values carried by
 P4Runtime match fields and action parameters, and the decoders they are measured
 against.  A shift right by 8n is a division by 256^n, a mask by 0xff a remainder.
 */
module Bytes {

  type byte = x: int | 0 <= x < 256
  type uint16 = x: int | 0 <= x < 0x1_0000
  type uint32 = x: int | 0 <= x < 0x1_0000_0000
  type uint64 = x: int | 0 <= x < 0x1_0000_0000_0000_0000

  type Mac = m: seq<byte> | |m| == 6 witness [0, 0, 0, 0, 0, 0]
  type Ipv6 = a: seq<byte> | |a| == 16
    witness [0, 0, 0, 0, 0, 0, 0, 0, 0, 0, 0, 0, 0, 0, 0, 0]

  // ---------- decoders ----------

  /** The value of a byte string, most significant byte first. */
  function BigEndian(bs: seq<byte>): (n: nat)
  {
    if bs == [] then 0 else BigEndian(bs[..|bs| - 1]) * 256 + bs[|bs| - 1]
  }

  /** The value of a byte string, least significant byte first. */
  function LittleEndian(bs: seq<byte>): (n: nat)
  {
    if bs == [] then 0 else bs[0] + 256 * LittleEndian(bs[1..])
  }

  function Reverse<T>(s: seq<T>): (r: seq<T>)
    ensures |r| == |s|
  {
    if s == [] then [] else Reverse(s[1..]) + [s[0]]
  }

  lemma {:induction false} LittleEndianReverses(bs: seq<byte>)
    ensures LittleEndian(bs) == BigEndian(Reverse(bs))
  {
    if bs != [] {
      LittleEndianReverses(bs[1..]);
      var r := Reverse(bs);
      assert r[..|r| - 1] == Reverse(bs[1..]);
    }
  }

  lemma {:induction false} BigEndianAppend(a: seq<byte>, b: seq<byte>)
    ensures BigEndian(a + b) == BigEndian(a) * Pow256(|b|) + BigEndian(b)
  {
    if b == [] {
      assert a + b == a;
    } else {
      var b' := b[..|b| - 1];
      BigEndianAppend(a, b');
      assert (a + b)[..|a + b| - 1] == a + b';
      MulAssoc(BigEndian(a), Pow256(|b'|));
    }
  }

  lemma MulAssoc(x: nat, y: nat)
    ensures x * y * 256 == x * (256 * y)
  {
  }

  function Pow256(n: nat): (p: nat)
    ensures p >= 1
  {
    if n == 0 then 1 else 256 * Pow256(n - 1)
  }

  /** P4Runtime values may carry leading zero bytes: they do not change the number. */
  lemma {:induction false} LeadingZeros(k: nat, bs: seq<byte>)
    ensures BigEndian(Zeros(k) + bs) == BigEndian(bs)
  {
    BigEndianAppend(Zeros(k), bs);
    ZerosAreZero(k);
  }

  function Zeros(k: nat): seq<byte> { seq(k, _ => 0) }

  lemma {:induction false} ZerosAreZero(k: nat)
    ensures BigEndian(Zeros(k)) == 0
  {
    if k > 0 {
      assert Zeros(k)[..k - 1] == Zeros(k - 1);
      ZerosAreZero(k - 1);
    }
  }

  // ---------- encoders ----------

  /** What EncodeByteValue returns: the arguments, each truncated to eight bits. */
  function ByteString(args: seq<int>): (r: seq<byte>)
    ensures |r| == |args|
    ensures forall i :: 0 <= i < |args| ==> r[i] == args[i] % 256
  {
    seq(|args|, i requires 0 <= i < |args| => args[i] % 256)
  }

  method EncodeByteValue(args: seq<int>) returns (byteValue: seq<byte>)
    ensures byteValue == ByteString(args)
  {
    byteValue := [];
    for arg := 0 to |args|
      invariant byteValue == ByteString(args)[..arg]
    {
      byteValue := byteValue + [args[arg] % 256];
    }
  }

  /** Byte i of a number, counted from the low end: (x >> 8 * i) & 0xff. */
  function ByteAt(x: nat, i: nat): byte
    decreases x + i
  {
    if i == 0 then x % 256 else ByteAt(x / 256, i - 1)
  }

  function CanonicalizeIp(ipv4addr: uint32): seq<byte> {
    ByteString([ByteAt(ipv4addr, 0), ByteAt(ipv4addr, 1), ByteAt(ipv4addr, 2), ByteAt(ipv4addr, 3)])
  }

  function CanonicalizeIpv6(a: Ipv6): seq<byte> {
    ByteString([a[0], a[1], a[2], a[3], a[4], a[5], a[6], a[7],
                a[8], a[9], a[10], a[11], a[12], a[13], a[14], a[15]])
  }

  function CanonicalizeMac(mac: Mac): seq<byte> {
    ByteString([mac[0] % 256, mac[1] % 256, mac[2] % 256, mac[3] % 256, mac[4] % 256, mac[5] % 256])
  }

  function EncodeTunnelId(vni: uint32): seq<byte> {
    ByteString([ByteAt(vni, 2) % 16, ByteAt(vni, 1), ByteAt(vni, 0)])
  }

  function EncodeVniValue(vni: uint32): seq<byte> {
    ByteString([ByteAt(vni, 2), ByteAt(vni, 1), ByteAt(vni, 0)])
  }

  /** The two-byte idiom used for ports: high byte, low byte. */
  function EncodePort(port: uint16): seq<byte> {
    ByteString([ByteAt(port, 1), ByteAt(port, 0)])
  }

  /** htons on a little-endian host. */
  function Htons(x: uint16): uint16 { ByteAt(x, 0) * 0x100 + ByteAt(x, 1) }

  // ---------- division ----------

  lemma MulMonotone(a: nat, b: nat, c: nat)
    requires a <= b
    ensures a * c <= b * c
  {
    assert b * c == a * c + (b - a) * c;
  }

  lemma MulGap(a: nat, b: nat, d: nat)
    requires a < b
    ensures a * d + d <= b * d
  {
    MulMonotone(a + 1, b, d);
    assert (a + 1) * d == a * d + d;
  }

  /** Quotient and remainder are unique. */
  lemma DivModUnique(x: nat, d: nat, k: nat, r: nat)
    requires r < d && x == k * d + r
    ensures x / d == k && x % d == r
  {
    var q := x / d;
    assert x == q * d + x % d;
    if q < k {
      MulGap(q, k, d);
    } else if k < q {
      MulGap(k, q, d);
    }
  }

  lemma DivDiv(c: nat, a: nat)
    requires a > 0
    ensures c / (a * 256) == (c / a) / 256
  {
    var q, r := c / a, c % a;
    var k, m := q / 256, q % 256;
    assert c == q * a + r && q == k * 256 + m;
    assert q * a == k * (a * 256) + m * a;
    MulGap(m, 256, a);
    DivModUnique(c, a * 256, k, m * a + r);
  }

  lemma Quotient(q: nat, p: nat)
    requires p > 0
    ensures q == (q / p) * p + q % p && q % p < p
  {
  }

  /** A remainder mod d == 256 * p is made of the last byte and the rest mod p. */
  lemma ModStep(c: nat, p: nat, d: nat)
    requires p > 0 && d == 256 * p
    ensures c % d == ((c / 256) % p) * 256 + c % 256
  {
    var q, r := c / 256, c % 256;
    Quotient(q, p);
    Digits(c, d, p, q, r, q / p, q % p);
  }

  lemma Digits(c: nat, d: nat, p: nat, q: nat, r: nat, k: nat, m: nat)
    requires d == 256 * p && c == q * 256 + r && r < 256 && q == k * p + m && m < p
    ensures c % d == m * 256 + r && c / d == k
  {
    assert k * d == 256 * (k * p);
    DivModUnique(c, d, k, m * 256 + r);
  }

  // ---------- the low bytes of a number ----------

  /** The n low bytes of a number, most significant first. */
  function LowBytesOf(c: nat, n: nat): (r: seq<byte>)
    ensures |r| == n
  {
    if n == 0 then [] else LowBytesOf(c / 256, n - 1) + [c % 256]
  }

  /** Numbers have the same n low bytes exactly when they agree mod 256^n. */
  lemma {:induction false} LowBytesEqual(c: nat, d: nat, n: nat)
    ensures LowBytesOf(c, n) == LowBytesOf(d, n) <==> c % Pow256(n) == d % Pow256(n)
  {
    if n > 0 {
      LowBytesEqual(c / 256, d / 256, n - 1);
      ModStep(c, Pow256(n - 1), Pow256(n));
      ModStep(d, Pow256(n - 1), Pow256(n));
      var u, v := LowBytesOf(c / 256, n - 1), LowBytesOf(d / 256, n - 1);
      assert (u + [c % 256])[..n - 1] == u && (v + [d % 256])[..n - 1] == v;
      assert (u + [c % 256])[n - 1] == c % 256 && (v + [d % 256])[n - 1] == d % 256;
    }
  }

  /** The n low bytes are worth the number mod 256^n. */
  lemma {:induction false} LowBytesDecode(c: nat, n: nat)
    ensures BigEndian(LowBytesOf(c, n)) == c % Pow256(n)
  {
    if n > 0 {
      LowBytesDecode(c / 256, n - 1);
      ModStep(c, Pow256(n - 1), Pow256(n));
      var r := LowBytesOf(c, n);
      assert r[..n - 1] == LowBytesOf(c / 256, n - 1);
    }
  }

  // The same bytes by division and remainder.

  lemma {:induction false} LowBytes2(c: nat)
    ensures LowBytesOf(c, 2) == [(c / 0x100) % 256, c % 256]
  {
    LowBytesSnoc(c, c / 0x100, 2);
    LowBytesSnoc(c / 0x100, c / 0x100 / 256, 1);
  }

  lemma {:induction false} LowBytes3(c: nat)
    ensures LowBytesOf(c, 3) == [(c / 0x1_0000) % 256, (c / 0x100) % 256, c % 256]
  {
    DivDiv(c, 0x100);
    LowBytesSnoc(c, c / 0x100, 3);
    LowBytes2(c / 0x100);
  }

  lemma {:induction false} LowBytes4(c: nat)
    ensures LowBytesOf(c, 4) == [(c / 0x100_0000) % 256, (c / 0x1_0000) % 256, (c / 0x100) % 256, c % 256]
  {
    Shifted(c, 0x100);
    Shifted(c, 0x1_0000);
    LowBytesSnoc(c, c / 0x100, 4);
    LowBytes3(c / 0x100);
  }

  lemma {:induction false} LowBytes5(c: nat)
    ensures LowBytesOf(c, 5) ==
            [(c / 0x1_0000_0000) % 256, (c / 0x100_0000) % 256, (c / 0x1_0000) % 256, (c / 0x100) % 256, c % 256]
  {
    Shifted(c, 0x100);
    Shifted(c, 0x1_0000);
    Shifted(c, 0x100_0000);
    LowBytesSnoc(c, c / 0x100, 5);
    LowBytes4(c / 0x100);
  }

  lemma {:induction false} LowBytes6(c: nat)
    ensures LowBytesOf(c, 6) ==
            [(c / 0x100_0000_0000) % 256, (c / 0x1_0000_0000) % 256, (c / 0x100_0000) % 256,
             (c / 0x1_0000) % 256, (c / 0x100) % 256, c % 256]
  {
    Shifted(c, 0x100);
    Shifted(c, 0x1_0000);
    Shifted(c, 0x100_0000);
    Shifted(c, 0x1_0000_0000);
    LowBytesSnoc(c, c / 0x100, 6);
    LowBytes5(c / 0x100);
  }

  lemma Shifted(c: nat, a: nat)
    requires a > 0
    ensures (c / 256) / a == c / (a * 256)
  {
    var q, r := c / 256, c % 256;
    Quotient(q, a);
    Digits(c, 256 * a, a, q, r, q / a, q % a);
  }

  lemma LowBytesSnoc(c: nat, q: nat, n: nat)
    requires q == c / 256 && n > 0
    ensures LowBytesOf(c, n) == LowBytesOf(q, n - 1) + [c % 256]
  {
  }

  /** Shifting by whole bytes and masking picks these bytes. */
  lemma {:induction false} ByteAtShifts(x: nat)
    ensures ByteAt(x, 0) == x % 256 && ByteAt(x, 1) == (x / 0x100) % 256
    ensures ByteAt(x, 2) == (x / 0x1_0000) % 256 && ByteAt(x, 3) == (x / 0x100_0000) % 256
  {
    DivDiv(x, 0x100);
    DivDiv(x, 0x1_0000);
    var y, z := x / 0x100, x / 0x1_0000;
    assert ByteAt(x, 1) == ByteAt(y, 0);
    assert ByteAt(x, 2) == ByteAt(y, 1) == ByteAt(z, 0);
    assert ByteAt(x, 3) == ByteAt(y, 2) == ByteAt(z, 1) == ByteAt(x / 0x100_0000, 0);
  }

  // ---------- what the encoders mean ----------

  lemma ThreeBytes(a: byte, b: byte, c: byte)
    ensures ByteString([a, b, c]) == [a, b, c]
  {
  }

  lemma {:induction false} VniIsLowBytes(vni: uint32)
    ensures EncodeVniValue(vni) == LowBytesOf(vni, 3)
  {
    LowBytes3(vni);
    ByteAtShifts(vni);
    ThreeBytes((vni / 0x1_0000) % 256, (vni / 0x100) % 256, vni % 256);
  }

  lemma VniDecodes(vni: uint32)
    ensures BigEndian(EncodeVniValue(vni)) == vni % 0x100_0000
  {
    VniIsLowBytes(vni);
    LowBytesDecode(vni, 3);
    assert Pow256(3) == 0x100_0000;
  }

  lemma TunnelIdDecodes(vni: uint32)
    ensures BigEndian(EncodeTunnelId(vni)) == vni % 0x10_0000
  {
    TunnelIdSplit(vni, (vni / 0x1_0000) % 16);
    var q, r := vni / 0x1_0000, vni % 0x1_0000;
    DivModUnique(vni, 0x10_0000, q / 16, (q % 16) * 0x1_0000 + r);
  }

  lemma TunnelIdSplit(vni: uint32, a: byte)
    requires a == (vni / 0x1_0000) % 16
    ensures BigEndian(EncodeTunnelId(vni)) == a * 0x1_0000 + vni % 0x1_0000
  {
    TunnelIdBytes(vni, a);
    BigEndianAppend([a], LowBytesOf(vni, 2));
    BigEndianOne(a);
    LowBytesDecode(vni, 2);
    assert Pow256(2) == 0x1_0000;
  }

  lemma {:induction false} TunnelIdBytes(vni: uint32, a: byte)
    requires a == (vni / 0x1_0000) % 16
    ensures EncodeTunnelId(vni) == [a] + LowBytesOf(vni, 2)
  {
    LowBytes2(vni);
    ByteAtShifts(vni);
    ThreeBytes(a, (vni / 0x100) % 256, vni % 256);
    Nibble(vni / 0x1_0000);
  }

  lemma Nibble(x: nat)
    ensures (x % 256) % 16 == x % 16
  {
  }

  lemma BigEndianOne(a: byte)
    ensures BigEndian([a]) == a
  {
    assert [a][..0] == [];
  }

  /** Two VNIs share a table key exactly when they agree mod 2^24. */
  lemma VniKeyEqual(a: uint32, b: uint32)
    ensures EncodeVniValue(a) == EncodeVniValue(b) <==> a % 0x100_0000 == b % 0x100_0000
  {
    VniIsLowBytes(a);
    VniIsLowBytes(b);
    LowBytesEqual(a, b, 3);
    assert Pow256(3) == 0x100_0000;
  }

  lemma FourBytes(a: byte, b: byte, c: byte, d: byte)
    ensures ByteString([a, b, c, d]) == [a, b, c, d]
  {
  }

  lemma ReverseFour(a: byte, b: byte, c: byte, d: byte)
    ensures Reverse([a, b, c, d]) == [d, c, b, a]
  {
    assert [a, b, c, d][1..] == [b, c, d] && [b, c, d][1..] == [c, d] && [c, d][1..] == [d] && [d][1..] == [];
    assert Reverse([d]) == [d];
    assert Reverse([c, d]) == [d, c];
    assert Reverse([b, c, d]) == [d, c, b];
  }

  /** An IPv4 address is written low byte first: read backwards it is the word itself. */
  lemma Ipv4Decodes(addr: uint32)
    ensures |CanonicalizeIp(addr)| == 4
    ensures LittleEndian(CanonicalizeIp(addr)) == addr
    ensures BigEndian(Reverse(CanonicalizeIp(addr))) == addr
  {
    Ipv4Reversed(addr);
    BackwardDecodes(CanonicalizeIp(addr), addr);
  }

  lemma {:induction false} BackwardDecodes(e: seq<byte>, addr: uint32)
    requires Reverse(e) == LowBytesOf(addr, 4)
    ensures LittleEndian(e) == addr && BigEndian(Reverse(e)) == addr
  {
    LowBytesDecode(addr, 4);
    assert Pow256(4) == 0x1_0000_0000;
    LittleEndianReverses(e);
  }

  lemma {:induction false} Ipv4Reversed(addr: uint32)
    ensures Reverse(CanonicalizeIp(addr)) == LowBytesOf(addr, 4)
  {
    LowBytes4(addr);
    ByteAtShifts(addr);
    Ipv4ReversedBytes(addr, addr % 256, (addr / 0x100) % 256, (addr / 0x1_0000) % 256, (addr / 0x100_0000) % 256);
  }

  lemma Ipv4ReversedBytes(addr: uint32, a: byte, b: byte, c: byte, d: byte)
    requires CanonicalizeIp(addr) == ByteString([a, b, c, d])
    ensures Reverse(CanonicalizeIp(addr)) == [d, c, b, a]
  {
    FourBytes(a, b, c, d);
    ReverseFour(a, b, c, d);
  }

  lemma Ipv4KeyEqual(a: uint32, b: uint32)
    ensures CanonicalizeIp(a) == CanonicalizeIp(b) <==> a == b
  {
    Ipv4Decodes(a);
    Ipv4Decodes(b);
  }

  lemma MacDecodes(mac: Mac)
    ensures CanonicalizeMac(mac) == mac
  {
  }

  lemma Ipv6Decodes(a: Ipv6)
    ensures CanonicalizeIpv6(a) == a
  {
  }

  /**
   The source port written next to dst_port is twice the swapped port, cut to 16 bits.
   Read back in the byte order of dst_port it is 2 * dst_port exactly when neither
   byte of dst_port has its top bit set.
   */
  function DoubledPort(dstPort: uint16): uint16 { (Htons(dstPort) * 2) % 0x1_0000 }

  lemma PortDecodes(port: uint16)
    ensures BigEndian(EncodePort(port)) == port
  {
    LowBytes2(port);
    ByteAtShifts(port);
    LowBytesDecode(port, 2);
    assert Pow256(2) == 0x1_0000;
    TwoBytes((port / 0x100) % 256, port % 256);
  }

  lemma OneByte(x: int)
    ensures ByteString([x]) == [x % 256]
  {
  }

  lemma TwoBytes(a: byte, b: byte)
    ensures ByteString([a, b]) == [a, b]
  {
  }

  lemma HtonsParts(hi: byte, lo: byte)
    ensures Htons(hi * 0x100 + lo) == lo * 0x100 + hi
  {
    DivModUnique(hi * 0x100 + lo, 0x100, hi, lo);
    ByteAtShifts(hi * 0x100 + lo);
  }

  lemma HtonsInvolution(x: uint16)
    ensures Htons(Htons(x)) == x
  {
    HtonsParts(x / 0x100, x % 0x100);
    HtonsParts(x % 0x100, x / 0x100);
  }

  lemma DoubledPortMeaning(dstPort: uint16)
    ensures BigEndian(EncodePort(DoubledPort(dstPort))) == (2 * Htons(dstPort)) % 0x1_0000
    ensures Htons(DoubledPort(dstPort)) == 2 * dstPort <==> dstPort / 0x100 < 128 && dstPort % 0x100 < 128
  {
    PortDecodes(DoubledPort(dstPort));
    DoubledParts(dstPort / 0x100, dstPort % 0x100);
  }

  lemma DoubledParts(hi: byte, lo: byte)
    ensures Htons(DoubledPort(hi * 0x100 + lo)) == 2 * (hi * 0x100 + lo) <==> hi < 128 && lo < 128
  {
    HtonsParts(hi, lo);
    var low: int := if lo < 128 then lo else lo - 128;
    var doubled := low * 0x200 + 2 * hi;
    DivModUnique((lo * 0x100 + hi) * 2, 0x1_0000, if lo < 128 then 0 else 1, doubled);
    if hi < 128 {
      HtonsParts(2 * low, 2 * hi);
    } else {
      HtonsParts(2 * low + 1, 2 * hi - 0x100);
    }
  }
}
