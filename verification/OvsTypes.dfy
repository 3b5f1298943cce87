/** The structures that Open vSwitch passes to the ovs-p4rt entry points. */
module OvsTypes {
  import opened Bytes

  datatype Family = AfInet | AfInet6 | AfOther

  /** p4_ipaddr: the address union is its sixteen bytes. */
  datatype IpAddr = IpAddr(family: Family, raw: Ipv6)

  function JoinBytes(a: int, b: int, c: int, d: int): int { a + 0x100 * b + 0x1_0000 * c + 0x100_0000 * d }

  /** The i-th 32-bit word of the union, as a little-endian host reads it. */
  function Word(ip: IpAddr, i: nat): uint32
    requires i < 4
  {
    JoinBytes(ip.raw[4 * i], ip.raw[4 * i + 1], ip.raw[4 * i + 2], ip.raw[4 * i + 3])
  }

  /** v4addr.s_addr */
  function V4Addr(ip: IpAddr): uint32 { Word(ip, 0) }

  datatype VlanMode = Access | Trunk | NativeTagged | NativeUntagged | Dot1qTunnel | Unsupported

  datatype PortVlanInfo = PortVlanInfo(mode: VlanMode, portVlan: int)

  datatype TunnelType = Unknown | Vxlan | Geneve

  datatype TunnelInfo = TunnelInfo(
    srcPort: uint32,
    localIp: IpAddr,
    remoteIp: IpAddr,
    dstPort: uint16,
    vni: uint32,
    vlan: PortVlanInfo,
    bridgeId: byte,
    tunnelType: TunnelType) {

    predicate BothV4() { localIp.family.AfInet? && remoteIp.family.AfInet? }

    predicate BothV6() { localIp.family.AfInet6? && remoteIp.family.AfInet6? }

    predicate Untagged() { vlan.mode.NativeUntagged? }
  }

  datatype MacLearningInfo = MacLearningInfo(
    isTunnel: bool,
    mac: Mac,
    bridgeId: byte,
    srcPort: uint32,
    rxSrcPort: uint32,
    vlan: PortVlanInfo,
    tnl: TunnelInfo)

  datatype IpMacMapInfo = IpMacMapInfo(srcMac: Mac, dstMac: Mac, srcIp: IpAddr, dstIp: IpAddr)

  /** A word read from the union and written by CanonicalizeIp gives back its bytes. */
  lemma WordBytesInOrder(ip: IpAddr, i: nat)
    requires i < 4
    ensures CanonicalizeIp(Word(ip, i)) == ip.raw[4 * i..4 * i + 4]
  {
    var r := ip.raw;
    SplitWord(r[4 * i], r[4 * i + 1], r[4 * i + 2], r[4 * i + 3]);
    IpBytes(Word(ip, i), r[4 * i], r[4 * i + 1], r[4 * i + 2], r[4 * i + 3]);
  }

  lemma IpBytes(w: uint32, a: byte, b: byte, c: byte, d: byte)
    requires w % 256 == a && (w / 0x100) % 256 == b && (w / 0x1_0000) % 256 == c && (w / 0x100_0000) % 256 == d
    ensures CanonicalizeIp(w) == [a, b, c, d]
  {
    ByteAtShifts(w);
    calc {
      CanonicalizeIp(w);
      ByteString([a, b, c, d]);
      { FourBytes(a, b, c, d); }
      [a, b, c, d];
    }
  }

  lemma SplitWord(a: byte, b: byte, c: byte, d: byte)
    ensures var w := JoinBytes(a, b, c, d);
            w % 256 == a && (w / 0x100) % 256 == b && (w / 0x1_0000) % 256 == c && (w / 0x100_0000) % 256 == d
  {
    var b', c', d': int := b, c, d;
    var w := JoinBytes(a, b, c, d);
    assert w / 0x100 == b' + 0x100 * c' + 0x1_0000 * d';
    assert w / 0x1_0000 == c' + 0x100 * d';
    assert w / 0x100_0000 == d';
  }
}
