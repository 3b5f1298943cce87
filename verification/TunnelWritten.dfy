/**
 What ConfigTunnelEntry leaves in its three tables, in plain terms: which tables and
 actions a VXLAN and a GENEVE tunnel has, by family and port mode, under which keys and
 with which parameters; after one insert, and after every run of compatible tunnels.
 */
module TunnelWritten {
  import opened Bytes
  import opened OvsTypes
  import opened P4Runtime
  import opened Encoders
  import opened TunnelTable
  import opened TunnelTheorems
  import opened TunnelHistory
  import opened LearnOnce
  import opened Wrappers
  import opened Written

  // ---------- the three keys ----------

  predicate EncapTableIs(t: TunnelInfo, table: Table) {
    match (t.tunnelType, t.localIp.family, t.vlan.mode)
    case (Vxlan, AfInet, NativeUntagged) => table == VxlanEncapVlanPopMod
    case (Vxlan, AfInet, _) => table == VxlanEncapMod
    case (Vxlan, AfInet6, NativeUntagged) => table == VxlanEncapV6VlanPopMod
    case (Vxlan, AfInet6, _) => table == VxlanEncapV6Mod
    case (Geneve, AfInet, NativeUntagged) => table == GeneveEncapVlanPopMod
    case (Geneve, AfInet, _) => table == GeneveEncapMod
    case (Geneve, AfInet6, NativeUntagged) => table == GeneveEncapV6VlanPopMod
    case (Geneve, AfInet6, _) => table == GeneveEncapV6Mod
    case _ => false
  }

  predicate DecapTableIs(t: TunnelInfo, table: Table) {
    match (t.tunnelType, t.vlan.mode)
    case (Vxlan, NativeTagged) => table == VxlanDecapMod
    case (Vxlan, _) => table == VxlanDecapAndVlanPushMod
    case (Geneve, NativeTagged) => table == GeneveDecapMod
    case (Geneve, _) => table == GeneveDecapAndVlanPushMod
    case _ => false
  }

  /** The termination key: remote address, bridge and VNI. */
  function TermKeyOf(t: TunnelInfo): TableKey {
    if t.localIp.family.AfInet6? then
      TableKey(Ipv6TunnelTerm, [Match(BridgeId, [t.bridgeId]), Match(Ipv6Src, t.remoteIp.raw),
                                 Match(Vni, VniBytes(t.vni))])
    else
      TableKey(Ipv4TunnelTerm, [Match(Ipv4Src, t.remoteIp.raw[..4]), Match(BridgeId, [t.bridgeId]),
                                Match(Vni, VniBytes(t.vni))])
  }

  lemma KeysSay(t: TunnelInfo)
    requires WellFormed(t)
    ensures EncapTableIs(t, EncapKey(t).table) && EncapKey(t).matches == [Match(ModBlobPtr, VniBytes(t.vni))]
    ensures DecapTableIs(t, DecapKey(t).table) && DecapKey(t).matches == [Match(ModBlobPtr, VniBytes(t.vni))]
    ensures TermKey(t) == TermKeyOf(t)
  {
    ModBlobKeySays(EncapTable(t), t.vni);
    ModBlobKeySays(DecapTable(t), t.vni);
    TermKeysSay(t);
  }

  // ---------- the three actions ----------

  predicate SaysEncap(a: Action, t: TunnelInfo) {
    && EncapIdIs(t, a.id) && |a.params| == 5
    && ParamValue(a.params, SrcAddr) == Some(if t.localIp.family.AfInet6? then t.localIp.raw else t.localIp.raw[..4])
    && ParamValue(a.params, DstAddr) == Some(if t.localIp.family.AfInet6? then t.remoteIp.raw else t.remoteIp.raw[..4])
    && ParamValue(a.params, VniParam) == Some(VniBytes(t.vni))
    && SaysPorts(a, t.dstPort)
  }

  /** The bytes of dst_port exchanged, and next to it twice that number in 16 bits. */
  predicate SaysPorts(a: Action, dstPort: uint16) {
    var swapped := (dstPort % 256) * 256 + dstPort / 256;
    && ParamValue(a.params, DstPort).Some? && BigEndian(ParamValue(a.params, DstPort).value) == swapped
    && ParamValue(a.params, SrcPort).Some? && BigEndian(ParamValue(a.params, SrcPort).value) == (2 * swapped) % 0x1_0000
  }

  predicate EncapIdIs(t: TunnelInfo, id: ActionId) {
    match (t.tunnelType, t.localIp.family, t.vlan.mode)
    case (Vxlan, AfInet, NativeUntagged) => id == VxlanEncapVlanPop
    case (Vxlan, AfInet, _) => id == VxlanEncap
    case (Vxlan, AfInet6, NativeUntagged) => id == VxlanEncapV6VlanPop
    case (Vxlan, AfInet6, _) => id == VxlanEncapV6
    case (Geneve, AfInet, NativeUntagged) => id == GeneveEncapVlanPop
    case (Geneve, AfInet, _) => id == GeneveEncap
    case (Geneve, AfInet6, NativeUntagged) => id == GeneveEncapV6VlanPop
    case (Geneve, AfInet6, _) => id == GeneveEncapV6
    case _ => false
  }

  predicate SaysDecap(a: Action, t: TunnelInfo) {
    match (t.tunnelType, t.vlan.mode)
    case (Vxlan, NativeTagged) => a == Action(VxlanDecapOuterHdr, [])
    case (Vxlan, _) => a.id == VxlanDecapAndPushVlan && SaysVlanTag(a, t.vlan.portVlan)
    case (Geneve, NativeTagged) => a == Action(GeneveDecapOuterHdr, [])
    case (Geneve, _) => a.id == GeneveDecapAndPushVlan && SaysVlanTag(a, t.vlan.portVlan)
    case _ => false
  }

  predicate SaysTerm(a: Action, t: TunnelInfo) {
    && SaysTunnelId(a, t.vni)
    && match (t.tunnelType, t.vlan.mode)
       case (Vxlan, NativeUntagged) => a.id == SetVxlanDecapOuterHdrAndPushVlan
       case (Vxlan, _) => a.id == SetVxlanDecapOuterHdr
       case (Geneve, NativeUntagged) => a.id == SetGeneveDecapOuterHdrAndPushVlan
       case (Geneve, _) => a.id == SetGeneveDecapOuterHdr
       case _ => false
  }

  lemma SwappedPort(port: uint16)
    ensures Htons(port) == (port % 256) * 256 + port / 256
  {
    ByteAtShifts(port);
  }

  lemma PortsSay(a: Action, dstPort: uint16)
    requires ParamValue(a.params, DstPort) == Some(EncodePort(Htons(dstPort)))
    requires ParamValue(a.params, SrcPort) == Some(EncodePort(DoubledPort(dstPort)))
    ensures SaysPorts(a, dstPort)
  {
    SwappedPort(dstPort);
    PortDecodes(Htons(dstPort));
    DoubledPortMeaning(dstPort);
  }

  lemma AddrSays(ip: IpAddr, v6: bool)
    ensures AddrBytes(ip, v6) == if v6 then ip.raw else ip.raw[..4]
  {
    WordBytesInOrder(ip, 0);
    Ipv6Decodes(ip.raw);
  }

  lemma EncapIdSays(t: TunnelInfo)
    requires WellFormed(t)
    ensures EncapIdIs(t, EncapActionOf(t).id)
    ensures EncapActionOf(t) == EncapAction(EncapActionOf(t).id, t, t.localIp.family.AfInet6?)
  {
  }

  lemma EncapSays(t: TunnelInfo)
    requires WellFormed(t)
    ensures SaysEncap(EncapActionOf(t), t)
  {
    EncapIdSays(t);
    EncapParamsSay(EncapActionOf(t).id, t);
  }

  lemma EncapParamsSay(id: ActionId, t: TunnelInfo)
    requires EncapIdIs(t, id)
    ensures SaysEncap(EncapAction(id, t, t.localIp.family.AfInet6?), t)
  {
    var v6 := t.localIp.family.AfInet6?;
    EncapParamValues(id, t, v6);
    AddrSays(t.localIp, v6);
    AddrSays(t.remoteIp, v6);
    VniBytesSay(t.vni);
    PortsSay(EncapAction(id, t, v6), t.dstPort);
  }

  lemma DecapSays(t: TunnelInfo)
    requires WellFormed(t)
    ensures SaysDecap(DecapActionOf(t), t)
  {
    VlanParamsSay(DecapActionOf(t).id, t.vlan.portVlan);
  }

  lemma TermSays(t: TunnelInfo)
    requires WellFormed(t)
    ensures SaysTerm(TermAction(t), t)
  {
    TunnelIdSays(TermAction(t).id, t.vni);
  }

  // ---------- the store ----------

  /** The three entries of t are there, with the actions that u asks for. */
  predicate WrittenFor(s: Store, t: TunnelInfo, u: TunnelInfo) {
    && WrittenEncap(s, t, u) && WrittenDecap(s, t, u)
    && TermKeyOf(t) in s && SaysTerm(s[TermKeyOf(t)], u)
  }

  predicate WrittenEncap(s: Store, t: TunnelInfo, u: TunnelInfo) {
    exists table: Table :: EncapTableIs(t, table) &&
      var k := TableKey(table, [Match(ModBlobPtr, VniBytes(t.vni))]); k in s && SaysEncap(s[k], u)
  }

  predicate WrittenDecap(s: Store, t: TunnelInfo, u: TunnelInfo) {
    exists table: Table :: DecapTableIs(t, table) &&
      var k := TableKey(table, [Match(ModBlobPtr, VniBytes(t.vni))]); k in s && SaysDecap(s[k], u)
  }

  lemma HoldsSays(s: Store, t: TunnelInfo, u: TunnelInfo)
    requires WellFormed(t) && WellFormed(u) && Holds(s, t, u)
    ensures WrittenFor(s, t, u)
  {
    KeysSay(t);
    EncapSays(u);
    DecapSays(u);
    TermSays(u);
    assert EncapKey(t) == TableKey(EncapKey(t).table, [Match(ModBlobPtr, VniBytes(t.vni))]);
    assert DecapKey(t) == TableKey(DecapKey(t).table, [Match(ModBlobPtr, VniBytes(t.vni))]);
  }

  /** A successful insert leaves exactly what the tunnel asks for. */
  lemma InsertWrites(s: Store, t: TunnelInfo)
    requires WellFormed(t)
    ensures TunnelStep(s, Event(t, true)).1 == Ok ==> WrittenFor(TunnelStep(s, Event(t, true)).0, t, t)
  {
    InsertOutcome(s, t);
    if NonePresent(s, t) {
      KeysDistinct(t);
      HoldsSays(Installed(s, t), t, t);
    }
  }

  /** After every run of compatible tunnels: what the first insert after the last delete asked for. */
  lemma {:induction false} InstalledWrites(events: seq<Event>, t: TunnelInfo, i: int)
    requires WellFormed(t) && PairwiseCompatible(events)
    requires forall e :: e in events && WellFormed(e.info) ==> Compatible(e.info, t)
    requires Holder(TunnelMeanings(events), EncapKey(t), i)
    ensures events[i].insert && WellFormed(events[i].info)
    ensures WrittenFor(TunnelRun(map[], events), t, events[i].info)
  {
    InstalledLaw(events, t);
    HoldsSays(TunnelRun(map[], events), t, events[i].info);
  }
}
