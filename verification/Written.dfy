/**
 What the encoders write, in plain terms: tables, fields, action and parameter ids as
 constructors, values as bytes, parameters found by their id.  Nothing here is promised
 through the functions of Encoders; each lemma ties one of them to what it must write.
 */
module Written {
  import opened Bytes
  import opened OvsTypes
  import opened P4Runtime
  import opened Encoders
  import opened Wrappers

  // ---------- actions ----------

  predicate SaysMac(a: Action, id: ActionId, mac: Mac) {
    && a.id == id && |a.params| == 3
    && ParamValue(a.params, MacHigh) == Some(mac[..2])
    && ParamValue(a.params, MacMid) == Some(mac[2..4])
    && ParamValue(a.params, MacLow) == Some(mac[4..])
  }

  /** A VLAN entry of l2_fwd_tx: the port, cut to eight bits, and for an untagged port also its VLAN. */
  predicate SaysVlanForward(a: Action, mode: VlanMode, port: uint32, portVlan: int) {
    if mode.NativeUntagged? then
      && a.id == RemoveVlanAndFwd && |a.params| == 2
      && ParamValue(a.params, PortId) == Some([port % 256]) && ParamValue(a.params, VlanPtr) == Some([portVlan % 256])
    else
      a.id == L2Fwd && |a.params| == 1 && ParamValue(a.params, Port) == Some([port % 256])
  }

  predicate SaysTunnelId(a: Action, vni: uint32) {
    && |a.params| == 1 && ParamValue(a.params, TunnelId).Some?
    && |ParamValue(a.params, TunnelId).value| == 3
    && BigEndian(ParamValue(a.params, TunnelId).value) == vni % 0x10_0000
  }

  /** A tunnel entry of l2_fwd_tx: the action by tunnel type, family and tagging, with the tunnel id. */
  predicate SaysTunnelForward(a: Action, t: TunnelInfo, mode: VlanMode) {
    && SaysTunnelId(a, t.vni)
    && match (t.tunnelType, t.BothV6(), mode.NativeUntagged?)
       case (Vxlan, false, false) => a.id == SetVxlanUnderlayV4
       case (Vxlan, false, true) => a.id == PopVlanSetVxlanUnderlayV4
       case (Vxlan, true, false) => a.id == SetVxlanUnderlayV6
       case (Vxlan, true, true) => a.id == PopVlanSetVxlanUnderlayV6
       case (Geneve, false, false) => a.id == SetGeneveUnderlayV4
       case (Geneve, false, true) => a.id == PopVlanSetGeneveUnderlayV4
       case (Geneve, true, false) => a.id == SetGeneveUnderlayV6
       case (Geneve, true, true) => a.id == PopVlanSetGeneveUnderlayV6
       case (Unknown, _, _) => false
  }

  predicate SaysReceive(a: Action, port: uint32) {
    a.id == L2Fwd && |a.params| == 1 && ParamValue(a.params, Port) == Some([port % 256])
  }

  /** An l2_to_tunnel entry: the remote address, whole or in four words. */
  predicate SaysRemote(a: Action, t: TunnelInfo) {
    if t.BothV6() then
      && a.id == SetTunnelV6 && |a.params| == 4
      && forall i :: 0 <= i < 4 ==> ParamValue(a.params, Ipv6Word(i)) == Some(t.remoteIp.raw[4 * i..4 * i + 4])
    else
      a.id == SetTunnelV4 && |a.params| == 1 && ParamValue(a.params, DstAddr) == Some(t.remoteIp.raw[..4])
  }

  /** A pushed VLAN tag: priority 1, not eligible to be dropped, and the id cut to eight bits. */
  predicate SaysVlanTag(a: Action, vlan: int) {
    && |a.params| == 3 && ParamValue(a.params, Pcp) == Some([1]) && ParamValue(a.params, Dei) == Some([0])
    && ParamValue(a.params, VlanId) == Some([vlan % 256])
  }

  lemma MacActionSays(id: ActionId, mac: Mac)
    ensures SaysMac(MacAction(id, mac), id, mac)
  {
    MacActionDecodes(id, mac);
  }

  lemma TxVlanActionSays(l: MacLearningInfo)
    ensures SaysVlanForward(TxVlanAction(l), l.vlan.mode, l.srcPort, l.vlan.portVlan)
  {
    var p := TxVlanAction(l).params;
    OneByte(l.srcPort);
    OneByte(l.vlan.portVlan);
    if l.vlan.mode.NativeUntagged? {
      FirstParam(p, PortId, 0);
      FirstParam(p, VlanPtr, 1);
    } else {
      FirstParam(p, Port, 0);
    }
  }

  lemma TunnelIdSays(id: ActionId, vni: uint32)
    ensures SaysTunnelId(Action(id, [Param(TunnelId, EncodeTunnelId(vni))]), vni)
  {
    FirstParam([Param(TunnelId, EncodeTunnelId(vni))], TunnelId, 0);
    TunnelIdDecodes(vni);
  }

  lemma TxTunnelActionSays(l: MacLearningInfo)
    requires !l.tnl.tunnelType.Unknown? && (l.tnl.BothV4() || l.tnl.BothV6())
    ensures SaysTunnelForward(TxTunnelAction(l, l.tnl.tunnelType.Geneve?), l.tnl, l.vlan.mode)
  {
    TunnelIdSays(TxTunnelAction(l, l.tnl.tunnelType.Geneve?).id, l.tnl.vni);
  }

  lemma RxActionSays(l: MacLearningInfo)
    ensures SaysReceive(RxAction(l), l.rxSrcPort)
  {
    FirstParam(RxAction(l).params, Port, 0);
    OneByte(l.rxSrcPort);
  }

  lemma V4ActionSays(l: MacLearningInfo)
    requires !l.tnl.BothV6()
    ensures SaysRemote(V4Action(l), l.tnl)
  {
    FirstParam(V4Action(l).params, DstAddr, 0);
    WordBytesInOrder(l.tnl.remoteIp, 0);
  }

  lemma V6ActionSays(l: MacLearningInfo)
    requires l.tnl.BothV6()
    ensures SaysRemote(V6Action(l), l.tnl)
  {
    var p := V6Action(l).params;
    forall i | 0 <= i < 4 ensures ParamValue(p, Ipv6Word(i)) == Some(l.tnl.remoteIp.raw[4 * i..4 * i + 4]) {
      FirstParam(p, Ipv6Word(i), i);
      WordBytesInOrder(l.tnl.remoteIp, i);
    }
  }

  lemma VlanParamsSay(id: ActionId, vlan: int)
    ensures SaysVlanTag(Action(id, VlanParams(vlan)), vlan)
  {
    var p := VlanParams(vlan);
    FirstParam(p, Pcp, 0);
    FirstParam(p, Dei, 1);
    FirstParam(p, VlanId, 2);
    OneByte(1);
    OneByte(0);
    OneByte(vlan);
  }

  // ---------- keys ----------

  /** Every byte of a VNI, most significant first. */
  function VniBytes(vni: uint32): seq<byte> { [(vni / 0x1_0000) % 256, (vni / 0x100) % 256, vni % 256] }

  lemma VniBytesSay(vni: uint32)
    ensures EncodeVniValue(vni) == VniBytes(vni)
  {
    ByteAtShifts(vni);
    ThreeBytes((vni / 0x1_0000) % 256, (vni / 0x100) % 256, vni % 256);
  }

  lemma FdbKeysSay(m: Mac, b: byte)
    ensures TxKey(m, b) == TableKey(L2FwdTx, [Match(DstMac, m), Match(BridgeId, [b])])
    ensures SmacKey(m, b) == TableKey(L2FwdSmac, [Match(SrcMac, m), Match(BridgeId, [b])])
    ensures RxKey(m, b) == TableKey(L2FwdRx, [Match(DstMac, m), Match(BridgeId, [b])])
    ensures V4Key(m) == TableKey(L2ToTunnelV4, [Match(DstMac, m)])
    ensures V6Key(m) == TableKey(L2ToTunnelV6, [Match(DstMac, m)])
  {
    MacDecodes(m);
    OneByte(b);
  }

  lemma ModBlobKeySays(table: Table, vni: uint32)
    ensures ModBlobKey(table, vni) == TableKey(table, [Match(ModBlobPtr, VniBytes(vni))])
  {
    VniBytesSay(vni);
  }

  lemma TermKeysSay(t: TunnelInfo)
    ensures TermV4Key(t) == TableKey(Ipv4TunnelTerm, [Match(Ipv4Src, t.remoteIp.raw[..4]),
                                                      Match(BridgeId, [t.bridgeId]), Match(Vni, VniBytes(t.vni))])
    ensures TermV6Key(t) == TableKey(Ipv6TunnelTerm, [Match(BridgeId, [t.bridgeId]),
                                                      Match(Ipv6Src, t.remoteIp.raw), Match(Vni, VniBytes(t.vni))])
  {
    VniBytesSay(t.vni);
    WordBytesInOrder(t.remoteIp, 0);
    Ipv6Decodes(t.remoteIp.raw);
    OneByte(t.bridgeId);
  }

  lemma IpKeysSay(ip: IpAddr)
    ensures SrcIpKey(V4Addr(ip)) == TableKey(SrcIpMacMap, [Match(Ipv4Src, ip.raw[..4])])
    ensures DstIpKey(V4Addr(ip)) == TableKey(DstIpMacMap, [Match(Ipv4Dst, ip.raw[..4])])
  {
    WordBytesInOrder(ip, 0);
  }

  lemma VlanKeySays(table: Table, vlanId: int)
    ensures VlanKey(table, vlanId) == TableKey(table, [Match(ModBlobPtr, [vlanId % 256])])
  {
    OneByte(vlanId);
  }

  /** The VSI of a port: the port minus 16, cut to eight bits. */
  lemma VsiKeySays(sp: uint32)
    ensures VsiKey(sp) == TableKey(TxAccVsi, [Match(Vsi, [(sp - 16) % 256])])
  {
    OneByte((sp - 16) % 0x1_0000_0000);
  }
}
