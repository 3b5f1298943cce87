/**
 The ES2K encoders: each fills a fresh table entry message in place.  The functions
 name the entry that results; the lemmas at the end decode its parameters again.
 */
module Encoders {
  import opened Bytes
  import opened OvsTypes
  import opened P4Runtime
  import opened Wrappers

  const BLANK := Entry(NoTable, [], None)

  // ---------- l2_fwd_smac, l2_fwd_tx, l2_fwd_rx ----------

  function SmacKey(mac: Mac, bridge: byte): TableKey {
    TableKey(L2FwdSmac, [Match(SrcMac, CanonicalizeMac(mac)), Match(BridgeId, ByteString([bridge]))])
  }

  function TxKey(mac: Mac, bridge: byte): TableKey {
    TableKey(L2FwdTx, [Match(DstMac, CanonicalizeMac(mac)), Match(BridgeId, ByteString([bridge]))])
  }

  function RxKey(mac: Mac, bridge: byte): TableKey {
    TableKey(L2FwdRx, [Match(DstMac, CanonicalizeMac(mac)), Match(BridgeId, ByteString([bridge]))])
  }

  function V4Key(mac: Mac): TableKey { TableKey(L2ToTunnelV4, [Match(DstMac, CanonicalizeMac(mac))]) }

  function V6Key(mac: Mac): TableKey { TableKey(L2ToTunnelV6, [Match(DstMac, CanonicalizeMac(mac))]) }

  function EntryFor(key: TableKey, action: Action, insert: bool): Entry {
    Entry(key.table, key.matches, if insert then Some(action) else None)
  }

  const SMAC_ACTION := Action(NoAction, [])

  function RxAction(l: MacLearningInfo): Action {
    Action(L2Fwd, [Param(Port, ByteString([l.rxSrcPort]))])
  }

  function TxVlanAction(l: MacLearningInfo): Action {
    if l.vlan.mode.NativeUntagged?
    then Action(RemoveVlanAndFwd, [Param(PortId, ByteString([l.srcPort])),
                                   Param(VlanPtr, ByteString([l.vlan.portVlan]))])
    else Action(L2Fwd, [Param(Port, ByteString([l.srcPort]))])
  }

  /** The underlay action; families that are neither both IPv4 nor both IPv6 leave it unset. */
  function TxTunnelAction(l: MacLearningInfo, geneve: bool): Action {
    var untagged := l.vlan.mode.NativeUntagged?;
    var params := [Param(TunnelId, EncodeTunnelId(l.tnl.vni))];
    if l.tnl.BothV4() then
      Action(if geneve then (if untagged then PopVlanSetGeneveUnderlayV4 else SetGeneveUnderlayV4)
             else (if untagged then PopVlanSetVxlanUnderlayV4 else SetVxlanUnderlayV4), params)
    else if l.tnl.BothV6() then
      Action(if geneve then (if untagged then PopVlanSetGeneveUnderlayV6 else SetGeneveUnderlayV6)
             else (if untagged then PopVlanSetVxlanUnderlayV6 else SetVxlanUnderlayV6), params)
    else Action(UnsetAction, [])
  }

  function V4Action(l: MacLearningInfo): Action {
    Action(SetTunnelV4, [Param(DstAddr, CanonicalizeIp(V4Addr(l.tnl.remoteIp)))])
  }

  function Ipv6WordParams(ip: IpAddr, n: nat): (params: seq<Param>)
    requires n <= 4
    ensures |params| == n
  {
    seq(n, i requires 0 <= i < n => Param(Ipv6Word(i), CanonicalizeIp(Word(ip, i))))
  }

  lemma Ipv6WordParamsSnoc(ip: IpAddr, n: nat)
    requires n < 4
    ensures Ipv6WordParams(ip, n + 1) == Ipv6WordParams(ip, n) + [Param(Ipv6Word(n), CanonicalizeIp(Word(ip, n)))]
  {
  }

  function V6Action(l: MacLearningInfo): Action {
    Action(SetTunnelV6, Ipv6WordParams(l.tnl.remoteIp, 4))
  }

  method EncodeFdbSmacTableEntry(entry: TableEntry, l: MacLearningInfo, insertEntry: bool)
    requires entry.Value() == BLANK
    modifies entry
    ensures entry.Value() == EntryFor(SmacKey(l.mac, l.bridgeId), SMAC_ACTION, insertEntry)
  {
    entry.SetTable(L2FwdSmac);
    entry.AddMatch(SrcMac, CanonicalizeMac(l.mac));
    entry.AddMatch(BridgeId, ByteString([l.bridgeId]));
    if insertEntry {
      entry.MutableAction();
      entry.SetActionId(NoAction);
    }
  }

  method EncodeL2FwdTxTablePrologue(entry: TableEntry, l: MacLearningInfo)
    requires entry.Value() == BLANK
    modifies entry
    ensures entry.Value() == EntryFor(TxKey(l.mac, l.bridgeId), SMAC_ACTION, false)
  {
    entry.SetTable(L2FwdTx);
    entry.AddMatch(DstMac, CanonicalizeMac(l.mac));
    entry.AddMatch(BridgeId, ByteString([l.bridgeId]));
  }

  method EncodeFdbTxVlanTableEntry(entry: TableEntry, l: MacLearningInfo, insertEntry: bool)
    requires entry.Value() == BLANK
    modifies entry
    ensures entry.Value() == EntryFor(TxKey(l.mac, l.bridgeId), TxVlanAction(l), insertEntry)
  {
    EncodeL2FwdTxTablePrologue(entry, l);
    if insertEntry {
      entry.MutableAction();
      if l.vlan.mode.NativeUntagged? {
        entry.SetActionId(RemoveVlanAndFwd);
        entry.AddParam(PortId, ByteString([l.srcPort]));
        entry.AddParam(VlanPtr, ByteString([l.vlan.portVlan]));
      } else {
        entry.SetActionId(L2Fwd);
        entry.AddParam(Port, ByteString([l.srcPort]));
      }
      assert entry.action.value.params == TxVlanAction(l).params;
    }
  }

  method EncodeFdbRxVlanTableEntry(entry: TableEntry, l: MacLearningInfo, insertEntry: bool)
    requires entry.Value() == BLANK
    modifies entry
    ensures entry.Value() == EntryFor(RxKey(l.mac, l.bridgeId), RxAction(l), insertEntry)
  {
    entry.SetTable(L2FwdRx);
    entry.AddMatch(DstMac, CanonicalizeMac(l.mac));
    entry.AddMatch(BridgeId, ByteString([l.bridgeId]));
    if insertEntry {
      entry.MutableAction();
      entry.SetActionId(L2Fwd);
      entry.AddParam(Port, ByteString([l.rxSrcPort]));
      assert entry.action.value.params == RxAction(l).params;
    }
  }

  /** The VXLAN and the GENEVE encoder of l2_fwd_tx differ only in the names of their actions. */
  method EncodeFdbTunnelTableEntry(entry: TableEntry, l: MacLearningInfo, insertEntry: bool, geneve: bool)
    requires entry.Value() == BLANK
    modifies entry
    ensures entry.Value() == EntryFor(TxKey(l.mac, l.bridgeId), TxTunnelAction(l, geneve), insertEntry)
  {
    EncodeL2FwdTxTablePrologue(entry, l);
    if insertEntry {
      entry.MutableAction();
      if l.tnl.localIp.family.AfInet? && l.tnl.remoteIp.family.AfInet? {
        if l.vlan.mode.NativeUntagged? {
          entry.SetActionId(if geneve then PopVlanSetGeneveUnderlayV4 else PopVlanSetVxlanUnderlayV4);
        } else {
          entry.SetActionId(if geneve then SetGeneveUnderlayV4 else SetVxlanUnderlayV4);
        }
        entry.AddParam(TunnelId, EncodeTunnelId(l.tnl.vni));
      } else if l.tnl.localIp.family.AfInet6? && l.tnl.remoteIp.family.AfInet6? {
        if l.vlan.mode.NativeUntagged? {
          entry.SetActionId(if geneve then PopVlanSetGeneveUnderlayV6 else PopVlanSetVxlanUnderlayV6);
        } else {
          entry.SetActionId(if geneve then SetGeneveUnderlayV6 else SetVxlanUnderlayV6);
        }
        entry.AddParam(TunnelId, EncodeTunnelId(l.tnl.vni));
      }
      assert entry.action.value.params == TxTunnelAction(l, geneve).params;
    }
  }

  method EncodeL2ToTunnelV4(entry: TableEntry, l: MacLearningInfo, insertEntry: bool)
    requires entry.Value() == BLANK
    modifies entry
    ensures entry.Value() == EntryFor(V4Key(l.mac), V4Action(l), insertEntry)
  {
    entry.SetTable(L2ToTunnelV4);
    entry.AddMatch(DstMac, CanonicalizeMac(l.mac));
    if insertEntry {
      entry.MutableAction();
      entry.SetActionId(SetTunnelV4);
      entry.AddParam(DstAddr, CanonicalizeIp(V4Addr(l.tnl.remoteIp)));
      assert entry.action.value.params == V4Action(l).params;
    }
  }

  method EncodeL2ToTunnelV6(entry: TableEntry, l: MacLearningInfo, insertEntry: bool)
    requires entry.Value() == BLANK
    modifies entry
    ensures entry.Value() == EntryFor(V6Key(l.mac), V6Action(l), insertEntry)
  {
    entry.SetTable(L2ToTunnelV6);
    entry.AddMatch(DstMac, CanonicalizeMac(l.mac));
    if insertEntry {
      entry.MutableAction();
      entry.SetActionId(SetTunnelV6);
      for i := 0 to 4
        invariant entry.Value() == EntryFor(V6Key(l.mac), Action(SetTunnelV6, Ipv6WordParams(l.tnl.remoteIp, i)), true)
      {
        Ipv6WordParamsSnoc(l.tnl.remoteIp, i);
        var ipAddress := CanonicalizeIp(Word(l.tnl.remoteIp, i));
        entry.AddParam(Ipv6Word(i), ipAddress);
      }
    }
  }

  // ---------- tunnel encap, decap and termination ----------

  function ModBlobKey(table: Table, vni: uint32): TableKey {
    TableKey(table, [Match(ModBlobPtr, EncodeVniValue(vni))])
  }

  function AddrBytes(ip: IpAddr, v6: bool): seq<byte> {
    if v6 then CanonicalizeIpv6(ip.raw) else CanonicalizeIp(V4Addr(ip))
  }

  function EncapAction(id: ActionId, t: TunnelInfo, v6: bool): Action {
    Action(id, [Param(SrcAddr, AddrBytes(t.localIp, v6)), Param(DstAddr, AddrBytes(t.remoteIp, v6)),
                Param(SrcPort, EncodePort(DoubledPort(t.dstPort))), Param(DstPort, EncodePort(Htons(t.dstPort))),
                Param(VniParam, EncodeVniValue(t.vni))])
  }

  /** The shared body of the eight Encode...Encap... functions: they differ in table, action and address width. */
  method EncodeEncapTableEntry(entry: TableEntry, t: TunnelInfo, insertEntry: bool,
                               table: Table, id: ActionId, v6: bool)
    requires entry.Value() == BLANK
    modifies entry
    ensures entry.Value() == EntryFor(ModBlobKey(table, t.vni), EncapAction(id, t, v6), insertEntry)
  {
    entry.SetTable(table);
    entry.AddMatch(ModBlobPtr, EncodeVniValue(t.vni));
    if insertEntry {
      entry.MutableAction();
      entry.SetActionId(id);
      if v6 {
        entry.AddParam(SrcAddr, CanonicalizeIpv6(t.localIp.raw));
        entry.AddParam(DstAddr, CanonicalizeIpv6(t.remoteIp.raw));
      } else {
        entry.AddParam(SrcAddr, CanonicalizeIp(V4Addr(t.localIp)));
        entry.AddParam(DstAddr, CanonicalizeIp(V4Addr(t.remoteIp)));
      }
      var srcPort: uint16 := (Htons(t.dstPort) * 2) % 0x1_0000;
      entry.AddParam(SrcPort, EncodePort(srcPort));
      var dstPort := Htons(t.dstPort);
      entry.AddParam(DstPort, EncodePort(dstPort));
      entry.AddParam(VniParam, EncodeVniValue(t.vni));
      assert entry.action.value.params == EncapAction(id, t, v6).params;
    }
  }

  method EncodeDecapModTableEntry(entry: TableEntry, t: TunnelInfo, insertEntry: bool, table: Table, id: ActionId)
    requires entry.Value() == BLANK
    modifies entry
    ensures entry.Value() == EntryFor(ModBlobKey(table, t.vni), Action(id, []), insertEntry)
  {
    entry.SetTable(table);
    entry.AddMatch(ModBlobPtr, EncodeVniValue(t.vni));
    if insertEntry {
      entry.MutableAction();
      entry.SetActionId(id);
    }
  }

  function VlanParams(vlan: int): seq<Param> {
    [Param(Pcp, ByteString([1])), Param(Dei, ByteString([0])), Param(VlanId, ByteString([vlan]))]
  }

  method EncodeDecapModAndVlanPushTableEntry(entry: TableEntry, t: TunnelInfo, insertEntry: bool,
                                             table: Table, id: ActionId)
    requires entry.Value() == BLANK
    modifies entry
    ensures entry.Value() ==
            EntryFor(ModBlobKey(table, t.vni), Action(id, VlanParams(t.vlan.portVlan)), insertEntry)
  {
    entry.SetTable(table);
    entry.AddMatch(ModBlobPtr, EncodeVniValue(t.vni));
    if insertEntry {
      entry.MutableAction();
      entry.SetActionId(id);
      entry.AddParam(Pcp, ByteString([1]));
      entry.AddParam(Dei, ByteString([0]));
      entry.AddParam(VlanId, ByteString([t.vlan.portVlan]));
      assert entry.action.value.params == VlanParams(t.vlan.portVlan);
    }
  }

  function TermV4Key(t: TunnelInfo): TableKey {
    TableKey(Ipv4TunnelTerm, [Match(Ipv4Src, CanonicalizeIp(V4Addr(t.remoteIp))),
                              Match(BridgeId, ByteString([t.bridgeId])), Match(Vni, EncodeVniValue(t.vni))])
  }

  function TermV6Key(t: TunnelInfo): TableKey {
    TableKey(Ipv6TunnelTerm, [Match(BridgeId, ByteString([t.bridgeId])),
                              Match(Ipv6Src, CanonicalizeIpv6(t.remoteIp.raw)), Match(Vni, EncodeVniValue(t.vni))])
  }

  function TermAction(t: TunnelInfo): Action {
    if t.tunnelType.Unknown? then Action(UnsetAction, [])
    else
      Action(if t.Untagged() then (if t.tunnelType.Vxlan? then SetVxlanDecapOuterHdrAndPushVlan
                                   else SetGeneveDecapOuterHdrAndPushVlan)
             else (if t.tunnelType.Vxlan? then SetVxlanDecapOuterHdr else SetGeneveDecapOuterHdr),
             [Param(TunnelId, EncodeTunnelId(t.vni))])
  }

  /** The action part shared by the two termination encoders. */
  method EncodeTermAction(entry: TableEntry, t: TunnelInfo)
    requires entry.action == None
    modifies entry
    ensures entry.Value() == old(entry.Value()).(action := Some(TermAction(t)))
  {
    entry.MutableAction();
    if t.vlan.mode.NativeUntagged? {
      if t.tunnelType.Vxlan? {
        entry.SetActionId(SetVxlanDecapOuterHdrAndPushVlan);
        entry.AddParam(TunnelId, EncodeTunnelId(t.vni));
      } else if t.tunnelType.Geneve? {
        entry.SetActionId(SetGeneveDecapOuterHdrAndPushVlan);
        entry.AddParam(TunnelId, EncodeTunnelId(t.vni));
      }
    } else {
      if t.tunnelType.Vxlan? {
        entry.SetActionId(SetVxlanDecapOuterHdr);
        entry.AddParam(TunnelId, EncodeTunnelId(t.vni));
      } else if t.tunnelType.Geneve? {
        entry.SetActionId(SetGeneveDecapOuterHdr);
        entry.AddParam(TunnelId, EncodeTunnelId(t.vni));
      }
    }
    assert entry.action.value.params == TermAction(t).params;
  }

  method EncodeTunnelTermTableEntry(entry: TableEntry, t: TunnelInfo, insertEntry: bool)
    requires entry.Value() == BLANK
    modifies entry
    ensures entry.Value() == EntryFor(TermV4Key(t), TermAction(t), insertEntry)
  {
    entry.AddMatch(Ipv4Src, CanonicalizeIp(V4Addr(t.remoteIp)));
    entry.SetTable(Ipv4TunnelTerm);
    entry.AddMatch(BridgeId, ByteString([t.bridgeId]));
    entry.AddMatch(Vni, EncodeVniValue(t.vni));
    if insertEntry {
      EncodeTermAction(entry, t);
    }
  }

  method EncodeV6TunnelTermTableEntry(entry: TableEntry, t: TunnelInfo, insertEntry: bool)
    requires entry.Value() == BLANK
    modifies entry
    ensures entry.Value() == EntryFor(TermV6Key(t), TermAction(t), insertEntry)
  {
    entry.SetTable(Ipv6TunnelTerm);
    entry.AddMatch(BridgeId, ByteString([t.bridgeId]));
    entry.AddMatch(Ipv6Src, CanonicalizeIpv6(t.remoteIp.raw));
    entry.AddMatch(Vni, EncodeVniValue(t.vni));
    if insertEntry {
      EncodeTermAction(entry, t);
    }
  }

  // ---------- VLAN push and pop, IP-to-MAC maps, tx_acc_vsi ----------

  function VlanKey(table: Table, vlanId: int): TableKey {
    TableKey(table, [Match(ModBlobPtr, ByteString([vlanId]))])
  }

  method EncodeVlanPushTableEntry(entry: TableEntry, vlanId: uint16, insertEntry: bool)
    requires entry.Value() == BLANK
    modifies entry
    ensures entry.Value() == EntryFor(VlanKey(VlanPushMod, vlanId), Action(VlanPush, VlanParams(vlanId)), insertEntry)
  {
    entry.SetTable(VlanPushMod);
    entry.AddMatch(ModBlobPtr, ByteString([vlanId]));
    if insertEntry {
      entry.MutableAction();
      entry.SetActionId(VlanPush);
      entry.AddParam(Pcp, ByteString([1]));
      entry.AddParam(Dei, ByteString([0]));
      entry.AddParam(VlanId, ByteString([vlanId]));
      assert entry.action.value.params == VlanParams(vlanId);
    }
  }

  method EncodeVlanPopTableEntry(entry: TableEntry, vlanId: uint16, insertEntry: bool)
    requires entry.Value() == BLANK
    modifies entry
    ensures entry.Value() == EntryFor(VlanKey(VlanPopMod, vlanId), Action(VlanPop, []), insertEntry)
  {
    entry.SetTable(VlanPopMod);
    entry.AddMatch(ModBlobPtr, ByteString([vlanId]));
    if insertEntry {
      entry.MutableAction();
      entry.SetActionId(VlanPop);
    }
  }

  function SrcIpKey(addr: uint32): TableKey { TableKey(SrcIpMacMap, [Match(Ipv4Src, CanonicalizeIp(addr))]) }

  function DstIpKey(addr: uint32): TableKey { TableKey(DstIpMacMap, [Match(Ipv4Dst, CanonicalizeIp(addr))]) }

  function MacAction(id: ActionId, mac: Mac): Action {
    Action(id, [Param(MacHigh, ByteString([mac[0], mac[1]])), Param(MacMid, ByteString([mac[2], mac[3]])),
                Param(MacLow, ByteString([mac[4], mac[5]]))])
  }

  /** The three 16-bit parameters of the source and destination map encoders. */
  method EncodeMacParams(entry: TableEntry, id: ActionId, mac: Mac)
    requires entry.action == None
    modifies entry
    ensures entry.Value() == old(entry.Value()).(action := Some(MacAction(id, mac)))
  {
    entry.MutableAction();
    entry.SetActionId(id);
    entry.AddParam(MacHigh, ByteString([mac[0] % 256, mac[1] % 256]));
    entry.AddParam(MacMid, ByteString([mac[2] % 256, mac[3] % 256]));
    entry.AddParam(MacLow, ByteString([mac[4] % 256, mac[5] % 256]));
    assert entry.action.value.params == MacAction(id, mac).params;
  }

  method EncodeSrcIpMacMapTableEntry(entry: TableEntry, info: IpMacMapInfo, insertEntry: bool)
    requires entry.Value() == BLANK
    modifies entry
    ensures entry.Value() == EntryFor(SrcIpKey(V4Addr(info.srcIp)), MacAction(SmacMap, info.srcMac), insertEntry)
  {
    entry.SetTable(SrcIpMacMap);
    entry.AddMatch(Ipv4Src, CanonicalizeIp(V4Addr(info.srcIp)));
    if insertEntry {
      EncodeMacParams(entry, SmacMap, info.srcMac);
    }
  }

  method EncodeDstIpMacMapTableEntry(entry: TableEntry, info: IpMacMapInfo, insertEntry: bool)
    requires entry.Value() == BLANK
    modifies entry
    ensures entry.Value() == EntryFor(DstIpKey(V4Addr(info.dstIp)), MacAction(DmacMap, info.dstMac), insertEntry)
  {
    entry.SetTable(DstIpMacMap);
    entry.AddMatch(Ipv4Dst, CanonicalizeIp(V4Addr(info.dstIp)));
    if insertEntry {
      EncodeMacParams(entry, DmacMap, info.dstMac);
    }
  }

  const ES2K_VPORT_ID_OFFSET := 16

  /** sp - 16 is computed mod 2^32 and then cut to one byte. */
  function VsiKey(sp: uint32): TableKey {
    TableKey(TxAccVsi, [Match(Vsi, ByteString([(sp - ES2K_VPORT_ID_OFFSET) % 0x1_0000_0000]))])
  }

  method EncodeTxAccVsiTableEntry(entry: TableEntry, sp: uint32)
    requires entry.Value() == BLANK
    modifies entry
    ensures entry.Value() == EntryFor(VsiKey(sp), SMAC_ACTION, false)
  {
    entry.SetTable(TxAccVsi);
    entry.AddMatch(Vsi, ByteString([(sp - ES2K_VPORT_ID_OFFSET) % 0x1_0000_0000]));
  }

  // ---------- decoding the parameters again ----------

  /** The value of the first parameter with a given id. */
  function ParamValue(params: seq<Param>, id: ParamId): Option<seq<byte>> {
    if params == [] then None
    else if params[0].id == id then Some(params[0].value)
    else ParamValue(params[1..], id)
  }

  /** Everything a tunnel_info gives to an IPv4 encap entry can be read back, up to its width. */
  lemma EncapV4Decodes(id: ActionId, t: TunnelInfo)
    ensures var p := EncapAction(id, t, false).params;
            && ParamValue(p, SrcAddr) == Some(t.localIp.raw[..4])
            && ParamValue(p, DstAddr) == Some(t.remoteIp.raw[..4])
            && ParamValue(p, DstPort).Some? && BigEndian(ParamValue(p, DstPort).value) == Htons(t.dstPort)
            && Htons(BigEndian(ParamValue(p, DstPort).value)) == t.dstPort
            && ParamValue(p, SrcPort).Some?
            && BigEndian(ParamValue(p, SrcPort).value) == (2 * Htons(t.dstPort)) % 0x1_0000
            && ParamValue(p, VniParam).Some? && BigEndian(ParamValue(p, VniParam).value) == t.vni % 0x100_0000
  {
    EncapParamValues(id, t, false);
    WordBytesInOrder(t.localIp, 0);
    WordBytesInOrder(t.remoteIp, 0);
    PortDecodes(Htons(t.dstPort));
    HtonsInvolution(t.dstPort);
    DoubledPortMeaning(t.dstPort);
    VniDecodes(t.vni);
  }

  lemma EncapV6Decodes(id: ActionId, t: TunnelInfo)
    ensures var p := EncapAction(id, t, true).params;
            && ParamValue(p, SrcAddr) == Some(t.localIp.raw)
            && ParamValue(p, DstAddr) == Some(t.remoteIp.raw)
            && ParamValue(p, DstPort).Some? && BigEndian(ParamValue(p, DstPort).value) == Htons(t.dstPort)
            && Htons(BigEndian(ParamValue(p, DstPort).value)) == t.dstPort
            && ParamValue(p, SrcPort).Some?
            && BigEndian(ParamValue(p, SrcPort).value) == (2 * Htons(t.dstPort)) % 0x1_0000
            && ParamValue(p, VniParam).Some? && BigEndian(ParamValue(p, VniParam).value) == t.vni % 0x100_0000
  {
    EncapParamValues(id, t, true);
    Ipv6Decodes(t.localIp.raw);
    Ipv6Decodes(t.remoteIp.raw);
    PortDecodes(Htons(t.dstPort));
    HtonsInvolution(t.dstPort);
    DoubledPortMeaning(t.dstPort);
    VniDecodes(t.vni);
  }

  lemma EncapParamValues(id: ActionId, t: TunnelInfo, v6: bool)
    ensures var p := EncapAction(id, t, v6).params;
            && ParamValue(p, SrcAddr) == Some(AddrBytes(t.localIp, v6))
            && ParamValue(p, DstAddr) == Some(AddrBytes(t.remoteIp, v6))
            && ParamValue(p, SrcPort) == Some(EncodePort(DoubledPort(t.dstPort)))
            && ParamValue(p, DstPort) == Some(EncodePort(Htons(t.dstPort)))
            && ParamValue(p, VniParam) == Some(EncodeVniValue(t.vni))
  {
    var p := EncapAction(id, t, v6).params;
    FirstParam(p, SrcAddr, 0);
    FirstParam(p, DstAddr, 1);
    FirstParam(p, SrcPort, 2);
    FirstParam(p, DstPort, 3);
    FirstParam(p, VniParam, 4);
  }

  lemma {:induction false} FirstParam(params: seq<Param>, id: ParamId, i: nat)
    requires i < |params| && params[i].id == id
    requires forall j :: 0 <= j < i ==> params[j].id != id
    ensures ParamValue(params, id) == Some(params[i].value)
  {
    if i > 0 {
      FirstParam(params[1..], id, i - 1);
    }
  }

  /** The four 32-bit parameters of set_tunnel_v6, put together, are the IPv6 address. */
  lemma V6ActionDecodes(l: MacLearningInfo)
    ensures var p := V6Action(l).params;
            |p| == 4 && p[0].value + p[1].value + p[2].value + p[3].value == CanonicalizeIpv6(l.tnl.remoteIp.raw)
  {
    var ip := l.tnl.remoteIp;
    WordBytesInOrder(ip, 0);
    WordBytesInOrder(ip, 1);
    WordBytesInOrder(ip, 2);
    WordBytesInOrder(ip, 3);
    Ipv6Decodes(ip.raw);
    assert ip.raw == ip.raw[0..4] + ip.raw[4..8] + ip.raw[8..12] + ip.raw[12..16];
  }

  /** High, mid and low, each found by its id, are the bytes of the MAC address in order. */
  lemma MacActionDecodes(id: ActionId, mac: Mac)
    ensures var a := MacAction(id, mac);
            && a.id == id && |a.params| == 3
            && ParamValue(a.params, MacHigh) == Some(mac[..2])
            && ParamValue(a.params, MacMid) == Some(mac[2..4])
            && ParamValue(a.params, MacLow) == Some(mac[4..])
  {
    var p := MacAction(id, mac).params;
    FirstParam(p, MacHigh, 0);
    FirstParam(p, MacMid, 1);
    FirstParam(p, MacLow, 2);
    TwoBytes(mac[0], mac[1]);
    TwoBytes(mac[2], mac[3]);
    TwoBytes(mac[4], mac[5]);
    assert mac[..2] == [mac[0], mac[1]] && mac[2..4] == [mac[2], mac[3]] && mac[4..] == [mac[4], mac[5]];
  }
}
