/**
 ConfigTunnelEntry: a tunnel is three entries in three tables, written one after the
 other and abandoned at the first failure, with no transaction around them.
 */
module TunnelTable {
  import opened Bytes
  import opened OvsTypes
  import opened P4Runtime
  import opened Encoders

  // ---------- table choice ----------

  function EncapTable(t: TunnelInfo): Table {
    if t.tunnelType.Unknown? then NoTable
    else if t.BothV4() then
      if t.Untagged() then (if t.tunnelType.Vxlan? then VxlanEncapVlanPopMod else GeneveEncapVlanPopMod)
      else (if t.tunnelType.Vxlan? then VxlanEncapMod else GeneveEncapMod)
    else if t.BothV6() then
      if t.Untagged() then (if t.tunnelType.Vxlan? then VxlanEncapV6VlanPopMod else GeneveEncapV6VlanPopMod)
      else (if t.tunnelType.Vxlan? then VxlanEncapV6Mod else GeneveEncapV6Mod)
    else NoTable
  }

  function EncapActionOf(t: TunnelInfo): Action {
    var id := match EncapTable(t)
      case VxlanEncapMod => VxlanEncap
      case GeneveEncapMod => GeneveEncap
      case VxlanEncapV6Mod => VxlanEncapV6
      case GeneveEncapV6Mod => GeneveEncapV6
      case VxlanEncapVlanPopMod => VxlanEncapVlanPop
      case GeneveEncapVlanPopMod => GeneveEncapVlanPop
      case VxlanEncapV6VlanPopMod => VxlanEncapV6VlanPop
      case GeneveEncapV6VlanPopMod => GeneveEncapV6VlanPop
      case _ => UnsetAction;
    EncapAction(id, t, t.BothV6())
  }

  function DecapTable(t: TunnelInfo): Table {
    if t.tunnelType.Unknown? then NoTable
    else if t.vlan.mode.NativeTagged? then (if t.tunnelType.Vxlan? then VxlanDecapMod else GeneveDecapMod)
    else (if t.tunnelType.Vxlan? then VxlanDecapAndVlanPushMod else GeneveDecapAndVlanPushMod)
  }

  function DecapActionOf(t: TunnelInfo): Action {
    match DecapTable(t)
    case VxlanDecapMod => Action(VxlanDecapOuterHdr, [])
    case GeneveDecapMod => Action(GeneveDecapOuterHdr, [])
    case VxlanDecapAndVlanPushMod => Action(VxlanDecapAndPushVlan, VlanParams(t.vlan.portVlan))
    case GeneveDecapAndVlanPushMod => Action(GeneveDecapAndPushVlan, VlanParams(t.vlan.portVlan))
    case _ => Action(UnsetAction, [])
  }

  // ---------- the three entries ----------

  function EncapEntry(t: TunnelInfo, insert: bool): Entry {
    if EncapTable(t).NoTable? then BLANK else EntryFor(EncapKey(t), EncapActionOf(t), insert)
  }

  /** One of two tables by tunnel type, or nothing for an unknown type; families and tagging do not matter here. */
  function EncapByType(t: TunnelInfo, insert: bool, vxlan: Table, vxlanId: ActionId, geneve: Table, geneveId: ActionId,
                       v6: bool): Entry
  {
    match t.tunnelType
    case Vxlan => EntryFor(ModBlobKey(vxlan, t.vni), EncapAction(vxlanId, t, v6), insert)
    case Geneve => EntryFor(ModBlobKey(geneve, t.vni), EncapAction(geneveId, t, v6), insert)
    case Unknown => BLANK
  }

  function DecapEntry(t: TunnelInfo, insert: bool): Entry {
    if DecapTable(t).NoTable? then BLANK else EntryFor(DecapKey(t), DecapActionOf(t), insert)
  }

  function TermEntry(t: TunnelInfo, insert: bool): Entry {
    if t.BothV4() || t.BothV6() then EntryFor(TermKey(t), TermAction(t), insert) else BLANK
  }

  function EncapKey(t: TunnelInfo): TableKey { ModBlobKey(EncapTable(t), t.vni) }

  function DecapKey(t: TunnelInfo): TableKey { ModBlobKey(DecapTable(t), t.vni) }

  function TermKey(t: TunnelInfo): TableKey { if t.BothV6() then TermV6Key(t) else TermV4Key(t) }

  predicate WellFormed(t: TunnelInfo) {
    !t.tunnelType.Unknown? && (t.BothV4() || t.BothV6())
  }

  // ---------- the step on the store ----------

  datatype Event = Event(info: TunnelInfo, insert: bool)

  function TunnelStep(s: Store, e: Event): (Store, Status) {
    var t, ins := e.info, e.insert;
    var s1 := Write(s, EncapEntry(t, ins), ins);
    if WriteStatus(s, EncapEntry(t, ins), ins) != Ok then (s1, WriteStatus(s, EncapEntry(t, ins), ins))
    else
      var s2 := Write(s1, DecapEntry(t, ins), ins);
      if WriteStatus(s1, DecapEntry(t, ins), ins) != Ok then (s2, WriteStatus(s1, DecapEntry(t, ins), ins))
      else (Write(s2, TermEntry(t, ins), ins), WriteStatus(s2, TermEntry(t, ins), ins))
  }

  function TunnelRun(s: Store, events: seq<Event>): Store {
    if events == [] then s else TunnelStep(TunnelRun(s, events[..|events| - 1]), events[|events| - 1]).0
  }

  // ---------- the program ----------

  method PrepareV4EncapTableEntry(entry: TableEntry, t: TunnelInfo, insertEntry: bool)
    requires entry.Value() == BLANK
    modifies entry
    ensures entry.Value() ==
            EncapByType(t, insertEntry, VxlanEncapMod, VxlanEncap, GeneveEncapMod, GeneveEncap, false)
  {
    if t.tunnelType.Vxlan? {
      EncodeEncapTableEntry(entry, t, insertEntry, VxlanEncapMod, VxlanEncap, false);
    } else if t.tunnelType.Geneve? {
      EncodeEncapTableEntry(entry, t, insertEntry, GeneveEncapMod, GeneveEncap, false);
    }
  }

  method PrepareV6EncapTableEntry(entry: TableEntry, t: TunnelInfo, insertEntry: bool)
    requires entry.Value() == BLANK
    modifies entry
    ensures entry.Value() ==
            EncapByType(t, insertEntry, VxlanEncapV6Mod, VxlanEncapV6, GeneveEncapV6Mod, GeneveEncapV6, true)
  {
    if t.tunnelType.Vxlan? {
      EncodeEncapTableEntry(entry, t, insertEntry, VxlanEncapV6Mod, VxlanEncapV6, true);
    } else if t.tunnelType.Geneve? {
      EncodeEncapTableEntry(entry, t, insertEntry, GeneveEncapV6Mod, GeneveEncapV6, true);
    }
  }

  method PrepareV4EncapAndVlanPopTableEntry(entry: TableEntry, t: TunnelInfo, insertEntry: bool)
    requires entry.Value() == BLANK
    modifies entry
    ensures entry.Value() ==
            EncapByType(t, insertEntry, VxlanEncapVlanPopMod, VxlanEncapVlanPop,
                        GeneveEncapVlanPopMod, GeneveEncapVlanPop, false)
  {
    if t.tunnelType.Vxlan? {
      EncodeEncapTableEntry(entry, t, insertEntry, VxlanEncapVlanPopMod, VxlanEncapVlanPop, false);
    } else if t.tunnelType.Geneve? {
      EncodeEncapTableEntry(entry, t, insertEntry, GeneveEncapVlanPopMod, GeneveEncapVlanPop, false);
    }
  }

  method PrepareV6EncapAndVlanPopTableEntry(entry: TableEntry, t: TunnelInfo, insertEntry: bool)
    requires entry.Value() == BLANK
    modifies entry
    ensures entry.Value() ==
            EncapByType(t, insertEntry, VxlanEncapV6VlanPopMod, VxlanEncapV6VlanPop,
                        GeneveEncapV6VlanPopMod, GeneveEncapV6VlanPop, true)
  {
    if t.tunnelType.Vxlan? {
      EncodeEncapTableEntry(entry, t, insertEntry, VxlanEncapV6VlanPopMod, VxlanEncapV6VlanPop, true);
    } else if t.tunnelType.Geneve? {
      EncodeEncapTableEntry(entry, t, insertEntry, GeneveEncapV6VlanPopMod, GeneveEncapV6VlanPop, true);
    }
  }

  method PrepareEncapTableEntry(entry: TableEntry, t: TunnelInfo, insertEntry: bool)
    requires entry.Value() == BLANK
    modifies entry
    ensures entry.Value() == EncapEntry(t, insertEntry)
  {
    if t.localIp.family.AfInet? && t.remoteIp.family.AfInet? {
      if t.vlan.mode.NativeUntagged? {
        PrepareV4EncapAndVlanPopTableEntry(entry, t, insertEntry);
      } else {
        PrepareV4EncapTableEntry(entry, t, insertEntry);
      }
    } else if t.localIp.family.AfInet6? && t.remoteIp.family.AfInet6? {
      if t.vlan.mode.NativeUntagged? {
        PrepareV6EncapAndVlanPopTableEntry(entry, t, insertEntry);
      } else {
        PrepareV6EncapTableEntry(entry, t, insertEntry);
      }
    }
  }

  method PrepareDecapTableEntry(entry: TableEntry, t: TunnelInfo, insertEntry: bool)
    requires entry.Value() == BLANK
    modifies entry
    ensures entry.Value() == DecapEntry(t, insertEntry)
  {
    if t.vlan.mode.NativeTagged? {
      if t.tunnelType.Vxlan? {
        EncodeDecapModTableEntry(entry, t, insertEntry, VxlanDecapMod, VxlanDecapOuterHdr);
      } else if t.tunnelType.Geneve? {
        EncodeDecapModTableEntry(entry, t, insertEntry, GeneveDecapMod, GeneveDecapOuterHdr);
      }
    } else {
      if t.tunnelType.Vxlan? {
        EncodeDecapModAndVlanPushTableEntry(entry, t, insertEntry, VxlanDecapAndVlanPushMod, VxlanDecapAndPushVlan);
      } else if t.tunnelType.Geneve? {
        EncodeDecapModAndVlanPushTableEntry(entry, t, insertEntry, GeneveDecapAndVlanPushMod, GeneveDecapAndPushVlan);
      }
    }
  }

  method PrepareTunnelTermTableEntry(entry: TableEntry, t: TunnelInfo, insertEntry: bool)
    requires entry.Value() == BLANK
    modifies entry
    ensures entry.Value() == TermEntry(t, insertEntry)
  {
    if t.localIp.family.AfInet? && t.remoteIp.family.AfInet? {
      EncodeTunnelTermTableEntry(entry, t, insertEntry);
    } else if t.localIp.family.AfInet6? && t.remoteIp.family.AfInet6? {
      EncodeV6TunnelTermTableEntry(entry, t, insertEntry);
    }
  }

  method ConfigTunnelEntry(client: Client, t: TunnelInfo, insertEntry: bool) returns (status: Status)
    modifies client
    ensures (client.store, status) == TunnelStep(old(client.store), Event(t, insertEntry))
  {
    var entry := new TableEntry();
    PrepareEncapTableEntry(entry, t, insertEntry);
    status := client.SendWriteRequest(entry, insertEntry);
    if status != Ok {
      return status;
    }
    entry := new TableEntry();
    PrepareDecapTableEntry(entry, t, insertEntry);
    status := client.SendWriteRequest(entry, insertEntry);
    if status != Ok {
      return status;
    }
    entry := new TableEntry();
    PrepareTunnelTermTableEntry(entry, t, insertEntry);
    status := client.SendWriteRequest(entry, insertEntry);
  }
}
