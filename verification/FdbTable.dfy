/**
 ConfigFdbEntry: one learned or forgotten MAC address becomes up to four reads and four
 writes on five tables.  The methods follow the program; FdbStep is the same step on
 the store alone, and is what the theorems of FdbTheorems speak about.
 */
module FdbTable {
  import opened Bytes
  import opened OvsTypes
  import opened P4Runtime
  import opened Encoders
  import opened TxAccVsi

  // ---------- the requests ----------

  function SmacEntry(l: MacLearningInfo, insert: bool): Entry {
    EntryFor(SmacKey(l.mac, l.bridgeId), SMAC_ACTION, insert)
  }

  function RxEntry(l: MacLearningInfo): Entry {
    EntryFor(RxKey(l.mac, l.bridgeId), RxAction(l), true)
  }

  function TxVlanEntry(l: MacLearningInfo, insert: bool): Entry {
    EntryFor(TxKey(l.mac, l.bridgeId), TxVlanAction(l), insert)
  }

  function L2Key(l: MacLearningInfo): TableKey {
    if l.tnl.BothV6() then V6Key(l.mac) else V4Key(l.mac)
  }

  function L2Action(l: MacLearningInfo): Action {
    if l.tnl.BothV6() then V6Action(l) else V4Action(l)
  }

  function L2Entry(l: MacLearningInfo, insert: bool): Entry {
    EntryFor(L2Key(l), L2Action(l), insert)
  }

  /** An insert of an unknown tunnel type leaves the message blank; a delete still names its key. */
  function TxTunnelEntry(l: MacLearningInfo, insert: bool): Entry {
    if l.tnl.tunnelType.Unknown? && insert then BLANK
    else EntryFor(TxKey(l.mac, l.bridgeId), TxTunnelAction(l, l.tnl.tunnelType.Geneve?), insert)
  }

  function TxReadEntry(l: MacLearningInfo): Entry {
    if l.tnl.tunnelType.Unknown? then BLANK else EntryFor(TxKey(l.mac, l.bridgeId), SMAC_ACTION, false)
  }

  // ---------- the step on the store ----------

  datatype Event = Event(info: MacLearningInfo, insert: bool)

  /** UpdateFdbTunnelInfo: find out on delete whether the MAC was learned over a tunnel. */
  function Classify(s: Store, l: MacLearningInfo): MacLearningInfo {
    if V4Key(l.mac) in s then l.(isTunnel := true)
    else if !l.isTunnel && V6Key(l.mac) in s then
      l.(isTunnel := true, tnl := l.tnl.(localIp := l.tnl.localIp.(family := AfInet6),
                                         remoteIp := l.tnl.remoteIp.(family := AfInet6)))
    else l
  }

  function TunnelStep(s: Store, l: MacLearningInfo, insert: bool): Store {
    if insert && Read(s, TxReadEntry(l)).Found? then s
    else
      var s1 := Write(s, TxTunnelEntry(l, insert), insert);
      Write(Write(s1, L2Entry(l, insert), insert), SmacEntry(l, insert), insert)
  }

  function VlanWrites(s: Store, l: MacLearningInfo, insert: bool): Store {
    Write(Write(s, TxVlanEntry(l, insert), insert), SmacEntry(l, insert), insert)
  }

  function VlanStep(s: Store, l: MacLearningInfo, insert: bool): (Store, Status) {
    if !insert then (VlanWrites(s, l, false), Ok)
    else if TxKey(l.mac, l.bridgeId) in s then (s, Ok)
    else
      var s1 := Write(s, RxEntry(l), true);
      match VsiPort(s1, l.srcPort)
      case PortFailed(error) => (s1, Failed(error))
      case PortOk(port) => (VlanWrites(s1, l.(srcPort := port), true), Ok)
  }

  function FdbStep(s: Store, e: Event): (Store, Status) {
    var l := if e.insert then e.info else Classify(s, e.info);
    if l.isTunnel then (TunnelStep(s, l, e.insert), Ok) else VlanStep(s, l, e.insert)
  }

  function FdbRun(s: Store, events: seq<Event>): Store {
    if events == [] then s else FdbStep(FdbRun(s, events[..|events| - 1]), events[|events| - 1]).0
  }

  // ---------- the program ----------

  /** A mac_learning_info passed by reference. */
  class LearnInfo {
    var info: MacLearningInfo

    constructor (l: MacLearningInfo)
      ensures info == l
    {
      info := l;
    }
  }

  method WriteFdbSmacTableEntry(client: Client, l: MacLearningInfo, insertEntry: bool) returns (status: Status)
    modifies client
    ensures client.store == Write(old(client.store), SmacEntry(l, insertEntry), insertEntry)
    ensures status == WriteStatus(old(client.store), SmacEntry(l, insertEntry), insertEntry)
  {
    var entry := new TableEntry();
    EncodeFdbSmacTableEntry(entry, l, insertEntry);
    status := client.SendWriteRequest(entry, insertEntry);
  }

  method WriteL2TunnelTableEntry(client: Client, l: MacLearningInfo, insertEntry: bool) returns (status: Status)
    modifies client
    ensures client.store == Write(old(client.store), L2Entry(l, insertEntry), insertEntry)
    ensures status == WriteStatus(old(client.store), L2Entry(l, insertEntry), insertEntry)
  {
    var entry := new TableEntry();
    if l.tnl.localIp.family.AfInet6? && l.tnl.remoteIp.family.AfInet6? {
      EncodeL2ToTunnelV6(entry, l, insertEntry);
    } else {
      EncodeL2ToTunnelV4(entry, l, insertEntry);
    }
    status := client.SendWriteRequest(entry, insertEntry);
  }

  method WriteFdbTxVlanTableEntry(client: Client, l: MacLearningInfo, insertEntry: bool) returns (status: Status)
    modifies client
    ensures client.store == Write(old(client.store), TxVlanEntry(l, insertEntry), insertEntry)
    ensures status == WriteStatus(old(client.store), TxVlanEntry(l, insertEntry), insertEntry)
  {
    var entry := new TableEntry();
    EncodeFdbTxVlanTableEntry(entry, l, insertEntry);
    status := client.SendWriteRequest(entry, insertEntry);
  }

  method WriteFdbRxVlanTableEntry(client: Client, l: MacLearningInfo) returns (status: Status)
    modifies client
    ensures client.store == Write(old(client.store), RxEntry(l), true)
    ensures status == WriteStatus(old(client.store), RxEntry(l), true)
  {
    var entry := new TableEntry();
    EncodeFdbRxVlanTableEntry(entry, l, true);
    status := client.SendWriteRequest(entry, true);
  }

  method WriteFdbTunnelTableEntry(client: Client, l: MacLearningInfo, insertEntry: bool) returns (status: Status)
    modifies client
    ensures client.store == Write(old(client.store), TxTunnelEntry(l, insertEntry), insertEntry)
    ensures status == WriteStatus(old(client.store), TxTunnelEntry(l, insertEntry), insertEntry)
  {
    var entry := new TableEntry();
    if l.tnl.tunnelType.Vxlan? {
      EncodeFdbTunnelTableEntry(entry, l, insertEntry, false);
    } else if l.tnl.tunnelType.Geneve? {
      EncodeFdbTunnelTableEntry(entry, l, insertEntry, true);
    } else if !insertEntry {
      EncodeL2FwdTxTablePrologue(entry, l);
    }
    status := client.SendWriteRequest(entry, insertEntry);
  }

  method ReadFdbTunnelTableEntry(client: Client, l: MacLearningInfo) returns (r: ReadResult)
    ensures r == Read(client.store, TxReadEntry(l))
  {
    var entry := new TableEntry();
    if l.tnl.tunnelType.Vxlan? {
      EncodeFdbTunnelTableEntry(entry, l, false, false);
    } else if l.tnl.tunnelType.Geneve? {
      EncodeFdbTunnelTableEntry(entry, l, false, true);
    }
    r := client.SendReadRequest(entry);
  }

  method ReadFdbVlanTableEntry(client: Client, l: MacLearningInfo) returns (r: ReadResult)
    ensures r == Read(client.store, TxVlanEntry(l, false))
    ensures r.Found? <==> TxKey(l.mac, l.bridgeId) in client.store
  {
    var entry := new TableEntry();
    EncodeFdbTxVlanTableEntry(entry, l, false);
    r := client.SendReadRequest(entry);
  }

  method UpdateFdbTunnelInfo(client: Client, learnInfo: LearnInfo)
    modifies learnInfo
    ensures learnInfo.info == Classify(client.store, old(learnInfo.info))
  {
    var entry := new TableEntry();
    EncodeL2ToTunnelV4(entry, learnInfo.info, false);
    var response := client.SendReadRequest(entry);
    if response.Found? {
      learnInfo.info := learnInfo.info.(isTunnel := true);
    }
    if !learnInfo.info.isTunnel {
      entry := new TableEntry();
      EncodeL2ToTunnelV6(entry, learnInfo.info, false);
      response := client.SendReadRequest(entry);
      if response.Found? {
        var tnl := learnInfo.info.tnl;
        learnInfo.info := learnInfo.info.(isTunnel := true);
        learnInfo.info := learnInfo.info.(tnl := tnl.(localIp := tnl.localIp.(family := AfInet6)));
        tnl := learnInfo.info.tnl;
        learnInfo.info := learnInfo.info.(tnl := tnl.(remoteIp := tnl.remoteIp.(family := AfInet6)));
      }
    }
  }

  method UpdateFdbSrcPortInfo(client: Client, learnInfo: LearnInfo) returns (status: Status)
    modifies learnInfo
    ensures match VsiPort(client.store, old(learnInfo.info).srcPort)
            case PortOk(port) => status == Ok && learnInfo.info == old(learnInfo.info).(srcPort := port)
            case PortFailed(error) => status == Failed(error) && learnInfo.info == old(learnInfo.info)
  {
    var hostSp := GetTxAccVsiPort(client, learnInfo.info.srcPort);
    if hostSp.PortFailed? {
      return Failed(hostSp.error);
    }
    learnInfo.info := learnInfo.info.(srcPort := hostSp.port);
    return Ok;
  }

  method ConfigFdbTunnelEntry(client: Client, l: MacLearningInfo, insertEntry: bool) returns (status: Status)
    modifies client
    ensures client.store == TunnelStep(old(client.store), l, insertEntry) && status == Ok
  {
    if insertEntry {
      var response := ReadFdbTunnelTableEntry(client, l);
      if response.Found? {
        return Ok;
      }
    }
    var ignored := WriteFdbTunnelTableEntry(client, l, insertEntry);
    ignored := WriteL2TunnelTableEntry(client, l, insertEntry);
    ignored := WriteFdbSmacTableEntry(client, l, insertEntry);
    return Ok;
  }

  method ConfigFdbVlanEntry(client: Client, learnInfo: LearnInfo, insertEntry: bool) returns (status: Status)
    modifies client, learnInfo
    ensures (client.store, status) == VlanStep(old(client.store), old(learnInfo.info), insertEntry)
  {
    if insertEntry {
      var response := ReadFdbVlanTableEntry(client, learnInfo.info);
      if response.Found? {
        return Ok;
      }
      var ignored := WriteFdbRxVlanTableEntry(client, learnInfo.info);
      status := UpdateFdbSrcPortInfo(client, learnInfo);
      if status != Ok {
        return status;
      }
    }
    var ignored := WriteFdbTxVlanTableEntry(client, learnInfo.info, insertEntry);
    ignored := WriteFdbSmacTableEntry(client, learnInfo.info, insertEntry);
    return Ok;
  }

  /** The info is passed by value: the caller's copy does not change. */
  method ConfigFdbEntry(client: Client, info: MacLearningInfo, insertEntry: bool) returns (status: Status)
    modifies client
    ensures (client.store, status) == FdbStep(old(client.store), Event(info, insertEntry))
  {
    var learnInfo := new LearnInfo(info);
    if !insertEntry {
      UpdateFdbTunnelInfo(client, learnInfo);
    }
    if learnInfo.info.isTunnel {
      status := ConfigFdbTunnelEntry(client, learnInfo.info, insertEntry);
    } else {
      status := ConfigFdbVlanEntry(client, learnInfo, insertEntry);
    }
  }
}
