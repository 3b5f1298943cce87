/**
 The P4Runtime server as a table store, and the request objects a client fills in.
 A key is a table with its match list.  INSERT fails exactly when the key is present,
 DELETE and READ exactly when it is absent.  A request that names no table, or inserts
 without an action id, is malformed and rejected.
 */
module P4Runtime {
  import opened Bytes
  import opened Wrappers

  datatype Table =
    | NoTable
    | L2FwdSmac | L2FwdTx | L2FwdRx | L2ToTunnelV4 | L2ToTunnelV6 | TxAccVsi
    | VxlanEncapMod | GeneveEncapMod | VxlanEncapV6Mod | GeneveEncapV6Mod
    | VxlanEncapVlanPopMod | GeneveEncapVlanPopMod | VxlanEncapV6VlanPopMod | GeneveEncapV6VlanPopMod
    | VxlanDecapMod | GeneveDecapMod | VxlanDecapAndVlanPushMod | GeneveDecapAndVlanPushMod
    | Ipv4TunnelTerm | Ipv6TunnelTerm
    | VlanPushMod | VlanPopMod
    | SrcIpMacMap | DstIpMacMap
    | PerfForward

  datatype Field = DstMac | SrcMac | BridgeId | ModBlobPtr | Ipv4Src | Ipv4Dst | Ipv6Src | Vni | Vsi

  datatype ActionId =
    | UnsetAction
    | NoAction | L2Fwd | RemoveVlanAndFwd
    | SetVxlanUnderlayV4 | SetVxlanUnderlayV6 | SetGeneveUnderlayV4 | SetGeneveUnderlayV6
    | PopVlanSetVxlanUnderlayV4 | PopVlanSetVxlanUnderlayV6
    | PopVlanSetGeneveUnderlayV4 | PopVlanSetGeneveUnderlayV6
    | SetTunnelV4 | SetTunnelV6
    | VxlanEncap | GeneveEncap | VxlanEncapV6 | GeneveEncapV6
    | VxlanEncapVlanPop | GeneveEncapVlanPop | VxlanEncapV6VlanPop | GeneveEncapV6VlanPop
    | VxlanDecapOuterHdr | GeneveDecapOuterHdr | VxlanDecapAndPushVlan | GeneveDecapAndPushVlan
    | SetVxlanDecapOuterHdr | SetGeneveDecapOuterHdr
    | SetVxlanDecapOuterHdrAndPushVlan | SetGeneveDecapOuterHdrAndPushVlan
    | VlanPush | VlanPop | SmacMap | DmacMap
    | L2FwdAndBypassBridge | Send

  datatype ParamId =
    | Port | PortId | VlanPtr | TunnelId | DstAddr | SrcAddr | SrcPort | DstPort | VniParam
    | Ipv6Word(i: nat) | Pcp | Dei | VlanId | MacHigh | MacMid | MacLow

  datatype Match = Match(field: Field, value: seq<byte>)
  datatype Param = Param(id: ParamId, value: seq<byte>)
  datatype Action = Action(id: ActionId, params: seq<Param>)

  /** A table entry as it is sent: the action is absent on delete and read. */
  datatype Entry = Entry(table: Table, matches: seq<Match>, action: Option<Action>) {
    function Key(): TableKey { TableKey(table, matches) }
  }

  datatype TableKey = TableKey(table: Table, matches: seq<Match>)
  type Store = map<TableKey, Action>

  datatype Error = AlreadyExists | NotFound | InvalidArgument | Internal
  datatype Status = Ok | Failed(error: Error)
  datatype ReadResult = Found(entities: seq<Entry>) | ReadFailed(error: Error)

  // ---------- server semantics ----------

  predicate Malformed(e: Entry, insert: bool) {
    e.table.NoTable? || (insert && (e.action.None? || e.action.value.id.UnsetAction?))
  }

  function WriteStatus(s: Store, e: Entry, insert: bool): Status {
    if Malformed(e, insert) then Failed(InvalidArgument)
    else if insert then (if e.Key() in s then Failed(AlreadyExists) else Ok)
    else if e.Key() in s then Ok else Failed(NotFound)
  }

  /** The store after one update; a failed update changes nothing. */
  function Write(s: Store, e: Entry, insert: bool): (s': Store)
    ensures WriteStatus(s, e, insert).Failed? ==> s' == s
    ensures forall k :: k != e.Key() ==> (k in s' <==> k in s) && (k in s ==> s'[k] == s[k])
    ensures !Malformed(e, insert) ==> (e.Key() in s' <==> insert)
  {
    if WriteStatus(s, e, insert).Failed? then s
    else if insert then s[e.Key() := e.action.value]
    else s - {e.Key()}
  }

  function Read(s: Store, e: Entry): ReadResult {
    if e.table.NoTable? then ReadFailed(InvalidArgument)
    else if e.Key() in s then Found([Entry(e.table, e.matches, Some(s[e.Key()]))])
    else ReadFailed(NotFound)
  }

  /** An accepted insert and the delete of the same key cancel out. */
  lemma InsertDeleteCancel(s: Store, ins: Entry, del: Entry)
    requires ins.Key() == del.Key() && WriteStatus(s, ins, true).Ok?
    ensures WriteStatus(Write(s, ins, true), del, false).Ok?
    ensures Write(Write(s, ins, true), del, false) == s
  {
  }

  // ---------- client side ----------

  /** A table entry message, filled in place by the encoders. */
  class TableEntry {
    var table: Table
    var matches: seq<Match>
    var action: Option<Action>

    constructor ()
      ensures Value() == Entry(NoTable, [], None)
    {
      table, matches, action := NoTable, [], None;
    }

    function Value(): Entry
      reads this
    {
      Entry(table, matches, action)
    }

    method SetTable(t: Table)
      modifies this
      ensures Value() == old(Value()).(table := t)
    {
      table := t;
    }

    method AddMatch(field: Field, value: seq<byte>)
      modifies this
      ensures Value() == old(Value()).(matches := old(matches) + [Match(field, value)])
    {
      matches := matches + [Match(field, value)];
    }

    /** mutable_action: an action without id or parameters, unless there is one already. */
    method MutableAction()
      modifies this
      ensures Value() == old(Value()).(action := Some(if old(action).Some? then old(action).value
                                                      else Action(UnsetAction, [])))
    {
      if action.None? {
        action := Some(Action(UnsetAction, []));
      }
    }

    method SetActionId(id: ActionId)
      requires action.Some?
      modifies this
      ensures Value() == old(Value()).(action := Some(old(action).value.(id := id)))
    {
      action := Some(action.value.(id := id));
    }

    method AddParam(id: ParamId, value: seq<byte>)
      requires action.Some?
      modifies this
      ensures Value() == old(Value()).(action := Some(old(action).value.(
                             params := old(action).value.params + [Param(id, value)])))
    {
      action := Some(action.value.(params := action.value.params + [Param(id, value)]));
    }
  }

  /** The connection to the server: its only state here is the server's store. */
  class Client {
    var store: Store

    constructor (initial: Store)
      ensures store == initial
    {
      store := initial;
    }

    method SendReadRequest(request: TableEntry) returns (response: ReadResult)
      ensures response == Read(store, request.Value())
    {
      if request.table.NoTable? {
        return ReadFailed(InvalidArgument);
      }
      var key := TableKey(request.table, request.matches);
      if key in store {
        return Found([Entry(key.table, key.matches, Some(store[key]))]);
      }
      return ReadFailed(NotFound);
    }

    method SendWriteRequest(request: TableEntry, insertEntry: bool) returns (status: Status)
      modifies this
      ensures store == Write(old(store), old(request.Value()), insertEntry)
      ensures status == WriteStatus(old(store), old(request.Value()), insertEntry)
    {
      var e := request.Value();
      if Malformed(e, insertEntry) {
        return Failed(InvalidArgument);
      }
      var key := e.Key();
      if insertEntry {
        if key in store {
          return Failed(AlreadyExists);
        }
        store := store[key := e.action.value];
      } else {
        if key !in store {
          return Failed(NotFound);
        }
        store := store - {key};
      }
      return Ok;
    }
  }
}
