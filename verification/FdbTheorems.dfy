/**
 What every run of ConfigFdbEntry keeps, when a delete undoes an insert, and when it
 does not.
 */
module FdbTheorems {
  import opened Bytes
  import opened OvsTypes
  import opened P4Runtime
  import opened Encoders
  import opened TxAccVsi
  import opened FdbTable
  import opened LearnOnce

  // ---------- vocabulary ----------

  /** What the tunnel writers need of an insert: matching families and a known tunnel type. */
  predicate WellFormed(l: MacLearningInfo) {
    l.isTunnel ==> !l.tnl.tunnelType.Unknown? && (l.tnl.BothV4() || l.tnl.BothV6())
  }

  predicate VlanKind(a: Action) { a.id in {L2Fwd, RemoveVlanAndFwd} }

  predicate TunnelKind(a: Action) {
    a.id in {SetVxlanUnderlayV4, SetVxlanUnderlayV6, SetGeneveUnderlayV4, SetGeneveUnderlayV6,
             PopVlanSetVxlanUnderlayV4, PopVlanSetVxlanUnderlayV6,
             PopVlanSetGeneveUnderlayV4, PopVlanSetGeneveUnderlayV6}
  }

  function TxAction(l: MacLearningInfo): Action {
    if l.isTunnel then TxTunnelAction(l, l.tnl.tunnelType.Geneve?) else TxVlanAction(l)
  }

  function PutNew(s: Store, k: TableKey, a: Action): Store { if k in s then s else s[k := a] }

  /** The keys a step may touch. */
  function Touched(l: MacLearningInfo): set<TableKey> {
    {TxKey(l.mac, l.bridgeId), SmacKey(l.mac, l.bridgeId), RxKey(l.mac, l.bridgeId), V4Key(l.mac), V6Key(l.mac)}
  }

  ghost predicate Clean(s: Store) {
    forall k :: k in s ==> k.table !in {L2FwdTx, L2FwdSmac, L2FwdRx, L2ToTunnelV4, L2ToTunnelV6}
  }

  // ---------- keys and shapes ----------

  lemma KeysInjective(m: Mac, b: byte, m': Mac, b': byte)
    ensures TxKey(m, b) == TxKey(m', b') <==> m == m' && b == b'
    ensures SmacKey(m, b) == SmacKey(m', b') <==> m == m' && b == b'
    ensures RxKey(m, b) == RxKey(m', b') <==> m == m' && b == b'
    ensures V4Key(m) == V4Key(m') <==> m == m'
    ensures V6Key(m) == V6Key(m') <==> m == m'
  {
    MacDecodes(m);
    MacDecodes(m');
    var k, k' := TxKey(m, b).matches, TxKey(m', b').matches;
    assert k[0].value == m && k'[0].value == m' && k[1].value == [b] && k'[1].value == [b'];
    k, k' := SmacKey(m, b).matches, SmacKey(m', b').matches;
    assert k[0].value == m && k'[0].value == m' && k[1].value == [b] && k'[1].value == [b'];
    k, k' := RxKey(m, b).matches, RxKey(m', b').matches;
    assert k[0].value == m && k'[0].value == m' && k[1].value == [b] && k'[1].value == [b'];
    assert V4Key(m).matches[0].value == m && V4Key(m').matches[0].value == m';
    assert V6Key(m).matches[0].value == m && V6Key(m').matches[0].value == m';
  }

  lemma TxActionKinds(l: MacLearningInfo)
    requires WellFormed(l)
    ensures l.isTunnel ==> TunnelKind(TxAction(l)) && !VlanKind(TxAction(l))
    ensures !l.isTunnel ==> VlanKind(TxAction(l)) && !TunnelKind(TxAction(l))
    ensures TxAction(l).id != UnsetAction
  {
  }

  lemma TunnelInsertShape(s: Store, l: MacLearningInfo)
    requires WellFormed(l) && l.isTunnel
    ensures FdbStep(s, Event(l, true)).0 ==
            if TxKey(l.mac, l.bridgeId) in s then s
            else PutNew(PutNew(s[TxKey(l.mac, l.bridgeId) := TxAction(l)], L2Key(l), L2Action(l)),
                        SmacKey(l.mac, l.bridgeId), SMAC_ACTION)
  {
  }

  /** An insert whose l2_fwd_tx request is malformed still writes the other two tables. */
  lemma MalformedInsertShape(s: Store, l: MacLearningInfo)
    requires !WellFormed(l)
    ensures FdbStep(s, Event(l, true)).0 ==
            if TxKey(l.mac, l.bridgeId) in s && !l.tnl.tunnelType.Unknown? then s
            else PutNew(PutNew(s, L2Key(l), L2Action(l)), SmacKey(l.mac, l.bridgeId), SMAC_ACTION)
  {
    assert Malformed(TxTunnelEntry(l, true), true);
  }

  /** Writing the RX entry does not change what tx_acc_vsi says. */
  lemma VlanInsertShape(s: Store, l: MacLearningInfo)
    requires !l.isTunnel
    ensures FdbStep(s, Event(l, true)) ==
            var tx := TxKey(l.mac, l.bridgeId);
            var s1 := PutNew(s, RxKey(l.mac, l.bridgeId), RxAction(l));
            if tx in s then (s, Ok)
            else match VsiPort(s, l.srcPort)
                 case PortFailed(error) => (s1, Failed(error))
                 case PortOk(port) =>
                   (PutNew(s1[tx := TxAction(l.(srcPort := port))], SmacKey(l.mac, l.bridgeId), SMAC_ACTION), Ok)
  {
    var s1 := PutNew(s, RxKey(l.mac, l.bridgeId), RxAction(l));
    assert s1 == Write(s, RxEntry(l), true);
    var request := EntryFor(VsiKey(l.srcPort), SMAC_ACTION, false);
    assert Read(s1, request) == Read(s, request);
  }

  lemma DeleteShape(s: Store, l: MacLearningInfo)
    ensures var l' := Classify(s, l);
            FdbStep(s, Event(l, false)) ==
            (s - {TxKey(l.mac, l.bridgeId), SmacKey(l.mac, l.bridgeId)} - (if l'.isTunnel then {L2Key(l')} else {}), Ok)
  {
    var l' := Classify(s, l);
    var tx, smac := TxKey(l.mac, l.bridgeId), SmacKey(l.mac, l.bridgeId);
    if l'.isTunnel {
      RemoveAll(s, TxTunnelEntry(l', false));
      RemoveAll(s - {tx}, L2Entry(l', false));
      RemoveAll(s - {tx} - {L2Key(l')}, SmacEntry(l', false));
      assert s - {tx} - {L2Key(l')} - {smac} == s - {tx, smac} - {L2Key(l')};
    } else {
      RemoveAll(s, TxVlanEntry(l', false));
      RemoveAll(s - {tx}, SmacEntry(l', false));
      assert s - {tx} - {smac} == s - {tx, smac} - {};
    }
  }

  /** A delete whose status is ignored simply leaves the key absent. */
  lemma RemoveAll(s: Store, e: Entry)
    requires !e.table.NoTable?
    ensures Write(s, e, false) == s - {e.Key()}
  {
    if e.Key() !in s {
      assert s - {e.Key()} == s;
    }
  }

  predicate SameAt(s: Store, s': Store, k: TableKey) {
    (k in s' <==> k in s) && (k in s ==> s'[k] == s[k])
  }

  /** A step changes nothing outside its five keys; and of those, RX can only be added. */
  lemma StepFrame(s: Store, e: Event, k: TableKey)
    ensures k !in Touched(e.info) ==> SameAt(s, FdbStep(s, e).0, k)
    ensures k.table.L2FwdRx? && k in s ==> SameAt(s, FdbStep(s, e).0, k)
  {
    if !e.insert {
      DeleteShape(s, e.info);
    } else if !e.info.isTunnel {
      VlanInsertShape(s, e.info);
    } else if WellFormed(e.info) {
      TunnelInsertShape(s, e.info);
    } else {
      MalformedInsertShape(s, e.info);
    }
  }

  lemma VsiFrame(s: Store, e: Event, sp: uint32)
    ensures VsiPort(FdbStep(s, e).0, sp) == VsiPort(s, sp)
  {
    StepFrame(s, e, VsiKey(sp));
  }

  // ---------- tables that stay in step ----------

  ghost predicate TxAndSmacInStep(s: Store) {
    forall m: Mac, b: byte :: TxKey(m, b) in s <==> SmacKey(m, b) in s
  }

  ghost predicate VlanKeysReceived(s: Store) {
    forall m: Mac, b: byte :: ReceivedAt(s, m, b)
  }

  /** l2_fwd_tx and l2_fwd_smac stay in step through an insert exactly when it is well formed or finds its entry. */
  lemma InsertKeepsStep(s: Store, l: MacLearningInfo)
    requires TxAndSmacInStep(s)
    ensures TxAndSmacInStep(FdbStep(s, Event(l, true)).0) <==> WellFormed(l) || TxKey(l.mac, l.bridgeId) in s
  {
    var s' := FdbStep(s, Event(l, true)).0;
    var tx, smac := TxKey(l.mac, l.bridgeId), SmacKey(l.mac, l.bridgeId);
    assert tx in s <==> smac in s;
    if !l.isTunnel {
      VlanInsertShape(s, l);
    } else if WellFormed(l) {
      TunnelInsertShape(s, l);
    } else {
      MalformedInsertShape(s, l);
      if tx !in s {
        assert tx !in s' && smac in s';
      }
    }
    if WellFormed(l) || tx in s {
      assert tx in s' <==> smac in s';
      OthersInStep(s, Event(l, true));
    }
  }

  lemma DeleteKeepsStep(s: Store, l: MacLearningInfo)
    requires TxAndSmacInStep(s)
    ensures TxAndSmacInStep(FdbStep(s, Event(l, false)).0)
  {
    DeleteShape(s, l);
    OthersInStep(s, Event(l, false));
  }

  lemma OthersInStep(s: Store, e: Event)
    requires TxAndSmacInStep(s)
    requires var s' := FdbStep(s, e).0;
             TxKey(e.info.mac, e.info.bridgeId) in s' <==> SmacKey(e.info.mac, e.info.bridgeId) in s'
    ensures TxAndSmacInStep(FdbStep(s, e).0)
  {
    var s', l := FdbStep(s, e).0, e.info;
    StepFrameAll(s, e);
    forall m: Mac, b: byte ensures TxKey(m, b) in s' <==> SmacKey(m, b) in s' {
      assert TxKey(m, b) in s <==> SmacKey(m, b) in s;
      if m != l.mac || b != l.bridgeId {
        OtherMacUntouched(s, s', l, m, b);
      }
    }
  }

  predicate ReceivedAt(s: Store, m: Mac, b: byte) {
    TxKey(m, b) in s && VlanKind(s[TxKey(m, b)]) ==> RxKey(m, b) in s
  }

  /** Every event, well formed or not, keeps the VLAN-kind TX keys among the RX keys. */
  lemma StepKeepsReceived(s: Store, e: Event)
    requires VlanKeysReceived(s)
    ensures VlanKeysReceived(FdbStep(s, e).0)
  {
    var s', l := FdbStep(s, e).0, e.info;
    StepFrameAll(s, e);
    forall m: Mac, b: byte ensures ReceivedAt(s', m, b) {
      assert ReceivedAt(s, m, b);
      if m != l.mac || b != l.bridgeId {
        OtherMacUntouched(s, s', l, m, b);
      } else {
        OwnKeyReceived(s, e);
      }
    }
  }

  lemma OwnKeyReceived(s: Store, e: Event)
    requires ReceivedAt(s, e.info.mac, e.info.bridgeId)
    ensures ReceivedAt(FdbStep(s, e).0, e.info.mac, e.info.bridgeId)
  {
    var l := e.info;
    if !e.insert {
      DeleteShape(s, l);
    } else if !l.isTunnel {
      VlanInsertShape(s, l);
    } else if WellFormed(l) {
      TunnelInsertShape(s, l);
      TxActionKinds(l);
    } else {
      MalformedInsertShape(s, l);
    }
  }

  /** Over every run from empty tables, malformed requests included. */
  lemma {:induction false} RunReceived(s: Store, events: seq<Event>)
    requires Clean(s)
    ensures VlanKeysReceived(FdbRun(s, events))
  {
    if events != [] {
      var n := |events| - 1;
      RunReceived(s, events[..n]);
      StepKeepsReceived(FdbRun(s, events[..n]), events[n]);
    }
  }

  /** Over every run of deletes and well-formed inserts from empty tables. */
  lemma {:induction false} RunInStep(s: Store, events: seq<Event>)
    requires Clean(s)
    requires forall e :: e in events && e.insert ==> WellFormed(e.info)
    ensures TxAndSmacInStep(FdbRun(s, events))
  {
    if events != [] {
      var prev, e := events[..|events| - 1], events[|events| - 1];
      assert e in events;
      RunInStep(s, prev);
      if e.insert {
        InsertKeepsStep(FdbRun(s, prev), e.info);
      } else {
        DeleteKeepsStep(FdbRun(s, prev), e.info);
      }
    }
  }

  /** No run at all, well formed or not, removes or alters an l2_fwd_rx entry. */
  lemma {:induction false} RxOnlyGrows(s: Store, events: seq<Event>, k: TableKey)
    requires k in s && k.table.L2FwdRx?
    ensures k in FdbRun(s, events) && FdbRun(s, events)[k] == s[k]
  {
    if events != [] {
      var prev := events[..|events| - 1];
      RxOnlyGrows(s, prev, k);
      StepFrame(FdbRun(s, prev), events[|events| - 1], k);
    }
  }

  /** Repeating an insert, whatever it was, changes nothing and gives the same status. */
  lemma RepeatedInsert(s: Store, l: MacLearningInfo)
    ensures var (s', status) := FdbStep(s, Event(l, true));
            FdbStep(s', Event(l, true)) == (s', status)
  {
    var (s', status) := FdbStep(s, Event(l, true));
    if !l.isTunnel {
      VlanInsertShape(s, l);
      VlanInsertShape(s', l);
      VsiFrame(s, Event(l, true), l.srcPort);
    } else if WellFormed(l) {
      TunnelInsertShape(s, l);
      TunnelInsertShape(s', l);
    } else {
      MalformedInsertShape(s, l);
      MalformedInsertShape(s', l);
    }
  }

  // ---------- when a delete undoes an insert ----------

  /** A delete request as OVS sends it: not known to be a tunnel, families not both IPv6. */
  predicate PlainDelete(l: MacLearningInfo) { !l.isTunnel && !l.tnl.BothV6() }

  /**
   A tunnel insert that finds neither a TX nor an SMAC entry is undone by the next
   plain delete exactly when no l2_to_tunnel entry of that MAC was in the way.
   */
  lemma {:induction false} TunnelInsertUndone(s: Store, l: MacLearningInfo, d: MacLearningInfo)
    requires WellFormed(l) && l.isTunnel && PlainDelete(d) && d.mac == l.mac && d.bridgeId == l.bridgeId
    requires TxKey(l.mac, l.bridgeId) !in s && SmacKey(l.mac, l.bridgeId) !in s
    ensures FdbRun(s, [Event(l, true), Event(d, false)]) == s <==>
            V4Key(l.mac) !in s && (l.tnl.BothV6() ==> V6Key(l.mac) !in s)
  {
    var s1 := FdbStep(s, Event(l, true)).0;
    TwoSteps(s, Event(l, true), Event(d, false));
    TunnelInsertShape(s, l);
    PlainDeleteShape(s1, d);
    UndoneMaps(s, TxKey(l.mac, l.bridgeId), SmacKey(l.mac, l.bridgeId), V4Key(l.mac), V6Key(l.mac), L2Key(l),
               TxAction(l), L2Action(l), SMAC_ACTION);
  }

  lemma UndoneMaps(s: Store, tx: TableKey, smac: TableKey, v4: TableKey, v6: TableKey, l2: TableKey,
                   a: Action, b: Action, c: Action)
    requires tx != smac && tx !in {v4, v6} && smac !in {v4, v6} && v4 != v6 && l2 in {v4, v6}
    requires tx !in s && smac !in s
    ensures var s1 := PutNew(PutNew(s[tx := a], l2, b), smac, c);
            s1 - {tx, smac} - DeletedTunnel(s1, v4, v6) == s <==> v4 !in s && (l2 == v6 ==> v6 !in s)
  {
    var s1 := PutNew(PutNew(s[tx := a], l2, b), smac, c);
    var s2 := s1 - {tx, smac} - DeletedTunnel(s1, v4, v6);
    if v4 in s {
      assert v4 !in s2;
    } else if l2 == v6 && v6 in s {
      assert v6 !in s2;
    } else {
      assert s2 == s;
    }
  }

  /** The l2_to_tunnel key that a plain delete picks: IPv4 first, then IPv6. */
  function DeletedTunnel(s: Store, v4: TableKey, v6: TableKey): set<TableKey> {
    if v4 in s then {v4} else if v6 in s then {v6} else {}
  }

  lemma PlainDeleteShape(s: Store, d: MacLearningInfo)
    requires PlainDelete(d)
    ensures FdbStep(s, Event(d, false)).0 ==
            s - {TxKey(d.mac, d.bridgeId), SmacKey(d.mac, d.bridgeId)} - DeletedTunnel(s, V4Key(d.mac), V6Key(d.mac))
  {
    DeleteShape(s, d);
  }

  lemma {:induction false} TwoSteps(s: Store, a: Event, b: Event)
    ensures FdbRun(s, [a, b]) == FdbStep(FdbStep(s, a).0, b).0
  {
    assert [a, b][..1] == [a] && [a][..0] == [];
    assert FdbRun(s, [a]) == FdbStep(FdbRun(s, []), a).0;
  }

  /**
   A VLAN insert is undone except for its RX entry, which stays for ever; but if the MAC
   was in an l2_to_tunnel table, the delete takes it for a tunnel and removes that entry.
   */
  lemma {:induction false} VlanInsertLeavesRx(s: Store, l: MacLearningInfo, d: MacLearningInfo)
    requires !l.isTunnel && PlainDelete(d) && d.mac == l.mac && d.bridgeId == l.bridgeId
    requires TxKey(l.mac, l.bridgeId) !in s && SmacKey(l.mac, l.bridgeId) !in s
    ensures FdbRun(s, [Event(l, true), Event(d, false)]) ==
            PutNew(s, RxKey(l.mac, l.bridgeId), RxAction(l)) - DeletedTunnel(s, V4Key(l.mac), V6Key(l.mac))
  {
    TwoSteps(s, Event(l, true), Event(d, false));
    VlanThenDelete(s, l, d, FdbStep(s, Event(l, true)).0);
  }

  lemma VlanThenDelete(s: Store, l: MacLearningInfo, d: MacLearningInfo, s1: Store)
    requires !l.isTunnel && PlainDelete(d) && d.mac == l.mac && d.bridgeId == l.bridgeId
    requires TxKey(l.mac, l.bridgeId) !in s && SmacKey(l.mac, l.bridgeId) !in s && s1 == FdbStep(s, Event(l, true)).0
    ensures FdbStep(s1, Event(d, false)).0 ==
            PutNew(s, RxKey(l.mac, l.bridgeId), RxAction(l)) - DeletedTunnel(s, V4Key(l.mac), V6Key(l.mac))
  {
    var r := PutNew(s, RxKey(l.mac, l.bridgeId), RxAction(l));
    VlanInsertFrame(s, l);
    assert SameAt(r, s1, V4Key(l.mac)) && SameAt(r, s1, V6Key(l.mac));
    PlainDeleteShape(s1, d);
    VlanUndoneMaps(r, s1, TxKey(l.mac, l.bridgeId), SmacKey(l.mac, l.bridgeId),
                   DeletedTunnel(s, V4Key(l.mac), V6Key(l.mac)));
  }

  lemma VlanInsertFrame(s: Store, l: MacLearningInfo)
    requires !l.isTunnel && TxKey(l.mac, l.bridgeId) !in s
    ensures var r := PutNew(s, RxKey(l.mac, l.bridgeId), RxAction(l));
            forall k :: k !in {TxKey(l.mac, l.bridgeId), SmacKey(l.mac, l.bridgeId)} ==>
                          SameAt(r, FdbStep(s, Event(l, true)).0, k)
  {
    VlanInsertShape(s, l);
  }

  lemma VlanUndoneMaps(r: Store, s1: Store, tx: TableKey, smac: TableKey, gone: set<TableKey>)
    requires tx !in r && smac !in r
    requires forall k :: k !in {tx, smac} ==> SameAt(r, s1, k)
    ensures s1 - {tx, smac} - gone == r - gone
  {
    var s2 := s1 - {tx, smac};
    forall k ensures SameAt(r, s2, k) && (k in s2.Keys <==> k in r.Keys) {
      assert k !in {tx, smac} ==> SameAt(r, s1, k);
    }
    assert s2.Keys == r.Keys;
    assert s2 == r;
  }

  // ---------- tunnel classification ----------

  /**
   With one home bridge per MAC: the TX entry of a MAC is a tunnel entry exactly when
   the MAC is in exactly one of the two l2_to_tunnel tables, and otherwise in neither.
   */
  ghost predicate Classified(s: Store, home: Mac -> byte) {
    forall m: Mac :: ClassifiedMac(s, m, home(m))
  }

  predicate ClassifiedMac(s: Store, m: Mac, b: byte) {
    && !(V4Key(m) in s && V6Key(m) in s)
    && (TxKey(m, b) in s && TunnelKind(s[TxKey(m, b)]) <==> V4Key(m) in s || V6Key(m) in s)
  }

  /**
   A delete of any shape and on any bridge keeps the classification exactly when, for a
   MAC in an l2_to_tunnel table, it picks the present one and names the home bridge, or
   does neither.
   */
  lemma DeleteKeepsClassified(s: Store, d: MacLearningInfo, home: Mac -> byte)
    requires Classified(s, home)
    ensures Classified(FdbStep(s, Event(d, false)).0, home) <==>
            (V4Key(d.mac) in s || V6Key(d.mac) in s ==>
               (L2Key(Classify(s, d)) in s <==> d.bridgeId == home(d.mac)))
    ensures L2Key(Classify(s, d)) in s <==>
            if d.tnl.BothV6() then V6Key(d.mac) in s
            else V4Key(d.mac) in s || (V6Key(d.mac) in s && !d.isTunnel)
  {
    var s', m := FdbStep(s, Event(d, false)).0, d.mac;
    assert ClassifiedMac(s, m, home(m));
    StepFrameAll(s, Event(d, false));
    forall m': Mac | m' != m ensures ClassifiedMac(s', m', home(m')) {
      assert ClassifiedMac(s, m', home(m'));
      OtherMacUntouched(s, s', d, m', home(m'));
    }
    DeleteKeepsOwnClassified(s, d, home(m));
    assert Classified(s', home) <==> ClassifiedMac(s', m, home(m));
  }

  lemma DeleteKeepsOwnClassified(s: Store, d: MacLearningInfo, b: byte)
    requires ClassifiedMac(s, d.mac, b)
    ensures ClassifiedMac(FdbStep(s, Event(d, false)).0, d.mac, b) <==>
            (V4Key(d.mac) in s || V6Key(d.mac) in s ==> (L2Key(Classify(s, d)) in s <==> d.bridgeId == b))
  {
    DeleteShape(s, d);
    KeysInjective(d.mac, b, d.mac, d.bridgeId);
  }

  /** A frame that holds for every key outside Touched leaves the keys of other MACs and bridges alone. */
  lemma OtherMacUntouched(s: Store, s': Store, l: MacLearningInfo, m: Mac, b: byte)
    requires forall k :: k !in Touched(l) ==> SameAt(s, s', k)
    requires m != l.mac || b != l.bridgeId
    ensures SameAt(s, s', TxKey(m, b)) && SameAt(s, s', SmacKey(m, b)) && SameAt(s, s', RxKey(m, b))
    ensures m != l.mac ==> SameAt(s, s', V4Key(m)) && SameAt(s, s', V6Key(m))
  {
    KeysInjective(m, b, l.mac, l.bridgeId);
  }

  lemma StepFrameAll(s: Store, e: Event)
    ensures forall k :: k !in Touched(e.info) ==> SameAt(s, FdbStep(s, e).0, k)
  {
    forall k | k !in Touched(e.info) ensures SameAt(s, FdbStep(s, e).0, k) {
      StepFrame(s, e, k);
    }
  }

  /**
   Without the one-bridge assumption the classification breaks: learn a MAC over a
   tunnel on two bridges and delete it from one, and the other bridge keeps a tunnel
   TX entry that no l2_to_tunnel table knows.
   */
  lemma TwoBridgesMisclassify(l1: MacLearningInfo, l2: MacLearningInfo, d: MacLearningInfo)
    requires l1.isTunnel && l1.tnl.BothV4() && WellFormed(l1)
    requires l2.isTunnel && l2.tnl.BothV4() && WellFormed(l2)
    requires PlainDelete(d) && l1.mac == l2.mac == d.mac && l1.bridgeId == d.bridgeId != l2.bridgeId
    ensures var s := FdbStep(FdbRun(map[], [Event(l1, true), Event(l2, true)]), Event(d, false)).0;
            && TxKey(l2.mac, l2.bridgeId) in s && TunnelKind(s[TxKey(l2.mac, l2.bridgeId)])
            && V4Key(l2.mac) !in s && V6Key(l2.mac) !in s
  {
    var s1 := FdbStep(map[], Event(l1, true)).0;
    var s2 := FdbStep(s1, Event(l2, true)).0;
    TwoSteps(map[], Event(l1, true), Event(l2, true));
    TunnelInsertV4(map[], l1);
    KeysInjective(l1.mac, l1.bridgeId, l2.mac, l2.bridgeId);
    StepFrame(map[], Event(l1, true), TxKey(l2.mac, l2.bridgeId));
    TunnelInsertV4(s1, l2);
    PlainDeleteShape(s2, d);
    TxActionKinds(l2);
  }

  lemma TunnelInsertV4(s: Store, l: MacLearningInfo)
    requires l.isTunnel && l.tnl.BothV4() && WellFormed(l) && TxKey(l.mac, l.bridgeId) !in s
    ensures var s' := FdbStep(s, Event(l, true)).0;
            && TxKey(l.mac, l.bridgeId) in s' && s'[TxKey(l.mac, l.bridgeId)] == TxAction(l)
            && V4Key(l.mac) in s' && (V6Key(l.mac) in s' <==> V6Key(l.mac) in s)
  {
    TunnelInsertShape(s, l);
  }

  // ---------- the five tables refine one learning table ----------

  predicate Disciplined(e: Event, home: Mac -> byte) {
    && e.info.bridgeId == home(e.info.mac)
    && (if e.insert then WellFormed(e.info) else PlainDelete(e.info))
  }

  /** What an event means for the abstract learning table; tx_acc_vsi resolves VLAN ports. */
  function Meaning(s: Store, e: Event): Op<Mac, MacLearningInfo> {
    if !e.insert then Forget(e.info.mac)
    else if e.info.isTunnel then Learn(e.info.mac, e.info)
    else match VsiPort(s, e.info.srcPort)
         case PortOk(port) => Learn(e.info.mac, e.info.(srcPort := port))
         case PortFailed(_) => Skip
  }

  function Meanings(s: Store, events: seq<Event>): (ops: seq<Op<Mac, MacLearningInfo>>)
    ensures |ops| == |events|
  {
    seq(|events|, i requires 0 <= i < |events| => Meaning(s, events[i]))
  }

  predicate ShowsMac(s: Store, t: map<Mac, MacLearningInfo>, m: Mac, b: byte) {
    var tx, smac := TxKey(m, b), SmacKey(m, b);
    if m !in t then tx !in s && smac !in s && V4Key(m) !in s && V6Key(m) !in s
    else
      var l := t[m];
      && l.mac == m && WellFormed(l)
      && tx in s && s[tx] == TxAction(l)
      && smac in s && s[smac] == SMAC_ACTION
      && (V4Key(m) in s <==> l.isTunnel && !l.tnl.BothV6())
      && (V6Key(m) in s <==> l.isTunnel && l.tnl.BothV6())
      && (l.isTunnel ==> s[L2Key(l)] == L2Action(l))
      && (!l.isTunnel ==> RxKey(m, b) in s)
  }

  /** The store shows the learning table t: every MAC at home as t says, and nothing elsewhere. */
  ghost predicate Shows(s: Store, t: map<Mac, MacLearningInfo>, home: Mac -> byte) {
    && (forall m: Mac :: ShowsMac(s, t, m, home(m)))
    && (forall m: Mac, b: byte :: b != home(m) ==> TxKey(m, b) !in s && SmacKey(m, b) !in s)
  }

  lemma ShowsAreClassified(s: Store, t: map<Mac, MacLearningInfo>, home: Mac -> byte)
    requires Shows(s, t, home)
    ensures Classified(s, home)
  {
    forall m: Mac ensures ClassifiedMac(s, m, home(m)) {
      assert ShowsMac(s, t, m, home(m));
      if m in t {
        TxActionKinds(t[m]);
      }
    }
  }

  lemma StepShowsOwnMac(s: Store, t: map<Mac, MacLearningInfo>, e: Event, b: byte)
    requires ShowsMac(s, t, e.info.mac, b) && b == e.info.bridgeId
    requires if e.insert then WellFormed(e.info) else PlainDelete(e.info)
    ensures ShowsMac(FdbStep(s, e).0, Apply(t, Meaning(s, e)), e.info.mac, b)
  {
    var l := e.info;
    if !e.insert {
      DeleteShape(s, l);
    } else if l.isTunnel {
      TunnelInsertShape(s, l);
    } else {
      VlanInsertShape(s, l);
    }
  }

  lemma StepShows(s: Store, t: map<Mac, MacLearningInfo>, e: Event, home: Mac -> byte)
    requires Shows(s, t, home) && Disciplined(e, home)
    ensures Shows(FdbStep(s, e).0, Apply(t, Meaning(s, e)), home)
  {
    var s', t' := FdbStep(s, e).0, Apply(t, Meaning(s, e));
    StepFrameAll(s, e);
    forall m: Mac ensures ShowsMac(s', t', m, home(m)) {
      assert ShowsMac(s, t, m, home(m));
      if m == e.info.mac {
        StepShowsOwnMac(s, t, e, home(m));
      } else {
        OtherMacUntouched(s, s', e.info, m, home(m));
      }
    }
    forall m: Mac, b: byte | b != home(m) ensures TxKey(m, b) !in s' && SmacKey(m, b) !in s' {
      OtherMacUntouched(s, s', e.info, m, b);
    }
  }

  lemma {:induction false} RunKeepsVsi(s: Store, events: seq<Event>, sp: uint32)
    ensures VsiPort(FdbRun(s, events), sp) == VsiPort(s, sp)
  {
    if events != [] {
      var prev := events[..|events| - 1];
      RunKeepsVsi(s, prev, sp);
      VsiFrame(FdbRun(s, prev), events[|events| - 1], sp);
    }
  }

  lemma {:induction false} MeaningStable(s: Store, events: seq<Event>, e: Event)
    ensures Meaning(FdbRun(s, events), e) == Meaning(s, e)
  {
    RunKeepsVsi(s, events, e.info.srcPort);
  }

  lemma MeaningsSnoc(s: Store, events: seq<Event>)
    requires events != []
    ensures var n := |events| - 1;
            Run(Meanings(s, events)) == Apply(Run(Meanings(s, events[..n])), Meaning(s, events[n]))
  {
    assert Meanings(s, events)[..|events| - 1] == Meanings(s, events[..|events| - 1]);
  }

  lemma CleanShowsNothing(s: Store, home: Mac -> byte)
    requires Clean(s)
    ensures Shows(s, map[], home)
  {
  }

  /**
   Refinement: from empty tables, every disciplined run leaves the five tables showing
   exactly the learn-once table of its events.
   */
  lemma {:induction false} RunShows(s: Store, events: seq<Event>, home: Mac -> byte)
    requires Clean(s) && forall e :: e in events ==> Disciplined(e, home)
    ensures Shows(FdbRun(s, events), Run(Meanings(s, events)), home)
  {
    if events == [] {
      CleanShowsNothing(s, home);
    } else {
      var n := |events| - 1;
      RunShows(s, events[..n], home);
      assert Disciplined(events[n], home);
      StepShows(FdbRun(s, events[..n]), Run(Meanings(s, events[..n])), events[n], home);
      MeaningStable(s, events[..n], events[n]);
      MeaningsSnoc(s, events);
    }
  }

  predicate V6Kind(a: Action) {
    a.id in {SetVxlanUnderlayV6, SetGeneveUnderlayV6, PopVlanSetVxlanUnderlayV6, PopVlanSetGeneveUnderlayV6}
  }

  /** What UpdateFdbTunnelInfo answers agrees with the TX entry: tunnel or not, and of which family. */
  predicate ClassifiesRightly(s: Store, d: MacLearningInfo) {
    var tx, d' := TxKey(d.mac, d.bridgeId), Classify(s, d);
    && (d'.isTunnel <==> tx in s && TunnelKind(s[tx]))
    && (d'.isTunnel ==> L2Key(d') in s && (d'.tnl.BothV6() <==> V6Kind(s[tx])))
  }

  /** So in a disciplined run UpdateFdbTunnelInfo always finds the right table. */
  lemma {:induction false} RunClassified(s: Store, events: seq<Event>, home: Mac -> byte)
    requires Clean(s) && forall e :: e in events ==> Disciplined(e, home)
    ensures Classified(FdbRun(s, events), home)
    ensures forall d: MacLearningInfo :: Disciplined(Event(d, false), home) ==> ClassifiesRightly(FdbRun(s, events), d)
  {
    var s', t := FdbRun(s, events), Run(Meanings(s, events));
    RunShows(s, events, home);
    ShowsAreClassified(s', t, home);
    forall d: MacLearningInfo | Disciplined(Event(d, false), home) ensures ClassifiesRightly(s', d) {
      ShownClassifiesRightly(s', t, d);
    }
  }

  lemma ShownClassifiesRightly(s: Store, t: map<Mac, MacLearningInfo>, d: MacLearningInfo)
    requires ShowsMac(s, t, d.mac, d.bridgeId) && PlainDelete(d)
    ensures ClassifiesRightly(s, d)
  {
    if d.mac in t {
      TxActionKinds(t[d.mac]);
    }
  }

  /** Read off the history: a MAC is forwarded as its first learn after its last delete said, or not at all. */
  lemma {:induction false} HomeForwardingLaw(s: Store, events: seq<Event>, home: Mac -> byte, m: Mac)
    requires Clean(s) && forall e :: e in events ==> Disciplined(e, home)
    ensures var s', ops := FdbRun(s, events), Meanings(s, events);
            && (TxKey(m, home(m)) in s' <==> exists i :: Holder(ops, m, i))
            && (forall i :: Holder(ops, m, i) ==>
                              TxKey(m, home(m)) in s' && s'[TxKey(m, home(m))] == TxAction(ops[i].value))
  {
    var ops := Meanings(s, events);
    RunShows(s, events, home);
    RunLaw(ops, m);
    assert ShowsMac(FdbRun(s, events), Run(ops), m, home(m));
  }

  /** In every disciplined reachable state a tunnel insert that finds no entry is undone by the next delete. */
  lemma {:induction false} ReachableTunnelInsertUndone(
    s: Store, events: seq<Event>, home: Mac -> byte, l: MacLearningInfo, d: MacLearningInfo)
    requires Clean(s) && forall e :: e in events ==> Disciplined(e, home)
    requires Disciplined(Event(l, true), home) && l.isTunnel && Disciplined(Event(d, false), home) && d.mac == l.mac
    requires TxKey(l.mac, l.bridgeId) !in FdbRun(s, events)
    ensures FdbRun(FdbRun(s, events), [Event(l, true), Event(d, false)]) == FdbRun(s, events)
  {
    var s' := FdbRun(s, events);
    RunShows(s, events, home);
    assert ShowsMac(s', Run(Meanings(s, events)), l.mac, home(l.mac));
    TunnelInsertUndone(s', l, d);
  }
}
