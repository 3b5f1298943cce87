/**
 The law of l2_fwd_tx over every run: no home bridges, deletes of any shape, malformed
 inserts included.  The table is keyed by MAC and bridge, and so is its history.
 */
module FdbForwarding {
  import opened Bytes
  import opened OvsTypes
  import opened P4Runtime
  import opened Encoders
  import opened TxAccVsi
  import opened FdbTable
  import opened FdbTheorems
  import opened LearnOnce
  import opened Written

  type Station = (Mac, byte)

  /** What an event means for l2_fwd_tx. */
  function TxMeaning(s: Store, e: Event): Op<Station, MacLearningInfo> {
    var l, key := e.info, (e.info.mac, e.info.bridgeId);
    if !e.insert then Forget(key)
    else if l.isTunnel then (if WellFormed(l) then Learn(key, l) else Skip)
    else match VsiPort(s, l.srcPort)
         case PortOk(port) => Learn(key, l.(srcPort := port))
         case PortFailed(_) => Skip
  }

  function TxMeanings(s: Store, events: seq<Event>): (ops: seq<Op<Station, MacLearningInfo>>)
    ensures |ops| == |events|
  {
    seq(|events|, i requires 0 <= i < |events| => TxMeaning(s, events[i]))
  }

  predicate ShowsAt(s: Store, t: map<Station, MacLearningInfo>, m: Mac, b: byte) {
    && (TxKey(m, b) in s <==> (m, b) in t)
    && ((m, b) in t ==> TxKey(m, b) in s && s[TxKey(m, b)] == TxAction(t[(m, b)]))
  }

  /** l2_fwd_tx holds exactly what t says. */
  ghost predicate TxShows(s: Store, t: map<Station, MacLearningInfo>) {
    forall m: Mac, b: byte :: ShowsAt(s, t, m, b)
  }

  lemma OwnStationShows(s: Store, t: map<Station, MacLearningInfo>, e: Event)
    requires ShowsAt(s, t, e.info.mac, e.info.bridgeId)
    ensures ShowsAt(FdbStep(s, e).0, Apply(t, TxMeaning(s, e)), e.info.mac, e.info.bridgeId)
  {
    var l := e.info;
    if !e.insert {
      DeleteShape(s, l);
    } else if !l.isTunnel {
      VlanInsertShape(s, l);
    } else if WellFormed(l) {
      TunnelInsertShape(s, l);
    } else {
      MalformedInsertShape(s, l);
    }
  }

  lemma TxStepShows(s: Store, t: map<Station, MacLearningInfo>, e: Event)
    requires TxShows(s, t)
    ensures TxShows(FdbStep(s, e).0, Apply(t, TxMeaning(s, e)))
  {
    var s', t', l := FdbStep(s, e).0, Apply(t, TxMeaning(s, e)), e.info;
    StepFrameAll(s, e);
    forall m: Mac, b: byte ensures ShowsAt(s', t', m, b) {
      assert ShowsAt(s, t, m, b);
      if m == l.mac && b == l.bridgeId {
        OwnStationShows(s, t, e);
      } else {
        OtherMacUntouched(s, s', l, m, b);
      }
    }
  }

  lemma TxMeaningsSnoc(s: Store, events: seq<Event>)
    requires events != []
    ensures var n := |events| - 1;
            Run(TxMeanings(s, events)) == Apply(Run(TxMeanings(s, events[..n])), TxMeaning(s, events[n]))
  {
    assert TxMeanings(s, events)[..|events| - 1] == TxMeanings(s, events[..|events| - 1]);
  }

  /** Every run whatsoever from empty tables leaves l2_fwd_tx showing the learn-once table of its events. */
  lemma {:induction false} TxRunShows(s: Store, events: seq<Event>)
    requires Clean(s)
    ensures TxShows(FdbRun(s, events), Run(TxMeanings(s, events)))
  {
    if events != [] {
      var n := |events| - 1;
      var prev, e := events[..n], events[n];
      TxRunShows(s, prev);
      TxStepShows(FdbRun(s, prev), Run(TxMeanings(s, prev)), e);
      RunKeepsVsi(s, prev, e.info.srcPort);
      TxMeaningsSnoc(s, events);
    }
  }

  /** What the TX entry of a learned address says: for a VLAN the port that tx_acc_vsi resolved. */
  predicate SaysForward(s: Store, a: Action, l: MacLearningInfo) {
    if l.isTunnel then SaysTunnelForward(a, l.tnl, l.vlan.mode)
    else match VsiPort(s, l.srcPort)
         case PortOk(port) => SaysVlanForward(a, l.vlan.mode, port, l.vlan.portVlan)
         case PortFailed(_) => false
  }

  lemma MeaningSays(s: Store, e: Event)
    requires TxMeaning(s, e).Learn?
    ensures e.insert && TxMeaning(s, e).key == (e.info.mac, e.info.bridgeId)
    ensures SaysForward(s, TxAction(TxMeaning(s, e).value), e.info)
  {
    var l := e.info;
    if l.isTunnel {
      TxTunnelActionSays(l);
    } else {
      TxVlanActionSays(l.(srcPort := VsiPort(s, l.srcPort).port));
    }
  }

  /**
   Read off the history of any run: a MAC is forwarded on a bridge as its first accepted
   learn there after its last delete there said, or not at all.
   */
  lemma {:induction false} ForwardingLaw(s: Store, events: seq<Event>, m: Mac, b: byte)
    requires Clean(s)
    ensures var s', ops := FdbRun(s, events), TxMeanings(s, events);
            var tx := TableKey(L2FwdTx, [Match(DstMac, m), Match(BridgeId, [b])]);
            && (tx in s' <==> exists i :: Holder(ops, (m, b), i))
            && (forall i :: Holder(ops, (m, b), i) ==>
                  && events[i].insert && events[i].info.mac == m && events[i].info.bridgeId == b
                  && tx in s' && s'[tx] == TxAction(ops[i].value) && SaysForward(s, s'[tx], events[i].info))
  {
    var ops := TxMeanings(s, events);
    TxRunShows(s, events);
    RunLaw(ops, (m, b));
    assert ShowsAt(FdbRun(s, events), Run(ops), m, b);
    FdbKeysSay(m, b);
    forall i | Holder(ops, (m, b), i)
      ensures events[i].insert && events[i].info.mac == m && events[i].info.bridgeId == b
      ensures SaysForward(s, TxAction(ops[i].value), events[i].info)
    {
      MeaningSays(s, events[i]);
    }
  }

  // ---------- what one insert writes ----------

  lemma VlanInsertWrites(s: Store, l: MacLearningInfo)
    requires !l.isTunnel && TxKey(l.mac, l.bridgeId) !in s
    ensures var s' := FdbStep(s, Event(l, true)).0;
            var tx := TableKey(L2FwdTx, [Match(DstMac, l.mac), Match(BridgeId, [l.bridgeId])]);
            var rx := TableKey(L2FwdRx, [Match(DstMac, l.mac), Match(BridgeId, [l.bridgeId])]);
            var smac := TableKey(L2FwdSmac, [Match(SrcMac, l.mac), Match(BridgeId, [l.bridgeId])]);
            && rx in s' && (rx !in s ==> SaysReceive(s'[rx], l.rxSrcPort))
            && match VsiPort(s, l.srcPort)
               case PortFailed(_) => tx !in s' && (smac in s' <==> smac in s)
               case PortOk(port) =>
                 && tx in s' && SaysVlanForward(s'[tx], l.vlan.mode, port, l.vlan.portVlan)
                 && smac in s' && (smac !in s ==> s'[smac] == Action(NoAction, []))
  {
    FdbKeysSay(l.mac, l.bridgeId);
    VlanInsertShape(s, l);
    RxActionSays(l);
    if VsiPort(s, l.srcPort).PortOk? {
      TxVlanActionSays(l.(srcPort := VsiPort(s, l.srcPort).port));
    }
  }

  lemma TunnelInsertWrites(s: Store, l: MacLearningInfo)
    requires l.isTunnel && WellFormed(l) && TxKey(l.mac, l.bridgeId) !in s
    ensures var s' := FdbStep(s, Event(l, true)).0;
            var tx := TableKey(L2FwdTx, [Match(DstMac, l.mac), Match(BridgeId, [l.bridgeId])]);
            var smac := TableKey(L2FwdSmac, [Match(SrcMac, l.mac), Match(BridgeId, [l.bridgeId])]);
            var l2 := TableKey(if l.tnl.BothV6() then L2ToTunnelV6 else L2ToTunnelV4, [Match(DstMac, l.mac)]);
            && tx in s' && SaysTunnelForward(s'[tx], l.tnl, l.vlan.mode)
            && l2 in s' && (l2 !in s ==> SaysRemote(s'[l2], l.tnl))
            && smac in s' && (smac !in s ==> s'[smac] == Action(NoAction, []))
  {
    FdbKeysSay(l.mac, l.bridgeId);
    TunnelInsertShape(s, l);
    TxTunnelActionSays(l);
    L2ActionSays(l);
  }

  lemma L2ActionSays(l: MacLearningInfo)
    ensures SaysRemote(L2Action(l), l.tnl)
  {
    if l.tnl.BothV6() {
      V6ActionSays(l);
    } else {
      V4ActionSays(l);
    }
  }

  /**
   What any delete removes from any store: the TX and SMAC entries, and one l2_to_tunnel
   entry.  If the MAC is in the IPv4 table or the caller says it is a tunnel, the families
   of the request choose the table; otherwise it is the IPv6 table.
   */
  lemma DeleteRemoves(s: Store, d: MacLearningInfo)
    ensures var tx := TableKey(L2FwdTx, [Match(DstMac, d.mac), Match(BridgeId, [d.bridgeId])]);
            var smac := TableKey(L2FwdSmac, [Match(SrcMac, d.mac), Match(BridgeId, [d.bridgeId])]);
            var v4 := TableKey(L2ToTunnelV4, [Match(DstMac, d.mac)]);
            var v6 := TableKey(L2ToTunnelV6, [Match(DstMac, d.mac)]);
            var bothV6 := d.tnl.localIp.family.AfInet6? && d.tnl.remoteIp.family.AfInet6?;
            FdbStep(s, Event(d, false)) ==
            (s - {tx, smac} - {if (v4 in s || d.isTunnel) && !bothV6 then v4 else v6}, Ok)
  {
    FdbKeysSay(d.mac, d.bridgeId);
    DeleteShape(s, d);
    var left := s - {TxKey(d.mac, d.bridgeId), SmacKey(d.mac, d.bridgeId)};
    if V6Key(d.mac) !in s {
      assert left - {V6Key(d.mac)} == left - {};
    }
  }

  // ---------- the law of l2_fwd_rx ----------

  /** What an event means for l2_fwd_rx in the state it comes to: only a VLAN insert without a TX entry is heard. */
  function RxMeaning(s: Store, e: Event): Op<Station, uint32> {
    var l := e.info;
    if e.insert && !l.isTunnel && TxKey(l.mac, l.bridgeId) !in s then Learn((l.mac, l.bridgeId), l.rxSrcPort) else Skip
  }

  function RxMeanings(s: Store, events: seq<Event>): (ops: seq<Op<Station, uint32>>)
    ensures |ops| == |events|
  {
    seq(|events|, i requires 0 <= i < |events| => RxMeaning(FdbRun(s, events[..i]), events[i]))
  }

  lemma RxMeaningAt(s: Store, events: seq<Event>, n: nat, i: nat)
    requires i < n <= |events|
    ensures RxMeanings(s, events[..n])[i] == RxMeanings(s, events)[i]
  {
    assert events[..n][..i] == events[..i];
  }

  lemma {:induction false} RxMeaningsSnoc(s: Store, events: seq<Event>)
    requires events != []
    ensures var n := |events| - 1;
            Run(RxMeanings(s, events)) ==
            Apply(Run(RxMeanings(s, events[..n])), RxMeaning(FdbRun(s, events[..n]), events[n]))
  {
    var n := |events| - 1;
    forall i | 0 <= i < n ensures RxMeanings(s, events[..n])[i] == RxMeanings(s, events)[i] {
      RxMeaningAt(s, events, n, i);
    }
    var ops, before := RxMeanings(s, events), RxMeanings(s, events[..n]);
    assert ops[..n] == before;
    RunGrows(ops, before);
  }

  lemma RxHeard(s: Store, events: seq<Event>, i: nat)
    requires i < |events| && RxMeanings(s, events)[i].Learn?
    ensures RxMeanings(s, events)[i].value == events[i].info.rxSrcPort
  {
  }

  predicate RxShowsAt(s: Store, t: map<Station, uint32>, m: Mac, b: byte) {
    && (RxKey(m, b) in s <==> (m, b) in t)
    && ((m, b) in t ==> RxKey(m, b) in s && SaysReceive(s[RxKey(m, b)], t[(m, b)]))
  }

  lemma RxStepShows(s: Store, t: map<Station, uint32>, e: Event, m: Mac, b: byte)
    requires RxShowsAt(s, t, m, b)
    ensures RxShowsAt(FdbStep(s, e).0, Apply(t, RxMeaning(s, e)), m, b)
  {
    StepFrame(s, e, RxKey(m, b));
    if m == e.info.mac && b == e.info.bridgeId {
      OwnReceives(s, e);
    } else {
      StepFrameAll(s, e);
      OtherMacUntouched(s, FdbStep(s, e).0, e.info, m, b);
    }
  }

  lemma OwnReceives(s: Store, e: Event)
    ensures var l := e.info;
            var s', rx := FdbStep(s, e).0, RxKey(l.mac, l.bridgeId);
            var adds := e.insert && !l.isTunnel && TxKey(l.mac, l.bridgeId) !in s;
            (rx in s' <==> rx in s || adds) && (rx !in s && adds ==> SaysReceive(s'[rx], l.rxSrcPort))
  {
    var l := e.info;
    if !e.insert {
      DeleteShape(s, l);
    } else if !l.isTunnel {
      VlanInsertShape(s, l);
      RxActionSays(l);
    } else if WellFormed(l) {
      TunnelInsertShape(s, l);
    } else {
      MalformedInsertShape(s, l);
    }
  }

  lemma {:induction false} RxRunShows(s: Store, events: seq<Event>, m: Mac, b: byte)
    requires Clean(s)
    ensures RxShowsAt(FdbRun(s, events), Run(RxMeanings(s, events)), m, b)
  {
    if events != [] {
      var n := |events| - 1;
      RxRunShows(s, events[..n], m, b);
      RxStepShows(FdbRun(s, events[..n]), Run(RxMeanings(s, events[..n])), events[n], m, b);
      RxMeaningsSnoc(s, events);
    }
  }

  /**
   Over every run whatsoever from empty tables: the l2_fwd_rx entry of a MAC and bridge is
   there exactly if some VLAN insert came while there was no TX entry, and it holds the
   rx_src_port of the first such insert.
   */
  lemma {:induction false} ReceiveLaw(s: Store, events: seq<Event>, m: Mac, b: byte)
    requires Clean(s)
    ensures var s', ops := FdbRun(s, events), RxMeanings(s, events);
            var rx := TableKey(L2FwdRx, [Match(DstMac, m), Match(BridgeId, [b])]);
            && (rx in s' <==> exists i :: Holder(ops, (m, b), i))
            && (forall i :: Holder(ops, (m, b), i) ==> rx in s' && SaysReceive(s'[rx], events[i].info.rxSrcPort))
  {
    FdbKeysSay(m, b);
    RxRunShows(s, events, m, b);
    RunLaw(RxMeanings(s, events), (m, b));
    forall i | Holder(RxMeanings(s, events), (m, b), i)
      ensures RxMeanings(s, events)[i].value == events[i].info.rxSrcPort
    {
      RxHeard(s, events, i);
    }
  }
}
