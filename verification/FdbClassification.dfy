/**
 Tunnel classification without any assumption on bridges.  l2_fwd_tx is keyed by MAC and
 bridge, the l2_to_tunnel tables by the MAC alone: which single steps and which runs keep
 them tied together, exactly.
 */
module FdbClassification {
  import opened Bytes
  import opened OvsTypes
  import opened P4Runtime
  import opened Encoders
  import opened FdbTable
  import opened FdbTheorems
  import opened LearnOnce

  predicate TunnelTxOn(s: Store, m: Mac, b: byte) { TxKey(m, b) in s && TunnelKind(s[TxKey(m, b)]) }

  ghost predicate TunnelTxSomewhere(s: Store, m: Mac) { exists b: byte :: TunnelTxOn(s, m, b) }

  ghost predicate TunnelTxElsewhere(s: Store, m: Mac, b: byte) { exists c: byte :: c != b && TunnelTxOn(s, m, c) }

  predicate InTunnelTable(s: Store, m: Mac) { V4Key(m) in s || V6Key(m) in s }

  /** The MAC is in one l2_to_tunnel table if some bridge forwards it into a tunnel, and in none otherwise. */
  ghost predicate TiedMac(s: Store, m: Mac) {
    !(V4Key(m) in s && V6Key(m) in s) && (TunnelTxSomewhere(s, m) <==> InTunnelTable(s, m))
  }

  ghost predicate Tied(s: Store) { forall m: Mac :: TiedMac(s, m) }

  /** The l2_to_tunnel key of the family that an insert does not write. */
  function OtherL2Key(l: MacLearningInfo): TableKey { if l.tnl.BothV6() then V4Key(l.mac) else V6Key(l.mac) }

  // ---------- one step, exactly ----------

  /** What keeps the tables tied, as a caller could check it in the state before the call. */
  ghost predicate KeepsTied(s: Store, e: Event) {
    var l := e.info;
    var tx := TxKey(l.mac, l.bridgeId);
    if !e.insert then
      InTunnelTable(s, l.mac) ==> (L2Key(Classify(s, l)) !in s <==> TunnelTxElsewhere(s, l.mac, l.bridgeId))
    else if !l.isTunnel then true
    else if WellFormed(l) then tx in s || OtherL2Key(l) !in s
    else (tx in s && !l.tnl.tunnelType.Unknown?) || L2Key(l) in s
  }

  /** Every event, well formed or not and on any bridge, keeps the tables tied exactly under its condition. */
  lemma StepKeepsTied(s: Store, e: Event)
    requires Tied(s)
    ensures Tied(FdbStep(s, e).0) <==> KeepsTied(s, e)
  {
    var s', m := FdbStep(s, e).0, e.info.mac;
    OtherMacsTied(s, e);
    assert Tied(s') <==> TiedMac(s', m);
    if !e.insert {
      DeleteTies(s, e.info);
    } else if !e.info.isTunnel {
      VlanInsertTies(s, e.info);
    } else {
      TunnelInsertTies(s, e.info);
    }
  }

  lemma OtherMacsTied(s: Store, e: Event)
    requires Tied(s)
    ensures forall m: Mac :: m != e.info.mac ==> TiedMac(FdbStep(s, e).0, m)
  {
    var s' := FdbStep(s, e).0;
    StepFrameAll(s, e);
    forall m: Mac | m != e.info.mac ensures TiedMac(s', m) {
      assert TiedMac(s, m);
      forall b: byte ensures TunnelTxOn(s', m, b) <==> TunnelTxOn(s, m, b) {
        OtherMacUntouched(s, s', e.info, m, b);
      }
      OtherMacUntouched(s, s', e.info, m, 0);
    }
  }

  /** On the other bridges a step changes nothing for its own MAC. */
  lemma OtherBridgesUntouched(s: Store, e: Event)
    ensures forall b: byte :: b != e.info.bridgeId ==>
              (TunnelTxOn(FdbStep(s, e).0, e.info.mac, b) <==> TunnelTxOn(s, e.info.mac, b))
  {
    StepFrameAll(s, e);
    forall b: byte | b != e.info.bridgeId
      ensures TunnelTxOn(FdbStep(s, e).0, e.info.mac, b) <==> TunnelTxOn(s, e.info.mac, b)
    {
      OtherMacUntouched(s, FdbStep(s, e).0, e.info, e.info.mac, b);
    }
  }

  lemma SomewhereOrElsewhere(s: Store, m: Mac, b: byte)
    ensures TunnelTxSomewhere(s, m) <==> TunnelTxOn(s, m, b) || TunnelTxElsewhere(s, m, b)
  {
  }

  lemma ElsewhereKept(s: Store, e: Event)
    ensures TunnelTxElsewhere(FdbStep(s, e).0, e.info.mac, e.info.bridgeId)
            <==> TunnelTxElsewhere(s, e.info.mac, e.info.bridgeId)
  {
    OtherBridgesUntouched(s, e);
  }

  lemma DeleteTies(s: Store, d: MacLearningInfo)
    requires TiedMac(s, d.mac)
    ensures TiedMac(FdbStep(s, Event(d, false)).0, d.mac) <==> KeepsTied(s, Event(d, false))
  {
    var e := Event(d, false);
    var s' := FdbStep(s, e).0;
    ElsewhereKept(s, e);
    SomewhereOrElsewhere(s, d.mac, d.bridgeId);
    SomewhereOrElsewhere(s', d.mac, d.bridgeId);
    DeletedKeys(s, d);
  }

  lemma DeletedKeys(s: Store, d: MacLearningInfo)
    ensures var s', d' := FdbStep(s, Event(d, false)).0, Classify(s, d);
            && TxKey(d.mac, d.bridgeId) !in s'
            && (V4Key(d.mac) in s' <==> V4Key(d.mac) in s && !(d'.isTunnel && L2Key(d') == V4Key(d.mac)))
            && (V6Key(d.mac) in s' <==> V6Key(d.mac) in s && !(d'.isTunnel && L2Key(d') == V6Key(d.mac)))
            && (InTunnelTable(s, d.mac) ==> d'.isTunnel)
  {
    DeleteShape(s, d);
  }

  lemma VlanInsertTies(s: Store, l: MacLearningInfo)
    requires TiedMac(s, l.mac) && !l.isTunnel
    ensures TiedMac(FdbStep(s, Event(l, true)).0, l.mac)
  {
    var e := Event(l, true);
    ElsewhereKept(s, e);
    SomewhereOrElsewhere(s, l.mac, l.bridgeId);
    SomewhereOrElsewhere(FdbStep(s, e).0, l.mac, l.bridgeId);
    VlanInserted(s, l);
  }

  lemma VlanInserted(s: Store, l: MacLearningInfo)
    requires !l.isTunnel
    ensures var s' := FdbStep(s, Event(l, true)).0;
            && (TunnelTxOn(s', l.mac, l.bridgeId) <==> TunnelTxOn(s, l.mac, l.bridgeId))
            && (V4Key(l.mac) in s' <==> V4Key(l.mac) in s) && (V6Key(l.mac) in s' <==> V6Key(l.mac) in s)
  {
    VlanInsertShape(s, l);
  }

  lemma TunnelInsertTies(s: Store, l: MacLearningInfo)
    requires TiedMac(s, l.mac) && l.isTunnel
    ensures TiedMac(FdbStep(s, Event(l, true)).0, l.mac) <==> KeepsTied(s, Event(l, true))
  {
    var e := Event(l, true);
    ElsewhereKept(s, e);
    SomewhereOrElsewhere(s, l.mac, l.bridgeId);
    SomewhereOrElsewhere(FdbStep(s, e).0, l.mac, l.bridgeId);
    if WellFormed(l) {
      TunnelInserted(s, l);
    } else {
      MalformedInserted(s, l);
    }
  }

  lemma TunnelInserted(s: Store, l: MacLearningInfo)
    requires WellFormed(l) && l.isTunnel
    ensures var s', tx := FdbStep(s, Event(l, true)).0, TxKey(l.mac, l.bridgeId);
            && (tx in s ==> s' == s)
            && (tx !in s ==> TunnelTxOn(s', l.mac, l.bridgeId) && L2Key(l) in s'
                             && (OtherL2Key(l) in s' <==> OtherL2Key(l) in s))
  {
    TunnelInsertShape(s, l);
    TxActionKinds(l);
  }

  lemma MalformedInserted(s: Store, l: MacLearningInfo)
    requires !WellFormed(l)
    ensures var s', tx := FdbStep(s, Event(l, true)).0, TxKey(l.mac, l.bridgeId);
            && (TunnelTxOn(s', l.mac, l.bridgeId) <==> TunnelTxOn(s, l.mac, l.bridgeId))
            && (OtherL2Key(l) in s' <==> OtherL2Key(l) in s)
            && (L2Key(l) in s' <==> L2Key(l) in s || !(tx in s && !l.tnl.tunnelType.Unknown?))
  {
    MalformedInsertShape(s, l);
  }

  // ---------- runs, exactly ----------

  lemma CleanIsTied(s: Store)
    requires Clean(s)
    ensures Tied(s)
  {
  }

  /** The tables are tied after every event of a run. */
  ghost predicate TiedThroughout(s: Store, events: seq<Event>) {
    Tied(FdbRun(s, events)) && (events != [] ==> TiedThroughout(s, events[..|events| - 1]))
  }

  /** Every event of a run meets its condition in the state it comes to. */
  ghost predicate EachKeepsTied(s: Store, events: seq<Event>) {
    events != [] ==>
      var n := |events| - 1;
      EachKeepsTied(s, events[..n]) && KeepsTied(FdbRun(s, events[..n]), events[n])
  }

  /** A run from empty tables stays tied throughout exactly when every event meets its condition. */
  lemma {:induction false} RunKeepsTied(s: Store, events: seq<Event>)
    requires Clean(s)
    ensures TiedThroughout(s, events) <==> EachKeepsTied(s, events)
  {
    if events == [] {
      CleanIsTied(s);
    } else {
      var n := |events| - 1;
      var prev, e := events[..n], events[n];
      RunKeepsTied(s, prev);
      LastKeepsTied(s, prev, e, FdbRun(s, events));
    }
  }

  lemma {:induction false} LastKeepsTied(s: Store, prev: seq<Event>, e: Event, s': Store)
    requires s' == FdbStep(FdbRun(s, prev), e).0
    ensures TiedThroughout(s, prev) ==> (Tied(s') <==> KeepsTied(FdbRun(s, prev), e))
  {
    if TiedThroughout(s, prev) {
      StepKeepsTied(FdbRun(s, prev), e);
    }
  }

  /** With one home bridge per MAC, for its deletes too, every run from empty tables is of this kind. */
  lemma {:induction false} DisciplinedRunTied(s: Store, events: seq<Event>, home: Mac -> byte)
    requires Clean(s) && forall e :: e in events ==> Disciplined(e, home)
    ensures Tied(FdbRun(s, events))
  {
    var s', t := FdbRun(s, events), Run(Meanings(s, events));
    RunShows(s, events, home);
    ShowsAreClassified(s', t, home);
    forall m: Mac ensures TiedMac(s', m) {
      assert ShowsMac(s', t, m, home(m)) && ClassifiedMac(s', m, home(m));
      forall b: byte | b != home(m) ensures !TunnelTxOn(s', m, b) {
        assert TxKey(m, b) !in s';
      }
      SomewhereOrElsewhere(s', m, home(m));
    }
  }

  // ---------- what the answer is worth ----------

  /**
   While the tables are tied, a plain delete is taken for a tunnel exactly when some
   bridge forwards its MAC into one; so the answer fits the TX entry that the delete
   names exactly if that bridge is among them, or none is.
   */
  lemma TiedClassifies(s: Store, d: MacLearningInfo)
    requires Tied(s) && PlainDelete(d)
    ensures Classify(s, d).isTunnel <==> TunnelTxSomewhere(s, d.mac)
    ensures (Classify(s, d).isTunnel <==> TunnelTxOn(s, d.mac, d.bridgeId)) <==>
            (TunnelTxElsewhere(s, d.mac, d.bridgeId) ==> TunnelTxOn(s, d.mac, d.bridgeId))
  {
    assert TiedMac(s, d.mac);
    SomewhereOrElsewhere(s, d.mac, d.bridgeId);
  }

  /**
   One home bridge per learned MAC is not enough: learn a MAC over a tunnel on one bridge,
   delete it on another, and its tunnel TX entry stays while no l2_to_tunnel table has it.
   */
  lemma WrongBridgeMisclassifies(l: MacLearningInfo, d: MacLearningInfo)
    requires l.isTunnel && WellFormed(l) && PlainDelete(d) && d.mac == l.mac && d.bridgeId != l.bridgeId
    ensures var s := FdbRun(map[], [Event(l, true), Event(d, false)]);
            TunnelTxOn(s, l.mac, l.bridgeId) && !InTunnelTable(s, l.mac) && !Tied(s)
  {
    var s1 := FdbStep(map[], Event(l, true)).0;
    var s2 := FdbStep(s1, Event(d, false)).0;
    TwoSteps(map[], Event(l, true), Event(d, false));
    CleanIsTied(map[]);
    StepKeepsTied(map[], Event(l, true));
    TunnelInserted(map[], l);
    OtherBridgesUntouched(s1, Event(d, false));
    assert TiedMac(s1, l.mac);
    PlainDeleteLeavesNone(s1, d);
    assert !TiedMac(s2, l.mac);
  }

  /** A plain delete of a tied MAC takes it out of its l2_to_tunnel table, whatever the bridge. */
  lemma PlainDeleteLeavesNone(s: Store, d: MacLearningInfo)
    requires PlainDelete(d) && TiedMac(s, d.mac)
    ensures !InTunnelTable(FdbStep(s, Event(d, false)).0, d.mac)
  {
    PlainDeleteShape(s, d);
  }
}
