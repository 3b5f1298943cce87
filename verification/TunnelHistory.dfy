/**
 Which tunnels are installed after a run, and with what: the three tables read off the
 history of compatible tunnels; and what a failing call leaves behind.
 */
module TunnelHistory {
  import opened Bytes
  import opened OvsTypes
  import opened P4Runtime
  import opened Encoders
  import opened TunnelTable
  import opened TunnelTheorems
  import opened LearnOnce

  // ---------- failing calls ----------

  /** From any store: a failing call changes nothing exactly if it is malformed or refused by the encap table. */
  lemma FailureChangesNothing(s: Store, e: Event)
    ensures TunnelStep(s, e).1 != Ok ==>
              (TunnelStep(s, e).0 == s <==> (WellFormed(e.info) ==> (EncapKey(e.info) in s <==> e.insert)))
  {
    if !WellFormed(e.info) {
      MalformedChangesNothing(s, e);
    } else {
      EncapDecides(s, e);
    }
  }

  lemma EncapDecides(s: Store, e: Event)
    requires WellFormed(e.info)
    ensures (EncapKey(e.info) in s <==> e.insert) ==> TunnelStep(s, e).0 == s
    ensures !(EncapKey(e.info) in s <==> e.insert) ==> (EncapKey(e.info) in TunnelStep(s, e).0 <==> e.insert)
  {
    KeysDistinct(e.info);
  }

  /** While its own tunnel is all-or-nothing, a failing call changes nothing. */
  lemma WholeFailure(s: Store, e: Event)
    requires WellFormed(e.info) ==> AllOrNothing(s, e.info)
    ensures TunnelStep(s, e).1 != Ok ==> TunnelStep(s, e).0 == s
  {
    FailureChangesNothing(s, e);
    if WellFormed(e.info) {
      InsertOutcome(s, e.info);
      DeleteOutcome(s, e.info);
    }
  }

  /** So in every state reachable over pairwise compatible tunnels a failing call changes nothing. */
  lemma {:induction false} ReachableFailure(events: seq<Event>, e: Event)
    requires PairwiseCompatible(events + [e])
    ensures var r := TunnelRun(map[], events);
            TunnelStep(r, e).1 != Ok ==> TunnelStep(r, e).0 == r
  {
    assert (events + [e])[|events|] == e && (events + [e])[..|events|] == events;
    LastCompatible(events + [e]);
    if WellFormed(e.info) {
      RunAllOrNothing(map[], events, e.info);
    }
    WholeFailure(TunnelRun(map[], events), e);
  }

  // ---------- the history ----------

  /** A tunnel is named by its encap key: among compatible tunnels the other two keys go with it. */
  function TunnelMeaning(e: Event): Op<TableKey, TunnelInfo> {
    if !WellFormed(e.info) then Skip
    else if e.insert then Learn(EncapKey(e.info), e.info)
    else Forget(EncapKey(e.info))
  }

  function TunnelMeanings(events: seq<Event>): (ops: seq<Op<TableKey, TunnelInfo>>)
    ensures |ops| == |events|
  {
    seq(|events|, i requires 0 <= i < |events| => TunnelMeaning(events[i]))
  }

  /** All three entries of t are there, with the actions that u gave them. */
  predicate Holds(s: Store, t: TunnelInfo, u: TunnelInfo) {
    && AllPresent(s, t) && s[EncapKey(t)] == EncapActionOf(u) && s[DecapKey(t)] == DecapActionOf(u)
    && s[TermKey(t)] == TermAction(u)
  }

  predicate ShowsTunnel(s: Store, installed: map<TableKey, TunnelInfo>, t: TunnelInfo) {
    if EncapKey(t) in installed then Holds(s, t, installed[EncapKey(t)]) else NonePresent(s, t)
  }

  /** One call on a compatible tunnel is one learn or forget of it. */
  lemma StepShowsTunnel(s: Store, installed: map<TableKey, TunnelInfo>, e: Event, t: TunnelInfo)
    requires WellFormed(t) && ShowsTunnel(s, installed, t)
    requires WellFormed(e.info) ==> Compatible(e.info, t) && ShowsTunnel(s, installed, e.info)
    ensures ShowsTunnel(TunnelStep(s, e).0, Apply(installed, TunnelMeaning(e)), t)
  {
    if !WellFormed(e.info) {
      MalformedChangesNothing(s, e);
    } else if EncapKey(e.info) == EncapKey(t) {
      SameTunnelShown(s, installed, e, t);
    } else {
      RanksDisjoint(e.info, t);
      RanksDisjoint(t, e.info);
      OtherTunnelKept(s, e, t);
    }
  }

  lemma SameTunnelShown(s: Store, installed: map<TableKey, TunnelInfo>, e: Event, t: TunnelInfo)
    requires WellFormed(t) && WellFormed(e.info) && ShowsTunnel(s, installed, t)
    requires EncapKey(e.info) == EncapKey(t) && DecapKey(e.info) == DecapKey(t) && TermKey(e.info) == TermKey(t)
    ensures ShowsTunnel(TunnelStep(s, e).0, Apply(installed, TunnelMeaning(e)), t)
  {
    KeysDistinct(t);
    if e.insert {
      InsertOutcome(s, e.info);
    } else {
      DeleteOutcome(s, e.info);
    }
  }

  /** A call leaves every key outside its own three alone. */
  lemma OtherTunnelKept(s: Store, e: Event, t: TunnelInfo)
    requires WellFormed(e.info) && AllOrNothing(s, e.info) && Keys(t) !! Keys(e.info)
    ensures forall k :: k in Keys(t) ==>
              (k in TunnelStep(s, e).0 <==> k in s) && (k in s ==> TunnelStep(s, e).0[k] == s[k])
  {
    InsertOutcome(s, e.info);
    DeleteOutcome(s, e.info);
    WholeFailure(s, e);
  }

  lemma TunnelMeaningsSnoc(events: seq<Event>)
    requires events != []
    ensures var n := |events| - 1;
            Run(TunnelMeanings(events)) == Apply(Run(TunnelMeanings(events[..n])), TunnelMeaning(events[n]))
  {
    assert TunnelMeanings(events)[..|events| - 1] == TunnelMeanings(events[..|events| - 1]);
  }

  /** Every run over compatible tunnels leaves the three tables showing the learn-once table of its events. */
  lemma {:induction false} RunShowsTunnel(events: seq<Event>, t: TunnelInfo)
    requires WellFormed(t) && PairwiseCompatible(events)
    requires forall e :: e in events && WellFormed(e.info) ==> Compatible(e.info, t)
    ensures ShowsTunnel(TunnelRun(map[], events), Run(TunnelMeanings(events)), t)
  {
    if events != [] {
      var n := |events| - 1;
      var prev, e := events[..n], events[n];
      LastCompatible(events);
      RunShowsTunnel(prev, t);
      if WellFormed(e.info) {
        RunShowsTunnel(prev, e.info);
      }
      StepShowsTunnel(TunnelRun(map[], prev), Run(TunnelMeanings(prev)), e, t);
      TunnelMeaningsSnoc(events);
    }
  }

  /**
   Read off the history: a tunnel is installed exactly if it has an insert that is the
   first after its last delete, and then with the actions of that insert.
   */
  lemma {:induction false} InstalledLaw(events: seq<Event>, t: TunnelInfo)
    requires WellFormed(t) && PairwiseCompatible(events)
    requires forall e :: e in events && WellFormed(e.info) ==> Compatible(e.info, t)
    ensures var s, ops := TunnelRun(map[], events), TunnelMeanings(events);
            && (AllPresent(s, t) <==> exists i :: Holder(ops, EncapKey(t), i))
            && (NonePresent(s, t) <==> !exists i :: Holder(ops, EncapKey(t), i))
            && (forall i :: Holder(ops, EncapKey(t), i) ==> Holds(s, t, ops[i].value))
  {
    RunShowsTunnel(events, t);
    RunLaw(TunnelMeanings(events), EncapKey(t));
  }

  /** In particular the last well-formed request for the tunnel decides whether it is installed. */
  lemma {:induction false} LastRequestDecides(events: seq<Event>, t: TunnelInfo, i: nat)
    requires WellFormed(t) && PairwiseCompatible(events)
    requires forall e :: e in events && WellFormed(e.info) ==> Compatible(e.info, t)
    requires i < |events| && WellFormed(events[i].info) && EncapKey(events[i].info) == EncapKey(t)
    requires forall j :: i < j < |events| && WellFormed(events[j].info) ==> EncapKey(events[j].info) != EncapKey(t)
    ensures AllPresent(TunnelRun(map[], events), t) <==> events[i].insert
    ensures NonePresent(TunnelRun(map[], events), t) <==> !events[i].insert
  {
    RunShowsTunnel(events, t);
    LastDecides(TunnelMeanings(events), EncapKey(t), i);
  }
}
