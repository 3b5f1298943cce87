/**
 When the three writes of a tunnel stay all-or-nothing, although nothing makes them
 atomic; and when a delete undoes an insert.
 */
module TunnelTheorems {
  import opened Bytes
  import opened OvsTypes
  import opened P4Runtime
  import opened Encoders
  import opened TunnelTable

  /** The three keys of a well-formed tunnel: the same for insert and delete. */
  function Keys(t: TunnelInfo): set<TableKey> { {EncapKey(t), DecapKey(t), TermKey(t)} }

  lemma KeysDistinct(t: TunnelInfo)
    requires WellFormed(t)
    ensures EncapKey(t) != DecapKey(t) && EncapKey(t) != TermKey(t) && DecapKey(t) != TermKey(t)
  {
  }

  predicate AllPresent(s: Store, t: TunnelInfo) {
    EncapKey(t) in s && DecapKey(t) in s && TermKey(t) in s
  }

  predicate NonePresent(s: Store, t: TunnelInfo) {
    EncapKey(t) !in s && DecapKey(t) !in s && TermKey(t) !in s
  }

  predicate AllOrNothing(s: Store, t: TunnelInfo) { AllPresent(s, t) || NonePresent(s, t) }

  function Installed(s: Store, t: TunnelInfo): Store {
    s[EncapKey(t) := EncapActionOf(t)][DecapKey(t) := DecapActionOf(t)][TermKey(t) := TermAction(t)]
  }

  // ---------- one call ----------

  /** Malformed requests fail on the first write and change nothing. */
  lemma MalformedChangesNothing(s: Store, e: Event)
    requires !WellFormed(e.info)
    ensures TunnelStep(s, e).0 == s && TunnelStep(s, e).1 != Ok
  {
    assert EncapEntry(e.info, e.insert) == BLANK;
  }

  /** An insert succeeds exactly when no key is taken; an untouched start makes it all or nothing. */
  lemma InsertOutcome(s: Store, t: TunnelInfo)
    requires WellFormed(t)
    ensures TunnelStep(s, Event(t, true)).1 == Ok <==> NonePresent(s, t)
    ensures NonePresent(s, t) ==> TunnelStep(s, Event(t, true)).0 == Installed(s, t)
    ensures EncapKey(t) in s ==> TunnelStep(s, Event(t, true)).0 == s
  {
    KeysDistinct(t);
  }

  lemma DeleteOutcome(s: Store, t: TunnelInfo)
    requires WellFormed(t)
    ensures TunnelStep(s, Event(t, false)).1 == Ok <==> AllPresent(s, t)
    ensures AllPresent(s, t) ==> TunnelStep(s, Event(t, false)).0 == s - Keys(t)
    ensures EncapKey(t) !in s ==> TunnelStep(s, Event(t, false)).0 == s
  {
    KeysDistinct(t);
    if AllPresent(s, t) {
      assert s - {EncapKey(t)} - {DecapKey(t)} - {TermKey(t)} == s - Keys(t);
    }
  }

  /** A successful insert followed by a delete of the same tunnel succeeds and restores the whole store. */
  lemma InsertThenDelete(s: Store, t: TunnelInfo)
    requires WellFormed(t)
    ensures var (s1, status) := TunnelStep(s, Event(t, true));
            status == Ok ==> TunnelStep(s1, Event(t, false)) == (s, Ok)
  {
    InsertOutcome(s, t);
    if NonePresent(s, t) {
      var s1 := Installed(s, t);
      KeysDistinct(t);
      DeleteOutcome(s1, t);
      assert s1 - Keys(t) == s;
    }
  }

  // ---------- tagging ----------

  predicate EncapPopsVlan(t: TunnelInfo) {
    EncapTable(t) in {VxlanEncapVlanPopMod, GeneveEncapVlanPopMod, VxlanEncapV6VlanPopMod, GeneveEncapV6VlanPopMod}
  }

  predicate DecapPushesVlan(t: TunnelInfo) {
    DecapTable(t) in {VxlanDecapAndVlanPushMod, GeneveDecapAndVlanPushMod}
  }

  predicate TermPushesVlan(t: TunnelInfo) {
    TermAction(t).id in {SetVxlanDecapOuterHdrAndPushVlan, SetGeneveDecapOuterHdrAndPushVlan}
  }

  /**
   The encap pops the VLAN tag and the decap and termination push it back for exactly
   two port modes; for the others decap pushes a tag that encap never popped.
   */
  lemma TaggingAgrees(t: TunnelInfo)
    requires WellFormed(t)
    ensures (EncapPopsVlan(t) <==> DecapPushesVlan(t)) && (DecapPushesVlan(t) <==> TermPushesVlan(t))
            <==> t.vlan.mode.NativeTagged? || t.vlan.mode.NativeUntagged?
    ensures !t.vlan.mode.NativeTagged? && !t.vlan.mode.NativeUntagged?
            ==> DecapPushesVlan(t) && !EncapPopsVlan(t) && !TermPushesVlan(t)
  {
  }

  // ---------- every run ----------

  /** Two tunnels do not get in each other's way: they own the same three entries or none in common. */
  predicate Compatible(a: TunnelInfo, b: TunnelInfo) {
    || (EncapKey(a) == EncapKey(b) && DecapKey(a) == DecapKey(b) && TermKey(a) == TermKey(b))
    || (EncapKey(a) != EncapKey(b) && DecapKey(a) != DecapKey(b) && TermKey(a) != TermKey(b))
  }

  /** Keys of different rank never meet: encap, decap and termination use disjoint sets of tables. */
  lemma RanksDisjoint(a: TunnelInfo, b: TunnelInfo)
    requires WellFormed(a) && WellFormed(b)
    ensures EncapKey(a) != DecapKey(b) && EncapKey(a) != TermKey(b) && DecapKey(a) != TermKey(b)
  {
  }

  /** From s to s' at most the keys of t came or went, and they did so together. */
  ghost predicate MovesWhole(s: Store, s': Store, t: TunnelInfo) {
    AllOrNothing(s', t) && forall k :: k !in Keys(t) ==> (k in s' <==> k in s)
  }

  /** A call that finds its own tunnel all-or-nothing leaves it so, and moves no other key. */
  lemma WholeOutcome(s: Store, e: Event)
    requires WellFormed(e.info) && AllOrNothing(s, e.info)
    ensures MovesWhole(s, TunnelStep(s, e).0, e.info)
  {
    InsertOutcome(s, e.info);
    DeleteOutcome(s, e.info);
  }

  lemma WholeKeepsOther(s: Store, s': Store, i: TunnelInfo, t: TunnelInfo)
    requires WellFormed(i) && WellFormed(t) && AllOrNothing(s, t) && Compatible(i, t) && MovesWhole(s, s', i)
    ensures AllOrNothing(s', t)
  {
    RanksDisjoint(i, t);
    RanksDisjoint(t, i);
  }

  lemma StepKeepsAllOrNothing(s: Store, e: Event, t: TunnelInfo)
    requires WellFormed(t) && AllOrNothing(s, t)
    requires WellFormed(e.info) ==> AllOrNothing(s, e.info) && Compatible(e.info, t)
    ensures AllOrNothing(TunnelStep(s, e).0, t)
  {
    if !WellFormed(e.info) {
      MalformedChangesNothing(s, e);
    } else {
      WholeOutcome(s, e);
      WholeKeepsOther(s, TunnelStep(s, e).0, e.info, t);
    }
  }

  ghost predicate PairwiseCompatible(events: seq<Event>) {
    forall i, j :: 0 <= i < |events| && 0 <= j < |events| && WellFormed(events[i].info) && WellFormed(events[j].info)
                   ==> Compatible(events[i].info, events[j].info)
  }

  /** Every run over pairwise compatible tunnels keeps each of them all-or-nothing. */
  lemma {:induction false} RunAllOrNothing(s: Store, events: seq<Event>, t: TunnelInfo)
    requires WellFormed(t) && AllOrNothing(s, t)
    requires PairwiseCompatible(events)
    requires forall e :: e in events && WellFormed(e.info) ==> AllOrNothing(s, e.info) && Compatible(e.info, t)
    ensures AllOrNothing(TunnelRun(s, events), t)
  {
    if events != [] {
      var n := |events| - 1;
      var prev, e := events[..n], events[n];
      LastCompatible(events);
      RunAllOrNothing(s, prev, t);
      if WellFormed(e.info) {
        RunAllOrNothing(s, prev, e.info);
      }
      StepKeepsAllOrNothing(TunnelRun(s, prev), e, t);
    }
  }

  lemma LastCompatible(events: seq<Event>)
    requires events != [] && PairwiseCompatible(events)
    ensures var n := |events| - 1;
            && events[n] in events
            && (forall e :: e in events[..n] ==> e in events)
            && PairwiseCompatible(events[..n])
            && (WellFormed(events[n].info) ==>
                  forall e :: e in events[..n] && WellFormed(e.info) ==> Compatible(e.info, events[n].info))
  {
    var n := |events| - 1;
    forall e | e in events[..n] && WellFormed(e.info) && WellFormed(events[n].info)
      ensures Compatible(e.info, events[n].info)
    {
      var i :| 0 <= i < n && events[..n][i] == e;
      assert events[i] == e;
    }
  }

  // ---------- from VNIs ----------

  /** Well-formed tunnels with different 24-bit VNIs are always compatible. */
  lemma DifferentVnisCompatible(a: TunnelInfo, b: TunnelInfo)
    requires WellFormed(a) && WellFormed(b) && a.vni % 0x100_0000 != b.vni % 0x100_0000
    ensures Compatible(a, b)
  {
    VniKeyEqual(a.vni, b.vni);
    assert EncapKey(a).matches[0] != EncapKey(b).matches[0];
    assert DecapKey(a).matches[0] != DecapKey(b).matches[0];
    assert TermKey(a).matches[2] != TermKey(b).matches[2];
  }

  /** With one VNI: exactly when the selecting attributes all agree, or every table has a difference. */
  lemma SameVniCompatible(a: TunnelInfo, b: TunnelInfo)
    requires WellFormed(a) && WellFormed(b) && a.vni % 0x100_0000 == b.vni % 0x100_0000
    ensures var sameType, sameFamily := a.tunnelType == b.tunnelType, a.BothV6() == b.BothV6();
            var sameRemote := if a.BothV6() then a.remoteIp.raw == b.remoteIp.raw
                              else V4Addr(a.remoteIp) == V4Addr(b.remoteIp);
            var encap := sameType && sameFamily && a.Untagged() == b.Untagged();
            var decap := sameType && a.vlan.mode.NativeTagged? == b.vlan.mode.NativeTagged?;
            var term := sameFamily && sameRemote && a.bridgeId == b.bridgeId;
            Compatible(a, b) <==> (encap && decap && term) || (!encap && !decap && !term)
  {
    VniKeyEqual(a.vni, b.vni);
    EncapSame(a, b);
    DecapSame(a, b);
    TermSame(a, b);
  }

  lemma EncapSame(a: TunnelInfo, b: TunnelInfo)
    requires WellFormed(a) && WellFormed(b) && EncodeVniValue(a.vni) == EncodeVniValue(b.vni)
    ensures EncapKey(a) == EncapKey(b) <==>
            a.tunnelType == b.tunnelType && a.BothV6() == b.BothV6() && a.Untagged() == b.Untagged()
  {
  }

  lemma DecapSame(a: TunnelInfo, b: TunnelInfo)
    requires WellFormed(a) && WellFormed(b) && EncodeVniValue(a.vni) == EncodeVniValue(b.vni)
    ensures DecapKey(a) == DecapKey(b) <==>
            a.tunnelType == b.tunnelType && a.vlan.mode.NativeTagged? == b.vlan.mode.NativeTagged?
  {
  }

  lemma TermSame(a: TunnelInfo, b: TunnelInfo)
    requires WellFormed(a) && WellFormed(b) && EncodeVniValue(a.vni) == EncodeVniValue(b.vni)
    ensures TermKey(a) == TermKey(b) <==>
            && a.BothV6() == b.BothV6() && a.bridgeId == b.bridgeId
            && (if a.BothV6() then a.remoteIp.raw == b.remoteIp.raw else V4Addr(a.remoteIp) == V4Addr(b.remoteIp))
  {
    if a.BothV6() && b.BothV6() {
      TermV6Same(a, b);
    } else if !a.BothV6() && !b.BothV6() {
      TermV4Same(a, b);
    }
  }

  lemma BridgeSame(a: byte, b: byte)
    ensures ByteString([a]) == ByteString([b]) <==> a == b
  {
    assert ByteString([a])[0] == a && ByteString([b])[0] == b;
  }

  lemma TermV4Same(a: TunnelInfo, b: TunnelInfo)
    requires EncodeVniValue(a.vni) == EncodeVniValue(b.vni)
    ensures TermV4Key(a) == TermV4Key(b) <==> a.bridgeId == b.bridgeId && V4Addr(a.remoteIp) == V4Addr(b.remoteIp)
  {
    Ipv4KeyEqual(V4Addr(a.remoteIp), V4Addr(b.remoteIp));
    BridgeSame(a.bridgeId, b.bridgeId);
    var ka, kb := TermV4Key(a).matches, TermV4Key(b).matches;
    if TermV4Key(a) == TermV4Key(b) {
      assert ka[0] == kb[0] && ka[1] == kb[1];
    }
  }

  lemma TermV6Same(a: TunnelInfo, b: TunnelInfo)
    requires EncodeVniValue(a.vni) == EncodeVniValue(b.vni)
    ensures TermV6Key(a) == TermV6Key(b) <==> a.bridgeId == b.bridgeId && a.remoteIp.raw == b.remoteIp.raw
  {
    Ipv6Decodes(a.remoteIp.raw);
    Ipv6Decodes(b.remoteIp.raw);
    BridgeSame(a.bridgeId, b.bridgeId);
    var ka, kb := TermV6Key(a).matches, TermV6Key(b).matches;
    if TermV6Key(a) == TermV6Key(b) {
      assert ka[0] == kb[0] && ka[1] == kb[1];
    }
  }

  /** A configuration that fixes a tunnel for each 24-bit VNI makes every run from empty tables all-or-nothing. */
  lemma {:induction false} RunByVniAllOrNothing(events: seq<Event>, config: int -> TunnelInfo, e: Event)
    requires forall e' :: e' in events && WellFormed(e'.info) ==> e'.info == config(e'.info.vni % 0x100_0000)
    requires e in events && WellFormed(e.info)
    ensures AllOrNothing(TunnelRun(map[], events), e.info)
  {
    forall i, j | 0 <= i < |events| && 0 <= j < |events| && WellFormed(events[i].info) && WellFormed(events[j].info)
      ensures Compatible(events[i].info, events[j].info)
    {
      ByConfig(events[i].info, events[j].info, config);
    }
    forall e' | e' in events && WellFormed(e'.info) ensures Compatible(e'.info, e.info) {
      ByConfig(e'.info, e.info, config);
    }
    RunAllOrNothing(map[], events, e.info);
  }

  lemma ByConfig(a: TunnelInfo, b: TunnelInfo, config: int -> TunnelInfo)
    requires WellFormed(a) && a == config(a.vni % 0x100_0000)
    requires WellFormed(b) && b == config(b.vni % 0x100_0000)
    ensures Compatible(a, b)
  {
    if a.vni % 0x100_0000 != b.vni % 0x100_0000 {
      DifferentVnisCompatible(a, b);
    }
  }

  // ---------- exactly then ----------

  ghost predicate Over(events: seq<Event>, a: TunnelInfo, b: TunnelInfo) {
    forall e :: e in events ==> e.info == a || e.info == b
  }

  /** No run over two tunnels, in either role, ever leaves one of them half installed. */
  ghost predicate NeverHalfInstalled(a: TunnelInfo, b: TunnelInfo) {
    forall events :: Over(events, a, b) ==>
                       AllOrNothing(TunnelRun(map[], events), a) && AllOrNothing(TunnelRun(map[], events), b)
  }

  /** Two tunnels can never leave each other half installed exactly when they are compatible. */
  lemma NeverHalfInstalledIffCompatible(a: TunnelInfo, b: TunnelInfo)
    requires WellFormed(a) && WellFormed(b)
    ensures NeverHalfInstalled(a, b) <==> Compatible(a, b)
  {
    if Compatible(a, b) {
      forall events | Over(events, a, b)
        ensures AllOrNothing(TunnelRun(map[], events), a) && AllOrNothing(TunnelRun(map[], events), b)
      {
        RunAllOrNothing(map[], events, a);
        RunAllOrNothing(map[], events, b);
      }
    } else {
      HalfInstalledRun(a, b);
    }
  }

  /** Incompatible tunnels that share the encap entry: inserting one and deleting the other tears the first. */
  lemma {:induction false} TornByDelete(a: TunnelInfo, b: TunnelInfo, events: seq<Event>)
    requires WellFormed(a) && WellFormed(b) && EncapKey(a) == EncapKey(b)
    requires DecapKey(a) != DecapKey(b) || TermKey(a) != TermKey(b)
    requires events == [Event(a, true), Event(b, false)]
    ensures Over(events, a, b) && !AllOrNothing(TunnelRun(map[], events), a)
  {
    assert events[..1] == [Event(a, true)] && [Event(a, true)][..0] == [];
    assert TunnelRun(map[], [Event(a, true)]) == TunnelStep(TunnelRun(map[], []), Event(a, true)).0;
    InsertOutcome(map[], a);
    var s1 := Installed(map[], a);
    TornStep(s1, a, b);
  }

  lemma TornStep(s: Store, a: TunnelInfo, b: TunnelInfo)
    requires WellFormed(a) && WellFormed(b) && EncapKey(a) == EncapKey(b) && AllPresent(s, a)
    requires DecapKey(a) != DecapKey(b) || TermKey(a) != TermKey(b)
    requires s.Keys == Keys(a)
    ensures !AllOrNothing(TunnelStep(s, Event(b, false)).0, a)
  {
    KeysDistinct(a);
    RanksDisjoint(a, b);
    RanksDisjoint(b, a);
  }

  /** Incompatible tunnels with different encap entries: insert both, delete the first, and the second is torn. */
  lemma {:induction false} TornByInserts(a: TunnelInfo, b: TunnelInfo, events: seq<Event>)
    requires WellFormed(a) && WellFormed(b) && EncapKey(a) != EncapKey(b)
    requires DecapKey(a) == DecapKey(b) || TermKey(a) == TermKey(b)
    requires events == [Event(a, true), Event(b, true), Event(a, false)]
    ensures Over(events, a, b) && !AllOrNothing(TunnelRun(map[], events), b)
  {
    RunOfThree(events);
    var s1 := TunnelStep(map[], events[0]).0;
    var s2 := TunnelStep(s1, events[1]).0;
    InsertOutcome(map[], a);
    AfterSecondInsert(s1, a, b);
    AfterDelete(s2, a, b);
  }

  lemma {:induction false} RunOfThree(events: seq<Event>)
    requires |events| == 3
    ensures TunnelRun(map[], events) ==
            TunnelStep(TunnelStep(TunnelStep(map[], events[0]).0, events[1]).0, events[2]).0
  {
    RunLast(events);
    RunLast(events[..2]);
    RunLast(events[..2][..1]);
  }

  lemma {:induction false} RunLast(events: seq<Event>)
    requires events != []
    ensures var n := |events| - 1;
            TunnelRun(map[], events) == TunnelStep(TunnelRun(map[], events[..n]), events[n]).0
    ensures TunnelRun(map[], []) == map[]
  {
  }

  lemma AfterDelete(s: Store, a: TunnelInfo, b: TunnelInfo)
    requires WellFormed(a) && WellFormed(b) && AllPresent(s, a) && EncapKey(b) in s && EncapKey(a) != EncapKey(b)
    requires DecapKey(a) == DecapKey(b) || TermKey(a) == TermKey(b)
    ensures !AllOrNothing(TunnelStep(s, Event(a, false)).0, b)
  {
    DeleteOutcome(s, a);
    RanksDisjoint(a, b);
    RanksDisjoint(b, a);
  }

  lemma AfterSecondInsert(s: Store, a: TunnelInfo, b: TunnelInfo)
    requires WellFormed(a) && WellFormed(b) && EncapKey(a) != EncapKey(b) && s.Keys == Keys(a)
    ensures var s2 := TunnelStep(s, Event(b, true)).0;
            AllPresent(s2, a) && EncapKey(b) in s2
  {
    RanksDisjoint(a, b);
    RanksDisjoint(b, a);
  }

  lemma HalfInstalledRun(a: TunnelInfo, b: TunnelInfo)
    requires WellFormed(a) && WellFormed(b) && !Compatible(a, b)
    ensures !NeverHalfInstalled(a, b)
  {
    if EncapKey(a) == EncapKey(b) {
      var events := [Event(a, true), Event(b, false)];
      TornByDelete(a, b, events);
      TornRefutes(a, b, events, a);
    } else {
      var events := [Event(a, true), Event(b, true), Event(a, false)];
      TornByInserts(a, b, events);
      TornRefutes(a, b, events, b);
    }
  }

  lemma {:induction false} TornRefutes(a: TunnelInfo, b: TunnelInfo, events: seq<Event>, torn: TunnelInfo)
    requires Over(events, a, b) && torn in {a, b} && !AllOrNothing(TunnelRun(map[], events), torn)
    ensures !NeverHalfInstalled(a, b)
  {
  }
}
