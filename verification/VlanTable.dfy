/**
 ConfigVlanEntry: one VLAN id becomes an entry in vlan_push and one in vlan_pop, both
 keyed by the id cut to eight bits.
 */
module VlanTable {
  import opened Bytes
  import opened P4Runtime
  import opened Encoders
  import opened LearnOnce
  import opened Written

  datatype Event = Event(vlanId: uint16, insert: bool)

  function PushKey(vlanId: int): TableKey { VlanKey(VlanPushMod, vlanId) }

  function PopKey(vlanId: int): TableKey { VlanKey(VlanPopMod, vlanId) }

  function PushEntry(e: Event): Entry {
    EntryFor(PushKey(e.vlanId), Action(VlanPush, VlanParams(e.vlanId)), e.insert)
  }

  function PopEntry(e: Event): Entry { EntryFor(PopKey(e.vlanId), Action(VlanPop, []), e.insert) }

  function VlanStep(s: Store, e: Event): (Store, Status) {
    var s1 := Write(s, PushEntry(e), e.insert);
    if WriteStatus(s, PushEntry(e), e.insert) != Ok then (s1, WriteStatus(s, PushEntry(e), e.insert))
    else (Write(s1, PopEntry(e), e.insert), WriteStatus(s1, PopEntry(e), e.insert))
  }

  function VlanRun(s: Store, events: seq<Event>): Store {
    if events == [] then s else VlanStep(VlanRun(s, events[..|events| - 1]), events[|events| - 1]).0
  }

  method ConfigVlanEntry(client: Client, vlanId: uint16, insertEntry: bool) returns (status: Status)
    modifies client
    ensures (client.store, status) == VlanStep(old(client.store), Event(vlanId, insertEntry))
  {
    var entry := new TableEntry();
    EncodeVlanPushTableEntry(entry, vlanId, insertEntry);
    status := client.SendWriteRequest(entry, insertEntry);
    if status != Ok {
      return status;
    }
    entry := new TableEntry();
    EncodeVlanPopTableEntry(entry, vlanId, insertEntry);
    status := client.SendWriteRequest(entry, insertEntry);
  }

  // ---------- theorems ----------

  /** Two ids share their entries exactly when they agree mod 256. */
  lemma VlanKeysEqual(a: int, b: int)
    ensures PushKey(a) == PushKey(b) <==> a % 256 == b % 256
    ensures PopKey(a) == PopKey(b) <==> a % 256 == b % 256
  {
    var ka, kb := ByteString([a]), ByteString([b]);
    assert ka[0] == a % 256 && kb[0] == b % 256;
    assert ka == [ka[0]] && kb == [kb[0]];
    if PushKey(a) == PushKey(b) {
      assert PushKey(a).matches[0] == PushKey(b).matches[0];
    }
    if PopKey(a) == PopKey(b) {
      assert PopKey(a).matches[0] == PopKey(b).matches[0];
    }
  }

  /** From any store: a failing call changes nothing, unless the first table let it through and the second did not. */
  lemma FailureChangesNothing(s: Store, e: Event)
    ensures var (s', status) := VlanStep(s, e);
            && (status == Ok <==> (PushKey(e.vlanId) in s <==> !e.insert) && (PopKey(e.vlanId) in s <==> !e.insert))
            && (status != Ok ==> (s' == s <==> (PushKey(e.vlanId) in s <==> e.insert)))
  {
    var s1 := Write(s, PushEntry(e), e.insert);
    if WriteStatus(s, PushEntry(e), e.insert) == Ok && WriteStatus(s1, PopEntry(e), e.insert) != Ok {
      assert PushKey(e.vlanId) in s1 <==> e.insert;
    }
  }

  /** Both tables hold exactly the ids of t. */
  ghost predicate Shows(s: Store, t: map<byte, ()>) {
    forall b: byte :: ShowsId(s, t, b)
  }

  predicate ShowsId(s: Store, t: map<byte, ()>, b: byte) {
    (PushKey(b) in s <==> b in t) && (PopKey(b) in s <==> b in t) && SaysAt(s, b)
  }

  predicate SaysAt(s: Store, b: byte) {
    && (PushKey(b) in s ==> SaysPush(s[PushKey(b)], b))
    && (PopKey(b) in s ==> SaysPop(s[PopKey(b)]))
  }

  /** The push entry pushes a tag with its own id; the pop entry has no parameters. */
  predicate SaysPush(a: Action, b: byte) { a.id == VlanPush && SaysVlanTag(a, b) }

  predicate SaysPop(a: Action) { a == Action(VlanPop, []) }

  function Meaning(e: Event): Op<byte, ()> {
    if e.insert then Learn(e.vlanId % 256, ()) else Forget(e.vlanId % 256)
  }

  function Meanings(events: seq<Event>): (ops: seq<Op<byte, ()>>)
    ensures |ops| == |events|
  {
    seq(|events|, i requires 0 <= i < |events| => Meaning(events[i]))
  }

  lemma StepShows(s: Store, t: map<byte, ()>, e: Event)
    requires Shows(s, t)
    ensures Shows(VlanStep(s, e).0, Apply(t, Meaning(e)))
    ensures VlanStep(s, e).1 != Ok ==> VlanStep(s, e).0 == s
    ensures VlanStep(s, e).1 == Ok <==> (e.vlanId % 256 in t <==> !e.insert)
  {
    var b0: byte := e.vlanId % 256;
    VlanKeysEqual(b0, e.vlanId);
    assert ShowsId(s, t, b0);
    FailureChangesNothing(s, e);
    forall b: byte ensures ShowsId(VlanStep(s, e).0, Apply(t, Meaning(e)), b) {
      assert ShowsId(s, t, b);
      VlanKeysEqual(b, e.vlanId);
      StepShowsId(s, t, e, b);
    }
  }

  /** An entry after a call was there before, or is the one that the call inserts. */
  lemma EntryAfter(s: Store, e: Event, k: TableKey)
    ensures var s' := VlanStep(s, e).0;
            k in s' ==>
              || (k in s && s'[k] == s[k])
              || (k == PushKey(e.vlanId) && s'[k] == Action(VlanPush, VlanParams(e.vlanId)))
              || (k == PopKey(e.vlanId) && s'[k] == Action(VlanPop, []))
  {
  }

  lemma StepSays(s: Store, e: Event, b: byte)
    requires SaysAt(s, b)
    requires PushKey(b) == PushKey(e.vlanId) <==> b == e.vlanId % 256
    ensures SaysAt(VlanStep(s, e).0, b)
  {
    EntryAfter(s, e, PushKey(b));
    EntryAfter(s, e, PopKey(b));
    VlanParamsSay(VlanPush, e.vlanId);
  }

  lemma StepShowsId(s: Store, t: map<byte, ()>, e: Event, b: byte)
    requires ShowsId(s, t, b)
    requires PushKey(b) == PushKey(e.vlanId) <==> b == e.vlanId % 256
    requires PopKey(b) == PopKey(e.vlanId) <==> b == e.vlanId % 256
    requires PushKey(e.vlanId) in s <==> PopKey(e.vlanId) in s
    ensures ShowsId(VlanStep(s, e).0, Apply(t, Meaning(e)), b)
  {
    var s1 := Write(s, PushEntry(e), e.insert);
    assert PopKey(b) in s1 <==> PopKey(b) in s;
    StepSays(s, e, b);
  }

  /** Over every run from empty tables the push and pop tables hold the same set of ids, the learn-once set. */
  lemma {:induction false} RunShows(s: Store, events: seq<Event>)
    requires Shows(s, map[])
    ensures Shows(VlanRun(s, events), Run(Meanings(events)))
  {
    if events != [] {
      var n := |events| - 1;
      RunShows(s, events[..n]);
      StepShows(VlanRun(s, events[..n]), Run(Meanings(events[..n])), events[n]);
      assert Meanings(events)[..n] == Meanings(events[..n]);
    }
  }

  /**
   Over every run from empty tables the last request for an id, counted mod 256,
   decides whether both its entries are there.
   */
  lemma {:induction false} LastRequestDecides(s: Store, events: seq<Event>, i: nat)
    requires Shows(s, map[]) && i < |events|
    requires forall j :: i < j < |events| ==> events[j].vlanId % 256 != events[i].vlanId % 256
    ensures var r, id := VlanRun(s, events), events[i].vlanId;
            var push, pop := TableKey(VlanPushMod, [Match(ModBlobPtr, [id % 256])]),
                             TableKey(VlanPopMod, [Match(ModBlobPtr, [id % 256])]);
            && (push in r <==> events[i].insert) && (pop in r <==> events[i].insert)
            && (events[i].insert ==>
                  r[push].id == VlanPush && SaysVlanTag(r[push], id) && r[pop] == Action(VlanPop, []))
  {
    var ops, b: byte := Meanings(events), events[i].vlanId % 256;
    RunShows(s, events);
    LastDecides(ops, b, i);
    VlanKeysEqual(b, events[i].vlanId);
    VlanKeySays(VlanPushMod, events[i].vlanId);
    VlanKeySays(VlanPopMod, events[i].vlanId);
    assert ShowsId(VlanRun(s, events), Run(ops), b);
  }

  /** In every reachable state a call fails only when it changes nothing. */
  lemma {:induction false} ReachableFailure(s: Store, events: seq<Event>, e: Event)
    requires Shows(s, map[])
    ensures var r := VlanRun(s, events);
            VlanStep(r, e).1 != Ok ==> VlanStep(r, e).0 == r
  {
    RunShows(s, events);
    StepShows(VlanRun(s, events), Run(Meanings(events)), e);
  }
}
