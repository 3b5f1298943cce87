/**
 ConfigIpMacMapEntry: the source and the destination half of one IP-to-MAC event, each
 read before it is written, with a jump from the first to the second.
 */
module IpMacTable {
  import opened Bytes
  import opened OvsTypes
  import opened P4Runtime
  import opened Encoders
  import opened LearnOnce
  import opened Written

  const INADDR_ANY: uint32 := 0
  const INADDR_LOOPBACK: uint32 := 0x7f00_0001

  predicate ValidIpAddr(nwAddr: uint32) {
    nwAddr != 0 && nwAddr != INADDR_ANY && nwAddr != INADDR_LOOPBACK && nwAddr != 0xffff_ffff
  }

  datatype Event = Event(info: IpMacMapInfo, insert: bool)

  function SrcEntry(e: Event): Entry {
    EntryFor(SrcIpKey(V4Addr(e.info.srcIp)), MacAction(SmacMap, e.info.srcMac), e.insert)
  }

  function DstEntry(e: Event): Entry {
    EntryFor(DstIpKey(V4Addr(e.info.dstIp)), MacAction(DmacMap, e.info.dstMac), e.insert)
  }

  /** One half: skipped if an insert finds its key, and gated by the source address. */
  function Half(s: Store, entry: Entry, e: Event): Store {
    if (e.insert && entry.Key() in s) || !ValidIpAddr(V4Addr(e.info.srcIp)) then s else Write(s, entry, e.insert)
  }

  function IpMacStep(s: Store, e: Event): Store { Half(Half(s, SrcEntry(e), e), DstEntry(e), e) }

  function IpMacRun(s: Store, events: seq<Event>): Store {
    if events == [] then s else IpMacStep(IpMacRun(s, events[..|events| - 1]), events[|events| - 1])
  }

  // ---------- the program ----------

  method ReadVmSrcTableEntry(client: Client, info: IpMacMapInfo) returns (r: ReadResult)
    ensures r == Read(client.store, SrcEntry(Event(info, false)))
    ensures r.Found? <==> SrcIpKey(V4Addr(info.srcIp)) in client.store
  {
    var entry := new TableEntry();
    EncodeSrcIpMacMapTableEntry(entry, info, false);
    r := client.SendReadRequest(entry);
  }

  method ReadVmDstTableEntry(client: Client, info: IpMacMapInfo) returns (r: ReadResult)
    ensures r == Read(client.store, DstEntry(Event(info, false)))
    ensures r.Found? <==> DstIpKey(V4Addr(info.dstIp)) in client.store
  {
    var entry := new TableEntry();
    EncodeDstIpMacMapTableEntry(entry, info, false);
    r := client.SendReadRequest(entry);
  }

  method WriteSrcIpMacMapTableEntry(client: Client, info: IpMacMapInfo, insertEntry: bool) returns (status: Status)
    modifies client
    ensures client.store == Write(old(client.store), SrcEntry(Event(info, insertEntry)), insertEntry)
    ensures status == WriteStatus(old(client.store), SrcEntry(Event(info, insertEntry)), insertEntry)
  {
    var entry := new TableEntry();
    EncodeSrcIpMacMapTableEntry(entry, info, insertEntry);
    status := client.SendWriteRequest(entry, insertEntry);
  }

  method WriteDstIpMacMapTableEntry(client: Client, info: IpMacMapInfo, insertEntry: bool) returns (status: Status)
    modifies client
    ensures client.store == Write(old(client.store), DstEntry(Event(info, insertEntry)), insertEntry)
    ensures status == WriteStatus(old(client.store), DstEntry(Event(info, insertEntry)), insertEntry)
  {
    var entry := new TableEntry();
    EncodeDstIpMacMapTableEntry(entry, info, insertEntry);
    status := client.SendWriteRequest(entry, insertEntry);
  }

  /** The labelled block is the code that the goto jumps over. */
  method ConfigIpMacMapEntry(client: Client, info: IpMacMapInfo, insertEntry: bool) returns (status: Status)
    modifies client
    ensures client.store == IpMacStep(old(client.store), Event(info, insertEntry)) && status == Ok
  {
    label trySrcIp: {
      if insertEntry {
        var response := ReadVmSrcTableEntry(client, info);
        if response.Found? {
          break trySrcIp;
        }
      }
      if ValidIpAddr(V4Addr(info.srcIp)) {
        var ignored := WriteSrcIpMacMapTableEntry(client, info, insertEntry);
      }
    }
    if insertEntry {
      var response := ReadVmDstTableEntry(client, info);
      if response.Found? {
        return Ok;
      }
    }
    if ValidIpAddr(V4Addr(info.srcIp)) {
      var ignored := WriteDstIpMacMapTableEntry(client, info, insertEntry);
    }
    return Ok;
  }

  // ---------- theorems ----------

  lemma IpKeysEqual(a: uint32, b: uint32)
    ensures SrcIpKey(a) == SrcIpKey(b) <==> a == b
    ensures DstIpKey(a) == DstIpKey(b) <==> a == b
  {
    Ipv4KeyEqual(a, b);
    if SrcIpKey(a) == SrcIpKey(b) {
      assert SrcIpKey(a).matches[0] == SrcIpKey(b).matches[0];
    }
    if DstIpKey(a) == DstIpKey(b) {
      assert DstIpKey(a).matches[0] == DstIpKey(b).matches[0];
    }
  }

  /** Requests with an invalid source address change neither map, whatever their destination. */
  lemma InvalidSourceChangesNothing(s: Store, e: Event)
    requires !ValidIpAddr(V4Addr(e.info.srcIp))
    ensures IpMacStep(s, e) == s
  {
  }

  /** What an event means for the source map, and for the destination map: both gated by the source address. */
  function SrcMeaning(e: Event): Op<uint32, Mac> {
    if !ValidIpAddr(V4Addr(e.info.srcIp)) then Skip
    else if e.insert then Learn(V4Addr(e.info.srcIp), e.info.srcMac) else Forget(V4Addr(e.info.srcIp))
  }

  function DstMeaning(e: Event): Op<uint32, Mac> {
    if !ValidIpAddr(V4Addr(e.info.srcIp)) then Skip
    else if e.insert then Learn(V4Addr(e.info.dstIp), e.info.dstMac) else Forget(V4Addr(e.info.dstIp))
  }

  function Meanings(events: seq<Event>, meaning: Event -> Op<uint32, Mac>): (ops: seq<Op<uint32, Mac>>)
    ensures |ops| == |events|
    ensures forall i :: 0 <= i < |events| ==> ops[i] == meaning(events[i])
  {
    seq(|events|, i requires 0 <= i < |events| => meaning(events[i]))
  }

  predicate ShowsIp(s: Store, src: map<uint32, Mac>, dst: map<uint32, Mac>, ip: uint32) {
    && (SrcIpKey(ip) in s <==> ip in src)
    && (ip in src ==> s[SrcIpKey(ip)] == MacAction(SmacMap, src[ip]))
    && (DstIpKey(ip) in s <==> ip in dst)
    && (ip in dst ==> s[DstIpKey(ip)] == MacAction(DmacMap, dst[ip]))
  }

  ghost predicate Shows(s: Store, src: map<uint32, Mac>, dst: map<uint32, Mac>) {
    forall ip: uint32 :: ShowsIp(s, src, dst, ip)
  }

  lemma StepShows(s: Store, src: map<uint32, Mac>, dst: map<uint32, Mac>, e: Event)
    requires Shows(s, src, dst)
    ensures Shows(IpMacStep(s, e), Apply(src, SrcMeaning(e)), Apply(dst, DstMeaning(e)))
  {
    var a, b := V4Addr(e.info.srcIp), V4Addr(e.info.dstIp);
    assert ShowsIp(s, src, dst, a) && ShowsIp(s, src, dst, b);
    forall ip: uint32 ensures ShowsIp(IpMacStep(s, e), Apply(src, SrcMeaning(e)), Apply(dst, DstMeaning(e)), ip) {
      assert ShowsIp(s, src, dst, ip);
      IpKeysEqual(ip, a);
      IpKeysEqual(ip, b);
      ShowsOneIp(s, src, dst, e, ip, a, b);
    }
  }

  lemma ShowsOneIp(s: Store, src: map<uint32, Mac>, dst: map<uint32, Mac>, e: Event, ip: uint32, a: uint32, b: uint32)
    requires a == V4Addr(e.info.srcIp) && b == V4Addr(e.info.dstIp)
    requires SrcIpKey(ip) == SrcIpKey(a) <==> ip == a
    requires DstIpKey(ip) == DstIpKey(b) <==> ip == b
    requires ShowsIp(s, src, dst, ip) && ShowsIp(s, src, dst, a) && ShowsIp(s, src, dst, b)
    ensures ShowsIp(IpMacStep(s, e), Apply(src, SrcMeaning(e)), Apply(dst, DstMeaning(e)), ip)
  {
    var s1 := Half(s, SrcEntry(e), e);
    HalfAt(s, SrcEntry(e), e, SrcIpKey(ip));
    HalfAt(s, SrcEntry(e), e, DstIpKey(ip));
    HalfAt(s1, DstEntry(e), e, SrcIpKey(ip));
    HalfAt(s1, DstEntry(e), e, DstIpKey(ip));
  }

  /** One half as seen from one key. */
  lemma HalfAt(s: Store, entry: Entry, e: Event, k: TableKey)
    requires !Malformed(entry, e.insert) && (e.insert ==> entry.action.Some?)
    ensures var s', hit := Half(s, entry, e), k == entry.Key() && ValidIpAddr(V4Addr(e.info.srcIp));
            && (k in s' <==> if hit then e.insert else k in s)
            && (k in s ==> k in s' ==> s'[k] == s[k])
            && (k !in s && k in s' ==> e.insert && s'[k] == entry.action.value)
  {
  }

  /** Every run from empty maps leaves the two learn-once maps of its events. */
  lemma {:induction false} RunShows(s: Store, events: seq<Event>)
    requires Shows(s, map[], map[])
    ensures Shows(IpMacRun(s, events), Run(Meanings(events, SrcMeaning)), Run(Meanings(events, DstMeaning)))
  {
    if events != [] {
      var n := |events| - 1;
      RunShows(s, events[..n]);
      StepShows(IpMacRun(s, events[..n]), Run(Meanings(events[..n], SrcMeaning)),
                Run(Meanings(events[..n], DstMeaning)), events[n]);
      assert Meanings(events, SrcMeaning)[..n] == Meanings(events[..n], SrcMeaning);
      assert Meanings(events, DstMeaning)[..n] == Meanings(events[..n], DstMeaning);
    }
  }

  lemma SameAddress(a: IpAddr, b: IpAddr)
    ensures V4Addr(a) == V4Addr(b) <==> a.raw[..4] == b.raw[..4]
  {
    WordBytesInOrder(a, 0);
    WordBytesInOrder(b, 0);
    Ipv4KeyEqual(V4Addr(a), V4Addr(b));
  }

  /**
   Read off the history: the source map holds for an address the MAC of the first
   accepted insert after its last accepted delete, or nothing.
   */
  lemma {:induction false} SrcMapLaw(s: Store, events: seq<Event>, ip: IpAddr)
    requires Shows(s, map[], map[])
    ensures var r, src := IpMacRun(s, events), Meanings(events, SrcMeaning);
            var k := TableKey(SrcIpMacMap, [Match(Ipv4Src, ip.raw[..4])]);
            && (k in r <==> exists i :: Holder(src, V4Addr(ip), i))
            && (forall i :: Holder(src, V4Addr(ip), i) ==>
                  && events[i].insert && events[i].info.srcIp.raw[..4] == ip.raw[..4]
                  && k in r && SaysMac(r[k], SmacMap, events[i].info.srcMac))
  {
    var src := Meanings(events, SrcMeaning);
    IpKeysSay(ip);
    RunShowsIp(s, events, V4Addr(ip));
    RunLaw(src, V4Addr(ip));
    forall i | Holder(src, V4Addr(ip), i)
      ensures events[i].insert && events[i].info.srcIp.raw[..4] == ip.raw[..4]
      ensures SaysMac(MacAction(SmacMap, src[i].value), SmacMap, events[i].info.srcMac)
    {
      SameAddress(events[i].info.srcIp, ip);
      MacActionSays(SmacMap, src[i].value);
    }
  }

  /** The destination map obeys the same law; "accepted" looks at the source address here too. */
  lemma {:induction false} DstMapLaw(s: Store, events: seq<Event>, ip: IpAddr)
    requires Shows(s, map[], map[])
    ensures var r, dst := IpMacRun(s, events), Meanings(events, DstMeaning);
            var k := TableKey(DstIpMacMap, [Match(Ipv4Dst, ip.raw[..4])]);
            && (k in r <==> exists i :: Holder(dst, V4Addr(ip), i))
            && (forall i :: Holder(dst, V4Addr(ip), i) ==>
                  && events[i].insert && events[i].info.dstIp.raw[..4] == ip.raw[..4]
                  && k in r && SaysMac(r[k], DmacMap, events[i].info.dstMac))
  {
    var dst := Meanings(events, DstMeaning);
    IpKeysSay(ip);
    RunShowsIp(s, events, V4Addr(ip));
    RunLaw(dst, V4Addr(ip));
    forall i | Holder(dst, V4Addr(ip), i)
      ensures events[i].insert && events[i].info.dstIp.raw[..4] == ip.raw[..4]
      ensures SaysMac(MacAction(DmacMap, dst[i].value), DmacMap, events[i].info.dstMac)
    {
      SameAddress(events[i].info.dstIp, ip);
      MacActionSays(DmacMap, dst[i].value);
    }
  }

  lemma {:induction false} RunShowsIp(s: Store, events: seq<Event>, ip: uint32)
    requires Shows(s, map[], map[])
    ensures ShowsIp(IpMacRun(s, events), Run(Meanings(events, SrcMeaning)), Run(Meanings(events, DstMeaning)), ip)
  {
    RunShows(s, events);
  }

  // ---------- the address check ----------

  // Addresses in the order of their bytes, as they are written.
  const ANY_ADDRESS := [0, 0, 0, 0]
  const BROADCAST := [255, 255, 255, 255]
  const LOOPBACK := [127, 0, 0, 1]
  const LOOPBACK_REVERSED := [1, 0, 0, 127]

  /** What the check is meant to let through. */
  predicate IntendedValid(ip: IpAddr) {
    ip.raw[..4] != ANY_ADDRESS && ip.raw[..4] != LOOPBACK && ip.raw[..4] != BROADCAST
  }

  /** A word has the value of four bytes exactly when these are its bytes. */
  lemma WordIs(ip: IpAddr, bytes: seq<byte>, w: uint32, a: byte, b: byte, c: byte, d: byte)
    requires bytes == [a, b, c, d] && w == a + 0x100 * b + 0x1_0000 * c + 0x100_0000 * d
    ensures V4Addr(ip) == w <==> ip.raw[..4] == bytes
  {
    var r := ip.raw;
    assert r[..4] == [r[0], r[1], r[2], r[3]];
    assert w == JoinBytes(a, b, c, d);
    SplitWord(r[0], r[1], r[2], r[3]);
    SplitWord(a, b, c, d);
  }

  /** The addresses that the check rejects, exactly. */
  lemma ValidIpAddrExactly(ip: IpAddr)
    ensures ValidIpAddr(V4Addr(ip)) <==>
            ip.raw[..4] != ANY_ADDRESS && ip.raw[..4] != LOOPBACK_REVERSED && ip.raw[..4] != BROADCAST
  {
    WordIs(ip, ANY_ADDRESS, INADDR_ANY, 0, 0, 0, 0);
    WordIs(ip, LOOPBACK_REVERSED, INADDR_LOOPBACK, 1, 0, 0, 127);
    WordIs(ip, BROADCAST, 0xffff_ffff, 255, 255, 255, 255);
  }

  /**
   The check does what it is meant to do exactly for the addresses other than the
   loopback address, which it lets through, and 1.0.0.127, which it rejects.
   */
  lemma ValidIpAddrAsIntended(ip: IpAddr)
    ensures ValidIpAddr(V4Addr(ip)) == IntendedValid(ip) <==>
            ip.raw[..4] != LOOPBACK && ip.raw[..4] != LOOPBACK_REVERSED
    ensures ip.raw[..4] == LOOPBACK ==> ValidIpAddr(V4Addr(ip))
    ensures ip.raw[..4] == LOOPBACK_REVERSED ==> !ValidIpAddr(V4Addr(ip)) && IntendedValid(ip)
  {
    ValidIpAddrExactly(ip);
    assert LOOPBACK[0] != LOOPBACK_REVERSED[0] && LOOPBACK[0] != ANY_ADDRESS[0] && LOOPBACK[0] != BROADCAST[0];
    assert LOOPBACK_REVERSED[0] != ANY_ADDRESS[0] && LOOPBACK_REVERSED[0] != BROADCAST[0];
  }

  /** So an insert from 127.0.0.1 is stored, and one from 1.0.0.127 is silently dropped. */
  lemma WrongSources(s: Store, e: Event)
    requires e.insert
    ensures e.info.srcIp.raw[..4] == LOOPBACK ==> SrcIpKey(V4Addr(e.info.srcIp)) in IpMacStep(s, e)
    ensures e.info.srcIp.raw[..4] == LOOPBACK_REVERSED ==> IpMacStep(s, e) == s
  {
    ValidIpAddrAsIntended(e.info.srcIp);
  }
}
