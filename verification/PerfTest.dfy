/**
 The P4Runtime performance test: how the entries are divided over the threads, which
 MAC pairs each thread names, and what all threads together do to the server.
 */
module PerfTest {
  import opened Bytes
  import opened P4Runtime
  import opened Wrappers

  const MAX_THREADS := 8
  const CORE_BASE := 20
  const ADD := 1
  const DEL := 2

  datatype ThreadInfo = ThreadInfo(tid: uint32, coreId: uint32, start: uint64, numEntries: uint64, oper: uint32)

  // ---------- the division of work ----------

  function Start(total: nat, n: nat, i: nat): nat
    requires n > 0
  {
    i * (total / n)
  }

  function Count(total: nat, n: nat, i: nat): nat
    requires n > 0
  {
    total / n + (if i == n - 1 then total % n else 0)
  }

  lemma StartBound(total: nat, n: nat, i: nat)
    requires 0 < n && i <= n
    ensures Start(total, n, i) + total % n <= total
  {
    assert total == n * (total / n) + total % n;
    assert i * (total / n) <= n * (total / n) by {
      MulMonotone(i, n, total / n);
    }
  }

  /** The plan for thread i: its range, and the core it is bound to. */
  function Plan(total: nat, n: nat, oper: uint32, i: nat): ThreadInfo
    requires total < 0x1_0000_0000_0000_0000 && i < n <= MAX_THREADS
  {
    StartBound(total, n, i);
    StartBound(total, n, 1);
    ThreadInfo(i, CORE_BASE + i, Start(total, n, i), Count(total, n, i), oper)
  }

  /** No product or sum below exceeds 64 bits: they are all assigned to uint64 variables. */
  method PopulateThreadInfo(threadData: array<ThreadInfo>, coreId: array<uint32>,
                            total: uint64, numThreads: uint32, oper: uint32)
    requires threadData.Length == coreId.Length == 8 && 1 <= numThreads <= 8
    modifies threadData, coreId
    ensures forall i :: 0 <= i < numThreads ==>
              && threadData[i] == Plan(total, numThreads, oper, i)
              && threadData[i].tid == i && threadData[i].coreId == 20 + i && threadData[i].oper == oper
              && threadData[i].start == i * (total / numThreads)
              && threadData[i].numEntries ==
                 total / numThreads + (if i == numThreads - 1 then total % numThreads else 0)
    ensures forall i :: 0 <= i < numThreads ==> coreId[i] == 20 + i
    ensures forall i :: numThreads <= i < 8 ==>
                          threadData[i] == old(threadData[i]) && coreId[i] == old(coreId[i])
  {
    var entriesPerThread: uint64 := total / numThreads;
    var remRules: uint64 := total % numThreads;
    var index: uint16 := 0;
    while index < numThreads
      invariant index <= numThreads
      invariant forall i :: 0 <= i < index ==>
                              threadData[i] == Plan(total, numThreads, oper, i).(numEntries := entriesPerThread)
      invariant forall i :: 0 <= i < index ==> coreId[i] == CORE_BASE + i
      invariant forall i :: numThreads <= i < MAX_THREADS ==>
                              threadData[i] == old(threadData[i]) && coreId[i] == old(coreId[i])
    {
      StartBound(total, numThreads, index);
      var start: uint64 := index * entriesPerThread;
      coreId[index] := CORE_BASE + index;
      threadData[index] := ThreadInfo(index, coreId[index], start, entriesPerThread, oper);
      index := index + 1;
    }
    var last := numThreads - 1;
    StartBound(total, numThreads, 1);
    var numEntries: uint64 := threadData[last].numEntries + remRules;
    threadData[last] := threadData[last].(numEntries := numEntries);
  }

  /** The ranges lie end to end from 0 to the total. */
  lemma RangesContiguous(total: nat, n: nat, i: nat)
    requires 0 < n && i < n
    ensures Start(total, n, 0) == 0
    ensures Start(total, n, i) + Count(total, n, i) == if i == n - 1 then total else Start(total, n, i + 1)
  {
    assert total == n * (total / n) + total % n;
    assert (i + 1) * (total / n) == i * (total / n) + total / n;
  }

  /** Every entry index belongs to exactly one thread. */
  lemma ExactlyOneThread(total: nat, n: nat, x: nat) returns (owner: nat)
    requires 0 < n && x < total
    ensures owner < n
    ensures forall i :: 0 <= i < n ==>
              (Start(total, n, i) <= x < Start(total, n, i) + Count(total, n, i) <==> i == owner)
  {
    owner := 0;
    while owner < n - 1 && Start(total, n, owner + 1) <= x
      invariant owner <= n - 1 && Start(total, n, owner) <= x
    {
      owner := owner + 1;
    }
    RangesContiguous(total, n, owner);
    forall i | 0 <= i < n ensures Start(total, n, i) <= x < Start(total, n, i) + Count(total, n, i) <==> i == owner {
      RangesContiguous(total, n, i);
      if i < owner {
        MulMonotone(i + 1, owner, total / n);
      } else if i > owner {
        MulMonotone(owner + 1, i, total / n);
      }
    }
  }

  // ---------- the entries of one thread ----------

  /** The low 48 bits of a counter as a MAC address. */
  function MacOf(c: nat): Mac { LowBytesOf(c, 6) }

  function PerfKey(c: nat): TableKey {
    TableKey(PerfForward, [Match(DstMac, CanonicalizeMac(MacOf(c + 1))), Match(SrcMac, CanonicalizeMac(MacOf(c)))])
  }

  const PERF_ACTION := Action(Send, [Param(Port, ByteString([1]))])

  function PerfEntry(c: nat, insert: bool): Entry {
    Entry(PerfForward, PerfKey(c).matches, if insert then Some(PERF_ACTION) else None)
  }

  function AddEntry(c: nat): Entry { PerfEntry(c, true) }

  function DelEntry(c: nat): Entry { PerfEntry(c, false) }

  function EntryAt(insert: bool): nat -> Entry { if insert then AddEntry else DelEntry }

  /** f(start + 1), ..., f(start + num). */
  function Sequence<T>(f: nat -> T, start: nat, num: nat): (u: seq<T>)
    ensures |u| == num
  {
    if num == 0 then [] else Sequence(f, start, num - 1) + [f(start + num)]
  }

  lemma {:induction false} SequenceAt<T>(f: nat -> T, start: nat, num: nat, j: nat)
    requires j < num
    ensures Sequence(f, start, num)[j] == f(start + 1 + j)
  {
    if j < num - 1 {
      SequenceAt(f, start, num - 1, j);
    }
  }

  lemma {:induction false} SequenceJoin<T>(f: nat -> T, a: nat, m: nat, k: nat)
    ensures Sequence(f, a, m) + Sequence(f, a + m, k) == Sequence(f, a, m + k)
  {
    if k > 0 {
      SequenceJoin(f, a, m, k - 1);
    }
  }

  /** The entries for the counters start + 1 to start + num. */
  function Updates(start: nat, num: nat, insert: bool): (u: seq<Entry>) { Sequence(EntryAt(insert), start, num) }

  lemma UpdatesSnoc(start: nat, j: nat, insert: bool)
    ensures Updates(start, j + 1, insert) == Updates(start, j, insert) + [PerfEntry(start + 1 + j, insert)]
  {
  }

  method PrepareSimpleL2DemoTableEntry(entry: TableEntry, dstMac: Mac, srcMac: Mac, insertEntry: bool)
    requires entry.Value() == Entry(NoTable, [], None)
    modifies entry
    ensures entry.Value() ==
            Entry(PerfForward, [Match(DstMac, CanonicalizeMac(dstMac)), Match(SrcMac, CanonicalizeMac(srcMac))],
                  if insertEntry then Some(PERF_ACTION) else None)
  {
    entry.SetTable(PerfForward);
    entry.AddMatch(DstMac, CanonicalizeMac(dstMac));
    entry.AddMatch(SrcMac, CanonicalizeMac(srcMac));
    if insertEntry {
      entry.MutableAction();
      entry.SetActionId(Send);
      entry.AddParam(Port, ByteString([1]));
      assert entry.action.value.params == [Param(Port, ByteString([1]))];
    }
  }

  /** Two counters make the same MAC address exactly when they agree mod 2^48. */
  lemma MacOfEqual(c: nat, d: nat)
    ensures MacOf(c) == MacOf(d) <==> c % 0x1_0000_0000_0000 == d % 0x1_0000_0000_0000
  {
    LowBytesEqual(c, d, 6);
    assert Pow256(3) == 0x100_0000;
    assert Pow256(6) == 0x1_0000_0000_0000;
  }

  /** A counter that wraps at 64 bits makes the same MAC address. */
  lemma MacOfWrapped(c: nat)
    ensures MacOf(c % 0x1_0000_0000_0000_0000) == MacOf(c)
  {
    MacOfEqual(c % 0x1_0000_0000_0000_0000, c);
    WrapMod(c);
  }

  lemma WrapMod(c: nat)
    ensures (c % 0x1_0000_0000_0000_0000) % 0x1_0000_0000_0000 == c % 0x1_0000_0000_0000
  {
    var q, m := c / 0x1_0000_0000_0000_0000, c % 0x1_0000_0000_0000_0000;
    var k, r := m / 0x1_0000_0000_0000, m % 0x1_0000_0000_0000;
    assert c == (q * 0x1_0000 + k) * 0x1_0000_0000_0000 + r;
    DivModUnique(c, 0x1_0000_0000_0000, q * 0x1_0000 + k, r);
  }

  /** The shifts and masks of the program pick the same bytes. */
  lemma MacBytes(c: nat)
    ensures var m := MacOf(c);
            && m[0] == (c / 0x100_0000_0000) % 256 && m[1] == (c / 0x1_0000_0000) % 256
            && m[2] == (c / 0x100_0000) % 256 && m[3] == (c / 0x1_0000) % 256
            && m[4] == (c / 0x100) % 256 && m[5] == c % 256
  {
    LowBytes6(c);
  }

  /** 64-bit wrap-around. */
  function Wrap64(c: nat): uint64 { c % 0x1_0000_0000_0000_0000 }

  lemma SuccWrap(c: nat)
    ensures Wrap64(Wrap64(c) as int + 1) == Wrap64(c + 1)
  {
    SuccMod(c, 0x1_0000_0000_0000_0000);
  }

  /** The six byte assignments into a MAC array. */
  method StoreMac(mac: array<byte>, value: uint64)
    requires mac.Length == 6
    modifies mac
    ensures mac[..] == MacOf(value)
  {
    MacBytes(value);
    mac[0] := (value / 0x100_0000_0000) % 256;
    mac[1] := (value / 0x1_0000_0000) % 256;
    mac[2] := (value / 0x100_0000) % 256;
    mac[3] := (value / 0x1_0000) % 256;
    mac[4] := (value / 0x100) % 256;
    mac[5] := value % 256;
  }

  /** The body of the loop: the entry for a counter, which may have wrapped at 64 bits. */
  method EntryForCounter(count: uint64, insertEntry: bool, srcMac: array<byte>, dstMac: array<byte>, ghost c: nat)
    returns (entry: Entry)
    requires srcMac.Length == dstMac.Length == 6 && srcMac != dstMac && count == Wrap64(c)
    modifies srcMac, dstMac
    ensures entry == PerfEntry(c, insertEntry)
  {
    var tableEntry := new TableEntry();
    var srcInt := count;
    StoreMac(srcMac, srcInt);
    srcInt := Wrap64(count as int + 1);
    StoreMac(dstMac, srcInt);
    NextCounter(c, count);
    PrepareSimpleL2DemoTableEntry(tableEntry, dstMac[..], srcMac[..], insertEntry);
    entry := tableEntry.Value();
  }

  /** The write request that one thread assembles; None is an invalid operation. */
  method SimpleL2DemoTest(t: ThreadInfo) returns (request: Option<seq<Entry>>)
    ensures request == if t.oper in {ADD, DEL} || t.numEntries == 0
                       then Some(Updates(t.start, t.numEntries, t.oper == ADD)) else None
  {
    var updates: seq<Entry> := [];
    var srcMac, dstMac := new byte[6], new byte[6];
    var count := Wrap64(t.start + 1);
    var j: uint64 := 0;
    while j < t.numEntries
      invariant j <= t.numEntries && (j > 0 ==> t.oper in {ADD, DEL})
      invariant count == Wrap64(t.start + 1 + j)
      invariant updates == Updates(t.start, j, t.oper == ADD)
    {
      if t.oper != ADD && t.oper != DEL {
        return None;
      }
      var entry := EntryForCounter(count, t.oper == ADD, srcMac, dstMac, t.start + 1 + j);
      NextUpdate(t.start, j, t.oper == ADD, updates, entry, count);
      updates := updates + [entry];
      count := Wrap64(count as int + 1);
      j := j + 1;
    }
    return Some(updates);
  }

  lemma NextUpdate(start: nat, j: nat, insert: bool, updates: seq<Entry>, entry: Entry, count: uint64)
    requires updates == Updates(start, j, insert) && count == Wrap64(start + 1 + j)
    requires entry == PerfEntry(start + 1 + j, insert)
    ensures updates + [entry] == Updates(start, j + 1, insert)
    ensures Wrap64(count as int + 1) == Wrap64(start + 1 + (j + 1))
  {
    UpdatesSnoc(start, j, insert);
    SuccWrap(start + 1 + j);
  }

  lemma NextCounter(c: nat, count: uint64)
    requires count == Wrap64(c)
    ensures MacOf(count) == MacOf(c) && MacOf(Wrap64(count as int + 1)) == MacOf(c + 1)
  {
    MacOfWrapped(c);
    MacOfWrapped(c + 1);
    SuccWrap(c);
  }

  lemma SuccMod(c: nat, d: nat)
    requires d > 1
    ensures (c % d + 1) % d == (c + 1) % d
  {
    var q, r := c / d, c % d;
    assert c == q * d + r;
    if r + 1 < d {
      DivModUnique(c + 1, d, q, r + 1);
      DivModUnique(r + 1, d, 0, r + 1);
    } else {
      assert (q + 1) * d == q * d + d;
      DivModUnique(c + 1, d, q + 1, 0);
      DivModUnique(r + 1, d, 1, 0);
    }
  }

  // ---------- all threads together ----------

  /** The sequences of several ranges, each a start and a count, one after the other. */
  function RangeSequence<T>(f: nat -> T, ranges: seq<(nat, nat)>): seq<T> {
    if ranges == [] then []
    else
      var last := ranges[|ranges| - 1];
      RangeSequence(f, ranges[..|ranges| - 1]) + Sequence(f, last.0, last.1)
  }

  function RangesEnd(ranges: seq<(nat, nat)>): nat {
    if ranges == [] then 0 else ranges[|ranges| - 1].0 + ranges[|ranges| - 1].1
  }

  /** The first range starts at 0, and every other where its predecessor ends. */
  predicate EndToEnd(ranges: seq<(nat, nat)>) {
    ranges != [] ==> var n := |ranges| - 1; EndToEnd(ranges[..n]) && ranges[n].0 == RangesEnd(ranges[..n])
  }

  lemma {:induction false} RangesJoin<T>(f: nat -> T, ranges: seq<(nat, nat)>)
    requires EndToEnd(ranges)
    ensures RangeSequence(f, ranges) == Sequence(f, 0, RangesEnd(ranges))
  {
    if ranges != [] {
      var before, last := ranges[..|ranges| - 1], ranges[|ranges| - 1];
      RangesJoin(f, before);
      assert RangeSequence(f, ranges) == RangeSequence(f, before) + Sequence(f, last.0, last.1);
      RangeJoined(f, RangeSequence(f, before), last.0, last.1);
    }
  }

  lemma RangeJoined<T>(f: nat -> T, before: seq<T>, start: nat, count: nat)
    requires before == Sequence(f, 0, start)
    ensures before + Sequence(f, start, count) == Sequence(f, 0, start + count)
  {
    SequenceJoin(f, 0, start, count);
  }

  /** The ranges of the first k of n threads. */
  function Ranges(total: nat, n: nat, k: nat): (r: seq<(nat, nat)>)
    requires 0 < n && k <= n
    ensures |r| == k
  {
    if k == 0 then [] else Ranges(total, n, k - 1) + [(Start(total, n, k - 1), Count(total, n, k - 1))]
  }

  lemma {:induction false} RangesEndToEnd(total: nat, n: nat, k: nat)
    requires 0 < n && k <= n
    ensures EndToEnd(Ranges(total, n, k))
    ensures RangesEnd(Ranges(total, n, k)) == if k == n then total else Start(total, n, k)
  {
    if k == 0 {
      assert Start(total, n, 0) == 0;
    } else {
      var prev, r := Ranges(total, n, k - 1), Ranges(total, n, k);
      RangesEndToEnd(total, n, k - 1);
      RangesContiguous(total, n, k - 1);
      assert r[..k - 1] == prev;
    }
  }

  /** What all n threads name, one thread after the other. */
  function ThreadUpdates(total: nat, n: nat, insert: bool): seq<Entry>
    requires 0 < n
  {
    RangeSequence(EntryAt(insert), Ranges(total, n, n))
  }

  /** It does not depend on their number: the counters 1 to total, in order. */
  lemma ThreadCountIrrelevant(total: nat, n: nat, insert: bool)
    requires 0 < n
    ensures ThreadUpdates(total, n, insert) == Updates(0, total, insert)
  {
    RangesEndToEnd(total, n, n);
    RangesJoin(EntryAt(insert), Ranges(total, n, n));
  }

  /** The requests of all threads, one after the other. */
  function Joined(requests: seq<seq<Entry>>): seq<Entry> {
    if requests == [] then [] else Joined(requests[..|requests| - 1]) + requests[|requests| - 1]
  }

  /** The first threads have assembled the entries of their ranges. */
  ghost predicate Assembled(requests: seq<seq<Entry>>, total: nat, n: nat, insert: bool) {
    0 < n && |requests| <= n && Joined(requests) == RangeSequence(EntryAt(insert), Ranges(total, n, |requests|))
  }

  lemma ThreadJoins(requests: seq<seq<Entry>>, total: nat, n: nat, insert: bool, next: seq<Entry>)
    requires Assembled(requests, total, n, insert) && |requests| < n
    requires next == Updates(Start(total, n, |requests|), Count(total, n, |requests|), insert)
    ensures Assembled(requests + [next], total, n, insert)
  {
    assert (requests + [next])[..|requests|] == requests;
    var ranges := Ranges(total, n, |requests| + 1);
    assert ranges[..|requests|] == Ranges(total, n, |requests|);
  }

  lemma {:induction false} AllAssembled(requests: seq<seq<Entry>>, total: nat, n: nat, insert: bool)
    requires Assembled(requests, total, n, insert) && |requests| == n
    ensures Joined(requests) == Updates(0, total, insert)
  {
    ThreadCountIrrelevant(total, n, insert);
  }

  /** RunPerfTest for the planned work of one thread. */
  method RunPerfTest(t: ThreadInfo, ghost total: nat, ghost n: nat, ghost index: nat) returns (request: seq<Entry>)
    requires total < 0x1_0000_0000_0000_0000 && index < n <= MAX_THREADS
    requires t == Plan(total, n, t.oper, index) && t.oper in {ADD, DEL}
    ensures request == Updates(Start(total, n, index), Count(total, n, index), t.oper == ADD)
  {
    var assembled := SimpleL2DemoTest(t);
    request := assembled.value;
  }

  // ---------- in plain terms ----------

  /** The low 48 bits of a number, most significant byte first. */
  function SixBytes(c: nat): seq<byte> {
    [(c / 0x100_0000_0000) % 256, (c / 0x1_0000_0000) % 256, (c / 0x100_0000) % 256,
     (c / 0x1_0000) % 256, (c / 0x100) % 256, c % 256]
  }

  /** The entry of counter c: from c to c + 1, and when it is added out of port 1. */
  function PairEntry(c: nat, insert: bool): Entry {
    Entry(PerfForward, [Match(DstMac, SixBytes(c + 1)), Match(SrcMac, SixBytes(c))],
          if insert then Some(Action(Send, [Param(Port, [1])])) else None)
  }

  lemma PerfEntrySays(c: nat, insert: bool)
    ensures PerfEntry(c, insert) == PairEntry(c, insert)
  {
    OneByte(1);
    EntryOfMacs(c, insert, SixBytes(c), SixBytes(c + 1));
  }

  lemma EntryOfMacs(c: nat, insert: bool, src: seq<byte>, dst: seq<byte>)
    requires src == SixBytes(c) && dst == SixBytes(c + 1) && ByteString([1]) == [1]
    ensures PerfEntry(c, insert) ==
            Entry(PerfForward, [Match(DstMac, dst), Match(SrcMac, src)],
                  if insert then Some(Action(Send, [Param(Port, [1])])) else None)
  {
    MacSays(c, src);
    MacSays(c + 1, dst);
  }

  lemma MacSays(c: nat, bytes: seq<byte>)
    requires bytes == SixBytes(c)
    ensures CanonicalizeMac(MacOf(c)) == bytes
  {
    LowBytes6(c);
    MacDecodes(MacOf(c));
  }

  lemma UpdatesSay(total: nat, insert: bool, j: nat)
    requires j < total
    ensures Updates(0, total, insert)[j] == PairEntry(1 + j, insert)
  {
    SequenceAt(EntryAt(insert), 0, total, j);
    PerfEntrySays(1 + j, insert);
  }

  /** The program: divide the work, let every thread assemble its request; each entry is named once, in order. */
  method RunAllThreads(total: uint64, numThreads: uint32, oper: uint32) returns (requests: seq<seq<Entry>>)
    requires 1 <= numThreads <= 8 && oper in {1, 2}
    ensures |requests| == numThreads && |Joined(requests)| == total
    ensures forall j :: 0 <= j < total ==> Joined(requests)[j] == PairEntry(1 + j, oper == 1)
    ensures Joined(requests) == Updates(0, total, oper == ADD)
  {
    var unused := ThreadInfo(0, 0, 0, 0, 0);
    var threadData, coreId := new ThreadInfo[MAX_THREADS](_ => unused), new uint32[MAX_THREADS](_ => 0);
    PopulateThreadInfo(threadData, coreId, total, numThreads, oper);
    requests := [];
    for index := 0 to numThreads
      invariant |requests| == index && Assembled(requests, total, numThreads, oper == ADD)
      invariant forall i :: 0 <= i < numThreads ==> threadData[i] == Plan(total, numThreads, oper, i)
    {
      var request := RunPerfTest(threadData[index], total, numThreads, index);
      ThreadJoins(requests, total, numThreads, oper == ADD, request);
      requests := requests + [request];
    }
    AllAssembled(requests, total, numThreads, oper == ADD);
    ghost var updates := Updates(0, total, oper == ADD);
    forall j | 0 <= j < total ensures updates[j] == PairEntry(1 + j, oper == 1) {
      UpdatesSay(total, oper == ADD, j);
    }
  }

  // ---------- distinct keys ----------

  lemma PerfKeyMacs(c: nat, d: nat)
    ensures PerfKey(c) == PerfKey(d) <==> MacOf(c) == MacOf(d) && MacOf(c + 1) == MacOf(d + 1)
  {
    MacDecodes(MacOf(c));
    MacDecodes(MacOf(d));
    MacDecodes(MacOf(c + 1));
    MacDecodes(MacOf(d + 1));
    if PerfKey(c) == PerfKey(d) {
      assert PerfKey(c).matches[0] == PerfKey(d).matches[0];
      assert PerfKey(c).matches[1] == PerfKey(d).matches[1];
    }
  }

  /** Two counters name the same key exactly when they agree mod 2^48. */
  lemma PerfKeyEqual(c: nat, d: nat)
    ensures PerfKey(c) == PerfKey(d) <==> c % 0x1_0000_0000_0000 == d % 0x1_0000_0000_0000
  {
    PerfKeyMacs(c, d);
    MacOfEqual(c, d);
    MacOfEqual(c + 1, d + 1);
    SuccMod(c, 0x1_0000_0000_0000);
    SuccMod(d, 0x1_0000_0000_0000);
  }

  ghost predicate DistinctKeys(u: seq<Entry>) {
    forall i, j :: 0 <= i < j < |u| ==> u[i].Key() != u[j].Key()
  }

  /** All entries of a run have different keys exactly when there are at most 2^48 of them. */
  lemma DistinctUpTo48Bits(total: nat, insert: bool)
    ensures DistinctKeys(Updates(0, total, insert)) <==> total <= 0x1_0000_0000_0000
  {
    var u := Updates(0, total, insert);
    if total <= 0x1_0000_0000_0000 {
      forall i, j | 0 <= i < j < |u| ensures u[i].Key() != u[j].Key() {
        UpdateKeysEqual(total, insert, i, j);
        CloseCounters(1 + i, 1 + j);
      }
    } else {
      FirstRepeats(total, insert);
    }
  }

  lemma FirstRepeats(total: nat, insert: bool)
    requires total > 0x1_0000_0000_0000
    ensures !DistinctKeys(Updates(0, total, insert))
  {
    var u := Updates(0, total, insert);
    UpdateKeysEqual(total, insert, 0, 0x1_0000_0000_0000);
    assert u[0].Key() == u[0x1_0000_0000_0000].Key();
  }

  lemma UpdateKeysEqual(total: nat, insert: bool, i: nat, j: nat)
    requires i < total && j < total
    ensures var u := Updates(0, total, insert);
            u[i].Key() == u[j].Key() <==> (1 + i) % 0x1_0000_0000_0000 == (1 + j) % 0x1_0000_0000_0000
  {
    UpdateKeyAt(total, insert, i);
    UpdateKeyAt(total, insert, j);
    PerfKeyEqual(1 + i, 1 + j);
  }

  lemma UpdateKeyAt(total: nat, insert: bool, i: nat)
    requires i < total
    ensures Updates(0, total, insert)[i].Key() == PerfKey(1 + i)
  {
    SequenceAt(EntryAt(insert), 0, total, i);
  }

  lemma CloseCounters(c: nat, d: nat)
    requires c < d < c + 0x1_0000_0000_0000
    ensures c % 0x1_0000_0000_0000 != d % 0x1_0000_0000_0000
  {
  }

  // ---------- adding and deleting, in any order ----------

  function WriteAll(s: Store, u: seq<Entry>, insert: bool): Store
    decreases |u|
  {
    if u == [] then s else WriteAll(Write(s, u[0], insert), u[1..], insert)
  }

  ghost function KeysOf(u: seq<Entry>): set<TableKey> { set e | e in u :: e.Key() }

  predicate IsUpdate(e: Entry, insert: bool) { !Malformed(e, insert) }

  /** Inserts add the keys that are missing and keep what is there; a refused one changes nothing. */
  lemma {:induction false} InsertAll(s: Store, u: seq<Entry>)
    requires forall e :: e in u ==> IsUpdate(e, true)
    ensures var s' := WriteAll(s, u, true);
            s'.Keys == s.Keys + KeysOf(u) && forall k :: k in s ==> s'[k] == s[k]
    decreases |u|
  {
    if u != [] {
      var s1 := Write(s, u[0], true);
      FirstKey(u);
      assert IsUpdate(u[0], true);
      assert s1.Keys == s.Keys + {u[0].Key()};
      InsertAll(s1, u[1..]);
    }
  }

  lemma FirstKey(u: seq<Entry>)
    requires u != []
    ensures KeysOf(u) == {u[0].Key()} + KeysOf(u[1..])
  {
    assert u == [u[0]] + u[1..];
  }

  /** Deletes remove their keys, whether they are there or not. */
  lemma {:induction false} DeleteAll(s: Store, u: seq<Entry>)
    requires forall e :: e in u ==> IsUpdate(e, false)
    ensures WriteAll(s, u, false) == s - KeysOf(u)
    decreases |u|
  {
    if u == [] {
      assert s - KeysOf(u) == s;
    } else {
      var k := u[0].Key();
      FirstKey(u);
      assert IsUpdate(u[0], false);
      assert Write(s, u[0], false) == s - {k};
      DeleteAll(s - {k}, u[1..]);
      assert s - {k} - KeysOf(u[1..]) == s - KeysOf(u);
    }
  }

  /** Reordering entries names the same keys. */
  lemma ReorderedKeys(u: seq<Entry>, p: seq<Entry>)
    requires multiset(p) == multiset(u)
    ensures KeysOf(p) == KeysOf(u)
  {
    forall e ensures e in p <==> e in u {
      assert e in multiset(p) <==> e in multiset(u);
    }
  }

  lemma {:induction false} UpdatesProper(start: nat, num: nat, insert: bool)
    ensures forall e :: e in Updates(start, num, insert) ==> IsUpdate(e, insert)
  {
    if num > 0 {
      UpdatesProper(start, num - 1, insert);
    }
  }

  lemma {:induction false} SameKeysAddedDeleted(start: nat, num: nat)
    ensures KeysOf(Updates(start, num, true)) == KeysOf(Updates(start, num, false))
  {
    if num > 0 {
      SameKeysAddedDeleted(start, num - 1);
      LastKey(Updates(start, num - 1, true), PerfEntry(start + num, true));
      LastKey(Updates(start, num - 1, false), PerfEntry(start + num, false));
    }
  }

  lemma LastKey(u: seq<Entry>, e: Entry)
    ensures KeysOf(u + [e]) == KeysOf(u) + {e.Key()}
  {
    forall e' ensures e' in u + [e] <==> e' in u || e' == e {
    }
  }

  /**
   An ADD run with n threads followed by a DEL run with m threads, each in any order in
   which the server may see the threads' updates, leaves the server without the run's
   keys: as it was exactly when none of them was there before.  This holds for every
   total, also where counters wrap and keys repeat: the server refuses the repetitions.
   */
  lemma {:induction false} AddThenDeleteRestores(
    s: Store, total: nat, n: nat, m: nat, added: seq<Entry>, deleted: seq<Entry>)
    requires 0 < n && 0 < m
    requires multiset(added) == multiset(ThreadUpdates(total, n, true))
    requires multiset(deleted) == multiset(ThreadUpdates(total, m, false))
    ensures var keys, s1 := KeysOf(Updates(0, total, true)), WriteAll(s, added, true);
            && s1.Keys == s.Keys + keys
            && WriteAll(s1, deleted, false) == s - keys
            && (WriteAll(s1, deleted, false) == s <==> keys !! s.Keys)
  {
    ThreadCountIrrelevant(total, n, true);
    ThreadCountIrrelevant(total, m, false);
    UpdatesProper(0, total, true);
    UpdatesProper(0, total, false);
    SameKeysAddedDeleted(0, total);
    ReorderedRestores(s, Updates(0, total, true), Updates(0, total, false), added, deleted);
  }

  lemma {:induction false} ReorderedRestores(
    s: Store, a: seq<Entry>, d: seq<Entry>, added: seq<Entry>, deleted: seq<Entry>)
    requires KeysOf(a) == KeysOf(d)
    requires (forall e :: e in a ==> IsUpdate(e, true)) && (forall e :: e in d ==> IsUpdate(e, false))
    requires multiset(added) == multiset(a) && multiset(deleted) == multiset(d)
    ensures var s1 := WriteAll(s, added, true);
            && s1.Keys == s.Keys + KeysOf(a)
            && WriteAll(s1, deleted, false) == s - KeysOf(a)
            && (WriteAll(s1, deleted, false) == s <==> KeysOf(a) !! s.Keys)
  {
    ReorderedKeys(a, added);
    ReorderedKeys(d, deleted);
    Reordered(a, added, true);
    Reordered(d, deleted, false);
    InsertAll(s, added);
    var s1 := WriteAll(s, added, true);
    DeleteAll(s1, deleted);
    assert s1 - KeysOf(a) == s - KeysOf(a);
    RemovedNothing(s, KeysOf(a));
  }

  lemma RemovedNothing(s: Store, keys: set<TableKey>)
    ensures s - keys == s <==> keys !! s.Keys
  {
    if s - keys == s {
      assert (s - keys).Keys !! keys;
    }
  }

  lemma Reordered(u: seq<Entry>, p: seq<Entry>, insert: bool)
    requires multiset(p) == multiset(u) && forall e :: e in u ==> IsUpdate(e, insert)
    ensures forall e :: e in p ==> IsUpdate(e, insert)
  {
    forall e | e in p ensures IsUpdate(e, insert) {
      assert e in multiset(p);
      assert e in multiset(u);
    }
  }
}
