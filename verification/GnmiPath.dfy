/**
 The two gNMI path parsers: the anchored consume loop of sgnmi_cli and the searching
 iterator loop of gnmi_ctl, over one pattern
     /([^/\[]+)(\[([^=]+=[^\]]+)\])?
 The matcher below works on positions; MatchIsGreedy relates it to the pattern.
 */
module GnmiPath {
  import opened Wrappers
  import opened Text

  // ---------- the pattern ----------

  /** The end of a maximal run of characters outside a set. */
  function RunEnd(s: string, i: nat, stops: set<char>): (n: nat)
    requires i <= |s|
    ensures i <= n <= |s|
    decreases |s| - i
  {
    if i == |s| || s[i] in stops then i else RunEnd(s, i + 1, stops)
  }

  lemma {:induction false} RunEndFirst(s: string, i: nat, stops: set<char>)
    requires i <= |s|
    ensures var n := RunEnd(s, i, stops); (n < |s| ==> s[n] in stops) && forall j :: i <= j < n ==> s[j] !in stops
    decreases |s| - i
  {
    if i < |s| && s[i] !in stops {
      RunEndFirst(s, i + 1, stops);
    }
  }

  lemma {:induction false} RunEndIs(s: string, i: nat, stops: set<char>, n: nat)
    requires i <= n <= |s| && (n < |s| ==> s[n] in stops) && forall j :: i <= j < n ==> s[j] !in stops
    ensures RunEnd(s, i, stops) == n
    decreases n - i
  {
    if i < n {
      RunEndIs(s, i + 1, stops, n);
    }
  }

  const NAME_STOPS := {'/', '['}
  const KEY_STOP := {'='}
  const VALUE_STOP := {']'}

  /** Where the optional "[key=value]" at r ends; r itself if it is not there. */
  function KvEnd(s: string, r: nat): (n: nat)
    requires r <= |s|
    ensures r <= n <= |s|
  {
    if r == |s| || s[r] != '[' then r
    else
      var k := RunEnd(s, r + 1, KEY_STOP);
      if k == r + 1 || k == |s| then r
      else
        var v := RunEnd(s, k + 1, VALUE_STOP);
        if v == k + 1 || v == |s| then r else v + 1
  }

  /** A match: where the name ends and where the whole ends. */
  datatype Match = Match(nameEnd: nat, end: nat)

  function MatchAt(s: string, p: nat): Option<Match>
    requires p <= |s|
  {
    if p == |s| || s[p] != '/' then None
    else
      var n := RunEnd(s, p + 1, NAME_STOPS);
      if n == p + 1 then None else Some(Match(n, KvEnd(s, n)))
  }

  ghost predicate KvAt(s: string, r: nat, k: nat, end: nat) {
    && r + 1 < k && k + 2 < end <= |s| && s[r] == '[' && s[k] == '=' && s[end - 1] == ']'
    && (forall i :: r < i < k ==> s[i] != '=')
    && (forall i :: k < i < end - 1 ==> s[i] != ']')
  }

  /** The pattern itself: some way to read s[p..end] as "/name" or "/name[key=value]". */
  ghost predicate PatternAt(s: string, p: nat, nameEnd: nat, end: nat) {
    && p + 1 < nameEnd <= end <= |s| && s[p] == '/'
    && (forall i :: p < i < nameEnd ==> s[i] != '/' && s[i] != '[')
    && (end == nameEnd || exists k :: KvAt(s, nameEnd, k, end))
  }

  /** The matcher finds a reading of the pattern, and no reading has a longer name or a longer match. */
  lemma MatchIsGreedy(s: string, p: nat)
    requires p <= |s|
    ensures MatchAt(s, p).Some? ==> PatternAt(s, p, MatchAt(s, p).value.nameEnd, MatchAt(s, p).value.end)
    ensures forall n: nat, end: nat :: PatternAt(s, p, n, end) ==>
              MatchAt(s, p).Some? && n <= MatchAt(s, p).value.nameEnd && end <= MatchAt(s, p).value.end
  {
    if p < |s| && s[p] == '/' {
      var n := RunEnd(s, p + 1, NAME_STOPS);
      RunEndFirst(s, p + 1, NAME_STOPS);
      KvEndIsKv(s, n);
      forall n': nat, end: nat | PatternAt(s, p, n', end) ensures p + 1 < n' <= n && end <= KvEnd(s, n) {
        if end > n' {
          var k :| KvAt(s, n', k, end);
          assert n' == n;
          KvUnique(s, n, k, end);
        }
      }
    }
  }

  lemma KvEndIsKv(s: string, r: nat)
    requires r <= |s|
    ensures KvEnd(s, r) != r ==> exists k :: KvAt(s, r, k, KvEnd(s, r))
  {
    if KvEnd(s, r) != r {
      var k := RunEnd(s, r + 1, KEY_STOP);
      RunEndFirst(s, r + 1, KEY_STOP);
      RunEndFirst(s, k + 1, VALUE_STOP);
      assert KvAt(s, r, k, KvEnd(s, r));
    }
  }

  lemma {:induction false} KvUnique(s: string, r: nat, k: nat, end: nat)
    requires r <= |s| && KvAt(s, r, k, end)
    ensures RunEnd(s, r + 1, KEY_STOP) == k && RunEnd(s, k + 1, VALUE_STOP) == end - 1 && KvEnd(s, r) == end
  {
    RunEndIs(s, r + 1, KEY_STOP, k);
    RunEndIs(s, k + 1, VALUE_STOP, end - 1);
  }

  /** The full match of the inner pattern \[([^=]+)=([^\]]+)\] against a captured group. */
  function FullMatchKv(kv: string): Option<(string, string)> {
    if kv == "" || kv[0] != '[' then None
    else
      var k := RunEnd(kv, 1, KEY_STOP);
      if k == 1 || k == |kv| then None
      else
        var v := RunEnd(kv, k + 1, VALUE_STOP);
        if v == k + 1 || v != |kv| - 1 then None else Some((kv[1..k], kv[k + 1..v]))
  }

  // ---------- path elements ----------

  datatype PathElem = PathElem(name: string, keys: map<string, string>)

  /** What AddPathElem makes of the two captured groups; a failed inner match stores empty strings. */
  function ElemOf(name: string, kv: string): PathElem {
    PathElem(name, if kv == "" then map[]
                   else match FullMatchKv(kv)
                        case Some((key, value)) => map[key := value]
                        case None => map["" := ""])
  }

  function ElemAt(s: string, p: nat, m: Match): PathElem
    requires p < m.nameEnd <= m.end <= |s|
  {
    ElemOf(s[p + 1..m.nameEnd], s[m.nameEnd..m.end])
  }

  lemma MatchBounds(s: string, p: nat)
    requires p <= |s|
    ensures MatchAt(s, p).Some? ==> p + 1 < MatchAt(s, p).value.nameEnd <= MatchAt(s, p).value.end <= |s|
    ensures MatchAt(s, p).Some? <==> p + 1 < |s| && s[p] == '/' && s[p + 1] != '/' && s[p + 1] != '['
  {
  }

  // ---------- the two loops, as functions ----------

  /** The elements that anchored matching consumes from p on, and where it stops. */
  function Consumed(s: string, p: nat): (r: (seq<PathElem>, nat))
    requires p <= |s|
    ensures p <= r.1 <= |s| && MatchAt(s, r.1).None?
    decreases |s| - p
  {
    MatchBounds(s, p);
    match MatchAt(s, p)
    case None => ([], p)
    case Some(m) =>
      var (elems, end) := Consumed(s, m.end);
      ([ElemAt(s, p, m)] + elems, end)
  }

  /** The elements of all successive matches, wherever they are. */
  function Searched(s: string, p: nat): seq<PathElem>
    requires p <= |s|
    decreases |s| - p
  {
    MatchBounds(s, p);
    if p == |s| then []
    else match MatchAt(s, p)
         case None => Searched(s, p + 1)
         case Some(m) => [ElemAt(s, p, m)] + Searched(s, m.end)
  }

  lemma {:induction false} ConsumedCons(s: string, p: nat, m: Match)
    requires p <= |s| && MatchAt(s, p) == Some(m)
    ensures p < m.nameEnd <= m.end <= |s|
    ensures Consumed(s, p) == ([ElemAt(s, p, m)] + Consumed(s, m.end).0, Consumed(s, m.end).1)
  {
    MatchBounds(s, p);
  }

  /** On every input the anchored list is a prefix of the searched one, which goes on behind it. */
  lemma {:induction false} SearchedExtendsConsumed(s: string, p: nat)
    requires p <= |s|
    ensures Searched(s, p) == Consumed(s, p).0 + Searched(s, Consumed(s, p).1)
    ensures Consumed(s, p).0 <= Searched(s, p)
    decreases |s| - p
  {
    MatchBounds(s, p);
    if MatchAt(s, p).Some? {
      SearchedExtendsConsumed(s, MatchAt(s, p).value.end);
    }
  }

  lemma {:induction false} SearchedEmpty(s: string, p: nat)
    requires p <= |s|
    ensures Searched(s, p) == [] <==> forall q :: p <= q && q + 1 < |s| && s[q] == '/' ==> s[q + 1] in {'/', '['}
    decreases |s| - p
  {
    MatchBounds(s, p);
    if p < |s| && MatchAt(s, p).None? {
      SearchedEmpty(s, p + 1);
    }
  }

  /**
   The two parsers agree on an input exactly when the text that the anchored one leaves
   over has no '/' followed by a name character; in particular when it leaves nothing.
   */
  lemma {:induction false} ParsersAgree(s: string)
    ensures var (elems, end) := Consumed(s, 0);
            elems == Searched(s, 0) <==> forall q :: end <= q && q + 1 < |s| && s[q] == '/' ==> s[q + 1] in {'/', '['}
    ensures Consumed(s, 0).1 == |s| ==> Consumed(s, 0).0 == Searched(s, 0)
  {
    var (elems, end) := Consumed(s, 0);
    SearchedExtendsConsumed(s, 0);
    SearchedEmpty(s, end);
    assert |Searched(s, 0)| == |elems| + |Searched(s, end)|;
  }

  // ---------- the programs ----------

  /** A gNMI path message under construction. */
  class Path {
    var elems: seq<PathElem>

    constructor ()
      ensures elems == []
    {
      elems := [];
    }

    method AddElem()
      modifies this
      ensures elems == old(elems) + [PathElem("", map[])]
    {
      elems := elems + [PathElem("", map[])];
    }

    /** Fills in the element that was added last. */
    method AddPathElem(name: string, kv: string)
      requires elems != [] && elems[|elems| - 1] == PathElem("", map[])
      modifies this
      ensures |elems| == |old(elems)| && elems[..|elems| - 1] == old(elems[..|elems| - 1])
      ensures elems[|elems| - 1] == ElemOf(name, kv)
    {
      var last := |elems| - 1;
      elems := elems[last := elems[last].(name := name)];
      if kv != "" {
        var key, value := "", "";
        var m := FullMatchKv(kv);
        if m.Some? {
          key, value := m.value.0, m.value.1;
        }
        elems := elems[last := elems[last].(keys := elems[last].keys[key := value])];
      }
    }
  }

  lemma MoveOver<T>(before: seq<T>, after: seq<T>, x: T, tail: seq<T>)
    requires |after| == |before| + 1 && after[..|before|] == before && after[|before|] == x
    ensures before + ([x] + tail) == after + tail
  {
    assert after == before + [x];
  }

  /** sgnmi_cli: consume matches from the front of the input for as long as there are any. */
  method BuildGnmiPath(pathStr: string, path: Path)
    modifies path
    ensures path.elems == old(path.elems) + Consumed(pathStr, 0).0
  {
    var input := 0;
    var m := MatchAt(pathStr, input);
    while m.Some?
      invariant input <= |pathStr| && m == MatchAt(pathStr, input)
      invariant old(path.elems) + Consumed(pathStr, 0).0 == path.elems + Consumed(pathStr, input).0
      decreases |pathStr| - input
    {
      ConsumedCons(pathStr, input, m.value);
      ghost var before, tail := path.elems, Consumed(pathStr, m.value.end).0;
      path.AddElem();
      path.AddPathElem(pathStr[input + 1..m.value.nameEnd], pathStr[m.value.nameEnd..m.value.end]);
      MoveOver(before, path.elems, ElemAt(pathStr, input, m.value), tail);
      input := m.value.end;
      m := MatchAt(pathStr, input);
    }
  }

  /** What the regex iterator finds next, at or after p: the leftmost match. */
  function NextMatch(s: string, p: nat): (r: Option<(nat, Match)>)
    requires p <= |s|
    ensures r.Some? ==> p <= r.value.0 <= |s| && MatchAt(s, r.value.0) == Some(r.value.1)
    decreases |s| - p
  {
    match MatchAt(s, p)
    case Some(m) => Some((p, m))
    case None => if p == |s| then None else NextMatch(s, p + 1)
  }

  lemma {:induction false} SearchedNext(s: string, p: nat)
    requires p <= |s|
    ensures NextMatch(s, p).None? ==> Searched(s, p) == []
    ensures NextMatch(s, p).Some? ==>
              var (q, m) := NextMatch(s, p).value;
              p <= q < m.nameEnd <= m.end <= |s| && Searched(s, p) == [ElemAt(s, q, m)] + Searched(s, m.end)
    decreases |s| - p
  {
    MatchBounds(s, p);
    if MatchAt(s, p).None? && p < |s| {
      SearchedNext(s, p + 1);
    }
  }

  /** One round of the search moves one element over from what is still to be found to what has been. */
  lemma {:induction false} SearchedMoves(
    s: string, p: nat, q: nat, m: Match, before: seq<PathElem>, after: seq<PathElem>)
    requires p <= |s| && NextMatch(s, p) == Some((q, m)) && q < m.nameEnd <= m.end <= |s|
    requires |after| == |before| + 1 && after[..|before|] == before && after[|before|] == ElemAt(s, q, m)
    ensures before + Searched(s, p) == after + Searched(s, m.end)
  {
    SearchedNext(s, p);
    MoveOver(before, after, ElemAt(s, q, m), Searched(s, m.end));
  }

  /** gnmi_ctl: iterate over all matches in the input. */
  method BuildGnmiPathBySearch(pathStr: string, path: Path)
    modifies path
    ensures path.elems == old(path.elems) + Searched(pathStr, 0)
  {
    var from := 0;
    var iter := NextMatch(pathStr, from);
    while iter.Some?
      invariant from <= |pathStr| && iter == NextMatch(pathStr, from)
      invariant old(path.elems) + Searched(pathStr, 0) == path.elems + Searched(pathStr, from)
      decreases |pathStr| - from
    {
      var q, m := iter.value.0, iter.value.1;
      MatchBounds(pathStr, q);
      ghost var before := path.elems;
      path.AddElem();
      path.AddPathElem(pathStr[q + 1..m.nameEnd], pathStr[m.nameEnd..m.end]);
      SearchedMoves(pathStr, from, q, m, before, path.elems);
      from := m.end;
      iter := NextMatch(pathStr, from);
    }
    SearchedNext(pathStr, from);
  }

  // ---------- printing ----------

  /** An element as it is written: a name and at most one key. */
  datatype Step = Step(name: string, key: Option<(string, string)>)

  ghost predicate GoodStep(e: Step) {
    && e.name != "" && (forall i :: 0 <= i < |e.name| ==> e.name[i] != '/' && e.name[i] != '[')
    && (e.key.Some? ==>
          && e.key.value.0 != "" && (forall i :: 0 <= i < |e.key.value.0| ==> e.key.value.0[i] != '=')
          && e.key.value.1 != "" && (forall i :: 0 <= i < |e.key.value.1| ==> e.key.value.1[i] != ']'))
  }

  ghost predicate GoodSteps(steps: seq<Step>) { forall i :: 0 <= i < |steps| ==> GoodStep(steps[i]) }

  function PrintKey(key: Option<(string, string)>): string {
    if key.None? then "" else "[" + key.value.0 + "=" + key.value.1 + "]"
  }

  function PrintStep(e: Step): string { "/" + e.name + PrintKey(e.key) }

  function Print(steps: seq<Step>): string {
    if steps == [] then "" else PrintStep(steps[0]) + Print(steps[1..])
  }

  function ToElem(e: Step): PathElem {
    PathElem(e.name, if e.key.None? then map[] else map[e.key.value.0 := e.key.value.1])
  }

  function ToElems(steps: seq<Step>): (r: seq<PathElem>)
    ensures |r| == |steps|
  {
    if steps == [] then [] else [ToElem(steps[0])] + ToElems(steps[1..])
  }

  /** A well-formed "[key=value]" standing at r is found there, and the inner match takes it apart. */
  lemma KeyFound(s: string, r: nat, key: string, value: string)
    requires At(s, r, "[" + key + "=" + value + "]")
    requires key != "" && (forall i :: 0 <= i < |key| ==> key[i] != '=')
    requires value != "" && (forall i :: 0 <= i < |value| ==> value[i] != ']')
    ensures KvEnd(s, r) == r + |key| + |value| + 3
  {
    var k, end := r + 1 + |key|, r + |key| + |value| + 3;
    AtSplit(s, r, "[" + key + "=" + value, "]");
    AtSplit(s, r, "[" + key + "=", value);
    AtSplit(s, r, "[" + key, "=");
    AtSplit(s, r, "[", key);
    AtChar(s, r, "[", 0);
    AtChar(s, k, "=", 0);
    AtChar(s, end - 1, "]", 0);
    forall i | r < i < k ensures s[i] != '=' {
      AtChar(s, r + 1, key, i - r - 1);
    }
    forall i | k < i < end - 1 ensures s[i] != ']' {
      AtChar(s, k + 1, value, i - k - 1);
    }
    KvUnique(s, r, k, end);
  }

  lemma InnerMatch(key: string, value: string)
    requires key != "" && (forall i :: 0 <= i < |key| ==> key[i] != '=')
    requires value != "" && (forall i :: 0 <= i < |value| ==> value[i] != ']')
    ensures FullMatchKv("[" + key + "=" + value + "]") == Some((key, value))
  {
    var kv := "[" + key + "=" + value + "]";
    var k := 1 + |key|;
    RunEndIs(kv, 1, KEY_STOP, k);
    RunEndIs(kv, k + 1, VALUE_STOP, |kv| - 1);
    assert kv[1..k] == key && kv[k + 1..|kv| - 1] == value;
  }

  /** A printed step is matched whole, if what follows it does not continue it. */
  lemma StepMatched(s: string, p: nat, e: Step)
    requires At(s, p, PrintStep(e)) && GoodStep(e)
    requires var end := p + |PrintStep(e)|; end == |s| || s[end] == '/'
    ensures MatchAt(s, p) == Some(Match(p + 1 + |e.name|, p + |PrintStep(e)|))
    ensures ElemAt(s, p, MatchAt(s, p).value) == ToElem(e)
  {
    StepFound(s, p, e);
    StepRead(s, p, e);
  }

  lemma StepFound(s: string, p: nat, e: Step)
    requires At(s, p, PrintStep(e)) && GoodStep(e)
    requires var end := p + |PrintStep(e)|; end == |s| || s[end] == '/'
    ensures MatchAt(s, p) == Some(Match(p + 1 + |e.name|, p + |PrintStep(e)|))
  {
    var n, end := p + 1 + |e.name|, p + |PrintStep(e)|;
    StepParts(s, p, e);
    assert RunEnd(s, p + 1, NAME_STOPS) == n by { NameFound(s, p + 1, e.name); }
    assert KvEnd(s, n) == end by { KeyMatched(s, n, e); }
    MatchIs(s, p, n, end);
  }

  lemma StepRead(s: string, p: nat, e: Step)
    requires At(s, p, PrintStep(e)) && GoodStep(e)
    requires var end := p + |PrintStep(e)|; end == |s| || s[end] == '/'
    ensures p + 1 + |e.name| <= p + |PrintStep(e)| <= |s|
    ensures ElemAt(s, p, Match(p + 1 + |e.name|, p + |PrintStep(e)|)) == ToElem(e)
  {
    var n, end := p + 1 + |e.name|, p + |PrintStep(e)|;
    assert At(s, p + 1, e.name) && At(s, n, PrintKey(e.key)) && end == n + |PrintKey(e.key)| by { StepParts(s, p, e); }
    assert ElemOf(e.name, PrintKey(e.key)) == ToElem(e) by { KeyMatched(s, n, e); }
    StepSlices(s, p, n, end, e, PrintKey(e.key));
  }

  lemma {:induction false} MatchIs(s: string, p: nat, n: nat, end: nat)
    requires p < |s| && s[p] == '/' && p + 1 < n <= |s| && RunEnd(s, p + 1, NAME_STOPS) == n && KvEnd(s, n) == end
    ensures MatchAt(s, p) == Some(Match(n, end))
  {
  }

  lemma StepParts(s: string, p: nat, e: Step)
    requires At(s, p, PrintStep(e)) && GoodStep(e)
    requires var end := p + |PrintStep(e)|; end == |s| || s[end] == '/'
    ensures var n := p + 1 + |e.name|;
            && s[p] == '/' && At(s, p + 1, e.name) && At(s, n, PrintKey(e.key))
            && p + |PrintStep(e)| == n + |PrintKey(e.key)| && (n < |s| ==> s[n] in NAME_STOPS)
  {
    AtSplit(s, p, "/" + e.name, PrintKey(e.key));
    AtSplit(s, p, "/", e.name);
    AtChar(s, p, "/", 0);
    if e.key.Some? {
      AtChar(s, p + 1 + |e.name|, PrintKey(e.key), 0);
    }
  }

  lemma StepSlices(s: string, p: nat, n: nat, end: nat, e: Step, kv: string)
    requires n == p + 1 + |e.name| && end == n + |kv| && At(s, p + 1, e.name) && At(s, n, kv)
    requires ElemOf(e.name, kv) == ToElem(e)
    ensures ElemAt(s, p, Match(n, end)) == ToElem(e)
  {
    AtSlice(s, p + 1, e.name);
    AtSlice(s, n, kv);
  }

  lemma KeyMatched(s: string, n: nat, e: Step)
    requires At(s, n, PrintKey(e.key)) && GoodStep(e)
    requires var end := n + |PrintKey(e.key)|; end == |s| || s[end] == '/'
    ensures KvEnd(s, n) == n + |PrintKey(e.key)| && ElemOf(e.name, PrintKey(e.key)) == ToElem(e)
  {
    if e.key.Some? {
      KeyFound(s, n, e.key.value.0, e.key.value.1);
      InnerMatch(e.key.value.0, e.key.value.1);
    }
  }

  lemma {:induction false} NameFound(s: string, p: nat, name: string)
    requires At(s, p, name) && forall i :: 0 <= i < |name| ==> name[i] != '/' && name[i] != '['
    requires var n := p + |name|; n == |s| || s[n] in NAME_STOPS
    ensures RunEnd(s, p, NAME_STOPS) == p + |name|
  {
    forall i | p <= i < p + |name| ensures s[i] !in NAME_STOPS {
      AtChar(s, p, name, i - p);
    }
    RunEndIs(s, p, NAME_STOPS, p + |name|);
  }

  lemma {:induction false} ConsumedPrinted(s: string, p: nat, steps: seq<Step>)
    requires At(s, p, Print(steps)) && p + |Print(steps)| == |s| && GoodSteps(steps)
    ensures Consumed(s, p) == (ToElems(steps), |s|)
    decreases |steps|
  {
    if steps != [] {
      var next := AfterStep(s, p, steps);
      ConsumedPrinted(s, next, steps[1..]);
    }
  }

  lemma AfterStep(s: string, p: nat, steps: seq<Step>) returns (next: nat)
    requires At(s, p, Print(steps)) && p + |Print(steps)| == |s| && GoodSteps(steps) && steps != []
    ensures p <= next <= |s| && Consumed(s, p) == ([ToElem(steps[0])] + Consumed(s, next).0, Consumed(s, next).1)
    ensures At(s, next, Print(steps[1..])) && next + |Print(steps[1..])| == |s|
  {
    var e, rest := steps[0], steps[1..];
    next := p + |PrintStep(e)|;
    AtSplit(s, p, PrintStep(e), Print(rest));
    if rest != [] {
      PrintStarts(rest);
      AtChar(s, next, Print(rest), 0);
    }
    StepMatched(s, p, e);
    ConsumedCons(s, p, MatchAt(s, p).value);
  }

  lemma {:induction false} PrintStarts(steps: seq<Step>)
    requires steps != []
    ensures Print(steps) != "" && Print(steps)[0] == '/'
  {
  }

  /** Parsing inverts printing, for both parsers. */
  lemma {:induction false} ParseInvertsPrint(steps: seq<Step>)
    requires GoodSteps(steps)
    ensures Consumed(Print(steps), 0) == (ToElems(steps), |Print(steps)|)
    ensures Searched(Print(steps), 0) == ToElems(steps)
  {
    ConsumedPrinted(Print(steps), 0, steps);
    ParsersAgree(Print(steps));
  }

  // ---------- and back ----------

  /** The step that a match reads. */
  function StepAt(s: string, p: nat, m: Match): Step
    requires p < m.nameEnd <= m.end <= |s|
  {
    var kv := s[m.nameEnd..m.end];
    Step(s[p + 1..m.nameEnd], FullMatchKv(kv))
  }

  /** What the loop passes on always survives the inner full match, and prints back to what was matched. */
  lemma MatchPrintsBack(s: string, p: nat)
    requires p <= |s| && MatchAt(s, p).Some?
    ensures var m := MatchAt(s, p).value;
            && p + 1 < m.nameEnd <= m.end <= |s|
            && (m.end > m.nameEnd ==> FullMatchKv(s[m.nameEnd..m.end]).Some?)
            && GoodStep(StepAt(s, p, m)) && ToElem(StepAt(s, p, m)) == ElemAt(s, p, m)
            && PrintStep(StepAt(s, p, m)) == s[p..m.end]
  {
    var m := MatchAt(s, p).value;
    var name := s[p + 1..m.nameEnd];
    MatchBounds(s, p);
    RunEndFirst(s, p + 1, NAME_STOPS);
    assert s[p..m.end] == "/" + name + s[m.nameEnd..m.end];
    if m.end > m.nameEnd {
      GroupPrintsBack(s, m.nameEnd);
    }
  }

  lemma GroupPrintsBack(s: string, r: nat)
    requires r <= |s| && KvEnd(s, r) > r
    ensures var key := FullMatchKv(s[r..KvEnd(s, r)]);
            && key.Some? && s[r..KvEnd(s, r)] == PrintKey(key)
            && GoodStep(Step("x", key))
  {
    var end := KvEnd(s, r);
    KvEndIsKv(s, r);
    var k: nat :| KvAt(s, r, k, end);
    var key, value := s[r + 1..k], s[k + 1..end - 1];
    KvText(s, r, k, end);
    forall i | 0 <= i < |key| ensures key[i] != '=' {
      assert key[i] == s[r + 1 + i];
    }
    forall i | 0 <= i < |value| ensures value[i] != ']' {
      assert value[i] == s[k + 1 + i];
    }
    InnerMatch(key, value);
  }

  lemma KvText(s: string, r: nat, k: nat, end: nat)
    requires KvAt(s, r, k, end)
    ensures s[r..end] == "[" + s[r + 1..k] + "=" + s[k + 1..end - 1] + "]"
  {
    SliceSplit(s, r, r + 1, end);
    SliceSplit(s, r + 1, k, end);
    SliceSplit(s, k, k + 1, end);
    SliceSplit(s, k + 1, end - 1, end);
    assert s[r..r + 1] == "[" && s[k..k + 1] == "=" && s[end - 1..end] == "]";
    assert s[r..end] == "[" + (s[r + 1..k] + ("=" + (s[k + 1..end - 1] + "]")));
  }

  /** Every input is a printed path followed by the part that the anchored parser leaves over. */
  lemma {:induction false} ConsumedIsPrinted(s: string, p: nat) returns (steps: seq<Step>)
    requires p <= |s|
    ensures GoodSteps(steps)
    ensures Consumed(s, p).0 == ToElems(steps) && Print(steps) == s[p..Consumed(s, p).1]
    decreases |s| - p
  {
    if MatchAt(s, p).None? {
      steps := [];
    } else {
      var e, next := FirstStep(s, p);
      var rest := ConsumedIsPrinted(s, next);
      steps := [e] + rest;
      PrintCons(e, rest);
      SliceSplit(s, p, next, Consumed(s, next).1);
    }
  }

  lemma FirstStep(s: string, p: nat) returns (e: Step, next: nat)
    requires p <= |s| && MatchAt(s, p).Some?
    ensures p < next <= |s| && GoodStep(e) && PrintStep(e) == s[p..next]
    ensures Consumed(s, p) == ([ToElem(e)] + Consumed(s, next).0, Consumed(s, next).1)
  {
    var m := MatchAt(s, p).value;
    MatchPrintsBack(s, p);
    ConsumedCons(s, p, m);
    e, next := StepAt(s, p, m), m.end;
  }

  lemma SliceSplit(s: string, a: nat, b: nat, c: nat)
    requires a <= b <= c <= |s|
    ensures s[a..c] == s[a..b] + s[b..c]
  {
  }

  lemma {:induction false} PrintCons(e: Step, rest: seq<Step>)
    requires GoodStep(e) && GoodSteps(rest)
    ensures GoodSteps([e] + rest) && Print([e] + rest) == PrintStep(e) + Print(rest)
    ensures ToElems([e] + rest) == [ToElem(e)] + ToElems(rest)
  {
    assert ([e] + rest)[1..] == rest;
  }

  /** So the paths that the anchored parser reads whole are exactly the printed ones. */
  lemma {:induction false} WholePathsArePrinted(s: string)
    ensures Consumed(s, 0).1 == |s| <==>
            exists steps: seq<Step> :: GoodSteps(steps) && Print(steps) == s
  {
    var steps := ConsumedIsPrinted(s, 0);
    if Consumed(s, 0).1 == |s| {
      assert Print(steps) == s;
    }
    if exists steps: seq<Step> :: GoodSteps(steps) && Print(steps) == s {
      var printed: seq<Step> :| GoodSteps(printed) && Print(printed) == s;
      ConsumedPrinted(s, 0, printed);
    }
  }
}
