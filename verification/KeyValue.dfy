/**
 The key/value tokenizer of gnmi-ctl.  It cuts strings out of one shared character
 buffer by writing terminators into it, call after call.  The functions say what one
 call does to a buffer and what all calls together yield; the class does it in place.
 Positions are indices into the whole buffer, and every scan stops at a terminator.
 */
module KeyValue {
  import opened Wrappers

  const NUL := '\0'
  // Character sets: the strings that strspn, strcspn and strchr are given.
  const SEPARATORS := {',', ' ', '\t', '\r', '\n'}
  const KEY_STOPS := {':', '=', '(', ',', ' ', '\t', '\r', '\n'}
  const CLOSING := {')'}

  // ---------- C strings ----------

  /** The index of the first terminator at or after p, or the length if there is none. */
  function StrEnd(s: seq<char>, p: nat): (r: nat)
    requires p <= |s|
    ensures p <= r <= |s|
    decreases |s| - p
  {
    if p == |s| || s[p] == NUL then p else StrEnd(s, p + 1)
  }

  /** Position p starts a terminated string. */
  predicate Terminated(s: seq<char>, p: nat) { p <= |s| && StrEnd(s, p) < |s| }

  /** The string that a pointer to s[p] denotes. */
  function CStr(s: seq<char>, p: nat): string
    requires p <= |s|
  {
    s[p..StrEnd(s, p)]
  }

  lemma {:induction false} StrEndFirst(s: seq<char>, p: nat)
    requires p <= |s|
    ensures var r := StrEnd(s, p); (r < |s| ==> s[r] == NUL) && forall i :: p <= i < r ==> s[i] != NUL
    decreases |s| - p
  {
    if p < |s| && s[p] != NUL {
      StrEndFirst(s, p + 1);
    }
  }

  lemma {:induction false} StrEndUnique(s: seq<char>, p: nat, r: nat)
    requires p <= r < |s| && s[r] == NUL && forall i :: p <= i < r ==> s[i] != NUL
    ensures StrEnd(s, p) == r
    decreases r - p
  {
    if p < r {
      StrEndUnique(s, p + 1, r);
    }
  }

  lemma {:induction false} StrEndInside(s: seq<char>, p: nat, q: nat)
    requires Terminated(s, p) && p <= q <= StrEnd(s, p)
    ensures StrEnd(s, q) == StrEnd(s, p)
  {
    StrEndFirst(s, p);
    StrEndUnique(s, q, StrEnd(s, p));
  }

  /** The buffers agree from p on. */
  ghost predicate SameFrom(s: seq<char>, s': seq<char>, p: nat) {
    |s| == |s'| && forall i :: p <= i < |s| ==> s'[i] == s[i]
  }

  ghost predicate SameBefore(s: seq<char>, s': seq<char>, p: nat) {
    |s| == |s'| && forall i :: 0 <= i < |s| && i < p ==> s'[i] == s[i]
  }

  lemma {:induction false} StrEndFrame(s: seq<char>, s': seq<char>, p: nat)
    requires Terminated(s, p) && SameFrom(s, s', p)
    ensures StrEnd(s', p) == StrEnd(s, p)
  {
    StrEndFirst(s, p);
    StrEndUnique(s', p, StrEnd(s, p));
  }

  /** A string that ends before all writes is unchanged by them. */
  lemma {:induction false} CStrIntact(s: seq<char>, s': seq<char>, p: nat, bound: nat)
    requires p <= |s| && StrEnd(s, p) < bound <= |s| && SameBefore(s, s', bound)
    ensures StrEnd(s', p) == StrEnd(s, p) && CStr(s', p) == CStr(s, p)
  {
    StrEndFirst(s, p);
    StrEndUnique(s', p, StrEnd(s, p));
    assert s'[p..StrEnd(s, p)] == s[p..StrEnd(s, p)];
  }

  /** A string cut short by a terminator written into it, or by the one it had. */
  lemma {:induction false} CStrCut(s: seq<char>, s': seq<char>, a: nat, b: nat)
    requires Terminated(s, a) && a <= b <= StrEnd(s, a) && |s'| == |s|
    requires s'[b] == NUL && forall i :: a <= i < b ==> s'[i] == s[i]
    ensures StrEnd(s', a) == b && CStr(s', a) == s[a..b]
  {
    StrEndFirst(s, a);
    StrEndUnique(s', a, b);
    assert s'[a..b] == s[a..b];
  }

  // ---------- the scans ----------

  /** strspn: where the accepted characters end. */
  function SpanEnd(s: seq<char>, i: nat, accept: set<char>): (n: nat)
    requires i <= |s|
    ensures i <= n <= |s|
    decreases |s| - i
  {
    if i == |s| || s[i] == NUL || s[i] !in accept then i else SpanEnd(s, i + 1, accept)
  }

  /** strcspn: where the first rejected character, or the terminator, is. */
  function CSpanEnd(s: seq<char>, i: nat, reject: set<char>): (n: nat)
    requires i <= |s|
    ensures i <= n <= |s|
    decreases |s| - i
  {
    if i == |s| || s[i] == NUL || s[i] in reject then i else CSpanEnd(s, i + 1, reject)
  }

  /** A closing parenthesis at depth zero is an ordinary character. */
  function NextDepth(depth: nat, c: char): nat {
    if c == '(' then depth + 1 else if c == ')' && depth > 0 then depth - 1 else depth
  }

  /** The parenthesis depth at position k of a scan that is at position i with a given depth. */
  function DepthAt(s: seq<char>, i: nat, depth: nat, k: nat): nat
    requires i <= k <= |s|
    decreases k - i
  {
    if i == k then depth else DepthAt(s, i + 1, NextDepth(depth, s[i]), k)
  }

  /** The terminator, or a delimiter outside all parentheses. */
  predicate StopAt(s: seq<char>, i: nat, depth: nat, delims: set<char>, k: nat)
    requires i <= k < |s|
  {
    s[k] == NUL || (DepthAt(s, i, depth, k) == 0 && s[k] in delims)
  }

  /** The depth-counting scan: one character at a time, no inner loop. */
  function ScanEnd(s: seq<char>, i: nat, depth: nat, delims: set<char>): (n: nat)
    requires i <= |s|
    ensures i <= n <= |s|
    decreases |s| - i
  {
    if i == |s| || s[i] == NUL || (depth == 0 && s[i] in delims) then i
    else ScanEnd(s, i + 1, NextDepth(depth, s[i]), delims)
  }

  /** In a terminated string the scan returns the least stop, which is not beyond the terminator. */
  lemma {:induction false} ScanEndLeast(s: seq<char>, i: nat, depth: nat, delims: set<char>)
    requires Terminated(s, i)
    ensures var n := ScanEnd(s, i, depth, delims);
            && n <= StrEnd(s, i) && StopAt(s, i, depth, delims, n)
            && forall k :: i <= k < n ==> !StopAt(s, i, depth, delims, k)
    decreases |s| - i
  {
    if !(s[i] == NUL || (depth == 0 && s[i] in delims)) {
      var d := NextDepth(depth, s[i]);
      ScanEndLeast(s, i + 1, d, delims);
      forall k | i < k < |s| ensures StopAt(s, i, depth, delims, k) == StopAt(s, i + 1, d, delims, k) {
        assert DepthAt(s, i, depth, k) == DepthAt(s, i + 1, d, k);
      }
    }
  }

  lemma {:induction false} ScanEndFrame(s: seq<char>, s': seq<char>, i: nat, depth: nat, delims: set<char>)
    requires i <= |s| && SameFrom(s, s', i)
    ensures ScanEnd(s', i, depth, delims) == ScanEnd(s, i, depth, delims)
    decreases |s| - i
  {
    if i < |s| && !(s[i] == NUL || (depth == 0 && s[i] in delims)) {
      ScanEndFrame(s, s', i + 1, NextDepth(depth, s[i]), delims);
    }
  }

  lemma {:induction false} SpanStops(s: seq<char>, i: nat, accept: set<char>)
    requires Terminated(s, i)
    ensures var n := SpanEnd(s, i, accept);
            n <= StrEnd(s, i) && (s[n] == NUL || s[n] !in accept) && forall j :: i <= j < n ==> s[j] in accept
    decreases |s| - i
  {
    if s[i] != NUL && s[i] in accept {
      SpanStops(s, i + 1, accept);
    }
  }

  lemma {:induction false} CSpanStops(s: seq<char>, i: nat, reject: set<char>)
    requires Terminated(s, i)
    ensures var n := CSpanEnd(s, i, reject);
            n <= StrEnd(s, i) && (s[n] == NUL || s[n] in reject) && forall j :: i <= j < n ==> s[j] !in reject
    decreases |s| - i
  {
    if s[i] != NUL && s[i] !in reject {
      CSpanStops(s, i + 1, reject);
    }
  }

  lemma {:induction false} SpanFrame(s: seq<char>, s': seq<char>, i: nat, set1: set<char>)
    requires i <= |s| && SameFrom(s, s', i)
    ensures SpanEnd(s', i, set1) == SpanEnd(s, i, set1) && CSpanEnd(s', i, set1) == CSpanEnd(s, i, set1)
    decreases |s| - i
  {
    if i < |s| && s[i] != NUL {
      SpanFrame(s, s', i + 1, set1);
    }
  }

  /** parse_value: nested loops over the buffer, refining the depth-counting scan. */
  method ParseValue(s: array<char>, start: nat, delims: set<char>) returns (n: nat)
    requires Terminated(s[..], start)
    ensures start + n == ScanEnd(s[..], start, 0, delims) <= StrEnd(s[..], start)
    ensures StopAt(s[..], start, 0, delims, start + n)
    ensures forall k :: start <= k < start + n ==> !StopAt(s[..], start, 0, delims, k)
  {
    ghost var str, end := s[..], StrEnd(s[..], start);
    StrEndFirst(str, start);
    n := 0;
    while s[start + n] != NUL && s[start + n] !in delims
      invariant start + n <= end
      invariant ScanEnd(str, start, 0, delims) == ScanEnd(str, start + n, 0, delims)
      decreases end - n
    {
      if s[start + n] == '(' {
        var level := 0;
        while true
          invariant start + n <= end && level >= 0
          invariant level > 0 || (str[start + n] == '(' && str[start + n] !in delims)
          invariant ScanEnd(str, start, 0, delims) == ScanEnd(str, start + n, level, delims)
          decreases end - n
        {
          if s[start + n] == NUL {
            ScanEndLeast(str, start, 0, delims);
            return n;
          }
          if s[start + n] == '(' {
            level := level + 1;
          } else if s[start + n] == ')' {
            level := level - 1;
          }
          n := n + 1;
          if !(level > 0) {
            break;
          }
        }
      } else {
        n := n + 1;
      }
    }
    ScanEndLeast(str, start, 0, delims);
  }

  // ---------- one call ----------

  /** Where one call finds its key and its value, and where the next call starts. */
  datatype Cut = Cut(keyAt: nat, keyEnd: nat, valueAt: nat, valueEnd: nat, next: nat)

  predicate ArrowAt(s: seq<char>, i: nat) {
    i + 2 < |s| && s[i] == ')' && s[i + 1] == '-' && s[i + 2] == '>'
  }

  /** One past a delimiter, but not past the terminator. */
  function After(s: seq<char>, i: nat): nat
    requires i < |s|
  {
    if s[i] != NUL then i + 1 else i
  }

  /** The end of a value: at a separator, or at ")"; but "(x)->y" makes it "x)->y". */
  function ValueEnd(s: seq<char>, v: nat, keyDelim: char): (n: nat)
    requires v <= |s|
    ensures v <= n <= |s|
  {
    if keyDelim == '(' then
      var close := ScanEnd(s, v, 0, CLOSING);
      if ArrowAt(s, close) then ScanEnd(s, close, 0, SEPARATORS) else close
    else ScanEnd(s, v, 0, SEPARATORS)
  }

  lemma {:induction false} ValueEndStops(s: seq<char>, v: nat, keyDelim: char)
    requires Terminated(s, v)
    ensures var n := ValueEnd(s, v, keyDelim);
            n <= StrEnd(s, v) && (s[n] == NUL || s[n] in SEPARATORS + CLOSING)
  {
    ScanEndLeast(s, v, 0, SEPARATORS);
    ScanEndLeast(s, v, 0, CLOSING);
    var close := ScanEnd(s, v, 0, CLOSING);
    StrEndInside(s, v, close);
    ScanEndLeast(s, close, 0, SEPARATORS);
  }

  /** The cut of a key that lies between k and e. */
  function CutAt(s: seq<char>, k: nat, e: nat): Cut
    requires k <= e && Terminated(s, e)
  {
    if s[e] in {':', '=', '('} then
      ValueEndStops(s, e + 1, s[e]);
      var end := ValueEnd(s, e + 1, s[e]);
      Cut(k, e, e + 1, end, After(s, end))
    else Cut(k, e, e, e, After(s, e))
  }

  function NextCut(s: seq<char>, p: nat): Option<Cut>
    requires Terminated(s, p)
  {
    var k := SpanEnd(s, p, SEPARATORS);
    SpanStops(s, p, SEPARATORS);
    StrEndInside(s, p, k);
    if s[k] == NUL then None
    else
      CSpanStops(s, k, KEY_STOPS);
      StrEndInside(s, k, CSpanEnd(s, k, KEY_STOPS));
      Some(CutAt(s, k, CSpanEnd(s, k, KEY_STOPS)))
  }

  /** The cut lies inside the string, makes progress, and ends its two strings at delimiters or at the terminator. */
  ghost predicate GoodCut(s: seq<char>, p: nat, c: Cut)
    requires Terminated(s, p)
  {
    && p <= c.keyAt <= c.keyEnd <= c.valueAt <= c.valueEnd <= c.next <= StrEnd(s, p) && p < c.next
    && (s[c.keyEnd] == NUL || (c.keyEnd < c.next && s[c.keyEnd] in KEY_STOPS))
    && (s[c.valueEnd] == NUL || (c.valueEnd < c.next && s[c.valueEnd] in KEY_STOPS + CLOSING))
    && (s[c.valueEnd] == NUL ==> c.next == c.valueEnd)
    && (c.valueAt == c.keyEnd ==> c.valueEnd == c.keyEnd)
  }

  lemma {:induction false} CutBounds(s: seq<char>, p: nat)
    requires Terminated(s, p)
    ensures NextCut(s, p).Some? ==> GoodCut(s, p, NextCut(s, p).value)
    ensures NextCut(s, p).None? <==> forall i :: p <= i < StrEnd(s, p) ==> s[i] in {',', ' ', '\t', '\r', '\n'}
  {
    StrEndFirst(s, p);
    var k := SpanEnd(s, p, SEPARATORS);
    SpanStops(s, p, SEPARATORS);
    StrEndInside(s, p, k);
    if s[k] != NUL {
      var e := CSpanEnd(s, k, KEY_STOPS);
      CSpanStops(s, k, KEY_STOPS);
      StrEndInside(s, k, e);
      if s[e] in {':', '=', '('} {
        StrEndInside(s, p, e + 1);
        ValueEndStops(s, e + 1, s[e]);
      }
    }
  }

  type Token = (string, string)

  function TokenOf(s: seq<char>, c: Cut): Token
    requires c.keyAt <= c.keyEnd <= |s| && c.valueAt <= c.valueEnd <= |s|
  {
    (s[c.keyAt..c.keyEnd], s[c.valueAt..c.valueEnd])
  }

  /** The key/value pairs that repeated calls yield, until one returns false. */
  function Tokens(s: seq<char>, p: nat): seq<Token>
    requires Terminated(s, p)
    decreases |s| - p
  {
    CutBounds(s, p);
    match NextCut(s, p)
    case None => []
    case Some(c) =>
      StrEndInside(s, p, c.next);
      [TokenOf(s, c)] + Tokens(s, c.next)
  }

  /** A call that finds something yields the first token, and the rest comes from where it stopped. */
  lemma {:induction false} TokensCut(s: seq<char>, p: nat)
    requires Terminated(s, p) && NextCut(s, p).Some?
    ensures var c := NextCut(s, p).value;
            && GoodCut(s, p, c) && Terminated(s, c.next) && StrEnd(s, c.next) == StrEnd(s, p)
            && Tokens(s, p) == [TokenOf(s, c)] + Tokens(s, c.next)
  {
    CutBounds(s, p);
    StrEndInside(s, p, NextCut(s, p).value.next);
  }

  lemma NextCutFrame(s: seq<char>, s': seq<char>, p: nat)
    requires Terminated(s, p) && SameFrom(s, s', p)
    ensures Terminated(s', p) && NextCut(s', p) == NextCut(s, p)
  {
    StrEndFrame(s, s', p);
    SpanFrame(s, s', p, SEPARATORS);
    var k := SpanEnd(s, p, SEPARATORS);
    SpanStops(s, p, SEPARATORS);
    StrEndInside(s, p, k);
    StrEndFrame(s, s', k);
    assert s'[k] == s[k];
    if s[k] != NUL {
      SpanFrame(s, s', k, KEY_STOPS);
      var e := CSpanEnd(s, k, KEY_STOPS);
      CSpanStops(s, k, KEY_STOPS);
      StrEndInside(s, k, e);
      StrEndFrame(s, s', e);
      CutAtFrame(s, s', k, e);
    }
  }

  lemma CutAtFrame(s: seq<char>, s': seq<char>, k: nat, e: nat)
    requires k <= e && Terminated(s, e) && Terminated(s', e) && SameFrom(s, s', k)
    ensures CutAt(s', k, e) == CutAt(s, k, e)
  {
    assert s'[e] == s[e];
    if s[e] in {':', '=', '('} {
      ValueEndFrame(s, s', e + 1, s[e]);
      ValueEndStops(s, e + 1, s[e]);
      assert s'[ValueEnd(s, e + 1, s[e])] == s[ValueEnd(s, e + 1, s[e])];
    }
  }

  lemma ValueEndFrame(s: seq<char>, s': seq<char>, v: nat, keyDelim: char)
    requires v <= |s| && SameFrom(s, s', v)
    ensures ValueEnd(s', v, keyDelim) == ValueEnd(s, v, keyDelim)
  {
    ScanEndFrame(s, s', v, 0, SEPARATORS);
    ScanEndFrame(s, s', v, 0, CLOSING);
    ScanEndFrame(s, s', ScanEnd(s, v, 0, CLOSING), 0, SEPARATORS);
  }

  /** What lies before a position does not matter for the tokens after it. */
  lemma {:induction false} TokensFrame(s: seq<char>, s': seq<char>, p: nat)
    requires Terminated(s, p) && SameFrom(s, s', p)
    ensures Terminated(s', p) && Tokens(s', p) == Tokens(s, p)
    decreases |s| - p
  {
    NextCutFrame(s, s', p);
    CutBounds(s, p);
    if NextCut(s, p).Some? {
      var c := NextCut(s, p).value;
      StrEndInside(s, p, c.next);
      TokensFrame(s, s', c.next);
      TokenFrame(s, s', p, c);
    }
  }

  lemma TokenFrame(s: seq<char>, s': seq<char>, p: nat, c: Cut)
    requires Terminated(s, p) && SameFrom(s, s', p) && GoodCut(s, p, c)
    ensures TokenOf(s', c) == TokenOf(s, c)
  {
    assert s'[c.keyAt..c.keyEnd] == s[c.keyAt..c.keyEnd];
    assert s'[c.valueAt..c.valueEnd] == s[c.valueAt..c.valueEnd];
  }

  /** The buffer, the cursor and the two pointers after a call. */
  datatype Outcome = Outcome(buffer: seq<char>, pos: nat, key: Option<nat>, value: Option<nat>)

  function Call(s: seq<char>, p: nat): Outcome
    requires Terminated(s, p)
  {
    CutBounds(s, p);
    match NextCut(s, p)
    case None => Outcome(s, SpanEnd(s, p, SEPARATORS), None, None)
    case Some(c) => Outcome(s[c.keyEnd := NUL][c.valueEnd := NUL], c.next, Some(c.keyAt), Some(c.valueAt))
  }

  /** A pointer whose string will survive all further calls: it ends before the cursor, or the input is used up. */
  predicate Settled(s: seq<char>, pos: nat, q: nat) {
    && pos < |s| && q <= |s|
    && (StrEnd(s, q) < pos || (StrEnd(s, q) <= pos && s[pos] == NUL))
  }

  /**
   A successful call moves the cursor forward, not past the terminator; writes at most two
   characters, both key or value delimiters or already terminators; leaves everything
   before and everything still to be read as it was; and its two pointers denote its token.
   */
  lemma {:induction false} CallCuts(s: seq<char>, p: nat)
    requires Terminated(s, p) && NextCut(s, p).Some?
    ensures var r, c := Call(s, p), NextCut(s, p).value;
            && p < r.pos <= StrEnd(s, p) && |r.buffer| == |s|
            && (forall i :: 0 <= i < |s| && r.buffer[i] != s[i] ==>
                              i in {c.keyEnd, c.valueEnd} &&
                              s[i] in {':', '=', '(', ')', ',', ' ', '\t', '\r', '\n'} && r.buffer[i] == '\0')
            && SameBefore(s, r.buffer, p) && SameFrom(s, r.buffer, r.pos)
            && Terminated(r.buffer, r.pos) && StrEnd(r.buffer, r.pos) == StrEnd(s, p)
            && Tokens(s, p) == [TokenOf(s, c)] + Tokens(r.buffer, r.pos)
            && Settled(r.buffer, r.pos, r.key.value) && Settled(r.buffer, r.pos, r.value.value)
            && (CStr(r.buffer, r.key.value), CStr(r.buffer, r.value.value)) == TokenOf(s, c)
  {
    TokensCut(s, p);
    var c := NextCut(s, p).value;
    var s' := s[c.keyEnd := NUL][c.valueEnd := NUL];
    CutPieces(s, s', p, c);
    TokensFrame(s, s', c.next);
  }

  lemma {:induction false} CutPieces(s: seq<char>, s': seq<char>, p: nat, c: Cut)
    requires Terminated(s, p) && GoodCut(s, p, c) && s' == s[c.keyEnd := NUL][c.valueEnd := NUL]
    ensures forall i :: 0 <= i < |s| && s'[i] != s[i] ==>
                          i in {c.keyEnd, c.valueEnd} && s[i] in KEY_STOPS + CLOSING && s'[i] == NUL
    ensures SameBefore(s, s', p) && SameFrom(s, s', c.next)
    ensures Terminated(s', c.next) && StrEnd(s', c.next) == StrEnd(s, p)
    ensures Settled(s', c.next, c.keyAt) && Settled(s', c.next, c.valueAt)
    ensures (CStr(s', c.keyAt), CStr(s', c.valueAt)) == TokenOf(s, c)
  {
    StrEndInside(s, p, c.keyAt);
    StrEndInside(s, p, c.valueAt);
    StrEndInside(s, p, c.next);
    CStrCut(s, s', c.keyAt, c.keyEnd);
    CStrCut(s, s', c.valueAt, c.valueEnd);
    StrEndFrame(s, s', c.next);
  }

  /** A call that finds nothing leaves the buffer alone and the cursor on the terminator. */
  lemma {:induction false} CallEnds(s: seq<char>, p: nat)
    requires Terminated(s, p) && NextCut(s, p).None?
    ensures var r := Call(s, p);
            r.buffer == s && r.pos == StrEnd(s, p) && s[r.pos] == NUL && Tokens(s, p) == [] && Terminated(s, r.pos)
  {
    SpanStops(s, p, SEPARATORS);
    StrEndInside(s, p, SpanEnd(s, p, SEPARATORS));
  }

  // A successful call, as the program goes through it: k starts the key, e ends it, end ends the value.

  predicate KeyFound(s: seq<char>, p: nat, k: nat, e: nat) {
    && Terminated(s, p) && k == SpanEnd(s, p, SEPARATORS) < |s| && s[k] != NUL
    && e == CSpanEnd(s, k, KEY_STOPS) < |s|
  }

  lemma KeyFoundCut(s: seq<char>, p: nat, k: nat, e: nat)
    requires KeyFound(s, p, k, e)
    ensures p <= k <= e && Terminated(s, e) && NextCut(s, p) == Some(CutAt(s, k, e))
  {
    SpanStops(s, p, SEPARATORS);
    StrEndInside(s, p, k);
    CSpanStops(s, k, KEY_STOPS);
    StrEndInside(s, k, e);
  }

  lemma BareCall(s: seq<char>, p: nat, k: nat, e: nat)
    requires KeyFound(s, p, k, e) && s[e] !in {':', '=', '('}
    ensures Call(s, p) == Outcome(s[e := NUL], After(s, e), Some(k), Some(e))
  {
    KeyFoundCut(s, p, k, e);
    assert s[e := NUL][e := NUL] == s[e := NUL];
  }

  lemma ValueAhead(s: seq<char>, p: nat, k: nat, e: nat)
    requires KeyFound(s, p, k, e) && s[e] in {':', '=', '('}
    ensures Terminated(s, e + 1) && Terminated(s[e := NUL], e + 1)
  {
    KeyFoundCut(s, p, k, e);
    StrEndInside(s, e, e + 1);
    StrEndFrame(s, s[e := NUL], e + 1);
  }

  lemma PairCall(s: seq<char>, p: nat, k: nat, e: nat, end: nat)
    requires KeyFound(s, p, k, e) && s[e] in {':', '=', '('}
    requires end == ValueEnd(s[e := NUL], e + 1, s[e])
    ensures e < end < |s|
    ensures Call(s, p) == Outcome(s[e := NUL][end := NUL], After(s[e := NUL], end), Some(k), Some(e + 1))
  {
    var s1 := s[e := NUL];
    KeyFoundCut(s, p, k, e);
    ValueAhead(s, p, k, e);
    ValueEndFrame(s, s1, e + 1, s[e]);
    ValueEndStops(s, e + 1, s[e]);
    assert s1[end] == s[end];
  }

  /** Looking for ")->" reads no further than the terminator. */
  lemma {:induction false} ArrowInside(s: seq<char>, v: nat, i: nat)
    requires Terminated(s, v) && v <= i <= StrEnd(s, v)
    ensures s[i] == ')' ==> i + 1 < |s|
    ensures s[i] == ')' && s[i + 1] == '-' ==> i + 2 < |s|
  {
    StrEndFirst(s, v);
  }

  // ---------- the same, in place ----------

  /** The buffer and the moving pointer *stringp. */
  class Cursor {
    const buffer: array<char>
    var pos: nat

    constructor (b: array<char>)
      requires Terminated(b[..], 0)
      ensures buffer == b && pos == 0
    {
      buffer := b;
      pos := 0;
    }

    /** The rest of the input is a terminated string. */
    predicate Valid()
      reads this, buffer
    {
      Terminated(buffer[..], pos)
    }

    /** The value's length: to a separator, or to ")", or past "(x)->" to a separator. */
    method ValueLength(keyDelim: char) returns (valueLen: nat)
      requires Valid()
      ensures pos + valueLen == ValueEnd(buffer[..], pos, keyDelim)
    {
      ghost var s := buffer[..];
      var valueDelims := if keyDelim == '(' then CLOSING else SEPARATORS;
      valueLen := ParseValue(buffer, pos, valueDelims);
      ScanEndLeast(s, pos, 0, valueDelims);
      ArrowInside(s, pos, pos + valueLen);
      if keyDelim == '(' && buffer[pos + valueLen] == ')' && buffer[pos + valueLen + 1] == '-'
         && buffer[pos + valueLen + 2] == '>' {
        valueDelims := SEPARATORS;
        StrEndInside(s, pos, pos + valueLen);
        var more := ParseValue(buffer, pos + valueLen, valueDelims);
        valueLen := valueLen + more;
      }
    }

    /** The first half of client_parse_key_value: skip blanks, cut the key, step over its delimiter. */
    method TakeKey() returns (found: bool, keyAt: nat, keyEnd: nat, keyDelim: char)
      requires Valid()
      modifies this`pos, buffer
      ensures found == NextCut(old(buffer[..]), old(pos)).Some?
      ensures !found ==> buffer[..] == old(buffer[..]) && pos == SpanEnd(old(buffer[..]), old(pos), SEPARATORS)
      ensures found ==>
                && KeyFound(old(buffer[..]), old(pos), keyAt, keyEnd) && keyDelim == old(buffer[..])[keyEnd]
                && buffer[..] == old(buffer[..])[keyEnd := NUL] && pos == After(old(buffer[..]), keyEnd)
    {
      ghost var s, p := buffer[..], pos;
      keyAt, keyEnd, keyDelim := 0, 0, NUL;
      pos := SpanEnd(buffer[..], pos, SEPARATORS);
      SpanStops(s, p, SEPARATORS);
      StrEndInside(s, p, pos);
      if buffer[pos] == NUL {
        return false, keyAt, keyEnd, keyDelim;
      }
      keyAt := pos;
      keyEnd := CSpanEnd(buffer[..], keyAt, KEY_STOPS);
      CSpanStops(s, keyAt, KEY_STOPS);
      keyDelim := buffer[keyEnd];
      buffer[keyEnd] := NUL;
      pos := keyEnd + (if keyDelim != NUL then 1 else 0);
      found := true;
    }

    /** client_parse_key_value: see CallCuts and CallEnds for what an outcome means. */
    method ParseKeyValue() returns (found: bool, key: Option<nat>, value: Option<nat>)
      requires Valid()
      modifies this`pos, buffer
      ensures Outcome(buffer[..], pos, key, value) == Call(old(buffer[..]), old(pos))
      ensures found == key.Some?
    {
      ghost var s, p := buffer[..], pos;
      var hasKey, keyAt, keyEnd, keyDelim := TakeKey();
      if !hasKey {
        return false, None, None;
      }
      if keyDelim !in {':', '=', '('} {
        BareCall(s, p, keyAt, keyEnd);
        return true, Some(keyAt), Some(keyEnd);
      }
      ValueAhead(s, p, keyAt, keyEnd);
      var valueAt := pos;
      var valueLen := ValueLength(keyDelim);
      PairCall(s, p, keyAt, keyEnd, valueAt + valueLen);
      var valueDelim := buffer[valueAt + valueLen];
      buffer[valueAt + valueLen] := NUL;
      pos := pos + valueLen + (if valueDelim != NUL then 1 else 0);
      return true, Some(keyAt), Some(valueAt);
    }
  }

  // ---------- all calls ----------

  lemma SettledKept(s: seq<char>, s': seq<char>, pos: nat, pos': nat, q: nat)
    requires pos <= pos' < |s| && Settled(s, pos, q) && s[pos] != NUL && SameBefore(s, s', pos)
    ensures Settled(s', pos', q) && CStr(s', q) == CStr(s, q)
  {
    CStrIntact(s, s', q, pos);
  }

  predicate Denotes(s: seq<char>, pos: nat, pair: (nat, nat), token: Token) {
    && Settled(s, pos, pair.0) && Settled(s, pos, pair.1)
    && CStr(s, pair.0) == token.0 && CStr(s, pair.1) == token.1
  }

  /** Every pair handed out so far denotes its token and will go on doing so; the rest is still to be read. */
  ghost predicate Delivered(s: seq<char>, pos: nat, pairs: seq<(nat, nat)>, tokens: seq<Token>) {
    && Terminated(s, pos)
    && |pairs| <= |tokens|
    && (forall i :: 0 <= i < |pairs| ==> Denotes(s, pos, pairs[i], tokens[i]))
    && tokens[|pairs|..] == Tokens(s, pos)
  }

  lemma CallDelivers(s: seq<char>, pos: nat, pairs: seq<(nat, nat)>, tokens: seq<Token>)
    requires Delivered(s, pos, pairs, tokens) && NextCut(s, pos).Some?
    ensures var r := Call(s, pos);
            && Delivered(r.buffer, r.pos, pairs + [(r.key.value, r.value.value)], tokens)
            && pos < r.pos <= |r.buffer| == |s|
  {
    var r := Call(s, pos);
    CallCuts(s, pos);
    StrEndFirst(s, pos);
    assert tokens[|pairs|] == tokens[|pairs|..][0];
    assert tokens[|pairs| + 1..] == tokens[|pairs|..][1..];
    forall i | 0 <= i < |pairs| ensures Denotes(r.buffer, r.pos, pairs[i], tokens[i]) {
      assert Denotes(s, pos, pairs[i], tokens[i]);
      SettledKept(s, r.buffer, pos, r.pos, pairs[i].0);
      SettledKept(s, r.buffer, pos, r.pos, pairs[i].1);
    }
  }

  lemma EndDelivers(s: seq<char>, pos: nat, pairs: seq<(nat, nat)>, tokens: seq<Token>)
    requires Delivered(s, pos, pairs, tokens) && NextCut(s, pos).None?
    ensures Delivered(s, Call(s, pos).pos, pairs, tokens) && |pairs| == |tokens|
  {
    var end := Call(s, pos).pos;
    CallEnds(s, pos);
    CutBounds(s, end);
    assert Tokens(s, end) == [];
    forall i | 0 <= i < |pairs| ensures Denotes(s, end, pairs[i], tokens[i]) {
      assert Denotes(s, pos, pairs[i], tokens[i]);
    }
  }

  /**
   The loop "while (client_parse_key_value(...))": it yields exactly the tokens, and when
   it ends every pointer handed out on the way still denotes its string in the buffer.
   */
  method DrainKeyValues(cursor: Cursor) returns (pairs: seq<(nat, nat)>)
    requires cursor.Valid()
    modifies cursor`pos, cursor.buffer
    ensures Delivered(cursor.buffer[..], cursor.pos, pairs, Tokens(old(cursor.buffer[..]), old(cursor.pos)))
    ensures |pairs| == |Tokens(old(cursor.buffer[..]), old(cursor.pos))|
    ensures cursor.buffer[cursor.pos] == NUL
  {
    ghost var tokens := Tokens(cursor.buffer[..], cursor.pos);
    pairs := [];
    while true
      invariant Delivered(cursor.buffer[..], cursor.pos, pairs, tokens)
      decreases cursor.buffer.Length - cursor.pos
    {
      ghost var s, p := cursor.buffer[..], cursor.pos;
      var found, key, value := cursor.ParseKeyValue();
      if !found {
        EndDelivers(s, p, pairs, tokens);
        CallEnds(s, p);
        break;
      }
      CallDelivers(s, p, pairs, tokens);
      pairs := pairs + [(key.value, value.value)];
    }
  }

  // ---------- copying ----------

  /** client_strzcpy: at most size - 1 characters, and terminators in every other byte of dst[..size]. */
  method Strzcpy(dst: array<char>, src: array<char>, size: nat)
    requires size <= dst.Length && dst != src && (NUL in src[..] || size <= src.Length + 1)
    modifies dst
    ensures var text := CStr(src[..], 0);
            var n := if size == 0 then 0 else if |text| < size then |text| else size - 1;
            dst[..] == text[..n] + seq(size - n, _ => NUL) + old(dst[size..])
  {
    ghost var was := dst[..];
    var text := CStr(src[..], 0);
    if size > 0 {
      var len := if |text| < size - 1 then |text| else size - 1;
      forall i | 0 <= i < len {
        dst[i] := src[i];
      }
      forall i | len <= i < size {
        dst[i] := NUL;
      }
      assert src[..] == old(src[..]);
      assert dst[..] == text[..len] + seq(size - len, _ => NUL) + was[size..];
    } else {
      assert dst[..] == text[..0] + seq(0, _ => NUL) + was[0..];
    }
  }
}
