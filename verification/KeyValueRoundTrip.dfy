/**
 Printing a list of key/value items and tokenizing the text gives the list back.
 */
module KeyValueRoundTrip {
  import opened Wrappers
  import opened KeyValue
  import opened Text

  /** "key", "key:value" or "key=value", "key(value)", and "key(inner)->tail". */
  datatype Form = Bare | Pair(delim: char, value: string) | Paren(value: string) | Arrow(inner: string, tail: string)

  /** An item and the separators that follow it. */
  datatype Item = Item(key: string, form: Form, gap: string)

  function Body(form: Form): string {
    match form
    case Bare => ""
    case Pair(delim, value) => [delim] + value
    case Paren(value) => "(" + value + ")"
    case Arrow(inner, tail) => "(" + inner + ")->" + tail
  }

  function Render(item: Item): string { item.key + Body(item.form) + item.gap }

  function RenderAll(items: seq<Item>): string {
    if items == [] then "" else Render(items[0]) + RenderAll(items[1..])
  }

  function TokenFor(item: Item): Token {
    (item.key, match item.form
               case Bare => ""
               case Pair(_, value) => value
               case Paren(value) => value
               case Arrow(inner, tail) => inner + ")->" + tail)
  }

  function TokensFor(items: seq<Item>): (ts: seq<Token>)
    ensures |ts| == |items|
  {
    if items == [] then [] else [TokenFor(items[0])] + TokensFor(items[1..])
  }

  /** No delimiter outside parentheses, and every parenthesis closed at the end. */
  ghost predicate Closed(text: string, delims: set<char>) {
    && NUL !in text
    && DepthAt(text, 0, 0, |text|) == 0
    && forall k :: 0 <= k < |text| ==> !(DepthAt(text, 0, 0, k) == 0 && text[k] in delims)
  }

  ghost predicate GoodForm(form: Form) {
    match form
    case Bare => true
    case Pair(delim, value) => delim in {':', '='} && Closed(value, SEPARATORS)
    case Paren(value) => Closed(value, CLOSING)
    case Arrow(inner, tail) => Closed(inner, CLOSING) && Closed(")->" + tail, SEPARATORS)
  }

  ghost predicate Blank(text: string) { forall i :: 0 <= i < |text| ==> text[i] in SEPARATORS }

  ghost predicate GoodItem(item: Item) {
    && item.key != "" && (forall i :: 0 <= i < |item.key| ==> item.key[i] != NUL && item.key[i] !in KEY_STOPS)
    && GoodForm(item.form)
    && Blank(item.gap)
  }

  predicate StartsArrow(text: string) { |text| >= 2 && text[0] == '-' && text[1] == '>' }

  /** A parenthesised item needs no separator, unless the next key would turn its end into ")->". */
  predicate MayPrecede(a: Item, b: Item) { a.gap != "" || (a.form.Paren? && !StartsArrow(b.key)) }

  /** Well-formed items; the last may go without separators behind it. */
  ghost predicate GoodItems(items: seq<Item>) {
    && (forall i :: 0 <= i < |items| ==> GoodItem(items[i]))
    && (forall i :: 0 <= i < |items| - 1 ==> MayPrecede(items[i], items[i + 1]))
  }

  lemma GoodRest(items: seq<Item>, k: nat)
    requires GoodItems(items) && k <= |items|
    ensures GoodItems(items[k..])
  {
    var rest := items[k..];
    forall i | 0 <= i < |rest| - 1 ensures MayPrecede(rest[i], rest[i + 1]) {
      assert rest[i] == items[k + i] && rest[i + 1] == items[k + i + 1];
      assert MayPrecede(items[k + i], items[k + i + 1]);
    }
  }

  lemma {:induction false} SpanExact(s: seq<char>, p: nat, q: nat, accept: set<char>)
    requires p <= q < |s| && (s[q] == NUL || s[q] !in accept)
    requires forall i :: p <= i < q ==> s[i] != NUL && s[i] in accept
    ensures SpanEnd(s, p, accept) == q
    decreases q - p
  {
    if p < q {
      SpanExact(s, p + 1, q, accept);
    }
  }

  lemma {:induction false} CSpanExact(s: seq<char>, p: nat, q: nat, reject: set<char>)
    requires p <= q < |s| && (s[q] == NUL || s[q] in reject)
    requires forall i :: p <= i < q ==> s[i] != NUL && s[i] !in reject
    ensures CSpanEnd(s, p, reject) == q
    decreases q - p
  {
    if p < q {
      CSpanExact(s, p + 1, q, reject);
    }
  }

  lemma {:induction false} DepthEmbedded(s: seq<char>, v: nat, text: string, i: nat, depth: nat, k: nat)
    requires At(s, v, text) && i <= k <= |text|
    ensures DepthAt(s, v + i, depth, v + k) == DepthAt(text, i, depth, k)
    decreases k - i
  {
    if i < k {
      DepthEmbedded(s, v, text, i + 1, NextDepth(depth, text[i]), k);
    }
  }

  lemma {:induction false} ScanExact(s: seq<char>, i: nat, depth: nat, delims: set<char>, q: nat)
    requires i <= q < |s| && StopAt(s, i, depth, delims, q)
    requires forall k :: i <= k < q ==> !StopAt(s, i, depth, delims, k)
    ensures ScanEnd(s, i, depth, delims) == q
    decreases q - i
  {
    if i < q {
      assert !StopAt(s, i, depth, delims, i);
      var d := NextDepth(depth, s[i]);
      forall k | i < k <= q ensures StopAt(s, i, depth, delims, k) == StopAt(s, i + 1, d, delims, k) {
        assert DepthAt(s, i, depth, k) == DepthAt(s, i + 1, d, k);
      }
      var j := i + 1;
      forall k | j <= k < q ensures !StopAt(s, j, d, delims, k) {
        assert !StopAt(s, i, depth, delims, k);
      }
      ScanExact(s, j, d, delims, q);
    }
  }

  lemma {:induction false} ScanClosed(s: seq<char>, v: nat, text: string, delims: set<char>)
    requires At(s, v, text) && Closed(text, delims)
    requires v + |text| < |s| && (s[v + |text|] == NUL || s[v + |text|] in delims)
    ensures ScanEnd(s, v, 0, delims) == v + |text|
  {
    DepthEmbedded(s, v, text, 0, 0, |text|);
    forall k | v <= k < v + |text| ensures !StopAt(s, v, 0, delims, k) {
      DepthEmbedded(s, v, text, 0, 0, k - v);
      assert s[v + (k - v)] == text[k - v];
    }
    ScanExact(s, v, 0, delims, v + |text|);
  }

  // ---------- one item ----------

  /** The value of an item as its text stands in the buffer, and where it ends. */
  function ValueText(form: Form): string { TokenFor(Item("", form, "")).1 }

  ghost predicate EndsAt(s: seq<char>, b: nat) { b < |s| && (s[b] == NUL || s[b] in SEPARATORS) }

  ghost predicate ArrowTail(s: seq<char>, b: nat) { b + 1 < |s| && s[b] == '-' && s[b + 1] == '>' }

  /** What has to follow the body of an item: anything but "->" if its parenthesis is closed, else an end. */
  ghost predicate FollowedAt(s: seq<char>, b: nat, form: Form) {
    if form.Paren? then !ArrowTail(s, b) else EndsAt(s, b)
  }

  /** A value starts behind its delimiter at e and ends where its text ends. */
  lemma ValueExact(s: seq<char>, e: nat, form: Form)
    requires GoodForm(form) && !form.Bare? && At(s, e, Body(form)) && FollowedAt(s, e + |Body(form)|, form)
    ensures s[e] in {':', '=', '('} && ValueEnd(s, e + 1, s[e]) == e + 1 + |ValueText(form)|
    ensures At(s, e + 1, ValueText(form))
    ensures form.Paren? ==> s[e + 1 + |ValueText(form)|] == ')'
  {
    match form
    case Pair(delim, value) =>
      AtChar(s, e, [delim] + value, 0);
      AtSplit(s, e, [delim], value);
      ScanClosed(s, e + 1, value, SEPARATORS);
    case Paren(value) =>
      ParenExact(s, e, value);
    case Arrow(inner, tail) =>
      ArrowExact(s, e, inner, tail);
  }

  lemma ParenExact(s: seq<char>, e: nat, value: string)
    requires Closed(value, CLOSING) && At(s, e, "(" + value + ")") && !ArrowTail(s, e + |value| + 2)
    ensures s[e] == '(' && ValueEnd(s, e + 1, '(') == e + 1 + |value| && At(s, e + 1, value)
    ensures s[e + 1 + |value|] == ')'
  {
    AtSplit(s, e, "(" + value, ")");
    AtSplit(s, e, "(", value);
    AtChar(s, e, "(", 0);
    AtChar(s, e + 1 + |value|, ")", 0);
    ScanClosed(s, e + 1, value, CLOSING);
  }

  lemma ArrowExact(s: seq<char>, e: nat, inner: string, tail: string)
    requires Closed(inner, CLOSING) && Closed(")->" + tail, SEPARATORS)
    requires At(s, e, "(" + inner + ")->" + tail) && EndsAt(s, e + |inner| + |tail| + 4)
    ensures s[e] == '(' && ValueEnd(s, e + 1, '(') == e + |inner| + |tail| + 4
    ensures At(s, e + 1, inner + ")->" + tail)
  {
    var arrow := ")->" + tail;
    var close := e + 1 + |inner|;
    assert "(" + inner + ")->" + tail == "(" + (inner + arrow);
    assert inner + ")->" + tail == inner + arrow;
    AtSplit(s, e, "(", inner + arrow);
    AtSplit(s, e + 1, inner, arrow);
    AtChar(s, e, "(", 0);
    AtChar(s, close, arrow, 0);
    AtChar(s, close, arrow, 1);
    AtChar(s, close, arrow, 2);
    ScanClosed(s, e + 1, inner, CLOSING);
    ScanClosed(s, close, arrow, SEPARATORS);
  }

  /** How much of an item's gap its own call steps over. */
  function Eaten(item: Item): nat { if item.form.Paren? || item.gap == "" then 0 else 1 }

  /** What has to follow an item without a gap. */
  ghost predicate ClosedAt(s: seq<char>, b: nat, form: Form) {
    if form.Paren? then !ArrowTail(s, b) else b < |s| && s[b] == NUL
  }

  /** A call that meets an item yields its token and stops in or behind its gap. */
  lemma ItemCut(s: seq<char>, p: nat, lead: string, item: Item, e: nat)
    requires Terminated(s, p) && Blank(lead) && GoodItem(item) && e == p + |lead| + |item.key|
    requires At(s, p, lead) && PartsAt(s, p + |lead|, e, item)
    ensures NextCut(s, p).Some? && GoodCut(s, p, NextCut(s, p).value)
    ensures var c := NextCut(s, p).value;
            TokenOf(s, c) == TokenFor(item) && c.next == e + |Body(item.form)| + Eaten(item)
  {
    KeyExact(s, p, lead, item.key, e);
    PartsCut(s, p, p + |lead|, e, item);
    CutBounds(s, p);
  }

  lemma RenderLength(item: Item)
    ensures |Render(item)| == |item.key| + |Body(item.form)| + |item.gap|
  {
  }

  /** The key and the body stand where they should, and the body is properly followed. */
  ghost predicate PartsAt(s: seq<char>, k: nat, e: nat, item: Item) {
    var b := e + |Body(item.form)|;
    && e == k + |item.key| && At(s, k, item.key) && At(s, e, Body(item.form)) && FollowedAt(s, b, item.form)
    && (!item.form.Paren? ==> (s[b] == NUL <==> item.gap == ""))
    && e < |s| && (s[e] == NUL || s[e] in KEY_STOPS)
  }

  lemma ItemParts(s: seq<char>, k: nat, e: nat, item: Item)
    requires GoodItem(item) && e == k + |item.key| && At(s, k, Render(item)) && k + |Render(item)| < |s|
    requires item.gap == "" ==> ClosedAt(s, k + |Render(item)|, item.form)
    ensures PartsAt(s, k, e, item)
  {
    var b := e + |Body(item.form)|;
    AtSplit(s, k, item.key + Body(item.form), item.gap);
    AtSplit(s, k, item.key, Body(item.form));
    if item.gap != "" {
      AtChar(s, b, item.gap, 0);
    }
    BodyLength(item.form);
    if !item.form.Bare? {
      ValueExact(s, e, item.form);
    }
  }

  lemma PartsCut(s: seq<char>, p: nat, k: nat, e: nat, item: Item)
    requires GoodItem(item) && PartsAt(s, k, e, item) && KeyFound(s, p, k, e)
    ensures NextCut(s, p).Some?
    ensures var c := NextCut(s, p).value;
            && c.keyAt <= c.keyEnd <= |s| && c.valueAt <= c.valueEnd <= |s|
            && TokenOf(s, c) == TokenFor(item) && c.next == e + |Body(item.form)| + Eaten(item)
  {
    BodyLength(item.form);
    if item.form.Bare? {
      BareItemCut(s, p, k, e, item);
    } else {
      ValueItemCut(s, p, k, e, item);
    }
  }

  lemma BareItemCut(s: seq<char>, p: nat, k: nat, e: nat, item: Item)
    requires item.form.Bare? && KeyFound(s, p, k, e) && At(s, k, item.key) && e == k + |item.key| && EndsAt(s, e)
    requires s[e] == NUL <==> item.gap == ""
    ensures NextCut(s, p).Some?
    ensures var c := NextCut(s, p).value;
            && c.keyAt <= c.keyEnd <= |s| && c.valueAt <= c.valueEnd <= |s|
            && TokenOf(s, c) == TokenFor(item) && c.next == e + Eaten(item)
  {
    KeyFoundCut(s, p, k, e);
    AtSlice(s, k, item.key);
    assert s[e..e] == "";
  }

  lemma BodyLength(form: Form)
    ensures form.Bare? ==> |Body(form)| == 0
    ensures !form.Bare? ==> |Body(form)| == 1 + |ValueText(form)| + (if form.Paren? then 1 else 0)
  {
  }

  lemma ValueItemCut(s: seq<char>, p: nat, k: nat, e: nat, item: Item)
    requires GoodForm(item.form) && !item.form.Bare? && KeyFound(s, p, k, e)
    requires At(s, k, item.key) && e == k + |item.key| && At(s, e, Body(item.form))
    requires FollowedAt(s, e + |Body(item.form)|, item.form)
    requires !item.form.Paren? ==> (s[e + |Body(item.form)|] == NUL <==> item.gap == "")
    ensures NextCut(s, p).Some?
    ensures var c := NextCut(s, p).value;
            && c.keyAt <= c.keyEnd <= |s| && c.valueAt <= c.valueEnd <= |s|
            && TokenOf(s, c) == TokenFor(item) && c.next == e + |Body(item.form)| + Eaten(item)
  {
    var text := ValueText(item.form);
    var end := e + 1 + |text|;
    ValueExact(s, e, item.form);
    BodyLength(item.form);
    ValueCutIs(s, p, k, e, end);
    AtSlice(s, k, item.key);
    AtSlice(s, e + 1, text);
    assert TokenOf(s, Cut(k, e, e + 1, end, After(s, end))) == (item.key, text);
  }

  lemma ValueCutIs(s: seq<char>, p: nat, k: nat, e: nat, end: nat)
    requires KeyFound(s, p, k, e) && s[e] in {':', '=', '('} && end == ValueEnd(s, e + 1, s[e]) < |s|
    ensures NextCut(s, p) == Some(Cut(k, e, e + 1, end, After(s, end)))
  {
    KeyFoundCut(s, p, k, e);
  }

  lemma KeyExact(s: seq<char>, p: nat, lead: string, key: string, e: nat)
    requires Terminated(s, p) && Blank(lead) && At(s, p, lead)
    requires key != "" && (forall i :: 0 <= i < |key| ==> key[i] != NUL && key[i] !in KEY_STOPS)
    requires At(s, p + |lead|, key) && e == p + |lead| + |key| < |s| && (s[e] == NUL || s[e] in KEY_STOPS)
    ensures KeyFound(s, p, p + |lead|, e)
  {
    var k := p + |lead|;
    AtChar(s, k, key, 0);
    forall i | p <= i < k ensures s[i] != NUL && s[i] in SEPARATORS {
      AtChar(s, p, lead, i - p);
    }
    forall i | k <= i < e ensures s[i] != NUL && s[i] !in KEY_STOPS {
      AtChar(s, k, key, i - k);
    }
    SpanExact(s, p, k, SEPARATORS);
    CSpanExact(s, k, e, KEY_STOPS);
  }

  // ---------- all items ----------

  /** From p on the buffer holds blanks, a text and a terminator. */
  ghost predicate Ahead(s: seq<char>, p: nat, lead: string, text: string) {
    && Terminated(s, p) && Blank(lead) && At(s, p, lead) && At(s, p + |lead|, text)
    && p + |lead| + |text| < |s| && s[p + |lead| + |text|] == NUL
  }

  /** Tokenizing blanks and then the printed items yields exactly the items' tokens. */
  lemma {:induction false} TokensOfItems(s: seq<char>, p: nat, lead: string, items: seq<Item>)
    requires GoodItems(items) && Ahead(s, p, lead, RenderAll(items))
    ensures Tokens(s, p) == TokensFor(items)
    decreases |items|
  {
    if items == [] {
      BlankEnds(s, p, lead);
    } else {
      GoodTail(items);
      var next, gap := AfterItem(s, p, lead, items[0], RenderAll(items[1..]));
      TokensOfItems(s, next, gap, items[1..]);
    }
  }

  /** A text that may stand right behind an item. */
  predicate MayFollow(item: Item, tail: string) {
    item.gap == "" ==> tail == "" || (item.form.Paren? && !StartsArrow(tail))
  }

  lemma TailClosed(s: seq<char>, b: nat, item: Item, tail: string)
    requires At(s, b, tail) && b + |tail| < |s| && s[b + |tail|] == NUL && MayFollow(item, tail)
    ensures item.gap == "" ==> ClosedAt(s, b, item.form)
  {
    if |tail| >= 2 {
      AtChar(s, b, tail, 0);
      AtChar(s, b, tail, 1);
    } else if |tail| == 1 {
      AtChar(s, b, tail, 0);
    }
  }

  lemma AfterItem(s: seq<char>, p: nat, lead: string, item: Item, tail: string) returns (next: nat, gap: string)
    requires Ahead(s, p, lead, Render(item) + tail) && GoodItem(item) && MayFollow(item, tail)
    ensures Ahead(s, next, gap, tail) && Tokens(s, p) == [TokenFor(item)] + Tokens(s, next)
  {
    var text := Render(item);
    next := ItemToken(s, p, lead, item, text, tail);
    gap := GapAhead(s, p, lead, item, text, tail, next);
  }

  lemma ItemToken(s: seq<char>, p: nat, lead: string, item: Item, text: string, tail: string) returns (next: nat)
    requires text == Render(item) && GoodItem(item) && MayFollow(item, tail)
    requires Ahead(s, p, lead, text + tail)
    ensures Terminated(s, next) && next == p + |lead| + |text| - |item.gap| + Eaten(item)
    ensures Tokens(s, p) == [TokenFor(item)] + Tokens(s, next)
    ensures At(s, p + |lead|, text) && At(s, p + |lead| + |text|, tail)
  {
    AtSplit(s, p + |lead|, text, tail);
    TailClosed(s, p + |lead| + |text|, item, tail);
    RenderLength(item);
    var e := p + |lead| + |item.key|;
    ItemParts(s, p + |lead|, e, item);
    ItemCut(s, p, lead, item, e);
    TokensCut(s, p);
    next := NextCut(s, p).value.next;
  }

  lemma GapAhead(s: seq<char>, p: nat, lead: string, item: Item, text: string, tail: string, next: nat)
    returns (gap: string)
    requires text == Render(item) && Blank(item.gap) && Ahead(s, p, lead, text + tail)
    requires Terminated(s, next) && next == p + |lead| + |text| - |item.gap| + Eaten(item)
    requires At(s, p + |lead|, text) && At(s, p + |lead| + |text|, tail)
    ensures Ahead(s, next, gap, tail)
  {
    gap := GapAt(s, p + |lead|, item, text);
  }

  lemma GoodTail(items: seq<Item>)
    requires GoodItems(items) && items != []
    ensures GoodItems(items[1..]) && MayFollow(items[0], RenderAll(items[1..]))
  {
    var rest := items[1..];
    GoodRest(items, 1);
    if rest != [] {
      assert rest[0] == items[1] && MayPrecede(items[0], items[1]);
      assert |rest| > 1 ==> MayPrecede(rest[0], rest[1]);
      if !StartsArrow(rest[0].key) {
        NoArrowStart(rest[0], RenderAll(rest[1..]));
      }
    }
  }

  lemma NoArrowStart(item: Item, rest: string)
    requires GoodItem(item) && !StartsArrow(item.key) && (item.gap == "" ==> item.form.Paren? || rest == "")
    ensures !StartsArrow(Render(item) + rest)
  {
    var text := Render(item) + rest;
    assert text == item.key + (Body(item.form) + item.gap + rest);
    if |item.key| == 1 && |text| >= 2 {
      assert text[1] == (Body(item.form) + item.gap + rest)[0];
      SecondIsNoArrow(item, rest);
    }
  }

  lemma SecondIsNoArrow(item: Item, rest: string)
    requires GoodItem(item) && (item.gap == "" ==> item.form.Paren? || rest == "")
    requires Body(item.form) + item.gap + rest != ""
    ensures (Body(item.form) + item.gap + rest)[0] != '>'
  {
    if item.form.Bare? {
      assert item.gap != "" && (Body(item.form) + item.gap + rest)[0] == item.gap[0];
    } else {
      assert (Body(item.form) + item.gap + rest)[0] == Body(item.form)[0];
    }
  }

  lemma GapAt(s: seq<char>, k: nat, item: Item, text: string) returns (gap: string)
    requires text == Render(item) && At(s, k, text) && Blank(item.gap)
    ensures |gap| == |item.gap| - Eaten(item) && Blank(gap) && At(s, k + |text| - |gap|, gap)
  {
    gap := item.gap[Eaten(item)..];
    AtSplit(s, k, item.key + Body(item.form), item.gap);
    GapRemains(s, k + |item.key| + |Body(item.form)|, item.gap, Eaten(item));
  }

  lemma GapRemains(s: seq<char>, p: nat, gap: string, eaten: nat)
    requires At(s, p, gap) && eaten <= |gap| && Blank(gap)
    ensures At(s, p + eaten, gap[eaten..]) && Blank(gap[eaten..])
  {
    assert gap == gap[..eaten] + gap[eaten..];
    AtSplit(s, p, gap[..eaten], gap[eaten..]);
  }

  lemma {:induction false} BlankEnds(s: seq<char>, p: nat, lead: string)
    requires Terminated(s, p) && Blank(lead) && At(s, p, lead) && p + |lead| < |s| && s[p + |lead|] == NUL
    ensures Tokens(s, p) == []
  {
    CutBounds(s, p);
    forall i | p <= i < p + |lead| ensures s[i] != NUL && s[i] in SEPARATORS {
      assert s[p + (i - p)] == lead[i - p];
    }
    SpanExact(s, p, p + |lead|, SEPARATORS);
  }

  lemma {:induction false} NoTerminatorInside(items: seq<Item>)
    requires GoodItems(items)
    ensures NUL !in RenderAll(items)
  {
    if items != [] {
      GoodRest(items, 1);
      NoTerminatorInside(items[1..]);
      var item := items[0];
      assert NUL !in item.key && NUL !in item.gap;
      match item.form
      case Bare =>
      case Pair(delim, value) =>
      case Paren(value) =>
      case Arrow(inner, tail) =>
        forall c | c in tail ensures c != NUL {
          assert c in ")->" + tail;
        }
    }
  }

  /** A buffer that starts with the printed items and a terminator yields the items. */
  lemma {:induction false} GoodRoundTrip(items: seq<Item>, s: seq<char>)
    requires GoodItems(items) && RenderAll(items) + [NUL] <= s
    ensures Terminated(s, 0) && Tokens(s, 0) == TokensFor(items)
  {
    var text := RenderAll(items);
    NoTerminatorInside(items);
    assert s[|text|] == (text + [NUL])[|text|];
    forall i | 0 <= i < |text| ensures s[i] == text[i] != NUL {
      assert s[i] == (text + [NUL])[i] && text[i] in text;
    }
    StrEndUnique(s, 0, |text|);
    TokensOfItems(s, 0, "", items);
  }

  // ---------- on the characters themselves ----------

  predicate IsSeparator(c: char) { c == ',' || c == ' ' || c == '\t' || c == '\r' || c == '\n' }

  predicate EndsKey(c: char) { c == ':' || c == '=' || c == '(' || IsSeparator(c) }

  /** How many parentheses are open before position k; one that closes nothing counts for nothing. */
  function Nested(text: string, k: nat): nat
    requires k <= |text|
  {
    if k == 0 then 0
    else
      var open := Nested(text, k - 1);
      if text[k - 1] == '(' then open + 1
      else if text[k - 1] == ')' && open > 0 then open - 1
      else open
  }

  /** No breaking character outside parentheses, and every parenthesis closed at the end. */
  ghost predicate Balanced(text: string, breaks: char -> bool) {
    && '\0' !in text
    && Nested(text, |text|) == 0
    && forall k :: 0 <= k < |text| ==> !(Nested(text, k) == 0 && breaks(text[k]))
  }

  predicate IsClosing(c: char) { c == ')' }

  ghost predicate WellFormedForm(form: Form) {
    match form
    case Bare => true
    case Pair(delim, value) => (delim == ':' || delim == '=') && Balanced(value, IsSeparator)
    case Paren(value) => Balanced(value, IsClosing)
    case Arrow(inner, tail) => Balanced(inner, IsClosing) && Balanced(")->" + tail, IsSeparator)
  }

  /** A key may hold anything but ':', '=', '(' and the separators. */
  ghost predicate WellFormedKey(key: string) {
    key != "" && forall i :: 0 <= i < |key| ==> key[i] != '\0' && !EndsKey(key[i])
  }

  ghost predicate WellFormedItem(item: Item) {
    && WellFormedKey(item.key) && WellFormedForm(item.form)
    && forall i :: 0 <= i < |item.gap| ==> IsSeparator(item.gap[i])
  }

  /** Well-formed items; the last may go without separators behind it. */
  ghost predicate WellFormedItems(items: seq<Item>) {
    && (forall i :: 0 <= i < |items| ==> WellFormedItem(items[i]))
    && (forall i :: 0 <= i < |items| - 1 ==> MayPrecede(items[i], items[i + 1]))
  }

  /** The tokenizer's character sets are these characters. */
  lemma CharacterSets()
    ensures forall c :: c in SEPARATORS <==> IsSeparator(c)
    ensures forall c :: c in KEY_STOPS <==> EndsKey(c)
    ensures forall c :: c in CLOSING <==> IsClosing(c)
    ensures NUL == '\0'
  {
  }

  lemma {:induction false} DepthSnoc(s: seq<char>, i: nat, depth: nat, k: nat)
    requires i <= k < |s|
    ensures DepthAt(s, i, depth, k + 1) == NextDepth(DepthAt(s, i, depth, k), s[k])
    decreases k - i
  {
    if i < k {
      DepthSnoc(s, i + 1, NextDepth(depth, s[i]), k);
    }
  }

  /** The depth that the scan counts is the number of open parentheses. */
  lemma {:induction false} NestedIsDepth(text: string, k: nat)
    requires k <= |text|
    ensures Nested(text, k) == DepthAt(text, 0, 0, k)
  {
    if k > 0 {
      NestedIsDepth(text, k - 1);
      DepthSnoc(text, 0, 0, k - 1);
    }
  }

  lemma BalancedIsClosed(text: string, breaks: char -> bool, delims: set<char>)
    requires Balanced(text, breaks) && forall c :: c in delims <==> breaks(c)
    ensures Closed(text, delims)
  {
    NestedIsDepth(text, |text|);
    forall k | 0 <= k < |text| ensures !(DepthAt(text, 0, 0, k) == 0 && text[k] in delims) {
      NestedIsDepth(text, k);
    }
  }

  lemma WellFormedIsGood(item: Item)
    requires WellFormedItem(item)
    ensures GoodItem(item)
  {
    CharacterSets();
    match item.form
    case Bare =>
    case Pair(_, value) => BalancedIsClosed(value, IsSeparator, SEPARATORS);
    case Paren(value) => BalancedIsClosed(value, IsClosing, CLOSING);
    case Arrow(inner, tail) =>
      BalancedIsClosed(inner, IsClosing, CLOSING);
      BalancedIsClosed(")->" + tail, IsSeparator, SEPARATORS);
  }

  lemma WellFormedAreGood(items: seq<Item>)
    requires WellFormedItems(items)
    ensures GoodItems(items)
  {
    forall i | 0 <= i < |items| ensures GoodItem(items[i]) {
      WellFormedIsGood(items[i]);
    }
  }

  /** Round trip: a buffer that starts with the printed items and a terminator yields exactly the items. */
  lemma {:induction false} RoundTrip(items: seq<Item>, s: seq<char>)
    requires WellFormedItems(items) && RenderAll(items) + ['\0'] <= s
    ensures Terminated(s, 0) && Tokens(s, 0) == TokensFor(items)
  {
    CharacterSets();
    WellFormedAreGood(items);
    GoodRoundTrip(items, s);
  }

  /** The same for the program: every pointer it hands out still denotes its item at the end. */
  method ParsePrinted(items: seq<Item>, buffer: array<char>) returns (cursor: Cursor, pairs: seq<(nat, nat)>)
    requires WellFormedItems(items) && RenderAll(items) + ['\0'] <= buffer[..]
    modifies buffer
    ensures cursor.buffer == buffer && |pairs| == |items|
    ensures forall i :: 0 <= i < |items| ==>
              && pairs[i].0 <= buffer.Length && CStr(buffer[..], pairs[i].0) == TokensFor(items)[i].0
              && pairs[i].1 <= buffer.Length && CStr(buffer[..], pairs[i].1) == TokensFor(items)[i].1
  {
    RoundTrip(items, buffer[..]);
    cursor := new Cursor(buffer);
    pairs := DrainKeyValues(cursor);
    assert forall i :: 0 <= i < |pairs| ==> Denotes(buffer[..], cursor.pos, pairs[i], TokensFor(items)[i]);
  }

  // ---------- pairs, joined ----------

  /** The pairs as they are usually written: "key:value,key:value". */
  function Joined(pairs: seq<(string, string)>): string {
    if pairs == [] then ""
    else if |pairs| == 1 then pairs[0].0 + ":" + pairs[0].1
    else pairs[0].0 + ":" + pairs[0].1 + "," + Joined(pairs[1..])
  }

  /** The same pairs as items: a colon in each, and a comma behind all but the last. */
  function ItemsOf(pairs: seq<(string, string)>): (items: seq<Item>)
    ensures |items| == |pairs|
  {
    if pairs == [] then []
    else [Item(pairs[0].0, Pair(':', pairs[0].1), if |pairs| == 1 then "" else ",")] + ItemsOf(pairs[1..])
  }

  /** A key without ':', '=', '(' and separators; a value with its separators, if any, inside closed parentheses. */
  ghost predicate GoodPair(pair: (string, string)) {
    WellFormedKey(pair.0) && Balanced(pair.1, IsSeparator)
  }

  lemma {:induction false} JoinedIsRendered(pairs: seq<(string, string)>)
    ensures RenderAll(ItemsOf(pairs)) == Joined(pairs)
  {
    if pairs != [] {
      var items := ItemsOf(pairs);
      JoinedIsRendered(pairs[1..]);
      assert items[1..] == ItemsOf(pairs[1..]);
      assert ":" == [':'];
    }
  }

  lemma {:induction false} ItemsOfPairs(pairs: seq<(string, string)>)
    requires forall i :: 0 <= i < |pairs| ==> GoodPair(pairs[i])
    ensures WellFormedItems(ItemsOf(pairs)) && TokensFor(ItemsOf(pairs)) == pairs
    ensures |pairs| > 1 ==> ItemsOf(pairs)[0].gap != ""
  {
    if pairs != [] {
      var rest, items := pairs[1..], ItemsOf(pairs);
      assert forall i :: 0 <= i < |rest| ==> rest[i] == pairs[i + 1];
      ItemsOfPairs(rest);
      assert GoodPair(pairs[0]) && WellFormedItem(items[0]);
      assert items[1..] == ItemsOf(rest) && pairs == [pairs[0]] + rest;
      forall i | 0 < i < |items| ensures WellFormedItem(items[i]) {
        assert items[i] == ItemsOf(rest)[i - 1];
      }
      forall i | 0 < i < |items| - 1 ensures MayPrecede(items[i], items[i + 1]) {
        assert items[i] == ItemsOf(rest)[i - 1] && items[i + 1] == ItemsOf(rest)[i];
      }
    }
  }

  /** Joining pairs with ':' and ',' and tokenizing gives exactly the pairs. */
  lemma {:induction false} PairsRoundTrip(pairs: seq<(string, string)>, s: seq<char>)
    requires (forall i :: 0 <= i < |pairs| ==> GoodPair(pairs[i])) && Joined(pairs) + ['\0'] <= s
    ensures Terminated(s, 0) && Tokens(s, 0) == pairs
  {
    ItemsOfPairs(pairs);
    JoinedIsRendered(pairs);
    RoundTrip(ItemsOf(pairs), s);
  }
}
