/**
 Which command lines the "set" command understands, and what it then asks for: an exact
 account over all token lists, and end to end from a printed line to the parsed paths.
 */
module GnmiSet {
  import opened Wrappers
  import opened KeyValue
  import opened KeyValueRoundTrip
  import opened Text
  import opened GnmiPath
  import opened GnmiCtl

  // ---------- every token list ----------

  /** Tokens that name a part of the node; all others are passed over until the node is complete. */
  predicate Telling(t: Token) { t.0 == "device" || t.0 == "name" }

  predicate Fits(t: Token) { t.0 == "device" ==> t.1 == "virtual-device" || t.1 == "physical-device" }

  predicate TellsVirtual(t: Token) { t.0 == "device" && t.1 == "virtual-device" }

  /** What a telling token adds to the node path. */
  function Piece(t: Token): string { if t.0 == "device" then "virtual-interface" else "[name=" + t.1 + "]/" }

  /** The first two telling tokens are at i and j, and neither is refused. */
  ghost predicate TwoParts(tokens: seq<Token>, i: int, j: int) {
    && 0 <= i < j < |tokens| && Telling(tokens[i]) && Telling(tokens[j]) && Fits(tokens[i]) && Fits(tokens[j])
    && forall k :: 0 <= k < j && k != i ==> !Telling(tokens[k])
  }

  /** The first telling token at or after p. */
  function FirstTelling(tokens: seq<Token>, p: nat): (k: nat)
    requires p <= |tokens|
    ensures p <= k <= |tokens| && (k < |tokens| ==> Telling(tokens[k]))
    ensures forall i :: p <= i < k ==> !Telling(tokens[i])
    decreases |tokens| - p
  {
    if p == |tokens| || Telling(tokens[p]) then p else FirstTelling(tokens, p + 1)
  }

  lemma {:induction false} TokenStep(tokens: seq<Token>, k: nat, found: nat, path: string, vhost: bool)
    requires k < |tokens|
    ensures ExtractNode(tokens[k..], found, path, vhost) ==
            var p := NoteToken(tokens[k], path, found, vhost);
            if p.failed || p.found == 2 then Node(p.failed, p.path, p.vhost, tokens[k + 1..])
            else ExtractNode(tokens[k + 1..], p.found, p.path, p.vhost)
  {
    assert tokens[k..] == [tokens[k]] + tokens[k + 1..];
    ExtractNodeFirst(tokens[k], tokens[k + 1..], found, path, vhost);
  }

  lemma {:induction false} SkipsToTelling(tokens: seq<Token>, p: nat, found: nat, path: string, vhost: bool)
    requires p <= |tokens| && found < 2
    ensures var k := FirstTelling(tokens, p);
            ExtractNode(tokens[p..], found, path, vhost) == ExtractNode(tokens[k..], found, path, vhost)
    decreases |tokens| - p
  {
    if p < |tokens| && !Telling(tokens[p]) {
      TokenStep(tokens, p, found, path, vhost);
      SkipsToTelling(tokens, p + 1, found, path, vhost);
    }
  }

  lemma NotePiece(t: Token, path: string, found: nat, vhost: bool)
    requires Telling(t)
    ensures NoteToken(t, path, found, vhost).failed <==> !Fits(t)
    ensures Fits(t) ==> NoteToken(t, path, found, vhost)
                        == Progress(false, path + Piece(t), found + 1, vhost || TellsVirtual(t))
  {
    Assoc(path, "[name=" + t.1, "]/");
    Assoc(path, "[name=", t.1);
  }

  /** From p on: refused without a fitting telling token, otherwise one part further. */
  lemma OnePart(tokens: seq<Token>, p: nat, found: nat, path: string, vhost: bool)
    requires p <= |tokens| && found < 2
    ensures var k, r := FirstTelling(tokens, p), ExtractNode(tokens[p..], found, path, vhost);
            && (k == |tokens| || !Fits(tokens[k]) ==> r.failed)
            && (k < |tokens| && Fits(tokens[k]) ==>
                  var path1, vhost1 := path + Piece(tokens[k]), vhost || TellsVirtual(tokens[k]);
                  r == if found == 1 then Node(false, path1, vhost1, tokens[k + 1..])
                       else ExtractNode(tokens[k + 1..], 1, path1, vhost1))
  {
    var k := FirstTelling(tokens, p);
    SkipsToTelling(tokens, p, found, path, vhost);
    if k < |tokens| {
      TokenStep(tokens, k, found, path, vhost);
      NotePiece(tokens[k], path, found, vhost);
    } else {
      assert tokens[k..] == [];
    }
  }

  /**
   The extraction succeeds exactly on the lists whose first two telling tokens fit, and
   then the path is the root and their two pieces in the order they came.
   */
  lemma {:induction false} ExtractsExactly(tokens: seq<Token>)
    ensures var r := ExtractNode(tokens, 0, "/interfaces/", false);
            && (!r.failed <==> exists i, j :: TwoParts(tokens, i, j))
            && (forall i, j :: TwoParts(tokens, i, j) ==> r == NodeOf(tokens, i, j))
  {
    forall i, j | TwoParts(tokens, i, j)
      ensures ExtractNode(tokens, 0, "/interfaces/", false) == NodeOf(tokens, i, j)
    {
      ExtractsTwoParts(tokens, i, j);
    }
    if forall i, j :: !TwoParts(tokens, i, j) {
      NothingExtracted(tokens);
    }
  }

  /** The node that two parts make, and the tokens they leave. */
  function NodeOf(tokens: seq<Token>, i: nat, j: nat): Node
    requires i < |tokens| && j < |tokens|
  {
    Node(false, "/interfaces/" + Piece(tokens[i]) + Piece(tokens[j]),
         TellsVirtual(tokens[i]) || TellsVirtual(tokens[j]), tokens[j + 1..])
  }

  lemma {:induction false} ExtractsTwoParts(tokens: seq<Token>, i: nat, j: nat)
    requires TwoParts(tokens, i, j)
    ensures ExtractNode(tokens, 0, "/interfaces/", false) == NodeOf(tokens, i, j)
  {
    TwoPartsFirst(tokens, i, j);
    FirstPart(tokens, i, "/interfaces/");
    ExtractsSecond(tokens, i, j, "/interfaces/" + Piece(tokens[i]), TellsVirtual(tokens[i]));
  }

  lemma {:induction false} NothingExtracted(tokens: seq<Token>)
    requires forall i, j :: !TwoParts(tokens, i, j)
    ensures ExtractNode(tokens, 0, "/interfaces/", false).failed
  {
    var a := FirstTelling(tokens, 0);
    FirstPart(tokens, a, "/interfaces/");
    if a < |tokens| && Fits(tokens[a]) {
      var b := FirstTelling(tokens, a + 1);
      ExtractsSecond(tokens, a, b, "/interfaces/" + Piece(tokens[a]), TellsVirtual(tokens[a]));
      if b < |tokens| && Fits(tokens[b]) {
        FirstTwo(tokens, a, b);
      }
    }
  }

  lemma {:induction false} FirstPart(tokens: seq<Token>, a: nat, path: string)
    requires a == FirstTelling(tokens, 0)
    ensures var r := ExtractNode(tokens, 0, path, false);
            && (a == |tokens| || !Fits(tokens[a]) ==> r.failed)
            && (a < |tokens| && Fits(tokens[a]) ==>
                  r == ExtractNode(tokens[a + 1..], 1, path + Piece(tokens[a]), TellsVirtual(tokens[a])))
  {
    assert tokens[0..] == tokens;
    OnePart(tokens, 0, 0, path, false);
  }

  lemma ExtractsSecond(tokens: seq<Token>, a: nat, b: nat, path: string, vhost: bool)
    requires a < |tokens| && b == FirstTelling(tokens, a + 1)
    ensures var r := ExtractNode(tokens[a + 1..], 1, path, vhost);
            && (r.failed <==> b == |tokens| || !Fits(tokens[b]))
            && (!r.failed ==>
                  r == Node(false, path + Piece(tokens[b]), vhost || TellsVirtual(tokens[b]), tokens[b + 1..]))
  {
    OnePart(tokens, a + 1, 1, path, vhost);
  }

  lemma {:induction false} FirstTwo(tokens: seq<Token>, a: nat, b: nat)
    requires a == FirstTelling(tokens, 0) < |tokens| && b == FirstTelling(tokens, a + 1) < |tokens|
    requires Fits(tokens[a]) && Fits(tokens[b])
    ensures TwoParts(tokens, a, b)
  {
  }

  lemma {:induction false} TwoPartsFirst(tokens: seq<Token>, i: int, j: int)
    requires TwoParts(tokens, i, j)
    ensures i == FirstTelling(tokens, 0) && j == FirstTelling(tokens, i + 1)
  {
    var a := FirstTelling(tokens, 0);
    assert !(a < i) && !(i < a);
    var b := FirstTelling(tokens, i + 1);
    assert !(b < j) && !(j < b);
  }

  // ---------- the intended path ----------

  function NodePath(name: string): string { "/interfaces/virtual-interface[name=" + name + "]/" }

  lemma NodePathParts(name: string)
    ensures NodePath(name) == "/interfaces/" + "virtual-interface" + "[name=" + name + "]/"
  {
    assert "/interfaces/" + "virtual-interface" + "[name=" == "/interfaces/virtual-interface[name=";
  }

  /** A device token, then a name token, with no other telling token before, between or in their place. */
  ghost predicate DeviceThenName(tokens: seq<Token>, d: int, n: int, name: string) {
    TwoParts(tokens, d, n) && tokens[d].0 == "device" && tokens[n] == ("name", name)
  }

  /** The pieces give the intended path only in this order. */
  lemma PiecesInOrder(a: Token, b: Token, name: string)
    requires Telling(a) && Telling(b)
    ensures "/interfaces/" + Piece(a) + Piece(b) == NodePath(name) <==> a.0 == "device" && b == ("name", name)
  {
    var path, r, v := "/interfaces/" + Piece(a) + Piece(b), |"/interfaces/"|, |"virtual-interface"|;
    NodePathParts(name);
    assert NodePath(name)[r] == 'v' && NodePath(name)[r + v] == '[';
    if a.0 == "device" {
      assert path[r + v] == Piece(b)[0];
      if b.0 == "name" {
        SameName("/interfaces/" + "virtual-interface", b.1, name);
      }
    } else {
      assert path[r] == Piece(a)[0] == '[';
    }
  }

  lemma SameName(front: string, a: string, b: string)
    ensures front + ("[name=" + a + "]/") == front + "[name=" + b + "]/" <==> a == b
  {
    var s, t := front + ("[name=" + a + "]/"), front + "[name=" + b + "]/";
    var k := |front| + 6;
    assert s[k..|s| - 2] == a && t[k..|t| - 2] == b;
    if a == b {
      assert s == t;
    }
  }

  /**
   Over every token list: the node is the intended one exactly if a device token comes
   before a name token and these two are the first of their kind.
   */
  lemma {:induction false} NodeExactly(tokens: seq<Token>, name: string)
    ensures var r := ExtractNode(tokens, 0, "/interfaces/", false);
            !r.failed && r.path == NodePath(name) <==> exists d, n :: DeviceThenName(tokens, d, n, name)
  {
    var r := ExtractNode(tokens, 0, "/interfaces/", false);
    ExtractsExactly(tokens);
    if !r.failed {
      var i, j :| TwoParts(tokens, i, j);
      PiecesInOrder(tokens[i], tokens[j], name);
      if r.path == NodePath(name) {
        assert DeviceThenName(tokens, i, j, name);
      }
    }
    if exists d, n :: DeviceThenName(tokens, d, n, name) {
      var d, n :| DeviceThenName(tokens, d, n, name);
      PiecesInOrder(tokens[d], tokens[n], name);
    }
  }

  lemma {:induction false} ExtractsNode(tokens: seq<Token>, d: int, n: int, name: string)
    requires DeviceThenName(tokens, d, n, name)
    ensures ExtractNode(tokens, 0, "/interfaces/", false)
            == Node(false, NodePath(name), tokens[d].1 == "virtual-device", tokens[n + 1..])
  {
    ExtractsExactly(tokens);
    PiecesInOrder(tokens[d], tokens[n], name);
  }

  /** The name before the device is accepted, and makes a path that is nobody's node. */
  lemma {:induction false} NameBeforeDevice(tokens: seq<Token>, n: int, d: int)
    requires TwoParts(tokens, n, d) && tokens[n].0 == "name" && tokens[d].0 == "device"
    ensures var r := ExtractNode(tokens, 0, "/interfaces/", false);
            && !r.failed && r.path == "/interfaces/" + ("[name=" + tokens[n].1 + "]/") + "virtual-interface"
            && forall name: string :: r.path != NodePath(name)
  {
    ExtractsExactly(tokens);
    forall name: string ensures "/interfaces/" + Piece(tokens[n]) + Piece(tokens[d]) != NodePath(name) {
      PiecesInOrder(tokens[n], tokens[d], name);
    }
  }

  // ---------- the requests ----------

  const EMPTY_TOKEN: Token := ("", "")

  /** The position of the first wholly empty token, or the length. */
  function FirstEmpty(tokens: seq<Token>): (k: nat)
    ensures k <= |tokens| && (k < |tokens| ==> tokens[k] == EMPTY_TOKEN)
    ensures forall i :: 0 <= i < k ==> tokens[i] != EMPTY_TOKEN
  {
    if tokens == [] || tokens[0] == EMPTY_TOKEN then 0 else 1 + FirstEmpty(tokens[1..])
  }

  /** The value asked for: on a virtual device a link is of type vhost. */
  function ValueOn(value: string, virtual: bool): string {
    if virtual && value in {"link", "LINK"} then "vhost" else value
  }

  function RequestFor(t: Token, base: string, vhost: bool): Request {
    (base + "config/" + t.0, ValueOn(t.1, vhost))
  }

  /**
   Over every token list: one request for each token before the first wholly empty one,
   which silently ends the loop and drops whatever comes behind it.
   */
  lemma {:induction false} RequestsExactly(tokens: seq<Token>, base: string, vhost: bool)
    ensures var requests := SetRequests(tokens, base, vhost);
            && |requests| == FirstEmpty(tokens)
            && forall i :: 0 <= i < |requests| ==> requests[i] == RequestFor(tokens[i], base, vhost)
    ensures |SetRequests(tokens, base, vhost)| == |tokens| <==> EMPTY_TOKEN !in tokens
  {
    if tokens != [] && tokens[0] != EMPTY_TOKEN {
      RequestsExactly(tokens[1..], base, vhost);
      Assoc(base, "config", "/");
      assert "config" + "/" == "config/";
      assert tokens == [tokens[0]] + tokens[1..];
    }
  }

  /** Such a token comes from a lone delimiter, as in "=,key:value": from there on no request is made. */
  lemma {:induction false} LoneDelimiterStops(s: seq<char>, p: nat, base: string, vhost: bool)
    requires Terminated(s, p) && s[p] in {':', '='} && p + 1 < |s| && (s[p + 1] == '\0' || IsSeparator(s[p + 1]))
    ensures Tokens(s, p) != [] && Tokens(s, p)[0] == EMPTY_TOKEN && SetRequests(Tokens(s, p), base, vhost) == []
  {
    assert SpanEnd(s, p, SEPARATORS) == p && CSpanEnd(s, p, KEY_STOPS) == p;
    KeyFoundCut(s, p, p, p);
    assert s[p..p] == "" && s[p + 1..p + 1] == "";
    assert ValueEnd(s, p + 1, s[p]) == p + 1;
    TokensCut(s, p);
  }

  lemma {:induction false} OneRequestEach(items: seq<Item>, base: string, vhost: bool)
    requires WellFormedItems(items)
    ensures var requests := SetRequests(TokensFor(items), base, vhost);
            && |requests| == |items|
            && forall i :: 0 <= i < |items| ==>
                 requests[i] == RequestFor((items[i].key, TokenFor(items[i]).1), base, vhost)
  {
    RequestsExactly(TokensFor(items), base, vhost);
    forall i | 0 <= i < |items| ensures TokensFor(items)[i] == TokenFor(items[i]) != EMPTY_TOKEN {
      TokensAt(items, i);
      assert WellFormedItem(items[i]);
    }
  }

  function InterfaceStep(name: string): Step { Step("virtual-interface", Some(("name", name))) }

  /** The steps that a request's path is meant to name. */
  function RequestSteps(name: string, key: string): seq<Step> {
    [Step("interfaces", None), InterfaceStep(name), Step("config", None), Step(key, None)]
  }

  /** The request's path as text, and as the elements it should be read as. */
  function RequestPath(name: string, key: string): string {
    "/interfaces/virtual-interface[name=" + name + "]/config/" + key
  }

  function RequestElems(name: string, key: string): seq<PathElem> {
    [PathElem("interfaces", map[]), PathElem("virtual-interface", map["name" := name]),
     PathElem("config", map[]), PathElem(key, map[])]
  }

  lemma RequestPathParts(name: string, key: string)
    ensures RequestPath(name, key) == NodePath(name) + "config/" + key
  {
    Assoc("/interfaces/virtual-interface[name=" + name, "]/", "config/");
    assert "]/" + "config/" == "]/config/";
  }

  lemma RequestPathPrinted(name: string, key: string)
    ensures RequestPath(name, key) == Print(RequestSteps(name, key))
  {
    var a, b, c, d := Step("interfaces", None), InterfaceStep(name), Step("config", None), Step(key, None);
    PrintFour(a, b, c, d);
    StepTexts(name, key);
    Regroup("/interfaces", "/", "virtual-interface", "[name=" + name, "]", "config", key);
    FixedParts(name);
    Assoc(NodePath(name), "config", "/");
    RequestPathParts(name, key);
  }

  lemma FixedParts(name: string)
    ensures "/interfaces" + "/" + "virtual-interface" + ("[name=" + name) + ("]" + "/") == NodePath(name)
    ensures "config" + "/" == "config/"
  {
    Assoc("/interfaces" + "/" + "virtual-interface", "[name=", name);
    assert "/interfaces" + "/" + "virtual-interface" + "[name=" == "/interfaces/virtual-interface[name=";
    assert "]" + "/" == "]/";
  }

  lemma StepTexts(name: string, key: string)
    ensures PrintStep(Step("interfaces", None)) == "/interfaces"
    ensures PrintStep(InterfaceStep(name)) == "/" + "virtual-interface" + ("[name=" + name + "]")
    ensures PrintStep(Step("config", None)) == "/" + "config"
    ensures PrintStep(Step(key, None)) == "/" + key
  {
    assert "[" + "name" + "=" == "[name=";
    assert "/" + "interfaces" + "" == "/interfaces";
  }

  /** Slashes may be read as ending one step or as beginning the next. */
  lemma Regroup(r: string, slash: string, v: string, kv: string, close: string, c: string, k: string)
    ensures (((r + slash) + v + kv) + (close + slash)) + c + slash + k
            == r + ((slash + v + (kv + close)) + ((slash + c) + (slash + k)))
  {
    Assoc(((r + slash) + v + kv) + (close + slash) + c, slash, k);
    Assoc(((r + slash) + v + kv) + (close + slash), c, slash + k);
    Assoc(((r + slash) + v + kv) + close, slash, c + (slash + k));
    Assoc((r + slash) + v + kv, close, slash);
    Assoc(slash, c, slash + k);
    Assoc((r + slash) + v, kv, close);
    Assoc(r + slash, v, kv + close);
    Assoc(r, slash, v + (kv + close));
    Assoc(slash, v, kv + close);
    Assoc(r, slash + v + (kv + close), (slash + c) + (slash + k));
  }

  lemma Assoc(a: string, b: string, c: string)
    ensures (a + b) + c == a + (b + c)
  {
  }

  lemma PrintFour(a: Step, b: Step, c: Step, d: Step)
    ensures Print([a, b, c, d]) == PrintStep(a) + (PrintStep(b) + (PrintStep(c) + PrintStep(d)))
  {
    assert [a, b, c, d][1..] == [b, c, d] && [b, c, d][1..] == [c, d] && [c, d][1..] == [d] && [d][1..] == [];
    assert Print([d]) == PrintStep(d);
    assert Print([c, d]) == PrintStep(c) + PrintStep(d);
    assert Print([b, c, d]) == PrintStep(b) + (PrintStep(c) + PrintStep(d));
  }

  ghost predicate ReadsGoodStep(elem: PathElem) { exists e :: GoodStep(e) && ToElem(e) == elem }

  /** Whatever the search finds, its elements are readings of well-formed steps. */
  lemma {:induction false} SearchedAreGood(s: string, p: nat)
    requires p <= |s|
    ensures forall i :: 0 <= i < |Searched(s, p)| ==> ReadsGoodStep(Searched(s, p)[i])
    decreases |s| - p
  {
    MatchBounds(s, p);
    if p < |s| {
      if MatchAt(s, p).None? {
        SearchedAreGood(s, p + 1);
      } else {
        var m := MatchAt(s, p).value;
        MatchPrintsBack(s, p);
        SearchedAreGood(s, m.end);
        assert ReadsGoodStep(ElemAt(s, p, m)) by {
          assert GoodStep(StepAt(s, p, m)) && ToElem(StepAt(s, p, m)) == ElemAt(s, p, m);
        }
        assert Searched(s, p) == [ElemAt(s, p, m)] + Searched(s, m.end);
      }
    }
  }

  predicate PlainName(name: string) { name != "" && ']' !in name }

  predicate PlainKey(key: string) { key != "" && '/' !in key && '[' !in key }

  lemma GoodRequestSteps(name: string, key: string)
    requires PlainName(name) && PlainKey(key)
    ensures GoodSteps(RequestSteps(name, key))
  {
    FixedNamesGood();
    GoodFour(Step("interfaces", None), InterfaceStep(name), Step("config", None),
             Step(key, None));
  }

  predicate NameChars(text: string) { '/' !in text && '[' !in text }

  lemma FixedNamesGood()
    ensures NameChars("interfaces") && NameChars("virtual-interface") && NameChars("config")
    ensures '=' !in "name"
  {
  }

  lemma GoodFour(a: Step, b: Step, c: Step, d: Step)
    requires forall e :: e in {a, b, c, d} ==> e.name != "" && NameChars(e.name)
    requires a.key.None? && c.key.None? && d.key.None?
    requires b.key.Some? && b.key.value.0 != "" && '=' !in b.key.value.0 && PlainName(b.key.value.1)
    ensures GoodSteps([a, b, c, d])
  {
    assert GoodStep(a) && GoodStep(b) && GoodStep(c) && GoodStep(d);
  }

  lemma OneKey(e: Step, name: string)
    requires ToElem(e) == ToElem(InterfaceStep(name))
    ensures e == InterfaceStep(name)
  {
    var keys: map<string, string> := map["name" := name];
    assert ToElem(e).keys == keys;
    assert "name" in ToElem(e).keys && ToElem(e).keys["name"] == name;
  }

  lemma NoKey(e: Step, key: string)
    requires ToElem(e) == ToElem(Step(key, None))
    ensures e.name == key
  {
  }

  /** The program's own parser reads a request's path as intended exactly for plain names and keys. */
  lemma RequestPathRead(name: string, key: string)
    ensures Searched(RequestPath(name, key), 0) == RequestElems(name, key)
            <==> PlainName(name) && PlainKey(key)
  {
    var steps, path := RequestSteps(name, key), RequestPath(name, key);
    RequestPathPrinted(name, key);
    ElemsOfFour(steps[0], steps[1], steps[2], steps[3]);
    if PlainName(name) && PlainKey(key) {
      GoodRequestSteps(name, key);
      ParseInvertsPrint(steps);
    }
    if Searched(path, 0) == ToElems(steps) {
      SearchedAreGood(path, 0);
      PlainIfRead(ToElems(steps), name, key);
    }
  }

  lemma PlainIfRead(elems: seq<PathElem>, name: string, key: string)
    requires |elems| == 4 && forall i :: 0 <= i < 4 ==> ReadsGoodStep(elems[i])
    requires elems[1] == ToElem(InterfaceStep(name)) && elems[3] == ToElem(Step(key, None))
    ensures PlainName(name) && PlainKey(key)
  {
    assert ReadsGoodStep(elems[1]) && ReadsGoodStep(elems[3]);
    var a :| GoodStep(a) && ToElem(a) == elems[1];
    var b :| GoodStep(b) && ToElem(b) == elems[3];
    OneKey(a, name);
    NoKey(b, key);
    PlainIfGood(name, key, b);
  }

  lemma PlainIfGood(name: string, key: string, b: Step)
    requires GoodStep(InterfaceStep(name)) && GoodStep(b) && b.name == key
    ensures PlainName(name) && PlainKey(key)
  {
  }

  lemma ElemsOfFour(a: Step, b: Step, c: Step, d: Step)
    ensures ToElems([a, b, c, d]) == [ToElem(a), ToElem(b), ToElem(c), ToElem(d)]
  {
    assert [a, b, c, d][1..] == [b, c, d] && [b, c, d][1..] == [c, d] && [c, d][1..] == [d] && [d][1..] == [];
    assert ToElems([d]) == [ToElem(d)];
    assert ToElems([c, d]) == [ToElem(c), ToElem(d)];
  }

  // ---------- end to end ----------

  predicate IsDevice(item: Item) {
    item.key == "device" && TokenFor(item).1 in {"virtual-device", "physical-device"}
  }

  /** A printed command line whose device is at d and whose name is at n, with no other device or name before it. */
  ghost predicate SetLine(items: seq<Item>, d: int, n: int) {
    && WellFormedItems(items) && 0 <= d < n < |items| && IsDevice(items[d]) && items[n].key == "name"
    && forall k :: 0 <= k < n && k != d ==> items[k].key != "device" && items[k].key != "name"
  }

  lemma {:induction false} TokensAt(items: seq<Item>, k: nat)
    requires k <= |items|
    ensures TokensFor(items)[k..] == TokensFor(items[k..])
    ensures k < |items| ==> TokensFor(items)[k] == TokenFor(items[k])
  {
    if k == 0 {
      assert items[0..] == items;
    } else {
      TokensAt(items[1..], k - 1);
      assert items[1..][k - 1..] == items[k..];
      assert TokensFor(items)[k..] == TokensFor(items[1..])[k - 1..];
    }
  }

  /** The two items give the tokens that the extraction looks for. */
  lemma {:induction false} LineTells(items: seq<Item>, d: nat, n: nat)
    requires SetLine(items, d, n)
    ensures DeviceThenName(TokensFor(items), d, n, TokenFor(items[n]).1)
  {
    forall k | 0 <= k < |items| ensures TokensFor(items)[k] == TokenFor(items[k]) {
      TokensAt(items, k);
    }
  }

  /**
   End to end: a printed command line with a device before a name makes one request per
   item behind the name, in order; and its path, as build_gnmi_path reads it, is
   /interfaces, /virtual-interface[name=...], /config, /key exactly for plain names and keys.
   */
  lemma {:induction false} SetLineRequests(items: seq<Item>, s: seq<char>, d: nat, n: nat)
    requires SetLine(items, d, n) && RenderAll(items) + ['\0'] <= s
    ensures Terminated(s, 0)
    ensures var node := ExtractNode(Tokens(s, 0), 0, "/interfaces/", false);
            !node.failed && Asked(SetRequests(node.rest, node.path, node.vhost), items, d, n)
  {
    RoundTrip(items, s);
    LineAsks(items, d, n);
  }

  lemma {:induction false} LineAsks(items: seq<Item>, d: nat, n: nat)
    requires SetLine(items, d, n)
    ensures var node := ExtractNode(TokensFor(items), 0, "/interfaces/", false);
            !node.failed && Asked(SetRequests(node.rest, node.path, node.vhost), items, d, n)
  {
    var name, vhost := TokenFor(items[n]).1, TokenFor(items[d]).1 == "virtual-device";
    var node := ExtractNode(TokensFor(items), 0, "/interfaces/", false);
    assert node == Node(false, NodePath(name), vhost, TokensFor(items[n + 1..])) by {
      LineTells(items, d, n);
      LineNode(items, d, n, name);
    }
    RestAsks(items, d, n, NodePath(name), vhost);
  }

  lemma {:induction false} LineNode(items: seq<Item>, d: nat, n: nat, name: string)
    requires d < |items| && n < |items| && DeviceThenName(TokensFor(items), d, n, name)
    ensures ExtractNode(TokensFor(items), 0, "/interfaces/", false)
            == Node(false, NodePath(name), TokenFor(items[d]).1 == "virtual-device", TokensFor(items[n + 1..]))
  {
    TokensAt(items, n + 1);
    TokensAt(items, d);
    NodeExtracted(TokensFor(items), d, n, name, TokenFor(items[d]), TokensFor(items[n + 1..]));
  }

  lemma {:induction false} NodeExtracted(
    tokens: seq<Token>, d: nat, n: nat, name: string, device: Token, rest: seq<Token>)
    requires DeviceThenName(tokens, d, n, name) && tokens[d] == device && tokens[n + 1..] == rest
    ensures ExtractNode(tokens, 0, "/interfaces/", false)
            == Node(false, NodePath(name), device.1 == "virtual-device", rest)
  {
    ExtractsNode(tokens, d, n, name);
  }

  lemma RestAsks(items: seq<Item>, d: nat, n: nat, base: string, vhost: bool)
    requires WellFormedItems(items) && d < n < |items|
    requires base == NodePath(TokenFor(items[n]).1) && vhost == (TokenFor(items[d]).1 == "virtual-device")
    ensures Asked(SetRequests(TokensFor(items[n + 1..]), base, vhost), items, d, n)
  {
    WellFormedRest(items, n + 1);
    OneRequestEach(items[n + 1..], base, vhost);
    AskedByEach(SetRequests(TokensFor(items[n + 1..]), base, vhost), items, d, n);
  }

  lemma WellFormedRest(items: seq<Item>, k: nat)
    requires WellFormedItems(items) && k <= |items|
    ensures WellFormedItems(items[k..])
  {
    var rest := items[k..];
    forall i | 0 <= i < |rest| - 1 ensures MayPrecede(rest[i], rest[i + 1]) {
      assert rest[i] == items[k + i] && rest[i + 1] == items[k + i + 1];
      assert MayPrecede(items[k + i], items[k + i + 1]);
    }
  }

  /**
   The request of the k-th item: the path with the name's value and the item's own key;
   "vhost" for a link of a virtual device and the item's own value otherwise; and the path
   is read back as its four elements exactly for plain names and keys.
   */
  ghost predicate AskedAt(request: Request, items: seq<Item>, d: nat, n: nat, k: nat)
    requires d < n < |items| && k < |items|
  {
    var name, key, value := TokenFor(items[n]).1, items[k].key, TokenFor(items[k]).1;
    && request.0 == "/interfaces/virtual-interface[name=" + name + "]/config/" + key
    && (TokenFor(items[d]).1 == "virtual-device" && (value == "link" || value == "LINK") ==> request.1 == "vhost")
    && (TokenFor(items[d]).1 != "virtual-device" || (value != "link" && value != "LINK") ==> request.1 == value)
    && (Searched(request.0, 0) == RequestElems(name, key) <==> PlainName(name) && PlainKey(key))
  }

  /** The requests of a line: one for each item behind the name. */
  ghost predicate Asked(requests: seq<Request>, items: seq<Item>, d: nat, n: nat)
    requires d < n < |items|
  {
    && |requests| == |items| - n - 1
    && forall k :: 0 <= k < |requests| ==> AskedAt(requests[k], items, d, n, n + 1 + k)
  }

  lemma AskedByEach(requests: seq<Request>, items: seq<Item>, d: nat, n: nat)
    requires d < n < |items| && |requests| == |items| - n - 1
    requires var rest, base := items[n + 1..], NodePath(TokenFor(items[n]).1);
             var vhost := TokenFor(items[d]).1 == "virtual-device";
             forall k :: 0 <= k < |requests| ==>
               requests[k] == RequestFor((rest[k].key, TokenFor(rest[k]).1), base, vhost)
    ensures Asked(requests, items, d, n)
  {
    var name := TokenFor(items[n]).1;
    forall k | 0 <= k < |requests| ensures AskedAt(requests[k], items, d, n, n + 1 + k) {
      assert items[n + 1..][k] == items[n + 1 + k];
      RequestPathParts(name, items[n + 1 + k].key);
      RequestPathRead(name, items[n + 1 + k].key);
    }
  }

  /** The same for the program, from the buffer that holds the line to the requests it sends. */
  method SetPrintedLine(items: seq<Item>, buffer: array<char>, ghost d: nat, ghost n: nat)
    returns (failed: bool, requests: seq<Request>)
    requires SetLine(items, d, n) && RenderAll(items) + ['\0'] <= buffer[..]
    modifies buffer
    ensures !failed && Asked(requests, items, d, n)
  {
    SetLineRequests(items, buffer[..], d, n);
    var cursor := new Cursor(buffer);
    failed, requests := SetCommand(cursor);
  }
}
