/**
 The "set" command of gnmi_ctl: tokens from the command line become the path of an
 interface node and then one request per parameter.
 */
module GnmiCtl {
  import opened Wrappers
  import opened KeyValue

  // The default values of the command's flags.
  const ROOT_NODE := "/interfaces/"
  const DEVICE_KEY := "device"
  const VIRTUAL_INTERFACE := "virtual-interface"
  const NAME_KEY := "name"
  const SUBTREE_CONFIG := "config"

  /** A set request: the path text and the value text. */
  type Request = (string, string)

  // ---------- on tokens ----------

  /** The outcome of extract_interface_node, with the tokens it leaves. */
  datatype Node = Node(failed: bool, path: string, vhost: bool, rest: seq<Token>)

  /** What one token does to the node: the path, the number of parts found, and whether it is refused. */
  datatype Progress = Progress(failed: bool, path: string, found: nat, vhost: bool)

  function NoteToken(token: Token, path: string, found: nat, vhost: bool): Progress {
    var (key, value) := token;
    var isDevice, isName, isVirtual := key == DEVICE_KEY, key == NAME_KEY, value == "virtual-device";
    var path1 := if isDevice then path + VIRTUAL_INTERFACE else path;
    if isDevice && !isVirtual && value != "physical-device" then Progress(true, path1, found, vhost)
    else Progress(false, if isName then path1 + "[name=" + value + "]/" else path1,
                  found + (if isDevice then 1 else 0) + (if isName then 1 else 0), vhost || (isDevice && isVirtual))
  }

  function ExtractNode(tokens: seq<Token>, found: nat, path: string, vhost: bool): Node
  {
    if tokens == [] then Node(true, path, vhost, [])
    else
      var p := NoteToken(tokens[0], path, found, vhost);
      if p.failed || p.found == 2 then Node(p.failed, p.path, p.vhost, tokens[1..])
      else ExtractNode(tokens[1..], p.found, p.path, p.vhost)
  }

  /** A link parameter of a virtual device is of type vhost. */
  function ConfigValue(value: string, vhost: bool): string {
    if vhost && (value == "link" || value == "LINK") then "vhost" else value
  }

  /** The requests of the set loop: until the tokens end or one is wholly empty. */
  function SetRequests(tokens: seq<Token>, base: string, vhost: bool): seq<Request> {
    if tokens == [] || tokens[0] == ("", "") then []
    else [(base + SUBTREE_CONFIG + "/" + tokens[0].0, ConfigValue(tokens[0].1, vhost))]
         + SetRequests(tokens[1..], base, vhost)
  }

  // ---------- the programs ----------

  /** One call of the tokenizer, seen as taking the first token. */
  lemma {:induction false} TakesFirst(s: seq<char>, p: nat)
    requires Terminated(s, p)
    ensures var r := Call(s, p);
            && Terminated(r.buffer, r.pos) && |r.buffer| == |s|
            && (r.key.None? ==> Tokens(s, p) == [] && Tokens(r.buffer, r.pos) == [])
            && (r.key.Some? ==>
                  && r.value.Some? && r.key.value <= |s| && r.value.value <= |s| && p < r.pos
                  && Tokens(s, p) == [(CStr(r.buffer, r.key.value), CStr(r.buffer, r.value.value))]
                                     + Tokens(r.buffer, r.pos))
  {
    if NextCut(s, p).Some? {
      CallCuts(s, p);
    } else {
      CallEnds(s, p);
      CutBounds(s, Call(s, p).pos);
    }
  }

  /** The body of the extraction loop, for one key and value. */
  method NoteKeyValue(key: string, value: string, path: string, found: nat, vhost: bool) returns (p: Progress)
    ensures p == NoteToken((key, value), path, found, vhost)
  {
    var nodePath, foundNode, vhostDev := path, found, vhost;
    if key == DEVICE_KEY {
      nodePath := nodePath + VIRTUAL_INTERFACE;
      if value != "virtual-device" && value != "physical-device" {
        return Progress(true, nodePath, foundNode, vhostDev);
      }
      if value == "virtual-device" {
        vhostDev := true;
      }
      foundNode := foundNode + 1;
    }
    if key == NAME_KEY {
      nodePath := nodePath + "[name=" + value + "]/";
      foundNode := foundNode + 1;
    }
    return Progress(false, nodePath, foundNode, vhostDev);
  }

  /** extract_interface_node: true means failure, as in the program. */
  method ExtractInterfaceNode(cursor: Cursor, root: string) returns (failed: bool, nodePath: string, vhostDev: bool)
    requires cursor.Valid()
    modifies cursor`pos, cursor.buffer
    ensures cursor.Valid()
    ensures Node(failed, nodePath, vhostDev, Tokens(cursor.buffer[..], cursor.pos))
            == ExtractNode(Tokens(old(cursor.buffer[..]), old(cursor.pos)), 0, root, false)
  {
    ghost var result := ExtractNode(Tokens(cursor.buffer[..], cursor.pos), 0, root, false);
    nodePath, vhostDev := root, false;
    var foundNode := 0;
    while true
      invariant cursor.Valid()
      invariant result == ExtractNode(Tokens(cursor.buffer[..], cursor.pos), foundNode, nodePath, vhostDev)
      decreases cursor.buffer.Length - cursor.pos
    {
      ghost var s, at := cursor.buffer[..], cursor.pos;
      TakesFirst(s, at);
      var found, keyAt, valueAt := cursor.ParseKeyValue();
      if !found {
        return true, nodePath, vhostDev;
      }
      var key, value := CStr(cursor.buffer[..], keyAt.value), CStr(cursor.buffer[..], valueAt.value);
      ExtractNodeFirst((key, value), Tokens(cursor.buffer[..], cursor.pos), foundNode, nodePath, vhostDev);
      var p := NoteKeyValue(key, value, nodePath, foundNode, vhostDev);
      nodePath, foundNode, vhostDev := p.path, p.found, p.vhost;
      if p.failed {
        return true, nodePath, vhostDev;
      }
      if foundNode == 2 {
        return false, nodePath, vhostDev;
      }
    }
  }

  lemma {:induction false} ExtractNodeFirst(token: Token, rest: seq<Token>, found: nat, path: string, vhost: bool)
    ensures ExtractNode([token] + rest, found, path, vhost) ==
            var p := NoteToken(token, path, found, vhost);
            if p.failed || p.found == 2 then Node(p.failed, p.path, p.vhost, rest)
            else ExtractNode(rest, p.found, p.path, p.vhost)
  {
    assert ([token] + rest)[1..] == rest;
  }

  /** traverse_params: one parameter, appended to the node path; flag turns false at the end. */
  method TraverseParams(cursor: Cursor, nodePath: string) returns (path: string, configValue: string, flag: bool)
    requires cursor.Valid()
    modifies cursor`pos, cursor.buffer
    ensures cursor.Valid() && (flag ==> cursor.pos > old(cursor.pos))
    ensures var tokens := Tokens(old(cursor.buffer[..]), old(cursor.pos));
            && flag == (tokens != [] && tokens[0] != ("", ""))
            && (flag ==> path == nodePath + SUBTREE_CONFIG + "/" + tokens[0].0 && configValue == tokens[0].1)
            && (flag ==> Tokens(cursor.buffer[..], cursor.pos) == tokens[1..])
            && (!flag ==> path == nodePath && configValue == "")
  {
    path, configValue, flag := nodePath, "", true;
    TakesFirst(cursor.buffer[..], cursor.pos);
    var found, keyAt, valueAt := cursor.ParseKeyValue();
    if found {
      var key, value := CStr(cursor.buffer[..], keyAt.value), CStr(cursor.buffer[..], valueAt.value);
      if value != "" {
        path := path + SUBTREE_CONFIG + "/" + key;
        configValue := value;
        return;
      } else if key != "" {
        path := path + SUBTREE_CONFIG + "/" + key;
        return;
      }
    }
    flag := false;
  }

  /** The loop of the set command. */
  method SetLoop(cursor: Cursor, base: string, vhostDevice: bool) returns (requests: seq<Request>)
    requires cursor.Valid()
    modifies cursor`pos, cursor.buffer
    ensures cursor.Valid()
    ensures requests == SetRequests(Tokens(old(cursor.buffer[..]), old(cursor.pos)), base, vhostDevice)
  {
    ghost var all := SetRequests(Tokens(cursor.buffer[..], cursor.pos), base, vhostDevice);
    requests := [];
    var params := true;
    while params
      invariant cursor.Valid()
      invariant params ==> requests + SetRequests(Tokens(cursor.buffer[..], cursor.pos), base, vhostDevice) == all
      invariant !params ==> requests == all
      decreases params, cursor.buffer.Length - cursor.pos
    {
      ghost var s, at := cursor.buffer[..], cursor.pos;
      SetRequestsFirst(Tokens(s, at), base, vhostDevice);
      var path1, configValue;
      path1, configValue, params := TraverseParams(cursor, base);
      ghost var value := configValue;
      if (configValue == "link" || configValue == "LINK") && vhostDevice {
        configValue := "vhost";
      }
      assert configValue == ConfigValue(value, vhostDevice);
      if params {
        requests := requests + [(path1, configValue)];
      }
    }
  }

  lemma {:induction false} SetRequestsFirst(tokens: seq<Token>, base: string, vhost: bool)
    ensures tokens == [] || tokens[0] == ("", "") ==> SetRequests(tokens, base, vhost) == []
    ensures tokens != [] && tokens[0] != ("", "") ==>
              forall sent: seq<Request> ::
                sent + SetRequests(tokens, base, vhost) ==
                sent + [(base + SUBTREE_CONFIG + "/" + tokens[0].0, ConfigValue(tokens[0].1, vhost))]
                + SetRequests(tokens[1..], base, vhost)
  {
  }

  /** The set command from the root node on. */
  method SetCommand(cursor: Cursor) returns (failed: bool, requests: seq<Request>)
    requires cursor.Valid()
    modifies cursor`pos, cursor.buffer
    ensures var node := ExtractNode(Tokens(old(cursor.buffer[..]), old(cursor.pos)), 0, ROOT_NODE, false);
            && failed == node.failed
            && requests == if failed then [] else SetRequests(node.rest, node.path, node.vhost)
  {
    var buffer, vhostDevice;
    requests := [];
    failed, buffer, vhostDevice := ExtractInterfaceNode(cursor, ROOT_NODE);
    if !failed {
      requests := SetLoop(cursor, buffer, vhostDevice);
    }
  }
}
