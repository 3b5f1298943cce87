/**
 GetTxAccVsiPort: the port that tx_acc_vsi gives to a VSI, found by a nested search
 through a read response and folded into 32 bits.
 */
module TxAccVsi {
  import opened Bytes
  import opened P4Runtime
  import opened Wrappers
  import opened Encoders
  import opened Written

  datatype PortResult = PortOk(port: uint32) | PortFailed(error: Error)

  /** The parameters of an entity; one without an action has none. */
  function EntityParams(e: Entry): seq<Param> {
    if e.action.Some? then e.action.value.params else []
  }

  /** All parameters of a response, in entity-then-parameter order. */
  function AllParams(entities: seq<Entry>): seq<Param> {
    if entities == [] then [] else EntityParams(entities[0]) + AllParams(entities[1..])
  }

  ghost predicate FirstWithId(params: seq<Param>, id: ParamId, i: int) {
    && 0 <= i < |params| && params[i].id == id
    && forall j :: 0 <= j < i ==> params[j].id != id
  }

  /** What a response of any shape means. */
  function PortOf(entities: seq<Entry>, id: ParamId): PortResult {
    match ParamValue(AllParams(entities), id)
    case None => PortFailed(Internal)
    case Some(v) => PortOk(BigEndian(v) % 0x1_0000_0000)
  }

  lemma {:induction false} ParamValueFirst(params: seq<Param>, id: ParamId)
    ensures ParamValue(params, id).Some? <==> exists i :: FirstWithId(params, id, i)
    ensures forall i :: FirstWithId(params, id, i) ==> ParamValue(params, id) == Some(params[i].value)
    ensures ParamValue(params, id).None? <==> forall i :: 0 <= i < |params| ==> params[i].id != id
  {
    if params != [] {
      ParamValueFirst(params[1..], id);
      if params[0].id == id {
        assert FirstWithId(params, id, 0);
      } else {
        forall i ensures FirstWithId(params, id, i) <==> i > 0 && FirstWithId(params[1..], id, i - 1) {
          ShiftFirst(params, id, i);
        }
        if ParamValue(params, id).Some? {
          var i :| FirstWithId(params[1..], id, i);
          assert FirstWithId(params, id, i + 1);
        }
      }
    }
  }

  lemma ShiftFirst(params: seq<Param>, id: ParamId, i: int)
    requires params != [] && params[0].id != id
    ensures FirstWithId(params, id, i) <==> i > 0 && FirstWithId(params[1..], id, i - 1)
  {
    if i > 0 && FirstWithId(params[1..], id, i - 1) {
      forall j | 0 <= j < i ensures params[j].id != id {
        assert j > 0 ==> params[1..][j - 1] == params[j];
      }
    }
  }

  /** Shifting a 32-bit accumulator and or-ing in a byte is arithmetic mod 2^32. */
  lemma FoldStep(x: nat, b: byte)
    ensures ((x % 0x1_0000_0000) * 256) % 0x1_0000_0000 + b == (x * 256 + b) % 0x1_0000_0000
  {
    var h, q := x % 0x1_0000_0000, x / 0x1_0000_0000;
    var h2, q2 := (h * 256) % 0x1_0000_0000, (h * 256) / 0x1_0000_0000;
    assert h2 % 256 == 0;
    assert x * 256 + b == (256 * q + q2) * 0x1_0000_0000 + (h2 + b);
  }

  /** The loop over the bytes of the matching parameter. */
  method FoldBytes(val: seq<byte>) returns (hostSp: uint32)
    ensures hostSp == BigEndian(val) % 0x1_0000_0000
  {
    hostSp := 0;
    for k := 0 to |val|
      invariant hostSp == BigEndian(val[..k]) % 0x1_0000_0000
    {
      FoldStep(BigEndian(val[..k]), val[k]);
      assert val[..k + 1][..k] == val[..k];
      hostSp := (hostSp * 256) % 0x1_0000_0000 + val[k];
    }
    assert val[..|val|] == val;
  }

  /** The search over entities and, inside it, over the parameters of each. */
  method FindPort(entities: seq<Entry>, paramId: ParamId) returns (r: PortResult)
    ensures r == PortOf(entities, paramId)
    ensures r.PortOk? <==> exists i :: FirstWithId(AllParams(entities), paramId, i)
    ensures forall i :: FirstWithId(AllParams(entities), paramId, i) ==>
                          r == PortOk(BigEndian(AllParams(entities)[i].value) % 0x1_0000_0000)
  {
    ParamValueFirst(AllParams(entities), paramId);
    for i := 0 to |entities|
      invariant ParamValue(AllParams(entities), paramId) == ParamValue(AllParams(entities[i..]), paramId)
    {
      var params := EntityParams(entities[i]);
      ghost var rest := AllParams(entities[i + 1..]);
      assert entities[i..][1..] == entities[i + 1..];
      assert params[0..] + rest == AllParams(entities[i..]);
      for j := 0 to |params|
        invariant ParamValue(AllParams(entities), paramId) == ParamValue(params[j..] + rest, paramId)
      {
        assert (params[j..] + rest)[1..] == params[j + 1..] + rest;
        if params[j].id == paramId {
          var hostSp := FoldBytes(params[j].value);
          return PortOk(hostSp);
        }
      }
      assert params[|params|..] + rest == rest;
    }
    return PortFailed(Internal);
  }

  lemma {:induction false} AllParamsAppend(a: seq<Entry>, b: seq<Entry>)
    ensures AllParams(a + b) == AllParams(a) + AllParams(b)
  {
    if a == [] {
      assert a + b == b;
    } else {
      assert (a + b)[1..] == a[1..] + b;
      AllParamsAppend(a[1..], b);
    }
  }

  lemma {:induction false} ParamValueAppend(a: seq<Param>, b: seq<Param>, id: ParamId)
    ensures ParamValue(a + b, id) == if ParamValue(a, id).Some? then ParamValue(a, id) else ParamValue(b, id)
  {
    if a == [] {
      assert a + b == b;
    } else {
      assert (a + b)[1..] == a[1..] + b;
      ParamValueAppend(a[1..], b, id);
    }
  }

  /** A response with one parameter named: entities around its entity, parameters around the parameter. */
  function Response(entities: seq<Entry>, e: Entry, action: ActionId, params: seq<Param>, param: Param,
                    more: seq<Param>, others: seq<Entry>): seq<Entry>
  {
    entities + [e.(action := Some(Action(action, params + [param] + more)))] + others
  }

  lemma {:induction false} ResponseParams(
    entities: seq<Entry>, e: Entry, action: ActionId, params: seq<Param>, param: Param,
    more: seq<Param>, others: seq<Entry>)
    ensures AllParams(Response(entities, e, action, params, param, more, others))
            == (AllParams(entities) + params) + [param] + (more + AllParams(others))
  {
    EntityAmong(entities, e.(action := Some(Action(action, params + [param] + more))), others);
    Regrouped(AllParams(entities), params, [param], more, AllParams(others));
  }

  lemma {:induction false} EntityAmong(entities: seq<Entry>, e: Entry, others: seq<Entry>)
    ensures AllParams(entities + [e] + others) == AllParams(entities) + EntityParams(e) + AllParams(others)
  {
    calc {
      AllParams(entities + [e] + others);
      { AllParamsAppend(entities + [e], others); }
      AllParams(entities + [e]) + AllParams(others);
      { AllParamsAppend(entities, [e]); OneEntity(e); }
      AllParams(entities) + EntityParams(e) + AllParams(others);
    }
  }

  lemma OneEntity(e: Entry)
    ensures AllParams([e]) == EntityParams(e)
  {
    assert [e][1..] == [];
  }

  lemma Regrouped(a: seq<Param>, b: seq<Param>, c: seq<Param>, d: seq<Param>, e: seq<Param>)
    ensures a + (b + c + d) + e == (a + b) + c + (d + e)
  {
  }

  /**
   Leading zero bytes in any parameter value of any entity of a response do not change
   the port, whichever id is looked for.
   */
  lemma PortIgnoresLeadingZeros(k: nat, v: seq<byte>, p: ParamId, id: ParamId, entities: seq<Entry>, e: Entry,
                                action: ActionId, params: seq<Param>, more: seq<Param>, others: seq<Entry>)
    ensures PortOf(Response(entities, e, action, params, Param(p, Zeros(k) + v), more, others), id)
            == PortOf(Response(entities, e, action, params, Param(p, v), more, others), id)
  {
    var padded, plain := Param(p, Zeros(k) + v), Param(p, v);
    var front, back := AllParams(entities) + params, more + AllParams(others);
    LeadingZeros(k, v);
    ResponseParams(entities, e, action, params, padded, more, others);
    ResponseParams(entities, e, action, params, plain, more, others);
    forall param: Param ensures
      ParamValue(front + [param] + back, id) ==
      if ParamValue(front, id).Some? then ParamValue(front, id)
      else if param.id == id then Some(param.value) else ParamValue(back, id)
    {
      ParamValueAppend(front + [param], back, id);
      ParamValueAppend(front, [param], id);
      assert [param][1..] == [];
    }
  }

  /** The port of a VSI in a store. */
  function VsiPort(s: Store, sp: uint32): PortResult {
    match Read(s, EntryFor(VsiKey(sp), SMAC_ACTION, false))
    case ReadFailed(error) => PortFailed(error)
    case Found(entities) => PortOf(entities, Port)
  }

  /** Which VSI is read, and what its entry means: the port minus 16 in eight bits, and the parameter Port. */
  lemma VsiPortReads(s: Store, sp: uint32)
    ensures var k := TableKey(Table.TxAccVsi, [Match(Vsi, [(sp - 16) % 256])]);
            VsiPort(s, sp) ==
            if k !in s then PortFailed(NotFound)
            else match ParamValue(s[k].params, Port)
                 case None => PortFailed(Internal)
                 case Some(value) => PortOk(BigEndian(value) % 0x1_0000_0000)
  {
    VsiKeySays(sp);
    var k := VsiKey(sp);
    if k in s {
      OneEntity(Entry(k.table, k.matches, Some(s[k])));
    }
  }

  method ReadTxAccVsiTableEntry(client: Client, sp: uint32) returns (r: ReadResult)
    ensures r == Read(client.store, EntryFor(VsiKey(sp), SMAC_ACTION, false))
  {
    var entry := new TableEntry();
    EncodeTxAccVsiTableEntry(entry, sp);
    r := client.SendReadRequest(entry);
  }

  method GetTxAccVsiPort(client: Client, srcPort: uint32) returns (r: PortResult)
    ensures r == VsiPort(client.store, srcPort)
  {
    var response := ReadTxAccVsiTableEntry(client, srcPort);
    if response.ReadFailed? {
      return PortFailed(response.error);
    }
    r := FindPort(response.entities, Port);
  }
}
