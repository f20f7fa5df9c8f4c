/**
 MsgProto: what two clients send each other through the server is a type and a payload.
 */
module MsgProto {
  import opened Prelude
  import opened Bytes
  import opened BProtoWire
  import opened BProtoSpans
  import opened BProtoImpl

  const YOU_CONNECT: nat := 1
  const CANNOT_CONNECT: nat := 2
  const CANNOT_BIND: nat := 3
  const YOU_RETRY: nat := 5

  // the server passes on messages of 2000 bytes, with the id of the other client
  const SC_MAX_MSGLEN: nat := 2000 - 2

  const MSG_MAX_PAYLOAD: nat := SC_MAX_MSGLEN - (HEADER + 2) - (HEADER + DATA_HEADER)

  const MSG_SCHEMA: Schema := map[1 := Field(Uint(2), Required), 2 := Field(Bytes, Required)]

  function MsgItems(id: nat, payload: Data): seq<Item> {
    [Item(1, Num(2, id)), Item(2, Blob(false, payload))]
  }

  function EncodeMsg(id: nat, payload: Data): Data {
    EncodeAll(MsgItems(id, payload))
  }

  predicate MsgOk(id: nat, payload: Data) {
    id < 0x1_0000 && |payload| <= MSG_MAX_PAYLOAD
  }

  ghost function ReadMsg(data: Data): Option<(nat, Data)> {
    if !Accepts(MSG_SCHEMA, data) then None
    else
      var t, p := Values(Items(data).value, 1), Values(Items(data).value, 2);
      if t == [] || !t[0].Num? || p == [] || !p[0].Blob? then None else Some((t[0].n, p[0].data))
  }

  lemma {:induction false} MsgValues(id: nat, payload: Data, f: Id)
    ensures Values(MsgItems(id, payload), f) ==
      if f == 1 then [Num(2, id)] else if f == 2 then [Blob(false, payload)] else []
  {
    hide Values;
    var items := MsgItems(id, payload);
    var none: seq<Item> := [];
    NoValues(none, f);
    ValuesSnoc(none, items[0], f);
    ValuesSnoc(none + [items[0]], items[1], f);
    assert items == none + [items[0]] + [items[1]];
  }

  lemma MsgConforms(id: nat, payload: Data)
    requires MsgOk(id, payload)
    ensures AllFit(MsgItems(id, payload)) && Conforms(MSG_SCHEMA, MsgItems(id, payload))
    ensures Fits(MsgItems(id, payload)[0]) && Fits(MsgItems(id, payload)[1])
  {
    hide Values;
    assert Pow256(1) == 256 * Pow256(0) && Pow256(2) == 256 * Pow256(1);
    assert Pow256(4) == 256 * Pow256(3) && Pow256(3) == 256 * Pow256(2);
    forall f
      ensures f in MSG_SCHEMA ==> Allowed(MSG_SCHEMA[f].card, |Values(MsgItems(id, payload), f)|)
    {
      MsgValues(id, payload, f);
    }
  }

  /** A message is read as it was written. */
  lemma MsgRoundTrip(id: nat, payload: Data)
    requires MsgOk(id, payload)
    ensures ReadMsg(EncodeMsg(id, payload)) == Some((id, payload))
  {
    hide Values, EncodeAll;
    MsgConforms(id, payload);
    WrittenIsAccepted(MSG_SCHEMA, MsgItems(id, payload));
    MsgValues(id, payload, 1);
    MsgValues(id, payload, 2);
  }

  /** A payload may have as many bytes as MSG_MAX_PAYLOAD says and no more. */
  lemma MsgLength(id: nat, payload: Data)
    ensures |EncodeMsg(id, payload)| <= SC_MAX_MSGLEN <==> |payload| <= MSG_MAX_PAYLOAD
    ensures |EncodeMsg(id, payload)| == (HEADER + 2) + (HEADER + DATA_HEADER + |payload|)
  {
    var items := MsgItems(id, payload);
    SizesAddUp(items);
    var one := items[..1];
    assert one[..0] == [] && one[0] == items[0];
    assert TotalSize(one) == Size(items[0]);
  }

  /** The reading part of peer_chat_handler_message */
  method MsgRead(data: Data) returns (r: Option<(nat, Data)>)
    ensures r == ReadMsg(data)
  {
    hide Values, Items, Accepts, EncodeAll, Rest, Parser.Valid;
    var p := new Parser(MSG_SCHEMA, data);
    var ok := p.Init();
    if !ok {
      return None;
    }
    MsgFields(data);
    var t := p.Get(1);
    var payload := p.Get(2);
    return Some((t.value.n, payload.value.data));
  }

  lemma {:induction false} MsgFields(data: Data)
    requires Accepts(MSG_SCHEMA, data)
    ensures var items := Items(data).value;
      && |Values(items, 1)| == 1 && Values(items, 1)[0].Num?
      && |Values(items, 2)| == 1 && Values(items, 2)[0].Blob?
  {
    hide Values;
    var items := Items(data).value;
    ValuesMatch(MSG_SCHEMA, items, 1);
    ValuesMatch(MSG_SCHEMA, items, 2);
    assert Allowed(MSG_SCHEMA[1].card, |Values(items, 1)|) && Allowed(MSG_SCHEMA[2].card, |Values(items, 2)|);
  }

  /** peer_start_msg and peer_end_msg, with the payload written in between */
  method MsgWrite(id: nat, payload: Data) returns (out: Data)
    requires MsgOk(id, payload)
    ensures out == EncodeMsg(id, payload) && |out| <= SC_MAX_MSGLEN
  {
    hide EncodeAll, Pow256, Values, Conforms, AllFit, Fits, Writer.Valid;
    MsgConforms(id, payload);
    MsgLength(id, payload);
    var buf := new Byte[(HEADER + 2) + (HEADER + DATA_HEADER + |payload|)];
    var w := new Writer(MSG_SCHEMA, buf);
    NoValues([], 1);
    NoValues([], 2);
    ValuesSnoc([], Item(1, Num(2, id)), 2);
    w.Counted(1);
    w.Add(1, Num(2, id));
    w.Counted(2);
    w.Add(2, Blob(false, payload));
    w.Written();
    assert w.items == MsgItems(id, payload);
    out := buf[..w.used];
  }
}
