/**
 AddrProto: the encoding of a socket address as a BProto message of its own.
 */
module AddrProto {
  import opened Prelude
  import opened Bytes
  import opened BProtoWire
  import opened BProtoSpans
  import opened BProtoImpl

  // address and port in network byte order
  datatype BAddr = Ipv4(ip: Data, port: Data) | Ipv6(ip: Data, port: Data)

  const TYPE_IPV4: nat := 1
  const TYPE_IPV6: nat := 2

  const ADDR_PROTO: Schema :=
    map[1 := Field(Uint(1), Required), 2 := Field(ConstBytes(2), Optional),
        3 := Field(ConstBytes(4), Optional), 4 := Field(ConstBytes(16), Optional)]

  predicate AddrOk(a: BAddr) {
    |a.port| == 2 && |a.ip| == if a.Ipv4? then 4 else 16
  }

  function AddrItems(a: BAddr): seq<Item> {
    [Item(1, Num(1, if a.Ipv4? then TYPE_IPV4 else TYPE_IPV6)), Item(2, Blob(true, a.port)),
     Item(if a.Ipv4? then 3 else 4, Blob(true, a.ip))]
  }

  /** addr_size */
  function AddrSize(a: BAddr): nat {
    (HEADER + 1) + (HEADER + DATA_HEADER + 2) + (HEADER + DATA_HEADER + if a.Ipv4? then 4 else 16)
  }

  function EncodeAddr(a: BAddr): Data {
    EncodeAll(AddrItems(a))
  }

  /** What the entries of an address message say; more fields than needed do no harm. */
  function AddrOf(items: seq<Item>): Option<BAddr> {
    var t, port, ip4, ip6 := Values(items, 1), Values(items, 2), Values(items, 3), Values(items, 4);
    if t == [] || !t[0].Num? || port == [] || !port[0].Blob? then None
    else if t[0].n == TYPE_IPV4 then if ip4 == [] || !ip4[0].Blob? then None else Some(Ipv4(ip4[0].data, port[0].data))
    else if t[0].n == TYPE_IPV6 then if ip6 == [] || !ip6[0].Blob? then None else Some(Ipv6(ip6[0].data, port[0].data))
    else None
  }

  ghost function ReadAddr(s: Data): Option<BAddr> {
    if Accepts(ADDR_PROTO, s) then AddrOf(Items(s).value) else None
  }

  lemma {:induction false} AddrValues(a: BAddr, id: Id)
    ensures Values(AddrItems(a), id) ==
      if id == 1 then [Num(1, if a.Ipv4? then TYPE_IPV4 else TYPE_IPV6)]
      else if id == 2 then [Blob(true, a.port)]
      else if id == (if a.Ipv4? then 3 else 4) then [Blob(true, a.ip)]
      else []
  {
    hide Values;
    var items := AddrItems(a);
    var none: seq<Item> := [];
    NoValues(none, id);
    ValuesSnoc(none, items[0], id);
    ValuesSnoc(none + [items[0]], items[1], id);
    ValuesSnoc(none + [items[0]] + [items[1]], items[2], id);
    assert items == none + [items[0]] + [items[1]] + [items[2]];
  }

  lemma AddrConforms(a: BAddr)
    requires AddrOk(a)
    ensures AllFit(AddrItems(a)) && Conforms(ADDR_PROTO, AddrItems(a))
    ensures Fits(AddrItems(a)[0]) && Fits(AddrItems(a)[1]) && Fits(AddrItems(a)[2])
  {
    hide Values;
    assert Pow256(1) == 256 * Pow256(0) && Pow256(2) == 256 * Pow256(1) && Pow256(4) == 256 * Pow256(3);
    forall id
      ensures id in ADDR_PROTO ==> Allowed(ADDR_PROTO[id].card, |Values(AddrItems(a), id)|)
    {
      AddrValues(a, id);
    }
  }

  /** Reading undoes writing. */
  lemma AddrRoundTrip(a: BAddr)
    requires AddrOk(a)
    ensures ReadAddr(EncodeAddr(a)) == Some(a)
  {
    hide Values, EncodeAll;
    AddrConforms(a);
    WrittenIsAccepted(ADDR_PROTO, AddrItems(a));
    forall id
      ensures |Values(AddrItems(a), id)| <= 1
    {
      AddrValues(a, id);
    }
    AddrValues(a, 1);
    AddrValues(a, 2);
    AddrValues(a, 3);
    AddrValues(a, 4);
  }

  /** What is read is an address with a port. */
  lemma ReadAddrOk(s: Data)
    ensures ReadAddr(s).Some? ==> AddrOk(ReadAddr(s).value)
  {
    if Accepts(ADDR_PROTO, s) {
      var items := Items(s).value;
      ValuesMatch(ADDR_PROTO, items, 2);
      ValuesMatch(ADDR_PROTO, items, 3);
      ValuesMatch(ADDR_PROTO, items, 4);
    }
  }

  lemma AddrSizeExact(a: BAddr)
    requires AddrOk(a)
    ensures |EncodeAddr(a)| == AddrSize(a)
  {
    var items := AddrItems(a);
    SizesAddUp(items);
    var two, one := items[..2], items[..1];
    assert two[..1] == one && one[..0] == [];
    assert TotalSize(one) == Size(items[0]) && TotalSize(two) == TotalSize(one) + Size(items[1]);
  }

  /** addr_read */
  method AddrRead(data: Data) returns (r: Option<BAddr>)
    ensures r == ReadAddr(data)
  {
    hide Values, Items, Accepts, EncodeAll, Rest, Parser.Valid;
    var p := new Parser(ADDR_PROTO, data);
    var ok := p.Init();
    if !ok {
      return None;
    }
    ghost var items := p.items;
    AddrFields(data);
    var t := p.Get(1);
    if t.value.n != TYPE_IPV4 && t.value.n != TYPE_IPV6 {
      return None;
    }
    var port := p.Get(2);
    if port.None? {
      return None;
    }
    var ip := p.Get(if t.value.n == TYPE_IPV4 then 3 else 4);
    if ip.None? {
      return None;
    }
    if t.value.n == TYPE_IPV4 {
      return Some(Ipv4(ip.value.data, port.value.data));
    } else {
      return Some(Ipv6(ip.value.data, port.value.data));
    }
  }

  lemma {:induction false} AddrFields(data: Data)
    requires Accepts(ADDR_PROTO, data)
    ensures var items := Items(data).value;
      && |Values(items, 1)| == 1 && Values(items, 1)[0].Num?
      && forall id :: 2 <= id <= 4 ==> |Values(items, id)| <= 1 && (Values(items, id) != [] ==> Values(items, id)[0].Blob?)
  {
    hide Values;
    var items := Items(data).value;
    ValuesMatch(ADDR_PROTO, items, 1);
    assert Allowed(ADDR_PROTO[1].card, |Values(items, 1)|);
    forall id | 2 <= id <= 4
      ensures |Values(items, id)| <= 1 && (Values(items, id) != [] ==> Values(items, id)[0].Blob?)
    {
      ValuesMatch(ADDR_PROTO, items, id);
      assert Allowed(ADDR_PROTO[id].card, |Values(items, id)|);
    }
  }

  /** No field is written twice. */
  lemma AddrPrefixes(a: BAddr)
    ensures var items, none, k := AddrItems(a), [], if a.Ipv4? then 3 else 4;
      && |Values(none, 1)| == 0 && |Values(none + [items[0]], 2)| == 0
      && |Values(none + [items[0]] + [items[1]], k)| == 0
  {
    hide Values;
    var items, k := AddrItems(a), if a.Ipv4? then 3 else 4;
    var none: seq<Item> := [];
    NoValues(none, 1);
    NoValues(none, 2);
    NoValues(none, k);
    ValuesSnoc(none, items[0], 2);
    ValuesSnoc(none, items[0], k);
    ValuesSnoc(none + [items[0]], items[1], k);
  }

  /** addr_write */
  method AddrWrite(a: BAddr) returns (out: Data)
    requires AddrOk(a)
    ensures out == EncodeAddr(a) && |out| == AddrSize(a)
  {
    hide EncodeAll, Pow256, Values, Conforms, AllFit, Fits, Writer.Valid;
    AddrConforms(a);
    AddrSizeExact(a);
    ghost var items := AddrItems(a);
    var buf := new Byte[AddrSize(a)];
    var w := new Writer(ADDR_PROTO, buf);
    AddrPrefixes(a);
    var id := if a.Ipv4? then 3 else 4;
    w.Counted(1);
    w.Add(1, Num(1, if a.Ipv4? then TYPE_IPV4 else TYPE_IPV6));
    w.Counted(2);
    w.Add(2, Blob(true, a.port));
    w.Counted(id);
    w.Add(id, Blob(true, a.ip));
    w.Written();
    assert w.items == items;
    out := buf[..w.used];
  }
}
