/**
 The "youconnect" message: the client computes its length from the SIZE macros before it asks for
 a buffer, then writes the external addresses, each a message of its own, and the key or password.
 */
module ConnectInfo {
  import opened Prelude
  import opened Bytes
  import opened BProtoWire
  import opened BProtoSpans
  import opened BProtoImpl

  // scope name and AddrProto encoding of an external address
  datatype Address = Address(scope: Data, addr: Data)

  const ADDR_SCHEMA: Schema := map[1 := Field(Bytes, Required), 2 := Field(Bytes, Required)]

  const CONNECT_SCHEMA: Schema :=
    map[1 := Field(Bytes, RequiredRepeated), 2 := Field(Bytes, Optional), 3 := Field(Uint(8), Optional)]

  function AddressItems(a: Address): seq<Item> {
    [Item(1, Blob(false, a.scope)), Item(2, Blob(false, a.addr))]
  }

  function AddressItem(a: Address): Item {
    Item(1, Blob(false, EncodeAll(AddressItems(a))))
  }

  function ConnectItems(addrs: seq<Address>): seq<Item> {
    seq(|addrs|, i requires 0 <= i < |addrs| => AddressItem(addrs[i]))
  }

  function ExtraItems(key: Option<Data>, password: Option<nat>): seq<Item> {
    (if key.Some? then [Item(2, Blob(false, key.value))] else []) +
    (if password.Some? then [Item(3, Num(8, password.value))] else [])
  }

  function InfoItems(addrs: seq<Address>, key: Option<Data>, password: Option<nat>): seq<Item> {
    ConnectItems(addrs) + ExtraItems(key, password)
  }

  predicate AddressFits(a: Address) {
    |a.scope| + |a.addr| + 16 < Pow256(4)
  }

  predicate Sendable(addrs: seq<Address>, key: Option<Data>, password: Option<nat>) {
    && addrs != [] && (forall i :: 0 <= i < |addrs| ==> AddressFits(addrs[i]))
    && (key.Some? ==> |key.value| < Pow256(4)) && (password.Some? ==> password.value < Pow256(8))
  }

  /** SIZEname + SIZEaddr */
  function AddressLength(a: Address): nat {
    (HEADER + DATA_HEADER + |a.scope|) + (HEADER + DATA_HEADER + |a.addr|)
  }

  lemma AddressLengthExact(a: Address)
    ensures |EncodeAll(AddressItems(a))| == AddressLength(a)
  {
    var items := AddressItems(a);
    SizesAddUp(items);
    var one := items[..1];
    assert one[..0] == [] && one[0] == items[0];
    assert TotalSize(one) == Size(items[0]);
  }

  lemma {:induction false} TotalConcat(a: seq<Item>, b: seq<Item>)
    ensures TotalSize(a + b) == TotalSize(a) + TotalSize(b)
  {
    if b == [] {
      assert a + b == a;
    } else {
      TotalConcat(a, b[..|b|-1]);
      assert (a + b)[..|a + b|-1] == a + b[..|b|-1];
    }
  }

  lemma ConnectPrefix(addrs: seq<Address>, i: nat)
    requires i < |addrs|
    ensures ConnectItems(addrs[..i + 1]) == ConnectItems(addrs[..i]) + [AddressItem(addrs[i])]
    ensures TotalSize(ConnectItems(addrs[..i + 1])) ==
            TotalSize(ConnectItems(addrs[..i])) + HEADER + DATA_HEADER + AddressLength(addrs[i])
  {
    AddressLengthExact(addrs[i]);
    var items := ConnectItems(addrs[..i]);
    assert ConnectItems(addrs[..i + 1]) == items + [AddressItem(addrs[i])];
    assert (items + [AddressItem(addrs[i])])[..|items|] == items;
  }

  /** The first half of peer_send_conectinfo: the length is known before anything is written. */
  method MessageLength(addrs: seq<Address>, key: Option<Data>, password: Option<nat>) returns (len: nat)
    ensures len == |EncodeAll(InfoItems(addrs, key, password))|
  {
    len := 0;
    assert ConnectItems(addrs[..0]) == [];
    for i := 0 to |addrs|
      invariant len == TotalSize(ConnectItems(addrs[..i]))
    {
      ConnectPrefix(addrs, i);
      len := len + HEADER + DATA_HEADER + AddressLength(addrs[i]);
    }
    assert addrs[..|addrs|] == addrs;
    if key.Some? {
      len := len + HEADER + DATA_HEADER + |key.value|;
    }
    if password.Some? {
      len := len + HEADER + 8;
    }
    ExtraLength(key, password);
    TotalConcat(ConnectItems(addrs), ExtraItems(key, password));
    SizesAddUp(InfoItems(addrs, key, password));
  }

  lemma ExtraLength(key: Option<Data>, password: Option<nat>)
    ensures TotalSize(ExtraItems(key, password)) ==
      (if key.Some? then HEADER + DATA_HEADER + |key.value| else 0) + (if password.Some? then HEADER + 8 else 0)
  {
    var a := if key.Some? then [Item(2, Blob(false, key.value))] else [];
    var b := if password.Some? then [Item(3, Num(8, password.value))] else [];
    assert |a| == 1 ==> a[..0] == [];
    assert |b| == 1 ==> b[..0] == [];
    TotalConcat(a, b);
  }

  // ---- What the receiver reads ------------------------------------------------------------------------

  lemma AddressConforms(a: Address)
    requires AddressFits(a)
    ensures AllFit(AddressItems(a)) && Conforms(ADDR_SCHEMA, AddressItems(a))
    ensures Values(AddressItems(a), 1) == [Blob(false, a.scope)] && Values(AddressItems(a), 2) == [Blob(false, a.addr)]
  {
    hide EncodeAll, Pow256, Values;
    var items := AddressItems(a);
    SmallPow();
    NoValues([], 1);
    assert items == ([] + [items[0]]) + [items[1]];
    forall id
      ensures Values(items, id) == if id == 1 then [items[0].value] else if id == 2 then [items[1].value] else []
    {
      NoValues([], id);
      ValuesSnoc([], items[0], id);
      ValuesSnoc([] + [items[0]], items[1], id);
    }
  }

  /** Each offered address comes out as it went in. */
  lemma AddressRoundTrip(a: Address)
    requires AddressFits(a)
    ensures var s := EncodeAll(AddressItems(a));
      && Accepts(ADDR_SCHEMA, s) && Items(s) == Some(AddressItems(a))
      && Values(Items(s).value, 1) == [Blob(false, a.scope)] && Values(Items(s).value, 2) == [Blob(false, a.addr)]
  {
    AddressConforms(a);
    WrittenIsAccepted(ADDR_SCHEMA, AddressItems(a));
  }

  lemma {:induction false} ConnectValues(addrs: seq<Address>, id: Id)
    ensures |Values(ConnectItems(addrs), id)| == if id == 1 then |addrs| else 0
    ensures id == 1 ==> forall i :: 0 <= i < |addrs| ==>
      Values(ConnectItems(addrs), id)[i] == Blob(false, EncodeAll(AddressItems(addrs[i])))
  {
    hide EncodeAll, Values;
    NoValues([], id);
    if addrs == [] {
      assert ConnectItems(addrs) == [];
    } else {
      var init := addrs[..|addrs|-1];
      ConnectValues(init, id);
      assert ConnectItems(addrs) == ConnectItems(init) + [AddressItem(addrs[|addrs|-1])];
      ValuesSnoc(ConnectItems(init), AddressItem(addrs[|addrs|-1]), id);
    }
  }

  lemma {:induction false} ValuesConcat(a: seq<Item>, b: seq<Item>, id: Id)
    ensures Values(a + b, id) == Values(a, id) + Values(b, id)
  {
    if b == [] {
      assert a + b == a;
    } else {
      ValuesConcat(a, b[..|b|-1], id);
      assert (a + b)[..|a + b|-1] == a + b[..|b|-1];
    }
  }

  lemma {:induction false} ExtraValues(key: Option<Data>, password: Option<nat>, id: Id)
    ensures Values(ExtraItems(key, password), id) ==
      if id == 2 && key.Some? then [Blob(false, key.value)]
      else if id == 3 && password.Some? then [Num(8, password.value)] else []
  {
    var a := if key.Some? then [Item(2, Blob(false, key.value))] else [];
    var b := if password.Some? then [Item(3, Num(8, password.value))] else [];
    assert |a| == 1 ==> a[..0] == [];
    assert |b| == 1 ==> b[..0] == [];
    ValuesConcat(a, b, id);
  }

  lemma InfoFits(addrs: seq<Address>, key: Option<Data>, password: Option<nat>)
    requires Sendable(addrs, key, password)
    ensures AllFit(InfoItems(addrs, key, password)) && AllKnown(CONNECT_SCHEMA, InfoItems(addrs, key, password))
  {
    hide EncodeAll, Pow256;
    SmallPow();
    var items := InfoItems(addrs, key, password);
    forall i | 0 <= i < |items|
      ensures Fits(items[i]) && Known(CONNECT_SCHEMA, items[i])
    {
      if i < |addrs| {
        AddressLengthExact(addrs[i]);
        assert AddressFits(addrs[i]);
      }
    }
  }

  /** The receiver gets all addresses in order, and the key or the password, and nothing else. */
  lemma ConnectInfoRoundTrip(addrs: seq<Address>, key: Option<Data>, password: Option<nat>)
    requires Sendable(addrs, key, password)
    ensures var s := EncodeAll(InfoItems(addrs, key, password));
      && Accepts(CONNECT_SCHEMA, s) && Items(s) == Some(InfoItems(addrs, key, password))
      && |Values(Items(s).value, 1)| == |addrs|
      && (forall i :: 0 <= i < |addrs| ==>
            Values(Items(s).value, 1)[i] == Blob(false, EncodeAll(AddressItems(addrs[i]))))
      && Values(Items(s).value, 2) == (if key.Some? then [Blob(false, key.value)] else [])
      && Values(Items(s).value, 3) == (if password.Some? then [Num(8, password.value)] else [])
  {
    hide EncodeAll, Pow256, Values, ConnectItems, ExtraItems;
    var items := InfoItems(addrs, key, password);
    InfoFits(addrs, key, password);
    forall id
      ensures Values(items, id) == Values(ConnectItems(addrs), id) + Values(ExtraItems(key, password), id)
    {
      ValuesConcat(ConnectItems(addrs), ExtraItems(key, password), id);
    }
    forall id
      ensures |Values(ConnectItems(addrs), id)| == if id == 1 then |addrs| else 0
    {
      ConnectValues(addrs, id);
    }
    ConnectValues(addrs, 1);
    ExtraValues(key, password, 1);
    ExtraValues(key, password, 2);
    ExtraValues(key, password, 3);
    WrittenIsAccepted(CONNECT_SCHEMA, items);
  }

  // ---- Writing ------------------------------------------------------------------------------------------

  /** The inner message of an address, written into a buffer of the precomputed length. */
  method WriteAddress(a: Address) returns (msg: Data)
    requires AddressFits(a)
    ensures msg == EncodeAll(AddressItems(a))
  {
    hide EncodeAll, Pow256, Values;
    AddressConforms(a);
    var buf := new Byte[AddressLength(a)];
    var w := new Writer(ADDR_SCHEMA, buf);
    NoValues([], 1);
    NoValues([], 2);
    assert Fits(AddressItems(a)[0]) && Fits(AddressItems(a)[1]);
    w.Add(1, Blob(false, a.scope));
    ValuesSnoc([], Item(1, Blob(false, a.scope)), 2);
    w.Add(2, Blob(false, a.addr));
    assert w.items == AddressItems(a);
    var len := w.Finish();
    msg := buf[..len];
  }

  /** peer_send_conectinfo: a message that is not too long is written completely, and fills the
      space that was asked for exactly */
  method SendConnectInfo(addrs: seq<Address>, key: Option<Data>, password: Option<nat>, maxPayload: nat)
    returns (msg: Option<Data>)
    requires Sendable(addrs, key, password)
    ensures msg == var s := EncodeAll(InfoItems(addrs, key, password)); if |s| > maxPayload then None else Some(s)
  {
    hide EncodeAll, Pow256, Values, ConnectItems, Conforms;
    var len := MessageLength(addrs, key, password);
    if len > maxPayload {
      return None;
    }
    var buf := new Byte[len];
    var w := new Writer(CONNECT_SCHEMA, buf);
    WriteAddresses(w, addrs, key, password);
    WriteExtra(w, addrs, key, password);
    SizesAddUp(w.items);
    assert buf[..len] == buf[..w.used];
    msg := Some(buf[..w.used]);
  }

  /** There is room for every prefix of a message. */
  lemma {:induction false} RoomFor(items: seq<Item>, k: nat)
    requires k < |items|
    ensures TotalSize(items[..k]) + Size(items[k]) <= |EncodeAll(items)|
    ensures items[..k] + [items[k]] == items[..k + 1]
  {
    hide EncodeAll, TotalSize, Size;
    SizesAddUp(items);
    TotalConcat(items[..k + 1], items[k + 1..]);
    assert items[..k + 1] + items[k + 1..] == items;
    assert items[..k] + [items[k]] == items[..k + 1];
    TotalSnoc(items[..k], items[k]);
  }

  lemma {:induction false} TotalSnoc(items: seq<Item>, it: Item)
    ensures TotalSize(items + [it]) == TotalSize(items) + Size(it)
  {
    assert (items + [it])[..|items|] == items;
  }

  method WriteAddresses(w: Writer, addrs: seq<Address>, key: Option<Data>, password: Option<nat>)
    requires w.Valid() && w.items == [] && w.schema == CONNECT_SCHEMA && Sendable(addrs, key, password)
    requires w.out.Length == |EncodeAll(InfoItems(addrs, key, password))|
    modifies w, w.out
    ensures w.Valid() && w.items == InfoItems(addrs, key, password)[..|addrs|]
  {
    hide EncodeAll, Pow256, Values, Fits, Known;
    ghost var items := InfoItems(addrs, key, password);
    InfoFits(addrs, key, password);
    for i := 0 to |addrs|
      invariant w.Valid() && w.items == items[..i]
    {
      RoomFor(items, i);
      SizesAddUp(w.items);
      assert AddressFits(addrs[i]);
      var inner := WriteAddress(addrs[i]);
      assert items[i] == Item(1, Blob(false, inner));
      w.Add(1, Blob(false, inner));
    }
  }

  method WriteExtra(w: Writer, addrs: seq<Address>, key: Option<Data>, password: Option<nat>)
    requires w.Valid() && w.schema == CONNECT_SCHEMA && Sendable(addrs, key, password)
    requires w.items == InfoItems(addrs, key, password)[..|addrs|]
    requires w.out.Length == |EncodeAll(InfoItems(addrs, key, password))|
    modifies w, w.out
    ensures w.Valid() && w.items == InfoItems(addrs, key, password)
  {
    hide EncodeAll, Pow256, Values, Fits, Known;
    ghost var items := InfoItems(addrs, key, password);
    InfoFits(addrs, key, password);
    assert w.items == ConnectItems(addrs);
    ConnectValues(addrs, 2);
    ConnectValues(addrs, 3);
    if key.Some? {
      RoomFor(items, |addrs|);
      SizesAddUp(w.items);
      assert items[|addrs|] == Item(2, Blob(false, key.value));
      ValuesSnoc(w.items, items[|addrs|], 3);
      w.Add(2, Blob(false, key.value));
    }
    if password.Some? {
      var k := |items| - 1;
      assert w.items == items[..k];
      RoomFor(items, k);
      SizesAddUp(w.items);
      assert items[k] == Item(3, Num(8, password.value));
      w.Add(3, Num(8, password.value));
    }
    assert w.items == items;
  }
}
