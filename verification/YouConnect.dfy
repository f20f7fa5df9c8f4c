/**
 Reading a "youconnect" message: which of the offered addresses is used, and when the message is
 ignored.
 */
module YouConnect {
  import opened Prelude
  import opened Bytes
  import opened BProtoWire
  import opened BProtoSpans
  import opened BProtoImpl
  import opened AddrProto
  import opened ConnectInfo
  import opened MsgProto
  import opened BindingSpec

  // keySize: the size of the encryption key, if packets are encrypted
  datatype Transport = Udp(keySize: Option<nat>) | Tcp

  datatype Verdict = Ignored | NoneUsable | Use(ext: Ext, key: Option<Data>, password: Option<nat>)

  /** The scope and the address in an address message that has been accepted. */
  ghost function NameOf(m: Data): Data
    requires Items(m).Some?
  {
    var v := Values(Items(m).value, 1); if v != [] && v[0].Blob? then v[0].data else []
  }

  ghost function AddressOf(m: Data): Option<BAddr>
    requires Items(m).Some?
  {
    var v := Values(Items(m).value, 2); if v != [] && v[0].Blob? then ReadAddr(v[0].data) else None
  }

  /** The first readable address in a known scope; None if an address message before it is malformed. */
  ghost function Pick(scopes: set<Data>, vs: seq<Value>): Option<Option<Ext>> {
    if vs == [] then Some(None)
    else if !vs[0].Blob? || !Accepts(ADDR_SCHEMA, vs[0].data) then None
    else if NameOf(vs[0].data) !in scopes || AddressOf(vs[0].data).None? then Pick(scopes, vs[1..])
    else Some(Some(Ext(NameOf(vs[0].data), AddressOf(vs[0].data).value)))
  }

  /** An address message that can be parsed, and one whose address can be used. */
  ghost predicate WellFormed(v: Value) {
    v.Blob? && Accepts(ADDR_SCHEMA, v.data)
  }

  ghost predicate UsableIn(scopes: set<Data>, v: Value) {
    WellFormed(v) && NameOf(v.data) in scopes && AddressOf(v.data).Some?
  }

  /** All address messages before i are well-formed, and none of them can be used. */
  ghost predicate NoneBefore(scopes: set<Data>, vs: seq<Value>, i: nat)
    requires i <= |vs|
  {
    forall j :: 0 <= j < i ==> WellFormed(vs[j]) && !UsableIn(scopes, vs[j])
  }

  /** The choice is given up at a malformed message before the first usable one, and is the first usable
      one if there is no such message. */
  lemma {:induction false} PickIs(scopes: set<Data>, vs: seq<Value>) returns (i: nat)
    ensures i <= |vs| && NoneBefore(scopes, vs, i)
    ensures match Pick(scopes, vs)
      case None => i < |vs| && !WellFormed(vs[i])
      case Some(None) => i == |vs|
      case Some(Some(e)) =>
        i < |vs| && UsableIn(scopes, vs[i]) && e == Ext(NameOf(vs[i].data), AddressOf(vs[i].data).value)
  {
    hide NameOf, AddressOf, Accepts;
    i := 0;
    if vs != [] && WellFormed(vs[0]) && !UsableIn(scopes, vs[0]) {
      i := PickIs(scopes, vs[1..]);
      assert forall j :: 1 <= j < |vs| ==> vs[j] == vs[1..][j - 1];
      i := i + 1;
    }
  }

  /** A message is used only if its address is in a known scope and it has the key or password that the
      transport calls for, and no other. */
  lemma {:induction false} UsedIsRight(scopes: set<Data>, t: Transport, data: Data)
    requires VerdictOf(scopes, t, data).Use?
    ensures var v := VerdictOf(scopes, t, data);
      && v.ext.scope in scopes
      && match t
         case Udp(size) =>
           && v.password.None? && (v.key.Some? <==> size.Some?) && (v.key.Some? ==> |v.key.value| == size.value)
         case Tcp => v.key.None? && v.password.Some?
  {
    hide Values, Pick;
    var i := PickIs(scopes, Values(Items(data).value, 1));
  }

  /** The key or password that the transport needs, and nothing else. */
  function Extras(t: Transport, keys: seq<Value>, passwords: seq<Value>): Option<(Option<Data>, Option<nat>)> {
    match t
    case Udp(size) =>
      if passwords != [] then None
      else if size.None? then if keys == [] then Some((None, None)) else None
      else if |keys| == 1 && keys[0].Blob? && |keys[0].data| == size.value then Some((Some(keys[0].data), None))
      else None
    case Tcp =>
      if keys == [] && |passwords| == 1 && passwords[0].Num? then Some((None, Some(passwords[0].n))) else None
  }

  ghost function VerdictOf(scopes: set<Data>, t: Transport, data: Data): Verdict {
    if !Accepts(CONNECT_SCHEMA, data) then Ignored
    else
      var items := Items(data).value;
      var e := Pick(scopes, Values(items, 1));
      var x := Extras(t, Values(items, 2), Values(items, 3));
      if e.None? then Ignored
      else if e.value.None? then NoneUsable
      else if x.None? then Ignored
      else Use(e.value.value, x.value.0, x.value.1)
  }

  // ---- The code ---------------------------------------------------------------------------------

  lemma {:induction false} AddressFields(m: Data)
    requires Accepts(ADDR_SCHEMA, m)
    ensures var items := Items(m).value;
      && |Values(items, 1)| == 1 && Values(items, 1)[0].Blob?
      && |Values(items, 2)| == 1 && Values(items, 2)[0].Blob?
  {
    hide Values;
    var items := Items(m).value;
    ValuesMatch(ADDR_SCHEMA, items, 1);
    ValuesMatch(ADDR_SCHEMA, items, 2);
    assert Allowed(ADDR_SCHEMA[1].card, |Values(items, 1)|) && Allowed(ADDR_SCHEMA[2].card, |Values(items, 2)|);
  }

  /** One round of the loop over the addresses: None if the address message is malformed, Some(None)
      if the address cannot be used. */
  method TryAddress(scopes: set<Data>, m: Data) returns (r: Option<Option<Ext>>)
    ensures r.None? <==> !Accepts(ADDR_SCHEMA, m)
    ensures r == Some(None) <==> Accepts(ADDR_SCHEMA, m) && (NameOf(m) !in scopes || AddressOf(m).None?)
    ensures r.Some? && r.value.Some? ==>
      Accepts(ADDR_SCHEMA, m) && AddressOf(m).Some? && r.value.value == Ext(NameOf(m), AddressOf(m).value)
  {
    hide Values, Items, Accepts, EncodeAll, Rest, Parser.Valid;
    var p := new Parser(ADDR_SCHEMA, m);
    var ok := p.Init();
    if !ok {
      return None;
    }
    AddressFields(m);
    var name := p.Get(1);
    if name.value.data !in scopes {
      return Some(None);
    }
    var addr := p.Get(2);
    var a := AddrRead(addr.value.data);
    return Some(if a.None? then None else Some(Ext(name.value.data, a.value)));
  }

  lemma {:induction false} PickNext(scopes: set<Data>, vs: seq<Value>, k: nat)
    requires k < |vs| && vs[k].Blob?
    ensures Pick(scopes, vs[k..]) ==
      if !Accepts(ADDR_SCHEMA, vs[k].data) then None
      else if NameOf(vs[k].data) !in scopes || AddressOf(vs[k].data).None? then Pick(scopes, vs[k + 1..])
      else Some(Some(Ext(NameOf(vs[k].data), AddressOf(vs[k].data).value)))
  {
    assert vs[k..][1..] == vs[k + 1..] && vs[k..][0] == vs[k];
  }

  lemma {:induction false} OfferFields(data: Data)
    requires Accepts(CONNECT_SCHEMA, data)
    ensures var items := Items(data).value;
      && (forall k :: 0 <= k < |Values(items, 1)| ==> Values(items, 1)[k].Blob?)
      && |Values(items, 2)| <= 1 && (Values(items, 2) != [] ==> Values(items, 2)[0].Blob?)
      && |Values(items, 3)| <= 1 && (Values(items, 3) != [] ==> Values(items, 3)[0].Num?)
  {
    hide Values;
    var items := Items(data).value;
    ValuesMatch(CONNECT_SCHEMA, items, 1);
    ValuesMatch(CONNECT_SCHEMA, items, 2);
    ValuesMatch(CONNECT_SCHEMA, items, 3);
    assert Allowed(CONNECT_SCHEMA[2].card, |Values(items, 2)|) && Allowed(CONNECT_SCHEMA[3].card, |Values(items, 3)|);
  }

  /** The loop of peer_msg_youconnect over the addresses. */
  method PickAddress(scopes: set<Data>, p: Parser) returns (r: Option<Option<Ext>>)
    requires p.Valid() && p.schema == CONNECT_SCHEMA
    requires forall k :: 0 <= k < |p.Remaining(1)| ==> p.Remaining(1)[k].Blob?
    modifies p`cursors, p`marks
    ensures p.Valid() && r == Pick(scopes, old(p.Remaining(1)))
    ensures forall i :: i in p.schema && i != 1 ==> p.Remaining(i) == old(p.Remaining(i))
  {
    hide Values, Items, Accepts, EncodeAll, Rest, Parser.Valid, NameOf, AddressOf, Pick;
    ghost var vs, k := p.Remaining(1), 0;
    while true
      invariant p.Valid() && k <= |vs| && p.Remaining(1) == vs[k..] && Pick(scopes, vs[k..]) == Pick(scopes, vs)
      invariant forall i :: i in p.schema && i != 1 ==> p.Remaining(i) == old(p.Remaining(i))
      decreases |vs| - k
    {
      var m := p.Get(1);
      if m.None? {
        PickNone(scopes);
        return Some(None);
      }
      assert vs[k..][0] == vs[k] && m.value == vs[k];
      PickNext(scopes, vs, k);
      var e := TryAddress(scopes, m.value.data);
      if e != Some(None) {
        return e;
      }
      assert vs[k..][1..] == vs[k + 1..];
      assert p.Remaining(1) == ([m.value] + p.Remaining(1))[1..];
      k := k + 1;
    }
  }

  lemma {:induction false} PickNone(scopes: set<Data>)
    ensures Pick(scopes, []) == Some(None)
  {
  }

  /** peer_msg_youconnect, up to the call of peer_connect */
  method ReadOffer(scopes: set<Data>, t: Transport, data: Data) returns (v: Verdict)
    ensures v == VerdictOf(scopes, t, data)
  {
    hide Values, Items, Accepts, EncodeAll, Rest, Parser.Valid, Pick;
    var p := new Parser(CONNECT_SCHEMA, data);
    var ok := p.Init();
    if !ok {
      return Ignored;
    }
    OfferFields(data);
    var e := PickAddress(scopes, p);
    if e.None? {
      return Ignored;
    }
    if e.value.None? {
      return NoneUsable;
    }
    p.Forward(1);
    var key, password := None, None;
    if t.Udp? {
      if t.keySize.Some? {
        var k := p.Get(2);
        if k.None? || |k.value.data| != t.keySize.value {
          return Ignored;
        }
        key := Some(k.value.data);
      }
    } else {
      var w := p.Get(3);
      if w.None? {
        return Ignored;
      }
      password := Some(w.value.n);
    }
    var all := p.GotEverything();
    assert all <==> p.Remaining(1) == [] && p.Remaining(2) == [] && p.Remaining(3) == [];
    if !all {
      return Ignored;
    }
    return Use(e.value.value, key, password);
  }

  // ---- What the other side offers ------------------------------------------------------------------

  function OnWire(e: Ext): Address {
    Address(e.scope, EncodeAddr(e.address))
  }

  function AllOnWire(es: seq<Ext>): seq<Address> {
    seq(|es|, i requires 0 <= i < |es| => OnWire(es[i]))
  }

  /** The message of an offer, with what the transport needs. */
  function OfferBytes(es: seq<Ext>, key: Option<Data>, password: Option<nat>): Data {
    EncodeAll(InfoItems(AllOnWire(es), key, password))
  }

  predicate Offerable(es: seq<Ext>, t: Transport, key: Option<Data>, password: Option<nat>) {
    && (forall i :: 0 <= i < |es| ==> AddrOk(es[i].address)) && Sendable(AllOnWire(es), key, password)
    && match t
       case Udp(size) => password.None? && (key.Some? <==> size.Some?) && (key.Some? ==> |key.value| == size.value)
       case Tcp => key.None? && password.Some?
  }

  lemma {:induction false} PickFirst(scopes: set<Data>, es: seq<Ext>, vs: seq<Value>)
    requires |vs| == |es| && forall i :: 0 <= i < |es| ==> AddrOk(es[i].address) && AddressFits(OnWire(es[i]))
    requires forall i :: 0 <= i < |es| ==> vs[i] == Blob(false, EncodeAll(AddressItems(OnWire(es[i]))))
    ensures Pick(scopes, vs) == Some(FirstUsable(scopes, es))
  {
    hide Values, Items, Accepts, EncodeAll, ReadAddr;
    if es != [] {
      AddressRoundTrip(OnWire(es[0]));
      AddrRoundTrip(es[0].address);
      PickFirst(scopes, es[1..], vs[1..]);
    }
  }

  /** An offer that has been sent is read as the first address in a scope that the reader knows. */
  lemma {:induction false} OfferRead(scopes: set<Data>, t: Transport, es: seq<Ext>, key: Option<Data>,
                                     password: Option<nat>)
    requires Offerable(es, t, key, password)
    ensures VerdictOf(scopes, t, OfferBytes(es, key, password)) ==
      var e := FirstUsable(scopes, es); if e.None? then NoneUsable else Use(e.value, key, password)
  {
    hide Values, Items, Accepts, EncodeAll, Pick, FirstUsable, InfoItems;
    ConnectInfoRoundTrip(AllOnWire(es), key, password);
    assert forall i :: 0 <= i < |es| ==> AllOnWire(es)[i] == OnWire(es[i]);
    PickFirst(scopes, es, Values(Items(OfferBytes(es, key, password)).value, 1));
  }

  // ---- Every offer fits ------------------------------------------------------------------------------

  const MAX_EXT_ADDRS: nat := 8
  const MAX_SCOPE_LEN: nat := 63      // the buffer for a scope has 64 bytes, with the final zero
  const MAX_KEY_SIZE: nat := 16

  /** The external addresses that the client accepts for a bind address. */
  predicate WithinLimits(es: seq<Ext>) {
    |es| <= MAX_EXT_ADDRS && forall i :: 0 <= i < |es| ==> |es[i].scope| <= MAX_SCOPE_LEN && AddrOk(es[i].address)
  }

  /** The key or password that the transport calls for. */
  predicate ExtrasOk(t: Transport, key: Option<Data>, password: Option<nat>) {
    match t
    case Udp(size) =>
      && password.None? && (key.Some? <==> size.Some?)
      && (key.Some? ==> |key.value| == size.value && size.value <= MAX_KEY_SIZE)
    case Tcp => key.None? && password.Some? && password.value < Pow256(8)
  }

  const LONGEST_ADDRESS: nat := 3 * (HEADER + DATA_HEADER) + 63 + 39

  lemma AddressBound(e: Ext)
    requires |e.scope| <= MAX_SCOPE_LEN && AddrOk(e.address)
    ensures AddressFits(OnWire(e)) && HEADER + DATA_HEADER + AddressLength(OnWire(e)) <= LONGEST_ADDRESS
  {
    hide EncodeAddr;
    AddrSizeExact(e.address);
    assert Pow256(4) == 256 * Pow256(3) && Pow256(3) == 256 * Pow256(2) && Pow256(2) == 256 * Pow256(1);
  }

  lemma {:induction false} AddressesBound(es: seq<Ext>, k: nat)
    requires WithinLimits(es) && k <= |es|
    ensures TotalSize(ConnectItems(AllOnWire(es)[..k])) <= k * LONGEST_ADDRESS
  {
    hide AddressFits, OnWire, ConnectItems, TotalSize, AddressLength;
    var addrs := AllOnWire(es);
    if k == 0 {
      assert addrs[..0] == [];
      NoAddresses();
    } else {
      AddressesBound(es, k - 1);
      ConnectPrefix(addrs, k - 1);
      AddressBound(es[k - 1]);
      assert addrs[k - 1] == OnWire(es[k - 1]);
    }
  }

  lemma NoAddresses()
    ensures TotalSize(ConnectItems([])) == 0
  {
    assert ConnectItems([]) == [];
  }

  /** Within the client's limits an offer has at most 1032 bytes, which a message has room for: the
      branch for a message that is too long cannot be reached. */
  lemma {:induction false} OfferFits(es: seq<Ext>, t: Transport, key: Option<Data>, password: Option<nat>)
    requires es != [] && WithinLimits(es) && ExtrasOk(t, key, password)
    ensures Offerable(es, t, key, password)
    ensures |OfferBytes(es, key, password)| <= 1032 <= MSG_MAX_PAYLOAD
  {
    hide EncodeAll, TotalSize, ConnectItems, ExtraItems, AddressFits, OnWire, Pow256;
    var addrs := AllOnWire(es);
    forall i | 0 <= i < |addrs|
      ensures AddressFits(addrs[i])
    {
      AddressBound(es[i]);
    }
    KeyFits();
    AddressesBound(es, |es|);
    assert addrs[..|es|] == addrs;
    ExtraLength(key, password);
    TotalConcat(ConnectItems(addrs), ExtraItems(key, password));
    SizesAddUp(InfoItems(addrs, key, password));
  }

  lemma KeyFits()
    ensures MAX_KEY_SIZE < Pow256(4)
  {
    assert Pow256(4) == 256 * Pow256(3);
  }

  /** peer_send_conectinfo with the limit that the client uses: the offer is always sent */
  method SendOffer(es: seq<Ext>, t: Transport, key: Option<Data>, password: Option<nat>) returns (msg: Data)
    requires es != [] && WithinLimits(es) && ExtrasOk(t, key, password)
    ensures msg == OfferBytes(es, key, password) && |msg| <= MSG_MAX_PAYLOAD
  {
    hide EncodeAll, EncodeAddr, InfoItems, Sendable, WithinLimits;
    OfferFits(es, t, key, password);
    var addrs: seq<Address> := [];
    for i := 0 to |es|
      invariant addrs == AllOnWire(es)[..i]
    {
      var a := AddrWrite(es[i].address);
      assert AllOnWire(es)[i] == Address(es[i].scope, a);
      addrs := addrs + [Address(es[i].scope, a)];
    }
    assert addrs == AllOnWire(es);
    var m := SendConnectInfo(addrs, key, password, MSG_MAX_PAYLOAD);
    msg := m.value;
  }
}
