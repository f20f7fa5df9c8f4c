/**
 The wire formats byte by byte: what the encoders of this project write, in plain numbers.
 */
module WireFormats {
  import opened Prelude
  import opened Bytes
  import opened BProtoWire
  import opened AddrProto
  import opened ConnectInfo
  import opened MsgProto
  import Fragment = FragmentWire
  import opened Align
  import Sp = SpWire

  // ---- FragmentProto ---------------------------------------------------------------------------------------

  /** A chunk: frame id, start and length, least significant byte first, whether it is the last one, and
      the data. */
  lemma ChunkBytes(c: Fragment.Chunk)
    requires Fragment.Wire(c)
    ensures Fragment.Encode(c) ==
      [c.id % 256, c.id / 256, c.start % 256, c.start / 256, |c.data| % 256, |c.data| / 256] +
      [if c.last then 1 else 0] + c.data
  {
  }

  // ---- BProto ------------------------------------------------------------------------------------------------

  lemma {:induction false} TwoBytes(n: nat)
    requires n < 0x1_0000
    ensures Le(n, 2) == [n % 256, n / 256]
  {
    assert Le(n / 256, 1) == [n / 256 % 256] + Le(n / 256 / 256, 0);
  }

  lemma {:induction false} FourBytes(n: nat)
    requires n < 0x1_0000_0000
    ensures Le(n, 4) == [n % 256, n / 256 % 256, n / 0x1_0000 % 256, n / 0x100_0000]
  {
    assert Le(n, 4) == [n % 256] + Le(n / 256, 3);
    assert Le(n / 256, 3) == [n / 256 % 256] + Le(n / 256 / 256, 2);
    assert n / 256 / 256 == n / 0x1_0000 && n / 0x1_0000 / 256 == n / 0x100_0000;
    TwoBytes(n / 0x1_0000);
  }

  /** An integer: its id, 1 to 4 for 1, 2, 4 or 8 bytes, and the bytes. */
  lemma {:induction false} NumberBytes(id: Id, bytes: nat, n: nat)
    requires id < 0x1_0000 && bytes in {1, 2, 4, 8}
    ensures Encode(Item(id, Num(bytes, n))) ==
      [id % 256, id / 256, if bytes == 1 then 1 else if bytes == 2 then 2 else if bytes == 4 then 3 else 4, 0] + Le(n, bytes)
  {
    TwoBytes(id);
    TwoBytes(TypeOf(Num(bytes, n)));
  }

  /** Data: its id, 5, or 6 if its length is fixed, the length and the data. */
  lemma BlobBytes(id: Id, fixed: bool, data: Data)
    requires id < 0x1_0000 && |data| < 0x1_0000_0000
    ensures Encode(Item(id, Blob(fixed, data))) ==
      [id % 256, id / 256, if fixed then 6 else 5, 0] +
      [|data| % 256, |data| / 256 % 256, |data| / 0x1_0000 % 256, |data| / 0x100_0000] + data
  {
    hide Le;
    TwoBytes(id);
    TwoBytes(TypeOf(Blob(fixed, data)));
    FourBytes(|data|);
  }

  lemma ShortBlob(id: Id, fixed: bool, data: Data)
    requires id < 256 && |data| < 0x1_0000
    ensures Encode(Item(id, Blob(fixed, data))) ==
      [id, 0, if fixed then 6 else 5, 0, |data| % 256, |data| / 256, 0, 0] + data
  {
    hide Encode;
    BlobBytes(id, fixed, data);
    var h, l := [id, 0, if fixed then 6 else 5, 0], [|data| % 256, |data| / 256, 0, 0];
    assert h + l == [id, 0, if fixed then 6 else 5, 0, |data| % 256, |data| / 256, 0, 0];
  }

  lemma {:induction false} TwoItems(x: Item, y: Item)
    ensures EncodeAll([x, y]) == Encode(x) + Encode(y)
  {
    hide Encode;
    EncodeAllFront(x, [y]);
    EncodeAllFront(y, []);
    assert [x, y] == [x] + [y] && [y] == [y] + [];
  }

  /** How many entries of a field a message may have: a required field has at least one, a field that is
      not repeated has at most one, and an optional repeated field has any number. */
  predicate CountOk(field: Field, n: nat) {
    && (field.card.Required? || field.card.RequiredRepeated? ==> n > 0)
    && (field.card.Required? || field.card.Optional? ==> n < 2)
  }

  predicate KindOk(kind: Kind, v: Value) {
    match v
    case Num(bytes, _) => kind == Uint(bytes)
    case Blob(fixed, data) => kind == if fixed then ConstBytes(|data|) else BProtoWire.Bytes
  }

  /** A message is accepted exactly if every entry is of a known field and of its type, and every field
      occurs as often as it may. */
  lemma {:induction false} AcceptedWhen(schema: Schema, items: seq<Item>)
    requires AllFit(items)
    ensures Accepts(schema, EncodeAll(items)) <==>
      && (forall i :: 0 <= i < |items| ==> items[i].id in schema && KindOk(schema[items[i].id].kind, items[i].value))
      && (forall id :: id in schema ==> CountOk(schema[id], |Values(items, id)|))
  {
    hide Values, EncodeAll, Items, Fits;
    ItemsOfEncodeAll(items, []);
    NoItems();
    assert EncodeAll(items) + [] == EncodeAll(items) && items + [] == items;
    assert forall i :: 0 <= i < |items| ==>
      (Known(schema, items[i]) <==> items[i].id in schema && KindOk(schema[items[i].id].kind, items[i].value));
    assert forall id :: id in schema ==>
      (Allowed(schema[id].card, |Values(items, id)|) <==> CountOk(schema[id], |Values(items, id)|));
  }

  lemma {:induction false} NoItems()
    ensures Items([]) == Some([])
  {
  }

  // ---- Messages between clients -----------------------------------------------------------------------------

  /** A message: its type as field 1 and its payload as field 2. */
  lemma MessageBytes(id: nat, payload: Data)
    requires id < 0x1_0000 && |payload| < 0x1_0000
    ensures EncodeMsg(id, payload) ==
      [1, 0, 2, 0, id % 256, id / 256] + [2, 0, 5, 0, |payload| % 256, |payload| / 256, 0, 0] + payload
  {
    hide Le, Encode;
    TwoItems(Item(1, Num(2, id)), Item(2, Blob(false, payload)));
    NumberBytes(1, 2, id);
    TwoBytes(id);
    ShortBlob(2, false, payload);
  }

  /** The messages of the link setup: "youconnect" is 1, "cannotconnect" 2, "cannotbind" 3, "youretry" 5. */
  lemma SetupMessages(offer: Data)
    requires |offer| < 0x1_0000
    ensures EncodeMsg(YOU_CONNECT, offer) ==
      [1, 0, 2, 0, 1, 0] + [2, 0, 5, 0, |offer| % 256, |offer| / 256, 0, 0] + offer
    ensures EncodeMsg(CANNOT_CONNECT, []) == [1, 0, 2, 0, 2, 0, 2, 0, 5, 0, 0, 0, 0, 0]
    ensures EncodeMsg(CANNOT_BIND, []) == [1, 0, 2, 0, 3, 0, 2, 0, 5, 0, 0, 0, 0, 0]
    ensures EncodeMsg(YOU_RETRY, []) == [1, 0, 2, 0, 5, 0, 2, 0, 5, 0, 0, 0, 0, 0]
  {
    hide EncodeMsg;
    MessageBytes(1, offer);
    MessageBytes(2, []);
    MessageBytes(3, []);
    MessageBytes(5, []);
  }

  lemma OneByte(id: Id, b: Byte)
    requires id < 256
    ensures Encode(Item(id, Num(1, b as int))) == [id, 0, 1, 0, b]
  {
    NumberBytes(id, 1, b as int);
    assert Le(b as int, 1) == [b as int % 256] + Le(b as int / 256, 0);
  }

  lemma {:induction false} ThreeItems(x: Item, y: Item, z: Item)
    ensures EncodeAll([x, y, z]) == Encode(x) + (Encode(y) + Encode(z))
  {
    hide Encode, EncodeAll;
    EncodeAllFront(x, [y, z]);
    TwoItems(y, z);
    assert [x, y, z] == [x] + [y, z];
  }

  /** An address: its type, port and IP address, in network byte order, as fields 1, 2, and 3 or 4. */
  lemma AddressBytes(a: BAddr)
    requires AddrOk(a)
    ensures EncodeAddr(a) ==
      if a.Ipv4? then [1, 0, 1, 0, 1] + ([2, 0, 6, 0, 2, 0, 0, 0] + a.port + ([3, 0, 6, 0, 4, 0, 0, 0] + a.ip))
      else [1, 0, 1, 0, 2] + ([2, 0, 6, 0, 2, 0, 0, 0] + a.port + ([4, 0, 6, 0, 16, 0, 0, 0] + a.ip))
  {
    hide Encode, EncodeAll;
    ThreeItems(AddrItems(a)[0], AddrItems(a)[1], AddrItems(a)[2]);
    OneByte(1, if a.Ipv4? then 1 else 2);
    ShortBlob(2, true, a.port);
    ShortBlob(if a.Ipv4? then 3 else 4, true, a.ip);
  }

  /** An external address in an offer: scope and address as fields 1 and 2 of a message of their own, which
      is field 1 of the offer. */
  lemma ScopedAddressBytes(a: Address)
    requires |a.scope| < 0x1_0000 && |a.addr| < 0x1_0000
    ensures EncodeAll(AddressItems(a)) ==
      ([1, 0, 5, 0, |a.scope| % 256, |a.scope| / 256, 0, 0] + a.scope) +
      ([2, 0, 5, 0, |a.addr| % 256, |a.addr| / 256, 0, 0] + a.addr)
    ensures AddressItem(a) == Item(1, Blob(false, EncodeAll(AddressItems(a))))
  {
    hide Encode, EncodeAll;
    TwoItems(Item(1, Blob(false, a.scope)), Item(2, Blob(false, a.addr)));
    ShortBlob(1, false, a.scope);
    ShortBlob(2, false, a.addr);
  }

  /** The key is field 2 of an offer, the password, of eight bytes, field 3. */
  lemma {:induction false} ExtraBytes(key: Data, password: nat)
    requires |key| < 0x1_0000
    ensures Encode(ExtraItems(Some(key), None)[0]) == [2, 0, 5, 0, |key| % 256, |key| / 256, 0, 0] + key
    ensures Encode(ExtraItems(None, Some(password))[0]) == [3, 0, 4, 0] + Le(password, 8)
  {
    hide Encode, Le;
    ShortBlob(2, false, key);
    NumberBytes(3, 8, password);
  }

  // ---- SPProto ------------------------------------------------------------------------------------------------

  /** A packet before encryption: two bytes of seed id and the four of the password, the hash of the whole
      packet with zeros in place of the hash, and the payload. */
  lemma PlainBytes(p: Sp.Suite, m: Sp.Packet)
    requires Sp.SuiteOk(p) && Sp.PacketOk(p, m)
    ensures var s := Sp.Plain(p, m);
      var o, h := if p.otp then 6 else 0, if p.hash.Some? then p.hash.value.size else 0;
      && |s| == o + h + |m.payload| && s[o + h..] == m.payload
      && (p.otp ==> s[..6] == [m.otp.value.seed % 256, m.otp.value.seed / 256] + m.otp.value.word)
      && (p.hash.Some? ==> s[o..o + h] == p.hash.value.digest(s[..o] + Zeros(h) + s[o + h..]))
  {
    var s, otp := Sp.Plain(p, m), Sp.OtpBytes(m);
    var o, h := if p.otp then 6 else 0, if p.hash.Some? then p.hash.value.size else 0;
    assert |otp| == o && |Sp.Digest(p, otp, m.payload)| == h;
    assert s[..o] == otp && s[o..o + h] == Sp.Digest(p, otp, m.payload) && s[o + h..] == m.payload;
  }

  /** An encrypted packet: the initialization vector in the clear, then the encryption of the plain packet
      followed by a one and as few zeros as fill up the last block. */
  lemma SealedBytes(p: Sp.Suite, m: Sp.Packet, iv: Data)
    requires Sp.SuiteOk(p) && Sp.PacketOk(p, m) && p.cipher.Some? && |iv| == p.cipher.value.block
    ensures var c, s, plain := p.cipher.value, Sp.Encode(p, m, iv), Sp.Plain(p, m);
      && c.block <= |s| && s[..c.block] == iv
      && var padded := c.dec(iv, s[c.block..]);
      && |padded| % c.block == 0 && |plain| < |padded| <= |plain| + c.block
      && padded == plain + [1] + Zeros(|padded| - |plain| - 1)
  {
    hide Sp.Plain, Sp.HashOk;
    var c, s, plain := p.cipher.value, Sp.Encode(p, m, iv), Sp.Plain(p, m);
    var padded := Sp.Padded(plain, c.block);
    Sp.UnpaddedOfPadded(plain, c.block);
    Sp.PaddedLength(plain, c.block);
    AlignUpIs(|plain| + 1, c.block);
    assert s[..c.block] == iv && s[c.block..] == c.enc(iv, padded);
  }
}
