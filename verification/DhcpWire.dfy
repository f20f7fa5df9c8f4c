/**
 DHCP replies on the wire (sections 2 and 3 of RFC 2131, RFC 2132): a fixed header and a list of
 options, of which the client reads a few.
 */
module DhcpWire {
  import opened Prelude
  import opened Bytes

  const HEADER: nat := 240
  const MAGIC: nat := 0x63825363
  const BOOT_REPLY: nat := 2
  const ETHERNET: nat := 1
  const MAX_DNS: nat := 16

  const OFFER: nat := 2
  const ACK: nat := 5
  const NAK: nat := 6

  // What the options say; later options override earlier ones.
  datatype Fields = Fields(kind: Option<Byte>, server: Option<nat>, lease: Option<nat>, mask: Option<nat>,
                           router: Option<nat>, dns: seq<nat>)

  const NO_FIELDS := Fields(None, None, None, None, None, [])

  function Addresses(v: Data): seq<nat>
    requires |v| % 4 == 0
  {
    if v == [] then [] else [Be32(v, 0)] + Addresses(v[4..])
  }

  function Take<T>(s: seq<T>, n: nat): seq<T> {
    if |s| <= n then s else s[..n]
  }

  /** One option; None if it has the wrong length. */
  function WithOption(f: Fields, t: Byte, v: Data): Option<Fields> {
    if t == 53 then if |v| != 1 then None else Some(f.(kind := Some(v[0])))
    else if t == 54 then if |v| != 4 then None else Some(f.(server := Some(Be32(v, 0))))
    else if t == 51 then if |v| != 4 then None else Some(f.(lease := Some(Be32(v, 0))))
    else if t == 1 then if |v| != 4 then None else Some(f.(mask := Some(Be32(v, 0))))
    else if t == 3 then if |v| != 4 then None else Some(f.(router := Some(Be32(v, 0))))
    else if t == 6 then if |v| % 4 != 0 then None else Some(f.(dns := Take(Addresses(v), MAX_DNS)))
    else Some(f)
  }

  /** The options in the rest of a packet; None where the code gives up. */
  function ParseOptions(s: Data, f: Fields, ended: bool): Option<Fields>
    decreases |s|
  {
    if s == [] then if ended then Some(f) else None
    else if s[0] == 0 then ParseOptions(s[1..], f, ended)
    else if ended then None
    else if s[0] == 255 then ParseOptions(s[1..], f, true)
    else if |s| < 2 || s[1] as int > |s| - 2 then None
    else
      var n := s[1] as int;
      var g := WithOption(f, s[0], s[2..2 + n]);
      if g.None? then None else ParseOptions(s[2 + n..], g.value, false)
  }

  // What the client makes of a packet.
  datatype Message = Message(kind: Byte, yiaddr: nat, server: nat, lease: Option<nat>, mask: Option<nat>,
                             router: Option<nat>, dns: seq<nat>)

  predicate HeaderOk(s: Data, mac: Data, xid: nat) {
    && |s| >= HEADER && s[0] == BOOT_REPLY && s[1] == ETHERNET && s[2] == 6
    && Be32(s, 4) == xid && s[28..34] == mac && Be32(s, 236) == MAGIC
  }

  function MessageOf(yiaddr: nat, f: Fields): Option<Message> {
    if f.kind.None? || f.kind.value as int !in {OFFER, ACK, NAK} || f.server.None? then None
    else Some(Message(f.kind.value, yiaddr, f.server.value, f.lease, f.mask, f.router, f.dns))
  }

  /** A reply to the client with this address and transaction id; None for any other packet. */
  function ParseReply(s: Data, mac: Data, xid: nat): Option<Message> {
    if !HeaderOk(s, mac, xid) then None
    else
      var f := ParseOptions(s[HEADER..], NO_FIELDS, false);
      if f.None? then None else MessageOf(Be32(s, 16), f.value)
  }

  // ---- What servers write ------------------------------------------------------------------------

  datatype Opt = Pad | Tlv(t: Byte, v: Data)

  predicate OptOk(o: Opt) {
    o.Tlv? ==> o.t != 0 && o.t != 255 && |o.v| < 256
  }

  predicate OptsOk(os: seq<Opt>) {
    forall i :: 0 <= i < |os| ==> OptOk(os[i])
  }

  function EncodeOpt(o: Opt): Data
    requires OptOk(o)
  {
    if o.Pad? then [0] else [o.t, |o.v|] + o.v
  }

  function EncodeOpts(os: seq<Opt>): Data
    requires OptsOk(os)
  {
    if os == [] then [] else EncodeOpt(os[0]) + EncodeOpts(os[1..])
  }

  /** What a list of options says. */
  function Said(os: seq<Opt>, f: Fields): Option<Fields> {
    if os == [] then Some(f)
    else if os[0].Pad? then Said(os[1..], f)
    else
      var g := WithOption(f, os[0].t, os[0].v);
      if g.None? then None else Said(os[1..], g.value)
  }

  lemma {:induction false} PaddingIsIgnored(n: nat, f: Fields)
    ensures ParseOptions(Zeros(n), f, true) == Some(f)
  {
    if n > 0 {
      PaddingIsIgnored(n - 1, f);
      assert Zeros(n)[1..] == Zeros(n - 1);
    }
  }

  function EncodeAll(os: seq<Opt>, n: nat): Data
    requires OptsOk(os)
  {
    EncodeOpts(os) + ([255] + Zeros(n))
  }

  /** Any list of options, ended and padded, is read as what it says. */
  lemma {:induction false} OptionsRoundTrip(os: seq<Opt>, n: nat, f: Fields)
    requires OptsOk(os)
    ensures ParseOptions(EncodeAll(os, n), f, false) == Said(os, f)
  {
    hide WithOption;
    var s := EncodeAll(os, n);
    if os == [] {
      assert s == [255] + Zeros(n) && s[1..] == Zeros(n);
      PaddingIsIgnored(n, f);
    } else {
      assert OptOk(os[0]);
      var rest := EncodeAll(os[1..], n);
      assert s == EncodeOpt(os[0]) + rest;
      if os[0].Pad? {
        assert s[1..] == rest;
        OptionsRoundTrip(os[1..], n, f);
      } else {
        var k := |os[0].v|;
        assert s[0] == os[0].t && s[1] == k && s[2..2 + k] == os[0].v && s[2 + k..] == rest;
        var g := WithOption(f, os[0].t, os[0].v);
        if g.Some? {
          OptionsRoundTrip(os[1..], n, g.value);
        }
      }
    }
  }

  lemma {:induction false} PaddingIsZeros(s: Data, f: Fields)
    requires ParseOptions(s, f, true).Some?
    ensures s == Zeros(|s|) && ParseOptions(s, f, true) == Some(f)
  {
    if s != [] {
      PaddingIsZeros(s[1..], f);
      assert Zeros(|s|) == [0] + Zeros(|s| - 1);
      assert s == [s[0]] + s[1..];
    }
  }

  lemma {:induction false} EndIsList(s: Data, f: Fields)
    requires s != [] && s[0] == 255 && ParseOptions(s, f, false).Some?
    ensures s == EncodeAll([], |s| - 1) && Said([], f) == ParseOptions(s, f, false)
  {
    PaddingIsZeros(s[1..], f);
    assert s == [255] + s[1..];
  }

  lemma {:induction false} PadIsOption(s: Data, f: Fields, os: seq<Opt>, n: nat)
    requires s != [] && s[0] == 0 && OptsOk(os) && s[1..] == EncodeAll(os, n)
    requires Said(os, f) == ParseOptions(s[1..], f, false)
    ensures OptsOk([Pad] + os) && s == EncodeAll([Pad] + os, n) && Said([Pad] + os, f) == ParseOptions(s, f, false)
  {
    hide EncodeAll, Said, OptsOk;
    AddOption(Pad, os, n, f);
    assert s == [0] + s[1..];
  }

  lemma {:induction false} TlvIsOption(s: Data, f: Fields, g: Fields, os: seq<Opt>, n: nat)
    requires |s| >= 2 && s[0] != 0 && s[0] != 255 && s[1] as int <= |s| - 2
    requires WithOption(f, s[0], s[2..2 + s[1] as int]) == Some(g)
    requires OptsOk(os) && s[2 + s[1] as int..] == EncodeAll(os, n)
    requires Said(os, g) == ParseOptions(s[2 + s[1] as int..], g, false)
    ensures var o := Tlv(s[0], s[2..2 + s[1] as int]);
      OptsOk([o] + os) && s == EncodeAll([o] + os, n) && Said([o] + os, f) == ParseOptions(s, f, false)
  {
    hide WithOption, EncodeAll, Said, OptsOk;
    var k := s[1] as int;
    var o := Tlv(s[0], s[2..2 + k]);
    AddOption(o, os, n, f);
    assert s == [s[0], s[1]] + s[2..2 + k] + s[2 + k..];
  }

  /** Whatever is accepted is such a list. */
  lemma {:induction false} AcceptedIsOptions(s: Data, f: Fields) returns (os: seq<Opt>, n: nat)
    requires ParseOptions(s, f, false).Some?
    ensures OptsOk(os) && s == EncodeAll(os, n) && Said(os, f) == ParseOptions(s, f, false)
    decreases |s|
  {
    hide WithOption, EncodeAll, Said;
    if s[0] == 255 {
      EndIsList(s, f);
      os, n := [], |s| - 1;
    } else if s[0] == 0 {
      os, n := AcceptedIsOptions(s[1..], f);
      PadIsOption(s, f, os, n);
      os := [Pad] + os;
    } else {
      var k := s[1] as int;
      var g := WithOption(f, s[0], s[2..2 + k]).value;
      os, n := AcceptedIsOptions(s[2 + k..], g);
      TlvIsOption(s, f, g, os, n);
      os := [Tlv(s[0], s[2..2 + k])] + os;
    }
  }

  lemma {:induction false} AddOption(o: Opt, os: seq<Opt>, n: nat, f: Fields)
    requires OptOk(o) && OptsOk(os)
    ensures OptsOk([o] + os) && EncodeAll([o] + os, n) == EncodeOpt(o) + EncodeAll(os, n)
    ensures Said([o] + os, f) ==
      if o.Pad? then Said(os, f)
      else var g := WithOption(f, o.t, o.v); if g.None? then None else Said(os, g.value)
  {
    assert ([o] + os)[1..] == os && ([o] + os)[0] == o;
  }

  // The fields of the header that the client ignores.
  datatype Rest = Rest(hops: Byte, secs: Data, ciaddr: Data, others: Data, names: Data, padding: Data)

  predicate RestOk(r: Rest) {
    |r.secs| == 4 && |r.ciaddr| == 4 && |r.others| == 8 && |r.padding| == 10 && |r.names| == 192
  }

  function EncodeHeader(xid: nat, yiaddr: nat, mac: Data, r: Rest): (s: Data)
    requires xid < 0x1_0000_0000 && yiaddr < 0x1_0000_0000 && |mac| == 6 && RestOk(r)
    ensures |s| == HEADER
  {
    [2, 1, 6, r.hops] + ToBe32(xid) + (r.secs + r.ciaddr) + ToBe32(yiaddr) +
    (r.others + mac + r.padding + r.names) + [99, 130, 83, 99]
  }

  lemma MagicBytes()
    ensures ToBe32(MAGIC) == [99, 130, 83, 99]
  {
  }

  lemma HeaderRead(xid: nat, yiaddr: nat, mac: Data, r: Rest, rest: Data)
    requires xid < 0x1_0000_0000 && yiaddr < 0x1_0000_0000 && |mac| == 6 && RestOk(r)
    ensures var s := EncodeHeader(xid, yiaddr, mac, r) + rest;
      HeaderOk(s, mac, xid) && Be32(s, 16) == yiaddr && s[HEADER..] == rest
  {
    hide ToBe32, Be32;
    var s := EncodeHeader(xid, yiaddr, mac, r) + rest;
    var a := [2, 1, 6, r.hops];
    var b, c := r.secs + r.ciaddr, r.others + mac + r.padding + r.names;
    assert ToBe32(MAGIC) == [99, 130, 83, 99] by { MagicBytes(); }
    assert s == a + ToBe32(xid) + (b + ToBe32(yiaddr) + c + ToBe32(MAGIC) + rest);
    Be32OfToBe32(xid, a, b + ToBe32(yiaddr) + c + ToBe32(MAGIC) + rest);
    assert s == (a + ToBe32(xid) + b) + ToBe32(yiaddr) + (c + ToBe32(MAGIC) + rest);
    Be32OfToBe32(yiaddr, a + ToBe32(xid) + b, c + ToBe32(MAGIC) + rest);
    assert s == (a + ToBe32(xid) + b + ToBe32(yiaddr) + c) + ToBe32(MAGIC) + rest;
    Be32OfToBe32(MAGIC, a + ToBe32(xid) + b + ToBe32(yiaddr) + c, rest);
    assert s[28..34] == mac;
  }

  /** A server's reply, with any options in any order, is read as what its options say. */
  lemma {:induction false} ReplyRoundTrip(xid: nat, yiaddr: nat, mac: Data, r: Rest, os: seq<Opt>, n: nat)
    requires xid < 0x1_0000_0000 && yiaddr < 0x1_0000_0000 && |mac| == 6 && RestOk(r) && OptsOk(os)
    ensures ParseReply(EncodeHeader(xid, yiaddr, mac, r) + EncodeAll(os, n), mac, xid) ==
      var f := Said(os, NO_FIELDS); if f.None? then None else MessageOf(yiaddr, f.value)
  {
    hide EncodeHeader, EncodeAll, ParseOptions, HeaderOk, Be32, MessageOf;
    HeaderRead(xid, yiaddr, mac, r, EncodeAll(os, n));
    OptionsRoundTrip(os, n, NO_FIELDS);
  }

  // ---- The code ------------------------------------------------------------------------------------

  /** The loop over the servers of a domain name server option. */
  method ReadAddresses(v: Data) returns (r: seq<nat>)
    requires |v| % 4 == 0
    ensures r == Take(Addresses(v), MAX_DNS)
  {
    r := [];
    var i := 0;
    AddressCount(v);
    assert v[0..] == v;
    while i < |v| / 4 && i < MAX_DNS
      invariant i <= |v| / 4 && i <= MAX_DNS && |r| == i && Addresses(v) == r + Addresses(v[4 * i..])
    {
      var rest := v[4 * i..];
      assert rest[4..] == v[4 * (i + 1)..];
      assert Be32(v, 4 * i) == Be32(rest, 0);
      r := r + [Be32(v, 4 * i)];
      i := i + 1;
    }
    if i == |v| / 4 {
      assert v[4 * i..] == [];
    }
  }

  lemma {:induction false} AddressCount(v: Data)
    requires |v| % 4 == 0
    ensures |Addresses(v)| == |v| / 4
  {
    if v != [] {
      AddressCount(v[4..]);
    }
  }

  method TakeOption(f: Fields, t: Byte, v: Data) returns (r: Option<Fields>)
    ensures r == WithOption(f, t, v)
  {
    if t == 6 && |v| % 4 == 0 {
      var dns := ReadAddresses(v);
      return Some(f.(dns := dns));
    }
    return WithOption(f, t, v);
  }

  lemma OptionAt(s: Data, pos: nat, n: nat)
    requires pos + 2 + n <= |s|
    ensures s[pos..][2..2 + n] == s[pos + 2..pos + 2 + n] && s[pos..][2 + n..] == s[pos + 2 + n..]
  {
  }

  /** The option loop of recv_handler_done. */
  method ReadOptions(s: Data) returns (r: Option<Fields>)
    ensures r == ParseOptions(s, NO_FIELDS, false)
  {
    hide WithOption;
    var pos, f, ended := 0, NO_FIELDS, false;
    assert s[0..] == s;
    while pos < |s|
      invariant pos <= |s| && ParseOptions(s, NO_FIELDS, false) == ParseOptions(s[pos..], f, ended)
    {
      var rest := s[pos..];
      assert rest[1..] == s[pos + 1..];
      if s[pos] == 0 {
        pos := pos + 1;
      } else if ended {
        return None;
      } else if s[pos] == 255 {
        pos, ended := pos + 1, true;
      } else {
        if |s| - pos < 2 || s[pos + 1] as int > |s| - pos - 2 {
          return None;
        }
        var n := s[pos + 1] as int;
        OptionAt(s, pos, n);
        var g := TakeOption(f, s[pos], s[pos + 2..pos + 2 + n]);
        if g.None? {
          return None;
        }
        f := g.value;
        pos := pos + 2 + n;
      }
    }
    assert s[pos..] == [];
    return if ended then Some(f) else None;
  }

  /** The checks of recv_handler_done that depend on the packet, the hardware address and the
      transaction id alone. */
  method ReadReply(s: Data, mac: Data, xid: nat) returns (r: Option<Message>)
    ensures r == ParseReply(s, mac, xid)
  {
    if |s| < HEADER || s[0] != BOOT_REPLY || s[1] != ETHERNET || s[2] != 6 {
      return None;
    }
    if Be32(s, 4) != xid || s[28..34] != mac || Be32(s, 236) != MAGIC {
      return None;
    }
    var r0 := ReadOptions(s[HEADER..]);
    if r0.None? || r0.value.kind.None? || r0.value.kind.value as int !in {OFFER, ACK, NAK} || r0.value.server.None? {
      return None;
    }
    var f := r0.value;
    return Some(Message(f.kind.value, Be32(s, 16), f.server.value, f.lease, f.mask, f.router, f.dns));
  }
}
