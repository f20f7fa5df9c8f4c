/**
 The messages that the DHCP client sends: a fixed header and a list of options, written into a buffer
 that is always large enough.
 */
module DhcpRequests {
  import opened Prelude
  import opened Bytes
  import opened Buffers
  import opened DhcpWire
  import opened DhcpReplies

  type Mac = m: Data | |m| == 6 witness [0, 0, 0, 0, 0, 0]

  // the client's output can carry what every host must accept (576 bytes), less the IP and UDP headers
  type Mtu = n: nat | n >= 548 witness 548

  datatype Names = Names(hostname: Option<Data>, vendorClassId: Option<Data>, clientId: Option<Data>)

  function Len(s: Option<Data>): nat {
    if s.Some? then |s.value| else 0
  }

  // the client refuses to start with longer options
  type ShortNames = o: Names | Len(o.hostname) + Len(o.vendorClassId) + Len(o.clientId) <= 100
    witness Names(None, None, None)

  // What is asked: kind is 1 to discover and 3 to request.
  datatype Ask = Ask(kind: Byte, ip: Option<nat>, server: Option<nat>)

  /** A 32-bit field. */
  function Field(n: nat): (v: Data)
    ensures |v| == 4
  {
    Split(n % 0x1_0000_0000)
  }

  function AskHeader(xid: nat, mac: Mac): (s: Data)
    ensures |s| == 240
  {
    [1, 1, 6, 0] + Field(xid) + Zeros(20) + mac + Zeros(10) + Zeros(192) + [99, 130, 83, 99]
  }

  function Maybe(t: Byte, v: Option<Data>): seq<Opt> {
    if v.Some? then [Tlv(t, v.value)] else []
  }

  function MaybeField(n: Option<nat>): Option<Data> {
    if n.Some? then Some(Field(n.value)) else None
  }

  function AskOptions(a: Ask, mtu: Mtu, o: ShortNames): seq<Opt> {
    Wanted(a, mtu) + Maybe(12, o.hostname) + Maybe(60, o.vendorClassId) + Maybe(61, o.clientId)
  }

  function Wanted(a: Ask, mtu: Mtu): seq<Opt> {
    [Tlv(53, [a.kind])] + Maybe(50, MaybeField(a.ip)) + Maybe(54, MaybeField(a.server)) +
    [Tlv(57, ToBe16((28 + mtu) % 0x1_0000))] + [Tlv(55, [1, 3, 6, 51])]
  }

  lemma AskOptionsOk(a: Ask, mtu: Mtu, o: ShortNames)
    ensures OptsOk(AskOptions(a, mtu, o))
  {
    hide ToBe16, Field;
    assert OptsOk(Wanted(a, mtu));
  }

  function EncodeAsk(xid: nat, mac: Mac, a: Ask, mtu: Mtu, o: ShortNames): Data {
    AskOptionsOk(a, mtu, o);
    AskHeader(xid, mac) + EncodeAll(AskOptions(a, mtu, o), 0)
  }

  // ---- Writing ----------------------------------------------------------------------------------------------

  lemma {:induction false} EncodeOptsSnoc(os: seq<Opt>, o: Opt)
    requires OptsOk(os) && OptOk(o)
    ensures OptsOk(os + [o]) && EncodeOpts(os + [o]) == EncodeOpts(os) + EncodeOpt(o)
  {
    if os == [] {
      assert os + [o] == [o] && [o][1..] == [];
    } else {
      EncodeOptsSnoc(os[1..], o);
      assert (os + [o])[1..] == os[1..] + [o];
    }
  }

  method Append(buf: array<Byte>, pos: nat, data: Data) returns (end: nat)
    requires pos + |data| <= buf.Length
    modifies buf
    ensures end == pos + |data| && buf[..end] == old(buf[..pos]) + data
  {
    CopyInto(buf, pos, data);
    end := pos + |data|;
    assert buf[..end] == buf[..pos] + buf[pos..end];
  }

  /** One option is appended to the message. */
  method PutOption(buf: array<Byte>, pos: nat, t: Byte, v: Data, ghost head: Data, ghost os: seq<Opt>) returns (end: nat)
    requires OptOk(Tlv(t, v)) && OptsOk(os) && pos + 2 + |v| <= buf.Length
    requires buf[..pos] == head + EncodeOpts(os)
    modifies buf
    ensures end == pos + 2 + |v| && OptsOk(os + [Tlv(t, v)]) && buf[..end] == head + EncodeOpts(os + [Tlv(t, v)])
  {
    hide EncodeOpts, OptsOk;
    ghost var before := buf[..pos];
    EncodeOptsSnoc(os, Tlv(t, v));
    end := Append(buf, pos, [t, |v|]);
    end := Append(buf, end, v);
    assert before + [t, |v|] + v == head + (EncodeOpts(os) + ([t, |v|] + v));
  }

  method PutMaybe(buf: array<Byte>, pos: nat, t: Byte, v: Option<Data>, ghost head: Data, ghost os: seq<Opt>)
    returns (end: nat)
    requires t != 0 && t != 255 && Len(v) < 256 && OptsOk(os) && pos + 2 + Len(v) <= buf.Length
    requires buf[..pos] == head + EncodeOpts(os)
    modifies buf
    ensures end <= pos + 2 + Len(v) && OptsOk(os + Maybe(t, v)) && buf[..end] == head + EncodeOpts(os + Maybe(t, v))
  {
    hide EncodeOpts, OptsOk;
    end := pos;
    if v.Some? {
      end := PutOption(buf, pos, t, v.value, head, os);
    } else {
      assert os + [] == os;
    }
  }

  method PutWanted(buf: array<Byte>, pos: nat, a: Ask, mtu: Mtu, ghost head: Data) returns (end: nat)
    requires pos + 25 <= buf.Length && buf[..pos] == head
    modifies buf
    ensures end <= pos + 25 && OptsOk(Wanted(a, mtu)) && buf[..end] == head + EncodeOpts(Wanted(a, mtu))
  {
    hide EncodeOpts, OptsOk, ToBe16, Field;
    var size := ToBe16((28 + mtu) % 0x1_0000);
    NoOptions();
    assert head + [] == head;
    end := PutOption(buf, pos, 53, [a.kind], head, []);
    ghost var os := [] + [Tlv(53, [a.kind])];
    end := PutMaybe(buf, end, 50, MaybeField(a.ip), head, os);
    os := os + Maybe(50, MaybeField(a.ip));
    end := PutMaybe(buf, end, 54, MaybeField(a.server), head, os);
    os := os + Maybe(54, MaybeField(a.server));
    end := PutOption(buf, end, 57, size, head, os);
    os := os + [Tlv(57, size)];
    end := PutOption(buf, end, 55, [1, 3, 6, 51], head, os);
    assert os + [Tlv(55, [1, 3, 6, 51])] == Wanted(a, mtu);
  }

  method PutNames(buf: array<Byte>, pos: nat, o: ShortNames, ghost head: Data, ghost os: seq<Opt>) returns (end: nat)
    requires pos + 106 <= buf.Length && OptsOk(os) && buf[..pos] == head + EncodeOpts(os)
    modifies buf
    ensures var all := os + Maybe(12, o.hostname) + Maybe(60, o.vendorClassId) + Maybe(61, o.clientId);
      end <= pos + 106 && OptsOk(all) && buf[..end] == head + EncodeOpts(all)
  {
    hide EncodeOpts, OptsOk;
    end := PutMaybe(buf, pos, 12, o.hostname, head, os);
    end := PutMaybe(buf, end, 60, o.vendorClassId, head, os + Maybe(12, o.hostname));
    end := PutMaybe(buf, end, 61, o.clientId, head, os + Maybe(12, o.hostname) + Maybe(60, o.vendorClassId));
  }

  /** send_message: the message fits into the client's buffer */
  method WriteAsk(xid: nat, mac: Mac, a: Ask, mtu: Mtu, o: ShortNames) returns (packet: Data)
    ensures packet == EncodeAsk(xid, mac, a, mtu, o) && |packet| <= 372
  {
    hide EncodeOpts, OptsOk, AskHeader, Wanted;
    var buf := new Byte[mtu];
    ghost var head := AskHeader(xid, mac);
    var pos := Append(buf, 0, AskHeader(xid, mac));
    assert buf[..pos] == head;
    pos := PutWanted(buf, pos, a, mtu, head);
    pos := PutNames(buf, pos, o, head, Wanted(a, mtu));
    pos := Append(buf, pos, [255]);
    packet := buf[..pos];
    assert packet == head + (EncodeOpts(AskOptions(a, mtu, o)) + ([255] + Zeros(0)));
  }

  lemma {:induction false} NoOptions()
    ensures OptsOk([]) && EncodeOpts([]) == []
  {
  }

  // ---- What a server reads -----------------------------------------------------------------------------------

  lemma {:induction false} LastConcat(xs: seq<Opt>, ys: seq<Opt>, t: Byte)
    ensures Last(xs + ys, t) == if Last(ys, t).Some? then Last(ys, t) else Last(xs, t)
  {
    if xs == [] {
      assert xs + ys == ys;
    } else {
      LastConcat(xs[1..], ys, t);
      assert (xs + ys)[1..] == xs[1..] + ys;
    }
  }

  lemma {:induction false} LastMaybe(u: Byte, v: Option<Data>, t: Byte)
    ensures Last(Maybe(u, v), t) == if u == t then v else None
    ensures v.Some? ==> Last([Tlv(u, v.value)], t) == if u == t then v else None
  {
    if v.Some? {
      assert [Tlv(u, v.value)][1..] == [];
    }
  }

  /** A server reads what is asked: the kind of message, the address and the server that are meant if
      there are any, how long the answer may be, that the mask, router, name servers and lease are
      wanted, and the names that the client goes by. */
  lemma {:induction false} AskIsRead(a: Ask, mtu: Mtu, o: ShortNames)
    ensures var os := AskOptions(a, mtu, o);
      && Last(os, 53) == Some([a.kind]) && Last(os, 50) == MaybeField(a.ip) && Last(os, 54) == MaybeField(a.server)
      && Last(os, 55) == Some([1, 3, 6, 51]) && Last(os, 57) == Some(ToBe16((28 + mtu) % 0x1_0000))
      && Last(os, 12) == o.hostname && Last(os, 60) == o.vendorClassId && Last(os, 61) == o.clientId
  {
    LastOfAsk(a, mtu, o, 53);
    LastOfAsk(a, mtu, o, 50);
    LastOfAsk(a, mtu, o, 54);
    LastOfAsk(a, mtu, o, 55);
    LastOfAsk(a, mtu, o, 57);
    LastOfAsk(a, mtu, o, 12);
    LastOfAsk(a, mtu, o, 60);
    LastOfAsk(a, mtu, o, 61);
  }

  lemma {:induction false} LastOfAsk(a: Ask, mtu: Mtu, o: ShortNames, t: Byte)
    ensures Last(AskOptions(a, mtu, o), t) ==
      if t == 53 then Some([a.kind]) else if t == 50 then MaybeField(a.ip) else if t == 54 then MaybeField(a.server)
      else if t == 57 then Some(ToBe16((28 + mtu) % 0x1_0000)) else if t == 55 then Some([1, 3, 6, 51])
      else if t == 12 then o.hostname else if t == 60 then o.vendorClassId else if t == 61 then o.clientId else None
  {
    hide Last, Field, ToBe16;
    var size := ToBe16((28 + mtu) % 0x1_0000);
    var x1 := [Tlv(53, [a.kind])];
    var x2 := x1 + Maybe(50, MaybeField(a.ip));
    var x3 := x2 + Maybe(54, MaybeField(a.server));
    var x4 := x3 + [Tlv(57, size)];
    var x5 := x4 + [Tlv(55, [1, 3, 6, 51])];
    var x6 := x5 + Maybe(12, o.hostname);
    var x7 := x6 + Maybe(60, o.vendorClassId);
    LastMaybe(53, Some([a.kind]), t);
    LastMaybe(50, MaybeField(a.ip), t);
    LastMaybe(54, MaybeField(a.server), t);
    LastMaybe(57, Some(size), t);
    LastMaybe(55, Some([1, 3, 6, 51]), t);
    LastMaybe(12, o.hostname, t);
    LastMaybe(60, o.vendorClassId, t);
    LastMaybe(61, o.clientId, t);
    LastConcat(x1, Maybe(50, MaybeField(a.ip)), t);
    LastConcat(x2, Maybe(54, MaybeField(a.server)), t);
    LastConcat(x3, [Tlv(57, size)], t);
    LastConcat(x4, [Tlv(55, [1, 3, 6, 51])], t);
    assert x5 == Wanted(a, mtu);
    LastConcat(x5, Maybe(12, o.hostname), t);
    LastConcat(x6, Maybe(60, o.vendorClassId), t);
    LastConcat(x7, Maybe(61, o.clientId), t);
  }

  /** The header of a message: a boot request from an Ethernet address of six bytes, with the transaction
      id at 4, the hardware address at 28, the DHCP magic at 236 and zeros everywhere else; the options
      follow and end with 255. */
  lemma AskBytes(xid: nat, mac: Mac, a: Ask, mtu: Mtu, o: ShortNames)
    ensures var s := EncodeAsk(xid, mac, a, mtu, o);
      && |s| > 240 && s[..4] == [1, 1, 6, 0] && s[4..8] == Field(xid) && s[28..34] == mac
      && s[236..240] == [99, 130, 83, 99] && s[|s|-1] == 255
      && (forall i :: 8 <= i < 28 || 34 <= i < 236 ==> s[i] == 0)
      && OptsOk(AskOptions(a, mtu, o)) && s[240..] == EncodeOpts(AskOptions(a, mtu, o)) + [255]
  {
    hide Field, EncodeOpts, AskOptions, OptsOk;
    AskOptionsOk(a, mtu, o);
    var s, body := EncodeAsk(xid, mac, a, mtu, o), EncodeOpts(AskOptions(a, mtu, o));
    assert [255] + Zeros(0) == [255];
    assert s == AskHeader(xid, mac) + (body + [255]);
    assert s[240..] == body + [255] && s[..240] == AskHeader(xid, mac);
    HeaderBytes(xid, mac);
    assert forall i :: 0 <= i < 240 ==> s[i] == s[..240][i];
  }

  lemma HeaderBytes(xid: nat, mac: Mac)
    ensures var s := AskHeader(xid, mac);
      && s[..4] == [1, 1, 6, 0] && s[4..8] == Field(xid) && s[28..34] == mac && s[236..240] == [99, 130, 83, 99]
      && forall i :: 8 <= i < 28 || 34 <= i < 236 ==> s[i] == 0
  {
    hide Field;
  }
}
