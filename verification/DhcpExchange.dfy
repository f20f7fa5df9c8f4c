/**
 A conversation with a DHCP server, from the bytes of its replies to what the client makes of them.
 */
module DhcpExchange {
  import opened Prelude
  import opened Bytes
  import opened DhcpSpec
  import opened DhcpHistory
  import opened DhcpReplies
  import opened DhcpRequests
  import opened DhcpImpl
  import W = DhcpWire

  /** The packet is a server's reply to this client and transaction that says this message. */
  ghost predicate Carries(packet: Data, mac: Data, xid: nat, m: W.Message) {
    && xid < 0x1_0000_0000 && m.yiaddr < 0x1_0000_0000 && |mac| == 6 && MessageOk(m)
    && exists r, os, n: nat :: W.RestOk(r) && W.OptsOk(os) && LengthsOk(os) && Says(os, m) &&
         packet == W.EncodeHeader(xid, m.yiaddr, mac, r) + W.EncodeAll(os, n)
  }

  lemma {:induction false} CarriedIsRead(packet: Data, mac: Data, xid: nat, m: W.Message)
    requires Carries(packet, mac, xid, m)
    ensures W.ParseReply(packet, mac, xid) == Some(m)
  {
    hide W.ParseReply, W.EncodeHeader, W.EncodeAll, Says, MessageOk, LengthsOk, W.OptsOk, W.RestOk;
    var r, os, n: nat :| W.RestOk(r) && W.OptsOk(os) && LengthsOk(os) && Says(os, m) &&
      packet == W.EncodeHeader(xid, m.yiaddr, mac, r) + W.EncodeAll(os, n);
    MessageRoundTrip(xid, mac, r, os, n, m);
  }

  /** An offer (type 2) and its acknowledgement (type 5) bring a client up that is looking for a server:
      it asks for the offered address, and has what the acknowledgement says, for half of the lease
      before it renews. */
  lemma {:induction false} Exchange(c: Client, mac: Data, xid: nat, offer: Data, ack: Data, m: W.Message, k: W.Message,
                                    t: nat, u: nat)
    requires c.mode.Discovering? && Carries(offer, mac, xid, m) && Carries(ack, mac, xid, k)
    requires m.kind == 2 && m.yiaddr != 0 && m.lease.Some? && m.mask.Some?
    requires k.kind == 5 && k.yiaddr == m.yiaddr && k.server == m.server && k.lease.Some? && k.mask.Some?
    ensures var c1 := OnPacket(c, mac, xid, offer, t);
      var c2 := OnPacket(c1, mac, xid, ack, u);
      && c1.mode == Requesting(t + 3000, 1, Offer(m.yiaddr, m.server))
      && c2.mode == Finished(u + 500 * k.lease.value, k.lease.value, Offer(m.yiaddr, m.server))
      && ConfigOf(c2) == Some(Config(m.yiaddr, Acked(k.mask.value, k.router, k.dns)))
  {
    hide W.ParseReply, Carries;
    CarriedIsRead(offer, mac, xid, m);
    CarriedIsRead(ack, mac, xid, k);
  }

  /** A refusal (type 6) by the server whose offer was taken ends everything for four seconds; a refusal by
      another server, and a refusal before an offer was taken, change nothing. */
  lemma {:induction false} Refusal(c: Client, mac: Data, xid: nat, nak: Data, m: W.Message, t: nat)
    requires Carries(nak, mac, xid, m) && m.kind == 6
    ensures var d := OnPacket(c, mac, xid, nak, t);
      if OfferOf(c.mode).Some? && OfferOf(c.mode).value.server == m.server
      then d.mode == Resetting(t + 4000) && ConfigOf(d).None?
      else d == c
  {
    hide W.ParseReply, Carries;
    CarriedIsRead(nak, mac, xid, m);
  }

  /** An acknowledgement while the client renews extends the lease, from then on, and nothing else. */
  lemma {:induction false} Renewed(c: Client, mac: Data, xid: nat, ack: Data, k: W.Message, t: nat)
    requires c.mode.Renewing? && Carries(ack, mac, xid, k)
    requires k.kind == 5 && k.yiaddr == c.mode.offer.yiaddr != 0 && k.server == c.mode.offer.server
    requires k.lease.Some? && k.mask.Some?
    ensures var d := OnPacket(c, mac, xid, ack, t);
      d.mode == Finished(t + 500 * k.lease.value, k.lease.value, c.mode.offer) && ConfigOf(d) == ConfigOf(c)
  {
    hide W.ParseReply, Carries;
    CarriedIsRead(ack, mac, xid, k);
  }

  /** A packet that is no reply to this client and transaction changes nothing. */
  lemma {:induction false} OtherPackets(c: Client, mac: Data, xid: nat, packet: Data, t: nat)
    requires |packet| < 240 || packet[0] != 2 || packet[1] != 1 || packet[2] != 6 || packet[28..34] != mac ||
      Word(packet[4..8]) != xid || packet[236..240] != [99, 130, 83, 99]
    ensures OnPacket(c, mac, xid, packet, t) == c
  {
    hide W.ParseOptions;
    if |packet| >= 240 {
      WordIs(packet[4..8]);
      WordIs(packet[236..240]);
    }
  }

  /** What the messages of the client ask, by option numbers: a discover (type 1) asks for no address; a
      request (type 3) names the offered address and the server; a renewal (type 3) names the address
      alone. */
  lemma AsksInOptions(e: Entry, mtu: Mtu, o: ShortNames)
    ensures IsMessage(e) <==> AskOf(e).Some?
    ensures IsMessage(e) ==>
      var os := AskOptions(AskOf(e).value, mtu, o);
      && Last(os, 53) == Some(if e.Discover? then [1] else [3])
      && Last(os, 50) == (match e
           case Request(_, offer) => Some(Field(offer.yiaddr))
           case Renewal(_, ip) => Some(Field(ip))
           case _ => None)
      && Last(os, 54) == if e.Request? then Some(Field(e.offer.server)) else None
  {
    hide Last, AskOptions, Field;
    if AskOf(e).Some? {
      AskIsRead(AskOf(e).value, mtu, o);
    }
  }

  /** A client that hears a message of its own kind is not misled: requests are no replies. */
  lemma {:induction false} RequestsIgnored(c: Client, mac: Data, wireXid: nat, xid: nat, from: Mac, a: Ask, mtu: Mtu,
                                           o: ShortNames, t: nat)
    ensures OnPacket(c, mac, wireXid, EncodeAsk(xid, from, a, mtu, o), t) == c
  {
    hide EncodeAsk, OnPacket;
    AskBytes(xid, from, a, mtu, o);
    var s := EncodeAsk(xid, from, a, mtu, o);
    assert s[0] == s[..4][0];
    OtherPackets(c, mac, wireXid, s, t);
  }
}
