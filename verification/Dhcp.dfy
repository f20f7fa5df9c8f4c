/**
 BDHCPClientCore as the C code runs it: a state number and five timers that are started and stopped
 one by one.  The running timers are always those that the state calls for, so that the client is
 the machine of DhcpSpec.dfy.
 */
module DhcpImpl {
  import opened Prelude
  import opened Bytes
  import opened DhcpSpec
  import W = DhcpWire
  import opened DhcpRequests

  /** A message as the reference sees it, given the number of its transaction id. */
  function ReplyOf(m: W.Message, xid: nat): Reply {
    Reply(if m.kind == W.OFFER then OfferMsg else if m.kind == W.ACK then Ack else Nak,
          xid, m.yiaddr, Some(m.server), m.lease, m.mask, m.router, m.dns)
  }

  /** What a message asks: a renewal names no server. */
  function AskOf(e: Entry): Option<Ask> {
    match e
    case Discover(_) => Some(Ask(1, None, None))
    case Request(_, offer) => Some(Ask(3, Some(offer.yiaddr), Some(offer.server)))
    case Renewal(_, ip) => Some(Ask(3, Some(ip), None))
    case _ => None
  }

  /** What a packet does to the client. */
  function OnPacket(c: Client, mac: Data, wireXid: nat, packet: Data, now: nat): Client {
    var m := W.ParseReply(packet, mac, wireXid);
    if m.None? then c else Step(c, Receive(ReplyOf(m.value, c.xid)), now)
  }

  datatype State = RESETTING | SENT_DISCOVER | SENT_REQUEST | FINISHED | RENEWING

  class DhcpClient {
    const mac: Mac                 // the client's hardware address
    const mtu: Mtu
    const names: ShortNames
    var state: State
    // deadlines of the running timers
    var resetTimer: Option<nat>
    var requestTimer: Option<nat>
    var renewTimer: Option<nat>
    var renewRequestTimer: Option<nat>
    var leaseTimer: Option<nat>
    var xid: nat                   // number of the current transaction id
    var wireXid: nat               // the transaction id itself, a random number
    var xidReuseCounter: nat
    var requestCount: nat
    var offered: Offer
    var ackedLease: nat
    var acked: Acked               // the subnet mask, router and name servers of the ACK
    var sending: bool
    var packet: Data               // the message in the send buffer
    ghost var ackedAt: nat
    ghost var log: seq<Entry>

    /** The set of running timers is a function of the state. */
    ghost predicate TimersOk()
      reads this
    {
      && resetTimer.Some? == (state.RESETTING? || state.SENT_DISCOVER?)
      && requestTimer.Some? == state.SENT_REQUEST?
      && renewTimer.Some? == state.FINISHED?
      && renewRequestTimer.Some? == leaseTimer.Some? == state.RENEWING?
    }

    ghost function ModeView(): Mode
      requires TimersOk()
      reads this
    {
      match state
      case RESETTING => Resetting(resetTimer.value)
      case SENT_DISCOVER => Discovering(resetTimer.value)
      case SENT_REQUEST => Requesting(requestTimer.value, requestCount, offered)
      case FINISHED => Finished(renewTimer.value, ackedLease, offered)
      case RENEWING => Renewing(renewRequestTimer.value, leaseTimer.value, ackedLease, offered)
    }

    ghost function View(): Client
      requires TimersOk()
      reads this
    {
      Client(ModeView(), xid, xidReuseCounter, sending, ackedAt, acked, log)
    }

    ghost predicate Valid()
      reads this
    {
      TimersOk() && Inv(View())
    }

    constructor (mac: Mac, mtu: Mtu, names: ShortNames, random: nat)
      ensures Valid() && View() == START && this.mac == mac && wireXid == random
    {
      hide Inv;
      this.mac, this.mtu, this.names, wireXid := mac, mtu, names, 0;
      state, resetTimer, requestTimer, renewTimer := RESETTING, None, None, None;
      renewRequestTimer, leaseTimer := None, None;
      xid, xidReuseCounter, requestCount, offered, ackedLease := 0, 0, 0, Offer(0, 0), 0;
      sending, packet, ackedAt, acked, log := false, [], 0, Acked(0, None, []), [];
      new;
      StartProcess(true, 0, random);
      StartOk();
    }

    /** send_message; a message is lost while another one is being sent */
    method SendMessage(a: Ask, ghost e: Entry)
      requires AskOf(e) == Some(a)
      modifies this`sending, this`packet, this`log
      ensures sending && log == if old(sending) then old(log) else old(log) + [e]
      ensures packet == if old(sending) then old(packet) else EncodeAsk(wireXid, mac, a, mtu, names)
    {
      hide EncodeAsk;
      if sending {
        return;
      }
      packet := WriteAsk(wireXid, mac, a, mtu, names);
      sending := true;
      log := log + [e];
    }

    /** start_process, with all other timers stopped */
    method StartProcess(force: bool, now: nat, random: nat)
      requires requestTimer.None? && renewTimer.None? && renewRequestTimer.None? && leaseTimer.None?
      modifies this`state, this`resetTimer, this`xid, this`wireXid, this`xidReuseCounter, this`sending, this`packet,
        this`log
      ensures TimersOk() && state.SENT_DISCOVER? && resetTimer == Some(now + RESET_TIMEOUT)
      ensures var fresh' := force || old(xidReuseCounter) == XID_REUSE_MAX;
        && xid == (if fresh' then old(xid) + 1 else old(xid))
        && xidReuseCounter == (if fresh' then 1 else old(xidReuseCounter) + 1)
        && wireXid == (if fresh' then random else old(wireXid))
      ensures sending && log == if old(sending) then old(log) + [Process(xid)] else old(log) + [Process(xid)] + [Discover(xid)]
    {
      hide EncodeAsk;
      if force || xidReuseCounter == XID_REUSE_MAX {
        xid := xid + 1;
        wireXid := random;
        xidReuseCounter := 0;
      }
      xidReuseCounter := xidReuseCounter + 1;
      log := log + [Process(xid)];
      SendMessage(Ask(1, None, None), Discover(xid));
      resetTimer := Some(now + RESET_TIMEOUT);
      state := SENT_DISCOVER;
    }

    /** The end of recv_handler_done for a NAK */
    method HandleNak(server: nat, now: nat)
      requires Valid()
      modifies this
      ensures TimersOk() && View() == OnNak(old(View()), server, now)
    {
      hide Inv;
      if state.RESETTING? || state.SENT_DISCOVER? {
        return;
      }
      if server != offered.server {
        return;
      }
      if state.SENT_REQUEST? {
        requestTimer := None;
        resetTimer := Some(now + RESET_TIMEOUT);
        state := RESETTING;
      } else if state.FINISHED? {
        renewTimer := None;
        resetTimer := Some(now + RESET_TIMEOUT);
        state := RESETTING;
        log := log + [Down];
      } else {
        renewRequestTimer := None;
        leaseTimer := None;
        resetTimer := Some(now + RESET_TIMEOUT);
        state := RESETTING;
        log := log + [Down];
      }
    }

    /** recv_handler_done: a packet is a reply to the current transaction, or it changes nothing */
    method HandlePacket(data: Data, now: nat)
      requires Valid()
      modifies this
      ensures Valid()
      ensures View() == OnPacket(old(View()), mac, old(wireXid), data, now)
    {
      hide Inv, W.ParseReply;
      if state.RESETTING? {
        return;
      }
      var m := W.ReadReply(data, mac, wireXid);
      if m.Some? {
        HandleReply(ReplyOf(m.value, xid), now);
      }
    }

    /** The part of recv_handler_done that depends on the state. */
    method HandleReply(r: Reply, now: nat)
      requires Valid()
      modifies this
      ensures TimersOk() && View() == Step(old(View()), Receive(r), now) && Valid()
    {
      hide Inv;
      StepKeepsInv(View(), Receive(r), now);
      if state.RESETTING? || r.xid != xid || r.server.None? {
        return;
      }
      if r.kind.Nak? {
        HandleNak(r.server.value, now);
        return;
      }
      if r.yiaddr == 0 || r.lease.None? || r.mask.None? {
        return;
      }
      if state.SENT_DISCOVER? && r.kind.OfferMsg? {
        AcceptOffer(Offer(r.yiaddr, r.server.value), now);
      } else if (state.SENT_REQUEST? || state.RENEWING?) && r.kind.Ack? {
        if r.yiaddr != offered.yiaddr || r.server.value != offered.server {
          return;
        }
        AcceptAck(r.lease.value, Acked(r.mask.value, r.router, r.dns), now);
      }
    }

    method AcceptOffer(offer: Offer, now: nat)
      requires TimersOk() && state.SENT_DISCOVER?
      modifies this`state, this`resetTimer, this`requestTimer, this`requestCount, this`offered, this`sending,
        this`packet, this`log
      ensures TimersOk() && ModeView() == Requesting(now + REQUEST_TIMEOUT, 1, offer)
      ensures xid == old(xid) && xidReuseCounter == old(xidReuseCounter) && sending
      ensures ackedAt == old(ackedAt) && acked == old(acked)
      ensures log == if old(sending) then old(log) + [Offered] else old(log) + [Offered] + [Request(xid, offer)]
    {
      hide EncodeAsk;
      offered := offer;
      log := log + [Offered];
      SendMessage(Ask(3, Some(offered.yiaddr), Some(offered.server)), Request(xid, offered));
      resetTimer := None;
      requestTimer := Some(now + REQUEST_TIMEOUT);
      state := SENT_REQUEST;
      requestCount := 1;
    }

    /** An ACK in renewing changes the lease and nothing else. */
    method AcceptAck(lease: nat, said: Acked, now: nat)
      requires TimersOk() && (state.SENT_REQUEST? || state.RENEWING?)
      modifies this
      ensures TimersOk() && ModeView() == Finished(now + RenewTimeout(lease), lease, old(offered))
      ensures xid == old(xid) && xidReuseCounter == old(xidReuseCounter) && ackedAt == now && sending == old(sending)
      ensures acked == if old(state).SENT_REQUEST? then said else old(acked)
      ensures log == if old(state).SENT_REQUEST? then old(log) + [Up(Config(offered.yiaddr, said))] else old(log)
    {
      ackedLease := lease;
      ackedAt := now;
      if state.SENT_REQUEST? {
        requestTimer := None;
        renewTimer := Some(now + RenewTimeout(ackedLease));
        state := FINISHED;
        acked := said;
        log := log + [Up(Config(offered.yiaddr, acked))];
      } else {
        renewRequestTimer := None;
        leaseTimer := None;
        renewTimer := Some(now + RenewTimeout(ackedLease));
        state := FINISHED;
      }
    }

    /** BDHCPClientCore_GetClientIP and its siblings: while the client is up they tell what the user has
        been told when it came up */
    method GetConfig() returns (config: Config)
      requires Valid() && (state.FINISHED? || state.RENEWING?)
      ensures Reported(log) == Some(Some(config))
    {
      return Config(offered.yiaddr, acked);
    }

    /** send_handler_done */
    method SendDone()
      requires Valid() && sending
      modifies this`sending
      ensures TimersOk() && View() == Step(old(View()), Sent, 0) && Valid()
    {
      hide Inv;
      StepKeepsInv(View(), Sent, 0);
      sending := false;
    }

    /** reset_timer_handler */
    method OnResetTimer(now: nat, random: nat)
      requires Valid() && resetTimer.Some?
      modifies this
      ensures TimersOk() && View() == Step(old(View()), ResetTimer, now) && Valid()
    {
      hide Inv;
      StepKeepsInv(View(), ResetTimer, now);
      resetTimer := None;
      StartProcess(state.RESETTING?, now, random);
    }

    /** request_timer_handler */
    method OnRequestTimer(now: nat, random: nat)
      requires Valid() && requestTimer.Some?
      modifies this
      ensures TimersOk() && View() == Step(old(View()), RequestTimer, now) && Valid()
    {
      hide EncodeAsk, Inv;
      StepKeepsInv(View(), RequestTimer, now);
      requestTimer := None;
      if requestCount == MAX_REQUESTS {
        StartProcess(false, now, random);
        return;
      }
      SendMessage(Ask(3, Some(offered.yiaddr), Some(offered.server)), Request(xid, offered));
      requestTimer := Some(now + REQUEST_TIMEOUT);
      requestCount := requestCount + 1;
    }

    /** renew_timer_handler */
    method OnRenewTimer(now: nat)
      requires Valid() && renewTimer.Some?
      modifies this
      ensures TimersOk() && View() == Step(old(View()), RenewTimer, now) && Valid()
    {
      hide EncodeAsk, Inv;
      StepKeepsInv(View(), RenewTimer, now);
      renewTimer := None;
      SendMessage(Ask(3, Some(offered.yiaddr), None), Renewal(xid, offered.yiaddr));
      renewRequestTimer := Some(now + RENEW_REQUEST_TIMEOUT);
      leaseTimer := Some(now + LeaseTimeout(ackedLease));
      state := RENEWING;
    }

    /** renew_request_timer_handler */
    method OnRenewRequestTimer(now: nat)
      requires Valid() && renewRequestTimer.Some?
      modifies this
      ensures TimersOk() && View() == Step(old(View()), RenewRequestTimer, now) && Valid()
    {
      hide EncodeAsk, Inv;
      StepKeepsInv(View(), RenewRequestTimer, now);
      SendMessage(Ask(3, Some(offered.yiaddr), None), Renewal(xid, offered.yiaddr));
      renewRequestTimer := Some(now + RENEW_REQUEST_TIMEOUT);
    }

    /** lease_timer_handler */
    method OnLeaseTimer(now: nat, random: nat)
      requires Valid() && leaseTimer.Some?
      modifies this
      ensures TimersOk() && View() == Step(old(View()), LeaseTimer, now) && Valid()
    {
      hide Inv;
      StepKeepsInv(View(), LeaseTimer, now);
      leaseTimer := None;
      renewRequestTimer := None;
      StartProcess(true, now, random);
      log := log + [Down];
    }
  }
}
