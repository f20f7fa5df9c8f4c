/**
 Why the DHCP client is in the state it is in: which offer and which acknowledgements have led there and
 when, what ends it, and what is sent on the way.
 */
module DhcpHistory {
  import opened Prelude
  import opened DhcpSpec

  // ---- Offers and acknowledgements ----------------------------------------------------------------------

  /** The reply names an address, a server, a lease and a mask. */
  predicate Usable(r: Reply) {
    r.yiaddr != 0 && r.server.Some? && r.lease.Some? && r.mask.Some?
  }

  predicate IsOffer(e: Event, o: Offer) {
    e.Receive? && e.reply.kind.OfferMsg? && Usable(e.reply) && o == Offer(e.reply.yiaddr, e.reply.server.value)
  }

  predicate IsAck(e: Event, o: Offer) {
    e.Receive? && e.reply.kind.Ack? && Usable(e.reply) && o == Offer(e.reply.yiaddr, e.reply.server.value)
  }

  /** A refusal by the server whose offer was taken. */
  predicate IsNak(e: Event, o: Offer) {
    e.Receive? && e.reply.kind.Nak? && e.reply.server == Some(o.server)
  }

  /** The event is a reply to the current transaction or no reply at all. */
  predicate Current(c: Client, e: Event) {
    e.Receive? ==> e.reply.xid == c.xid
  }

  // ---- When the client is up -----------------------------------------------------------------------------

  /** The client stays up, with the same configuration, until its lease runs out or its server refuses. */
  lemma StaysUp(c: Client, e: Event, now: nat)
    requires IsUp(c.mode) && Enabled(c, e)
    ensures var d := Step(c, e, now);
      && (IsUp(d.mode) <==> !e.LeaseTimer? && !(Current(c, e) && IsNak(e, c.mode.offer)))
      && (IsUp(d.mode) ==> ConfigOf(d) == ConfigOf(c))
  {
  }

  /** It comes up exactly when the offer it has asked for is acknowledged, with what that says. */
  lemma ComesUp(c: Client, e: Event, now: nat)
    requires !IsUp(c.mode) && Enabled(c, e)
    ensures var d := Step(c, e, now);
      && (IsUp(d.mode) <==> c.mode.Requesting? && Current(c, e) && IsAck(e, c.mode.offer))
      && (IsUp(d.mode) ==>
            ConfigOf(d) == Some(Config(e.reply.yiaddr, Acked(e.reply.mask.value, e.reply.router, e.reply.dns))))
  {
  }

  /** It asks for an offer exactly when it is looking for one and gets one; it gives up asking when it
      has asked four times or is refused. */
  lemma AsksFor(c: Client, e: Event, now: nat)
    requires Enabled(c, e)
    ensures var d := Step(c, e, now);
      && (d.mode.Requesting? && !c.mode.Requesting? <==>
            c.mode.Discovering? && e.Receive? && Current(c, e) && exists o :: IsOffer(e, o))
      && (d.mode.Requesting? && !c.mode.Requesting? ==> IsOffer(e, d.mode.offer) && d.mode.count == 1)
      && (c.mode.Requesting? ==>
            && (d.mode.Discovering? <==> e.RequestTimer? && c.mode.count == 4)
            && (d.mode.Resetting? <==> Current(c, e) && IsNak(e, c.mode.offer))
            && (d.mode.Requesting? ==> d.mode.offer == c.mode.offer))
  {
    if c.mode.Discovering? && e.Receive? && Usable(e.reply) {
      assert e.reply.kind.OfferMsg? ==> IsOffer(e, Offer(e.reply.yiaddr, e.reply.server.value));
    }
  }

  // ---- What is sent ----------------------------------------------------------------------------------------

  /** The message that an event calls for. */
  function CalledFor(c: Client, e: Event): Option<Entry>
    requires Enabled(c, e)
  {
    match e
    case Receive(r) =>
      if c.mode.Discovering? && r.xid == c.xid && r.kind.OfferMsg? && Usable(r) then
        Some(Request(c.xid, Offer(r.yiaddr, r.server.value)))
      else None
    case Sent => None
    case ResetTimer => Some(Discover(NextXid(c, c.mode.Resetting?)))
    case RequestTimer => if c.mode.count < 4 then Some(Request(c.xid, c.mode.offer)) else Some(Discover(NextXid(c, false)))
    case RenewTimer => Some(Renewal(c.xid, c.mode.offer.yiaddr))
    case RenewRequestTimer => Some(Renewal(c.xid, c.mode.offer.yiaddr))
    case LeaseTimer => Some(Discover(c.xid + 1))
  }

  /** A transaction id serves eight processes, unless a new one is called for. */
  function NextXid(c: Client, fresh': bool): nat {
    if fresh' || c.uses == 8 then c.xid + 1 else c.xid
  }

  predicate IsMessage(e: Entry) {
    e.Discover? || e.Request? || e.Renewal?
  }

  function Messages(log: seq<Entry>): seq<Entry> {
    if log == [] then []
    else Messages(log[..|log|-1]) + if IsMessage(log[|log|-1]) then [log[|log|-1]] else []
  }

  lemma {:induction false} MessagesSnoc(log: seq<Entry>, e: Entry)
    ensures Messages(log + [e]) == if IsMessage(e) then Messages(log) + [e] else Messages(log)
  {
    assert (log + [e])[..|log|] == log;
  }

  /** What an event calls for is sent unless the previous message is still being sent, and nothing else
      is; a new process has the transaction id that its discover names. */
  lemma {:induction false} Speaks(c: Client, e: Event, now: nat)
    requires Inv(c) && Enabled(c, e)
    ensures var d, m := Step(c, e, now), CalledFor(c, e);
      && Messages(d.log) == Messages(c.log) + (if m.Some? && !c.sending then [m.value] else [])
      && d.sending == (m.Some? || (c.sending && !e.Sent?))
      && d.xid == if m.Some? && m.value.Discover? then m.value.xid else c.xid
  {
    hide Messages, LogOk, Reported, Requests, Count;
    var d, m := Step(c, e, now), CalledFor(c, e);
    match e
    case Receive(r) =>
      MessagesSnoc(c.log, Down);
      MessagesSnoc(c.log, Offered);
      if Usable(r) {
        MessagesSnoc(c.log, Up(Config(r.yiaddr, Acked(r.mask.value, r.router, r.dns))));
        MessagesSnoc(c.log + [Offered], Request(c.xid, Offer(r.yiaddr, r.server.value)));
      }
    case Sent =>
    case ResetTimer => ProcessSpeaks(c, c.mode.Resetting?, now);
    case RequestTimer =>
      ProcessSpeaks(c, false, now);
      MessagesSnoc(c.log, Request(c.xid, c.mode.offer));
    case RenewTimer => MessagesSnoc(c.log, m.value);
    case RenewRequestTimer => MessagesSnoc(c.log, m.value);
    case LeaseTimer =>
      ProcessSpeaks(c, true, now);
      MessagesSnoc(StartProcess(c, true, now).log, Down);
  }

  lemma {:induction false} ProcessSpeaks(c: Client, force: bool, now: nat)
    ensures var d, x := StartProcess(c, force, now), NextXid(c, force);
      d.xid == x && d.sending && Messages(d.log) == Messages(c.log) + if c.sending then [] else [Discover(x)]
  {
    hide Messages;
    var x := NextXid(c, force);
    MessagesSnoc(c.log, Process(x));
    MessagesSnoc(c.log + [Process(x)], Discover(x));
  }

  // ---- Where the state comes from -------------------------------------------------------------------------

  /** How often the renewal was repeated since event k. */
  function Repeats(es: seq<Timed>, k: nat): nat
    requires k <= |es|
  {
    if |es| == k then 0 else Repeats(es[..|es|-1], k) + if es[|es|-1].e.RenewRequestTimer? then 1 else 0
  }

  /** An offer was received at event i. */
  predicate OfferedAt(es: seq<Timed>, i: nat, o: Offer) {
    i < |es| && IsOffer(es[i].e, o)
  }

  /** The offer of event i was acknowledged at event j with this configuration, and again, or for the
      first time, at event k with this lease. */
  predicate AckedAt(es: seq<Timed>, i: nat, j: nat, k: nat, o: Offer, acked: Acked, lease: nat) {
    && i < j <= k < |es| && IsOffer(es[i].e, o) && IsAck(es[j].e, o) && IsAck(es[k].e, o)
    && (var r := es[j].e.reply; acked == Acked(r.mask.value, r.router, r.dns))
    && es[k].e.reply.lease.value == lease
  }

  /** The client asks every three seconds from the offer on; it renews when half of the lease is over,
      then every twenty seconds, until all of it is over. */
  ghost predicate Explained(es: seq<Timed>, c: Client) {
    match c.mode
    case Resetting(until) => exists i :: 0 <= i < |es| && until == es[i].at + 4000
    case Discovering(until) => until == 4000 || exists i :: 0 <= i < |es| && until == es[i].at + 4000
    case Requesting(until, count, o) => exists i: nat :: OfferedAt(es, i, o) && until == es[i].at + 3000 * count
    case Finished(renewAt, lease, o) =>
      exists i: nat, j: nat, k: nat ::
        AckedAt(es, i, j, k, o, c.acked, lease) && renewAt == es[k].at + 500 * lease && Repeats(es, k) == 0
    case Renewing(retryAt, until, lease, o) =>
      exists i: nat, j: nat, k: nat ::
        && AckedAt(es, i, j, k, o, c.acked, lease) && until == es[k].at + 1000 * lease
        && retryAt == es[k].at + 500 * lease + 20000 * (1 + Repeats(es, k))
  }

  lemma {:induction false} LaterStill(es: seq<Timed>, x: Timed, i: nat, j: nat, k: nat, o: Offer, acked: Acked, lease: nat)
    requires AckedAt(es, i, j, k, o, acked, lease)
    ensures AckedAt(es + [x], i, j, k, o, acked, lease) && (es + [x])[k] == es[k]
    ensures Repeats(es + [x], k) == Repeats(es, k) + if x.e.RenewRequestTimer? then 1 else 0
  {
    assert (es + [x])[..|es|] == es;
  }

  lemma {:induction false} NoRepeats(es: seq<Timed>, x: Timed)
    requires !x.e.RenewRequestTimer?
    ensures Repeats(es + [x], |es|) == 0
  {
    assert (es + [x])[..|es|] == es;
  }

  /** The event happens in time. */
  predicate Punctual(c: Client, x: Timed) {
    Enabled(c, x.e) && (Deadline(c, x.e).Some? ==> Deadline(c, x.e) == Some(x.at))
  }

  lemma {:induction false} NotUpExplained(es: seq<Timed>, c: Client, x: Timed)
    requires Explained(es, c) && Punctual(c, x) && !IsUp(c.mode)
    ensures Explained(es + [x], Step(c, x.e, x.at))
  {
    hide Repeats;
    var xs, d := es + [x], Step(c, x.e, x.at);
    assert forall i :: 0 <= i < |es| ==> xs[i] == es[i];
    assert xs[|es|] == x;
    if c.mode.Requesting? {
      var o := c.mode.offer;
      var i: nat :| OfferedAt(es, i, o) && c.mode.until == es[i].at + 3000 * c.mode.count;
      assert OfferedAt(xs, i, o);
      if IsUp(d.mode) {
        assert AckedAt(xs, i, |es|, |es|, o, d.acked, d.mode.lease);
        NoRepeats(es, x);
      }
    } else if d.mode.Requesting? {
      assert OfferedAt(xs, |es|, d.mode.offer);
    }
  }

  lemma {:induction false} UpExplained(es: seq<Timed>, c: Client, x: Timed)
    requires Explained(es, c) && Punctual(c, x) && IsUp(c.mode)
    ensures Explained(es + [x], Step(c, x.e, x.at))
  {
    hide Repeats;
    var xs, d, o := es + [x], Step(c, x.e, x.at), c.mode.offer;
    assert xs[|es|] == x;
    var i: nat, j: nat, k: nat :| AckedAt(es, i, j, k, o, c.acked, c.mode.lease) &&
      (if c.mode.Finished? then c.mode.renewAt == es[k].at + 500 * c.mode.lease && Repeats(es, k) == 0
       else c.mode.until == es[k].at + 1000 * c.mode.lease &&
            c.mode.retryAt == es[k].at + 500 * c.mode.lease + 20000 * (1 + Repeats(es, k)));
    LaterStill(es, x, i, j, k, o, c.acked, c.mode.lease);
    if c.mode.Renewing? && d.mode.Finished? {
      AckedAgain(es, x, i, j, k, o, c.acked, c.mode.lease);
      NoRepeats(es, x);
    }
  }

  lemma AckedAgain(es: seq<Timed>, x: Timed, i: nat, j: nat, k: nat, o: Offer, acked: Acked, lease: nat)
    requires AckedAt(es, i, j, k, o, acked, lease) && IsAck(x.e, o)
    ensures AckedAt(es + [x], i, j, |es|, o, acked, x.e.reply.lease.value)
  {
  }

  /** In every run with punctual timers: the client asks for an offer that it has received, every three
      seconds from then on; it is up by virtue of such an offer and of acknowledgements of it by the
      same server, with what the first of them said; it renews when half of the lease of the latest one
      is over, repeats that every twenty seconds, and stops when all of it is over. */
  lemma {:induction false} RunExplained(es: seq<Timed>)
    requires Run(es).Some?
    ensures Explained(es, Run(es).value)
  {
    hide Step, Explained, Inv;
    if es == [] {
      assert Explained([], START) by { StartExplained(); }
    } else {
      var init, x := es[..|es|-1], es[|es|-1];
      RunExplained(init);
      var c := Run(init).value;
      assert es == init + [x];
      if IsUp(c.mode) {
        UpExplained(init, c, x);
      } else {
        NotUpExplained(init, c, x);
      }
    }
  }

  lemma StartExplained()
    ensures Explained([], START)
  {
  }
}
