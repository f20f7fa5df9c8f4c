/**
 The DHCP client core (section 4.4 of RFC 2131) as a machine whose modes carry the deadlines they
 wait for.  Dhcp.dfy proves that the code, with its five timers, is this machine.
 */
module DhcpSpec {
  import opened Prelude

  const RESET_TIMEOUT: nat := 4000
  const REQUEST_TIMEOUT: nat := 3000
  const RENEW_REQUEST_TIMEOUT: nat := 20000
  const MAX_REQUESTS: nat := 4
  const XID_REUSE_MAX: nat := 8

  function RenewTimeout(lease: nat): nat {
    500 * lease
  }

  function LeaseTimeout(lease: nat): nat {
    1000 * lease - RenewTimeout(lease)
  }

  datatype Offer = Offer(yiaddr: nat, server: nat)

  // What an ACK says besides the lease, and what the user can ask for while the client is up.
  datatype Acked = Acked(mask: nat, router: Option<nat>, dns: seq<nat>)

  datatype Config = Config(ip: nat, acked: Acked)

  datatype Mode =
    | Resetting(until: nat)
    | Discovering(until: nat)
    | Requesting(until: nat, count: nat, offer: Offer)
    | Finished(renewAt: nat, lease: nat, offer: Offer)
    | Renewing(retryAt: nat, until: nat, lease: nat, offer: Offer)

  // What happened: transaction ids are numbered in the order of their creation; Process is the start
  // of a process, whether or not its DISCOVER could be sent.
  datatype Entry = Process(xid: nat) | Discover(xid: nat) | Offered | Request(xid: nat, offer: Offer)
    | Renewal(xid: nat, ip: nat) | Up(config: Config) | Down

  // xid, uses: current transaction and how many processes have used it; sending: the previous
  // message is still being sent; ackedAt: when the last ACK was accepted; acked: what the ACK said that
  // brought the client up
  datatype Client = Client(mode: Mode, xid: nat, uses: nat, sending: bool, ackedAt: nat, acked: Acked, log: seq<Entry>)

  datatype Kind = OfferMsg | Ack | Nak

  // A well-formed reply to this client's hardware address; absent options are None.
  datatype Reply = Reply(kind: Kind, xid: nat, yiaddr: nat, server: Option<nat>, lease: Option<nat>, mask: Option<nat>,
                         router: Option<nat>, dns: seq<nat>)

  datatype Event =
    | Receive(reply: Reply)
    | Sent                       // the message in the send buffer is out
    | ResetTimer | RequestTimer | RenewTimer | RenewRequestTimer | LeaseTimer

  // ---- Steps ---------------------------------------------------------------------------------------

  /** A message is dropped while the previous one is still being sent. */
  function SendMessage(c: Client, e: Entry): Client {
    if c.sending then c else c.(sending := true, log := c.log + [e])
  }

  function Note(c: Client, e: Entry): Client {
    c.(log := c.log + [e])
  }

  function StartProcess(c: Client, force: bool, now: nat): Client {
    var renewed := force || c.uses == XID_REUSE_MAX;
    var c1 := if renewed then c.(xid := c.xid + 1, uses := 1) else c.(uses := c.uses + 1);
    SendMessage(Note(c1, Process(c1.xid)), Discover(c1.xid)).(mode := Discovering(now + RESET_TIMEOUT))
  }

  predicate IsUp(m: Mode) {
    m.Finished? || m.Renewing?
  }

  function OfferOf(m: Mode): Option<Offer> {
    if m.Requesting? || m.Finished? || m.Renewing? then Some(m.offer) else None
  }

  function OnNak(c: Client, server: nat, now: nat): Client {
    var o := OfferOf(c.mode);
    if o.None? || o.value.server != server then c
    else
      var reset := c.(mode := Resetting(now + RESET_TIMEOUT));
      if IsUp(c.mode) then Note(reset, Down) else reset
  }

  function OnReply(c: Client, r: Reply, now: nat): Client {
    if c.mode.Resetting? || r.xid != c.xid || r.server.None? then c
    else if r.kind.Nak? then OnNak(c, r.server.value, now)
    else if r.yiaddr == 0 || r.lease.None? || r.mask.None? then c
    else
      var offer := Offer(r.yiaddr, r.server.value);
      var done := Finished(now + RenewTimeout(r.lease.value), r.lease.value, offer);
      if c.mode.Discovering? && r.kind.OfferMsg? then
        SendMessage(Note(c, Offered), Request(c.xid, offer)).(mode := Requesting(now + REQUEST_TIMEOUT, 1, offer))
      else if r.kind.Ack? && OfferOf(c.mode) == Some(offer) && c.mode.Requesting? then
        var acked := Acked(r.mask.value, r.router, r.dns);
        Note(c.(mode := done, ackedAt := now, acked := acked), Up(Config(r.yiaddr, acked)))
      else if r.kind.Ack? && OfferOf(c.mode) == Some(offer) && c.mode.Renewing? then
        c.(mode := done, ackedAt := now)
      else c
  }

  /** A timer can fire only in the modes that wait for it. */
  predicate Enabled(c: Client, e: Event) {
    match e
    case Receive(_) => true
    case Sent => c.sending
    case ResetTimer => c.mode.Resetting? || c.mode.Discovering?
    case RequestTimer => c.mode.Requesting?
    case RenewTimer => c.mode.Finished?
    case RenewRequestTimer => c.mode.Renewing?
    case LeaseTimer => c.mode.Renewing?
  }

  function Step(c: Client, e: Event, now: nat): Client
    requires Enabled(c, e)
  {
    match e
    case Receive(r) => OnReply(c, r, now)
    case Sent => c.(sending := false)
    case ResetTimer => StartProcess(c, c.mode.Resetting?, now)
    case RequestTimer =>
      if c.mode.count == MAX_REQUESTS then StartProcess(c, false, now)
      else
        SendMessage(c, Request(c.xid, c.mode.offer)).(mode :=
          Requesting(now + REQUEST_TIMEOUT, c.mode.count + 1, c.mode.offer))
    case RenewTimer =>
      SendMessage(c, Renewal(c.xid, c.mode.offer.yiaddr)).(mode :=
        Renewing(now + RENEW_REQUEST_TIMEOUT, now + LeaseTimeout(c.mode.lease), c.mode.lease, c.mode.offer))
    case RenewRequestTimer =>
      SendMessage(c, Renewal(c.xid, c.mode.offer.yiaddr)).(mode := c.mode.(retryAt := now + RENEW_REQUEST_TIMEOUT))
    case LeaseTimer => Note(StartProcess(c, true, now), Down)
  }

  const START := StartProcess(Client(Resetting(0), 0, 0, false, 0, Acked(0, None, []), []), true, 0)

  // ---- Properties of histories -----------------------------------------------------------------------

  /** Requests since the last offer. */
  function Requests(log: seq<Entry>): nat {
    if log == [] then 0
    else
      match log[|log|-1]
      case Offered => 0
      case Request(_, _) => Requests(log[..|log|-1]) + 1
      case _ => Requests(log[..|log|-1])
  }

  function Count(log: seq<Entry>, e: Entry): nat {
    if log == [] then 0
    else Count(log[..|log|-1], e) + if log[|log|-1] == e then 1 else 0
  }

  /** What the user believes: the client is down, or up with this configuration; None if two reports in
      a row were the same. */
  function Reported(log: seq<Entry>): Option<Option<Config>> {
    if log == [] then Some(None)
    else
      var before := Reported(log[..|log|-1]);
      match log[|log|-1]
      case Up(config) => if before == Some(None) then Some(Some(config)) else None
      case Down => if before.Some? && before.value.Some? then Some(None) else None
      case _ => before
  }

  ghost predicate LogOk(log: seq<Entry>, xid: nat) {
    && Requests(log) <= MAX_REQUESTS
    && forall x: nat :: ProcessesOk(log, x) && (x > xid ==> Count(log, Process(x)) == 0)
  }

  /** A transaction id serves at most eight processes, each of which sends at most one DISCOVER. */
  predicate ProcessesOk(log: seq<Entry>, xid: nat) {
    Count(log, Discover(xid)) <= Count(log, Process(xid)) <= XID_REUSE_MAX
  }

  /** What the user can ask for. */
  function ConfigOf(c: Client): Option<Config> {
    if IsUp(c.mode) then Some(Config(c.mode.offer.yiaddr, c.acked)) else None
  }

  ghost predicate Inv(c: Client) {
    && LogOk(c.log, c.xid) && c.uses == Count(c.log, Process(c.xid))
    && Reported(c.log) == Some(ConfigOf(c))
    && (c.mode.Requesting? ==> 1 <= c.mode.count <= MAX_REQUESTS && Requests(c.log) <= c.mode.count)
  }

  lemma {:induction false} LogMore(log: seq<Entry>, e: Entry)
    ensures Requests(log + [e]) == (if e.Offered? then 0 else if e.Request? then Requests(log) + 1 else Requests(log))
    ensures forall d :: Count(log + [e], d) == Count(log, d) + if e == d then 1 else 0
    ensures Reported(log + [e]) ==
      (if e.Up? then (if Reported(log) == Some(None) then Some(Some(e.config)) else None)
       else if e.Down? then (if Reported(log).Some? && Reported(log).value.Some? then Some(None) else None)
       else Reported(log))
  {
    assert (log + [e])[..|log|] == log;
  }

  lemma StartProcessKeeps(c: Client, force: bool, now: nat)
    requires LogOk(c.log, c.xid) && c.uses == Count(c.log, Process(c.xid))
    ensures var d := StartProcess(c, force, now);
      && LogOk(d.log, d.xid) && d.uses == Count(d.log, Process(d.xid))
      && Reported(d.log) == Reported(c.log) && Requests(d.log) == Requests(c.log)
  {
    hide Requests, Count, Reported;
    var x := if force || c.uses == XID_REUSE_MAX then c.xid + 1 else c.xid;
    LogMore(c.log, Process(x));
    LogMore(c.log + [Process(x)], Discover(x));
    forall y: nat
      ensures ProcessesOk(StartProcess(c, force, now).log, y)
    {
      assert ProcessesOk(c.log, y);
    }
  }

  lemma ReplyKeepsInv(c: Client, r: Reply, now: nat)
    requires Inv(c)
    ensures Inv(OnReply(c, r, now))
  {
    hide Requests, Count, Reported;
    LogMore(c.log, Down);
    if r.mask.Some? {
      LogMore(c.log, Up(Config(r.yiaddr, Acked(r.mask.value, r.router, r.dns))));
    }
    LogMore(c.log, Offered);
    if r.server.Some? {
      LogMore(c.log + [Offered], Request(c.xid, Offer(r.yiaddr, r.server.value)));
    }
  }

  lemma StepKeepsInv(c: Client, e: Event, now: nat)
    requires Inv(c) && Enabled(c, e)
    ensures Inv(Step(c, e, now))
  {
    hide Requests, Count, Reported, LogOk, OnReply, StartProcess;
    match e
    case Receive(r) => ReplyKeepsInv(c, r, now);
    case Sent =>
    case ResetTimer => ProcessKeepsInv(c, c.mode.Resetting?, now);
    case RequestTimer =>
      if c.mode.count == MAX_REQUESTS {
        ProcessKeepsInv(c, false, now);
      } else {
        RequestKeeps(c, c.mode.offer);
      }
    case RenewTimer => RenewalKeeps(c, c.mode.offer.yiaddr);
    case RenewRequestTimer => RenewalKeeps(c, c.mode.offer.yiaddr);
    case LeaseTimer =>
      StartProcessKeeps(c, true, now);
      StartMode(c, true, now);
      DownKeeps(StartProcess(c, true, now));
  }

  lemma StartMode(c: Client, force: bool, now: nat)
    ensures StartProcess(c, force, now).mode == Discovering(now + RESET_TIMEOUT)
  {
  }

  lemma ProcessKeepsInv(c: Client, force: bool, now: nat)
    requires Inv(c) && !IsUp(c.mode)
    ensures Inv(StartProcess(c, force, now))
  {
    StartProcessKeeps(c, force, now);
  }

  lemma RequestKeeps(c: Client, offer: Offer)
    requires LogOk(c.log, c.xid) && Requests(c.log) < MAX_REQUESTS
    ensures var d := SendMessage(c, Request(c.xid, offer));
      && LogOk(d.log, d.xid) && Reported(d.log) == Reported(c.log) && Requests(d.log) <= Requests(c.log) + 1
      && Count(d.log, Process(d.xid)) == Count(c.log, Process(c.xid))
  {
    hide Requests, Count, Reported;
    LogMore(c.log, Request(c.xid, offer));
  }

  lemma RenewalKeeps(c: Client, ip: nat)
    requires LogOk(c.log, c.xid)
    ensures var d := SendMessage(c, Renewal(c.xid, ip));
      && LogOk(d.log, d.xid) && Reported(d.log) == Reported(c.log) && Requests(d.log) == Requests(c.log)
      && Count(d.log, Process(d.xid)) == Count(c.log, Process(c.xid))
  {
    hide Requests, Count, Reported;
    LogMore(c.log, Renewal(c.xid, ip));
  }

  lemma DownKeeps(c: Client)
    requires LogOk(c.log, c.xid)
    ensures var d := Note(c, Down);
      && LogOk(d.log, d.xid) && Requests(d.log) == Requests(c.log) && Count(d.log, Process(d.xid)) == Count(c.log, Process(c.xid))
      && Reported(d.log) == if Reported(c.log).Some? && Reported(c.log).value.Some? then Some(None) else None
  {
    hide Requests, Count, Reported;
    LogMore(c.log, Down);
  }

  // ---- Runs with time ---------------------------------------------------------------------------------

  datatype Timed = Timed(e: Event, at: nat)

  function Deadline(c: Client, e: Event): Option<nat> {
    match e
    case ResetTimer => if c.mode.Resetting? || c.mode.Discovering? then Some(c.mode.until) else None
    case RequestTimer => if c.mode.Requesting? then Some(c.mode.until) else None
    case RenewTimer => if c.mode.Finished? then Some(c.mode.renewAt) else None
    case RenewRequestTimer => if c.mode.Renewing? then Some(c.mode.retryAt) else None
    case LeaseTimer => if c.mode.Renewing? then Some(c.mode.until) else None
    case _ => None
  }

  /** No running timer is overdue at this time. */
  predicate OnTime(c: Client, t: nat) {
    match c.mode
    case Resetting(until) => t <= until
    case Discovering(until) => t <= until
    case Requesting(until, _, _) => t <= until
    case Finished(renewAt, _, _) => t <= renewAt
    case Renewing(retryAt, until, _, _) => t <= retryAt && t <= until
  }

  /** The state after timed events; None unless time moves forward, every event is possible, no
      timer is ever overdue and every timer fires when it is due. */
  function Run(es: seq<Timed>): Option<Client> {
    if es == [] then Some(START)
    else
      var c := Run(es[..|es|-1]);
      var x := es[|es|-1];
      if c.None? || !Enabled(c.value, x.e) || !OnTime(c.value, x.at) then None
      else if |es| > 1 && x.at < es[|es|-2].at then None
      else if Deadline(c.value, x.e).Some? && Deadline(c.value, x.e) != Some(x.at) then None
      else Some(Step(c.value, x.e, x.at))
  }

  ghost predicate LeaseOk(c: Client) {
    && (c.mode.Finished? ==> c.mode.renewAt == c.ackedAt + RenewTimeout(c.mode.lease))
    && (c.mode.Renewing? ==> c.mode.until == c.ackedAt + 1000 * c.mode.lease)
  }

  lemma StepKeepsLease(c: Client, e: Event, now: nat)
    requires LeaseOk(c) && Enabled(c, e) && (Deadline(c, e).Some? ==> Deadline(c, e) == Some(now))
    ensures LeaseOk(Step(c, e, now))
  {
  }

  lemma {:induction false} RunKeeps(es: seq<Timed>)
    requires Run(es).Some?
    ensures Inv(Run(es).value) && LeaseOk(Run(es).value)
  {
    hide Inv, LeaseOk, Step;
    if es == [] {
      StartOk();
    } else {
      RunKeeps(es[..|es|-1]);
      var c, x := Run(es[..|es|-1]).value, es[|es|-1];
      StepKeepsInv(c, x.e, x.at);
      StepKeepsLease(c, x.e, x.at);
    }
  }

  lemma StartOk()
    ensures Inv(START) && LeaseOk(START)
  {
    var c := Client(Resetting(0), 0, 0, false, 0, Acked(0, None, []), []);
    StartProcessKeeps(c, true, 0);
  }

  /** In every run with punctual timers: the client is up at most until its lease runs out; up and
      down reports alternate and agree with the state, and while the client is up its configuration is
      the one it reported; at most four requests follow an offer; at most eight processes share a
      transaction id. */
  lemma {:induction false} DhcpRuns(es: seq<Timed>, t: nat)
    requires Run(es).Some? && OnTime(Run(es).value, t)
    ensures var c := Run(es).value;
      && (IsUp(c.mode) ==> t <= c.ackedAt + 1000 * c.mode.lease)
      && Reported(c.log) == Some(ConfigOf(c))
      && Requests(c.log) <= MAX_REQUESTS
      && forall x: nat :: ProcessesOk(c.log, x)
  {
    RunKeeps(es);
  }
}
