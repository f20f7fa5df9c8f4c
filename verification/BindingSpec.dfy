/**
 How two clients set up a link: the one with the higher id, the master, offers the addresses it can
 bind to one after the other; when they are used up the slave offers its own; when those are used
 up too, both fall back to relaying.  When a link cannot be had the master tries again later.
 */
module BindingSpec {
  import opened Prelude
  import opened Bytes
  import opened AddrProto

  // An external address of a bind address and the scope in which it is reachable.
  datatype Ext = Ext(scope: Data, address: BAddr)

  // What comes of an attempt to bind: it succeeds, no port is free, or there is no link to bind.
  datatype Attempt = Binds | PortsTaken | NoLink

  datatype Local = Local(ext: seq<Ext>, attempt: Attempt)

  datatype Mode =
    | Before(provider: bool)     // with or without an old link; a provider relays for other peers
    | Opened                     // a fresh link, not bound yet
    | Bound(at: nat)             // waits for a connection on this bind address
    | Connected(to: Ext)
    | GaveUp                     // relayed or waiting for a relay
    | Down                       // cleaned up after a failure

  // binding, pos: binding and binding_addrpos; retry: reset_timer is running; refused: the addresses
  // to which connecting fails
  datatype Node = Node(addrs: seq<Local>, scopes: set<Data>, refused: set<Ext>, master: bool,
                       binding: bool, pos: nat, mode: Mode, retry: bool)

  datatype Msg = YouConnect(ext: seq<Ext>) | CannotConnect | CannotBind | YouRetry

  // ---- One side -----------------------------------------------------------------------------------

  /** The first offered address that is in a known scope. */
  function FirstUsable(scopes: set<Data>, ext: seq<Ext>): (e: Option<Ext>)
    ensures e.Some? ==> exists i ::
      0 <= i < |ext| && e.value == ext[i] && ext[i].scope in scopes && forall j :: 0 <= j < i ==> ext[j].scope !in scopes
    ensures e.None? ==> forall x :: x in ext ==> x.scope !in scopes
  {
    if ext == [] then None
    else if ext[0].scope in scopes then Some(ext[0])
    else FirstUsable(scopes, ext[1..])
  }

  function NeedRelay(n: Node): Node {
    if n.mode == Before(true) then n else n.(mode := GaveUp)
  }

  /** peer_reset: the master tries again later, the slave asks it to. */
  function Reset(n: Node): (Node, seq<Msg>) {
    if n.master then (n.(mode := Down, retry := true), []) else (n.(mode := Down), [YouRetry])
  }

  /** peer_bind: the next offer, or the news that there is none, or a reset. */
  function Bind(n: Node): (Node, seq<Msg>)
    decreases |n.addrs| - n.pos
  {
    if n.pos < |n.addrs| then
      var a := n.addrs[n.pos];
      var next := n.(pos := n.pos + 1);
      if a.ext == [] then Bind(next)
      else
        match a.attempt
        case Binds => (next.(mode := Bound(n.pos)), [YouConnect(a.ext)])
        case PortsTaken => Bind(next.(mode := Opened))
        case NoLink => Reset(next)
    else
      var done := n.(binding := false);
      (if n.master then done else NeedRelay(done), [CannotBind])
  }

  function StartBinding(n: Node): (Node, seq<Msg>) {
    Bind(n.(binding := true, pos := 0))
  }

  function React(n: Node, m: Msg): (Node, seq<Msg>) {
    match m
    case YouConnect(ext) =>
      var e := FirstUsable(n.scopes, ext);
      if e.None? then (n, [CannotConnect])
      else if e.value in n.refused then Reset(n)
      else (n.(mode := Connected(e.value)), [])
    case CannotConnect => if n.binding then Bind(n) else (n, [])
    case CannotBind => if n.master then (NeedRelay(n), []) else StartBinding(n)
    case YouRetry => if n.master then Reset(n) else (n, [])
  }

  // ---- Both sides, and the messages between them ------------------------------------------------

  datatype Net = Net(m: Node, s: Node, toM: seq<Msg>, toS: seq<Msg>, sent: nat)

  /** The setup starts at the master; both sides may be in any state. */
  function Begin(m: Node, s: Node): Net {
    var (m', out) := StartBinding(m);
    Net(m', s, [], out, |out|)
  }

  /** The first message on its way to one of the sides arrives. */
  function Deliver(n: Net, toMaster: bool): Net
    requires if toMaster then n.toM != [] else n.toS != []
  {
    if toMaster then
      var (m', out) := React(n.m, n.toM[0]);
      n.(m := m', toM := n.toM[1..], toS := n.toS + out, sent := n.sent + |out|)
    else
      var (s', out) := React(n.s, n.toS[0]);
      n.(s := s', toS := n.toS[1..], toM := n.toM + out, sent := n.sent + |out|)
  }

  /** Any interleaving of arrivals; impossible ones are skipped. */
  function Run(n: Net, schedule: seq<bool>): Net
    decreases |schedule|
  {
    if schedule == [] then n
    else
      var b := Run(n, schedule[..|schedule|-1]);
      var toMaster := schedule[|schedule|-1];
      if (if toMaster then b.toM != [] else b.toS != []) then Deliver(b, toMaster) else b
  }

  predicate Quiet(n: Net) {
    n.toM == [] && n.toS == []
  }

  // ---- What must come out ---------------------------------------------------------------------------

  /** Trying this address ends the search: the other side finds an address to connect to, or there is
      no link to bind. */
  predicate Stops(a: Local, scopes: set<Data>) {
    a.ext != [] && (a.attempt.NoLink? || (a.attempt.Binds? && FirstUsable(scopes, a.ext).Some?))
  }

  function FirstStop(addrs: seq<Local>, scopes: set<Data>, from: nat): (r: Option<nat>)
    ensures r.Some? ==> from <= r.value < |addrs| && Stops(addrs[r.value], scopes)
    decreases |addrs| - from
  {
    if from >= |addrs| then None
    else if Stops(addrs[from], scopes) then Some(from)
    else FirstStop(addrs, scopes, from + 1)
  }

  /** Some address from here on has an external address to offer. */
  predicate Offers(addrs: seq<Local>, from: nat) {
    exists i :: from <= i < |addrs| && addrs[i].ext != []
  }

  /** The binder waits on address i and the other side has connected to the first external address of
      it that is in a scope it knows. */
  predicate Linked(binder: Node, other: Node, i: nat) {
    && i < |binder.addrs| && binder.mode == Bound(i)
    && var e := FirstUsable(other.scopes, binder.addrs[i].ext); e.Some? && other.mode == Connected(e.value)
  }

  /** The master has cleaned up and its retry timer is running. */
  predicate WillRetry(n: Net) {
    n.m.mode == Down && n.m.retry
  }

  /** The other side cannot connect to the address that it picks. */
  predicate Refuses(other: Node, a: Local) {
    var e := FirstUsable(other.scopes, a.ext); e.Some? && e.value in other.refused
  }

  /** What is left of a side that has run out of addresses and gives up: a provider that never opened
      a link keeps relaying over its old one. */
  function Fallback(n: Node): Mode {
    if n.mode == Before(true) && !Offers(n.addrs, 0) then n.mode else GaveUp
  }

  /** The outcome of a setup between m and s, as a function of what both sides can offer. */
  predicate Outcome(m: Node, s: Node, end: Net) {
    var i := FirstStop(m.addrs, s.scopes, 0);
    var j := FirstStop(s.addrs, m.scopes, 0);
    if i.Some? then
      if m.addrs[i.value].attempt.NoLink? then WillRetry(end) && end.s == s
      else if Refuses(s, m.addrs[i.value]) then WillRetry(end) && end.s.mode == Down
      else Linked(end.m, end.s, i.value) && end.m.retry == m.retry
    else if j.Some? then
      if s.addrs[j.value].attempt.NoLink? then WillRetry(end) && end.s.mode == Down
      else if Refuses(m, s.addrs[j.value]) then WillRetry(end) && end.s.mode == Bound(j.value)
      else Linked(end.s, end.m, j.value) && end.m.retry == m.retry
    else end.m.mode == Fallback(m) && end.s.mode == Fallback(s) && end.m.retry == m.retry
  }

  /** One side waits on a bind address and the other has connected to an external address of it. */
  predicate Joined(binder: Node, other: Node) {
    && binder.mode.Bound? && binder.mode.at < |binder.addrs| && other.mode.Connected?
    && other.mode.to in binder.addrs[binder.mode.at].ext
    && other.mode.to.scope in other.scopes && other.mode.to !in other.refused
  }

  predicate Relays(n: Node) {
    n.mode == GaveUp || n.mode == Before(true)
  }

  /** What a setup is for: a link, or both sides rely on relaying. */
  predicate Settled(n: Net) {
    Joined(n.m, n.s) || Joined(n.s, n.m) || (Relays(n.m) && Relays(n.s))
  }

  /** The address that ends the search, if there is one, leads to a link. */
  predicate NothingFails(m: Node, s: Node) {
    var i := FirstStop(m.addrs, s.scopes, 0);
    var j := FirstStop(s.addrs, m.scopes, 0);
    if i.Some? then m.addrs[i.value].attempt.Binds? && !Refuses(s, m.addrs[i.value])
    else j.Some? ==> s.addrs[j.value].attempt.Binds? && !Refuses(m, s.addrs[j.value])
  }

  // ---- Proof ------------------------------------------------------------------------------------------

  predicate Attempted(a: Local) {
    a.ext != [] && a.attempt.Binds?
  }

  predicate Same(a: Node, b: Node) {
    a.addrs == b.addrs && a.scopes == b.scopes && a.refused == b.refused && a.master == b.master
  }

  lemma StopUnfolds(addrs: seq<Local>, scopes: set<Data>, i: nat)
    requires i < |addrs|
    ensures addrs[i].ext != [] && addrs[i].attempt.NoLink? ==> FirstStop(addrs, scopes, i) == Some(i)
    ensures addrs[i].ext == [] || addrs[i].attempt.PortsTaken? ==>
      FirstStop(addrs, scopes, i) == FirstStop(addrs, scopes, i + 1)
  {
  }

  lemma {:induction false} NoStop(addrs: seq<Local>, scopes: set<Data>, i: nat)
    requires i >= |addrs|
    ensures FirstStop(addrs, scopes, i).None?
  {
  }

  /** What Bind may come to: an offer of the next address it can bind to, */
  predicate FindsOffer(n: Node, scopes: set<Data>, n': Node, out: seq<Msg>) {
    && n'.binding == n.binding && n'.retry == n.retry
    && n.pos < n'.pos <= |n.addrs| && n'.mode == Bound(n'.pos - 1) && Attempted(n.addrs[n'.pos - 1])
    && FirstStop(n.addrs, scopes, n.pos) == FirstStop(n.addrs, scopes, n'.pos - 1)
    && out == [YouConnect(n.addrs[n'.pos - 1].ext)]
  }

  /** the news that there is none, */
  predicate FindsNone(n: Node, scopes: set<Data>, n': Node, out: seq<Msg>) {
    !n'.binding && n'.retry == n.retry && FirstStop(n.addrs, scopes, n.pos).None? && out == [CannotBind]
  }

  /** or a reset for want of a link. */
  predicate FindsNoLink(n: Node, scopes: set<Data>, n': Node, out: seq<Msg>) {
    && n.pos < n'.pos <= |n.addrs| && n.addrs[n'.pos - 1].attempt.NoLink?
    && FirstStop(n.addrs, scopes, n.pos) == Some(n'.pos - 1)
    && n'.mode == Down && (n.master ==> n'.retry) && out == if n.master then [] else [YouRetry]
  }

  lemma {:induction false} BindFinds(n: Node, scopes: set<Data>)
    requires n.pos <= |n.addrs|
    ensures Same(Bind(n).0, n)
    ensures var (n', out) := Bind(n);
      FindsOffer(n, scopes, n', out) || FindsNone(n, scopes, n', out) || FindsNoLink(n, scopes, n', out)
    decreases |n.addrs| - n.pos
  {
    hide FirstUsable, Stops, FirstStop;
    if n.pos < |n.addrs| {
      var a := n.addrs[n.pos];
      var next := n.(pos := n.pos + 1);
      StopUnfolds(n.addrs, scopes, n.pos);
      if a.ext == [] {
        BindFinds(next, scopes);
      } else if a.attempt.PortsTaken? {
        BindFinds(next.(mode := Opened), scopes);
      }
    } else {
      NoStop(n.addrs, scopes, n.pos);
    }
  }

  /** A provider that has nothing to offer keeps its old link. */
  lemma {:induction false} BindKeeps(n: Node)
    requires n.pos <= |n.addrs| && Bind(n).1 == [CannotBind]
    ensures var n' := Bind(n).0;
      && (n'.mode == Before(true) <==> n.mode == Before(true) && !Offers(n.addrs, n.pos))
      && (!n.master ==> n'.mode == if n.mode == Before(true) && !Offers(n.addrs, n.pos) then n.mode else GaveUp)
    decreases |n.addrs| - n.pos
  {
    if n.pos < |n.addrs| {
      var a := n.addrs[n.pos];
      var next := n.(pos := n.pos + 1);
      assert Offers(n.addrs, n.pos) <==> a.ext != [] || Offers(n.addrs, n.pos + 1);
      if a.ext == [] {
        BindKeeps(next);
      } else {
        BindKeeps(next.(mode := Opened));
      }
    }
  }

  /** A side that waits for the answer to its latest offer. */
  predicate Offering(n: Node, scopes: set<Data>) {
    && n.binding && 0 < n.pos <= |n.addrs| && n.mode == Bound(n.pos - 1)
    && Attempted(n.addrs[n.pos - 1])
    && FirstStop(n.addrs, scopes, 0) == FirstStop(n.addrs, scopes, n.pos - 1)
  }

  /** A side whose latest offer has been turned down. */
  predicate TurnedDown(n: Node, scopes: set<Data>) {
    Offering(n, scopes) && FirstStop(n.addrs, scopes, 0) == FirstStop(n.addrs, scopes, n.pos)
  }

  /** The master has run out of addresses. */
  predicate Exhausted(n: Node, m: Node, scopes: set<Data>) {
    && !n.binding && FirstStop(n.addrs, scopes, 0).None?
    && (n.mode == Before(true) <==> m.mode == Before(true) && !Offers(m.addrs, 0))
  }

  /** The slave has cleaned up and asks for another try: it could not bind, or could not connect. */
  predicate Asks(m: Node, s: Node, n: Net) {
    var i := FirstStop(m.addrs, s.scopes, 0);
    var j := FirstStop(s.addrs, m.scopes, 0);
    && n.s.mode == Down
    && if i.Some? then m.addrs[i.value].attempt.Binds? && Refuses(s, m.addrs[i.value])
       else j.Some? && s.addrs[j.value].attempt.NoLink?
  }

  /** Where a setup between m and s can stand: at most one message is on its way. */
  predicate Inv(m: Node, s: Node, n: Net) {
    && Same(n.m, m) && Same(n.s, s)
    && |n.toM| + |n.toS| <= 1
    && (!Quiet(n) ==> n.m.retry == m.retry)
    && if n.toS != [] then
         match n.toS[0]
         case YouConnect(ext) => Offering(n.m, s.scopes) && n.s == s && ext == n.m.addrs[n.m.pos - 1].ext
         case CannotBind => Exhausted(n.m, m, s.scopes) && n.s == s
         case CannotConnect => Exhausted(n.m, m, s.scopes) && TurnedDown(n.s, m.scopes)
         case YouRetry => false
       else if n.toM != [] then
         match n.toM[0]
         case CannotConnect => TurnedDown(n.m, s.scopes) && n.s == s
         case YouConnect(ext) =>
           Exhausted(n.m, m, s.scopes) && Offering(n.s, m.scopes) && ext == n.s.addrs[n.s.pos - 1].ext
         case CannotBind =>
           && Exhausted(n.m, m, s.scopes) && !n.s.binding && FirstStop(s.addrs, m.scopes, 0).None?
           && n.s.mode == Fallback(s)
         case YouRetry => Asks(m, s, n)
       else Outcome(m, s, n)
  }

  /** How many messages can still be sent after the one on its way. */
  function Left(n: Net): int {
    var nm, ns := |n.m.addrs|, |n.s.addrs|;
    if n.toS != [] then
      match n.toS[0]
      case YouConnect(_) => 2 * (nm - n.m.pos) + 2 * ns + 3
      case CannotBind => 2 * ns + 1
      case CannotConnect => 2 * (ns - n.s.pos) + 1
      case YouRetry => 0
    else if n.toM != [] then
      match n.toM[0]
      case CannotConnect => 2 * (nm - n.m.pos) + 2 * ns + 2
      case YouConnect(_) => 2 * (ns - n.s.pos) + 2
      case CannotBind => 0
      case YouRetry => 0
    else 0
  }

  lemma BeginHolds(m: Node, s: Node)
    requires m.master && !s.master
    ensures Inv(m, s, Begin(m, s)) && Begin(m, s).sent + Left(Begin(m, s)) <= 2 * (|m.addrs| + |s.addrs|) + 2
  {
    hide Bind, FirstUsable, FirstStop;
    BindFinds(m.(binding := true, pos := 0), s.scopes);
    if Bind(m.(binding := true, pos := 0)).1 == [CannotBind] {
      BindKeeps(m.(binding := true, pos := 0));
    }
  }

  /** An offer that is not usable does not end the search. */
  lemma NextStop(addrs: seq<Local>, scopes: set<Data>, i: nat)
    requires i < |addrs| && !Stops(addrs[i], scopes)
    ensures FirstStop(addrs, scopes, i) == FirstStop(addrs, scopes, i + 1)
  {
  }

  lemma {:induction false} StopHere(addrs: seq<Local>, scopes: set<Data>, i: nat)
    requires i < |addrs| && Stops(addrs[i], scopes)
    ensures FirstStop(addrs, scopes, i) == Some(i)
  {
  }

  /** One arrival keeps the invariant and the budget. */
  predicate Arrives(m: Node, s: Node, n: Net, n': Net) {
    Inv(m, s, n') && n'.sent + Left(n') <= n.sent + Left(n)
  }

  lemma SlaveHearsOffer(m: Node, s: Node, n: Net)
    requires !s.master && Inv(m, s, n) && n.toS != [] && n.toS[0].YouConnect?
    ensures Arrives(m, s, n, Deliver(n, false))
  {
    hide FirstStop, FirstUsable;
    var i := n.m.pos - 1;
    if FirstUsable(s.scopes, n.toS[0].ext).None? {
      NextStop(m.addrs, s.scopes, i);
    } else {
      StopHere(m.addrs, s.scopes, i);
    }
  }

  lemma SlaveStarts(m: Node, s: Node, n: Net)
    requires !s.master && Inv(m, s, n) && n.toS != [] && n.toS[0].CannotBind?
    ensures Arrives(m, s, n, Deliver(n, false))
  {
    hide FirstStop, Bind, Offers, FirstUsable;
    BindFinds(n.s.(binding := true, pos := 0), m.scopes);
    if Bind(n.s.(binding := true, pos := 0)).1 == [CannotBind] {
      BindKeeps(n.s.(binding := true, pos := 0));
    }
  }

  lemma SlaveGoesOn(m: Node, s: Node, n: Net)
    requires !s.master && Inv(m, s, n) && n.toS != [] && n.toS[0].CannotConnect?
    ensures Arrives(m, s, n, Deliver(n, false))
  {
    hide FirstStop, Bind, FirstUsable;
    BindFinds(n.s, m.scopes);
    if Bind(n.s).1 == [CannotBind] {
      BindKeeps(n.s);
    }
    assert s.addrs[n.s.pos - 1].ext != [];
  }

  lemma DeliverToSlave(m: Node, s: Node, n: Net)
    requires !s.master && Inv(m, s, n) && n.toS != []
    ensures Arrives(m, s, n, Deliver(n, false))
  {
    hide Deliver, Arrives, Outcome;
    match n.toS[0]
    case YouConnect(ext) => SlaveHearsOffer(m, s, n);
    case CannotBind => SlaveStarts(m, s, n);
    case CannotConnect => SlaveGoesOn(m, s, n);
  }

  lemma MasterHearsOffer(m: Node, s: Node, n: Net)
    requires m.master && Inv(m, s, n) && n.toM != [] && n.toM[0].YouConnect?
    ensures Arrives(m, s, n, Deliver(n, true))
  {
    hide FirstStop, FirstUsable, Offers;
    var j := n.s.pos - 1;
    if FirstUsable(m.scopes, n.toM[0].ext).None? {
      NextStop(s.addrs, m.scopes, j);
    } else {
      StopHere(s.addrs, m.scopes, j);
    }
  }

  lemma MasterGoesOn(m: Node, s: Node, n: Net)
    requires m.master && Inv(m, s, n) && n.toM != [] && n.toM[0].CannotConnect?
    ensures Arrives(m, s, n, Deliver(n, true))
  {
    hide FirstStop, Bind, FirstUsable;
    BindFinds(n.m, s.scopes);
    if Bind(n.m).1 == [CannotBind] {
      BindKeeps(n.m);
    }
    assert m.addrs[n.m.pos - 1].ext != [];
  }

  lemma MasterStops(m: Node, s: Node, n: Net)
    requires m.master && Inv(m, s, n) && n.toM != [] && (n.toM[0].CannotBind? || n.toM[0].YouRetry?)
    ensures Arrives(m, s, n, Deliver(n, true))
  {
    hide FirstStop, Bind, FirstUsable, Offers;
  }

  lemma DeliverToMaster(m: Node, s: Node, n: Net)
    requires m.master && Inv(m, s, n) && n.toM != []
    ensures Arrives(m, s, n, Deliver(n, true))
  {
    hide Inv, Deliver, Arrives;
    match n.toM[0]
    case YouConnect(ext) => MasterHearsOffer(m, s, n);
    case CannotConnect => MasterGoesOn(m, s, n);
    case CannotBind => MasterStops(m, s, n);
    case YouRetry => MasterStops(m, s, n);
  }

  lemma {:induction false} RunHolds(m: Node, s: Node, schedule: seq<bool>)
    requires m.master && !s.master
    ensures var n := Run(Begin(m, s), schedule);
      Inv(m, s, n) && n.sent + Left(n) <= 2 * (|m.addrs| + |s.addrs|) + 2
  {
    hide Inv, Left, Deliver, Begin;
    if schedule == [] {
      BeginHolds(m, s);
    } else {
      RunHolds(m, s, schedule[..|schedule|-1]);
      var n := Run(Begin(m, s), schedule[..|schedule|-1]);
      if schedule[|schedule|-1] && n.toM != [] {
        DeliverToMaster(m, s, n);
      } else if !schedule[|schedule|-1] && n.toS != [] {
        DeliverToSlave(m, s, n);
      }
    }
  }

  /** Whatever the order of arrivals, a setup sends at most two messages per bind address and two
      more, never has more than one message on its way, and when nothing is on its way any more it
      has come to the one outcome that both sides' addresses determine. */
  lemma {:induction false} SetupTerminates(m: Node, s: Node, schedule: seq<bool>)
    requires m.master && !s.master
    ensures var n := Run(Begin(m, s), schedule);
      && n.sent <= 2 * (|m.addrs| + |s.addrs|) + 2
      && |n.toM| + |n.toS| <= 1
      && (Quiet(n) ==> Outcome(m, s, n))
  {
    RunHolds(m, s, schedule);
  }

  /** No setup stalls.  One that has gone quiet has led to a link or to relaying, or the master will
      try again; and it comes to another try if and only if the address that ends the search fails. */
  lemma {:induction false} SetupSettles(m: Node, s: Node, schedule: seq<bool>)
    requires m.master && !s.master
    ensures var n := Run(Begin(m, s), schedule);
      Quiet(n) ==>
        && (Settled(n) <==> NothingFails(m, s))
        && (WillRetry(n) <==> !NothingFails(m, s))
  {
    hide FirstStop, FirstUsable, Run, Offers;
    RunHolds(m, s, schedule);
  }

  /** From any point of a setup, letting the messages arrive ends it. */
  lemma {:induction false} SetupCanFinish(m: Node, s: Node, schedule: seq<bool>) returns (more: seq<bool>)
    requires m.master && !s.master
    ensures Quiet(Run(Begin(m, s), schedule + more))
    ensures |more| <= 2 * (|m.addrs| + |s.addrs|) + 2
  {
    hide Inv, Left, Begin;
    RunHolds(m, s, schedule);
    InFlight(m, s, Run(Begin(m, s), schedule));
    SentSome(m, s, schedule);
    more := Finish(m, s, schedule);
  }

  lemma {:induction false} SentSome(m: Node, s: Node, schedule: seq<bool>)
    ensures var n := Run(Begin(m, s), schedule); |n.toM| + |n.toS| <= n.sent
  {
    hide Deliver;
    if schedule != [] {
      SentSome(m, s, schedule[..|schedule|-1]);
      var n := Run(Begin(m, s), schedule[..|schedule|-1]);
      if schedule[|schedule|-1] && n.toM != [] {
        DeliverCounts(n, true);
      } else if !schedule[|schedule|-1] && n.toS != [] {
        DeliverCounts(n, false);
      }
    }
  }

  lemma {:induction false} Finish(m: Node, s: Node, schedule: seq<bool>) returns (more: seq<bool>)
    requires m.master && !s.master
    ensures var n := Run(Begin(m, s), schedule);
      Quiet(Run(Begin(m, s), schedule + more)) && |more| <= Left(n) + |n.toM| + |n.toS|
    decreases Left(Run(Begin(m, s), schedule)), |Run(Begin(m, s), schedule).toM| + |Run(Begin(m, s), schedule).toS|
  {
    hide Inv, Left, Deliver, Begin;
    RunHolds(m, s, schedule);
    var n := Run(Begin(m, s), schedule);
    InFlight(m, s, n);
    if Quiet(n) {
      more := [];
      assert schedule + more == schedule;
    } else {
      var b := n.toM != [];
      if b {
        DeliverToMaster(m, s, n);
      } else {
        DeliverToSlave(m, s, n);
      }
      DeliverCounts(n, b);
      var next := schedule + [b];
      assert next[..|next|-1] == schedule;
      more := Finish(m, s, next);
      assert next + more == schedule + ([b] + more);
      more := [b] + more;
    }
  }

  lemma InFlight(m: Node, s: Node, n: Net)
    requires Inv(m, s, n)
    ensures |n.toM| + |n.toS| <= 1 && Left(n) >= 0
  {
  }

  lemma DeliverCounts(n: Net, toMaster: bool)
    requires if toMaster then n.toM != [] else n.toS != []
    ensures var n' := Deliver(n, toMaster);
      n'.sent - n.sent == |n'.toM| + |n'.toS| - |n.toM| - |n.toS| + 1
  {
  }
}
