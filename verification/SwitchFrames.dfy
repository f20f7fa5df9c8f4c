/**
 The switch seen from outside: which peers a frame goes to, as a function of the frame's bytes and of
 the frames that have come in before.
 */
module SwitchFrames {
  import opened Prelude
  import opened Bytes
  import opened SwitchSpec
  import opened SwitchRuns
  import opened Igmp
  import opened IgmpWire

  // ---- Where a frame goes ---------------------------------------------------------------------------

  /** An Ethernet frame with an IPv4 packet of protocol 2, if the packet is well-formed. */
  predicate IsIgmp(ipv4: Ipv4Check, frame: Data) {
    && |frame| >= 14 && frame[12] == 0x08 && frame[13] == 0x00
    && ipv4(frame[14..]).Some? && ipv4(frame[14..]).value.0 == 2
  }

  predicate IsBroadcast(frame: Data) {
    |frame| >= 6 && frame[..6] == [255, 255, 255, 255, 255, 255]
  }

  predicate IsMulticast(frame: Data) {
    |frame| >= 6 && frame[..3] == [0x01, 0x00, 0x5e]
  }

  lemma IgmpIs(ipv4: Ipv4Check, frame: Data)
    ensures IgmpOf(ipv4, frame).Some? <==> IsIgmp(ipv4, frame)
    ensures IsIgmp(ipv4, frame) ==> IgmpOf(ipv4, frame) == Some(ipv4(frame[14..]).value.1)
  {
  }

  /** The group addresses that an Ethernet multicast address stands for; its 24th bit does not count. */
  predicate StandsFor(mac: Mac, g: Group)
    requires |mac| == 6
  {
    GroupMac(g) == [0x01, 0x00, 0x5e, mac[3] as int % 128, mac[4], mac[5]]
  }

  lemma ThreeBytes(a: nat, b: Byte, c: Byte, a': nat, b': Byte, c': Byte)
    ensures a * 0x1_0000 + b as int * 0x100 + c as int == a' * 0x1_0000 + b' as int * 0x100 + c' as int <==>
      a == a' && b == b' && c == c'
  {
  }

  lemma SigOfMacIs(mac: Mac)
    requires |mac| == 6
    ensures SigOfMac(mac) == (mac[3] as int % 128) * 0x1_0000 + mac[4] as int * 0x100 + mac[5] as int
  {
    var m := (mac[3] as int % 128) * 0x1_0000 + mac[4] as int * 0x100 + mac[5] as int;
    assert mac[2] as int * 0x100_0000 + mac[3] as int * 0x1_0000 + mac[4] as int * 0x100 + mac[5] as int ==
      (mac[2] as int * 2 + mac[3] as int / 128) * 0x80_0000 + m;
  }

  lemma SigIsAddress(mac: Mac, g: Group)
    requires |mac| == 6
    ensures SigOfMac(mac) == SigOfGroup(g) <==> StandsFor(mac, g)
  {
    hide SigOfMac;
    var low := g % 0x80_0000;
    SigOfMacIs(mac);
    assert low == (low / 0x1_0000) * 0x1_0000 + (low / 0x100 % 0x100) * 0x100 + low % 0x100;
    ThreeBytes(mac[3] as int % 128, mac[4], mac[5], low / 0x1_0000, low / 0x100 % 0x100, low % 0x100);
    var x, y := GroupMac(g), [0x01, 0x00, 0x5e, mac[3] as int % 128, mac[4], mac[5]];
    assert x == [0x01, 0x00, 0x5e, low / 0x1_0000, low / 0x100 % 0x100, low % 0x100];
    assert x == y <==> x[3] == y[3] && x[4] == y[4] && x[5] == y[5];
  }

  ghost predicate IsMember(s: Switch, p: PeerId, g: Group) {
    p in s.peers && g in Elems(GroupsOf(s.peers[p].groups))
  }

  /** Where a frame has to go: broadcasts and IGMP to everybody, a multicast to the members of the
      groups that its address stands for, anything else to the owner of its destination address, or
      to everybody if nobody owns it. */
  ghost predicate Destinations(ipv4: Ipv4Check, s: Switch, frame: Data, out: seq<PeerId>) {
    if |frame| < 14 then out == []
    else if IsIgmp(ipv4, frame) || IsBroadcast(frame) then out == s.order
    else if IsMulticast(frame) then
      forall p :: p in out <==> exists g :: IsMember(s, p, g) && StandsFor(frame[..6], g)
    else if exists p :: Owns(s, p, frame[..6]) then |out| == 1 && Owns(s, out[0], frame[..6])
    else out == s.order
  }

  lemma MulticastReaches(c: Config, s: Switch, mac: Mac, out: seq<PeerId>, p: PeerId)
    requires Inv(c, s) && |mac| == 6 && (forall q :: q in s.order ==> q in s.peers)
    requires Scan(s, ToGroup(SigOfMac(mac)), out)
    ensures p in out <==> exists g :: IsMember(s, p, g) && StandsFor(mac, g)
  {
    hide Elems, Listeners, Distinct, StandsFor, SigOfMac, SigOfGroup;
    var sig := SigOfMac(mac);
    var refs := Listeners(s, s.order, sig);
    ListenersAre(c, s, s.order, sig);
    PeerListed(refs, p);
    assert p in out <==> p in PeersOf(refs) by {
      assert p in multiset(out) <==> p in multiset(PeersOf(refs));
    }
    if g :| IsMember(s, p, g) && StandsFor(mac, g) {
      SigIsAddress(mac, g);
      assert Matches(s, Ref(p, g), sig);
    }
    if p in out {
      var r :| r in Elems(refs) && r.peer == p;
      SigIsAddress(mac, r.group);
      assert Matches(s, r, sig);
      assert IsMember(s, p, r.group);
    }
  }

  /** A frame goes where it has to go. */
  lemma FrameReaches(c: Config, s: Switch, ipv4: Ipv4Check, frame: Data, out: seq<PeerId>)
    requires Inv(c, s) && (forall p :: p in s.order ==> p in s.peers) && Scan(s, TargetOf(ipv4, frame), out)
    ensures Destinations(ipv4, s, frame, out)
  {
    hide Listeners, SigOfMac, StandsFor, Inv, IsMember, Owns;
    IgmpIs(ipv4, frame);
    if |frame| >= 14 && !IsIgmp(ipv4, frame) && !IsBroadcast(frame) && IsMulticast(frame) {
      assert frame[..6][..3] == frame[..3];
      forall p
        ensures p in out <==> exists g :: IsMember(s, p, g) && StandsFor(frame[..6], g)
      {
        MulticastReaches(c, s, frame[..6], out, p);
      }
    } else if |frame| >= 14 {
      assert frame[..6][..3] == frame[..3];
    }
  }

  // ---- What has come in before ------------------------------------------------------------------------

  datatype Event =
    | Got(peer: PeerId, frame: Data, now: int)     // a frame from a peer
    | Said(frame: Data, now: int)                  // a frame from the local device
    | Expired(peer: PeerId, group: Group)          // a membership timer fires
    | Joined(peer: PeerId)
    | Left(peer: PeerId)

  function Step(c: Config, ipv4: Ipv4Check, s: Switch, e: Event): Option<Switch> {
    match e
    case Said(frame, now) => Some(Heard(c, s, ipv4, frame, now))
    case Joined(p) => if p in s.peers then None else Some(AddPeer(s, p))
    case Got(p, frame, now) => if p in s.peers then Some(Observed(c, s, p, ipv4, frame, now)) else None
    case Expired(p, g) => if p in s.peers then Some(Leave(s, p, g)) else None
    case Left(p) => if p in s.peers then Some(DropPeer(s, p)) else None
  }

  /** The switch after a history of frames; None if something impossible happened. */
  function Run(c: Config, ipv4: Ipv4Check, es: seq<Event>): Option<Switch> {
    if es == [] then Some(EMPTY)
    else
      var s := Run(c, ipv4, es[..|es|-1]);
      if s.None? then None else Step(c, ipv4, s.value, es[|es|-1])
  }

  /** The peer whose frame carried this source address last, unless it has left since. */
  function LastSource(es: seq<Event>, mac: Mac): Option<PeerId> {
    if es == [] then None
    else
      var before := LastSource(es[..|es|-1], mac);
      match es[|es|-1]
      case Got(p, frame, _) => if |frame| >= 14 && frame[6..12] == mac then Some(p) else before
      case Left(p) => if before == Some(p) then None else before
      case _ => before
  }

  /** Everybody who has joined and not left, in the order of joining. */
  function Present(es: seq<Event>): seq<PeerId> {
    if es == [] then []
    else
      var before := Present(es[..|es|-1]);
      match es[|es|-1]
      case Joined(p) => before + [p]
      case Left(p) => Remove(before, p)
      case _ => before
  }

  /** The same history as events of the switch. */
  function EventsOf(c: Config, ipv4: Ipv4Check, e: Event): seq<SwitchRuns.Event> {
    match e
    case Got(p, frame, now) =>
      if |frame| < 14 then [] else [Hear(p, frame[6..12])] + Reports(p, ReportedIn(ipv4, frame), now)
    case Said(frame, now) =>
      if IsIgmp(ipv4, frame) && QueriedGroup(ipv4(frame[14..]).value.1).Some?
      then [Query(QueriedGroup(ipv4(frame[14..]).value.1).value, now + c.lastMemberQueryTime)] else []
    case Expired(p, g) => [Expire(p, g)]
    case Joined(p) => [Arrive(p)]
    case Left(p) => [Depart(p)]
  }

  function History(c: Config, ipv4: Ipv4Check, es: seq<Event>): seq<SwitchRuns.Event> {
    if es == [] then [] else History(c, ipv4, es[..|es|-1]) + EventsOf(c, ipv4, es[|es|-1])
  }

  lemma {:induction false} RunConcat(c: Config, s: Switch, xs: seq<SwitchRuns.Event>, ys: seq<SwitchRuns.Event>)
    requires SwitchRuns.Run(c, s, xs).Some?
    ensures SwitchRuns.Run(c, s, xs + ys) == SwitchRuns.Run(c, SwitchRuns.Run(c, s, xs).value, ys)
  {
    hide SwitchRuns.Step, SwitchRuns.Enabled;
    if ys == [] {
      assert xs + ys == xs;
    } else {
      var init, z := ys[..|ys|-1], ys[|ys|-1];
      RunConcat(c, s, xs, init);
      assert xs + ys == (xs + init) + [z];
      RunSnoc(c, s, xs + init, z);
    }
  }

  lemma {:induction false} RunOne(c: Config, s: Switch, e: SwitchRuns.Event)
    requires SwitchRuns.Enabled(s, e)
    ensures SwitchRuns.Run(c, s, [e]) == Some(SwitchRuns.Step(c, s, e))
  {
    RunSnoc(c, s, [], e);
    assert [] + [e] == [e];
  }

  lemma {:induction false} StepIsRun(c: Config, ipv4: Ipv4Check, s: Switch, e: Event)
    requires Step(c, ipv4, s, e).Some?
    ensures SwitchRuns.Run(c, s, EventsOf(c, ipv4, e)) == Step(c, ipv4, s, e)
  {
    hide Observed, LearnMac, LowerTimers, Leave, IgmpOf, ReportedIn, QueriedGroup;
    match e
    case Got(p, frame, now) =>
      if |frame| >= 14 {
        ObservedIsRun(c, s, p, ipv4, frame, now);
      } else {
        ShortIgnored(c, s, p, ipv4, frame, now);
      }
    case Said(frame, now) =>
      IgmpIs(ipv4, frame);
      if IsIgmp(ipv4, frame) && QueriedGroup(ipv4(frame[14..]).value.1).Some? {
        RunOne(c, s, EventsOf(c, ipv4, e)[0]);
      }
    case Expired(p, g) => RunOne(c, s, Expire(p, g));
    case Joined(p) => RunOne(c, s, Arrive(p));
    case Left(p) => RunOne(c, s, Depart(p));
  }

  lemma ShortIgnored(c: Config, s: Switch, p: PeerId, ipv4: Ipv4Check, frame: Data, now: int)
    requires p in s.peers && |frame| < 14
    ensures Observed(c, s, p, ipv4, frame, now) == s
  {
  }

  /** A history of frames is a run of the switch. */
  lemma {:induction false} HistoryIsRun(c: Config, ipv4: Ipv4Check, es: seq<Event>)
    requires Run(c, ipv4, es).Some?
    ensures SwitchRuns.Run(c, EMPTY, History(c, ipv4, es)) == Run(c, ipv4, es)
  {
    hide Step, EventsOf, SwitchRuns.Run;
    if es == [] {
      RunLast(c, EMPTY, []);
    } else {
      var init, e := es[..|es|-1], es[|es|-1];
      HistoryIsRun(c, ipv4, init);
      StepIsRun(c, ipv4, Run(c, ipv4, init).value, e);
      RunConcat(c, EMPTY, History(c, ipv4, init), EventsOf(c, ipv4, e));
    }
  }

  lemma {:induction false} LastUserSkips(xs: seq<SwitchRuns.Event>, ys: seq<SwitchRuns.Event>, mac: Mac)
    requires forall i :: 0 <= i < |ys| ==> !ys[i].Hear? && !ys[i].Depart?
    ensures LastUser(xs + ys, mac) == LastUser(xs, mac)
  {
    if ys == [] {
      assert xs + ys == xs;
    } else {
      var init := ys[..|ys|-1];
      LastUserSkips(xs, init, mac);
      assert (xs + ys)[..|xs + ys|-1] == xs + init;
    }
  }

  lemma {:induction false} LastUserSnoc(xs: seq<SwitchRuns.Event>, e: SwitchRuns.Event, mac: Mac)
    ensures LastUser(xs + [e], mac) ==
      match e
      case Hear(p, m) => (if m == mac then Some(p) else LastUser(xs, mac))
      case Depart(p) => (if LastUser(xs, mac) == Some(p) then None else LastUser(xs, mac))
      case _ => LastUser(xs, mac)
  {
    assert (xs + [e])[..|xs|] == xs;
  }

  lemma {:induction false} LastSourceIsUser(c: Config, ipv4: Ipv4Check, es: seq<Event>, mac: Mac)
    ensures LastUser(History(c, ipv4, es), mac) == LastSource(es, mac)
  {
    hide IsIgmp, QueriedGroup, ReportedIn, LastUser;
    if es == [] {
      assert LastUser([], mac) == None by { NobodyYet(mac); }
    } else {
      var init, e := es[..|es|-1], es[|es|-1];
      LastSourceIsUser(c, ipv4, init, mac);
      var h := History(c, ipv4, init);
      match e
      case Got(p, frame, now) =>
        if |frame| < 14 {
          assert h + [] == h;
        } else {
          LastUserSnoc(h, Hear(p, frame[6..12]), mac);
          LastUserSkips(h + [Hear(p, frame[6..12])], Reports(p, ReportedIn(ipv4, frame), now), mac);
          assert History(c, ipv4, es) == h + [Hear(p, frame[6..12])] + Reports(p, ReportedIn(ipv4, frame), now);
        }
      case Left(p) => LastUserSnoc(h, Depart(p), mac);
      case _ => LastUserSkips(h, EventsOf(c, ipv4, e), mac);
    }
  }

  lemma {:induction false} NobodyYet(mac: Mac)
    ensures LastUser([], mac) == None
  {
  }

  // ---- The switch as a whole --------------------------------------------------------------------------

  lemma {:induction false} OrderIsPresent(c: Config, ipv4: Ipv4Check, es: seq<Event>)
    requires Run(c, ipv4, es).Some?
    ensures Run(c, ipv4, es).value.order == Present(es)
  {
    if es != [] {
      var init, e := es[..|es|-1], es[|es|-1];
      OrderIsPresent(c, ipv4, init);
      var s := Run(c, ipv4, init).value;
      if e.Got? && |e.frame| >= 14 {
        JoinAllOrder(c, LearnMac(c, s, e.peer, e.frame[6..12]), e.peer, ReportedIn(ipv4, e.frame), e.now);
      }
    }
  }

  lemma {:induction false} JoinAllOrder(c: Config, s: Switch, p: PeerId, groups: seq<Group>, now: int)
    requires p in s.peers
    ensures JoinAll(c, s, p, groups, now).order == s.order
    decreases groups
  {
    if groups != [] {
      JoinAllOrder(c, Join(c, s, p, groups[0], now), p, groups[1..], now);
    }
  }

  /** For every history of frames and every frame of the local device: a short frame goes nowhere;
      broadcasts and IGMP go to everybody present; a multicast to the members of the groups its
      address stands for; anything else to the peer that used its destination address as a source
      last, and to nobody else, or to everybody present. */
  lemma {:induction false} ForwardedTo(c: Config, ipv4: Ipv4Check, es: seq<Event>, frame: Data, out: seq<PeerId>)
    requires 0 < c.maxMacs && 0 < c.maxGroups && Run(c, ipv4, es).Some?
    requires (forall p :: p in Run(c, ipv4, es).value.order ==> p in Run(c, ipv4, es).value.peers)
    requires Scan(Run(c, ipv4, es).value, TargetOf(ipv4, frame), out)
    ensures if |frame| < 14 then out == []
      else if IsIgmp(ipv4, frame) || IsBroadcast(frame) then out == Present(es)
      else if IsMulticast(frame) then
        forall p :: p in out <==> exists g :: IsMember(Run(c, ipv4, es).value, p, g) && StandsFor(frame[..6], g)
      else
        out == Present(es) || (LastSource(es, frame[..6]).Some? && out == [LastSource(es, frame[..6]).value])
  {
    hide Scan, Run, TargetOf, Inv, StandsFor, IsMember, LastSource, Present;
    var s := Run(c, ipv4, es).value;
    HistoryIsRun(c, ipv4, es);
    assert Inv(c, EMPTY) by { EmptySwitch(c); }
    RunKeepsInv(c, EMPTY, History(c, ipv4, es));
    FrameReaches(c, s, ipv4, frame, out);
    OrderIsPresent(c, ipv4, es);
    if |frame| >= 14 && |out| == 1 && Owns(s, out[0], frame[..6]) {
      OwnerIsLastUser(c, History(c, ipv4, es), out[0], frame[..6]);
      LastSourceIsUser(c, ipv4, es, frame[..6]);
    }
  }

  lemma EmptySwitch(c: Config)
    requires 0 < c.maxMacs && 0 < c.maxGroups
    ensures Inv(c, EMPTY)
  {
  }

  // ---- An address in use is found -----------------------------------------------------------------------

  /** The source addresses that a peer has used. */
  ghost function Sources(es: seq<Event>, p: PeerId): set<Mac> {
    if es == [] then {}
    else
      var before := Sources(es[..|es|-1], p);
      match es[|es|-1]
      case Got(q, frame, _) => if q == p && |frame| >= 14 then before + {frame[6..12]} else before
      case _ => before
  }

  /** The peer stays and no other peer uses the address. */
  predicate Keeps(e: Event, p: PeerId, mac: Mac) {
    e != Left(p) && (e.Got? && |e.frame| >= 14 && e.frame[6..12] == mac ==> e.peer == p)
  }

  lemma {:induction false} UsedSkips(xs: seq<SwitchRuns.Event>, ys: seq<SwitchRuns.Event>, p: PeerId)
    requires forall i :: 0 <= i < |ys| ==> !ys[i].Hear?
    ensures Used(xs + ys, p) == Used(xs, p)
  {
    if ys == [] {
      assert xs + ys == xs;
    } else {
      var init := ys[..|ys|-1];
      UsedSkips(xs, init, p);
      assert (xs + ys)[..|xs + ys|-1] == xs + init;
    }
  }

  lemma {:induction false} UsedSnoc(xs: seq<SwitchRuns.Event>, q: PeerId, mac: Mac, p: PeerId)
    ensures Used(xs + [Hear(q, mac)], p) == if q == p then Used(xs, p) + {mac} else Used(xs, p)
  {
    assert (xs + [Hear(q, mac)])[..|xs|] == xs;
  }

  lemma {:induction false} SourcesAreUsed(c: Config, ipv4: Ipv4Check, es: seq<Event>, p: PeerId, mac: Mac)
    requires forall i :: 0 <= i < |es| ==> Keeps(es[i], p, mac)
    ensures Used(History(c, ipv4, es), p) == Sources(es, p) && Undisturbed(History(c, ipv4, es), p, mac)
  {
    hide IsIgmp, QueriedGroup, ReportedIn, Used;
    if es == [] {
      UsedNothing(p);
    } else {
      var init, e := es[..|es|-1], es[|es|-1];
      assert forall i :: 0 <= i < |init| ==> init[i] == es[i];
      SourcesAreUsed(c, ipv4, init, p, mac);
      var h := History(c, ipv4, init);
      if e.Got? && |e.frame| >= 14 {
        var hear, more := Hear(e.peer, e.frame[6..12]), Reports(e.peer, ReportedIn(ipv4, e.frame), e.now);
        UsedSnoc(h, e.peer, e.frame[6..12], p);
        UsedSkips(h + [hear], more, p);
        assert History(c, ipv4, es) == h + [hear] + more;
      } else {
        UsedSkips(h, EventsOf(c, ipv4, e), p);
      }
    }
  }

  lemma {:induction false} RunSplits(c: Config, ipv4: Ipv4Check, es: seq<Event>, more: seq<Event>)
    requires Run(c, ipv4, es + more).Some?
    ensures Run(c, ipv4, es).Some?
    ensures SwitchRuns.Run(c, Run(c, ipv4, es).value, History(c, ipv4, more)) == Run(c, ipv4, es + more)
  {
    hide Step, EventsOf, SwitchRuns.Run;
    if more == [] {
      assert es + more == es;
      RunLast(c, Run(c, ipv4, es).value, []);
    } else {
      var init, e := more[..|more|-1], more[|more|-1];
      assert (es + more)[..|es + more|-1] == es + init;
      RunSplits(c, ipv4, es, init);
      StepIsRun(c, ipv4, Run(c, ipv4, es + init).value, e);
      RunConcat(c, Run(c, ipv4, es).value, History(c, ipv4, init), EventsOf(c, ipv4, e));
    }
  }

  lemma {:induction false} RunGot(c: Config, ipv4: Ipv4Check, es: seq<Event>, p: PeerId, frame: Data, now: int)
    requires Run(c, ipv4, es + [Got(p, frame, now)]).Some? && |frame| >= 14
    ensures Run(c, ipv4, es).Some? && p in Run(c, ipv4, es).value.peers
    ensures var t := LearnMac(c, Run(c, ipv4, es).value, p, frame[6..12]);
      SwitchRuns.Run(c, t, Reports(p, ReportedIn(ipv4, frame), now)) == Run(c, ipv4, es + [Got(p, frame, now)])
  {
    hide LearnMac, ReportedIn;
    assert (es + [Got(p, frame, now)])[..|es|] == es;
    var s := Run(c, ipv4, es).value;
    ObservedIsRun(c, s, p, ipv4, frame, now);
    RunOne(c, s, Hear(p, frame[6..12]));
    RunConcat(c, s, [Hear(p, frame[6..12])], Reports(p, ReportedIn(ipv4, frame), now));
  }

  /** A frame for an address goes to the one peer that has used it as a source, as long as nobody else
      has used it since, the peer has not left, and it has used fewer other addresses than it may hold. */
  lemma {:induction false} UnicastReachesUser(c: Config, ipv4: Ipv4Check, es: seq<Event>, more: seq<Event>, p: PeerId,
                                              source: Data, now: int, frame: Data, out: seq<PeerId>)
    requires 0 < c.maxMacs && 0 < c.maxGroups && |source| >= 14 && |frame| >= 14 && frame[..6] == source[6..12]
    requires Run(c, ipv4, es + [Got(p, source, now)] + more).Some?
    requires (forall i :: 0 <= i < |more| ==> Keeps(more[i], p, source[6..12]))
    requires |Sources(more, p) - {source[6..12]}| < c.maxMacs
    requires !IsIgmp(ipv4, frame) && !IsBroadcast(frame) && !IsMulticast(frame)
    requires var s := Run(c, ipv4, es + [Got(p, source, now)] + more).value;
      (forall q :: q in s.order ==> q in s.peers) && Scan(s, TargetOf(ipv4, frame), out)
    ensures out == [p]
  {
    hide Scan, Run, TargetOf, Inv, IsIgmp, Keeps, Owns, ReportedIn, LearnMac;
    var mac := source[6..12];
    RunSplits(c, ipv4, es + [Got(p, source, now)], more);
    RunGot(c, ipv4, es, p, source, now);
    var s0, s := Run(c, ipv4, es).value, Run(c, ipv4, es + [Got(p, source, now)] + more).value;
    assert Inv(c, EMPTY) by { EmptySwitch(c); }
    HistoryIsRun(c, ipv4, es);
    RunKeepsInv(c, EMPTY, History(c, ipv4, es));
    var reports, later := Reports(p, ReportedIn(ipv4, source), now), History(c, ipv4, more);
    RunConcat(c, LearnMac(c, s0, p, mac), reports, later);
    SourcesAreUsed(c, ipv4, more, p, mac);
    UsedAfter(reports, later, p);
    AddressRetained(c, s0, reports + later, p, mac);
    HistoryIsRun(c, ipv4, es + [Got(p, source, now)] + more);
    RunKeepsInv(c, EMPTY, History(c, ipv4, es + [Got(p, source, now)] + more));
    FrameReaches(c, s, ipv4, frame, out);
    OneOwner(c, s, p, out[0], mac);
  }

  lemma {:induction false} UsedAfter(xs: seq<SwitchRuns.Event>, ys: seq<SwitchRuns.Event>, p: PeerId)
    requires forall i :: 0 <= i < |xs| ==> !xs[i].Hear?
    ensures Used(xs + ys, p) == Used(ys, p)
  {
    if ys == [] {
      assert xs + ys == [] + xs;
      UsedSkips([], xs, p);
    } else {
      var init := ys[..|ys|-1];
      UsedAfter(xs, init, p);
      assert (xs + ys)[..|xs + ys|-1] == xs + init;
    }
  }

  lemma OneOwner(c: Config, s: Switch, p: PeerId, q: PeerId, mac: Mac)
    requires Inv(c, s) && Owns(s, p, mac) && Owns(s, q, mac)
    ensures p == q
  {
  }
}
