/**
 Whole runs of the learning switch: every reachable state satisfies the invariant, an address is
 only ever sent to the peer that used it last, and it is remembered until that peer has used as
 many other addresses as it may hold.
 */
module SwitchRuns {
  import opened Prelude
  import opened Bytes
  import opened SwitchSpec
  import opened SwitchTables
  import opened Igmp

  datatype Event =
    | Hear(peer: PeerId, mac: Mac)                       // a frame with this source address
    | Report(peer: PeerId, group: Group, now: int)       // a membership report
    | Expire(peer: PeerId, group: Group)                 // a membership timer fires
    | Query(group: Group, limit: int)                    // a group-specific query
    | Arrive(peer: PeerId)
    | Depart(peer: PeerId)

  predicate Enabled(s: Switch, e: Event) {
    match e
    case Query(_, _) => true
    case Arrive(p) => p !in s.peers
    case _ => e.peer in s.peers
  }

  function Step(c: Config, s: Switch, e: Event): Switch
    requires Enabled(s, e)
  {
    match e
    case Hear(p, mac) => LearnMac(c, s, p, mac)
    case Report(p, g, now) => Join(c, s, p, g, now)
    case Expire(p, g) => Leave(s, p, g)
    case Query(g, limit) => LowerTimers(s, g, limit)
    case Arrive(p) => AddPeer(s, p)
    case Depart(p) => DropPeer(s, p)
  }

  /** The state after a run; None if some event was impossible. */
  function Run(c: Config, s: Switch, es: seq<Event>): Option<Switch> {
    if es == [] then Some(s)
    else
      var before := Run(c, s, es[..|es|-1]);
      if before.Some? && Enabled(before.value, es[|es|-1]) then Some(Step(c, before.value, es[|es|-1])) else None
  }

  const EMPTY := Switch([], map[])

  lemma {:induction false} RunSnoc(c: Config, s: Switch, es: seq<Event>, e: Event)
    ensures Run(c, s, es + [e]) ==
      var before := Run(c, s, es);
      if before.Some? && Enabled(before.value, e) then Some(Step(c, before.value, e)) else None
  {
    assert (es + [e])[..|es|] == es;
  }

  // ---- Frames are events ---------------------------------------------------------------------

  function Reports(p: PeerId, groups: seq<Group>, now: int): seq<Event> {
    seq(|groups|, i requires 0 <= i < |groups| => Report(p, groups[i], now))
  }

  lemma JoinKeepsPeers(c: Config, s: Switch, p: PeerId, g: Group, now: int)
    requires p in s.peers
    ensures p in Join(c, s, p, g, now).peers
  {
  }

  lemma {:induction false} JoinAllIsRun(c: Config, s: Switch, es: seq<Event>, t: Switch, p: PeerId,
                                        groups: seq<Group>, now: int)
    requires Run(c, s, es) == Some(t) && p in t.peers
    ensures Run(c, s, es + Reports(p, groups, now)) == Some(JoinAll(c, t, p, groups, now))
    decreases groups
  {
    hide Join, Run;
    if groups == [] {
      assert es + Reports(p, groups, now) == es;
    } else {
      var e := Report(p, groups[0], now);
      RunSnoc(c, s, es, e);
      JoinKeepsPeers(c, t, p, groups[0], now);
      JoinAllIsRun(c, s, es + [e], Join(c, t, p, groups[0], now), p, groups[1..], now);
      assert es + Reports(p, groups, now) == (es + [e]) + Reports(p, groups[1..], now);
    }
  }

  /** Analysing a received frame is the events of its source address and of its reports. */
  lemma {:induction false} ObservedIsRun(c: Config, s: Switch, p: PeerId, ipv4: Ipv4Check, frame: Data, now: int)
    requires p in s.peers && |frame| >= ETHERNET_HEADER
    ensures Run(c, s, [Hear(p, frame[6..12])] + Reports(p, ReportedIn(ipv4, frame), now)) ==
            Some(Observed(c, s, p, ipv4, frame, now))
  {
    var e := Hear(p, frame[6..12]);
    RunSnoc(c, s, [], e);
    assert [] + [e] == [e];
    JoinAllIsRun(c, s, [e], LearnMac(c, s, p, frame[6..12]), p, ReportedIn(ipv4, frame), now);
  }

  // ---- The invariant ----------------------------------------------------------------------------

  lemma {:induction false} TouchSound(macs: seq<Mac>, mac: Mac, max: nat)
    requires Distinct(macs) && |macs| <= max && 0 < max
    ensures var t := Touch(macs, mac, max);
      && Distinct(t) && |t| <= max && mac in Elems(t) && Elems(t) <= Elems(macs) + {mac}
  {
    ElemsMember(macs, mac);
    RemoveSound(macs, mac);
    RemoveLength(macs, mac);
    if mac in macs {
      DistinctSnoc(Remove(macs, mac), mac);
    } else if |macs| >= max {
      DistinctSnoc(macs[1..], mac);
    } else {
      DistinctSnoc(macs, mac);
    }
  }

  lemma TouchGroupSound(groups: seq<Member>, g: Group, max: nat, end: int)
    requires Distinct(GroupsOf(groups)) && |groups| <= max && 0 < max
    ensures var t := TouchGroup(groups, g, max, end);
      Distinct(GroupsOf(t)) && |t| <= max && g in Elems(GroupsOf(t))
  {
    ElemsMember(GroupsOf(groups), g);
    if g in GroupsOf(groups) {
      GroupListDrop(groups, g);
      GroupListAdd(RemoveGroup(groups, g), Member(g, end));
    } else if |groups| >= max {
      assert GroupsOf(groups) == [groups[0].group] + GroupsOf(groups[1..]);
      assert GroupsOf(groups)[1..] == GroupsOf(groups[1..]);
      ElemsIn(GroupsOf(groups[1..]));
      GroupListAdd(groups[1..], Member(g, end));
    } else {
      GroupListAdd(groups, Member(g, end));
    }
  }

  lemma {:induction false} RemoveGroupKeeps(groups: seq<Member>, g: Group)
    requires Distinct(GroupsOf(groups))
    ensures Distinct(GroupsOf(RemoveGroup(groups, g))) && |RemoveGroup(groups, g)| <= |groups|
  {
    RemoveGroupSound(groups, g);
    RemoveSound(GroupsOf(groups), g);
  }

  lemma LearnKeepsInv(c: Config, s: Switch, p: PeerId, mac: Mac)
    requires Inv(c, s) && p in s.peers
    ensures Inv(c, LearnMac(c, s, p, mac)) && Owns(LearnMac(c, s, p, mac), p, mac)
    ensures forall q, m :: Owns(LearnMac(c, s, p, mac), q, m) ==> if m == mac then q == p else Owns(s, q, m)
  {
    hide Elems, Distinct, Touch, Remove;
    var t := LearnMac(c, s, p, mac);
    TouchSound(s.peers[p].macs, mac, c.maxMacs);
    forall q | q in s.peers && q != p
      ensures PeerOk(c, t.peers[q]) && Elems(t.peers[q].macs) == Elems(s.peers[q].macs) - {mac}
    {
      assert PeerOk(c, s.peers[q]);
      RemoveSound(s.peers[q].macs, mac);
      RemoveLength(s.peers[q].macs, mac);
    }
    assert PeerOk(c, t.peers[p]);
    forall q, m | Owns(t, q, m)
      ensures if m == mac then q == p else Owns(s, q, m)
    {
    }
  }

  lemma GroupStepKeepsInv(c: Config, s: Switch, p: PeerId, groups: seq<Member>)
    requires Inv(c, s) && p in s.peers && Distinct(GroupsOf(groups)) && |groups| <= c.maxGroups
    ensures Inv(c, WithGroups(s, p, groups))
    ensures forall q, m :: Owns(WithGroups(s, p, groups), q, m) <==> Owns(s, q, m)
  {
    hide Elems, Distinct, GroupsOf;
    var t := WithGroups(s, p, groups);
    assert forall q, m :: Owns(t, q, m) <==> Owns(s, q, m);
  }

  lemma QueryKeepsInv(c: Config, s: Switch, g: Group, limit: int)
    requires Inv(c, s)
    ensures Inv(c, LowerTimers(s, g, limit))
    ensures forall q, m :: Owns(LowerTimers(s, g, limit), q, m) <==> Owns(s, q, m)
  {
    hide Elems, Distinct;
    var t := LowerTimers(s, g, limit);
    forall q | q in s.peers
      ensures PeerOk(c, t.peers[q])
    {
      LowerKeepsGroups(s.peers[q].groups, g, limit);
    }
    assert forall q, m :: Owns(t, q, m) <==> Owns(s, q, m);
  }

  lemma ArriveKeepsInv(c: Config, s: Switch, p: PeerId)
    requires Inv(c, s) && p !in s.peers
    ensures Inv(c, AddPeer(s, p))
    ensures forall q, m :: Owns(AddPeer(s, p), q, m) <==> Owns(s, q, m)
  {
    DistinctSnoc(s.order, p);
    assert GroupsOf(Peer([], []).groups) == [];
    assert forall q, m :: Owns(AddPeer(s, p), q, m) <==> Owns(s, q, m);
  }

  lemma DepartKeepsInv(c: Config, s: Switch, p: PeerId)
    requires Inv(c, s) && p in s.peers
    ensures Inv(c, DropPeer(s, p))
    ensures forall q, m :: Owns(DropPeer(s, p), q, m) <==> Owns(s, q, m) && q != p
  {
    hide Distinct, Elems, Remove;
    RemoveSound(s.order, p);
    assert forall q, m :: Owns(DropPeer(s, p), q, m) <==> Owns(s, q, m) && q != p;
  }

  /** Who may own what after a step. */
  ghost predicate OwnsAfter(s: Switch, e: Event, q: PeerId, mac: Mac) {
    match e
    case Hear(p, m) => if m == mac then q == p else Owns(s, q, mac)
    case Depart(p) => Owns(s, q, mac) && q != p
    case _ => Owns(s, q, mac)
  }

  lemma StepKeepsInv(c: Config, s: Switch, e: Event)
    requires Inv(c, s) && Enabled(s, e)
    ensures Inv(c, Step(c, s, e))
    ensures forall q, m :: Owns(Step(c, s, e), q, m) ==> OwnsAfter(s, e, q, m)
  {
    hide Inv, Owns, LearnMac, LowerTimers;
    match e
    case Hear(p, mac) => LearnKeepsInv(c, s, p, mac);
    case Report(p, g, now) =>
      PeerFacts(c, s, p);
      TouchGroupSound(s.peers[p].groups, g, c.maxGroups, now + c.interval);
      GroupStepKeepsInv(c, s, p, TouchGroup(s.peers[p].groups, g, c.maxGroups, now + c.interval));
    case Expire(p, g) =>
      PeerFacts(c, s, p);
      RemoveGroupKeeps(s.peers[p].groups, g);
      GroupStepKeepsInv(c, s, p, RemoveGroup(s.peers[p].groups, g));
    case Query(g, limit) => QueryKeepsInv(c, s, g, limit);
    case Arrive(p) => ArriveKeepsInv(c, s, p);
    case Depart(p) => DepartKeepsInv(c, s, p);
  }

  lemma PeerFacts(c: Config, s: Switch, p: PeerId)
    requires Inv(c, s) && p in s.peers
    ensures PeerOk(c, s.peers[p]) && 0 < c.maxMacs && 0 < c.maxGroups
  {
  }

  /** Every reachable state satisfies the invariant. */
  lemma {:induction false} RunKeepsInv(c: Config, s: Switch, es: seq<Event>)
    requires Inv(c, s)
    ensures Run(c, s, es).Some? ==> Inv(c, Run(c, s, es).value)
  {
    hide Inv;
    if es != [] && Run(c, s, es).Some? {
      RunKeepsInv(c, s, es[..|es|-1]);
      StepKeepsInv(c, Run(c, s, es[..|es|-1]).value, es[|es|-1]);
    }
  }

  // ---- An address belongs to its last user ------------------------------------------------------

  /** Who used the address last, unless it has departed since. */
  function LastUser(es: seq<Event>, mac: Mac): Option<PeerId> {
    if es == [] then None
    else
      var before := LastUser(es[..|es|-1], mac);
      match es[|es|-1]
      case Hear(p, m) => if m == mac then Some(p) else before
      case Depart(p) => if before == Some(p) then None else before
      case _ => before
  }

  lemma {:induction false} OwnerIsLastUser(c: Config, es: seq<Event>, p: PeerId, mac: Mac)
    requires 0 < c.maxMacs && 0 < c.maxGroups
    ensures Run(c, EMPTY, es).Some? && Owns(Run(c, EMPTY, es).value, p, mac) ==> LastUser(es, mac) == Some(p)
  {
    if es != [] && Run(c, EMPTY, es).Some? && Owns(Run(c, EMPTY, es).value, p, mac) {
      var init, e := es[..|es|-1], es[|es|-1];
      var s := Run(c, EMPTY, init).value;
      assert Inv(c, EMPTY);
      RunKeepsInv(c, EMPTY, init);
      StepKeepsInv(c, s, e);
      assert OwnsAfter(s, e, p, mac);
      OwnerIsLastUser(c, init, p, mac);
    }
  }

  /** A frame for a single address goes to the last user of the address alone, or to everybody. */
  lemma {:induction false} UnicastGoesToLastUser(c: Config, es: seq<Event>, mac: Mac, out: seq<PeerId>)
    requires 0 < c.maxMacs && 0 < c.maxGroups && Run(c, EMPTY, es).Some?
    requires forall p :: p in Run(c, EMPTY, es).value.order ==> p in Run(c, EMPTY, es).value.peers
    requires Scan(Run(c, EMPTY, es).value, ToMac(mac), out)
    ensures out == Run(c, EMPTY, es).value.order || (LastUser(es, mac).Some? && out == [LastUser(es, mac).value])
  {
    var s := Run(c, EMPTY, es).value;
    if p :| Owns(s, p, mac) {
      OwnerIsLastUser(c, es, out[0], mac);
    }
  }

  // ---- How long an address is remembered ----------------------------------------------------------

  /** The entries refreshed after the given one. */
  ghost function Newer<T>(entries: seq<T>, x: T): set<T> {
    if entries == [] then {}
    else if entries[0] == x then Elems(entries[1..])
    else Newer(entries[1..], x)
  }

  lemma {:induction false} NewerAppend<T>(entries: seq<T>, x: T, y: T)
    requires x in entries
    ensures Newer(entries + [y], x) == Newer(entries, x) + {y}
  {
    assert (entries + [y])[1..] == entries[1..] + [y];
    if entries[0] == x {
      ElemsAppend(entries[1..], y);
    } else {
      NewerAppend(entries[1..], x, y);
    }
  }

  lemma {:induction false} NewerRemove<T>(entries: seq<T>, x: T, y: T)
    requires x in entries && y != x && Distinct(entries)
    ensures x in Remove(entries, y) && Newer(Remove(entries, y), x) <= Newer(entries, x)
  {
    if entries[0] == x {
      RemoveSound(entries[1..], y);
      assert Remove(entries, y)[1..] == Remove(entries[1..], y);
    } else if entries[0] != y {
      NewerRemove(entries[1..], x, y);
      assert Remove(entries, y)[1..] == Remove(entries[1..], y);
    }
  }

  lemma {:induction false} DistinctSize<T>(s: seq<T>)
    requires Distinct(s)
    ensures |Elems(s)| == |s|
  {
    if s != [] {
      DistinctSize(s[1..]);
      ElemsMember(s[1..], s[0]);
    }
  }

  /** Another entry of the same peer does not push this one out while there is room for all. */
  lemma {:induction false} TouchRetains<T>(entries: seq<T>, x: T, y: T, max: nat)
    requires Distinct(entries) && x in entries && y != x && |entries| <= max && |Newer(entries, x) + {y}| < max
    ensures x in Touch(entries, y, max) && Newer(Touch(entries, y, max), x) <= Newer(entries, x) + {y}
  {
    if y in entries {
      NewerRemove(entries, x, y);
      NewerAppend(Remove(entries, y), x, y);
    } else if |entries| >= max {
      ElemsMember(entries[1..], y);
      DistinctSize(entries[1..]);
      assert entries[0] != x;
      NewerAppend(entries[1..], x, y);
    } else {
      NewerAppend(entries, x, y);
    }
  }

  /** The addresses a peer has used. */
  ghost function Used(es: seq<Event>, p: PeerId): set<Mac> {
    if es == [] then {}
    else
      var before := Used(es[..|es|-1], p);
      match es[|es|-1]
      case Hear(q, m) => if q == p then before + {m} else before
      case _ => before
  }

  /** Nobody else uses the address and the peer stays. */
  predicate Undisturbed(es: seq<Event>, p: PeerId, mac: Mac) {
    forall i :: 0 <= i < |es| ==> (es[i].Hear? && es[i].mac == mac ==> es[i].peer == p) && es[i] != Depart(p)
  }

  ghost predicate Remembers(s: Switch, p: PeerId, mac: Mac, newer: set<Mac>) {
    p in s.peers && mac in s.peers[p].macs && Newer(s.peers[p].macs, mac) <= newer
  }

  lemma StepRemembers(c: Config, s: Switch, e: Event, p: PeerId, mac: Mac, newer: set<Mac>)
    requires Inv(c, s) && Enabled(s, e) && Remembers(s, p, mac, newer)
    requires (e.Hear? && e.mac == mac ==> e.peer == p) && e != Depart(p)
    requires e.Hear? && e.peer == p && e.mac != mac ==> |newer + {e.mac}| < c.maxMacs
    ensures Remembers(Step(c, s, e), p, mac, if e.Hear? && e.peer == p && e.mac != mac then newer + {e.mac} else newer)
  {
    var macs := s.peers[p].macs;
    PeerFacts(c, s, p);
    if e.Hear? {
      if e.peer == p && e.mac == mac {
        RemoveSound(macs, mac);
        ElemsMember(Remove(macs, mac), mac);
        NewestHasNoNewer(Remove(macs, mac), mac);
      } else if e.peer == p {
        SetSizes(Newer(macs, mac) + {e.mac}, newer + {e.mac});
        TouchRetains(macs, mac, e.mac, c.maxMacs);
      } else {
        NewerRemove(macs, mac, e.mac);
      }
    }
  }

  lemma SetSizes<T>(a: set<T>, b: set<T>)
    requires a <= b
    ensures |a| <= |b|
  {
    assert b == a + (b - a);
  }

  lemma {:induction false} NewestHasNoNewer<T>(entries: seq<T>, x: T)
    requires x !in entries
    ensures x in entries + [x] && Newer(entries + [x], x) == {}
  {
    if entries != [] {
      NewestHasNoNewer(entries[1..], x);
      assert (entries + [x])[1..] == entries[1..] + [x];
    }
  }

  lemma {:induction false} UsedNothing(p: PeerId)
    ensures Used([], p) == {}
  {
  }

  lemma {:induction false} UsedLast(es: seq<Event>, p: PeerId, mac: Mac)
    requires es != []
    ensures var before, e := Used(es[..|es|-1], p) - {mac}, es[|es|-1];
      Used(es, p) - {mac} == if e.Hear? && e.peer == p && e.mac != mac then before + {e.mac} else before
  {
  }

  lemma UndisturbedLast(es: seq<Event>, p: PeerId, mac: Mac)
    requires es != [] && Undisturbed(es, p, mac)
    ensures var e := es[|es|-1];
      Undisturbed(es[..|es|-1], p, mac) && (e.Hear? && e.mac == mac ==> e.peer == p) && e != Depart(p)
  {
  }

  lemma {:induction false} RunLast(c: Config, s: Switch, es: seq<Event>)
    ensures es == [] ==> Run(c, s, es) == Some(s)
    ensures es != [] && Run(c, s, es).Some? ==>
      var before, e := Run(c, s, es[..|es|-1]), es[|es|-1];
      before.Some? && Enabled(before.value, e) && Run(c, s, es) == Some(Step(c, before.value, e))
  {
  }

  lemma {:induction false} RunRemembers(c: Config, s: Switch, es: seq<Event>, p: PeerId, mac: Mac)
    requires Inv(c, s) && Remembers(s, p, mac, {}) && Undisturbed(es, p, mac) && Run(c, s, es).Some?
    requires |Used(es, p) - {mac}| < c.maxMacs
    ensures Remembers(Run(c, s, es).value, p, mac, Used(es, p) - {mac})
  {
    hide Inv, Step, Remembers, Run, Used, Undisturbed, Enabled;
    RunLast(c, s, es);
    if es == [] {
      UsedNothing(p);
    } else {
      var init, e := es[..|es|-1], es[|es|-1];
      UndisturbedLast(es, p, mac);
      UsedLast(es, p, mac);
      SetSizes(Used(init, p) - {mac}, Used(es, p) - {mac});
      RunRemembers(c, s, init, p, mac);
      RunKeepsInv(c, s, init);
      var s' := Run(c, s, init).value;
      StepRemembers(c, s', e, p, mac, Used(init, p) - {mac});
    }
  }

  /** After a peer has used an address it owns the address until somebody else uses it, the peer
      departs, or the peer has used as many other addresses as it may hold. */
  lemma {:induction false} AddressRetained(c: Config, s: Switch, es: seq<Event>, p: PeerId, mac: Mac)
    requires Inv(c, s) && p in s.peers
    requires Undisturbed(es, p, mac) && |Used(es, p) - {mac}| < c.maxMacs
    requires Run(c, LearnMac(c, s, p, mac), es).Some?
    ensures Owns(Run(c, LearnMac(c, s, p, mac), es).value, p, mac)
  {
    var macs := s.peers[p].macs;
    PeerFacts(c, s, p);
    RemoveSound(macs, mac);
    ElemsMember(Remove(macs, mac), mac);
    if mac in macs {
      NewestHasNoNewer(Remove(macs, mac), mac);
    } else if |macs| >= c.maxMacs {
      NewestHasNoNewer(macs[1..], mac);
    } else {
      NewestHasNoNewer(macs, mac);
    }
    LearnKeepsInv(c, s, p, mac);
    RunRemembers(c, LearnMac(c, s, p, mac), es, p, mac);
    ElemsMember(Run(c, LearnMac(c, s, p, mac), es).value.peers[p].macs, mac);
  }
}
