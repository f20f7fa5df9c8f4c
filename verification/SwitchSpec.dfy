/**
 The learning switch behind FrameDecider, without any index: for every peer the MAC addresses and
 multicast groups seen behind it, least recently refreshed first.  Decisions are made by scanning
 all peers.  FrameDecider.dfy proves that the indexed code makes the same decisions.
 */
module SwitchSpec {
  import opened Prelude
  import opened Bytes

  type PeerId = nat

  type Mac = Data

  type Group = nat   // IPv4 multicast address in host order

  datatype Config = Config(maxMacs: nat, maxGroups: nat, interval: nat, lastMemberQueryTime: nat)

  datatype Member = Member(group: Group, end: int)   // end: when the membership expires

  datatype Peer = Peer(macs: seq<Mac>, groups: seq<Member>)

  datatype Switch = Switch(order: seq<PeerId>, peers: map<PeerId, Peer>)

  // ---- Signatures ------------------------------------------------------------------------

  /** compute_sig_for_group: the low 23 bits of the group address */
  function SigOfGroup(g: Group): nat {
    g % 0x80_0000
  }

  /** compute_sig_for_mac: the low 23 bits of the last four bytes of the address */
  function SigOfMac(mac: Mac): nat
    requires |mac| == 6
  {
    (mac[2] as int * 0x100_0000 + mac[3] as int * 0x1_0000 + mac[4] as int * 0x100 + mac[5] as int) % 0x80_0000
  }

  const MULTICAST_PREFIX: Data := [0x01, 0x00, 0x5e]

  /** The Ethernet address of an IPv4 multicast group (section 6.4 of RFC 1112). */
  function GroupMac(g: Group): (mac: Mac)
    ensures |mac| == 6
  {
    var low := g % 0x80_0000;
    MULTICAST_PREFIX + [low / 0x1_0000, low / 0x100 % 0x100, low % 0x100]
  }

  /** A frame for a group is looked up under the signature its members are filed under. */
  lemma SigOfGroupMac(g: Group)
    ensures SigOfMac(GroupMac(g)) == SigOfGroup(g)
  {
    var low := g % 0x80_0000;
    var mac := GroupMac(g);
    var n := mac[2] as int * 0x100_0000 + mac[3] as int * 0x1_0000 + mac[4] as int * 0x100 + mac[5] as int;
    assert n == 0x5e * 0x100_0000 + low;
    assert 0x5e * 0x100_0000 == 188 * 0x80_0000;
  }

  // ---- Learning --------------------------------------------------------------------------

  /** Moves or adds an entry to the fresh end, dropping the stalest one if there is no room. */
  function Touch<T(==)>(entries: seq<T>, x: T, max: nat): seq<T> {
    if x in entries then Remove(entries, x) + [x]
    else if |entries| >= max && entries != [] then entries[1..] + [x]
    else entries + [x]
  }

  function WithGroups(s: Switch, p: PeerId, groups: seq<Member>): Switch
    requires p in s.peers
  {
    s.(peers := s.peers[p := s.peers[p].(groups := groups)])
  }

  ghost predicate Owns(s: Switch, p: PeerId, mac: Mac) {
    p in s.peers && mac in Elems(s.peers[p].macs)
  }

  /** A source address seen behind p belongs to p and to nobody else. */
  function LearnMac(c: Config, s: Switch, p: PeerId, mac: Mac): Switch
    requires p in s.peers
  {
    Switch(s.order, map r | r in s.peers ::
      s.peers[r].(macs := if r == p then Touch(s.peers[r].macs, mac, c.maxMacs) else Remove(s.peers[r].macs, mac)))
  }

  function GroupsOf(groups: seq<Member>): seq<Group> {
    seq(|groups|, i requires 0 <= i < |groups| => groups[i].group)
  }

  function RemoveGroup(groups: seq<Member>, g: Group): seq<Member> {
    if groups == [] then []
    else if groups[0].group == g then groups[1..]
    else [groups[0]] + RemoveGroup(groups[1..], g)
  }

  function TouchGroup(groups: seq<Member>, g: Group, max: nat, end: int): seq<Member> {
    if g in GroupsOf(groups) then RemoveGroup(groups, g) + [Member(g, end)]
    else if |groups| >= max && groups != [] then groups[1..] + [Member(g, end)]
    else groups + [Member(g, end)]
  }

  /** A membership report of p for the group. */
  function Join(c: Config, s: Switch, p: PeerId, g: Group, now: int): Switch
    requires p in s.peers
  {
    WithGroups(s, p, TouchGroup(s.peers[p].groups, g, c.maxGroups, now + c.interval))
  }

  /** The membership of p in the group expires. */
  function Leave(s: Switch, p: PeerId, g: Group): Switch
    requires p in s.peers
  {
    WithGroups(s, p, RemoveGroup(s.peers[p].groups, g))
  }

  function Lowered(m: Member, g: Group, limit: int): Member {
    if m.group == g && m.end > limit then Member(g, limit) else m
  }

  function LowerAll(groups: seq<Member>, g: Group, limit: int): seq<Member> {
    seq(|groups|, i requires 0 <= i < |groups| => Lowered(groups[i], g, limit))
  }

  /** A group-specific query: memberships of exactly this group last at most until `limit`. */
  function LowerTimers(s: Switch, g: Group, limit: int): Switch {
    Switch(s.order, map r | r in s.peers :: s.peers[r].(groups := LowerAll(s.peers[r].groups, g, limit)))
  }

  /** A query shortens memberships of its own group, to at most the limit, and touches nothing else. */
  lemma QueryOnlyShortens(s: Switch, g: Group, limit: int, p: PeerId, i: nat)
    requires p in s.peers && i < |s.peers[p].groups|
    ensures var t := LowerTimers(s, g, limit);
      && p in t.peers && |t.peers[p].groups| == |s.peers[p].groups| && t.peers[p].macs == s.peers[p].macs
      && var before, after := s.peers[p].groups[i], t.peers[p].groups[i];
         && after.group == before.group && after.end <= before.end
         && (before.group == g ==> after.end <= limit) && (before.group != g ==> after == before)
  {
    assert LowerTimers(s, g, limit).peers[p].groups[i] == Lowered(s.peers[p].groups[i], g, limit);
  }

  function AddPeer(s: Switch, p: PeerId): Switch {
    Switch(s.order + [p], s.peers[p := Peer([], [])])
  }

  function DropPeer(s: Switch, p: PeerId): Switch {
    Switch(Remove(s.order, p), s.peers - {p})
  }

  // ---- Invariant -----------------------------------------------------------------------------

  ghost predicate PeerOk(c: Config, x: Peer) {
    && Distinct(x.macs) && |x.macs| <= c.maxMacs
    && Distinct(GroupsOf(x.groups)) && |x.groups| <= c.maxGroups
  }

  /** At most one peer owns an address; nobody exceeds their quota. */
  ghost predicate Inv(c: Config, s: Switch) {
    && 0 < c.maxMacs && 0 < c.maxGroups
    && Distinct(s.order) && Elems(s.order) == s.peers.Keys
    && (forall p :: p in s.peers ==> PeerOk(c, s.peers[p]))
    && (forall p, r, mac :: Owns(s, p, mac) && Owns(s, r, mac) ==> p == r)
  }

  // ---- Decisions -----------------------------------------------------------------------------

  datatype Target =
    | Nowhere                 // not even an Ethernet header
    | Everywhere              // broadcast and IGMP
    | ToGroup(sig: nat)       // 01:00:5e destination
    | ToMac(mac: Mac)         // anything else

  // One destination: a peer, and the membership that makes it one.
  datatype Ref = Ref(peer: PeerId, group: Group)

  function MatchingGroups(p: PeerId, groups: seq<Member>, sig: nat): seq<Ref> {
    if groups == [] then []
    else
      var rest := MatchingGroups(p, groups[..|groups|-1], sig);
      var g := groups[|groups|-1].group;
      if SigOfGroup(g) == sig then rest + [Ref(p, g)] else rest
  }

  /** Scan of all memberships of all peers: one destination per membership whose group shares the
      low 23 bits, so a peer in two such groups is listed twice. */
  function Listeners(s: Switch, order: seq<PeerId>, sig: nat): seq<Ref>
    requires forall p :: p in order ==> p in s.peers
  {
    if order == [] then []
    else Listeners(s, order[..|order|-1], sig) +
         MatchingGroups(order[|order|-1], s.peers[order[|order|-1]].groups, sig)
  }

  function PeersOf(refs: seq<Ref>): seq<PeerId> {
    seq(|refs|, i requires 0 <= i < |refs| => refs[i].peer)
  }

  /** The destinations that a scan of all peers finds. */
  ghost predicate Scan(s: Switch, t: Target, out: seq<PeerId>)
    requires forall p :: p in s.order ==> p in s.peers
  {
    match t
    case Nowhere => out == []
    case Everywhere => out == s.order
    case ToGroup(sig) => multiset(out) == multiset(PeersOf(Listeners(s, s.order, sig)))
    case ToMac(mac) =>
      if exists p :: Owns(s, p, mac) then |out| == 1 && Owns(s, out[0], mac)
      else out == s.order
  }

  // ---- The scan lists every matching membership once --------------------------------------------

  ghost predicate Matches(s: Switch, r: Ref, sig: nat) {
    r.peer in s.peers && r.group in Elems(GroupsOf(s.peers[r.peer].groups)) && SigOfGroup(r.group) == sig
  }

  lemma {:induction false} MatchingGroupsAre(p: PeerId, groups: seq<Member>, sig: nat)
    requires Distinct(GroupsOf(groups))
    ensures Distinct(MatchingGroups(p, groups, sig))
    ensures forall r :: r in Elems(MatchingGroups(p, groups, sig)) <==>
      r.peer == p && r.group in Elems(GroupsOf(groups)) && SigOfGroup(r.group) == sig
  {
    if groups != [] {
      var init, m := groups[..|groups|-1], groups[|groups|-1];
      assert GroupsOf(groups) == GroupsOf(init) + [m.group];
      assert Distinct(GroupsOf(init)) by {
        assert forall i :: 0 <= i < |init| ==> GroupsOf(init)[i] == GroupsOf(groups)[i];
      }
      MatchingGroupsAre(p, init, sig);
      ElemsAppend(GroupsOf(init), m.group);
      assert m.group !in Elems(GroupsOf(init)) by {
        LastIsNew(GroupsOf(init), m.group);
      }
      if SigOfGroup(m.group) == sig {
        DistinctSnoc(MatchingGroups(p, init, sig), Ref(p, m.group));
      }
    }
  }

  lemma {:induction false} LastIsNew<T>(s: seq<T>, x: T)
    requires Distinct(s + [x])
    ensures x !in Elems(s)
  {
    ElemsMember(s, x);
    forall i | 0 <= i < |s|
      ensures s[i] != x
    {
      assert (s + [x])[i] == s[i] && (s + [x])[|s|] == x;
    }
  }

  lemma {:induction false} DistinctConcat<T>(s: seq<T>, t: seq<T>)
    requires Distinct(s) && Distinct(t) && Elems(s) !! Elems(t)
    ensures Distinct(s + t) && Elems(s + t) == Elems(s) + Elems(t)
  {
    if t == [] {
      assert s + t == s;
    } else {
      var init, z := t[..|t|-1], t[|t|-1];
      assert t == init + [z];
      LastIsNew(init, z);
      ElemsAppend(init, z);
      DistinctConcat(s, init);
      DistinctSnoc(s + init, z);
      assert s + t == (s + init) + [z];
    }
  }

  lemma {:induction false} ListenersAre(c: Config, s: Switch, order: seq<PeerId>, sig: nat)
    requires Distinct(order) && forall p :: p in order ==> p in s.peers && PeerOk(c, s.peers[p])
    ensures Distinct(Listeners(s, order, sig))
    ensures forall r :: r in Elems(Listeners(s, order, sig)) <==> r.peer in Elems(order) && Matches(s, r, sig)
  {
    if order != [] {
      var init, p := order[..|order|-1], order[|order|-1];
      assert order == init + [p];
      ListenersAre(c, s, init, sig);
      ElemsAppend(init, p);
      LastIsNew(init, p);
      assert p in order;
      MatchingGroupsAre(p, s.peers[p].groups, sig);
      DistinctConcat(Listeners(s, init, sig), MatchingGroups(p, s.peers[p].groups, sig));
    }
  }

  lemma PeersOfSplit(b: seq<Ref>, k: nat)
    requires k < |b|
    ensures multiset(PeersOf(b)) == multiset(PeersOf(b[..k] + b[k+1..])) + multiset{b[k].peer}
  {
    var x, y := PeersOf(b[..k]), PeersOf(b[k+1..]);
    assert PeersOf(b) == x + [b[k].peer] + y;
    assert PeersOf(b[..k] + b[k+1..]) == x + y;
  }

  /** Two duplicate-free lists of the same memberships lead to the same peers, equally often. */
  lemma {:induction false} SamePeers(a: seq<Ref>, b: seq<Ref>)
    requires Distinct(a) && Distinct(b) && Elems(a) == Elems(b)
    ensures multiset(PeersOf(a)) == multiset(PeersOf(b))
  {
    hide Distinct, PeersOf;
    if a == [] {
      assert b == [];
    } else {
      ElemsAt(a, 0);
      ElemsMember(b, a[0]);
      var k :| 0 <= k < |b| && b[k] == a[0];
      WithoutOne(a, 0);
      WithoutOne(b, k);
      assert a[..0] + a[1..] == a[1..];
      SamePeers(a[1..], b[..k] + b[k+1..]);
      PeersOfSplit(a, 0);
      PeersOfSplit(b, k);
    }
  }

  lemma {:induction false} WithoutOne(s: seq<Ref>, k: nat)
    requires Distinct(s) && k < |s|
    ensures Distinct(s[..k] + s[k+1..]) && Elems(s[..k] + s[k+1..]) == Elems(s) - {s[k]}
  {
    RemoveIsAt(s, k);
    RemoveSound(s, s[k]);
  }
}
