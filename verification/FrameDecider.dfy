/**
 FrameDecider as the C code runs it: used and free entries per peer, a tree of MAC addresses, a tree
 of groups per peer, the signature index, and a decision that is drained one destination at a time.
 Every method is tied to the index-free switch of SwitchSpec.dfy.
 */
module FrameDeciderImpl {
  import opened Prelude
  import opened Bytes
  import opened SwitchSpec
  import opened SwitchIndex
  import opened SwitchTables
  import opened Igmp
  import opened Draining

  class FrameDecider {
    const c: Config
    var peersList: seq<PeerId>
    var peers: Peers                        // the used entries of every peer, oldest first
    var macsFree: map<PeerId, nat>          // how many entries are free
    var groupsFree: map<PeerId, nat>
    var macsTree: map<Mac, PeerId>
    var groupsTree: map<PeerId, set<Group>>
    var sigs: Sigs
    var decide: Decide

    ghost function View(): Switch
      reads this`peersList, this`peers
    {
      Switch(peersList, peers)
    }

    ghost predicate MacsValid()
      reads this`peers, this`macsFree, this`macsTree
    {
      MacTables(c, peers, macsFree, macsTree)
    }

    ghost predicate GroupsValid()
      reads this`peers, this`groupsFree, this`groupsTree, this`sigs
    {
      GroupTables(c, peers, groupsFree, groupsTree, sigs)
    }

    ghost predicate ListValid()
      reads this`peersList, this`peers
    {
      Distinct(peersList) && Elems(peersList) == peers.Keys
    }

    ghost predicate DecideValid()
      reads this`peersList, this`sigs, this`decide
    {
      DecideOk(peersList, sigs, decide)
    }

    ghost predicate Valid()
      reads this
    {
      0 < c.maxMacs && 0 < c.maxGroups && ListValid() && MacsValid() && GroupsValid() && DecideValid()
    }

    /** The destinations still to be handed out. */
    ghost function Remaining(): seq<PeerId>
      reads this`peersList, this`sigs, this`decide
      requires DecideValid() && SigsOk(sigs, sigs.listOf.Keys)
    {
      Pending(peersList, sigs, decide)
    }

    constructor (c: Config)
      requires 0 < c.maxMacs && 0 < c.maxGroups
      ensures Valid() && View() == Switch([], map[]) && decide == Idle && this.c == c
    {
      this.c := c;
      peersList, peers, macsFree, groupsFree := [], map[], map[], map[];
      macsTree, groupsTree, sigs, decide := map[], map[], NoSigs, Idle;
    }

    // ---- Addresses -----------------------------------------------------------------------

    /** Takes an address away from its owner; its entry becomes free. */
    method Disown(mac: Mac)
      requires Valid() && mac in macsTree
      modifies this`peers, this`macsFree, this`macsTree
      ensures Valid() && macsTree == old(macsTree) - {mac}
      ensures old(macsTree)[mac] in old(peers) &&
              peers == SetMacs(old(peers), old(macsTree)[mac], Remove(old(peers)[old(macsTree)[mac]].macs, mac))
      ensures macsFree == old(macsFree)[old(macsTree)[mac] := macsFree[old(macsTree)[mac]]]
      ensures old(macsTree)[mac] in old(macsFree) && macsFree[old(macsTree)[mac]] == old(macsFree)[old(macsTree)[mac]] + 1
    {
      hide MacTables, GroupTables, Distinct, Elems;
      OwnerKnown(c, peers, macsFree, macsTree, mac);
      var owner := macsTree[mac];
      DropMac(c, peers, macsFree, macsTree, owner, mac);
      GroupTablesSetMacs(c, peers, groupsFree, groupsTree, sigs, owner, Remove(peers[owner].macs, mac));
      peers := SetMacs(peers, owner, Remove(peers[owner].macs, mac));
      macsFree := macsFree[owner := macsFree[owner] + 1];
      macsTree := macsTree - {mac};
    }

    /** add_mac_to_peer */
    method AddMacToPeer(p: PeerId, mac: Mac)
      requires Valid() && p in peers
      modifies this`peers, this`macsFree, this`macsTree
      ensures Valid() && View() == LearnMac(c, old(View()), p, mac)
      ensures mac in macsTree && macsTree[mac] == p
    {
      hide MacTables, GroupTables, Distinct, Elems, LearnMac;
      ghost var s := View();
      MacFacts(c, peers, macsFree, macsTree, p);
      LearnIs(c, s, macsTree, p, mac);
      if mac in macsTree {
        OwnerKnown(c, peers, macsFree, macsTree, mac);
        if macsTree[mac] == p {
          // the tree already maps the address to p: only its age changes
          RefreshMac(c, peers, macsFree, macsTree, p, mac);
          GroupTablesSetMacs(c, peers, groupsFree, groupsTree, sigs, p, Remove(peers[p].macs, mac) + [mac]);
          peers := SetMacs(peers, p, Remove(peers[p].macs, mac) + [mac]);
          return;
        }
        // single ownership: the former owner gets its entry back before p takes one
        Disown(mac);
      }
      // nobody owns the address now; the quota may still call for an eviction
      MacFacts(c, peers, macsFree, macsTree, p);
      assert mac !in s.peers[p].macs && peers[p].macs == s.peers[p].macs by {
        NotHeld(s.peers, old(macsTree), p, mac);
      }
      if macsFree[p] == 0 {
        DropStalest(c, peers, macsFree, macsTree, p);
        Disown(peers[p].macs[0]);
        MacFacts(c, peers, macsFree, macsTree, p);
      }
      TakeEntry(p, mac);
    }

    method TakeEntry(p: PeerId, mac: Mac)
      requires Valid() && p in peers && p in macsFree && macsFree[p] > 0 && mac !in macsTree
      modifies this`peers, this`macsFree, this`macsTree
      ensures Valid() && peers == SetMacs(old(peers), p, old(peers)[p].macs + [mac]) && macsTree == old(macsTree)[mac := p]
    {
      hide MacTables, GroupTables, Distinct, Elems;
      TakeMac(c, peers, macsFree, macsTree, p, mac);
      GroupTablesSetMacs(c, peers, groupsFree, groupsTree, sigs, p, peers[p].macs + [mac]);
      macsFree := macsFree[p := macsFree[p] - 1];
      peers := SetMacs(peers, p, peers[p].macs + [mac]);
      macsTree := macsTree[mac := p];
    }

    // ---- Groups --------------------------------------------------------------------------

    /** remove_from_multicast, including the iterator that may stand on the entry */
    method RemoveFromMulticast(r: Ref)
      requires DecideValid() && SigsOk(sigs, sigs.listOf.Keys) && r in sigs.listOf
      modifies this`sigs, this`decide
      ensures old(sigs.listOf)[r] in old(sigs.lists) && r in old(sigs.lists)[old(sigs.listOf)[r]]
      ensures sigs == RemoveRef(old(sigs), r) && DecideValid() && SigsOk(sigs, sigs.listOf.Keys)
      ensures sigs.listOf.Keys == old(sigs.listOf).Keys - {r}
      ensures decide.Loose? <==> old(decide).Loose?
      ensures decide.Loose? ==> decide == Loose(old(decide).entry, old(decide).stale || old(decide).entry == Some(r))
      ensures Safe(decide) ==> Without(Remaining(), r.peer) == Without(old(Remaining()), r.peer)
    {
      hide SigsOk, Distinct, Elems, Pending, DecideOk;
      PendingAfterUnlink(peersList, sigs, decide, r);
      RemoveRefKeeps(sigs, sigs.listOf.Keys, r);
      decide := Jump(sigs, decide, r);
      sigs := Unlink(Abdicate(sigs, r), r);
    }

    /** remove_group_entry, run when the membership timer expires */
    method RemoveGroupEntry(p: PeerId, g: Group)
      requires Valid() && p in peers && p in groupsTree && g in groupsTree[p]
      modifies this`peers, this`groupsFree, this`groupsTree, this`sigs, this`decide
      ensures Valid() && View() == Leave(old(View()), p, g)
      ensures p in groupsFree && p in groupsTree && groupsTree == old(groupsTree)[p := old(groupsTree)[p] - {g}]
      ensures p in old(groupsFree) && groupsFree == old(groupsFree)[p := old(groupsFree)[p] + 1]
    {
      hide MacTables, GroupTables, Distinct, Elems, SigsOk, RemoveRef;
      GroupFacts(c, peers, groupsFree, groupsTree, sigs, p);
      DropGroup(c, peers, groupsFree, groupsTree, sigs, p, g);
      MacTablesSetGroups(c, peers, macsFree, macsTree, p, RemoveGroup(peers[p].groups, g));
      RemoveFromMulticast(Ref(p, g));
      groupsTree := groupsTree[p := groupsTree[p] - {g}];
      peers := SetGroups(peers, p, RemoveGroup(peers[p].groups, g));
      groupsFree := groupsFree[p := groupsFree[p] + 1];
    }

    /** add_group_to_peer */
    method AddGroupToPeer(p: PeerId, g: Group, now: int)
      requires Valid() && p in peers
      modifies this`peers, this`groupsFree, this`groupsTree, this`sigs, this`decide
      ensures Valid() && View() == Join(c, old(View()), p, g, now)
      ensures p in groupsTree && g in groupsTree[p]
    {
      hide MacTables, GroupTables, Distinct, Elems, SigsOk, AddRef, GroupsOf;
      ghost var s := View();
      GroupFacts(c, peers, groupsFree, groupsTree, sigs, p);
      var end := now + c.interval;
      if g in groupsTree[p] {
        RefreshGroup(c, peers, groupsFree, groupsTree, sigs, p, g, end);
        MacTablesSetGroups(c, peers, macsFree, macsTree, p, RemoveGroup(peers[p].groups, g) + [Member(g, end)]);
        peers := SetGroups(peers, p, RemoveGroup(peers[p].groups, g) + [Member(g, end)]);
        return;
      }
      NotMember(c, peers, groupsFree, groupsTree, sigs, p, g);
      if groupsFree[p] == 0 {
        // the quota is used up: the membership that was refreshed longest ago makes room
        EarliestGroup(c, peers, groupsFree, groupsTree, sigs, p);
        RemoveGroupEntry(p, peers[p].groups[0].group);
      }
      FileGroup(p, g, end);
    }

    /** A free entry is filled, linked into the peer's tree and added to the multicast index. */
    method FileGroup(p: PeerId, g: Group, end: int)
      requires Valid() && p in peers && p in groupsFree && groupsFree[p] > 0 && p in groupsTree && g !in groupsTree[p]
      modifies this`peers, this`groupsFree, this`groupsTree, this`sigs
      ensures Valid() && peers == SetGroups(old(peers), p, old(peers)[p].groups + [Member(g, end)])
      ensures p in groupsTree && g in groupsTree[p]
    {
      hide MacTables, GroupTables, Distinct, Elems, SigsOk, AddRef, GroupsOf;
      TakeGroup(c, peers, groupsFree, groupsTree, sigs, p, g, end);
      MacTablesSetGroups(c, peers, macsFree, macsTree, p, peers[p].groups + [Member(g, end)]);
      groupsFree := groupsFree[p := groupsFree[p] - 1];
      peers := SetGroups(peers, p, peers[p].groups + [Member(g, end)]);
      groupsTree := groupsTree[p := groupsTree[p] + {g}];
      AddKeepsOthers(sigs, Ref(p, g));
      sigs := AddRef(sigs, Ref(p, g));
    }

    /** lower_group_timers_to_lmqt */
    method LowerGroupTimers(g: Group, now: int)
      requires Valid()
      modifies this`peers
      ensures Valid() && View() == LowerTimers(old(View()), g, now + c.lastMemberQueryTime)
    {
      hide MacTables, GroupTables, Distinct, Elems, SigsOk, LowerTimers, PartlyLowered;
      ghost var s, done := View(), {};
      var sig, limit := SigOfGroup(g), now + c.lastMemberQueryTime;
      GroupSigs(c, peers, groupsFree, groupsTree, sigs);
      ListIsExact(sigs, sigs.listOf.Keys, sig);
      PartlyLoweredStart(peers, g, limit);
      if sig !in sigs.tree {
        FullyLowered(c, s, groupsFree, groupsTree, sigs, {}, g, limit);
        return;
      }
      var list := sigs.lists[sigs.listOf[sigs.tree[sig]]];
      assert list[..0] == [] && Elems(list[..0]) == {} by { ElemsNothing<Ref>(); }
      for i := 0 to |list|
        invariant Valid() && sigs == old(sigs) && done == Elems(list[..i])
        invariant peers == PartlyLowered(s.peers, done, g, limit)
      {
        var r := list[i];
        ElemsAt(list, i);
        ElemsPrefix(list, i);
        if r.group != g {
          PartlyLoweredSkip(s.peers, done, r, g, limit);
        } else {
          RefHasPeer(c, peers, groupsFree, groupsTree, sigs, r);
          SamePeerSet(s.peers, done, g, limit);
          PartlyLoweredVisit(s.peers, done, r.peer, g, limit);
          LowerOneKeeps(c, peers, groupsFree, groupsTree, sigs, r.peer, g, limit);
          MacTablesSetGroups(c, peers, macsFree, macsTree, r.peer, LowerAll(peers[r.peer].groups, g, limit));
          peers := SetGroups(peers, r.peer, LowerAll(peers[r.peer].groups, g, limit));
        }
        done := done + {r};
      }
      assert list[..|list|] == list;
      FullyLowered(c, s, groupsFree, groupsTree, sigs, done, g, limit);
    }

    // ---- Decisions --------------------------------------------------------------------------

    /** The end of FrameDecider_AnalyzeAndDecide: choose by the destination address. */
    method Choose(t: Target)
      requires Valid() && SigsOk(sigs, sigs.listOf.Keys)
      modifies this`decide
      ensures Valid() && Safe(decide) && (forall p :: p in peersList ==> p in peers) && Scan(View(), t, Remaining())
    {
      hide MacTables, GroupTables, Distinct, Elems, SigsOk, Listeners, From;
      ghost var s := View();
      assert forall p :: p in peersList ==> p in peers by { ElemsIn(peersList); }
      WalkAll(peersList);
      HeadKnown(peersList);
      decide := Idle;
      match t {
        case Nowhere =>
        case Everywhere =>
          decide := Flood(Head(peersList));
        case ToGroup(sig) =>
          PeersOk(c, s, macsFree, macsTree);
          ListScans(c, s, groupsFree, groupsTree, sigs, sig);
          if sig in sigs.tree {
            StartOfList(sigs, sigs.tree[sig]);
            decide := Multicast(Head(sigs.lists[sigs.listOf[sigs.tree[sig]]]));
          }
        case ToMac(mac) =>
          TreeKnowsOwner(c, s, macsFree, macsTree, mac);
          if mac in macsTree {
            decide := Unicast(macsTree[mac]);
          } else {
            decide := Flood(Head(peersList));
          }
      }
    }

    /** FrameDecider_AnalyzeAndDecide.  While a multicast decision is not drained the code only frees
        its iterator and returns; what was pending is still pending then. */
    method AnalyzeAndDecide(ipv4: Ipv4Check, frame: Data, now: int)
      requires Valid() && Safe(decide)
      modifies this`peers, this`decide
      ensures Valid() && Safe(decide) && forall p :: p in peersList ==> p in peers
      ensures Undrained(old(decide)) ==>
        View() == old(View()) && decide == Loose(old(decide).entry, false) && Remaining() == old(Remaining())
      ensures !Undrained(old(decide)) ==>
        && View() == Heard(c, old(View()), ipv4, frame, now)
        && Scan(View(), TargetOf(ipv4, frame), Remaining())
    {
      hide MacTables, GroupTables, Distinct, Elems, SigsOk, Scan, Pending, LowerTimers;
      GroupSigs(c, peers, groupsFree, groupsTree, sigs);
      assert forall p :: p in peersList ==> p in peers by { ElemsIn(peersList); }
      if Undrained(decide) {
        SamePending(peersList, sigs, decide);
        decide := Loose(decide.entry, false);
        return;
      }
      decide := Idle;
      var msg := IgmpOf(ipv4, frame);
      if msg.Some? {
        var g := QueriedGroup(msg.value);
        if g.Some? {
          LowerGroupTimers(g.value, now);
        }
      }
      GroupSigs(c, peers, groupsFree, groupsTree, sigs);
      Choose(TargetOf(ipv4, frame));
    }

    /** FrameDecider_NextDestination */
    method NextDestination() returns (dest: Option<PeerId>)
      requires Valid() && Safe(decide)
      modifies this`decide
      ensures Valid() && Safe(decide)
      ensures dest.None? ==> old(Remaining()) == [] && decide == Idle
      ensures dest.Some? ==> old(Remaining()) == [dest.value] + Remaining()
    {
      hide MacTables, GroupTables, Distinct, Elems, SigsOk, From, Successor, Visits;
      GroupSigs(c, peers, groupsFree, groupsTree, sigs);
      match decide {
        case Idle =>
          dest := None;
        case Unicast(p) =>
          decide := Idle;
          dest := Some(p);
        case Flood(at) =>
          if at.None? {
            decide := Idle;
            dest := None;
          } else {
            NextInFlood(peersList, at.value);
            decide := Flood(Successor(peersList, at.value));
            dest := at;
          }
        case Multicast(entry) =>
          dest := NextMember(entry);
        case Loose(entry, stale) =>
          dest := NextMember(entry);
      }
    }

    /** LinkedList3Iterator_Next; afterwards the list knows of the iterator again */
    method NextMember(entry: Option<Ref>) returns (dest: Option<PeerId>)
      requires Valid() && Undrained(decide) && Safe(decide) && decide.entry == entry
      modifies this`decide
      ensures Valid() && Safe(decide)
      ensures dest.None? ==> old(Remaining()) == [] && decide == Idle
      ensures dest.Some? ==> old(Remaining()) == [dest.value] + Remaining()
    {
      hide MacTables, GroupTables, Distinct, Elems, SigsOk, From, Successor, Visits;
      GroupSigs(c, peers, groupsFree, groupsTree, sigs);
      if entry.None? {
        NoVisits(sigs);
        decide := Idle;
        dest := None;
      } else {
        NextInMulticast(sigs, entry.value);
        decide := Multicast(Successor(sigs.lists[sigs.listOf[entry.value]], entry.value));
        dest := Some(entry.value.peer);
      }
    }

    /** The loop of the client's device handler: every destination gets the frame once. */
    method Drain() returns (out: seq<PeerId>)
      requires Valid() && Safe(decide)
      modifies this`decide
      ensures Valid() && decide == Idle && out == old(Remaining())
    {
      hide MacTables, GroupTables, Distinct, Elems, SigsOk, Pending;
      GroupSigs(c, peers, groupsFree, groupsTree, sigs);
      out := [];
      var dest := NextDestination();
      while dest.Some?
        invariant Valid() && Safe(decide) && sigs == old(sigs)
        invariant dest.Some? ==> old(Remaining()) == out + [dest.value] + Remaining()
        invariant dest.None? ==> decide == Idle && old(Remaining()) == out
        decreases if dest.Some? then |Remaining()| + 1 else 0
      {
        out := out + [dest.value];
        dest := NextDestination();
      }
    }

    /** device_dpsource_handler: from a drained state a frame goes exactly to the peers that a scan
        of all memberships and addresses finds */
    method ForwardFrame(ipv4: Ipv4Check, frame: Data, now: int) returns (out: seq<PeerId>)
      requires Valid() && !Undrained(decide)
      modifies this`peers, this`decide
      ensures Valid() && decide == Idle && View() == Heard(c, old(View()), ipv4, frame, now)
      ensures (forall p :: p in peersList ==> p in peers) && Scan(View(), TargetOf(ipv4, frame), out)
    {
      hide MacTables, GroupTables, Distinct, Elems, SigsOk, Scan, Pending, Heard;
      AnalyzeAndDecide(ipv4, frame, now);
      GroupSigs(c, peers, groupsFree, groupsTree, sigs);
      out := Drain();
    }

    // ---- Peers ----------------------------------------------------------------------------------

    /** FrameDeciderPeer_Init */
    method PeerInit(p: PeerId)
      requires Valid() && p !in peers
      modifies this
      ensures Valid() && View() == AddPeer(old(View()), p)
    {
      hide MacTables, GroupTables, Elems, SigsOk;
      AddPeerMacs(c, peers, macsFree, macsTree, p);
      AddPeerGroups(c, peers, groupsFree, groupsTree, sigs, p);
      DistinctSnoc(peersList, p);
      peersList := peersList + [p];
      peers := peers[p := Peer([], [])];
      macsFree, groupsFree := macsFree[p := c.maxMacs], groupsFree[p := c.maxGroups];
      groupsTree := groupsTree[p := {}];
    }

    /** The group entries of a peer that goes away leave the multicast index. */
    method UnlinkGroups(p: PeerId)
      requires p in peers && DecideValid() && SigsOk(sigs, sigs.listOf.Keys)
      requires Distinct(GroupsOf(peers[p].groups))
      requires forall g :: g in Elems(GroupsOf(peers[p].groups)) ==> Ref(p, g) in sigs.listOf
      modifies this`sigs, this`decide
      ensures DecideValid() && SigsOk(sigs, sigs.listOf.Keys)
      ensures forall r :: r in sigs.listOf <==> r in old(sigs.listOf) && !(r.peer == p && r.group in GroupSet(peers[p]))
      ensures decide.Loose? <==> old(decide).Loose?
      ensures decide.Loose? ==>
        decide == Loose(old(decide).entry, old(decide).stale || StandsOn(old(decide), p, GroupSet(peers[p])))
      ensures Safe(decide) ==> Without(Remaining(), p) == Without(old(Remaining()), p)
    {
      hide SigsOk, Distinct, Elems, RemoveRef, Pending, DecideOk;
      var gs := GroupsOf(peers[p].groups);
      assert gs[..0] == [] && Elems(gs[..0]) == {} by { ElemsNothing<Group>(); }
      for i := 0 to |gs|
        invariant DecideValid() && SigsOk(sigs, sigs.listOf.Keys)
        invariant forall r :: r in sigs.listOf <==> r in old(sigs.listOf) && !(r.peer == p && r.group in Elems(gs[..i]))
        invariant decide.Loose? <==> old(decide).Loose?
        invariant decide.Loose? ==>
          decide == Loose(old(decide).entry, old(decide).stale || StandsOn(old(decide), p, Elems(gs[..i])))
        invariant Safe(decide) ==> Without(Remaining(), p) == Without(old(Remaining()), p)
      {
        ElemsAt(gs, i);
        ElemsPrefix(gs, i);
        RemoveFromMulticast(Ref(p, gs[i]));
      }
      assert gs[..|gs|] == gs;
    }

    /** Its addresses leave the tree. */
    method UnlinkMacs(p: PeerId)
      requires p in peers
      modifies this`macsTree
      ensures macsTree == old(macsTree) - Elems(peers[p].macs)
    {
      hide Elems;
      var macs := peers[p].macs;
      assert macs[..0] == [] && Elems(macs[..0]) == {} by { ElemsNothing<Mac>(); }
      for i := 0 to |macs|
        invariant macsTree == old(macsTree) - Elems(macs[..i])
      {
        ElemsPrefix(macs, i);
        macsTree := macsTree - {macs[i]};
      }
      assert macs[..|macs|] == macs;
    }

    /** FrameDeciderPeer_Free: what is being handed out skips the peer and nobody else. */
    method PeerFree(p: PeerId)
      requires Valid() && p in peers
      modifies this
      ensures Valid() && View() == DropPeer(old(View()), p)
      ensures Safe(decide) <==>
        Safe(old(decide)) && !(old(decide).Loose? && old(decide).entry.Some? && old(decide).entry.value.peer == p)
      ensures Safe(decide) ==> Remaining() == Without(old(Remaining()), p)
    {
      hide MacTables, GroupTables, Distinct, Elems, SigsOk, Pending, DecideOk, GroupSet, Forget;
      GroupSigs(c, peers, groupsFree, groupsTree, sigs);
      PeerRefs(c, peers, groupsFree, groupsTree, sigs, p);
      DropPeerMacs(c, peers, macsFree, macsTree, p);
      RemoveSound(peersList, p);
      UnlinkGroups(p);
      DropPeerGroups(c, peers, groupsFree, groupsTree, old(sigs), p, sigs);
      UnlinkMacs(p);
      PendingAfterFree(peersList, sigs, decide, p);
      ForgetLoose(peersList, decide, p);
      decide := Forget(peersList, decide, p);
      peersList := Remove(peersList, p);
      peers, macsFree := peers - {p}, macsFree - {p};
      groupsFree, groupsTree := groupsFree - {p}, groupsTree - {p};
    }

    /** FrameDeciderPeer_Analyze */
    method Analyze(p: PeerId, ipv4: Ipv4Check, frame: Data, now: int)
      requires Valid() && p in peers
      modifies this
      ensures Valid() && View() == Observed(c, old(View()), p, ipv4, frame, now)
    {
      hide MacTables, GroupTables, Distinct, Elems, SigsOk, LearnMac, DecideOk, Join;
      if |frame| < ETHERNET_HEADER {
        return;
      }
      AddMacToPeer(p, frame[6..12]);
      LearnKeepsPeers(c, old(View()), p, frame[6..12]);
      var msg := IgmpOf(ipv4, frame);
      if msg.None? || |msg.value| < 8 {
        assert ReportedIn(ipv4, frame) == [];
        return;
      }
      if msg.value[0] == V2_REPORT {
        JoinNext(c, View(), p, Be32(msg.value, 4), [], now);
        assert ReportedIn(ipv4, frame) == [Be32(msg.value, 4)] + [];
        AddGroupToPeer(p, Be32(msg.value, 4), now);
      } else if msg.value[0] == V3_REPORT {
        AddRecords(p, msg.value[8..], Be16(msg.value, 6), now);
      }
    }

    method AddRecords(p: PeerId, records: Data, count: nat, now: int)
      requires Valid() && p in peers
      modifies this
      ensures Valid() && View() == JoinAll(c, old(View()), p, RecordGroups(records, count), now)
    {
      hide MacTables, GroupTables, Distinct, Elems, SigsOk, DecideOk, Join, Record;
      var pos := records;
      for i := 0 to count
        invariant Valid() && p in peers
        invariant JoinAll(c, View(), p, RecordGroups(pos, count - i), now) ==
                  JoinAll(c, old(View()), p, RecordGroups(records, count), now)
      {
        var r := Record(pos);
        if r.None? {
          return;
        }
        var g, rest := r.value.0, r.value.1;
        assert RecordGroups(pos, count - i) ==
               if g.Some? then [g.value] + RecordGroups(rest, count - i - 1) else RecordGroups(rest, count - i - 1);
        if g.Some? {
          JoinNext(c, View(), p, g.value, RecordGroups(rest, count - i - 1), now);
          AddGroupToPeer(p, g.value, now);
        }
        pos := rest;
      }
    }
  }
}
