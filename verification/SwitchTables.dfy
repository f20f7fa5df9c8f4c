/**
 The tables of FrameDecider as plain values, and what each update of the code does to them.
 */
module SwitchTables {
  import opened Prelude
  import opened SwitchSpec
  import opened SwitchIndex

  type Peers = map<PeerId, Peer>

  // ---- MAC tree ----------------------------------------------------------------------------

  /** The MAC tree is exactly the union of the peers' used entries. */
  ghost predicate MacIndex(peers: Peers, tree: map<Mac, PeerId>) {
    forall p, mac :: Held(peers, p, mac) <==> mac in tree && tree[mac] == p
  }

  ghost predicate Held(peers: Peers, p: PeerId, mac: Mac) {
    p in peers && mac in Elems(peers[p].macs)
  }

  ghost predicate MacsOk(c: Config, peers: Peers, free: map<PeerId, nat>) {
    && free.Keys == peers.Keys
    && forall p :: p in peers ==> Distinct(peers[p].macs) && |peers[p].macs| + free[p] == c.maxMacs
  }

  ghost predicate MacTables(c: Config, peers: Peers, free: map<PeerId, nat>, tree: map<Mac, PeerId>) {
    MacsOk(c, peers, free) && MacIndex(peers, tree)
  }

  function SetMacs(peers: Peers, p: PeerId, macs: seq<Mac>): Peers
    requires p in peers
  {
    peers[p := peers[p].(macs := macs)]
  }

  /** One peer's list changes: what that means for the tree depends only on the set of its entries. */
  lemma {:induction false} MacIndexUpdate(peers: Peers, tree: map<Mac, PeerId>, p: PeerId, macs: seq<Mac>,
                                          tree': map<Mac, PeerId>, mac: Mac)
    requires MacIndex(peers, tree) && p in peers
    requires mac in tree ==> tree[mac] == p
    requires
      || (tree' == tree && Elems(macs) == Elems(peers[p].macs))
      || (tree' == tree - {mac} && Elems(macs) == Elems(peers[p].macs) - {mac})
      || (tree' == tree[mac := p] && Elems(macs) == Elems(peers[p].macs) + {mac})
    ensures MacIndex(SetMacs(peers, p, macs), tree')
  {
    hide Elems;
    var peers' := SetMacs(peers, p, macs);
    forall q, m
      ensures Held(peers', q, m) <==> m in tree' && tree'[m] == q
    {
      assert Held(peers, q, m) <==> m in tree && tree[m] == q;
    }
  }

  lemma MacsUpdate(c: Config, peers: Peers, free: map<PeerId, nat>, p: PeerId, macs: seq<Mac>, n: nat)
    requires MacsOk(c, peers, free) && p in peers && Distinct(macs) && |macs| + n == c.maxMacs
    ensures MacsOk(c, SetMacs(peers, p, macs), free[p := n])
  {
    hide Distinct;
  }

  /** An own address moves to the fresh end. */
  lemma {:induction false} RefreshMac(c: Config, peers: Peers, free: map<PeerId, nat>, tree: map<Mac, PeerId>,
                                      p: PeerId, mac: Mac)
    requires MacTables(c, peers, free, tree) && p in peers && mac in tree && tree[mac] == p
    ensures MacTables(c, SetMacs(peers, p, Remove(peers[p].macs, mac) + [mac]), free, tree)
    ensures mac in peers[p].macs
  {
    var macs := peers[p].macs;
    assert Held(peers, p, mac);
    ElemsMember(macs, mac);
    RemoveSound(macs, mac);
    RemoveLength(macs, mac);
    DistinctSnoc(Remove(macs, mac), mac);
    MacIndexUpdate(peers, tree, p, Remove(macs, mac) + [mac], tree, mac);
    MacsUpdate(c, peers, free, p, Remove(macs, mac) + [mac], free[p]);
    assert free[p := free[p]] == free;
  }

  /** An address leaves a peer, its entry becomes free. */
  lemma {:induction false} DropMac(c: Config, peers: Peers, free: map<PeerId, nat>, tree: map<Mac, PeerId>,
                                   p: PeerId, mac: Mac)
    requires MacTables(c, peers, free, tree) && p in peers && mac in tree && tree[mac] == p
    ensures MacTables(c, SetMacs(peers, p, Remove(peers[p].macs, mac)), free[p := free[p] + 1], tree - {mac})
  {
    var macs := peers[p].macs;
    assert Held(peers, p, mac);
    ElemsMember(macs, mac);
    RemoveSound(macs, mac);
    RemoveLength(macs, mac);
    MacIndexUpdate(peers, tree, p, Remove(macs, mac), tree - {mac}, mac);
    MacsUpdate(c, peers, free, p, Remove(macs, mac), free[p] + 1);
  }

  /** A new address takes a free entry. */
  lemma TakeMac(c: Config, peers: Peers, free: map<PeerId, nat>, tree: map<Mac, PeerId>, p: PeerId, mac: Mac)
    requires MacTables(c, peers, free, tree) && p in peers && mac !in tree && free[p] > 0
    ensures MacTables(c, SetMacs(peers, p, peers[p].macs + [mac]), free[p := free[p] - 1], tree[mac := p])
  {
    assert !Held(peers, p, mac);
    DistinctSnoc(peers[p].macs, mac);
    MacIndexUpdate(peers, tree, p, peers[p].macs + [mac], tree[mac := p], mac);
    MacsUpdate(c, peers, free, p, peers[p].macs + [mac], free[p] - 1);
  }

  /** The stalest used address is the first one; dropping it frees an entry. */
  lemma DropStalest(c: Config, peers: Peers, free: map<PeerId, nat>, tree: map<Mac, PeerId>, p: PeerId)
    requires MacTables(c, peers, free, tree) && p in peers && free[p] == 0 && 0 < c.maxMacs
    ensures var macs := peers[p].macs;
      && macs != [] && macs[0] in tree && tree[macs[0]] == p
      && Remove(macs, macs[0]) == macs[1..]
  {
    ElemsAt(peers[p].macs, 0);
    assert Held(peers, p, peers[p].macs[0]);
  }

  // ---- Group tables ----------------------------------------------------------------------------

  ghost function GroupSet(x: Peer): set<Group> {
    Elems(GroupsOf(x.groups))
  }

  ghost predicate HasRef(peers: Peers, r: Ref) {
    r.peer in peers && r.group in GroupSet(peers[r.peer])
  }

  /** The per-peer trees and the signature index know exactly the used group entries. */
  ghost predicate GroupsOk(c: Config, peers: Peers, free: map<PeerId, nat>, trees: map<PeerId, set<Group>>) {
    && free.Keys == peers.Keys && trees.Keys == peers.Keys
    && forall p :: p in peers ==>
         && Distinct(GroupsOf(peers[p].groups))
         && |peers[p].groups| + free[p] == c.maxGroups
         && trees[p] == GroupSet(peers[p])
  }

  ghost predicate SigIndex(peers: Peers, sigs: Sigs) {
    SigsOk(sigs, sigs.listOf.Keys) && forall r :: r in sigs.listOf <==> HasRef(peers, r)
  }

  function SetGroups(peers: Peers, p: PeerId, groups: seq<Member>): Peers
    requires p in peers
  {
    peers[p := peers[p].(groups := groups)]
  }

  lemma {:induction false} RemoveGroupSound(groups: seq<Member>, g: Group)
    ensures GroupsOf(RemoveGroup(groups, g)) == Remove(GroupsOf(groups), g)
    ensures |RemoveGroup(groups, g)| == if g in GroupsOf(groups) then |groups| - 1 else |groups|
  {
    if groups != [] {
      assert GroupsOf(groups)[1..] == GroupsOf(groups[1..]);
      if groups[0].group != g {
        RemoveGroupSound(groups[1..], g);
        assert GroupsOf([groups[0]] + RemoveGroup(groups[1..], g)) ==
               [groups[0].group] + GroupsOf(RemoveGroup(groups[1..], g));
      }
    }
  }

  lemma GroupsOfAppend(groups: seq<Member>, m: Member)
    ensures GroupsOf(groups + [m]) == GroupsOf(groups) + [m.group]
  {
  }

  lemma SigIndexGains(peers: Peers, peers': Peers, sigs: Sigs, r: Ref)
    requires SigIndex(peers, sigs) && !HasRef(peers, r)
    requires forall t :: HasRef(peers', t) <==> HasRef(peers, t) || t == r
    ensures SigOf(r) in sigs.tree ==> sigs.tree[SigOf(r)] in sigs.listOf && sigs.listOf[sigs.tree[SigOf(r)]] in sigs.lists
    ensures SigIndex(peers', AddRef(sigs, r))
  {
    hide SigsOk, AddRef, HasRef;
    AddRefKeeps(sigs, sigs.listOf.Keys, r);
  }

  lemma SigIndexLoses(peers: Peers, peers': Peers, sigs: Sigs, r: Ref)
    requires SigIndex(peers, sigs) && HasRef(peers, r)
    requires forall t :: HasRef(peers', t) <==> HasRef(peers, t) && t != r
    ensures r in sigs.listOf && sigs.listOf[r] in sigs.lists && r in sigs.lists[sigs.listOf[r]]
    ensures SigIndex(peers', RemoveRef(sigs, r))
  {
    hide SigsOk, RemoveRef, HasRef;
    RemoveRefKeeps(sigs, sigs.listOf.Keys, r);
  }

  lemma SigIndexSame(peers: Peers, peers': Peers, sigs: Sigs)
    requires SigIndex(peers, sigs) && forall t :: HasRef(peers', t) <==> HasRef(peers, t)
    ensures SigIndex(peers', sigs)
  {
    hide SigsOk, HasRef;
  }

  ghost predicate GroupTables(c: Config, peers: Peers, free: map<PeerId, nat>, trees: map<PeerId, set<Group>>, sigs: Sigs) {
    GroupsOk(c, peers, free, trees) && SigIndex(peers, sigs)
  }

  lemma GroupsUpdate(c: Config, peers: Peers, free: map<PeerId, nat>, trees: map<PeerId, set<Group>>,
                     p: PeerId, groups: seq<Member>, n: nat)
    requires GroupsOk(c, peers, free, trees) && p in peers
    requires Distinct(GroupsOf(groups)) && |groups| + n == c.maxGroups
    ensures GroupsOk(c, SetGroups(peers, p, groups), free[p := n], trees[p := Elems(GroupsOf(groups))])
  {
    hide Distinct, GroupsOf, Elems;
  }

  lemma HasRefUpdate(peers: Peers, p: PeerId, groups: seq<Member>, t: Ref)
    requires p in peers
    ensures HasRef(SetGroups(peers, p, groups), t) <==>
      if t.peer == p then t.group in Elems(GroupsOf(groups)) else HasRef(peers, t)
  {
  }

  lemma {:induction false} GroupListDrop(groups: seq<Member>, g: Group)
    requires Distinct(GroupsOf(groups)) && g in Elems(GroupsOf(groups))
    ensures var groups' := RemoveGroup(groups, g);
      && g in GroupsOf(groups) && |groups'| == |groups| - 1
      && Distinct(GroupsOf(groups')) && Elems(GroupsOf(groups')) == Elems(GroupsOf(groups)) - {g}
  {
    ElemsMember(GroupsOf(groups), g);
    RemoveGroupSound(groups, g);
    RemoveSound(GroupsOf(groups), g);
  }

  lemma GroupListAdd(groups: seq<Member>, m: Member)
    requires Distinct(GroupsOf(groups)) && m.group !in Elems(GroupsOf(groups))
    ensures m.group !in GroupsOf(groups)
    ensures Distinct(GroupsOf(groups + [m])) && Elems(GroupsOf(groups + [m])) == Elems(GroupsOf(groups)) + {m.group}
  {
    ElemsMember(GroupsOf(groups), m.group);
    GroupsOfAppend(groups, m);
    DistinctSnoc(GroupsOf(groups), m.group);
  }

  /** A known membership is refreshed. */
  lemma {:induction false} RefreshGroup(c: Config, peers: Peers, free: map<PeerId, nat>, trees: map<PeerId,
                                        set<Group>>, sigs: Sigs,
                     p: PeerId, g: Group, end: int)
    requires GroupTables(c, peers, free, trees, sigs) && p in peers && g in trees[p]
    ensures g in GroupsOf(peers[p].groups)
    ensures GroupTables(c, SetGroups(peers, p, RemoveGroup(peers[p].groups, g) + [Member(g, end)]), free, trees, sigs)
  {
    hide SigsOk, Distinct, Elems, GroupsOf, HasRef, RemoveGroup;
    var groups := peers[p].groups;
    var groups' := RemoveGroup(groups, g) + [Member(g, end)];
    GroupListDrop(groups, g);
    GroupListAdd(RemoveGroup(groups, g), Member(g, end));
    SameGroups(c, peers, free, trees, sigs, p, groups');
  }

  lemma SameGroups(c: Config, peers: Peers, free: map<PeerId, nat>, trees: map<PeerId, set<Group>>, sigs: Sigs,
                   p: PeerId, groups: seq<Member>)
    requires GroupTables(c, peers, free, trees, sigs) && p in peers
    requires |groups| == |peers[p].groups| && Distinct(GroupsOf(groups))
    requires Elems(GroupsOf(groups)) == Elems(GroupsOf(peers[p].groups))
    ensures GroupTables(c, SetGroups(peers, p, groups), free, trees, sigs)
  {
    hide SigsOk, Distinct, Elems, GroupsOf;
    GroupsUpdate(c, peers, free, trees, p, groups, free[p]);
    assert free[p := free[p]] == free && trees[p := Elems(GroupsOf(groups))] == trees;
    forall t
      ensures HasRef(SetGroups(peers, p, groups), t) <==> HasRef(peers, t)
    {
      HasRefUpdate(peers, p, groups, t);
    }
    SigIndexSame(peers, SetGroups(peers, p, groups), sigs);
  }

  /** A membership ends: its entry leaves all indexes and becomes free. */
  lemma {:induction false} DropGroup(c: Config, peers: Peers, free: map<PeerId, nat>, trees: map<PeerId, set<Group>>,
                                     sigs: Sigs,
                  p: PeerId, g: Group)
    requires GroupTables(c, peers, free, trees, sigs) && p in peers && g in trees[p]
    ensures var r := Ref(p, g);
      && r in sigs.listOf && sigs.listOf[r] in sigs.lists && r in sigs.lists[sigs.listOf[r]]
      && GroupTables(c, SetGroups(peers, p, RemoveGroup(peers[p].groups, g)), free[p := free[p] + 1],
                     trees[p := trees[p] - {g}], RemoveRef(sigs, r))
  {
    hide SigsOk, Distinct, Elems, GroupsOf, RemoveRef, RemoveGroup;
    var groups, r := peers[p].groups, Ref(p, g);
    var groups' := RemoveGroup(groups, g);
    GroupListDrop(groups, g);
    GroupsUpdate(c, peers, free, trees, p, groups', free[p] + 1);
    forall t
      ensures HasRef(SetGroups(peers, p, groups'), t) <==> HasRef(peers, t) && t != r
    {
      HasRefUpdate(peers, p, groups', t);
    }
    SigIndexLoses(peers, SetGroups(peers, p, groups'), sigs, r);
  }

  /** A new membership takes a free entry and is filed in all indexes. */
  lemma TakeGroup(c: Config, peers: Peers, free: map<PeerId, nat>, trees: map<PeerId, set<Group>>, sigs: Sigs,
                  p: PeerId, g: Group, end: int)
    requires GroupTables(c, peers, free, trees, sigs) && p in peers && g !in trees[p] && free[p] > 0
    ensures g !in GroupsOf(peers[p].groups)
    ensures var r := Ref(p, g);
      && (SigOf(r) in sigs.tree ==> sigs.tree[SigOf(r)] in sigs.listOf && sigs.listOf[sigs.tree[SigOf(r)]] in sigs.lists)
      && GroupTables(c, SetGroups(peers, p, peers[p].groups + [Member(g, end)]), free[p := free[p] - 1],
                     trees[p := trees[p] + {g}], AddRef(sigs, r))
  {
    hide SigsOk, Distinct, Elems, GroupsOf, AddRef;
    var groups, r := peers[p].groups, Ref(p, g);
    var groups' := groups + [Member(g, end)];
    GroupListAdd(groups, Member(g, end));
    GroupsUpdate(c, peers, free, trees, p, groups', free[p] - 1);
    forall t
      ensures HasRef(SetGroups(peers, p, groups'), t) <==> HasRef(peers, t) || t == r
    {
      HasRefUpdate(peers, p, groups', t);
    }
    SigIndexGains(peers, SetGroups(peers, p, groups'), sigs, r);
  }

  /** The entry to reuse when none is free is the first used one. */
  lemma EarliestGroup(c: Config, peers: Peers, free: map<PeerId, nat>, trees: map<PeerId, set<Group>>, sigs: Sigs,
                      p: PeerId)
    requires GroupTables(c, peers, free, trees, sigs) && p in peers && free[p] == 0 && 0 < c.maxGroups
    ensures var groups := peers[p].groups;
      && groups != [] && |groups| == c.maxGroups && groups[0].group in trees[p]
      && RemoveGroup(groups, groups[0].group) == groups[1..]
  {
    var groups := peers[p].groups;
    ElemsAt(GroupsOf(groups), 0);
  }

  /** Group tables do not look at addresses, MAC tables do not look at groups. */
  lemma GroupTablesSetMacs(c: Config, peers: Peers, free: map<PeerId, nat>, trees: map<PeerId, set<Group>>, sigs: Sigs,
                           p: PeerId, macs: seq<Mac>)
    requires GroupTables(c, peers, free, trees, sigs) && p in peers
    ensures GroupTables(c, SetMacs(peers, p, macs), free, trees, sigs)
  {
    hide SigsOk, Distinct, Elems;
    var peers' := SetMacs(peers, p, macs);
    assert forall t :: HasRef(peers', t) <==> HasRef(peers, t);
    SigIndexSame(peers, peers', sigs);
  }

  lemma MacTablesSetGroups(c: Config, peers: Peers, free: map<PeerId, nat>, tree: map<Mac, PeerId>,
                           p: PeerId, groups: seq<Member>)
    requires MacTables(c, peers, free, tree) && p in peers
    ensures MacTables(c, SetGroups(peers, p, groups), free, tree)
  {
    hide Distinct, Elems;
    var peers' := SetGroups(peers, p, groups);
    assert forall q, mac :: Held(peers', q, mac) <==> Held(peers, q, mac);
  }

  // ---- The reference steps in terms of single updates -----------------------------------------

  /** Learning an address only touches its former owner and the peer it was seen behind. */
  lemma {:induction false} LearnIs(c: Config, s: Switch, tree: map<Mac, PeerId>, p: PeerId, mac: Mac)
    requires MacIndex(s.peers, tree) && p in s.peers
    ensures var peers1 := if mac in tree && tree[mac] != p && tree[mac] in s.peers
                          then SetMacs(s.peers, tree[mac], Remove(s.peers[tree[mac]].macs, mac)) else s.peers;
      LearnMac(c, s, p, mac) == Switch(s.order, SetMacs(peers1, p, Touch(s.peers[p].macs, mac, c.maxMacs)))
  {
    forall q | q in s.peers && !(mac in tree && tree[mac] == q)
      ensures Remove(s.peers[q].macs, mac) == s.peers[q].macs
    {
      assert !Held(s.peers, q, mac);
      ElemsMember(s.peers[q].macs, mac);
      RemoveLength(s.peers[q].macs, mac);
    }
  }

  lemma OwnerKnown(c: Config, peers: Peers, free: map<PeerId, nat>, tree: map<Mac, PeerId>, mac: Mac)
    requires MacTables(c, peers, free, tree) && mac in tree
    ensures tree[mac] in peers && tree[mac] in free && mac in peers[tree[mac]].macs
  {
    assert Held(peers, tree[mac], mac);
    ElemsMember(peers[tree[mac]].macs, mac);
  }

  lemma MacFacts(c: Config, peers: Peers, free: map<PeerId, nat>, tree: map<Mac, PeerId>, p: PeerId)
    requires MacTables(c, peers, free, tree) && p in peers
    ensures MacIndex(peers, tree)
    ensures p in free && |peers[p].macs| + free[p] == c.maxMacs
  {
  }

  lemma NotHeld(peers: Peers, tree: map<Mac, PeerId>, p: PeerId, mac: Mac)
    requires MacIndex(peers, tree) && p in peers && !(mac in tree && tree[mac] == p)
    ensures mac !in peers[p].macs
  {
    assert !Held(peers, p, mac);
    ElemsMember(peers[p].macs, mac);
  }

  lemma GroupFacts(c: Config, peers: Peers, free: map<PeerId, nat>, trees: map<PeerId, set<Group>>, sigs: Sigs,
                   p: PeerId)
    requires GroupTables(c, peers, free, trees, sigs) && p in peers
    ensures p in free && p in trees && |peers[p].groups| + free[p] == c.maxGroups
    ensures SigsOk(sigs, sigs.listOf.Keys)
  {
  }

  lemma NotMember(c: Config, peers: Peers, free: map<PeerId, nat>, trees: map<PeerId, set<Group>>, sigs: Sigs,
                  p: PeerId, g: Group)
    requires GroupTables(c, peers, free, trees, sigs) && p in peers && g !in trees[p]
    ensures g !in GroupsOf(peers[p].groups)
  {
    ElemsMember(GroupsOf(peers[p].groups), g);
  }

  // ---- Group-specific queries ------------------------------------------------------------------

  lemma LowerKeepsGroups(groups: seq<Member>, g: Group, limit: int)
    ensures GroupsOf(LowerAll(groups, g, limit)) == GroupsOf(groups)
    ensures g !in GroupsOf(groups) ==> LowerAll(groups, g, limit) == groups
  {
    if g !in GroupsOf(groups) {
      forall i | 0 <= i < |groups|
        ensures groups[i].group != g
      {
        assert GroupsOf(groups)[i] in GroupsOf(groups);
      }
    }
  }

  /** The peers when the entries in `done` have been visited. */
  function PartlyLowered(peers: Peers, done: set<Ref>, g: Group, limit: int): Peers {
    map p | p in peers ::
      if Ref(p, g) in done then peers[p].(groups := LowerAll(peers[p].groups, g, limit)) else peers[p]
  }

  lemma PartlyLoweredStart(peers: Peers, g: Group, limit: int)
    ensures PartlyLowered(peers, {}, g, limit) == peers
  {
  }

  lemma PartlyLoweredSkip(peers: Peers, done: set<Ref>, r: Ref, g: Group, limit: int)
    requires r.group != g
    ensures PartlyLowered(peers, done + {r}, g, limit) == PartlyLowered(peers, done, g, limit)
  {
  }

  lemma PartlyLoweredVisit(peers: Peers, done: set<Ref>, p: PeerId, g: Group, limit: int)
    requires p in peers && Ref(p, g) !in done
    ensures var now := PartlyLowered(peers, done, g, limit);
      && p in now && now[p] == peers[p]
      && PartlyLowered(peers, done + {Ref(p, g)}, g, limit) ==
           SetGroups(now, p, LowerAll(now[p].groups, g, limit))
  {
  }

  /** Visiting all entries with the signature lowers every membership of the group. */
  lemma FullyLowered(c: Config, s: Switch, free: map<PeerId, nat>, trees: map<PeerId, set<Group>>, sigs: Sigs,
                     done: set<Ref>, g: Group, limit: int)
    requires GroupTables(c, s.peers, free, trees, sigs)
    requires done == WithSig(sigs.listOf.Keys, SigOfGroup(g))
    ensures LowerTimers(s, g, limit) == Switch(s.order, PartlyLowered(s.peers, done, g, limit))
  {
    hide SigsOk;
    forall p | p in s.peers && Ref(p, g) !in done
      ensures LowerAll(s.peers[p].groups, g, limit) == s.peers[p].groups
    {
      assert !HasRef(s.peers, Ref(p, g));
      ElemsMember(GroupsOf(s.peers[p].groups), g);
      LowerKeepsGroups(s.peers[p].groups, g, limit);
    }
  }

  lemma LowerOneKeeps(c: Config, peers: Peers, free: map<PeerId, nat>, trees: map<PeerId, set<Group>>, sigs: Sigs,
                      p: PeerId, g: Group, limit: int)
    requires GroupTables(c, peers, free, trees, sigs) && p in peers
    ensures GroupTables(c, SetGroups(peers, p, LowerAll(peers[p].groups, g, limit)), free, trees, sigs)
  {
    hide SigsOk, Elems, HasRef;
    LowerKeepsGroups(peers[p].groups, g, limit);
    assert Distinct(GroupsOf(peers[p].groups));
    SameGroups(c, peers, free, trees, sigs, p, LowerAll(peers[p].groups, g, limit));
  }

  // ---- Decisions ---------------------------------------------------------------------------------

  /** The list under a signature leads to the peers that the scan finds. */
  lemma {:induction false} ListScans(c: Config, s: Switch, free: map<PeerId, nat>, trees: map<PeerId, set<Group>>,
                                     sigs: Sigs, sig: nat)
    requires GroupTables(c, s.peers, free, trees, sigs)
    requires Distinct(s.order) && Elems(s.order) == s.peers.Keys
    requires forall p :: p in s.peers ==> Distinct(s.peers[p].macs) && |s.peers[p].macs| <= c.maxMacs
    ensures forall p :: p in s.order ==> p in s.peers
    ensures sig in sigs.tree ==>
      && sigs.tree[sig] in sigs.listOf && sigs.listOf[sigs.tree[sig]] in sigs.lists
      && var list := sigs.lists[sigs.listOf[sigs.tree[sig]]];
         && Distinct(list) && (forall r :: r in Elems(list) ==> r in sigs.listOf)
         && multiset(PeersOf(list)) == multiset(PeersOf(Listeners(s, s.order, sig)))
    ensures sig !in sigs.tree ==> Listeners(s, s.order, sig) == []
  {
    hide Distinct, PeersOf, SigsOk;
    ElemsIn(s.order);
    ListIsExact(sigs, sigs.listOf.Keys, sig);
    ListenersAre(c, s, s.order, sig);
    var listeners := Listeners(s, s.order, sig);
    forall r
      ensures r in Elems(listeners) <==> r in WithSig(sigs.listOf.Keys, sig)
    {
      assert r in sigs.listOf <==> HasRef(s.peers, r);
    }
    assert Elems(listeners) == WithSig(sigs.listOf.Keys, sig);
    if sig in sigs.tree {
      SamePeers(sigs.lists[sigs.listOf[sigs.tree[sig]]], listeners);
    }
  }

  /** The tree knows the owner of an address exactly when somebody owns it. */
  lemma TreeKnowsOwner(c: Config, s: Switch, free: map<PeerId, nat>, tree: map<Mac, PeerId>, mac: Mac)
    requires MacTables(c, s.peers, free, tree)
    ensures mac in tree <==> exists p :: Owns(s, p, mac)
    ensures mac in tree ==> tree[mac] in s.peers && Owns(s, tree[mac], mac)
  {
    if mac in tree {
      assert Held(s.peers, tree[mac], mac);
      assert Owns(s, tree[mac], mac);
    }
    if p :| Owns(s, p, mac) {
      assert Held(s.peers, p, mac);
    }
  }

  lemma PeersOk(c: Config, s: Switch, free: map<PeerId, nat>, tree: map<Mac, PeerId>)
    requires MacTables(c, s.peers, free, tree)
    ensures forall p :: p in s.peers ==> Distinct(s.peers[p].macs) && |s.peers[p].macs| <= c.maxMacs
  {
  }

  /** The invariant of the index-free switch follows from the tables. */
  lemma TablesImplyInv(c: Config, s: Switch, macsFree: map<PeerId, nat>, tree: map<Mac, PeerId>,
                       groupsFree: map<PeerId, nat>, trees: map<PeerId, set<Group>>, sigs: Sigs)
    requires 0 < c.maxMacs && 0 < c.maxGroups
    requires MacTables(c, s.peers, macsFree, tree) && GroupTables(c, s.peers, groupsFree, trees, sigs)
    requires Distinct(s.order) && Elems(s.order) == s.peers.Keys
    ensures Inv(c, s)
  {
    hide SigsOk;
    forall p, r, mac | Owns(s, p, mac) && Owns(s, r, mac)
      ensures p == r
    {
      assert Held(s.peers, p, mac) && Held(s.peers, r, mac);
    }
  }

  lemma GroupSigs(c: Config, peers: Peers, free: map<PeerId, nat>, trees: map<PeerId, set<Group>>, sigs: Sigs)
    requires GroupTables(c, peers, free, trees, sigs)
    ensures SigsOk(sigs, sigs.listOf.Keys)
  {
  }

  lemma RefHasPeer(c: Config, peers: Peers, free: map<PeerId, nat>, trees: map<PeerId, set<Group>>, sigs: Sigs, r: Ref)
    requires GroupTables(c, peers, free, trees, sigs) && r in sigs.listOf
    ensures r.peer in peers
  {
    assert HasRef(peers, r);
  }

  lemma SamePeerSet(peers: Peers, done: set<Ref>, g: Group, limit: int)
    ensures PartlyLowered(peers, done, g, limit).Keys == peers.Keys
  {
  }

  // ---- Peers come and go ------------------------------------------------------------------------

  lemma AddPeerMacs(c: Config, peers: Peers, free: map<PeerId, nat>, tree: map<Mac, PeerId>, p: PeerId)
    requires MacTables(c, peers, free, tree) && p !in peers
    ensures MacTables(c, peers[p := Peer([], [])], free[p := c.maxMacs], tree)
  {
    var peers' := peers[p := Peer([], [])];
    assert !exists mac :: Held(peers, p, mac);
    assert forall q, mac :: Held(peers', q, mac) <==> Held(peers, q, mac);
  }

  lemma AddPeerGroups(c: Config, peers: Peers, free: map<PeerId, nat>, trees: map<PeerId, set<Group>>, sigs: Sigs,
                      p: PeerId)
    requires GroupTables(c, peers, free, trees, sigs) && p !in peers
    ensures GroupTables(c, peers[p := Peer([], [])], free[p := c.maxGroups], trees[p := {}], sigs)
  {
    hide SigsOk;
    var peers' := peers[p := Peer([], [])];
    assert GroupsOf(Peer([], []).groups) == [];
    assert forall t :: HasRef(peers', t) <==> HasRef(peers, t);
    SigIndexSame(peers, peers', sigs);
  }

  /** When all addresses of a peer have left the tree, the tree indexes the other peers. */
  lemma DropPeerMacs(c: Config, peers: Peers, free: map<PeerId, nat>, tree: map<Mac, PeerId>, p: PeerId)
    requires MacTables(c, peers, free, tree) && p in peers
    ensures MacTables(c, peers - {p}, free - {p}, tree - Elems(peers[p].macs))
  {
    hide Elems, Distinct;
    var peers', tree' := peers - {p}, tree - Elems(peers[p].macs);
    forall q, mac
      ensures Held(peers', q, mac) <==> mac in tree' && tree'[mac] == q
    {
      assert Held(peers, q, mac) <==> mac in tree && tree[mac] == q;
      assert Held(peers, p, mac) <==> mac in tree && tree[mac] == p;
    }
  }

  lemma DropPeerGroups(c: Config, peers: Peers, free: map<PeerId, nat>, trees: map<PeerId, set<Group>>, sigs: Sigs,
                       p: PeerId, sigs': Sigs)
    requires GroupTables(c, peers, free, trees, sigs) && p in peers && SigsOk(sigs', sigs'.listOf.Keys)
    requires forall r :: r in sigs'.listOf <==> r in sigs.listOf && !(r.peer == p && r.group in GroupSet(peers[p]))
    ensures GroupTables(c, peers - {p}, free - {p}, trees - {p}, sigs')
    ensures forall r :: r in sigs'.listOf ==> r.peer != p
  {
    hide SigsOk, Distinct, Elems, GroupsOf;
    forall r
      ensures r in sigs'.listOf <==> HasRef(peers - {p}, r)
    {
      assert r in sigs.listOf <==> HasRef(peers, r);
    }
  }

  lemma PeerRefs(c: Config, peers: Peers, free: map<PeerId, nat>, trees: map<PeerId, set<Group>>, sigs: Sigs, p: PeerId)
    requires GroupTables(c, peers, free, trees, sigs) && p in peers
    ensures Distinct(GroupsOf(peers[p].groups))
    ensures forall g :: g in Elems(GroupsOf(peers[p].groups)) ==> Ref(p, g) in sigs.listOf
    ensures forall r :: r in sigs.listOf && r.peer == p ==> r.group in GroupSet(peers[p])
  {
    hide SigsOk, Distinct, Elems, GroupsOf;
    assert forall r :: r in sigs.listOf && r.peer == p ==> HasRef(peers, r);
    forall g | g in Elems(GroupsOf(peers[p].groups))
      ensures Ref(p, g) in sigs.listOf
    {
      assert HasRef(peers, Ref(p, g));
    }
  }
}
