/**
 The flows of the client as plain values: one local flow for every peer, and the relay flows that
 carry frames from one peer to another.  A flow wants the sink of the link over which its
 destination is reached.
 */
module RelayFlows {
  import opened Prelude
  import opened RelaySpec
  import opened RelayTables
  import opened FlowWishes
  import opened DataProtoImpl
  import D = DataProtoSpec

  // What a flow is part of: the local_dpflow of a peer, or a struct DPRelay_flow.
  datatype Owner = Local(p: PeerId) | Relay(src: PeerId, dst: PeerId)

  type Owners = map<D.FlowId, Owner>

  // The flow lists of the peers' relay sources or relay sinks.
  type Lists = map<PeerId, seq<D.FlowId>>

  /** Where the local flow of a peer has to be attached. */
  function SinkFor(p: PeerId, d: Record): Option<D.SinkId> {
    if d.haveLink then Some(p) else d.relaying
  }

  /** The sink that a flow has to want.  A relay flow goes over the destination's own link only. */
  function WantedBy(peers: Records, o: Owner): Option<D.SinkId> {
    match o
    case Local(p) => if p in peers then SinkFor(p, peers[p]) else None
    case Relay(src, dst) => if dst in peers && peers[dst].haveLink then Some(dst) else None
  }

  function WantOf(peers: Records, owner: Owners): Want {
    map f | f in owner :: WantedBy(peers, owner[f])
  }

  /** The sinks are those of the links. */
  function Links(peers: Records): set<D.SinkId> {
    set p | p in peers && peers[p].haveLink
  }

  ghost predicate OwnerOk(peers: Records, f: D.FlowId, o: Owner) {
    match o
    case Local(p) => p in peers && peers[p].flow == f
    case Relay(src, dst) => src in peers && dst in peers && src != dst
  }

  ghost predicate HasFlow(peers: Records, owner: Owners, p: PeerId)
    requires p in peers
  {
    peers[p].flow in owner && owner[peers[p].flow] == Local(p)
  }

  ghost predicate Listed(lists: Lists, p: PeerId, f: D.FlowId) {
    p in lists && f in Elems(lists[p])
  }

  ghost predicate From(owner: Owners, f: D.FlowId, p: PeerId) {
    f in owner && owner[f].Relay? && owner[f].src == p
  }

  ghost predicate To(owner: Owners, f: D.FlowId, p: PeerId) {
    f in owner && owner[f].Relay? && owner[f].dst == p
  }

  ghost predicate SameOwner(owner: Owners, f: D.FlowId, g: D.FlowId) {
    f in owner && g in owner && owner[f] == owner[g]
  }

  /** At most one relay flow for each pair of peers. */
  ghost predicate OnePerPair(owner: Owners) {
    forall f, g :: SameOwner(owner, f, g) ==> f == g
  }

  lemma OneMore(owner: Owners, f: D.FlowId, o: Owner)
    requires OnePerPair(owner) && forall g :: g in owner ==> owner[g] != o
    ensures OnePerPair(owner[f := o])
  {
    var owner' := owner[f := o];
    forall g, h | SameOwner(owner', g, h)
      ensures g == h
    {
      assert SameOwner(owner, g, h) || g == f || h == f;
    }
  }

  lemma OneLess(owner: Owners, f: D.FlowId)
    requires OnePerPair(owner)
    ensures OnePerPair(owner - {f})
  {
    forall g, h | SameOwner(owner - {f}, g, h)
      ensures g == h
    {
      assert SameOwner(owner, g, h);
    }
  }

  ghost predicate ListsOk(peers: Records, owner: Owners, outs: Lists, ins: Lists) {
    && OnePerPair(owner) && outs.Keys == peers.Keys && ins.Keys == peers.Keys
    && (forall p :: p in outs ==> Distinct(outs[p])) && (forall p :: p in ins ==> Distinct(ins[p]))
  }

  /** Every peer has its local flow, every relay flow is in the lists of its source and its
      destination, and the lists hold nothing else. */
  ghost predicate Routes(peers: Records, owner: Owners, outs: Lists, ins: Lists) {
    && (forall p :: p in peers ==> HasFlow(peers, owner, p))
    && (forall f :: f in owner ==> OwnerOk(peers, f, owner[f]))
    && ListsOk(peers, owner, outs, ins)
    && (forall p, f :: Listed(outs, p, f) <==> From(owner, f, p))
    && (forall p, f :: Listed(ins, p, f) <==> To(owner, f, p))
  }

  lemma FlowFacts(peers: Records, owner: Owners, outs: Lists, ins: Lists, p: PeerId)
    requires Routes(peers, owner, outs, ins) && p in peers
    ensures HasFlow(peers, owner, p) && p in outs && p in ins && Distinct(outs[p]) && Distinct(ins[p])
    ensures WantOf(peers, owner)[peers[p].flow] == SinkFor(p, peers[p])
  {
  }

  lemma ListFacts(peers: Records, owner: Owners, outs: Lists, ins: Lists)
    requires Routes(peers, owner, outs, ins)
    ensures ListsOk(peers, owner, outs, ins)
  {
  }

  lemma RoutesAre(peers: Records, owner: Owners, outs: Lists, ins: Lists)
    requires ListsOk(peers, owner, outs, ins)
    requires forall p :: p in peers ==> HasFlow(peers, owner, p)
    requires forall f :: f in owner ==> OwnerOk(peers, f, owner[f])
    requires forall p, f :: Listed(outs, p, f) <==> From(owner, f, p)
    requires forall p, f :: Listed(ins, p, f) <==> To(owner, f, p)
    ensures Routes(peers, owner, outs, ins)
  {
  }

  lemma RouteFacts(peers: Records, owner: Owners, outs: Lists, ins: Lists, p: PeerId, f: D.FlowId)
    requires Routes(peers, owner, outs, ins)
    ensures f in owner ==> OwnerOk(peers, f, owner[f])
    ensures Listed(outs, p, f) <==> From(owner, f, p)
    ensures Listed(ins, p, f) <==> To(owner, f, p)
  {
  }

  /** The lists depend on the peers' flows alone. */
  lemma SameRoutes(peers: Records, peers': Records, owner: Owners, outs: Lists, ins: Lists)
    requires Routes(peers, owner, outs, ins) && peers'.Keys == peers.Keys
    requires forall p :: p in peers ==> peers'[p].flow == peers[p].flow
    ensures Routes(peers', owner, outs, ins)
  {
    hide Distinct, Elems, Routes, OnePerPair;
    ListFacts(peers, owner, outs, ins);
    forall p | p in peers'
      ensures HasFlow(peers', owner, p)
    {
      FlowFacts(peers, owner, outs, ins, p);
    }
    forall f | f in owner
      ensures OwnerOk(peers', f, owner[f])
    {
      RouteFacts(peers, owner, outs, ins, 0, f);
    }
    forall p, f
      ensures Listed(outs, p, f) <==> From(owner, f, p)
      ensures Listed(ins, p, f) <==> To(owner, f, p)
    {
      RouteFacts(peers, owner, outs, ins, p, f);
    }
    RoutesAre(peers', owner, outs, ins);
  }

  // ---- Wishes after an update ---------------------------------------------------------------------

  /** The wishes and the sinks depend on the peers' links and relays alone. */
  lemma SameWishes(peers: Records, peers': Records, owner: Owners)
    requires peers'.Keys == peers.Keys
    requires forall p :: p in peers ==> peers'[p].haveLink == peers[p].haveLink && peers'[p].relaying == peers[p].relaying
    ensures WantOf(peers', owner) == WantOf(peers, owner) && Links(peers') == Links(peers)
  {
  }

  function SetAll(want: Want, fs: set<D.FlowId>, s: Option<D.SinkId>): Want {
    map f | f in want :: if f in fs then s else want[f]
  }

  lemma LinkWish(peers: Records, owner: Owners, outs: Lists, ins: Lists, p: PeerId, haveLink: bool, f: D.FlowId)
    requires Routes(peers, owner, outs, ins) && p in peers && peers[p].relaying.None? && f in owner
    ensures p in ins
    ensures WantedBy(peers[p := peers[p].(haveLink := haveLink)], owner[f]) ==
      if f == peers[p].flow || f in Elems(ins[p]) then (if haveLink then Some(p) else None) else WantedBy(peers, owner[f])
  {
    hide Routes, Distinct, Elems;
    FlowFacts(peers, owner, outs, ins, p);
    RouteFacts(peers, owner, outs, ins, p, f);
  }

  /** A link comes or goes: the local flow and all relay flows to the peer follow it. */
  lemma LinkWishes(peers: Records, owner: Owners, outs: Lists, ins: Lists, p: PeerId, haveLink: bool)
    requires Routes(peers, owner, outs, ins) && p in peers && peers[p].relaying.None?
    ensures var s: Option<D.SinkId> := if haveLink then Some(p) else None;
      var peers' := peers[p := peers[p].(haveLink := haveLink)];
      && p in ins
      && WantOf(peers', owner) == SetAll(WantOf(peers, owner), Elems(ins[p]), s)[peers[p].flow := s]
      && Links(peers') == (if haveLink then Links(peers) + {p} else Links(peers) - {p})
  {
    hide Routes, Distinct, Elems, WantedBy;
    FlowFacts(peers, owner, outs, ins, p);
    forall f | f in owner
      ensures WantedBy(peers[p := peers[p].(haveLink := haveLink)], owner[f]) ==
        if f == peers[p].flow || f in Elems(ins[p]) then (if haveLink then Some(p) else None) else WantedBy(peers, owner[f])
    {
      LinkWish(peers, owner, outs, ins, p, haveLink, f);
    }
  }

  /** A peer starts or stops to be relayed: its local flow follows. */
  lemma RelayWishes(peers: Records, peers': Records, owner: Owners, outs: Lists, ins: Lists, p: PeerId)
    requires Routes(peers, owner, outs, ins) && p in peers && !peers[p].haveLink && peers'.Keys == peers.Keys
    requires forall q :: q in peers ==> peers'[q].flow == peers[q].flow && peers'[q].haveLink == peers[q].haveLink
    requires forall q :: q in peers && q != p ==> peers'[q].relaying == peers[q].relaying
    ensures WantOf(peers', owner) == WantOf(peers, owner)[peers[p].flow := peers'[p].relaying]
    ensures Links(peers') == Links(peers)
  {
    hide Distinct, Elems, Routes, OnePerPair;
    FlowFacts(peers, owner, outs, ins, p);
    forall f | f in owner
      ensures WantedBy(peers', owner[f]) == if f == peers[p].flow then peers'[p].relaying else WantedBy(peers, owner[f])
    {
      RouteFacts(peers, owner, outs, ins, p, f);
    }
  }

  /** Nobody wants the sink of a link that relays for nobody, once the flows to its peer have left. */
  lemma SinkIsUnused(peers: Records, relays: seq<PeerId>, waiting: seq<PeerId>, owner: Owners, p: PeerId)
    requires Tables(peers, relays, waiting) && p in peers && ModeOf(peers[p]).Idle?
    ensures forall f :: f in owner ==> WantOf(peers, owner)[f] != Some(p)
  {
    hide Tables, Distinct, Elems;
    PeerFacts(peers, relays, waiting, p);
    forall f | f in owner
      ensures WantedBy(peers, owner[f]) != Some(p)
    {
      if owner[f].Local? && owner[f].p in peers && peers[owner[f].p].relaying.Some? {
        RelayFacts(peers, relays, waiting, owner[f].p);
      }
    }
  }

  // ---- Relay flows come and go --------------------------------------------------------------------

  lemma AddRoute(peers: Records, owner: Owners, outs: Lists, ins: Lists, src: PeerId, dst: PeerId, f: D.FlowId)
    requires Routes(peers, owner, outs, ins) && src in peers && dst in peers && src != dst && f !in owner
    requires forall g :: g in owner ==> owner[g] != Relay(src, dst)
    ensures src in outs && dst in ins
    ensures Routes(peers, owner[f := Relay(src, dst)], outs[src := outs[src] + [f]], ins[dst := ins[dst] + [f]])
  {
    hide Distinct, Elems, Routes, OnePerPair;
    ListFacts(peers, owner, outs, ins);
    var owner', outs', ins' := owner[f := Relay(src, dst)], outs[src := outs[src] + [f]], ins[dst := ins[dst] + [f]];
    RouteFacts(peers, owner, outs, ins, src, f);
    RouteFacts(peers, owner, outs, ins, dst, f);
    DistinctSnoc(outs[src], f);
    DistinctSnoc(ins[dst], f);
    OneMore(owner, f, Relay(src, dst));
    forall p | p in peers
      ensures HasFlow(peers, owner', p)
    {
      FlowFacts(peers, owner, outs, ins, p);
    }
    forall g | g in owner'
      ensures OwnerOk(peers, g, owner'[g])
    {
      RouteFacts(peers, owner, outs, ins, 0, g);
    }
    forall p, g
      ensures Listed(outs', p, g) <==> From(owner', g, p)
      ensures Listed(ins', p, g) <==> To(owner', g, p)
    {
      RouteFacts(peers, owner, outs, ins, p, g);
    }
    RoutesAre(peers, owner', outs', ins');
  }

  lemma {:induction false} RemoveRoute(peers: Records, owner: Owners, outs: Lists, ins: Lists, f: D.FlowId)
    requires Routes(peers, owner, outs, ins) && f in owner && owner[f].Relay?
    ensures var src, dst := owner[f].src, owner[f].dst;
      && src in outs && dst in ins && src in peers && dst in peers
      && Routes(peers, owner - {f}, outs[src := Remove(outs[src], f)], ins[dst := Remove(ins[dst], f)])
  {
    hide Distinct, Elems, Remove, Routes, OnePerPair;
    var src, dst := owner[f].src, owner[f].dst;
    ListFacts(peers, owner, outs, ins);
    RouteFacts(peers, owner, outs, ins, src, f);
    var owner', outs', ins' := owner - {f}, outs[src := Remove(outs[src], f)], ins[dst := Remove(ins[dst], f)];
    RemoveSound(outs[src], f);
    RemoveSound(ins[dst], f);
    OneLess(owner, f);
    forall p | p in peers
      ensures HasFlow(peers, owner', p)
    {
      FlowFacts(peers, owner, outs, ins, p);
    }
    forall g | g in owner'
      ensures OwnerOk(peers, g, owner'[g])
    {
      RouteFacts(peers, owner, outs, ins, 0, g);
    }
    forall p, g
      ensures Listed(outs', p, g) <==> From(owner', g, p)
      ensures Listed(ins', p, g) <==> To(owner', g, p)
    {
      RouteFacts(peers, owner, outs, ins, p, g);
    }
    RoutesAre(peers, owner', outs', ins');
  }

  /** A flow in a list is a relay flow of that peer. */
  lemma ListedFlow(peers: Records, owner: Owners, outs: Lists, ins: Lists, p: PeerId, i: nat)
    requires Routes(peers, owner, outs, ins) && p in peers
    ensures p in outs && p in ins
    ensures i < |outs[p]| ==> outs[p][i] in owner && owner[outs[p][i]].Relay? && owner[outs[p][i]].src == p
    ensures i < |ins[p]| ==> ins[p][i] in owner && owner[ins[p][i]].Relay? && owner[ins[p][i]].dst == p
  {
    hide Distinct, Elems, Routes, OnePerPair;
    ListFacts(peers, owner, outs, ins);
    if i < |outs[p]| {
      ElemsAt(outs[p], i);
      RouteFacts(peers, owner, outs, ins, p, outs[p][i]);
    }
    if i < |ins[p]| {
      ElemsAt(ins[p], i);
      RouteFacts(peers, owner, outs, ins, p, ins[p][i]);
    }
  }

  /** The flow from one peer to another, if there is one, is in the source's list. */
  lemma FlowIsListed(peers: Records, owner: Owners, outs: Lists, ins: Lists, f: D.FlowId)
    requires Routes(peers, owner, outs, ins) && f in owner && owner[f].Relay?
    ensures owner[f].src in outs && f in outs[owner[f].src]
  {
    hide Distinct, Elems, Routes, OnePerPair;
    RouteFacts(peers, owner, outs, ins, owner[f].src, f);
    ElemsMember(outs[owner[f].src], f);
  }

  /** Peers come and go without relay flows. */
  lemma AddPeerRoutes(peers: Records, owner: Owners, outs: Lists, ins: Lists, p: PeerId, d: Record)
    requires Routes(peers, owner, outs, ins) && p !in peers && d.flow !in owner
    ensures Routes(peers[p := d], owner[d.flow := Local(p)], outs[p := []], ins[p := []])
  {
    hide Distinct, Elems, Routes, OnePerPair;
    var peers', owner', outs', ins' := peers[p := d], owner[d.flow := Local(p)], outs[p := []], ins[p := []];
    ListFacts(peers, owner, outs, ins);
    ElemsNothing<D.FlowId>();
    NoFlows();
    forall q | q in peers'
      ensures HasFlow(peers', owner', q)
    {
      if q in peers {
        FlowFacts(peers, owner, outs, ins, q);
      }
    }
    forall g | g in owner'
      ensures OwnerOk(peers', g, owner'[g])
    {
      RouteFacts(peers, owner, outs, ins, 0, g);
    }
    forall q, g
      ensures Listed(outs', q, g) <==> From(owner', g, q)
      ensures Listed(ins', q, g) <==> To(owner', g, q)
    {
      RouteFacts(peers, owner, outs, ins, q, g);
    }
    forall g | g in owner
      ensures owner[g] != Local(p)
    {
      RouteFacts(peers, owner, outs, ins, p, g);
    }
    OneMore(owner, d.flow, Local(p));
    RoutesAre(peers', owner', outs', ins');
  }

  lemma NoFlows()
    ensures Distinct<D.FlowId>([])
  {
  }

  lemma RemovePeerRoutes(peers: Records, owner: Owners, outs: Lists, ins: Lists, p: PeerId)
    requires Routes(peers, owner, outs, ins) && p in peers
    requires p in outs && outs[p] == [] && p in ins && ins[p] == []
    ensures Routes(peers - {p}, owner - {peers[p].flow}, outs - {p}, ins - {p})
  {
    hide Distinct, Elems, Routes, OnePerPair;
    var peers', owner' := peers - {p}, owner - {peers[p].flow};
    var outs', ins' := outs - {p}, ins - {p};
    ElemsNothing<D.FlowId>();
    FlowFacts(peers, owner, outs, ins, p);
    forall q | q in peers'
      ensures HasFlow(peers', owner', q)
    {
      FlowFacts(peers, owner, outs, ins, q);
    }
    forall g | g in owner'
      ensures OwnerOk(peers', g, owner'[g])
    {
      RouteFacts(peers, owner, outs, ins, p, g);
    }
    forall q, g
      ensures Listed(outs', q, g) <==> From(owner', g, q)
      ensures Listed(ins', q, g) <==> To(owner', g, q)
    {
      RouteFacts(peers, owner, outs, ins, q, g);
    }
    ListFacts(peers, owner, outs, ins);
    OneLess(owner, peers[p].flow);
    RoutesAre(peers', owner', outs', ins');
  }


  ghost predicate CurrentOk(owner: Owners, current: Option<D.FlowId>) {
    current.Some? ==> current.value in owner && owner[current.value].Relay?
  }

  lemma NoRoutes()
    ensures Tables(map[], [], []) && Routes(map[], map[], map[], map[]) && CurrentOk(map[], None)
    ensures WantOf(map[], map[]) == map[] && Links(map[]) == {}
  {
    NothingDistinct();
  }

  lemma SinkHasLink(dp: DataProto, peers: Records, owner: Owners, limit: D.FlowId, p: PeerId)
    requires Holds(dp, WantOf(peers, owner), Links(peers), limit) && p in dp.sinks
    ensures p in peers && peers[p].haveLink
  {
    assert p in Links(peers);
  }

  lemma SameFlows(peers: Records, peers': Records, owner: Owners, outs: Lists, ins: Lists)
    requires Routes(peers, owner, outs, ins) && peers'.Keys == peers.Keys
    requires forall p :: p in peers ==> peers'[p].flow == peers[p].flow && peers'[p].haveLink == peers[p].haveLink
    requires forall p :: p in peers ==> peers'[p].relaying == peers[p].relaying
    ensures Routes(peers', owner, outs, ins)
    ensures WantOf(peers', owner) == WantOf(peers, owner) && Links(peers') == Links(peers)
  {
    hide Routes;
    SameRoutes(peers, peers', owner, outs, ins);
    SameWishes(peers, peers', owner);
  }

  /** All relay flows to a peer want its link's sink, or nothing without a link. */
  lemma RelayFlowsTo(peers: Records, owner: Owners, outs: Lists, ins: Lists, p: PeerId)
    requires Routes(peers, owner, outs, ins) && p in peers
    ensures p in ins && peers[p].flow !in Elems(ins[p])
    ensures forall i :: 0 <= i < |ins[p]| ==>
      && ins[p][i] in WantOf(peers, owner) && ins[p][i] != peers[p].flow
      && WantOf(peers, owner)[ins[p][i]] == if peers[p].haveLink then Some(p) else None
  {
    hide Routes, Elems;
    FlowFacts(peers, owner, outs, ins, p);
    RouteFacts(peers, owner, outs, ins, p, peers[p].flow);
    forall i | 0 <= i < |ins[p]|
      ensures
        && ins[p][i] in owner && ins[p][i] != peers[p].flow
        && WantedBy(peers, owner[ins[p][i]]) == if peers[p].haveLink then Some(p) else None
    {
      ListedFlow(peers, owner, outs, ins, p, i);
    }
  }

  lemma AddWishes(peers: Records, owner: Owners, outs: Lists, ins: Lists, p: PeerId, d: Record)
    requires Routes(peers, owner, outs, ins) && p !in peers && d.flow !in owner && !d.haveLink && d.relaying.None?
    ensures WantOf(peers[p := d], owner[d.flow := Local(p)]) == WantOf(peers, owner)[d.flow := None]
    ensures Links(peers[p := d]) == Links(peers)
  {
    hide Routes;
    forall f | f in owner
      ensures WantedBy(peers[p := d], owner[f]) == WantedBy(peers, owner[f])
    {
      RouteFacts(peers, owner, outs, ins, p, f);
    }
  }

  lemma RemoveWishes(peers: Records, owner: Owners, outs: Lists, ins: Lists, p: PeerId)
    requires Routes(peers, owner, outs, ins) && p in peers && ModeOf(peers[p]).Idle? && p in ins && ins[p] == []
    ensures var f := peers[p].flow;
      && f in owner && WantOf(peers, owner)[f].None?
      && WantOf(peers - {p}, owner - {f}) == WantOf(peers, owner) - {f} && Links(peers - {p}) == Links(peers)
  {
    hide Routes;
    FlowFacts(peers, owner, outs, ins, p);
    forall f | f in owner && f != peers[p].flow
      ensures WantedBy(peers - {p}, owner[f]) == WantedBy(peers, owner[f])
    {
      RouteFacts(peers, owner, outs, ins, p, f);
    }
  }

  // ---- Setting the wishes of a list one after the other -------------------------------------------

  lemma SetNone(want: Want, s: Option<D.SinkId>)
    ensures SetAll(want, Elems<D.FlowId>([]), s) == want
  {
  }

  lemma SetNext(want: Want, fs: seq<D.FlowId>, i: nat, s: Option<D.SinkId>)
    requires Distinct(fs) && i < |fs| && fs[i] in want
    ensures SetAll(want, Elems(fs[..i+1]), s) == SetAll(want, Elems(fs[..i]), s)[fs[i] := s]
    ensures SetAll(want, Elems(fs[..i]), s)[fs[i]] == want[fs[i]]
  {
    hide Elems, Distinct;
    ElemsPrefix(fs, i);
  }

  lemma SetAllApart(want: Want, fs: set<D.FlowId>, f: D.FlowId, s: Option<D.SinkId>)
    requires f in want && f !in fs
    ensures SetAll(want[f := s], fs, s) == SetAll(want, fs, s)[f := s]
  {
  }

  lemma {:induction false} NothingToRemove(f: D.FlowId)
    ensures Remove<D.FlowId>([], f) == []
  {
  }
}
