/**
 The client's peer records, relay list and waiting list as the C code updates them, driving a real
 DataProto for the links' sinks, the peers' local flows and the relay flows between peers.  Every
 event is a step of RelaySpec.dfy.  The queues of the sinks may start and finish sends at any time,
 and still DataProto is never asked to free a sink that some flow wants.
 */
module RelayImpl {
  import opened Prelude
  import opened RelaySpec
  import opened RelayTables
  import opened RelayFlows
  import opened FlowWishes
  import opened DataProtoImpl
  import D = DataProtoSpec

  class RelayClient {
    const dp: DataProto
    var peers: Records
    var relays: seq<PeerId>
    var waiting: seq<PeerId>
    var nextFlow: D.FlowId
    var owner: Owners
    var outs: Lists                   // flows_list of every peer's relay source
    var ins: Lists                    // flows_list of every peer's relay sink
    var current: Option<D.FlowId>     // current_flow of the relay router

    ghost function View(): World
      reads this`peers, this`relays
    {
      World(Modes(peers), relays)
    }

    ghost predicate Filed()
      reads this
    {
      Tables(peers, relays, waiting) && Routes(peers, owner, outs, ins) && CurrentOk(owner, current)
    }

    ghost predicate Base()
      reads this, dp
    {
      Filed() && Holds(dp, WantOf(peers, owner), Links(peers), nextFlow)
    }

    ghost predicate Valid()
      reads this, dp
    {
      Base() && Inv(View())
    }

    constructor ()
      ensures Valid() && View() == EMPTY && fresh(dp)
    {
      hide Holds, Tables, Routes;
      dp := new DataProto();
      peers, relays, waiting, nextFlow := map[], [], [], 0;
      owner, outs, ins, current := map[], map[], map[], None;
      new;
      NoRoutes();
      NothingKnown(dp);
    }

    // ---- Where frames go --------------------------------------------------------------------------

    /** Frames for a peer go over its own link if it has one, over the link of its relay if it is relayed,
        and nowhere otherwise. */
    lemma FramesFollowMode(p: PeerId)
      requires Valid() && p in View().modes
      ensures p in peers && D.Live(dp.View(), peers[p].flow)
      ensures dp.View().buffers[peers[p].flow].desired ==
        match View().modes[p]
        case Linked(_) => Some(p)
        case Relayed(r) => Some(r)
        case _ => None
    {
      hide Routes, Inv, Unused, D.Inv, CountersOk, HandlersOk;
      FlowFacts(peers, owner, outs, ins, p);
      assert WantsSink(dp.View(), peers[p].flow, WantOf(peers, owner)[peers[p].flow]);
    }

    /** Frames that are relayed for others go over the own link of their destination or nowhere. */
    lemma RelayedFramesFollow(f: D.FlowId)
      requires Valid() && f in owner && owner[f].Relay?
      ensures owner[f].dst in View().modes && D.Live(dp.View(), f)
      ensures dp.View().buffers[f].desired == if View().modes[owner[f].dst].Linked? then Some(owner[f].dst) else None
    {
      hide Routes, Inv, Unused, D.Inv, CountersOk, HandlersOk;
      RouteFacts(peers, owner, outs, ins, owner[f].dst, f);
      assert WantsSink(dp.View(), f, WantOf(peers, owner)[f]);
    }

    // ---- What the queues and timers of the sinks do ---------------------------------------------

    /** The queue of a sink starts to send. */
    method SendStarts(s: D.SinkId, what: D.Sending)
      requires Valid() && D.Enabled(dp.View(), D.SendStart(s, what))
      modifies dp
      ensures Valid() && View() == old(View()) && dp.View() == D.Step(old(dp.View()), D.SendStart(s, what))
    {
      hide Holds, Filed, Inv, D.Step;
      QueueStarts(dp, s, what, WantOf(peers, owner), Links(peers), nextFlow);
    }

    /** The queue of a sink has sent a packet. */
    method SendEnds(s: D.SinkId)
      requires Valid() && D.Enabled(dp.View(), D.SendDone(s))
      modifies dp
      ensures Valid() && View() == old(View()) && dp.View() == D.Step(old(dp.View()), D.SendDone(s))
    {
      hide Holds, Filed, Inv, D.Step;
      QueueEnds(dp, s, WantOf(peers, owner), Links(peers), nextFlow);
    }

    /** DataProtoSink_Received */
    method PacketReceived(s: D.SinkId, peerReceiving: bool)
      requires Valid() && D.Enabled(dp.View(), D.Received(s, peerReceiving))
      modifies dp
      ensures Valid() && View() == old(View()) && dp.View() == D.Step(old(dp.View()), D.Received(s, peerReceiving))
    {
      hide Holds, Filed, Inv, D.Step;
      SinkHears(dp, s, peerReceiving, WantOf(peers, owner), Links(peers), nextFlow);
    }

    /** receive_timer_handler */
    method NothingReceived(s: D.SinkId)
      requires Valid() && D.Enabled(dp.View(), D.Timeout(s))
      modifies dp
      ensures Valid() && View() == old(View()) && dp.View() == D.Step(old(dp.View()), D.Timeout(s))
    {
      hide Holds, Filed, Inv, D.Step;
      SinkTimesOut(dp, s, WantOf(peers, owner), Links(peers), nextFlow);
    }

    /** The up job of a sink runs and peer_dataproto_handler hears of it. */
    method LinkReports(p: PeerId, canRelay: bool) returns (up: bool)
      requires Valid() && p in dp.sinks && dp.sinks[p].job
      modifies this`peers, this`waiting, this`relays, dp
      ensures up == old(dp.sinks[p].up) && Enabled(old(View()), if up then Up(p, canRelay) else Down(p))
      ensures View() == Step(old(View()), if up then Up(p, canRelay) else Down(p)) && Valid()
    {
      hide Holds, Filed, Inv, D.Step, Step;
      SinkHasLink(dp, peers, owner, nextFlow, p);
      up := SinkReports(dp, p, WantOf(peers, owner), Links(peers), nextFlow);
      if up {
        LinkUp(p, canRelay);
      } else {
        LinkDown(p);
      }
    }

    // ---- Relay flows --------------------------------------------------------------------------

    /** DPRelaySink_Attach */
    method AttachRelaySink(p: PeerId, ghost want: Want, ghost sinks: set<D.SinkId>)
      requires Filed() && p in peers && p in ins && Holds(dp, want, sinks, nextFlow) && p in sinks
      requires forall i :: 0 <= i < |ins[p]| ==> ins[p][i] in want && want[ins[p][i]].None?
      modifies dp
      ensures Holds(dp, SetAll(want, Elems(ins[p]), Some(p)), sinks, nextFlow)
    {
      hide Holds, Tables, Routes, Elems;
      FlowFacts(peers, owner, outs, ins, p);
      var i := 0;
      SetNone(want, Some(p));
      assert ins[p][..0] == [];
      while i < |ins[p]|
        invariant i <= |ins[p]| && Holds(dp, SetAll(want, Elems(ins[p][..i]), Some(p)), sinks, nextFlow)
      {
        SetNext(want, ins[p], i, Some(p));
        AttachFlow(dp, ins[p][i], p, SetAll(want, Elems(ins[p][..i]), Some(p)), sinks, nextFlow);
        i := i + 1;
      }
      assert ins[p][..i] == ins[p];
    }

    /** DPRelaySink_Detach */
    method DetachRelaySink(p: PeerId, ghost want: Want, ghost sinks: set<D.SinkId>)
      requires Filed() && p in peers && p in ins && Holds(dp, want, sinks, nextFlow)
      requires forall i :: 0 <= i < |ins[p]| ==> ins[p][i] in want && want[ins[p][i]].Some?
      modifies dp
      ensures Holds(dp, SetAll(want, Elems(ins[p]), None), sinks, nextFlow)
    {
      hide Holds, Tables, Routes, Elems;
      FlowFacts(peers, owner, outs, ins, p);
      var i := 0;
      SetNone(want, None);
      assert ins[p][..0] == [];
      while i < |ins[p]|
        invariant i <= |ins[p]| && Holds(dp, SetAll(want, Elems(ins[p][..i]), None), sinks, nextFlow)
      {
        SetNext(want, ins[p], i, None);
        DetachFlow(dp, ins[p][i], SetAll(want, Elems(ins[p][..i]), None), sinks, nextFlow);
        i := i + 1;
      }
      assert ins[p][..i] == ins[p];
    }

    /** create_flow, when it succeeds */
    method CreateFlow(src: PeerId, dst: PeerId) returns (f: D.FlowId)
      requires Base() && src in peers && dst in peers && src != dst
      requires forall g :: g in owner ==> owner[g] != Relay(src, dst)
      modifies this`owner, this`outs, this`ins, this`nextFlow, dp
      ensures Base() && f !in old(owner) && owner == old(owner)[f := Relay(src, dst)]
    {
      hide Holds, Tables, Routes;
      f := nextFlow;
      ghost var want, sinks := WantOf(peers, owner), Links(peers);
      UnusedName(dp, want, sinks, f);
      AddRoute(peers, owner, outs, ins, src, dst, f);
      NewFlowOf(dp, f, want, sinks);
      nextFlow := nextFlow + 1;
      outs := outs[src := outs[src] + [f]];
      ins := ins[dst := ins[dst] + [f]];
      owner := owner[f := Relay(src, dst)];
      want := want[f := None];
      if peers[dst].haveLink {
        AttachFlow(dp, f, dst, want, sinks, nextFlow);
        want := want[f := Some(dst)];
      }
      assert WantOf(peers, owner) == want;
    }

    /** free_flow */
    method FreeFlow(f: D.FlowId)
      requires Base() && f in owner && owner[f].Relay?
      modifies this`owner, this`outs, this`ins, this`current, dp
      ensures Base() && owner == old(owner) - {f} && current == if old(current) == Some(f) then None else old(current)
      ensures var src, dst := old(owner)[f].src, old(owner)[f].dst;
        && src in old(outs) && outs == old(outs)[src := Remove(old(outs)[src], f)]
        && dst in old(ins) && ins == old(ins)[dst := Remove(old(ins)[dst], f)]
    {
      hide Holds, Tables, Routes, Remove;
      var src, dst := owner[f].src, owner[f].dst;
      RemoveRoute(peers, owner, outs, ins, f);
      ghost var want, sinks := WantOf(peers, owner), Links(peers);
      if peers[dst].haveLink {
        DetachFlow(dp, f, want, sinks, nextFlow);
        want := want[f := None];
      }
      if current == Some(f) {
        current := None;
      }
      ins := ins[dst := Remove(ins[dst], f)];
      outs := outs[src := Remove(outs[src], f)];
      FreeFlowOf(dp, f, want, sinks, nextFlow);
      owner := owner - {f};
      assert WantOf(peers, owner) == want - {f};
    }

    /** source_find_flow */
    method FindFlow(src: PeerId, dst: PeerId) returns (r: Option<D.FlowId>)
      requires Base() && src in peers
      ensures r.Some? ==> r.value in owner && owner[r.value] == Relay(src, dst)
      ensures r.None? ==> forall f :: f in owner ==> owner[f] != Relay(src, dst)
    {
      hide Holds, Tables, Routes, Elems;
      FlowFacts(peers, owner, outs, ins, src);
      var i := 0;
      while i < |outs[src]|
        invariant i <= |outs[src]|
        invariant forall k :: 0 <= k < i ==> outs[src][k] in owner && owner[outs[src][k]] != Relay(src, dst)
      {
        var f := outs[src][i];
        ListedFlow(peers, owner, outs, ins, src, i);
        if owner[f].dst == dst {
          return Some(f);
        }
        i := i + 1;
      }
      forall f | f in owner
        ensures owner[f] != Relay(src, dst)
      {
        if owner[f].Relay? && owner[f].src == src {
          FlowIsListed(peers, owner, outs, ins, f);
        }
      }
      return None;
    }

    /** The part of DPRelayRouter_SubmitFrame that finds the flow of a frame; ok says whether a new
        flow can be had.  A pair of peers keeps its flow. */
    method SubmitFrame(src: PeerId, dst: PeerId, ok: bool)
      requires Valid() && current.None? && src in peers && dst in peers && src != dst
      modifies this`owner, this`outs, this`ins, this`nextFlow, this`current, dp
      ensures Valid() && View() == old(View())
      ensures if current.Some? then current.value in owner && owner[current.value] == Relay(src, dst)
              else !ok && owner == old(owner)
      ensures (exists f :: f in old(owner) && old(owner)[f] == Relay(src, dst)) ==> current.Some? && owner == old(owner)
      ensures current.Some? ==> owner == old(owner) || owner == old(owner)[current.value := Relay(src, dst)]
    {
      hide Holds, Tables, Routes, Inv;
      var found := FindFlow(src, dst);
      if found.None? {
        if !ok {
          return;
        }
        var f := CreateFlow(src, dst);
        found := Some(f);
      }
      current := found;
    }

    /** router_dp_source_handler: the frame goes to the flow that is waiting for it, if that is still
        there. */
    method RouteFrame() returns (r: Option<D.FlowId>)
      requires Valid()
      modifies this`current
      ensures Valid() && View() == old(View()) && current.None? && r == old(current)
      ensures r.Some? ==> r.value in owner && owner[r.value].Relay? && D.Live(dp.View(), r.value)
    {
      hide Tables, Routes, Inv, Unused, D.Inv, CountersOk, HandlersOk;
      r := current;
      current := None;
      if r.Some? {
        assert WantsSink(dp.View(), r.value, WantOf(peers, owner)[r.value]);
      }
    }

    /** flow_inactivity_handler */
    method FlowInactive(f: D.FlowId)
      requires Valid() && f in owner && owner[f].Relay?
      modifies this`owner, this`outs, this`ins, this`current, dp
      ensures Valid() && View() == old(View()) && owner == old(owner) - {f}
    {
      hide Holds, Filed, Inv;
      FreeFlow(f);
    }

    /** DPReceivePeer_Free: all relay flows to and from the peer are freed. */
    method FreeRelayFlows(p: PeerId)
      requires Base() && p in peers
      modifies this`owner, this`outs, this`ins, this`current, dp
      ensures Base() && p in outs && outs[p] == [] && p in ins && ins[p] == []
    {
      hide Holds, Tables, Routes, Remove, Distinct;
      FlowFacts(peers, owner, outs, ins, p);
      while ins[p] != []
        invariant Base() && p in ins && p in outs
        decreases |ins[p]|
      {
        ListedFlow(peers, owner, outs, ins, p, 0);
        RemoveLength(ins[p], ins[p][0]);
        FreeFlow(ins[p][0]);
      }
      while outs[p] != []
        invariant Base() && p in ins && p in outs && ins[p] == []
        decreases |outs[p]|
      {
        ListedFlow(peers, owner, outs, ins, p, 0);
        RemoveLength(outs[p], outs[p][0]);
        NothingToRemove(outs[p][0]);
        FreeFlow(outs[p][0]);
      }
    }

    // ---- Links --------------------------------------------------------------------------------

    /** peer_init_link; ok says whether its sink and transport can be had */
    method InitLink(p: PeerId, ok: bool) returns (done: bool)
      requires Base() && p in peers && ModeOf(peers[p]).Idle?
      modifies this`peers, dp
      ensures done == ok && Base()
      ensures View() == if ok then SetMode(old(View()), p, Linked(false)) else old(View())
    {
      hide Holds, Tables, Routes, Elems;
      if !ok {
        return false;
      }
      PeerFacts(peers, relays, waiting, p);
      LinkTables(peers, relays, waiting, p, true);
      FlowFacts(peers, owner, outs, ins, p);
      LinkWishes(peers, owner, outs, ins, p, true);
      ghost var want, sinks := WantOf(peers, owner), Links(peers);
      ghost var peers' := peers[p := peers[p].(haveLink := true)];
      SameRoutes(peers, peers', owner, outs, ins);
      RelayFlowsTo(peers, owner, outs, ins, p);
      NewSinkOf(dp, p, want, sinks, nextFlow);
      AttachFlow(dp, peers[p].flow, p, want, sinks + {p}, nextFlow);
      AttachRelaySink(p, want[peers[p].flow := Some(p)], sinks + {p});
      SetAllApart(want, Elems(ins[p]), peers[p].flow, Some(p));
      peers := peers[p := peers[p].(haveLink := true)];
      assert Modes(peers) == old(View()).modes[p := Linked(false)];
      return true;
    }

    /** peer_free_link: when the sink is freed no flow wants it any more */
    method FreeLink(p: PeerId)
      requires Base() && p in peers && ModeOf(peers[p]) == Linked(false)
      modifies this`peers, dp
      ensures Base() && View() == SetMode(old(View()), p, Idle)
    {
      hide Holds, Tables, Routes, Elems;
      PeerFacts(peers, relays, waiting, p);
      LinkTables(peers, relays, waiting, p, false);
      FlowFacts(peers, owner, outs, ins, p);
      LinkWishes(peers, owner, outs, ins, p, false);
      ghost var want, sinks := WantOf(peers, owner), Links(peers);
      ghost var peers' := peers[p := peers[p].(haveLink := false)];
      SameRoutes(peers, peers', owner, outs, ins);
      RelayFlowsTo(peers, owner, outs, ins, p);
      SinkIsUnused(peers', relays, waiting, owner, p);
      DetachRelaySink(p, want, sinks);
      DetachFlow(dp, peers[p].flow, SetAll(want, Elems(ins[p]), None), sinks, nextFlow);
      FreeSinkOf(dp, p, WantOf(peers', owner), sinks, nextFlow);
      peers := peers[p := peers[p].(haveLink := false)];
      assert Modes(peers) == old(View()).modes[p := Idle];
    }

    // ---- Relaying -----------------------------------------------------------------------------

    /** peer_install_relaying */
    method InstallRelaying(p: PeerId, r: PeerId)
      requires Base() && p in peers && ModeOf(peers[p]).Idle? && r in peers && peers[r].isRelay
      modifies this`peers, dp
      ensures Base() && View() == SetMode(old(View()), p, Relayed(r))
    {
      hide Holds, Tables, Routes;
      PeerFacts(peers, relays, waiting, p);
      PeerFacts(peers, relays, waiting, r);
      InstallTables(peers, relays, waiting, p, r);
      ghost var peers' := peers[p := peers[p].(relaying := Some(r))][r := peers[r].(users := peers[r].users + [p])];
      FlowFacts(peers, owner, outs, ins, p);
      SameRoutes(peers, peers', owner, outs, ins);
      RelayWishes(peers, peers', owner, outs, ins, p);
      AttachFlow(dp, peers[p].flow, r, WantOf(peers, owner), Links(peers), nextFlow);
      peers := peers[r := peers[r].(users := peers[r].users + [p])];
      peers := peers[p := peers[p].(relaying := Some(r))];
      assert peers == peers';
      assert Modes(peers) == old(View()).modes[p := Relayed(r)];
    }

    /** peer_free_relaying */
    method FreeRelaying(p: PeerId)
      requires Base() && p in peers && peers[p].relaying.Some?
      modifies this`peers, dp
      ensures Base() && View() == SetMode(old(View()), p, Idle)
      ensures var r := old(peers)[p].relaying.value;
        r in old(peers) && r != p &&
        peers == old(peers)[p := old(peers)[p].(relaying := None)][r := old(peers)[r].(users := Remove(old(peers)[r].users, p))]
    {
      hide Holds, Tables, Routes, Remove;
      var r := peers[p].relaying.value;
      PeerFacts(peers, relays, waiting, p);
      RelayFacts(peers, relays, waiting, p);
      UninstallTables(peers, relays, waiting, p);
      ghost var peers' := peers[p := peers[p].(relaying := None)][r := peers[r].(users := Remove(peers[r].users, p))];
      FlowFacts(peers, owner, outs, ins, p);
      SameRoutes(peers, peers', owner, outs, ins);
      RelayWishes(peers, peers', owner, outs, ins, p);
      DetachFlow(dp, peers[p].flow, WantOf(peers, owner), Links(peers), nextFlow);
      peers := peers[r := peers[r].(users := Remove(peers[r].users, p))];
      peers := peers[p := peers[p].(relaying := None)];
      assert peers == peers';
      assert Modes(peers) == old(View()).modes[p := Idle];
    }

    /** peer_register_need_relay */
    method RegisterNeedRelay(p: PeerId)
      requires Base() && p in peers && ModeOf(peers[p]).Idle?
      modifies this`peers, this`waiting
      ensures Base() && View() == SetMode(old(View()), p, Waiting)
      ensures waiting == old(waiting) + [p] && peers == old(peers)[p := old(peers)[p].(waiting := true)]
    {
      hide Holds, Tables, Routes;
      RegisterTables(peers, relays, waiting, p);
      SameFlows(peers, peers[p := peers[p].(waiting := true)], owner, outs, ins);
      waiting := waiting + [p];
      peers := peers[p := peers[p].(waiting := true)];
      assert Modes(peers) == old(View()).modes[p := Waiting];
    }

    /** peer_unregister_need_relay */
    method UnregisterNeedRelay(p: PeerId)
      requires Base() && p in peers && peers[p].waiting
      modifies this`peers, this`waiting
      ensures Base() && View() == SetMode(old(View()), p, Idle)
      ensures waiting == Remove(old(waiting), p) && peers == old(peers)[p := old(peers)[p].(waiting := false)]
    {
      hide Holds, Tables, Routes;
      PeerFacts(peers, relays, waiting, p);
      UnregisterTables(peers, relays, waiting, p);
      SameFlows(peers, peers[p := peers[p].(waiting := false)], owner, outs, ins);
      waiting := Remove(waiting, p);
      peers := peers[p := peers[p].(waiting := false)];
      assert Modes(peers) == old(View()).modes[p := Idle];
    }

    /** assign_relays */
    method AssignRelays()
      requires Base()
      modifies this`peers, this`waiting, dp
      ensures Base() && View() == Assign(old(View()))
    {
      hide Holds, Tables, Routes, Assign;
      while waiting != []
        invariant Base() && Assign(View()) == Assign(old(View())) && relays == old(relays)
        decreases |waiting|
      {
        var p := waiting[0];
        FirstWaiting(peers, relays, waiting);
        if relays == [] {
          AssignNothing(View());
          return;
        }
        var r := relays[0];
        FirstRelay(peers, relays, waiting);
        AssignOne(View(), p);
        UnregisterNeedRelay(p);
        assert ModeOf(peers[p]).Idle?;
        InstallRelaying(p, r);
        assert View().modes == View().modes[p := Relayed(r)];
      }
      NobodyWaits(peers, relays, waiting);
      AssignNothing(View());
    }

    /** peer_enable_relay_provider */
    method EnableRelayProvider(p: PeerId)
      requires Base() && p in peers && ModeOf(peers[p]) == Linked(false)
      modifies this`peers, this`waiting, this`relays, dp
      ensures Base() && View() == Enable(old(View()), p)
    {
      hide Holds, Tables, Routes, Assign;
      EnableTables(peers, relays, waiting, p);
      SameFlows(peers, peers[p := peers[p].(isRelay := true)], owner, outs, ins);
      relays := relays + [p];
      peers := peers[p := peers[p].(isRelay := true)];
      assert Modes(peers) == old(View()).modes[p := Linked(true)];
      AssignRelays();
    }

    /** peer_disable_relay_provider */
    method DisableRelayProvider(p: PeerId)
      requires Base() && p in peers && peers[p].isRelay
      modifies this`peers, this`waiting, this`relays, dp
      ensures Base() && View() == Disable(old(View()), p)
    {
      hide Holds, Tables, Routes, Assign, Abandon;
      while peers[p].users != []
        invariant Base() && p in peers && peers[p].isRelay && relays == old(relays)
        invariant Abandon(View(), p) == Abandon(old(View()), p)
        decreases |peers[p].users|
      {
        var q := peers[p].users[0];
        FirstUser(peers, relays, waiting, p);
        PeerFacts(peers, relays, waiting, q);
        AbandonOne(View(), p, q);
        FreeRelaying(q);
        RegisterNeedRelay(q);
      }
      PeerFacts(peers, relays, waiting, p);
      AbandonLast(peers, relays, waiting, p);
      DisableTables(peers, relays, waiting, p);
      SameFlows(peers, peers[p := peers[p].(isRelay := false)], owner, outs, ins);
      relays := Remove(relays, p);
      peers := peers[p := peers[p].(isRelay := false)];
      AssignRelays();
    }

    // ---- Events --------------------------------------------------------------------------------

    /** peer_cleanup_connections */
    method CleanupConnections(p: PeerId)
      requires Base() && p in peers
      modifies this`peers, this`waiting, this`relays, dp
      ensures Base() && View() == Cleanup(old(View()), p)
    {
      hide Holds, Tables, Routes, Assign, Abandon;
      PeerFacts(peers, relays, waiting, p);
      DisabledMode(View(), p);
      if peers[p].haveLink {
        if peers[p].isRelay {
          DisableRelayProvider(p);
          assert View().modes[p] == Linked(false);
          PeerFacts(peers, relays, waiting, p);
        }
        FreeLink(p);
      } else if peers[p].relaying.Some? {
        FreeRelaying(p);
      } else if peers[p].waiting {
        UnregisterNeedRelay(p);
      } else {
        assert View().modes == View().modes[p := Idle];
      }
    }

    /** The fresh link of peer_bind_one_address and peer_connect; the peer is reset if that fails. */
    method FreshLink(p: PeerId, ok: bool)
      requires Valid() && p in peers
      modifies this`peers, this`waiting, this`relays, dp
      ensures View() == Step(old(View()), Connect(p, ok)) && Valid()
    {
      hide Holds, Filed, Inv, Cleanup;
      StepKeepsInv(View(), Connect(p, ok));
      CleanedMode(View(), p);
      CleanupConnections(p);
      assert View().modes[p].Idle?;
      var done := InitLink(p, ok);
      if !done {
        // peer_reset cleans up once more
        CleanedAgain(View(), p);
        CleanupConnections(p);
      }
    }

    /** The new peer's record, with a local flow that wants no sink yet. */
    method NewPeer(p: PeerId)
      requires Base() && p !in peers
      modifies this, dp
      ensures Base() && View() == SetMode(old(View()), p, Idle)
    {
      hide Holds, Tables, Routes, Links, Modes;
      var d := Record(false, false, None, false, [], nextFlow);
      ghost var want, sinks := WantOf(peers, owner), Links(peers);
      UnusedName(dp, want, sinks, nextFlow);
      AddTables(peers, relays, waiting, p, d);
      AddPeerRoutes(peers, owner, outs, ins, p, d);
      AddWishes(peers, owner, outs, ins, p, d);
      ModesWith(peers, p, d);
      NewFlowOf(dp, nextFlow, want, sinks);
      owner, outs, ins := owner[nextFlow := Local(p)], outs[p := []], ins[p := []];
      nextFlow, peers := nextFlow + 1, peers[p := d];
    }

    /** peer_add */
    method PeerAdd(p: PeerId)
      requires Valid() && p !in peers
      modifies this, dp
      ensures View() == Step(old(View()), Add(p)) && Valid()
    {
      hide Holds, Filed, Inv;
      StepKeepsInv(View(), Add(p));
      NewPeer(p);
    }

    /** The relay flows, the local flow and the record of an idle peer go away. */
    method ForgetPeer(p: PeerId)
      requires Base() && p in peers && ModeOf(peers[p]).Idle?
      modifies this`peers, this`owner, this`outs, this`ins, this`current, dp
      ensures Base() && View().modes == old(View()).modes - {p}
    {
      hide Holds, Tables, Routes;
      DropTables(peers, relays, waiting, p);
      FreeRelayFlows(p);
      FlowFacts(peers, owner, outs, ins, p);
      RemovePeerRoutes(peers, owner, outs, ins, p);
      RemoveWishes(peers, owner, outs, ins, p);
      FreeFlowOf(dp, peers[p].flow, WantOf(peers, owner), Links(peers), nextFlow);
      owner, outs, ins := owner - {peers[p].flow}, outs - {p}, ins - {p};
      peers := peers - {p};
      assert Modes(peers) == old(View()).modes - {p};
    }

    /** peer_remove */
    method PeerRemove(p: PeerId)
      requires Valid() && p in peers
      modifies this, dp
      ensures View() == Step(old(View()), Drop(p)) && Valid()
    {
      hide Holds, Filed, Inv, Cleanup;
      StepKeepsInv(View(), Drop(p));
      CleanedMode(View(), p);
      CleanupConnections(p);
      assert View().modes[p].Idle?;
      ForgetPeer(p);
    }

    /** The part of peer_reset that concerns connections. */
    method PeerReset(p: PeerId)
      requires Valid() && p in peers
      modifies this`peers, this`waiting, this`relays, dp
      ensures View() == Step(old(View()), Reset(p)) && Valid()
    {
      hide Holds, Filed, Inv, Cleanup;
      StepKeepsInv(View(), Reset(p));
      CleanupConnections(p);
    }

    /** peer_need_relay, with the check that all callers make first */
    method PeerNeedRelay(p: PeerId)
      requires Valid() && p in peers
      modifies this`peers, this`waiting, dp
      ensures View() == Step(old(View()), GiveUp(p)) && Valid()
    {
      hide Holds, Tables, Routes, Inv, Assign;
      PeerFacts(peers, relays, waiting, p);
      StepKeepsInv(View(), GiveUp(p));
      if peers[p].isRelay || peers[p].waiting {
        return;
      }
      if peers[p].haveLink {
        FreeLink(p);
      } else if peers[p].relaying.Some? {
        FreeRelaying(p);
      } else {
        assert View().modes == View().modes[p := Idle];
      }
      assert View().modes[p].Idle?;
      PeerFacts(peers, relays, waiting, p);
      RegisterNeedRelay(p);
      assert View().modes == old(View()).modes[p := Waiting];
      AssignRelays();
    }

    /** peer_dataproto_handler, up */
    method LinkUp(p: PeerId, canRelay: bool)
      requires Valid() && Enabled(View(), Up(p, canRelay))
      modifies this`peers, this`waiting, this`relays, dp
      ensures View() == Step(old(View()), Up(p, canRelay)) && Valid()
    {
      hide Holds, Filed, Inv, Enable;
      StepKeepsInv(View(), Up(p, canRelay));
      if canRelay && !peers[p].isRelay {
        EnableRelayProvider(p);
      }
    }

    /** peer_dataproto_handler, down */
    method LinkDown(p: PeerId)
      requires Valid() && Enabled(View(), Down(p))
      modifies this`peers, this`waiting, this`relays, dp
      ensures View() == Step(old(View()), Down(p)) && Valid()
    {
      hide Holds, Filed, Inv, Disable;
      StepKeepsInv(View(), Down(p));
      if peers[p].isRelay {
        DisableRelayProvider(p);
      }
    }
  }
}
