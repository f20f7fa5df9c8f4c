/**
 DataProto as the C code runs it: every call looks at the queue of the buffer's current sink and
 either moves the buffer at once or leaves a busy handler behind.  Every public call is proved to
 be one step of DataProtoSpec.dfy.
 */
module DataProtoImpl {
  import opened Prelude
  import opened DataProtoSpec

  /** The flows whose reference a sink counts. */
  ghost function Desiring(x: State, s: SinkId): set<FlowId> {
    set f | f in x.buffers && x.buffers[f].desired == Some(s)
  }

  /** Busy handlers are set for exactly the leaving buffers. */
  ghost predicate HandlersOk(x: State, handlers: set<FlowId>) {
    forall b :: b in handlers <==> Leaving(x, b)
  }

  ghost predicate CountersOk(x: State, users: map<SinkId, nat>) {
    users.Keys == x.sinks.Keys && forall s :: s in users ==> users[s] == |Desiring(x, s)|
  }

  lemma NobodyDesires(x: State, users: map<SinkId, nat>, s: SinkId)
    requires CountersOk(x, users) && s in x.sinks
    ensures users[s] == 0 <==> !exists f :: Desires(x, f, s)
  {
    if users[s] != 0 {
      assert Desiring(x, s) != {};
      var f :| f in Desiring(x, s);
      assert Desires(x, f, s);
    } else {
      forall f
        ensures !Desires(x, f, s)
      {
        assert f !in Desiring(x, s);
      }
    }
  }

  /** The busy handlers after a step. */
  ghost function HandlersAfter(x: State, e: Event, handlers: set<FlowId>): set<FlowId>
    requires Inv(x) && Enabled(x, e)
  {
    match e
    case Detach(f) =>
      AttachedTo(x, f);
      if x.sinks[x.buffers[f].sink.value].sending == Packet(f) then handlers + {f} else handlers
    case SendDone(s) => if x.sinks[s].detaching.Some? then handlers - {x.sinks[s].detaching.value} else handlers
    case FreeSink(s) => if x.sinks[s].detaching.Some? then handlers - {x.sinks[s].detaching.value} else handlers
    case _ => handlers
  }

  lemma UserCounted(x: State, users: map<SinkId, nat>, f: FlowId)
    requires Inv(x) && CountersOk(x, users) && f in x.buffers && x.buffers[f].desired.Some?
    ensures x.buffers[f].desired.value in users && users[x.buffers[f].desired.value] > 0
  {
    assert BufferOk(x, f);
    assert f in Desiring(x, x.buffers[f].desired.value);
  }

  /** The reference counters after a step. */
  ghost function UsersAfter(x: State, e: Event, users: map<SinkId, nat>): map<SinkId, nat>
    requires Inv(x) && Enabled(x, e) && CountersOk(x, users)
  {
    match e
    case NewSink(s) => users[s := 0]
    case FreeSink(s) => users - {s}
    case Attach(f, to) => users[to := users[to] + 1]
    case Detach(f) =>
      UserCounted(x, users, f);
      users[x.buffers[f].desired.value := users[x.buffers[f].desired.value] - 1]
    case _ => users
  }

  lemma HandlersStep(x: State, e: Event, handlers: set<FlowId>)
    requires Inv(x) && Enabled(x, e) && HandlersOk(x, handlers)
    ensures HandlersOk(Step(x, e), HandlersAfter(x, e, handlers))
  {
    hide FreedOk, ReportsOk;
    var y := Step(x, e);
    forall b
      ensures Leaving(y, b) <==> b in HandlersAfter(x, e, handlers)
    {
      assert b in handlers <==> Leaving(x, b);
      LeavingAfter(x, e, b);
    }
  }

  lemma BufferFacts(x: State, b: FlowId)
    requires Inv(x)
    ensures b in x.buffers ==> BufferOk(x, b)
  {
  }

  lemma SinkFacts(x: State, s: SinkId)
    requires Inv(x)
    ensures s in x.sinks ==> SinkOk(x, s)
  {
  }

  lemma LeavingAfter(x: State, e: Event, b: FlowId)
    requires Inv(x) && Enabled(x, e)
    ensures Leaving(Step(x, e), b) <==>
      match e
      case Detach(f) =>
        x.buffers[f].sink.Some? && x.buffers[f].sink.value in x.sinks &&
        (Leaving(x, b) || (b == f && x.sinks[x.buffers[f].sink.value].sending == Packet(f)))
      case SendDone(s) => Leaving(x, b) && x.sinks[s].detaching != Some(b)
      case FreeSink(s) => Leaving(x, b) && x.sinks[s].detaching != Some(b)
      case _ => Leaving(x, b)
  {
    hide FreedOk, ReportsOk, Inv;
    BufferFacts(x, b);
    match e
    case Detach(f) =>
      AttachedTo(x, f);
      SinkFacts(x, x.buffers[f].sink.value);
    case SendDone(s) =>
      if x.sinks[s].detaching.Some? {
        DetachingIs(x, s);
        OnlyDetachesHere(x, x.sinks[s].detaching.value);
      }
    case FreeSink(s) =>
      if x.sinks[s].detaching.Some? {
        DetachingIs(x, s);
        OnlyDetachesHere(x, x.sinks[s].detaching.value);
      }
      assert !Desires(x, b, s);
    case Attach(f, to) => OnlyDetachesHere(x, f);
    case _ =>
  }

  lemma OnlyDetachesHere(x: State, b: FlowId)
    requires Inv(x) && b in x.buffers
    ensures forall t :: t in x.sinks && x.sinks[t].detaching == Some(b) ==> x.buffers[b].sink == Some(t)
  {
    forall t | t in x.sinks && x.sinks[t].detaching == Some(b)
      ensures x.buffers[b].sink == Some(t)
    {
      DetachingIs(x, t);
    }
  }

  /** Where a settling buffer goes does not change who wants what. */
  lemma SettleDesiring(x: State, t: SinkId, s: SinkId)
    requires Inv(x) && t in x.sinks && x.sinks[t].detaching.Some?
    ensures x.sinks[t].detaching.value in x.buffers
    ensures Desiring(Settle(x, t, x.sinks[t].detaching.value), s) == Desiring(x, s)
  {
    hide FreedOk, ReportsOk, Inv;
    DetachingIs(x, t);
    BufferFacts(x, x.sinks[t].detaching.value);
  }

  lemma NewSinkUndesired(x: State, s: SinkId)
    requires Inv(x) && s !in x.sinks
    ensures Desiring(x, s) == {}
  {
    hide FreedOk, ReportsOk, Inv;
    forall b | b in x.buffers
      ensures x.buffers[b].desired != Some(s)
    {
      BufferFacts(x, b);
    }
  }

  lemma DesiringAfter(x: State, e: Event, s: SinkId)
    requires Inv(x) && Enabled(x, e) && s in Step(x, e).sinks
    ensures Desiring(Step(x, e), s) ==
      match e
      case Attach(f, to) => if to == s then Desiring(x, s) + {f} else Desiring(x, s)
      case Detach(f) => Desiring(x, s) - {f}
      case NewSink(t) => if t == s then {} else Desiring(x, s)
      case _ => Desiring(x, s)
  {
    hide FreedOk, ReportsOk, Inv, BufferOk, SinkOk, Leaving;
    match e
    case Detach(f) => AttachedTo(x, f);
    case SendDone(t) =>
      if x.sinks[t].detaching.Some? {
        SettleDesiring(x, t, s);
      }
    case FreeSink(t) =>
      if x.sinks[t].detaching.Some? {
        SettleDesiring(x, t, s);
      }
    case NewSink(t) => NewSinkUndesired(x, t);
    case _ =>
  }

  lemma CountersStep(x: State, e: Event, users: map<SinkId, nat>)
    requires Inv(x) && Enabled(x, e) && CountersOk(x, users)
    ensures CountersOk(Step(x, e), UsersAfter(x, e, users))
  {
    hide FreedOk, ReportsOk, Inv, Enabled, Step, Desiring;
    var y, after := Step(x, e), UsersAfter(x, e, users);
    SinksAfter(x, e);
    SinksNamed(x, e);
    forall s | s in after
      ensures s in y.sinks && after[s] == |Desiring(y, s)|
    {
      DesiringAfter(x, e, s);
      DesiringFacts(x, e, s);
    }
  }

  lemma SinksNamed(x: State, e: Event)
    requires Inv(x) && Enabled(x, e)
    ensures e.Attach? ==> e.to in x.sinks
    ensures e.Detach? ==> e.f in x.buffers && x.buffers[e.f].desired.Some? && x.buffers[e.f].desired.value in x.sinks
  {
    if e.Detach? {
      assert BufferOk(x, e.f);
    }
  }

  lemma DesiringFacts(x: State, e: Event, s: SinkId)
    requires Inv(x) && Enabled(x, e)
    ensures e.Attach? ==> e.f !in Desiring(x, s)
    ensures e.Detach? ==> (e.f in Desiring(x, s) <==> e.f in x.buffers && x.buffers[e.f].desired == Some(s))
  {
  }

  lemma StepKeepsAll(x: State, e: Event, handlers: set<FlowId>, users: map<SinkId, nat>)
    requires Inv(x) && Enabled(x, e) && HandlersOk(x, handlers) && CountersOk(x, users)
    ensures Inv(Step(x, e)) && HandlersOk(Step(x, e), HandlersAfter(x, e, handlers))
    ensures CountersOk(Step(x, e), UsersAfter(x, e, users))
  {
    hide Inv, Enabled, HandlersOk, CountersOk, Step;
    StepKeepsInv(x, e);
    HandlersStep(x, e, handlers);
    CountersStep(x, e, users);
  }

  lemma CountedSinks(x: State, users: map<SinkId, nat>)
    requires CountersOk(x, users)
    ensures users.Keys == x.sinks.Keys
  {
  }

  /** What flow_buffer_finish_detach asserts. */
  lemma ReadyToSettle(x: State, s: SinkId)
    requires Inv(x) && s in x.sinks && x.sinks[s].detaching.Some?
    ensures var b := x.sinks[s].detaching.value;
      && b in x.buffers && x.buffers[b].sink == Some(s) && x.sinks[s].sending == Packet(b)
      && (x.buffers[b].desired.Some? ==> x.buffers[b].owned && x.buffers[b].desired.value in x.sinks)
  {
    DetachingIs(x, s);
    assert BufferOk(x, x.sinks[s].detaching.value);
  }

  lemma HandlerMeansDetaching(x: State, handlers: set<FlowId>, s: SinkId)
    requires Inv(x) && HandlersOk(x, handlers) && s in x.sinks
    ensures x.sinks[s].detaching.Some? <==> x.sinks[s].sending.Packet? && x.sinks[s].sending.of in handlers
    ensures x.sinks[s].detaching.Some? ==> x.sinks[s].sending == Packet(x.sinks[s].detaching.value)
  {
    assert SinkOk(x, s);
    if x.sinks[s].sending.Packet? {
      assert x.sinks[s].sending.of in handlers <==> Leaving(x, x.sinks[s].sending.of);
    }
  }

  /** A flow without a desired sink whose buffer is still on a sink waits for its send to end. */
  lemma UndesiredIsLeaving(x: State, handlers: set<FlowId>, f: FlowId)
    requires Inv(x) && HandlersOk(x, handlers) && Live(x, f) && x.buffers[f].desired.None?
    ensures x.buffers[f].sink.Some? ==>
      && x.buffers[f].sink.value in x.sinks && f in handlers
      && x.sinks[x.buffers[f].sink.value].sending == Packet(f) && x.sinks[x.buffers[f].sink.value].detaching == Some(f)
  {
    assert BufferOk(x, f);
    if x.buffers[f].sink.Some? {
      assert Leaving(x, f);
      DetachingIs(x, x.buffers[f].sink.value);
    }
  }

  /** What DataProtoFlow_Detach does to sinks and buffers. */
  function Detached(x: State, f: FlowId): State
    requires f in x.buffers && x.buffers[f].sink.Some? && x.buffers[f].sink.value in x.sinks
  {
    var s := x.buffers[f].sink.value;
    if x.sinks[s].sending == Packet(f) then
      x.(sinks := x.sinks[s := x.sinks[s].(detaching := Some(f))], buffers := x.buffers[f := x.buffers[f].(desired := None)])
    else x.(buffers := x.buffers[f := x.buffers[f].(desired := None, sink := None)])
  }

  function HandlersDetached(x: State, handlers: set<FlowId>, f: FlowId): set<FlowId>
    requires f in x.buffers && x.buffers[f].sink.Some? && x.buffers[f].sink.value in x.sinks
  {
    if x.sinks[x.buffers[f].sink.value].sending == Packet(f) then handlers + {f} else handlers - {f}
  }

  /** The asserts of DataProtoFlow_Detach and of what it calls. */
  predicate Detachable(x: State, handlers: set<FlowId>, users: map<SinkId, nat>, f: FlowId) {
    && f in x.buffers && x.buffers[f].sink.Some? && x.buffers[f].sink.value in x.sinks
    && x.buffers[f].desired.Some? && x.buffers[f].desired.value in users && users[x.buffers[f].desired.value] > 0
    && var k := x.sinks[x.buffers[f].sink.value];
    if k.sending == Packet(f) then k.detaching in {None, Some(f)} && (k.detaching == Some(f) ==> f in handlers)
    else k.detaching != Some(f)
  }

  function UsersDetached(x: State, handlers: set<FlowId>, users: map<SinkId, nat>, f: FlowId): map<SinkId, nat>
    requires Detachable(x, handlers, users, f)
  {
    users[x.buffers[f].desired.value := users[x.buffers[f].desired.value] - 1]
  }

  lemma DetachFacts(x: State, handlers: set<FlowId>, users: map<SinkId, nat>, f: FlowId)
    requires Inv(x) && HandlersOk(x, handlers) && CountersOk(x, users) && Enabled(x, Detach(f))
    ensures Detachable(x, handlers, users, f)
    ensures Step(x, Detach(f)) == Detached(x, f)
    ensures HandlersAfter(x, Detach(f), handlers) == HandlersDetached(x, handlers, f)
    ensures UsersAfter(x, Detach(f), users) == UsersDetached(x, handlers, users, f)
  {
    hide CountersOk, Inv;
    AttachedTo(x, f);
    UserCounted(x, users, f);
    BufferFacts(x, f);
    SinkFacts(x, x.buffers[f].sink.value);
    assert f in handlers <==> Leaving(x, f);
  }

  class DataProto {
    var sinks: map<SinkId, Sink>
    var buffers: map<FlowId, Buffer>
    var handlers: set<FlowId>         // buffers whose queue flow has a busy handler
    var users: map<SinkId, nat>       // d_ctr of every sink
    ghost var freed: seq<FlowId>

    ghost function View(): State
      reads this`sinks, this`buffers, this`freed
    {
      State(sinks, buffers, freed)
    }

    ghost predicate Valid()
      reads this
    {
      Inv(View()) && HandlersOk(View(), handlers) && CountersOk(View(), users)
    }

    constructor ()
      ensures Valid() && View() == EMPTY
    {
      sinks, buffers, handlers, users, freed := map[], map[], {}, map[], [];
    }

    // ---- Buffers -----------------------------------------------------------------------------

    /** flow_buffer_free */
    method BufferFree(b: FlowId)
      requires b in buffers && buffers[b].sink.None?
      modifies this`buffers, this`freed
      ensures View() == FreeBuffer(old(View()), b)
    {
      buffers := buffers - {b};
      freed := freed + [b];
    }

    /** flow_buffer_attach */
    method BufferAttach(b: FlowId, s: SinkId)
      requires b in buffers && buffers[b].sink.None? && s in sinks
      modifies this`buffers
      ensures buffers == old(buffers)[b := old(buffers)[b].(sink := Some(s))]
    {
      buffers := buffers[b := buffers[b].(sink := Some(s))];
    }

    /** flow_buffer_detach; the queue allows it unless it is sending the buffer's packet, or when it
        is being torn down */
    method BufferDetach(b: FlowId, tearDown: bool)
      requires b in buffers && buffers[b].sink.Some? && buffers[b].sink.value in sinks
      requires tearDown || sinks[buffers[b].sink.value].sending != Packet(b)
      modifies this`sinks, this`buffers, this`handlers
      ensures var s := old(buffers)[b].sink.value;
        var k := old(sinks)[s];
        && sinks == old(sinks)[s := k.(detaching := if k.detaching == Some(b) then None else k.detaching,
                                       sending := if k.sending == Packet(b) then Nothing else k.sending)]
        && buffers == old(buffers)[b := old(buffers)[b].(sink := None)]
        && handlers == old(handlers) - {b}
    {
      var s := buffers[b].sink.value;
      // handlers belong to queue flows, and this buffer has none any more
      handlers := handlers - {b};
      if sinks[s].sending == Packet(b) {
        sinks := sinks[s := sinks[s].(sending := Nothing)];
      }
      // a sink may detach only a buffer that it is sending
      if sinks[s].detaching == Some(b) {
        sinks := sinks[s := sinks[s].(detaching := None)];
      }
      buffers := buffers[b := buffers[b].(sink := None)];
    }

    /** flow_buffer_schedule_detach */
    method ScheduleDetach(b: FlowId)
      requires b in buffers && buffers[b].sink.Some? && buffers[b].sink.value in sinks
      requires sinks[buffers[b].sink.value].sending == Packet(b)
      requires sinks[buffers[b].sink.value].detaching in {None, Some(b)}
      requires sinks[buffers[b].sink.value].detaching == Some(b) ==> b in handlers
      modifies this`sinks, this`handlers
      ensures var s := buffers[b].sink.value;
        sinks == old(sinks)[s := old(sinks)[s].(detaching := Some(b))] && handlers == old(handlers) + {b}
    {
      var s := buffers[b].sink.value;
      if sinks[s].detaching == Some(b) {
        return;
      }
      handlers := handlers + {b};
      sinks := sinks[s := sinks[s].(detaching := Some(b))];
    }

    /** flow_buffer_finish_detach */
    method FinishDetach(b: FlowId, tearDown: bool)
      requires b in buffers && buffers[b].sink.Some? && buffers[b].sink.value in sinks
      requires sinks[buffers[b].sink.value].detaching == Some(b)
      requires sinks[buffers[b].sink.value].sending == if tearDown then Packet(b) else Nothing
      requires buffers[b].desired.Some? ==> buffers[b].owned && buffers[b].desired.value in sinks
      modifies this`sinks, this`buffers, this`handlers, this`freed
      ensures View() == Settle(old(View()), old(buffers)[b].sink.value, b) && handlers == old(handlers) - {b}
    {
      BufferDetach(b, tearDown);
      if !buffers[b].owned {
        BufferFree(b);
      } else if buffers[b].desired.Some? {
        BufferAttach(b, buffers[b].desired.value);
      }
    }

    // ---- Sinks -------------------------------------------------------------------------------

    /** DataProtoSink_Init */
    method SinkInit(s: SinkId)
      requires Valid() && s !in sinks
      modifies this
      ensures View() == Step(old(View()), NewSink(s)) && Valid()
    {
      hide Inv, HandlersOk, CountersOk;
      StepKeepsAll(View(), NewSink(s), handlers, users);
      sinks := sinks[s := NEW_SINK];
      users := users[s := 0];
    }

    /** DataProtoSink_Free */
    method SinkFree(s: SinkId)
      requires Valid() && s in sinks && s in users && users[s] == 0
      modifies this
      ensures Enabled(old(View()), FreeSink(s)) && Valid() && View() == Step(old(View()), FreeSink(s))
    {
      hide Inv, HandlersOk, CountersOk;
      NobodyDesires(View(), users, s);
      StepKeepsAll(View(), FreeSink(s), handlers, users);
      if sinks[s].detaching.Some? {
        ReadyToSettle(View(), s);
        FinishDetach(sinks[s].detaching.value, true);
      }
      sinks := sinks - {s};
      users := users - {s};
    }

    /** The queue of a sink has sent a packet; a busy handler runs if one is set. */
    method QueueDone(s: SinkId)
      requires Valid() && s in sinks && !sinks[s].sending.Nothing?
      modifies this
      ensures View() == Step(old(View()), SendDone(s)) && Valid()
    {
      hide Inv, CountersOk;
      ghost var x := View();
      StepKeepsAll(x, SendDone(s), handlers, users);
      var what := sinks[s].sending;
      sinks := sinks[s := sinks[s].(sending := Nothing)];
      HandlerMeansDetaching(x, handlers, s);
      if what.Packet? && what.of in handlers {
        ReadyToSettle(x, s);
        FinishDetach(what.of, false);
      }
      ghost var y := Step(x, SendDone(s));
      assert sinks == y.sinks && buffers == y.buffers;
    }

    /** The queue of a sink starts to send. */
    method QueueStart(s: SinkId, what: Sending)
      requires Valid() && Enabled(View(), SendStart(s, what))
      modifies this`sinks
      ensures View() == Step(old(View()), SendStart(s, what)) && Valid()
    {
      hide Inv, HandlersOk, CountersOk;
      StepKeepsAll(View(), SendStart(s, what), handlers, users);
      sinks := sinks[s := sinks[s].(sending := what)];
    }

    /** refresh_up_job */
    method RefreshUpJob(s: SinkId)
      requires s in sinks
      modifies this`sinks
      ensures sinks == old(sinks)[s := WithUp(old(sinks)[s], old(sinks)[s].up)]
    {
      if sinks[s].up != sinks[s].reported {
        sinks := sinks[s := sinks[s].(job := true)];
      } else {
        sinks := sinks[s := sinks[s].(job := false)];
      }
    }

    /** DataProtoSink_Received */
    method SinkReceived(s: SinkId, peerReceiving: bool)
      requires Valid() && s in sinks
      modifies this`sinks
      ensures View() == Step(old(View()), Received(s, peerReceiving)) && Valid()
    {
      hide Inv, HandlersOk, CountersOk;
      ghost var y := Step(View(), Received(s, peerReceiving));
      StepKeepsAll(View(), Received(s, peerReceiving), handlers, users);
      sinks := sinks[s := sinks[s].(up := peerReceiving)];
      RefreshUpJob(s);
      assert sinks == y.sinks;
    }

    /** receive_timer_handler */
    method ReceiveTimer(s: SinkId)
      requires Valid() && s in sinks
      modifies this`sinks
      ensures View() == Step(old(View()), Timeout(s)) && Valid()
    {
      hide Inv, HandlersOk, CountersOk;
      ghost var y := Step(View(), Timeout(s));
      StepKeepsAll(View(), Timeout(s), handlers, users);
      sinks := sinks[s := sinks[s].(up := false)];
      RefreshUpJob(s);
      assert sinks == y.sinks;
    }

    /** up_job_handler; returns what the user's handler is told */
    method UpJob(s: SinkId) returns (up: bool)
      requires Valid() && s in sinks && sinks[s].job
      modifies this`sinks
      ensures View() == Step(old(View()), Notify(s)) && Valid()
      ensures s in sinks && up == sinks[s].up && up != old(sinks)[s].reported
    {
      hide HandlersOk, CountersOk, FreedOk, SinkOk, BufferOk;
      assert ReportsOk(sinks[s]);
      StepKeepsAll(View(), Notify(s), handlers, users);
      up := sinks[s].up;
      sinks := sinks[s := sinks[s].(reported := up, job := false, reports := sinks[s].reports + [up])];
    }

    // ---- Flows -------------------------------------------------------------------------------

    /** DataProtoFlow_Init */
    method FlowInit(f: FlowId)
      requires Valid() && f !in buffers && f !in Elems(freed)
      modifies this`buffers
      ensures View() == Step(old(View()), NewFlow(f)) && Valid()
    {
      hide Inv, HandlersOk, CountersOk;
      StepKeepsAll(View(), NewFlow(f), handlers, users);
      buffers := buffers[f := Buffer(true, None, None)];
    }

    /** DataProtoFlow_Free */
    method FlowFree(f: FlowId)
      requires Valid() && f in buffers && buffers[f].owned && buffers[f].desired.None?
      modifies this
      ensures View() == Step(old(View()), FreeFlow(f)) && Valid()
    {
      hide Inv, HandlersOk, CountersOk;
      ghost var y := Step(View(), FreeFlow(f));
      StepKeepsAll(View(), FreeFlow(f), handlers, users);
      UndesiredIsLeaving(View(), handlers, f);
      if buffers[f].sink.Some? {
        if sinks[buffers[f].sink.value].sending == Packet(f) {
          ScheduleDetach(f);
          buffers := buffers[f := buffers[f].(owned := false)];
        } else {
          assert false;  // without a desired sink the buffer is on a sink only while its packet is sent
        }
      } else {
        BufferFree(f);
      }
      assert sinks == y.sinks && buffers == y.buffers && handlers == old(handlers);
    }

    /** DataProtoFlow_Attach */
    method FlowAttach(f: FlowId, to: SinkId)
      requires Valid() && f in buffers && buffers[f].owned && buffers[f].desired.None? && to in sinks
      modifies this
      ensures View() == Step(old(View()), Attach(f, to)) && Valid()
    {
      hide Inv, HandlersOk, CountersOk;
      ghost var y := Step(View(), Attach(f, to));
      StepKeepsAll(View(), Attach(f, to), handlers, users);
      UndesiredIsLeaving(View(), handlers, f);
      if buffers[f].sink.Some? {
        if sinks[buffers[f].sink.value].sending == Packet(f) {
          ScheduleDetach(f);
        } else {
          assert false;  // as in FlowFree
        }
      } else {
        BufferAttach(f, to);
      }
      buffers := buffers[f := buffers[f].(desired := Some(to))];
      assert sinks == y.sinks && buffers == y.buffers && handlers == old(handlers);
      CountedSinks(old(View()), old(users));
      users := users[to := users[to] + 1];
    }

    /** Take a buffer off its sink, now or when its send ends. */
    method DetachBuffer(f: FlowId)
      requires f in buffers && buffers[f].sink.Some? && buffers[f].sink.value in sinks
      requires var k := sinks[buffers[f].sink.value];
        if k.sending == Packet(f) then k.detaching in {None, Some(f)} && (k.detaching == Some(f) ==> f in handlers)
        else k.detaching != Some(f)
      modifies this`sinks, this`buffers, this`handlers
      ensures var s := old(buffers)[f].sink.value;
        var busy := old(sinks)[s].sending == Packet(f);
        && sinks == (if busy then old(sinks)[s := old(sinks)[s].(detaching := Some(f))] else old(sinks))
        && buffers == old(buffers)[f := old(buffers)[f].(sink := if busy then Some(s) else None)]
        && handlers == (if busy then old(handlers) + {f} else old(handlers) - {f})
    {
      if sinks[buffers[f].sink.value].sending == Packet(f) {
        ScheduleDetach(f);
      } else {
        BufferDetach(f, false);
      }
    }

    /** The flow wants no sink any more. */
    method DetachWish(f: FlowId)
      requires Detachable(View(), handlers, users, f)
      modifies this
      ensures View() == Detached(old(View()), f)
      ensures handlers == HandlersDetached(old(View()), old(handlers), f)
      ensures users == UsersDetached(old(View()), old(handlers), old(users), f)
    {
      var sink := buffers[f].desired.value;
      DetachBuffer(f);
      buffers := buffers[f := buffers[f].(desired := None)];
      users := users[sink := users[sink] - 1];
      assert buffers == Detached(old(View()), f).buffers;
    }

    /** DataProtoFlow_Detach */
    method FlowDetach(f: FlowId)
      requires Valid() && Enabled(View(), Detach(f))
      modifies this
      ensures View() == Step(old(View()), Detach(f)) && Valid()
    {
      hide Inv, HandlersOk, CountersOk, Enabled, Step, HandlersAfter, UsersAfter;
      hide Detached, HandlersDetached, UsersDetached, Detachable;
      StepKeepsAll(View(), Detach(f), handlers, users);
      DetachFacts(View(), handlers, users, f);
      DetachWish(f);
    }
  }
}
