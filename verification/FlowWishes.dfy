/**
 What a client of DataProto has to keep track of: which flows exist and which sink each of them
 wants.  Whoever knows that much knows when a call is allowed, whatever the queues of the sinks are
 sending at the time.
 */
module FlowWishes {
  import opened Prelude
  import opened DataProtoSpec
  import opened DataProtoImpl

  type Want = map<FlowId, Option<SinkId>>

  ghost predicate WantsSink(x: State, f: FlowId, s: Option<SinkId>) {
    Live(x, f) && x.buffers[f].desired == s
  }

  ghost predicate Wishes(x: State, want: Want) {
    && (forall f :: f in want ==> WantsSink(x, f, want[f]))
    && (forall f :: Live(x, f) ==> f in want)
  }

  function WantAfter(want: Want, e: Event): Want {
    match e
    case NewFlow(f) => want[f := None]
    case FreeFlow(f) => want - {f}
    case Attach(f, to) => want[f := Some(to)]
    case Detach(f) => want[f := None]
    case _ => want
  }

  function DesiredAfter(x: State, e: Event, f: FlowId): Option<SinkId>
    requires f in x.buffers
  {
    match e
    case Attach(g, to) => if f == g then Some(to) else x.buffers[f].desired
    case Detach(g) => if f == g then None else x.buffers[f].desired
    case _ => x.buffers[f].desired
  }

  /** What a step of DataProto means for the wish of one flow. */
  lemma WishAfter(x: State, e: Event, f: FlowId)
    requires Inv(x) && Enabled(x, e)
    ensures e.NewFlow? && e.f == f ==> WantsSink(Step(x, e), f, None)
    ensures e.FreeFlow? && e.f == f ==> !Live(Step(x, e), f)
    ensures !((e.NewFlow? || e.FreeFlow?) && e.f == f) ==>
      && (Live(Step(x, e), f) <==> Live(x, f))
      && (Live(x, f) ==> WantsSink(Step(x, e), f, DesiredAfter(x, e, f)))
  {
    hide BufferOk, FreedOk, ReportsOk;
    if e.Detach? {
      AttachedTo(x, e.f);
    } else if (e.SendDone? || e.FreeSink?) && x.sinks[e.s].detaching.Some? {
      DetachingIs(x, e.s);
    }
  }

  /** Sends, keep-alives, timers and reports change no wish; the calls of a client change its own. */
  lemma WishesStep(x: State, e: Event, want: Want)
    requires Inv(x) && Enabled(x, e) && Wishes(x, want)
    ensures Wishes(Step(x, e), WantAfter(want, e))
  {
    hide Inv, Enabled, Step;
    var y, after := Step(x, e), WantAfter(want, e);
    AttachNames(x, e);
    forall f
      ensures (Live(y, f) <==> f in after) && (f in after ==> WantsSink(y, f, after[f]))
    {
      WishAfter(x, e, f);
    }
  }

  lemma AttachNames(x: State, e: Event)
    requires Enabled(x, e)
    ensures e.Attach? || e.Detach? ==> Live(x, e.f)
    ensures e.NewFlow? ==> !Live(x, e.f)
  {
  }

  /** Flow names below the limit only. */
  ghost predicate Unused(x: State, limit: FlowId) {
    && (forall f :: f in x.buffers ==> f < limit)
    && (forall f: FlowId :: f in Elems<FlowId>(x.freed) ==> f < limit)
  }

  lemma FreedAfter(x: State, e: Event)
    requires Inv(x) && Enabled(x, e)
    ensures Elems<FlowId>(Step(x, e).freed) <= Elems<FlowId>(x.freed) + x.buffers.Keys
  {
    hide BufferOk, FreedOk, ReportsOk;
    if e.Detach? {
      AttachedTo(x, e.f);
    } else if (e.SendDone? || e.FreeSink?) && x.sinks[e.s].detaching.Some? {
      DetachingIs(x, e.s);
      ElemsAppend(x.freed, x.sinks[e.s].detaching.value);
    } else if e.FreeFlow? {
      ElemsAppend(x.freed, e.f);
    }
  }

  lemma UnusedStep(x: State, e: Event, limit: FlowId)
    requires Inv(x) && Enabled(x, e) && Unused(x, limit) && (e.NewFlow? ==> e.f < limit)
    ensures Unused(Step(x, e), limit)
  {
    hide BufferOk, FreedOk, ReportsOk;
    var y := Step(x, e);
    if e.Detach? {
      AttachedTo(x, e.f);
    } else if (e.SendDone? || e.FreeSink?) && x.sinks[e.s].detaching.Some? {
      DetachingIs(x, e.s);
    }
    forall f | f in y.buffers
      ensures f < limit
    {
      assert f in x.buffers || (e.NewFlow? && f == e.f);
    }
    FreedAfter(x, e);
  }

  /** The client's knowledge of a DataProto state. */
  ghost predicate Known(x: State, want: Want, sinks: set<SinkId>, limit: FlowId) {
    Wishes(x, want) && x.sinks.Keys == sinks && Unused(x, limit)
  }

  lemma KnownStep(x: State, e: Event, want: Want, sinks: set<SinkId>, limit: FlowId)
    requires Inv(x) && Enabled(x, e) && Known(x, want, sinks, limit) && (e.NewFlow? ==> e.f < limit)
    ensures Known(Step(x, e), WantAfter(want, e),
                  if e.NewSink? then sinks + {e.s} else if e.FreeSink? then sinks - {e.s} else sinks, limit)
  {
    hide Inv, Enabled, Step, Wishes, Unused;
    WishesStep(x, e, want);
    SinksAfter(x, e);
    UnusedStep(x, e, limit);
  }

  /** The client knows when it may free a sink. */
  lemma NobodyWants(x: State, want: Want, s: SinkId)
    requires Inv(x) && Wishes(x, want) && forall f :: f in want ==> want[f] != Some(s)
    ensures !exists f :: Desires(x, f, s)
  {
    forall f
      ensures !Desires(x, f, s)
    {
      BufferFacts(x, f);
      assert f in want ==> WantsSink(x, f, want[f]);
    }
  }

  ghost predicate Holds(dp: DataProto, want: Want, sinks: set<SinkId>, limit: FlowId)
    reads dp
  {
    dp.Valid() && Known(dp.View(), want, sinks, limit)
  }

  lemma NothingKnown(dp: DataProto)
    requires dp.Valid() && dp.View() == EMPTY
    ensures Holds(dp, map[], {}, 0)
  {
  }

  /** The next name is not the name of a flow. */
  lemma UnusedName(dp: DataProto, want: Want, sinks: set<SinkId>, limit: FlowId)
    requires Holds(dp, want, sinks, limit)
    ensures limit !in want
  {
    assert forall f :: f in want ==> WantsSink(dp.View(), f, want[f]);
  }

  // ---- The calls of a client ------------------------------------------------------------------

  method NewFlowOf(dp: DataProto, f: FlowId, ghost want: Want, ghost sinks: set<SinkId>)
    requires Holds(dp, want, sinks, f)
    modifies dp
    ensures Holds(dp, want[f := None], sinks, f + 1)
  {
    hide Inv, HandlersOk, CountersOk, Step;
    var e := NewFlow(f);
    assert Enabled(dp.View(), e) && Known(dp.View(), want, sinks, f + 1);
    KnownStep(dp.View(), e, want, sinks, f + 1);
    dp.FlowInit(f);
  }

  method FreeFlowOf(dp: DataProto, f: FlowId, ghost want: Want, ghost sinks: set<SinkId>, ghost limit: FlowId)
    requires Holds(dp, want, sinks, limit) && f in want && want[f].None?
    modifies dp
    ensures Holds(dp, want - {f}, sinks, limit)
  {
    hide Inv, HandlersOk, CountersOk, Step, Unused;
    assert WantsSink(dp.View(), f, want[f]);
    KnownStep(dp.View(), FreeFlow(f), want, sinks, limit);
    dp.FlowFree(f);
  }

  method AttachFlow(dp: DataProto, f: FlowId, to: SinkId, ghost want: Want, ghost sinks: set<SinkId>, ghost limit: FlowId)
    requires Holds(dp, want, sinks, limit) && f in want && want[f].None? && to in sinks
    modifies dp
    ensures Holds(dp, want[f := Some(to)], sinks, limit)
  {
    hide Inv, HandlersOk, CountersOk, Step, Unused;
    assert WantsSink(dp.View(), f, want[f]);
    KnownStep(dp.View(), Attach(f, to), want, sinks, limit);
    dp.FlowAttach(f, to);
  }

  method DetachFlow(dp: DataProto, f: FlowId, ghost want: Want, ghost sinks: set<SinkId>, ghost limit: FlowId)
    requires Holds(dp, want, sinks, limit) && f in want && want[f].Some?
    modifies dp
    ensures Holds(dp, want[f := None], sinks, limit)
  {
    hide Inv, HandlersOk, CountersOk, Step, Unused;
    assert WantsSink(dp.View(), f, want[f]);
    KnownStep(dp.View(), Detach(f), want, sinks, limit);
    dp.FlowDetach(f);
  }

  method NewSinkOf(dp: DataProto, s: SinkId, ghost want: Want, ghost sinks: set<SinkId>, ghost limit: FlowId)
    requires Holds(dp, want, sinks, limit) && s !in sinks
    modifies dp
    ensures Holds(dp, want, sinks + {s}, limit)
  {
    hide Inv, HandlersOk, CountersOk, Step, Unused, Wishes;
    KnownStep(dp.View(), NewSink(s), want, sinks, limit);
    dp.SinkInit(s);
  }

  method FreeSinkOf(dp: DataProto, s: SinkId, ghost want: Want, ghost sinks: set<SinkId>, ghost limit: FlowId)
    requires Holds(dp, want, sinks, limit) && s in sinks && forall f :: f in want ==> want[f] != Some(s)
    modifies dp
    ensures Holds(dp, want, sinks - {s}, limit)
  {
    hide Inv, HandlersOk, CountersOk, Step, Unused, Wishes;
    NobodyWants(dp.View(), want, s);
    NobodyDesires(dp.View(), dp.users, s);
    CountedSinks(dp.View(), dp.users);
    KnownStep(dp.View(), FreeSink(s), want, sinks, limit);
    dp.SinkFree(s);
  }

  // ---- What the sinks do on their own ---------------------------------------------------------

  method QueueStarts(dp: DataProto, s: SinkId, what: Sending, ghost want: Want, ghost sinks: set<SinkId>,
                     ghost limit: FlowId)
    requires Holds(dp, want, sinks, limit) && Enabled(dp.View(), SendStart(s, what))
    modifies dp
    ensures Holds(dp, want, sinks, limit) && dp.View() == Step(old(dp.View()), SendStart(s, what))
  {
    hide Inv, HandlersOk, CountersOk, Step, Known;
    KnownStep(dp.View(), SendStart(s, what), want, sinks, limit);
    dp.QueueStart(s, what);
  }

  method QueueEnds(dp: DataProto, s: SinkId, ghost want: Want, ghost sinks: set<SinkId>, ghost limit: FlowId)
    requires Holds(dp, want, sinks, limit) && Enabled(dp.View(), SendDone(s))
    modifies dp
    ensures Holds(dp, want, sinks, limit) && dp.View() == Step(old(dp.View()), SendDone(s))
  {
    hide Inv, HandlersOk, CountersOk, Step, Known;
    KnownStep(dp.View(), SendDone(s), want, sinks, limit);
    dp.QueueDone(s);
  }

  method SinkHears(dp: DataProto, s: SinkId, peerReceiving: bool, ghost want: Want, ghost sinks: set<SinkId>,
                   ghost limit: FlowId)
    requires Holds(dp, want, sinks, limit) && Enabled(dp.View(), Received(s, peerReceiving))
    modifies dp
    ensures Holds(dp, want, sinks, limit) && dp.View() == Step(old(dp.View()), Received(s, peerReceiving))
  {
    hide Inv, HandlersOk, CountersOk, Step, Known;
    KnownStep(dp.View(), Received(s, peerReceiving), want, sinks, limit);
    dp.SinkReceived(s, peerReceiving);
  }

  method SinkTimesOut(dp: DataProto, s: SinkId, ghost want: Want, ghost sinks: set<SinkId>, ghost limit: FlowId)
    requires Holds(dp, want, sinks, limit) && Enabled(dp.View(), Timeout(s))
    modifies dp
    ensures Holds(dp, want, sinks, limit) && dp.View() == Step(old(dp.View()), Timeout(s))
  {
    hide Inv, HandlersOk, CountersOk, Step, Known;
    KnownStep(dp.View(), Timeout(s), want, sinks, limit);
    dp.ReceiveTimer(s);
  }

  method SinkReports(dp: DataProto, s: SinkId, ghost want: Want, ghost sinks: set<SinkId>, ghost limit: FlowId)
    returns (up: bool)
    requires Holds(dp, want, sinks, limit) && s in dp.sinks && dp.sinks[s].job
    modifies dp
    ensures Holds(dp, want, sinks, limit) && up == old(dp.sinks)[s].up
  {
    hide Inv, HandlersOk, CountersOk, Known;
    KnownStep(dp.View(), Notify(s), want, sinks, limit);
    up := dp.UpJob(s);
  }
}
