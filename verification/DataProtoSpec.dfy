/**
 Flows, their buffers and the sinks they are attached to, as DataProto keeps them.  A buffer whose
 packet is being sent cannot leave its sink; it is marked as detaching and leaves when the send
 ends.  The steps below say what has to happen; DataProto.dfy proves that the code does it.

 Every flow allocates one buffer and keeps it, so a flow is named by its buffer.
 */
module DataProtoSpec {
  import opened Prelude

  type SinkId = nat
  type FlowId = nat

  // What the queue of a sink is sending: nothing, its own keep-alives, or the packet of a buffer.
  datatype Sending = Nothing | Keepalive | Packet(of: FlowId)

  // up, reported: up and up_report; job: whether up_job is pending; reports: the calls of the
  // user's handler so far
  datatype Sink = Sink(sending: Sending, detaching: Option<FlowId>, up: bool, reported: bool, job: bool, reports: seq<bool>)

  // owned: the flow still exists; desired: sink_desired of the flow; sink: where the buffer is
  datatype Buffer = Buffer(owned: bool, desired: Option<SinkId>, sink: Option<SinkId>)

  datatype State = State(sinks: map<SinkId, Sink>, buffers: map<FlowId, Buffer>, freed: seq<FlowId>)

  const EMPTY := State(map[], map[], [])

  const NEW_SINK := Sink(Nothing, None, false, false, false, [])

  // ---- Invariant --------------------------------------------------------------------------------

  /** The buffer waits for its send to end and will leave the sink then. */
  ghost predicate Leaving(x: State, b: FlowId) {
    && b in x.buffers && x.buffers[b].sink.Some? && x.buffers[b].sink.value in x.sinks
    && x.sinks[x.buffers[b].sink.value].detaching == Some(b)
  }

  /** A buffer is where its flow wants it, or it is leaving; only a leaving buffer has lost its flow. */
  ghost predicate BufferOk(x: State, b: FlowId)
    requires b in x.buffers
  {
    var k := x.buffers[b];
    && (k.sink.Some? ==> k.sink.value in x.sinks)
    && (k.desired.Some? ==> k.owned && k.desired.value in x.sinks)
    && (Leaving(x, b) || (k.owned && k.sink == k.desired))
  }

  /** A detaching buffer is the one whose packet is being sent. */
  ghost predicate SinkOk(x: State, s: SinkId)
    requires s in x.sinks
  {
    var k := x.sinks[s];
    && (k.sending.Packet? ==> k.sending.of in x.buffers && x.buffers[k.sending.of].sink == Some(s))
    && (k.detaching.Some? ==> k.sending == Packet(k.detaching.value))
  }

  ghost predicate FreedOk(x: State) {
    Distinct(x.freed) && Elems(x.freed) !! x.buffers.Keys
  }

  /** The handler is told of every change, and changes alternate. */
  ghost predicate ReportsOk(k: Sink) {
    && k.job == (k.up != k.reported)
    && k.reported == (|k.reports| % 2 == 1)
    && forall i :: 0 <= i < |k.reports| ==> k.reports[i] == (i % 2 == 0)
  }

  ghost predicate Inv(x: State) {
    && (forall b :: b in x.buffers ==> BufferOk(x, b))
    && (forall s :: s in x.sinks ==> SinkOk(x, s) && ReportsOk(x.sinks[s]))
    && FreedOk(x)
  }

  // ---- Steps -----------------------------------------------------------------------------------

  datatype Event =
    | NewSink(s: SinkId)
    | FreeSink(s: SinkId)
    | NewFlow(f: FlowId)
    | FreeFlow(f: FlowId)
    | Attach(f: FlowId, to: SinkId)
    | Detach(f: FlowId)
    | SendStart(s: SinkId, what: Sending)      // the queue of the sink starts to send
    | SendDone(s: SinkId)
    | Received(s: SinkId, peerReceiving: bool)
    | Timeout(s: SinkId)                       // nothing received for the tolerance time
    | Notify(s: SinkId)                        // up_job runs

  ghost predicate Live(x: State, f: FlowId) {
    f in x.buffers && x.buffers[f].owned
  }

  ghost predicate Desires(x: State, f: FlowId, s: SinkId) {
    f in x.buffers && x.buffers[f].desired == Some(s)
  }

  /** What callers have to respect. */
  ghost predicate Enabled(x: State, e: Event) {
    match e
    case NewSink(s) => s !in x.sinks
    case FreeSink(s) => s in x.sinks && !exists f :: Desires(x, f, s)
    case NewFlow(f) => f !in x.buffers && f !in Elems(x.freed)
    case FreeFlow(f) => Live(x, f) && x.buffers[f].desired.None?
    case Attach(f, to) => Live(x, f) && x.buffers[f].desired.None? && to in x.sinks
    case Detach(f) => Live(x, f) && x.buffers[f].desired.Some?
    case SendStart(s, what) =>
      && s in x.sinks && x.sinks[s].sending.Nothing? && !what.Nothing?
      && (what.Packet? ==> what.of in x.buffers && x.buffers[what.of].sink == Some(s))
    case SendDone(s) => s in x.sinks && !x.sinks[s].sending.Nothing?
    case Notify(s) => s in x.sinks && x.sinks[s].job
    case _ => e.s in x.sinks
  }

  function SetBuffer(x: State, b: FlowId, k: Buffer): State {
    x.(buffers := x.buffers[b := k])
  }

  function SetSink(x: State, s: SinkId, k: Sink): State {
    x.(sinks := x.sinks[s := k])
  }

  function FreeBuffer(x: State, b: FlowId): State {
    x.(buffers := x.buffers - {b}, freed := x.freed + [b])
  }

  /** The send of a leaving buffer is over: the buffer goes where its flow wants it, an orphan is freed. */
  function Settle(x: State, s: SinkId, b: FlowId): State
    requires s in x.sinks && b in x.buffers
  {
    var y := SetSink(x, s, x.sinks[s].(detaching := None, sending := Nothing));
    if x.buffers[b].owned then SetBuffer(y, b, x.buffers[b].(sink := x.buffers[b].desired)) else FreeBuffer(y, b)
  }

  function WithUp(k: Sink, up: bool): Sink {
    k.(up := up, job := up != k.reported)
  }

  lemma DetachingIs(x: State, s: SinkId)
    requires Inv(x) && s in x.sinks && x.sinks[s].detaching.Some?
    ensures var b := x.sinks[s].detaching.value;
      b in x.buffers && x.buffers[b].sink == Some(s) && x.sinks[s].sending == Packet(b)
  {
    assert SinkOk(x, s);
  }

  lemma AttachedTo(x: State, f: FlowId)
    requires Inv(x) && f in x.buffers
    ensures x.buffers[f].sink.Some? ==> x.buffers[f].sink.value in x.sinks
    ensures x.buffers[f].desired.Some? ==> x.buffers[f].sink.Some?
  {
    assert BufferOk(x, f);
  }

  ghost function Step(x: State, e: Event): State
    requires Inv(x) && Enabled(x, e)
  {
    match e
    case NewSink(s) => SetSink(x, s, NEW_SINK)
    case FreeSink(s) =>
      var d := x.sinks[s].detaching;
      var y := if d.Some? then DetachingIs(x, s); Settle(x, s, d.value) else x;
      y.(sinks := y.sinks - {s})
    case NewFlow(f) => SetBuffer(x, f, Buffer(true, None, None))
    case FreeFlow(f) =>
      if x.buffers[f].sink.None? then FreeBuffer(x, f) else SetBuffer(x, f, x.buffers[f].(owned := false))
    case Attach(f, to) =>
      var k := x.buffers[f];
      SetBuffer(x, f, Buffer(true, Some(to), if k.sink.None? then Some(to) else k.sink))
    case Detach(f) =>
      AttachedTo(x, f);
      var s := x.buffers[f].sink.value;
      if x.sinks[s].sending == Packet(f)
      then SetSink(SetBuffer(x, f, x.buffers[f].(desired := None)), s, x.sinks[s].(detaching := Some(f)))
      else SetBuffer(x, f, Buffer(true, None, None))
    case SendStart(s, what) => SetSink(x, s, x.sinks[s].(sending := what))
    case SendDone(s) =>
      var d := x.sinks[s].detaching;
      if d.Some? then DetachingIs(x, s); Settle(x, s, d.value) else SetSink(x, s, x.sinks[s].(sending := Nothing))
    case Received(s, peerReceiving) => SetSink(x, s, WithUp(x.sinks[s], peerReceiving))
    case Timeout(s) => SetSink(x, s, WithUp(x.sinks[s], false))
    case Notify(s) =>
      var k := x.sinks[s];
      SetSink(x, s, k.(reported := k.up, job := false, reports := k.reports + [k.up]))
  }

  // ---- Preservation ------------------------------------------------------------------------------

  /** Everything but the sending and detaching of one sink and the place of one buffer is as before. */
  ghost predicate Local(x: State, y: State, s: Option<SinkId>, b: Option<FlowId>) {
    && (forall t :: t in y.sinks && s != Some(t) ==> t in x.sinks && y.sinks[t] == x.sinks[t])
    && (forall c :: c in y.buffers && b != Some(c) ==> c in x.buffers && y.buffers[c] == x.buffers[c])
    && (forall t :: t in x.sinks && s != Some(t) ==> t in y.sinks)
    && (forall c :: c in x.buffers && b != Some(c) ==> c in y.buffers)
  }

  lemma FreeBufferFreed(x: State, b: FlowId)
    requires FreedOk(x) && b in x.buffers
    ensures FreedOk(FreeBuffer(x, b))
  {
    DistinctSnoc(x.freed, b);
  }

  /** The buffer stays where it is, or no other sink is sending its packet. */
  ghost predicate Movable(x: State, y: State, s: Option<SinkId>, b: FlowId)
    requires b in x.buffers
  {
    var at := x.buffers[b].sink;
    || at == s || at.None?
    || (b in y.buffers && y.buffers[b].sink == at)
    || (at.value in x.sinks && x.sinks[at.value].sending != Packet(b))
  }

  /** The sink keeps detaching what it detached, and goes away only if no other buffer needs it. */
  ghost predicate Replaceable(x: State, y: State, s: SinkId, b: Option<FlowId>)
    requires s in x.sinks
  {
    if s in y.sinks then x.sinks[s].detaching.None? || x.sinks[s].detaching == b || x.sinks[s].detaching == y.sinks[s].detaching
    else forall c :: c in x.buffers && b != Some(c) ==> x.buffers[c].sink != Some(s) && x.buffers[c].desired != Some(s)
  }

  /** A step that changes one sink and one buffer, where the buffer is not needed by another sink
      and the sink not by another buffer. */
  lemma LocalStepKeeps(x: State, y: State, s: Option<SinkId>, b: Option<FlowId>)
    requires Inv(x) && FreedOk(y) && Local(x, y, s, b)
    requires s.Some? && s.value in y.sinks ==> SinkOk(y, s.value) && ReportsOk(y.sinks[s.value])
    requires b.Some? && b.value in y.buffers ==> BufferOk(y, b.value)
    requires b.Some? && b.value in x.buffers ==> Movable(x, y, s, b.value)
    requires s.Some? && s.value in x.sinks ==> Replaceable(x, y, s.value, b)
    ensures Inv(y)
  {
    hide ReportsOk, FreedOk;
    forall t | t in y.sinks && s != Some(t)
      ensures SinkOk(y, t) && ReportsOk(y.sinks[t])
    {
      assert SinkOk(x, t);
    }
    forall c | c in y.buffers && b != Some(c)
      ensures BufferOk(y, c)
    {
      assert BufferOk(x, c);
      assert Leaving(x, c) ==> Leaving(y, c);
    }
  }

  lemma NewFlowKeeps(x: State, f: FlowId)
    requires Inv(x) && Enabled(x, NewFlow(f))
    ensures Inv(Step(x, NewFlow(f)))
  {
    var y := Step(x, NewFlow(f));
    LocalStepKeeps(x, y, None, Some(f));
  }

  lemma FreeFlowKeeps(x: State, f: FlowId)
    requires Inv(x) && Enabled(x, FreeFlow(f))
    ensures Inv(Step(x, FreeFlow(f)))
  {
    var y := Step(x, FreeFlow(f));
    assert BufferOk(x, f);
    assert Leaving(x, f) ==> Leaving(y, f);
    if x.buffers[f].sink.None? {
      FreeBufferFreed(x, f);
    }
    LocalStepKeeps(x, y, None, Some(f));
  }

  lemma AttachKeeps(x: State, f: FlowId, to: SinkId)
    requires Inv(x) && Enabled(x, Attach(f, to))
    ensures Inv(Step(x, Attach(f, to)))
  {
    var y := Step(x, Attach(f, to));
    assert BufferOk(x, f);
    assert Leaving(x, f) ==> Leaving(y, f);
    LocalStepKeeps(x, y, None, Some(f));
  }

  lemma DetachKeeps(x: State, f: FlowId)
    requires Inv(x) && Enabled(x, Detach(f))
    ensures Inv(Step(x, Detach(f)))
  {
    hide ReportsOk, FreedOk;
    var y := Step(x, Detach(f));
    AttachedTo(x, f);
    var s := x.buffers[f].sink.value;
    assert BufferOk(x, f) && SinkOk(x, s);
    if x.sinks[s].sending == Packet(f) {
      assert Leaving(y, f);
      ReportsIgnoreQueue(x.sinks[s], y.sinks[s]);
      assert FreedOk(y) by { FreedSame(x, y); }
      LocalStepKeeps(x, y, Some(s), Some(f));
    } else {
      assert FreedOk(y) by { FreedSame(x, y); }
      LocalStepKeeps(x, y, None, Some(f));
    }
  }

  lemma FreedSame(x: State, y: State)
    requires FreedOk(x) && y.freed == x.freed && y.buffers.Keys == x.buffers.Keys
    ensures FreedOk(y)
  {
  }

  lemma ReportsIgnoreQueue(k: Sink, l: Sink)
    requires ReportsOk(k) && l == k.(sending := l.sending, detaching := l.detaching)
    ensures ReportsOk(l)
  {
  }

  lemma SettleFreed(x: State, s: SinkId, b: FlowId)
    requires FreedOk(x) && s in x.sinks && b in x.buffers
    ensures FreedOk(Settle(x, s, b))
  {
    FreeBufferFreed(x, b);
  }

  /** When the send of a leaving buffer ends nothing dangles. */
  lemma SettleKeeps(x: State, s: SinkId, b: FlowId)
    requires Inv(x) && s in x.sinks && x.sinks[s].detaching == Some(b)
    ensures b in x.buffers && Inv(Settle(x, s, b))
  {
    hide ReportsOk, FreedOk;
    DetachingIs(x, s);
    assert BufferOk(x, b);
    var y := Settle(x, s, b);
    ReportsIgnoreQueue(x.sinks[s], y.sinks[s]);
    SettleFreed(x, s, b);
    LocalStepKeeps(x, y, Some(s), Some(b));
  }

  /** A sink that nobody wants and that detaches nothing has no buffer. */
  lemma RemoveSinkKeeps(x: State, s: SinkId)
    requires Inv(x) && s in x.sinks && x.sinks[s].detaching.None? && !exists f :: Desires(x, f, s)
    ensures Inv(x.(sinks := x.sinks - {s}))
  {
    forall c | c in x.buffers
      ensures x.buffers[c].sink != Some(s) && x.buffers[c].desired != Some(s)
    {
      assert BufferOk(x, c) && !Desires(x, c, s);
    }
    LocalStepKeeps(x, x.(sinks := x.sinks - {s}), Some(s), None);
  }

  lemma FreeSinkKeeps(x: State, s: SinkId)
    requires Inv(x) && Enabled(x, FreeSink(s))
    ensures Inv(Step(x, FreeSink(s)))
  {
    hide Inv;
    var d := x.sinks[s].detaching;
    if d.Some? {
      SettleKeeps(x, s, d.value);
      assert forall f :: Desires(Settle(x, s, d.value), f, s) ==> Desires(x, f, s);
      RemoveSinkKeeps(Settle(x, s, d.value), s);
    } else {
      RemoveSinkKeeps(x, s);
    }
  }

  /** Steps that concern only one sink's queue or keep-alives. */
  lemma SinkStepKeeps(x: State, s: SinkId, k: Sink)
    requires Inv(x) && ReportsOk(k) && SinkOk(SetSink(x, s, k), s)
    requires s in x.sinks ==> k.detaching == x.sinks[s].detaching
    ensures Inv(SetSink(x, s, k))
  {
    LocalStepKeeps(x, SetSink(x, s, k), Some(s), None);
  }

  lemma StepKeepsInv(x: State, e: Event)
    requires Inv(x) && Enabled(x, e)
    ensures Inv(Step(x, e))
  {
    match e
    case FreeSink(s) => FreeSinkKeeps(x, s);
    case NewFlow(f) => NewFlowKeeps(x, f);
    case FreeFlow(f) => FreeFlowKeeps(x, f);
    case Attach(f, to) => AttachKeeps(x, f, to);
    case Detach(f) => DetachKeeps(x, f);
    case SendDone(s) =>
      if x.sinks[s].detaching.Some? {
        SettleKeeps(x, s, x.sinks[s].detaching.value);
      } else {
        assert SinkOk(x, s);
        SinkStepKeeps(x, s, x.sinks[s].(sending := Nothing));
      }
    case NewSink(s) => SinkStepKeeps(x, s, NEW_SINK);
    case _ =>
      assert SinkOk(x, e.s) && ReportsOk(x.sinks[e.s]);
      SinkStepKeeps(x, e.s, Step(x, e).sinks[e.s]);
  }

  lemma SinksAfter(x: State, e: Event)
    requires Inv(x) && Enabled(x, e)
    ensures Step(x, e).sinks.Keys ==
      match e
      case NewSink(s) => x.sinks.Keys + {s}
      case FreeSink(s) => x.sinks.Keys - {s}
      case _ => x.sinks.Keys
  {
    if e.Detach? {
      AttachedTo(x, e.f);
    }
  }

  // ---- Whole runs ---------------------------------------------------------------------------------

  /** The state after a run; None if a caller broke a rule. */
  ghost function Run(x: State, es: seq<Event>): Option<State>
    requires Inv(x)
    ensures Run(x, es).Some? ==> Inv(Run(x, es).value)
  {
    if es == [] then Some(x)
    else
      var y := Run(x, es[..|es|-1]);
      if y.Some? && Enabled(y.value, es[|es|-1])
      then StepKeepsInv(y.value, es[|es|-1]); Some(Step(y.value, es[|es|-1]))
      else None
  }

  /** In every reachable state a live flow's buffer is where the flow wants it, or it is the one
      buffer that its sink is detaching, whose packet is the one being sent. */
  lemma {:induction false} EveryBufferInPlace(es: seq<Event>, f: FlowId)
    requires Run(EMPTY, es).Some? && f in Run(EMPTY, es).value.buffers
    ensures var x := Run(EMPTY, es).value;
      var k := x.buffers[f];
      || (k.owned && k.sink == k.desired)
      || (&& k.sink.Some? && k.sink.value in x.sinks
          && x.sinks[k.sink.value].detaching == Some(f) && x.sinks[k.sink.value].sending == Packet(f))
  {
    var x := Run(EMPTY, es).value;
    assert BufferOk(x, f);
    if Leaving(x, f) {
      DetachingIs(x, x.buffers[f].sink.value);
    }
  }

  ghost predicate Orphan(x: State, b: FlowId, s: SinkId) {
    b in x.buffers && !x.buffers[b].owned && x.buffers[b].sink == Some(s)
  }

  predicate Releases(e: Event, s: SinkId) {
    e == SendDone(s) || e == FreeSink(s)
  }

  /** A leaving buffer moves exactly when its send ends or its sink goes away, and then to where
      its flow wants it at that time. */
  lemma LeavingMoves(x: State, e: Event, b: FlowId)
    requires Inv(x) && Enabled(x, e) && Leaving(x, b) && x.buffers[b].owned && e != FreeFlow(b)
    ensures var y := Step(x, e);
      && b in y.buffers && y.buffers[b].owned
      && if Releases(e, x.buffers[b].sink.value) then y.buffers[b].sink == y.buffers[b].desired == x.buffers[b].desired
         else Leaving(y, b) && y.buffers[b].sink == x.buffers[b].sink
  {
    hide FreedOk, ReportsOk, Inv, BufferOk, SinkOk;
    var s := x.buffers[b].sink.value;
    DetachingIs(x, s);
    if e.SendDone? && e.s != s && x.sinks[e.s].detaching.Some? {
      DetachingIs(x, e.s);
    } else if e.FreeSink? && e.s != s && x.sinks[e.s].detaching.Some? {
      DetachingIs(x, e.s);
    } else if e.Detach? {
      AttachedTo(x, e.f);
    }
  }

  lemma OrphanMoves(x: State, e: Event, b: FlowId, s: SinkId)
    requires Inv(x) && Enabled(x, e) && Orphan(x, b, s)
    ensures var y := Step(x, e);
      if Releases(e, s) then b !in y.buffers && y.freed == x.freed + [b] else Orphan(y, b, s)
  {
    hide FreedOk, ReportsOk;
    assert BufferOk(x, b) && s in x.sinks;
    DetachingIs(x, s);
    if e.SendDone? && e.s != s && x.sinks[e.s].detaching.Some? {
      DetachingIs(x, e.s);
    } else if e.FreeSink? && e.s != s && x.sinks[e.s].detaching.Some? {
      DetachingIs(x, e.s);
    } else if e.Detach? {
      AttachedTo(x, e.f);
    }
  }

  lemma FreedStays(x: State, e: Event, b: FlowId)
    requires Inv(x) && Enabled(x, e) && b in Elems(x.freed)
    ensures b in Elems(Step(x, e).freed)
  {
    var y := Step(x, e);
    if y.freed != x.freed {
      ElemsAppend(x.freed, y.freed[|x.freed|]);
    }
  }

  /** A buffer whose flow was freed during a send is freed exactly once, when the send ends or the
      sink goes away, and stays until then. */
  lemma {:induction false} OrphanFreedOnce(x: State, es: seq<Event>, b: FlowId, s: SinkId)
    requires Inv(x) && Orphan(x, b, s) && Run(x, es).Some?
    ensures var y := Run(x, es).value;
      && Distinct(y.freed)
      && if exists i :: 0 <= i < |es| && Releases(es[i], s) then b in Elems(y.freed) && b !in y.buffers
         else Orphan(y, b, s) && b !in Elems(y.freed)
  {
    hide Inv, Step, Enabled, Elems;
    if es == [] {
      FreedApart(x);
    } else {
      var init, e := es[..|es|-1], es[|es|-1];
      var y := Run(x, init).value;
      OrphanFreedOnce(x, init, b, s);
      FreedApart(Step(y, e));
      if i :| 0 <= i < |init| && Releases(init[i], s) {
        assert es[i] == init[i];
        FreedStays(y, e, b);
      } else {
        OrphanMoves(y, e, b, s);
        if Releases(e, s) {
          ElemsAppend(y.freed, b);
        } else {
          assert forall i :: 0 <= i < |init| ==> es[i] == init[i];
        }
      }
    }
  }

  lemma FreedApart(x: State)
    requires Inv(x)
    ensures Distinct(x.freed) && Elems(x.freed) !! x.buffers.Keys
  {
  }
}
