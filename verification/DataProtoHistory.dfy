/**
 Where every buffer is and what every user has been told, from the events alone.  Nothing is said here
 about detaching: a buffer follows its flow at once, or when the send of its packet is over.
 */
module DataProtoHistory {
  import opened Prelude
  import opened DataProtoSpec

  // ---- What the events say ------------------------------------------------------------------------------

  // what the queue is sending, the latest word on whether the link works, and what the user was told
  datatype SinkPast = SinkPast(sending: Sending, heard: bool, told: seq<bool>)

  function SinkOf(es: seq<Event>, s: SinkId): Option<SinkPast> {
    if es == [] then None
    else
      var k := SinkOf(es[..|es|-1], s);
      match es[|es|-1]
      case NewSink(t) => if t == s then Some(SinkPast(Nothing, false, [])) else k
      case FreeSink(t) => if t == s then None else k
      case SendStart(t, what) => if t == s && k.Some? then Some(k.value.(sending := what)) else k
      case SendDone(t) => if t == s && k.Some? then Some(k.value.(sending := Nothing)) else k
      case Received(t, peerReceiving) => if t == s && k.Some? then Some(k.value.(heard := peerReceiving)) else k
      case Timeout(t) => if t == s && k.Some? then Some(k.value.(heard := false)) else k
      case Notify(t) => if t == s && k.Some? then Some(k.value.(told := k.value.told + [k.value.heard])) else k
      case _ => k
  }

  predicate IsSending(es: seq<Event>, s: SinkId, f: FlowId) {
    SinkOf(es, s).Some? && SinkOf(es, s).value.sending == Packet(f)
  }

  // a flow that never was, a flow whose buffer has been freed, or a buffer
  datatype FlowPast = Never | Gone | Here(buffer: Buffer)

  /** The send of the packet is over: the buffer goes where its flow wants it, or is freed with it. */
  function Released(k: Buffer): FlowPast {
    if k.owned then Here(k.(sink := k.desired)) else Gone
  }

  function FlowOf(es: seq<Event>, f: FlowId): FlowPast {
    if es == [] then Never
    else
      var init, e := es[..|es|-1], es[|es|-1];
      var past := FlowOf(init, f);
      if e == NewFlow(f) then Here(Buffer(true, None, None))
      else if !past.Here? then past
      else
        var k := past.buffer;
        match e
        case FreeFlow(g) => if g != f then past else if k.sink.None? then Gone else Here(k.(owned := false))
        case Attach(g, to) =>
          if g != f then past else Here(k.(desired := Some(to), sink := if k.sink.None? then Some(to) else k.sink))
        case Detach(g) =>
          if g != f then past
          else if k.sink.Some? && IsSending(init, k.sink.value, f) then Here(k.(desired := None))
          else Here(k.(desired := None, sink := None))
        case SendDone(s) => if k.sink == Some(s) && IsSending(init, s, f) then Released(k) else past
        case FreeSink(s) => if k.sink == Some(s) && IsSending(init, s, f) then Released(k) else past
        case _ => past
  }

  // ---- The code does what the events say ------------------------------------------------------------------

  ghost predicate SinksTold(es: seq<Event>, x: State) {
    && (forall s :: s in x.sinks <==> SinkOf(es, s).Some?)
    && (forall s :: s in x.sinks ==> SinkPast(x.sinks[s].sending, x.sinks[s].up, x.sinks[s].reports) == SinkOf(es, s).value)
  }

  ghost predicate FlowTold(es: seq<Event>, x: State, f: FlowId) {
    && (f in x.buffers <==> FlowOf(es, f).Here?)
    && (f in x.buffers ==> x.buffers[f] == FlowOf(es, f).buffer)
    && (f in Elems(x.freed) <==> FlowOf(es, f).Gone?)
  }

  lemma {:induction false} SinkStep(es: seq<Event>, x: State, e: Event, s: SinkId)
    requires Inv(x) && Enabled(x, e) && SinksTold(es, x)
    ensures var y := Step(x, e);
      && (s in y.sinks <==> SinkOf(es + [e], s).Some?)
      && (s in y.sinks ==>
            SinkPast(y.sinks[s].sending, y.sinks[s].up, y.sinks[s].reports) == SinkOf(es + [e], s).value)
  {
    hide BufferOk, SinkOk, FreedOk, ReportsOk, Inv;
    assert (es + [e])[..|es|] == es;
    if e.Detach? {
      AttachedTo(x, e.f);
    } else if (e.SendDone? || e.FreeSink?) && x.sinks[e.s].detaching.Some? {
      DetachingIs(x, e.s);
    }
  }

  lemma {:induction false} SinksStep(es: seq<Event>, x: State, e: Event)
    requires Inv(x) && Enabled(x, e) && SinksTold(es, x)
    ensures SinksTold(es + [e], Step(x, e))
  {
    hide Inv, Enabled, Step, SinkOf;
    forall s
      ensures var y := Step(x, e);
        && (s in y.sinks <==> SinkOf(es + [e], s).Some?)
        && (s in y.sinks ==>
              SinkPast(y.sinks[s].sending, y.sinks[s].up, y.sinks[s].reports) == SinkOf(es + [e], s).value)
    {
      SinkStep(es, x, e, s);
    }
  }

  /** A buffer is on a sink that sends its packet as the events say. */
  lemma SendingIs(es: seq<Event>, x: State, f: FlowId)
    requires Inv(x) && SinksTold(es, x) && f in x.buffers && x.buffers[f].sink.Some?
    ensures var s := x.buffers[f].sink.value;
      s in x.sinks && (IsSending(es, s, f) <==> x.sinks[s].sending == Packet(f))
  {
    AttachedTo(x, f);
  }

  /** Without being detached a buffer is where its flow wants it. */
  lemma StaysWanted(x: State, f: FlowId, s: SinkId)
    requires Inv(x) && f in x.buffers && x.buffers[f].sink == Some(s) && s in x.sinks && x.sinks[s].detaching != Some(f)
    ensures x.buffers[f].owned && x.buffers[f].desired == Some(s)
  {
    assert BufferOk(x, f);
  }

  /** The end of a send moves the buffer of its packet and no other. */
  lemma ReleaseStep(es: seq<Event>, x: State, e: Event, f: FlowId)
    requires Inv(x) && Enabled(x, e) && (e.SendDone? || e.FreeSink?) && SinksTold(es, x) && f in x.buffers
    ensures var y, k := Step(x, e), x.buffers[f];
      if k.sink == Some(e.s) && IsSending(es, e.s, f) then
        if k.owned then f in y.buffers && y.buffers[f] == k.(sink := k.desired) && Elems(y.freed) == Elems(x.freed)
        else f !in y.buffers && Elems(y.freed) == Elems(x.freed) + {f}
      else f in y.buffers && y.buffers[f] == k
  {
    hide BufferOk, FreedOk, ReportsOk, Elems, Distinct, Inv;
    var k, d := x.buffers[f], x.sinks[e.s].detaching;
    if k.sink == Some(e.s) {
      SendingIs(es, x, f);
      if d != Some(f) {
        StaysWanted(x, f, e.s);
      }
    }
    if d.Some? {
      DetachingIs(x, e.s);
      ElemsAppend(x.freed, d.value);
    }
  }

  /** A release that is not of this flow's buffer leaves it alone. */
  lemma ReleaseOther(x: State, e: Event, f: FlowId)
    requires Inv(x) && Enabled(x, e) && (e.SendDone? || e.FreeSink?) && f !in x.buffers
    ensures f !in Step(x, e).buffers && (f in Elems(Step(x, e).freed) <==> f in Elems(x.freed))
  {
    hide BufferOk, FreedOk, ReportsOk, Elems, Distinct, Inv;
    var d := x.sinks[e.s].detaching;
    if d.Some? {
      DetachingIs(x, e.s);
      ElemsAppend(x.freed, d.value);
    }
  }

  lemma {:induction false} ReleaseTold(es: seq<Event>, x: State, e: Event, f: FlowId)
    requires Inv(x) && Enabled(x, e) && (e.SendDone? || e.FreeSink?) && SinksTold(es, x) && FlowTold(es, x, f)
    ensures FlowTold(es + [e], Step(x, e), f)
  {
    hide Inv, Step, Enabled, Elems, IsSending, SinkOf;
    assert (es + [e])[..|es|] == es;
    if f in x.buffers {
      ReleaseStep(es, x, e, f);
      FreedOthers(x, e, f);
    } else {
      ReleaseOther(x, e, f);
    }
  }

  /** What is still there has not been freed. */
  lemma FreedOthers(x: State, e: Event, f: FlowId)
    requires Inv(x) && Enabled(x, e)
    ensures f in Step(x, e).buffers ==> f !in Elems(Step(x, e).freed)
    ensures f in x.buffers ==> f !in Elems(x.freed)
  {
    hide Step, Enabled;
    StepKeepsInv(x, e);
  }

  /** Nothing happens to the flow. */
  lemma {:induction false} OtherTold(es: seq<Event>, x: State, e: Event, f: FlowId)
    requires Inv(x) && Enabled(x, e) && !e.SendDone? && !e.FreeSink? && FlowTold(es, x, f)
    requires e.NewFlow? || e.FreeFlow? || e.Attach? || e.Detach? ==> e.f != f
    ensures FlowTold(es + [e], Step(x, e), f)
  {
    hide BufferOk, FreedOk, ReportsOk, SinkOk, Elems, Distinct, Inv, SinkOf, IsSending;
    assert (es + [e])[..|es|] == es;
    if e.Detach? {
      AttachedTo(x, e.f);
    } else if e.FreeFlow? {
      ElemsAppend(x.freed, e.f);
    }
  }

  lemma {:induction false} OwnTold(es: seq<Event>, x: State, e: Event, f: FlowId)
    requires Inv(x) && Enabled(x, e) && SinksTold(es, x) && FlowTold(es, x, f)
    requires (e.NewFlow? || e.FreeFlow? || e.Attach? || e.Detach?) && e.f == f
    ensures FlowTold(es + [e], Step(x, e), f)
  {
    hide BufferOk, FreedOk, ReportsOk, SinkOk, Elems, Distinct, Inv, SinkOf, IsSending, SinksTold;
    assert (es + [e])[..|es|] == es;
    FreedOthers(x, e, f);
    if e.Detach? {
      AttachedTo(x, f);
      SendingIs(es, x, f);
    } else if e.FreeFlow? {
      ElemsAppend(x.freed, f);
    }
  }

  lemma {:induction false} FlowStep(es: seq<Event>, x: State, e: Event, f: FlowId)
    requires Inv(x) && Enabled(x, e) && SinksTold(es, x) && FlowTold(es, x, f)
    ensures FlowTold(es + [e], Step(x, e), f)
  {
    hide Inv, Enabled, SinksTold, FlowTold, Step;
    if e.SendDone? || e.FreeSink? {
      ReleaseTold(es, x, e, f);
    } else if (e.NewFlow? || e.FreeFlow? || e.Attach? || e.Detach?) && e.f == f {
      OwnTold(es, x, e, f);
    } else {
      OtherTold(es, x, e, f);
    }
  }

  /** In every run every buffer is where the events say, a buffer is freed when they say, and every
      sink's queue, state and reports are what they say. */
  lemma {:induction false} StateIsHistory(es: seq<Event>)
    requires Run(EMPTY, es).Some?
    ensures SinksTold(es, Run(EMPTY, es).value) && forall f :: FlowTold(es, Run(EMPTY, es).value, f)
  {
    hide Inv, Step, Enabled, SinkOf, FlowOf, Elems, FlowTold, SinksTold;
    NothingYet();
    if es != [] {
      var init, e := es[..|es|-1], es[|es|-1];
      StateIsHistory(init);
      var x := Run(EMPTY, init).value;
      SinksStep(init, x, e);
      assert es == init + [e];
      forall f
        ensures FlowTold(es, Step(x, e), f)
      {
        FlowStep(init, x, e, f);
      }
    }
  }

  lemma NothingYet()
    ensures Inv(EMPTY) && SinksTold([], EMPTY) && forall f :: FlowTold([], EMPTY, f)
  {
  }

  /** Once the job has run the user's last report is the latest word: whether the peer said in its latest
      packet that it receives, and down if nothing has come for too long since. */
  lemma {:induction false} LastReportIsLatest(es: seq<Event>, s: SinkId)
    requires Run(EMPTY, es).Some? && s in Run(EMPTY, es).value.sinks && !Run(EMPTY, es).value.sinks[s].job
    ensures SinkOf(es, s).Some?
    ensures var past := SinkOf(es, s).value;
      past.heard == if past.told == [] then false else past.told[|past.told|-1]
  {
    hide SinkOf, FlowTold, Inv;
    NothingYet();
    StateIsHistory(es);
    Reports(Run(EMPTY, es).value, s);
  }

  lemma Reports(x: State, s: SinkId)
    requires Inv(x) && s in x.sinks && !x.sinks[s].job
    ensures var k := x.sinks[s]; k.up == if k.reports == [] then false else k.reports[|k.reports|-1]
  {
    assert ReportsOk(x.sinks[s]);
  }
}
