/**
 How long a flow waits that joins the queue: a flow that is not ahead of the others when its packet
 comes in is served after at most one packet of every other flow.
 */
module Latecomers {
  import opened Prelude
  import opened FairQueueSpec
  import opened Fairness

  // ---- Where a packet is lined up ------------------------------------------------------------

  ghost predicate Competes(q: Queue, h: FlowId) {
    h in q.time && Active(q, h)
  }

  /** A flow that was just served lines up at its own time.  Any other flow lines up at its own time or
      level with the least of the active flows, whichever is later; if nobody is active, at its own
      time or at the time that the code calls zero. */
  ghost predicate LinesUpAt(q: Queue, f: FlowId, t: nat)
    requires f in q.time
  {
    if Active(q, f) then t == q.time[f]
    else if exists h :: Competes(q, h) then
      && (forall h :: Competes(q, h) ==> t <= Max(q.time[f], q.time[h]))
      && (exists h :: Competes(q, h) && t == Max(q.time[f], q.time[h]))
    else t == Max(q.time[f], q.floor)
  }

  lemma LinesUp(q: Queue, f: FlowId, len: nat)
    requires Inv(q) && Enabled(q, Send(f, len))
    ensures var q' := Step(q, Send(f, len));
      && q'.time.Keys == q.time.Keys && (forall h :: h in q.time && h != f ==> q'.time[h] == q.time[h])
      && LinesUpAt(q, f, q'.time[f])
  {
    ClockInRange(q);
    assert q.sending.Some? ==> Competes(q, q.sending.value);
    assert q.previous.Some? ==> Competes(q, q.previous.value);
    if q.queued != map[] {
      assert Competes(q, First(q));
    }
  }

  /** If nothing is being sent and nothing is about to be, the packet is sent at once. */
  lemma IdleQueueSends(q: Queue, f: FlowId, len: nat)
    requires Inv(q) && Enabled(q, Send(f, len)) && q.sending.None? && !q.jobSet
    ensures Step(q, Send(f, len)).sending == Some(f) && Step(q, Send(f, len)).sendingLen == len
  {
    assert q.queued == map[];
    var q1 := Enqueue(q, f, len);
    assert q1.queued.Keys == {f};
  }

  // ---- How many packets of another flow go first ---------------------------------------------------

  /** The packets of g completed by events a..b-1. */
  function CompletedOf(states: seq<Queue>, events: seq<Event>, g: FlowId, a: nat, b: nat): nat
    requires a <= b <= |events| < |states|
    decreases b
  {
    if a == b then 0
    else CompletedOf(states, events, g, a, b - 1) + if Completes(states[b-1], events[b-1], g) then 1 else 0
  }

  /** No active flow is behind c. */
  ghost predicate NotBehind(q: Queue, c: nat) {
    forall h :: Competes(q, h) ==> c <= q.time[h]
  }

  /** While somebody is active nobody falls behind. */
  lemma NotBehindStep(q: Queue, e: Event, f: FlowId, c: nat)
    requires Inv(q) && Enabled(q, e) && NotBehind(q, c) && Competes(q, f)
    ensures NotBehind(Step(q, e), c)
  {
    var q' := Step(q, e);
    if e.Send? {
      LinesUp(q, e.flow, e.len);
      assert forall h :: Competes(q', h) && h != e.flow ==> Competes(q, h);
    } else {
      assert forall h :: Competes(q', h) ==> Competes(q, h);
    }
  }

  /** The time of a flow never goes back. */
  lemma TimeGrows(q: Queue, e: Event, g: FlowId)
    requires Inv(q) && Enabled(q, e) && g in q.time && g in Step(q, e).time
    ensures Step(q, e).time[g] >= q.time[g] + if Completes(q, e, g) then q.weight else 0
  {
  }

  /** What is known while f waits at time t: nobody active is behind c, and every completed packet has
      moved g on by the weight of a packet. */
  ghost predicate Waits(q: Queue, f: FlowId, t: nat, c: nat, g: FlowId, n: nat) {
    && f in q.queued && f in q.time && q.time[f] == t
    && NotBehind(q, c)
    && (n > 0 && g in q.time ==> c + q.weight * n <= q.time[g])
    && (n > 0 ==> c + q.weight * (n - 1) <= t)
  }

  lemma WaitsStep(q: Queue, e: Event, f: FlowId, t: nat, c: nat, g: FlowId, n: nat)
    requires Inv(q) && Enabled(q, e) && Waits(q, f, t, c, g, n) && f != g && e != FlowInit(g)
    requires f in Step(q, e).queued && Inv(Step(q, e))
    ensures Waits(Step(q, e), f, t, c, g, n + if Completes(q, e, g) then 1 else 0)
  {
    var q' := Step(q, e);
    assert Competes(q, f);
    NotBehindStep(q, e, f, c);
    StepChargesBacklogged(q, e, f);
    if g in q.time && g in q'.time {
      TimeGrows(q, e, g);
    }
    if Completes(q, e, g) {
      assert Competes(q, g) && c + q.weight * n <= q.time[g] <= t;
      assert q.weight * (n + 1) == q.weight * n + q.weight;
    }
  }

  lemma {:induction false} WaitsRun(states: seq<Queue>, events: seq<Event>, f: FlowId, t: nat, c: nat, g: FlowId,
                                    a: nat, b: nat)
    requires Run(states, events) && a <= b < |states| && f != g
    requires forall i :: a <= i < b ==> events[i] != FlowInit(g)
    requires forall i :: a <= i <= b ==> f in states[i].queued
    requires Waits(states[a], f, t, c, g, 0)
    ensures Waits(states[b], f, t, c, g, CompletedOf(states, events, g, a, b))
    decreases b
  {
    hide Inv, Enabled, Step, Waits;
    if a < b {
      WaitsRun(states, events, f, t, c, g, a, b - 1);
      RunStep(states, events, b - 1);
      RunKeepsInv(states, events, b);
      WaitsStep(states[b-1], events[b-1], f, t, c, g, CompletedOf(states, events, g, a, b - 1));
    }
  }

  /** No active flow but f is behind c. */
  ghost predicate OthersNotBehind(q: Queue, f: FlowId, c: nat) {
    forall h :: Competes(q, h) && h != f ==> c <= q.time[h]
  }

  /** While a packet that lined up at time t waits, another flow completes at most one packet, and one
      more for every weight of a packet by which t is ahead of c, if no other active flow was behind c. */
  lemma {:induction false} WaitPerFlow(states: seq<Queue>, events: seq<Event>, f: FlowId, g: FlowId, c: nat, a: nat, b: nat)
    requires Run(states, events) && a < b < |states| && f != g
    requires events[a].Send? && events[a].flow == f && f in states[a+1].time
    requires forall i :: a < i < b ==> events[i] != FlowInit(g)
    requires forall i :: a < i <= b ==> f in states[i].queued
    requires OthersNotBehind(states[a], f, c) && c <= states[a+1].time[f]
    ensures var n := CompletedOf(states, events, g, a + 1, b);
      n > 0 ==> c + states[0].weight * (n - 1) <= states[a+1].time[f]
  {
    hide Inv, Enabled, Step;
    RunStep(states, events, a);
    RunKeepsInv(states, events, b);
    LinesUp(states[a], f, events[a].len);
    WaitsFirst(states[a], f, events[a].len, c, g);
    WaitsRun(states, events, f, states[a+1].time[f], c, g, a + 1, b);
  }

  lemma WaitsFirst(q: Queue, f: FlowId, len: nat, c: nat, g: FlowId)
    requires Inv(q) && Enabled(q, Send(f, len)) && OthersNotBehind(q, f, c)
    requires var q' := Step(q, Send(f, len)); f in q'.queued && f in q'.time && c <= q'.time[f]
    ensures var q' := Step(q, Send(f, len)); Waits(q', f, q'.time[f], c, g, 0)
  {
    var q' := Step(q, Send(f, len));
    LinesUp(q, f, len);
    assert forall h :: Competes(q', h) && h != f ==> Competes(q, h);
  }

  /** A flow that comes back, and is not ahead of any active flow, waits for at most one packet of every
      other flow, however many flows join or leave and however often the code rebases its clock. */
  lemma {:induction false} ComebackWaits(states: seq<Queue>, events: seq<Event>, f: FlowId, g: FlowId, a: nat, b: nat)
    requires Run(states, events) && a < b < |states| && f != g
    requires events[a].Send? && events[a].flow == f && f in states[a].time
    requires forall i :: a < i < b ==> events[i] != FlowInit(g)
    requires forall i :: a < i <= b ==> f in states[i].queued
    requires OthersNotBehind(states[a], f, states[a].time[f])
    ensures CompletedOf(states, events, g, a + 1, b) <= 1
  {
    hide Inv, Enabled, Step;
    RunStep(states, events, a);
    LinesUp(states[a], f, events[a].len);
    WaitPerFlow(states, events, f, g, states[a+1].time[f], a, b);
    RunKeepsInv(states, events, a);
    assert states[0].weight > 0 by { WeightPositive(states[a]); }
    AtMostOne(states[0].weight, CompletedOf(states, events, g, a + 1, b));
  }

  lemma AtMostOne(w: nat, n: nat)
    requires w > 0 && (n > 0 ==> w * (n - 1) <= 0)
    ensures n <= 1
  {
  }

  lemma WeightPositive(q: Queue)
    requires Inv(q)
    ensures q.weight > 0
  {
  }

  /** Until a new flow submits its first packet it is not ahead of anybody. */
  lemma {:induction false} NewFlowNotAhead(states: seq<Queue>, events: seq<Event>, f: FlowId, i: nat, a: nat)
    requires Run(states, events) && i < a < |states| && events[i] == FlowInit(f)
    requires forall k :: i < k < a ==> events[k] != FlowFree(f) && !(events[k].Send? && events[k].flow == f)
    ensures f in states[a].time && !Active(states[a], f) && OthersNotBehind(states[a], f, states[a].time[f])
  {
    RunKeepsInv(states, events, a);
    NewFlowIdle(states, events, f, i, a);
  }

  /** The flow has sent nothing yet. */
  predicate Unused(q: Queue, f: FlowId) {
    f in q.time && !Active(q, f) && q.time[f] <= q.floor
  }

  lemma UnusedStep(q: Queue, e: Event, f: FlowId)
    requires Inv(q) && Enabled(q, e)
    requires e == FlowInit(f) || (Unused(q, f) && e != FlowFree(f) && !(e.Send? && e.flow == f))
    ensures Unused(Step(q, e), f)
  {
    if e.Done? {
      FloorAfterDoneInRange(q);
    }
  }

  lemma {:induction false} NewFlowIdle(states: seq<Queue>, events: seq<Event>, f: FlowId, i: nat, a: nat)
    requires Run(states, events) && i < a < |states| && events[i] == FlowInit(f)
    requires forall k :: i < k < a ==> events[k] != FlowFree(f) && !(events[k].Send? && events[k].flow == f)
    ensures Unused(states[a], f)
  {
    hide Inv, Enabled, Step, Unused;
    RunStep(states, events, a - 1);
    if a > i + 1 {
      NewFlowIdle(states, events, f, i, a - 1);
    }
    UnusedStep(states[a-1], events[a-1], f);
  }

  /** The first packet of a new flow waits for at most one packet of every other flow. */
  lemma {:induction false} FirstPacketWaits(states: seq<Queue>, events: seq<Event>, f: FlowId, g: FlowId,
                                            i: nat, a: nat, b: nat)
    requires Run(states, events) && i < a < b < |states| && f != g
    requires events[i] == FlowInit(f) && events[a].Send? && events[a].flow == f
    requires forall k :: i < k < a ==> events[k] != FlowFree(f) && !(events[k].Send? && events[k].flow == f)
    requires forall k :: a < k < b ==> events[k] != FlowInit(g)
    requires forall k :: a < k <= b ==> f in states[k].queued
    ensures CompletedOf(states, events, g, a + 1, b) <= 1
  {
    hide Run;
    NewFlowNotAhead(states, events, f, i, a);
    ComebackWaits(states, events, f, g, a, b);
  }

  // ---- A flow that sends one packet after the other ----------------------------------------------------

  /** After its packet a flow keeps its turn until the schedule job runs. */
  predicate MayResubmit(q: Queue, f: FlowId, t: nat) {
    f in q.time && q.time[f] == t && q.previous == Some(f)
  }

  lemma ResubmitStep(q: Queue, e: Event, f: FlowId, t: nat)
    requires Inv(q) && Enabled(q, e) && MayResubmit(q, f, t) && !e.Job? && e != FlowFree(f)
    ensures if e.Send? && e.flow == f then f in Step(q, e).queued && Step(q, e).time[f] == t
            else MayResubmit(Step(q, e), f, t)
  {
  }

  /** A flow that submits its next packet before the schedule job runs lines up at the time up to which it
      has been served, however far the others are ahead. */
  lemma {:induction false} KeepsItsTurn(states: seq<Queue>, events: seq<Event>, f: FlowId, a: nat, b: nat)
    requires Run(states, events) && a < b < |events|
    requires states[a].sending == Some(f) && f in states[a].time && events[a].Done?
    requires events[b].Send? && events[b].flow == f
    requires forall i :: a < i < b ==>
      !events[i].Job? && events[i] != FlowFree(f) && !(events[i].Send? && events[i].flow == f)
    ensures f in states[b+1].queued && f in states[b+1].time
    ensures states[b+1].time[f] == states[a].time[f] + states[a].weight + states[a].sendingLen
  {
    hide Inv, Enabled, Step;
    RunStep(states, events, b);
    WaitsForTurn(states, events, f, a, b);
    ResubmitStep(states[b], events[b], f, states[a].time[f] + states[a].weight + states[a].sendingLen);
    RunKeepsInv(states, events, b + 1);
    QueuedHasTime(states[b+1], f);
  }

  lemma QueuedHasTime(q: Queue, f: FlowId)
    requires Inv(q) && f in q.queued
    ensures f in q.time
  {
  }

  lemma DoneLetsResubmit(q: Queue, f: FlowId)
    requires Inv(q) && Enabled(q, Done) && q.sending == Some(f)
    ensures f in q.time && MayResubmit(Step(q, Done), f, q.time[f] + q.weight + q.sendingLen)
  {
  }

  lemma {:induction false} WaitsForTurn(states: seq<Queue>, events: seq<Event>, f: FlowId, a: nat, b: nat)
    requires Run(states, events) && a < b < |states|
    requires states[a].sending == Some(f) && f in states[a].time && events[a].Done?
    requires forall i :: a < i < b ==>
      !events[i].Job? && events[i] != FlowFree(f) && !(events[i].Send? && events[i].flow == f)
    ensures MayResubmit(states[b], f, states[a].time[f] + states[a].weight + states[a].sendingLen)
  {
    hide Inv, Enabled, Step, MayResubmit;
    RunStep(states, events, b - 1);
    if b == a + 1 {
      DoneLetsResubmit(states[a], f);
    } else {
      WaitsForTurn(states, events, f, a, b - 1);
      ResubmitStep(states[b-1], events[b-1], f, states[a].time[f] + states[a].weight + states[a].sendingLen);
    }
  }

  // ---- The beginning and the end ------------------------------------------------------------------------

  /** The first packet of all is sent at once. */
  lemma FirstOfAll(weight: nat, mtu: nat, f: FlowId, len: nat)
    requires 0 < weight && weight + mtu <= MAX_TIME && len <= mtu
    ensures var q := Initial(weight, mtu);
      && Enabled(q, FlowInit(f)) && Inv(Step(q, FlowInit(f))) && Enabled(Step(q, FlowInit(f)), Send(f, len))
      && Step(Step(q, FlowInit(f)), Send(f, len)).sending == Some(f)
  {
    var q := Initial(weight, mtu);
    StepKeepsInv(q, FlowInit(f));
    IdleQueueSends(Step(q, FlowInit(f)), f, len);
  }

  /** Once the queue is to be freed every flow may go, even the one whose packet is being sent. */
  lemma FreeingLetsGo(q: Queue, f: FlowId)
    requires Inv(q) && f in q.time
    ensures Enabled(Step(q, PrepareFree), FlowFree(f)) && f !in Step(Step(q, PrepareFree), FlowFree(f)).time
  {
    StepKeepsInv(q, PrepareFree);
  }
}
