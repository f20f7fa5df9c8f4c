/**
 What the fair queue guarantees over whole runs: flows that stay backlogged together
 get the same service up to a constant, and no queued packet waits for more than a
 bounded number of other packets.
 */
module Fairness {
  import opened Prelude
  import opened FairQueueSpec

  // ---- Runs --------------------------------------------------------------------------

  ghost predicate Run(states: seq<Queue>, events: seq<Event>) {
    && |states| == |events| + 1
    && Inv(states[0])
    && forall i :: 0 <= i < |events| ==>
         Inv(states[i]) && Enabled(states[i], events[i]) && states[i+1] == Step(states[i], events[i])
  }

  lemma RunStep(states: seq<Queue>, events: seq<Event>, i: nat)
    requires Run(states, events) && i < |events|
    ensures Inv(states[i]) && Enabled(states[i], events[i]) && states[i+1] == Step(states[i], events[i])
  {
  }

  lemma {:induction false} RunKeepsInv(states: seq<Queue>, events: seq<Event>, i: nat)
    requires Run(states, events) && i < |states|
    ensures Inv(states[i])
    ensures states[i].weight == states[0].weight && states[i].mtu == states[0].mtu
  {
    if i > 0 {
      RunKeepsInv(states, events, i - 1);
      RunStep(states, events, i - 1);
      StepKeepsInv(states[i-1], events[i-1]);
    }
  }

  /** Flow f is backlogged throughout states a..b. */
  ghost predicate Backlogged(states: seq<Queue>, f: FlowId, a: nat, b: nat)
    requires a <= b < |states|
  {
    forall i :: a <= i <= b ==> f in states[i].time && Active(states[i], f)
  }

  /** The weight with which flow f is charged by the event. */
  function Charged(q: Queue, e: Event, f: FlowId): nat {
    if e.Done? && q.sending == Some(f) then q.weight + q.sendingLen else 0
  }

  /** Total weight of the packets of f completed by events a..b-1. */
  function Service(states: seq<Queue>, events: seq<Event>, f: FlowId, a: nat, b: nat): nat
    requires a <= b <= |events| < |states|
    decreases b
  {
    if a == b then 0
    else Service(states, events, f, a, b - 1) + Charged(states[b-1], events[b-1], f)
  }

  predicate ServedWithin(states: seq<Queue>, events: seq<Event>, f: FlowId, a: nat, b: nat)
    requires a <= b <= |events| < |states|
  {
    exists i :: a <= i < b && Completes(states[i], events[i], f)
  }

  predicate Completes(q: Queue, e: Event, f: FlowId) {
    e.Done? && q.sending == Some(f)
  }

  // ---- Virtual time is service received ------------------------------------------------

  /** While a flow stays backlogged, its virtual time moves only by what it is charged. */
  lemma StepChargesBacklogged(q: Queue, e: Event, f: FlowId)
    requires Inv(q) && Enabled(q, e) && f in q.time && Active(q, f)
    requires f in Step(q, e).time && Active(Step(q, e), f)
    ensures Step(q, e).time[f] == q.time[f] + Charged(q, e, f)
  {
  }

  lemma {:induction false} TimeIsService(states: seq<Queue>, events: seq<Event>, f: FlowId, a: nat, b: nat)
    requires Run(states, events) && a <= b < |states| && Backlogged(states, f, a, b)
    ensures states[b].time[f] == states[a].time[f] + Service(states, events, f, a, b)
    decreases b
  {
    hide Inv, Step, Enabled;
    if a < b {
      TimeIsService(states, events, f, a, b - 1);
      RunStep(states, events, b - 1);
      StepChargesBacklogged(states[b-1], events[b-1], f);
    }
  }

  // ---- Fairness --------------------------------------------------------------------------

  /** A flow that has been served is at most one packet ahead of any flow that was
      backlogged all along. */
  lemma {:induction false} LeadBounded(states: seq<Queue>, events: seq<Event>, f: FlowId, g: FlowId, a: nat, b: nat)
    requires Run(states, events) && a <= b < |states| && f != g
    requires Backlogged(states, f, a, b) && Backlogged(states, g, a, b)
    requires ServedWithin(states, events, f, a, b)
    ensures states[b].time[f] <= states[b].time[g] + states[0].weight + states[0].mtu
    decreases b
  {
    var q, e := states[b-1], events[b-1];
    RunKeepsInv(states, events, b - 1);
    RunStep(states, events, b - 1);
    StepChargesBacklogged(q, e, f);
    StepChargesBacklogged(q, e, g);
    if Completes(q, e, f) {
      // f was sending, so g was waiting in the queue, at or after f
      assert g in q.queued;
    } else {
      LeadBounded(states, events, f, g, a, b - 1);
    }
  }

  /** Fairness.  Once two continuously backlogged flows have both been served, their
      virtual times stay within one maximal packet of each other, and over any later
      interval the service they receive differs by at most two maximal packets, whatever
      happens to other flows and however often the code rebases its clock. */
  lemma {:induction false} Fair(states: seq<Queue>, events: seq<Event>, f: FlowId, g: FlowId,
             a: nat, m: nat, i: nat, j: nat)
    requires Run(states, events) && a <= m <= i <= j < |states| && f != g
    requires Backlogged(states, f, a, j) && Backlogged(states, g, a, j)
    requires ServedWithin(states, events, f, a, m) && ServedWithin(states, events, g, a, m)
    ensures var bound := states[0].weight + states[0].mtu;
      && -bound <= states[j].time[f] - states[j].time[g] <= bound
      && -2 * bound <= Service(states, events, f, i, j) - Service(states, events, g, i, j) <= 2 * bound
  {
    LeadBounded(states, events, f, g, a, i);
    LeadBounded(states, events, g, f, a, i);
    LeadBounded(states, events, f, g, a, j);
    LeadBounded(states, events, g, f, a, j);
    TimeIsService(states, events, f, i, j);
    TimeIsService(states, events, g, i, j);
  }

  // ---- No starvation -----------------------------------------------------------------------

  /** The time of a flow as the code sees it, before subtracting the floor: an idle flow
      that fell behind a rebasing counts as being at the floor. */
  function EffectiveTime(q: Queue, f: FlowId): nat
    requires f in q.time
  {
    Max(q.time[f], q.floor)
  }

  /** How many packets of f can still go before a packet queued at time t. */
  function Ahead(q: Queue, t: nat, f: FlowId): nat
    requires f in q.time
  {
    Max(0, t - EffectiveTime(q, f) + 1)
  }

  ghost function AheadSum(q: Queue, t: nat, flows: set<FlowId>): nat
    requires flows <= q.time.Keys
  {
    if flows == {} then 0
    else
      var f :| f in flows;
      Ahead(q, t, f) + AheadSum(q, t, flows - {f})
  }

  lemma {:induction false} AheadSumSplit(q: Queue, t: nat, flows: set<FlowId>, f: FlowId)
    requires flows <= q.time.Keys && f in flows
    ensures AheadSum(q, t, flows) == Ahead(q, t, f) + AheadSum(q, t, flows - {f})
    decreases |flows|
  {
    var g :| g in flows && AheadSum(q, t, flows) == Ahead(q, t, g) + AheadSum(q, t, flows - {g});
    if g != f {
      AheadSumSplit(q, t, flows - {g}, f);
      AheadSumSplit(q, t, flows - {f}, g);
      assert flows - {g} - {f} == flows - {f} - {g};
    }
  }

  lemma {:induction false} AheadSumMonotone(q: Queue, t: nat, q': Queue, t': nat, flows: set<FlowId>)
    requires flows <= q.time.Keys && flows <= q'.time.Keys
    requires forall f :: f in flows ==> Ahead(q', t', f) <= Ahead(q, t, f)
    ensures AheadSum(q', t', flows) <= AheadSum(q, t, flows)
    decreases |flows|
  {
    if flows != {} {
      var f :| f in flows;
      AheadSumSplit(q, t, flows, f);
      AheadSumSplit(q', t', flows, f);
      AheadSumMonotone(q, t, q', t', flows - {f});
    }
  }

  /** Upper bound on the packets that can be completed before the one queued by g. */
  ghost function WaitBound(q: Queue, g: FlowId): nat
    requires g in q.time
  {
    AheadSum(q, q.time[g], q.time.Keys - {g})
  }

  lemma WaitBoundDone(q: Queue, g: FlowId)
    requires Inv(q) && Enabled(q, Done) && g in q.queued
    ensures g in Step(q, Done).time && WaitBound(Step(q, Done), g) + 1 <= WaitBound(q, g)
  {
    var q', f := Step(q, Done), q.sending.value;
    assert Active(q, g);
    FloorAfterDoneInRange(q);
    var t, others := q.time[g], q.time.Keys - {g};
    assert q'.time.Keys - {g} == others;
    AheadSumSplit(q, t, others, f);
    AheadSumSplit(q', t, others, f);
    AheadSumMonotone(q, t, q', t, others - {f});
  }

  /** One step with g queued: the bound drops with every completed packet and never rises,
      neither when other flows enqueue or disappear nor when the clock is rebased. */
  lemma WaitBoundStep(q: Queue, e: Event, g: FlowId)
    requires Inv(q) && Enabled(q, e) && !e.FlowInit?
    requires g in q.queued && g in Step(q, e).queued
    ensures g in Step(q, e).time
    ensures WaitBound(Step(q, e), g) + (if e.Done? then 1 else 0) <= WaitBound(q, g)
  {
    var q', t, others := Step(q, e), q.time[g], q.time.Keys - {g};
    match e {
      case FlowFree(f) =>
        AheadSumSplit(q, t, others, f);
        assert q'.time.Keys - {g} == others - {f};
        AheadSumMonotone(q, t, q', t, others - {f});
      case Done => WaitBoundDone(q, g);
      case Send(f, _) =>
        assert q'.time.Keys - {g} == others;
        AheadSumMonotone(q, t, q', t, others);
      case Job => AheadSumMonotone(q, t, q', t, others);
      case PrepareFree => AheadSumMonotone(q, t, q', t, others);
    }
  }

  function Completions(events: seq<Event>, a: nat, b: nat): nat
    requires a <= b <= |events|
    decreases b
  {
    if a == b then 0 else Completions(events, a, b - 1) + (if events[b-1].Done? then 1 else 0)
  }

  lemma {:induction false} WaitBoundRun(states: seq<Queue>, events: seq<Event>, g: FlowId, a: nat, b: nat)
    requires Run(states, events) && a <= b < |states|
    requires forall i :: a <= i < b ==> !events[i].FlowInit?
    requires forall i :: a <= i <= b ==> g in states[i].queued && g in states[i].time
    ensures Completions(events, a, b) + WaitBound(states[b], g) <= WaitBound(states[a], g)
    decreases b
  {
    if a < b {
      WaitBoundRun(states, events, g, a, b - 1);
      RunStep(states, events, b - 1);
      WaitBoundStep(states[b-1], events[b-1], g);
    }
  }

  /** No starvation.  As long as no flow is added, a packet that is still waiting at state b
      has seen at most WaitBound(states[a], g) packets completed since it was waiting at state a;
      and while it waits the queue always has its next step enabled. */
  lemma {:induction false} NoStarvation(states: seq<Queue>, events: seq<Event>, g: FlowId, a: nat, b: nat)
    requires Run(states, events) && a <= b < |states|
    requires forall i :: a <= i < b ==> !events[i].FlowInit?
    requires forall i :: a <= i <= b ==> g in states[i].queued
    ensures g in states[a].time && Completions(events, a, b) <= WaitBound(states[a], g)
    ensures !states[b].freeing ==> Enabled(states[b], Done) || Enabled(states[b], Job)
  {
    forall i | a <= i <= b
      ensures g in states[i].time
    {
      RunKeepsInv(states, events, i);
    }
    RunKeepsInv(states, events, b);
    WaitBoundRun(states, events, g, a, b);
  }
}
