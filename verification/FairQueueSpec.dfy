/**
 Reference fair queue: the scheduling discipline of PacketPassFairQueue over
 unbounded virtual times.

 The C code keeps 64-bit times and, on overflow, subtracts a common amount from
 every flow.  The reference never subtracts.  It only remembers in `floor` how much
 the code has subtracted so far, because that is what the code's clock falls back to
 when the queue is completely idle.  FairQueue.dfy proves that the 64-bit code follows
 this reference step by step; Fairness.dfy proves what the discipline guarantees.
 */
module FairQueueSpec {
  import opened Prelude

  const MAX_TIME: nat := 0xFFFF_FFFF_FFFF_FFFF

  // A flow is identified by its address, which the tree uses to break ties.
  type FlowId = nat

  datatype Queue = Queue(
    weight: nat,                  // packet_weight
    mtu: nat,                     // MTU of the output
    floor: nat,                   // total time removed by rebasings
    time: map<FlowId, nat>,       // virtual time of every flow
    queued: map<FlowId, nat>,     // queued flows and the length of their packets
    sending: Option<FlowId>,
    sendingLen: nat,
    previous: Option<FlowId>,
    jobSet: bool,                 // schedule_job is pending
    freeing: bool)

  datatype Event =
    | FlowInit(flow: FlowId)
    | FlowFree(flow: FlowId)
    | Send(flow: FlowId, len: nat)  // a flow submits a packet
    | Done                          // the output finished the packet being sent
    | Job                           // the schedule job runs
    | PrepareFree

  // ---- The order of the queue ------------------------------------------------------

  predicate Before(q: Queue, f: FlowId, g: FlowId)
    requires f in q.time && g in q.time
  {
    q.time[f] < q.time[g] || (q.time[f] == q.time[g] && f < g)
  }

  ghost predicate IsFirst(q: Queue, f: FlowId)
    requires q.queued.Keys <= q.time.Keys
  {
    f in q.queued && forall g :: g in q.queued && g != f ==> Before(q, f, g)
  }

  ghost function First(q: Queue): (f: FlowId)
    requires q.queued.Keys <= q.time.Keys && q.queued != map[]
    ensures IsFirst(q, f)
  {
    FirstExists(q);
    var f :| IsFirst(q, f);
    f
  }

  lemma FirstExists(q: Queue)
    requires q.queued.Keys <= q.time.Keys && q.queued != map[]
    ensures exists f :: IsFirst(q, f)
  {
    var f0 :| f0 in q.queued;
    var f := LeastOf(q, q.queued.Keys, f0);
    assert IsFirst(q, f);
  }

  lemma {:induction false} LeastOf(q: Queue, s: set<FlowId>, f0: FlowId) returns (f: FlowId)
    requires s <= q.time.Keys && f0 in s
    ensures f in s && forall g :: g in s && g != f ==> Before(q, f, g)
    decreases |s|
  {
    var rest := s - {f0};
    if rest == {} {
      assert s == {f0};
      return f0;
    }
    var g0 :| g0 in rest;
    f := LeastOf(q, rest, g0);
    assert forall g :: g in s ==> g == f0 || g in rest;
    if Before(q, f0, f) {
      f := f0;
    }
  }

  lemma FirstUnique(q: Queue, f: FlowId)
    requires q.queued.Keys <= q.time.Keys && q.queued != map[] && IsFirst(q, f)
    ensures f == First(q)
  {
  }

  // ---- Steps ---------------------------------------------------------------------

  /** The current virtual time (get_current_time). */
  ghost function Clock(q: Queue): nat
    requires Shape(q)
  {
    if q.sending.Some? then q.time[q.sending.value]
    else if q.queued == map[] then
      if q.previous.Some? then q.time[q.previous.value] else q.floor
    else if q.previous.Some? then
      Min(q.time[q.previous.value], q.time[First(q)])
    else
      q.time[First(q)]
  }

  /** The first queued flow, if any, becomes the sending one. */
  ghost function Schedule(q: Queue): Queue
    requires q.queued.Keys <= q.time.Keys
  {
    if q.queued == map[] then q
    else
      var f := First(q);
      q.(queued := q.queued - {f}, sending := Some(f), sendingLen := q.queued[f])
  }

  /** The virtual time that becomes the code's zero once the sending flow has been charged. */
  ghost function FloorAfterDone(q: Queue): nat
    requires Inv(q) && q.sending.Some?
  {
    var t := q.time[q.sending.value];
    if q.weight + q.sendingLen <= MAX_TIME - (t - q.floor) then q.floor
    else if q.queued == map[] then t
    else q.time[First(q)]
  }

  predicate Enabled(q: Queue, e: Event) {
    match e
    case FlowInit(f) => !q.freeing && f !in q.time
    case FlowFree(f) => f in q.time && (q.freeing || q.sending != Some(f))
    case Send(f, len) => !q.freeing && f in q.time && f !in q.queued && q.sending != Some(f) && len <= q.mtu
    case Done => !q.freeing && q.sending.Some?
    case Job => !q.freeing && q.jobSet
    case PrepareFree => true
  }

  /** A submitted packet enters the queue: a flow that was just served keeps its time,
      any other flow is raised to the clock. */
  ghost function Enqueue(q: Queue, f: FlowId, len: nat): Queue
    requires Shape(q) && f in q.time
  {
    if q.previous == Some(f) then
      q.(previous := None, queued := q.queued[f := len])
    else
      q.(time := q.time[f := Max(q.time[f], Clock(q))], queued := q.queued[f := len])
  }

  ghost function Charge(q: Queue): Queue
    requires Inv(q) && q.sending.Some?
  {
    var f := q.sending.value;
    q.(floor := FloorAfterDone(q),
       time := q.time[f := q.time[f] + q.weight + q.sendingLen],
       sending := None, previous := Some(f), jobSet := true)
  }

  ghost function Drop(q: Queue, f: FlowId): Queue {
    q.(time := q.time - {f},
       queued := q.queued - {f},
       sending := if q.sending == Some(f) then None else q.sending,
       previous := if q.previous == Some(f) then None else q.previous)
  }

  ghost function Step(q: Queue, e: Event): Queue
    requires Inv(q) && Enabled(q, e)
  {
    match e
    case FlowInit(f) => q.(time := q.time[f := 0])
    case FlowFree(f) => Drop(q, f)
    case Send(f, len) =>
      var q1 := Enqueue(q, f, len);
      if q.sending.None? && !q.jobSet then Schedule(q1) else q1
    case Done => Charge(q)
    case Job => Schedule(q.(jobSet := false, previous := None))
    case PrepareFree => q.(freeing := true)
  }

  // ---- Invariant -----------------------------------------------------------------

  /** Flows that take part in the virtual-time competition: queued, being sent, or just
      served and still entitled to resubmit at their own time. */
  predicate Active(q: Queue, f: FlowId) {
    f in q.queued || q.sending == Some(f) || q.previous == Some(f)
  }

  predicate Shape(q: Queue) {
    && q.queued.Keys <= q.time.Keys
    && (q.sending.Some? ==>
          && q.sending.value in q.time && q.sending.value !in q.queued
          && q.previous.None? && !q.jobSet && q.sendingLen <= q.mtu)
    && (q.previous.Some? ==>
          q.previous.value in q.time && q.previous.value !in q.queued && q.jobSet)
    && 0 < q.weight
    && q.weight + q.mtu <= MAX_TIME
    && forall f :: f in q.queued ==> q.queued[f] <= q.mtu
  }

  predicate Inv(q: Queue) {
    && Shape(q)
    // nothing waits without a wake-up
    && (q.queued != map[] && !q.freeing ==> q.sending.Some? || q.jobSet)
    // the sending flow is a minimum of the queue
    && (q.sending.Some? ==> forall f :: f in q.queued ==> q.time[q.sending.value] <= q.time[f])
    // active flows are never behind what has been rebased away, nobody is too far ahead
    && (forall f :: f in q.time && Active(q, f) ==> q.floor <= q.time[f])
    && (forall f :: f in q.time ==> q.time[f] <= q.floor + MAX_TIME)
  }

  function Initial(weight: nat, mtu: nat): (q: Queue)
    requires 0 < weight && weight + mtu <= MAX_TIME
    ensures Inv(q)
  {
    Queue(weight, mtu, 0, map[], map[], None, 0, None, false, false)
  }

  // ---- Preservation ----------------------------------------------------------------

  /** The clock never lags behind the rebased time, never outruns it by more than a word,
      and never outruns a queued flow. */
  lemma ClockInRange(q: Queue)
    requires Inv(q)
    ensures q.floor <= Clock(q) <= q.floor + MAX_TIME
    ensures forall f :: f in q.queued ==> Clock(q) <= q.time[f]
  {
    assert q.sending.Some? ==> Active(q, q.sending.value);
    assert q.previous.Some? ==> Active(q, q.previous.value);
    if q.queued != map[] {
      assert Active(q, First(q));
    }
  }

  lemma ScheduleKeepsInv(q: Queue)
    requires Shape(q) && q.sending.None? && q.previous.None? && !q.jobSet && !q.freeing
    requires forall f :: f in q.queued ==> q.floor <= q.time[f]
    requires forall f :: f in q.time ==> q.time[f] <= q.floor + MAX_TIME
    ensures Inv(Schedule(q))
  {
    if q.queued != map[] {
      var f, q' := First(q), Schedule(q);
      assert q'.queued.Keys == q.queued.Keys - {f};
      forall g | g in q'.queued
        ensures q'.time[f] <= q'.time[g]
      {
        assert Before(q, f, g);
      }
    }
  }

  /** Where the new zero lies after a packet has been charged: at or below every queued
      flow and the charged flow, and close enough to all of them for one word. */
  lemma FloorAfterDoneInRange(q: Queue)
    requires Inv(q) && q.sending.Some?
    ensures var f, floor' := q.sending.value, FloorAfterDone(q);
      var charged := q.time[f] + q.weight + q.sendingLen;
      && q.floor <= floor' <= charged <= floor' + MAX_TIME
      && (forall g :: g in q.queued ==> floor' <= q.time[g])
      && (floor' != q.floor ==> q.time[f] <= floor')
  {
    assert Active(q, q.sending.value);
    assert forall g :: g in q.queued ==> Active(q, g);
    if q.queued != map[] {
      forall g | g in q.queued
        ensures q.time[First(q)] <= q.time[g]
      {
        assert g != First(q) ==> Before(q, First(q), g);
      }
    }
  }

  lemma EnqueueKeeps(q: Queue, f: FlowId, len: nat)
    requires Inv(q) && Enabled(q, Send(f, len))
    ensures var q1 := Enqueue(q, f, len);
      && Shape(q1)
      && (q1.sending.Some? ==> forall g :: g in q1.queued ==> q1.time[q1.sending.value] <= q1.time[g])
      && (forall g :: g in q1.time && Active(q1, g) ==> q1.floor <= q1.time[g])
      && (forall g :: g in q1.time ==> q1.time[g] <= q1.floor + MAX_TIME)
  {
    ClockInRange(q);
    var q1 := Enqueue(q, f, len);
    assert q1.queued.Keys == q.queued.Keys + {f};
    assert q.previous == Some(f) ==> Active(q, f);
    assert forall g :: g in q1.time && Active(q1, g) && g != f ==> Active(q, g);
  }

  /** Every step keeps the invariant. */
  lemma FlowsKeepInv(q: Queue, e: Event)
    requires Inv(q) && Enabled(q, e) && (e.FlowInit? || e.FlowFree? || e.PrepareFree?)
    ensures Inv(Step(q, e))
  {
    var q' := Step(q, e);
    if e.FlowInit? {
      assert !Active(q', e.flow);
    } else if e.FlowFree? {
      assert q'.queued.Keys == q.queued.Keys - {e.flow};
      assert forall g :: g in q'.time && Active(q', g) ==> Active(q, g);
    }
  }

  lemma SendKeepsInv(q: Queue, f: FlowId, len: nat)
    requires Inv(q) && Enabled(q, Send(f, len))
    ensures Inv(Step(q, Send(f, len)))
  {
    EnqueueKeeps(q, f, len);
    var q1 := Enqueue(q, f, len);
    if q.sending.None? && !q.jobSet {
      assert forall g :: g in q1.queued ==> Active(q1, g);
      ScheduleKeepsInv(q1);
    }
  }

  lemma DoneKeepsInv(q: Queue)
    requires Inv(q) && Enabled(q, Done)
    ensures Inv(Step(q, Done))
  {
    var q' := Step(q, Done);
    FloorAfterDoneInRange(q);
    assert forall g :: g in q'.time && Active(q', g) ==> Active(q, g);
  }

  lemma JobKeepsInv(q: Queue)
    requires Inv(q) && Enabled(q, Job)
    ensures Inv(Step(q, Job))
  {
    assert forall g :: g in q.queued ==> Active(q, g);
    ScheduleKeepsInv(q.(jobSet := false, previous := None));
  }

  lemma StepKeepsInv(q: Queue, e: Event)
    requires Inv(q) && Enabled(q, e)
    ensures Inv(Step(q, e))
  {
    hide Inv, Enabled, Step;
    match e
    case FlowInit(f) => FlowsKeepInv(q, e);
    case FlowFree(f) => FlowsKeepInv(q, e);
    case Send(f, len) => SendKeepsInv(q, f, len);
    case Done => DoneKeepsInv(q);
    case Job => JobKeepsInv(q);
    case PrepareFree => FlowsKeepInv(q, e);
  }
}
