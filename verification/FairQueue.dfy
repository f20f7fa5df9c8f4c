/**
 PacketPassFairQueue as the C code runs it: 64-bit times that wrap, a rebasing loop over
 all flows, and a tree ordered by keys that the rebasing changes in place.

 The ghost field `model` is the reference queue of FairQueueSpec.dfy.  Every method moves
 it by exactly one reference step, and Valid() relates the two: the word stored for a flow
 is its unbounded virtual time minus everything that was rebased away, and zero once the
 flow has fallen behind that.
 */
module FairQueueImpl {
  import opened Prelude
  import opened FairQueueSpec

  const WORD: nat := MAX_TIME + 1

  type Times = map<FlowId, nat>

  /** Unsigned 64-bit subtraction. */
  function Sub64(a: nat, b: nat): (r: nat)
    requires a <= MAX_TIME && b <= MAX_TIME
    ensures r <= MAX_TIME && r == (a - b) % WORD
  {
    if b <= a then a - b else a + WORD - b
  }

  /** Unsigned 64-bit addition. */
  function Add64(a: nat, b: nat): (r: nat)
    requires a <= MAX_TIME && b <= MAX_TIME
    ensures r <= MAX_TIME && r == (a + b) % WORD
  {
    if a + b <= MAX_TIME then a + b else a + b - WORD
  }

  // ---- The tree, as the sequence of its entries in order -----------------------------

  predicate Less(time: Times, f: FlowId, g: FlowId)
    requires f in time && g in time
  {
    time[f] < time[g] || (time[f] == time[g] && f < g)
  }

  predicate Sorted(time: Times, tree: seq<FlowId>) {
    && (forall i :: 0 <= i < |tree| ==> tree[i] in time)
    && forall i, j :: 0 <= i < j < |tree| ==> Less(time, tree[i], tree[j])
  }

  /** Insertion by comparing keys from the left; meaningful only while the tree is sorted. */
  function Insert(time: Times, tree: seq<FlowId>, f: FlowId): seq<FlowId>
    requires f in time && forall i :: 0 <= i < |tree| ==> tree[i] in time
  {
    if tree == [] || Less(time, f, tree[0]) then [f] + tree
    else [tree[0]] + Insert(time, tree[1..], f)
  }

  lemma {:induction false} InsertSorted(time: Times, tree: seq<FlowId>, f: FlowId)
    requires f in time && f !in Elems(tree) && Sorted(time, tree)
    ensures Sorted(time, Insert(time, tree, f))
    ensures Elems(Insert(time, tree, f)) == Elems(tree) + {f}
  {
    if tree != [] && !Less(time, f, tree[0]) {
      var r := Insert(time, tree[1..], f);
      InsertSorted(time, tree[1..], f);
      forall i | 0 <= i < |r|
        ensures r[i] in time && Less(time, tree[0], r[i])
      {
        ElemsAt(r, i);
        if r[i] != f {
          ElemsIn(tree[1..]);
          var k :| 0 <= k < |tree[1..]| && tree[1..][k] == r[i];
          assert tree[k + 1] == r[i];
        }
      }
    }
  }

  lemma {:induction false} RemoveSorted(time: Times, tree: seq<FlowId>, f: FlowId)
    requires Sorted(time, tree)
    ensures Sorted(time, Remove(tree, f))
    ensures Elems(Remove(tree, f)) == Elems(tree) - {f}
  {
    RemoveSound(tree, f);
    if tree != [] && tree[0] != f {
      var r := Remove(tree[1..], f);
      RemoveSorted(time, tree[1..], f);
      forall i | 0 <= i < |r|
        ensures r[i] in time && Less(time, tree[0], r[i])
      {
        ElemsAt(r, i);
        ElemsIn(tree[1..]);
        var k :| 0 <= k < |tree[1..]| && tree[1..][k] == r[i];
        assert tree[k + 1] == r[i];
      }
    }
  }

  // ---- Agreement with the reference --------------------------------------------------

  /** The word that stands for an unbounded time. */
  function Rebased(t: nat, floor: nat): nat {
    if t >= floor then t - floor else 0
  }

  ghost predicate TimesAgree(time: Times, q: Queue) {
    time.Keys == q.time.Keys && forall f :: f in time ==> time[f] == Rebased(q.time[f], q.floor)
  }

  ghost predicate TreeAgrees(tree: seq<FlowId>, time: Times, queued: map<FlowId, nat>) {
    Sorted(time, tree) && Elems(tree) == queued.Keys
  }

  ghost predicate ListAgrees(list: seq<FlowId>, time: Times) {
    Distinct(list) && Elems(list) == time.Keys
  }

  ghost predicate Agrees(list: seq<FlowId>, time: Times, tree: seq<FlowId>, q: Queue) {
    TimesAgree(time, q) && TreeAgrees(tree, time, q.queued) && ListAgrees(list, time)
  }

  /** The tree's first entry is the flow that the reference schedules, because rebasing
      shifts all queued keys alike. */
  lemma TreeFirst(tree: seq<FlowId>, time: Times, q: Queue)
    requires q.queued.Keys <= q.time.Keys && TimesAgree(time, q) && TreeAgrees(tree, time, q.queued)
    requires forall f :: f in q.queued ==> q.floor <= q.time[f]
    ensures tree == [] <==> q.queued == map[]
    ensures tree != [] ==> tree[0] == First(q) && forall f :: f in q.queued ==> time[tree[0]] <= time[f]
  {
    if tree != [] {
      var first := tree[0];
      forall g | g in q.queued && g != first
        ensures Before(q, first, g)
      {
        ElemsIn(tree);
        var i :| 0 <= i < |tree| && tree[i] == g;
        assert Less(time, tree[0], tree[i]);
      }
      FirstUnique(q, first);
    }
  }

  lemma KeysAgree(list: seq<FlowId>, time: Times, tree: seq<FlowId>, q: Queue)
    requires Inv(q) && Agrees(list, time, tree, q)
    ensures time.Keys == q.time.Keys && Shape(q)
  {
  }

  lemma DropIs(q: Queue, f: FlowId)
    ensures var q' := Drop(q, f);
      q' == Queue(q.weight, q.mtu, q.floor, q'.time, q.queued - {f},
                  if q.sending == Some(f) then None else q.sending, q.sendingLen,
                  if q.previous == Some(f) then None else q.previous, q.jobSet, q.freeing)
  {
  }

  lemma QueuedAboveFloor(tree: seq<FlowId>, time: Times, q: Queue)
    requires Inv(q) && TimesAgree(time, q) && TreeAgrees(tree, time, q.queued)
    ensures q.queued.Keys <= q.time.Keys && forall f :: f in q.queued ==> q.floor <= q.time[f]
    ensures tree == [] <==> q.queued == map[]
  {
    assert forall f :: f in q.queued ==> Active(q, f);
    TreeFirst(tree, time, q);
  }

  lemma {:induction false} SortedElsewhere(time: Times, time': Times, tree: seq<FlowId>)
    requires Sorted(time, tree)
    requires forall f :: f in Elems(tree) ==> f in time && f in time' && time'[f] == time[f]
    ensures Sorted(time', tree)
  {
    forall i | 0 <= i < |tree|
      ensures tree[i] in Elems(tree)
    {
      ElemsAt(tree, i);
    }
  }

  lemma {:induction false} SortedShift(time: Times, time': Times, tree: seq<FlowId>, subtract: nat)
    requires Sorted(time, tree)
    requires forall f :: f in Elems(tree) ==> f in time && f in time' && time'[f] + subtract == time[f]
    ensures Sorted(time', tree)
  {
    forall i | 0 <= i < |tree|
      ensures tree[i] in Elems(tree)
    {
      ElemsAt(tree, i);
    }
  }

  lemma {:induction false} ListAppend(list: seq<FlowId>, f: FlowId)
    requires Distinct(list) && f !in Elems(list)
    ensures Distinct(list + [f]) && Elems(list + [f]) == Elems(list) + {f}
  {
    ElemsIn(list);
    ElemsAppend(list, f);
  }

  lemma InitAgrees(list: seq<FlowId>, time: Times, tree: seq<FlowId>, q: Queue, f: FlowId)
    requires Inv(q) && Enabled(q, FlowInit(f)) && Agrees(list, time, tree, q)
    ensures Agrees(list + [f], time[f := 0], tree, Step(q, FlowInit(f)))
  {
    ListAppend(list, f);
    SortedElsewhere(time, time[f := 0], tree);
  }

  lemma {:induction false} DropAgrees(list: seq<FlowId>, time: Times, tree: seq<FlowId>, q: Queue, f: FlowId)
    requires q.queued.Keys <= q.time.Keys && Agrees(list, time, tree, q)
    ensures Agrees(Remove(list, f), time - {f}, Remove(tree, f), Drop(q, f))
  {
    RemoveSound(list, f);
    RemoveSorted(time, tree, f);
    SortedElsewhere(time, time - {f}, Remove(tree, f));
  }

  lemma {:induction false} ScheduleAgrees(list: seq<FlowId>, time: Times, tree: seq<FlowId>, q: Queue)
    requires q.queued.Keys <= q.time.Keys && Agrees(list, time, tree, q)
    requires forall f :: f in q.queued ==> q.floor <= q.time[f]
    ensures tree != [] ==> Agrees(list, time, Remove(tree, tree[0]), Schedule(q))
    ensures tree == [] ==> Schedule(q) == q
  {
    TreeFirst(tree, time, q);
    if tree != [] {
      RemoveSorted(time, tree, tree[0]);
    }
  }

  lemma EnqueueTimes(time: Times, q: Queue, f: FlowId, len: nat, time': Times)
    requires Inv(q) && Enabled(q, Send(f, len)) && TimesAgree(time, q)
    requires time' == if q.previous == Some(f) then time else time[f := Max(time[f], Clock(q) - q.floor)]
    ensures TimesAgree(time', Enqueue(q, f, len))
  {
    ClockInRange(q);
    assert q.previous == Some(f) ==> Active(q, f);
  }

  lemma {:induction false} EnqueueTree(tree: seq<FlowId>, time: Times, queued: map<FlowId, nat>, f: FlowId, len: nat,
                                       time': Times)
    requires TreeAgrees(tree, time, queued) && queued.Keys <= time.Keys
    requires f in time && f !in queued
    requires time'.Keys == time.Keys && forall g :: g in time && g != f ==> time'[g] == time[g]
    ensures forall i :: 0 <= i < |tree| ==> tree[i] in time'
    ensures TreeAgrees(Insert(time', tree, f), time', queued[f := len])
  {
    SortedElsewhere(time, time', tree);
    InsertSorted(time', tree, f);
  }

  lemma EnterAboveFloor(q: Queue, f: FlowId, len: nat)
    requires Inv(q) && Enabled(q, Send(f, len))
    ensures var q1 := Enqueue(q, f, len);
      forall g :: g in q1.queued ==> g in q1.time && q1.floor <= q1.time[g]
  {
    EnqueueKeeps(q, f, len);
    var q1 := Enqueue(q, f, len);
    assert forall g :: g in q1.queued ==> Active(q1, g);
  }

  /** Joining the queue: what the raised word and the insertion into the tree amount to. */
  lemma {:induction false} EnterAgrees(list: seq<FlowId>, time: Times, tree: seq<FlowId>, q: Queue, f: FlowId,
                                       len: nat, now: nat)
    requires Inv(q) && Enabled(q, Send(f, len)) && Agrees(list, time, tree, q) && q.floor + now == Clock(q)
    ensures f in time
    ensures var time' := if q.previous == Some(f) then time else time[f := Max(time[f], now)];
      && f in time' && (forall i :: 0 <= i < |tree| ==> tree[i] in time')
      && Agrees(list, time', Insert(time', tree, f), Enqueue(q, f, len))
    ensures var q1 := Enqueue(q, f, len);
      forall g :: g in q1.queued ==> g in q1.time && q1.floor <= q1.time[g]
  {
    hide Sorted, Distinct, Clock;
    EnterAboveFloor(q, f, len);
    var time' := if q.previous == Some(f) then time else time[f := Max(time[f], now)];
    EnqueueTimes(time, q, f, len, time');
    EnqueueTree(tree, time, q.queued, f, len, time');
  }

  /** Charging the served flow: the words left by the rebasing loop and the final addition
      agree with the reference, and the old tree is still in order. */
  lemma ChargeAgrees(list: seq<FlowId>, time: Times, tree: seq<FlowId>, q: Queue,
                     subtract: nat, time': Times)
    requires Inv(q) && q.sending.Some? && Agrees(list, time, tree, q)
    requires FloorAfterDone(q) == q.floor + subtract
    requires time'.Keys == time.Keys
    requires forall f :: f in time && f != q.sending.value ==> time'[f] == Rebased(time[f], subtract)
    requires time'[q.sending.value] + subtract == time[q.sending.value] + q.weight + q.sendingLen
    ensures Agrees(list, time', tree, Charge(q))
    ensures forall f :: f in q.queued ==> time'[f] + subtract == time[f]
  {
    hide Sorted, Distinct, First;
    ChargeTimes(time, q, subtract, time');
    SortedShift(time, time', tree, subtract);
  }

  lemma ChargeTimes(time: Times, q: Queue, subtract: nat, time': Times)
    requires Inv(q) && q.sending.Some? && TimesAgree(time, q)
    requires FloorAfterDone(q) == q.floor + subtract
    requires time'.Keys == time.Keys
    requires forall f :: f in time && f != q.sending.value ==> time'[f] == Rebased(time[f], subtract)
    requires time'[q.sending.value] + subtract == time[q.sending.value] + q.weight + q.sendingLen
    ensures TimesAgree(time', Charge(q))
    ensures forall f :: f in q.queued ==> time'[f] + subtract == time[f]
  {
    FloorAfterDoneInRange(q);
    assert Active(q, q.sending.value);
    assert forall f :: f in q.queued ==> Active(q, f);
  }

  /** What the code subtracts on overflow is exactly how far the reference's floor moves. */
  lemma SubtractIsFloorMove(time: Times, tree: seq<FlowId>, q: Queue)
    requires Inv(q) && q.sending.Some? && TimesAgree(time, q) && TreeAgrees(tree, time, q.queued)
    ensures q.sending.value in time && q.sending.value !in q.queued && q.weight + q.sendingLen <= MAX_TIME
    ensures q.queued.Keys <= time.Keys && forall f :: f in time ==> time[f] <= MAX_TIME
    ensures tree != [] ==> tree[0] in time
    ensures var t, amount := time[q.sending.value], q.weight + q.sendingLen;
      var subtract := if tree == [] then t else time[tree[0]];
      && (forall f :: f in q.queued ==> subtract <= time[f])
      && (amount > MAX_TIME - t ==>
            t <= subtract <= MAX_TIME && subtract <= t + amount && FloorAfterDone(q) == q.floor + subtract)
      && (amount <= MAX_TIME - t ==> FloorAfterDone(q) == q.floor)
  {
    assert Active(q, q.sending.value);
    assert forall f :: f in q.queued ==> Active(q, f);
    TreeFirst(tree, time, q);
    FloorAfterDoneInRange(q);
  }

  /** The served flow's word wraps below zero and back: subtracting and then adding in
      64-bit arithmetic gives the true value whenever that value fits. */
  lemma WrapsBack(t: nat, subtract: nat, amount: nat)
    requires t <= MAX_TIME && subtract <= MAX_TIME && amount <= MAX_TIME
    ensures 0 <= t + amount - subtract <= MAX_TIME <==>
            Add64(Sub64(t, subtract), amount) == t + amount - subtract
  {
  }

  // ---- The queue ------------------------------------------------------------------------

  class FairQueue {
    const packetWeight: nat
    const mtu: nat
    var flowsList: seq<FlowId>
    var time: Times                  // flow->time
    var queuedLen: map<FlowId, nat>  // flow->queued.data_len of the flows with is_queued set
    var queuedTree: seq<FlowId>
    var sendingFlow: Option<FlowId>
    var sendingLen: nat
    var previousFlow: Option<FlowId>
    var scheduleJob: bool
    var freeing: bool
    ghost var model: Queue

    ghost predicate Mirrors()
      reads this
    {
      && model == Queue(packetWeight, mtu, model.floor, model.time, queuedLen, sendingFlow, sendingLen,
                        previousFlow, scheduleJob, freeing)
      && Agrees(flowsList, time, queuedTree, model)
    }

    ghost predicate Valid()
      reads this
    {
      Inv(model) && Mirrors()
    }

    constructor (weight: nat, mtu: nat)
      requires 0 < weight && mtu <= MAX_TIME && weight <= MAX_TIME - mtu
      ensures Valid() && model == Initial(weight, mtu)
    {
      packetWeight, this.mtu := weight, mtu;
      flowsList, time, queuedLen, queuedTree := [], map[], map[], [];
      sendingFlow, sendingLen, previousFlow := None, 0, None;
      scheduleJob, freeing := false, false;
      model := Initial(weight, mtu);
    }

    /** get_current_time: the reference clock, rebased. */
    function CurrentTime(): (t: nat)
      reads this
      requires Valid()
      ensures model.floor + t == Clock(model)
    {
      ClockInRange(model);
      assert forall f :: f in model.queued ==> Active(model, f);
      TreeFirst(queuedTree, time, model);
      assert sendingFlow.Some? ==> Active(model, sendingFlow.value);
      assert previousFlow.Some? ==> Active(model, previousFlow.value);
      if sendingFlow.Some? then time[sendingFlow.value]
      else if queuedTree == [] then
        if previousFlow.Some? then time[previousFlow.value] else 0
      else
        var t := time[queuedTree[0]];
        if previousFlow.Some? && time[previousFlow.value] < t then time[previousFlow.value] else t
    }

    method FlowInit(f: FlowId)
      requires Valid() && !freeing && f !in time
      modifies this
      ensures Valid() && model == Step(old(model), Event.FlowInit(f))
      ensures f in time && time[f] == 0
    {
      StepKeepsInv(model, Event.FlowInit(f));
      InitAgrees(flowsList, time, queuedTree, model, f);
      flowsList := flowsList + [f];
      time := time[f := 0];
      model := Step(model, Event.FlowInit(f));
    }

    method FlowFree(f: FlowId)
      requires Valid() && f in time && (freeing || sendingFlow != Some(f))
      modifies this
      ensures Valid() && model == Step(old(model), Event.FlowFree(f))
    {
      hide Inv, Agrees, Drop;
      KeysAgree(flowsList, time, queuedTree, model);
      StepKeepsInv(model, Event.FlowFree(f));
      DropIs(model, f);
      DropAgrees(flowsList, time, queuedTree, model, f);
      ghost var model' := Drop(model, f);
      sendingFlow := if sendingFlow == Some(f) then None else sendingFlow;
      previousFlow := if previousFlow == Some(f) then None else previousFlow;
      queuedTree := Remove(queuedTree, f);
      queuedLen := queuedLen - {f};
      flowsList := Remove(flowsList, f);
      time := time - {f};
      model := model';
    }

    method PrepareFree()
      requires Valid()
      modifies this
      ensures Valid() && model == Step(old(model), Event.PrepareFree)
    {
      freeing := true;
      model := Step(model, Event.PrepareFree);
    }

    /** schedule: the caller has put `model` into the state before the scheduling. */
    method ScheduleFirst()
      requires model.queued.Keys <= model.time.Keys && Mirrors() && queuedTree != []
      requires forall f :: f in queuedLen ==> model.floor <= model.time[f]
      modifies this`queuedTree, this`queuedLen, this`sendingFlow, this`sendingLen, this`model
      ensures model == Schedule(old(model)) && Mirrors()
    {
      ScheduleAgrees(flowsList, time, queuedTree, model);
      TreeFirst(queuedTree, time, model);
      var f := queuedTree[0];
      queuedTree := Remove(queuedTree, f);
      sendingLen := queuedLen[f];
      queuedLen := queuedLen - {f};
      sendingFlow := Some(f);
      model := Schedule(model);
    }

    /** schedule_job_handler */
    method RunScheduleJob()
      requires Valid() && !freeing && scheduleJob
      modifies this
      ensures Valid() && model == Step(old(model), Job)
    {
      hide Inv, Sorted, Distinct, First;
      ghost var q := model;
      StepKeepsInv(q, Job);
      QueuedAboveFloor(queuedTree, time, q);
      scheduleJob, previousFlow := false, None;
      model := q.(jobSet := false, previous := None);
      if queuedTree != [] {
        ScheduleFirst();
      }
    }

    /** input_handler_send */
    method Send(f: FlowId, len: nat)
      requires Valid() && !freeing && f in time && f !in queuedLen && sendingFlow != Some(f) && len <= mtu
      modifies this
      ensures Valid() && model == Step(old(model), Event.Send(f, len))
    {
      StepKeepsInv(model, Event.Send(f, len));
      Enter(f, len);
      if sendingFlow.None? && !scheduleJob {
        TreeFirst(queuedTree, time, model);
        ScheduleFirst();
      }
    }

    /** The first half of input_handler_send: the flow joins the queue, a flow that was just served
        at its own time, any other flow raised to the clock. */
    method Enter(f: FlowId, len: nat)
      requires Valid() && !freeing && f in time && f !in queuedLen && sendingFlow != Some(f) && len <= mtu
      modifies this`previousFlow, this`time, this`queuedTree, this`queuedLen, this`model
      ensures model == Enqueue(old(model), f, len) && Mirrors()
      ensures forall g :: g in queuedLen ==> g in model.time && model.floor <= model.time[g]
    {
      hide Inv, Agrees, Clock;
      ghost var q := model;
      KeysAgree(flowsList, time, queuedTree, q);
      var now := CurrentTime();
      EnterAgrees(flowsList, time, queuedTree, q, f, len, now);
      if previousFlow == Some(f) {
        previousFlow := None;
      } else {
        time := time[f := Max(time[f], now)];
      }
      queuedTree := Insert(time, queuedTree, f);
      queuedLen, model := queuedLen[f := len], Enqueue(q, f, len);
    }

    /** The loop of increment_sent_flow: every flow loses `subtract`, clamped at zero, except
        the served flow, whose word is left to wrap. */
    method SubtractFromAll(flow: FlowId, subtract: nat)
      requires ListAgrees(flowsList, time) && flow in time && flow !in queuedLen
      requires forall f :: f in queuedLen && f in time ==> subtract <= time[f]
      requires subtract <= MAX_TIME && forall f :: f in time ==> time[f] <= MAX_TIME
      modifies this`time
      ensures time.Keys == old(time).Keys
      ensures forall f :: f in time && f != flow ==> time[f] == Rebased(old(time)[f], subtract)
      ensures time[flow] == Sub64(old(time)[flow], subtract)
    {
      ghost var before, done := time, {};
      var i := 0;
      while i < |flowsList|
        invariant 0 <= i <= |flowsList|
        invariant done == Elems(flowsList[..i])
        invariant time.Keys == before.Keys
        invariant forall f :: f in time && f !in done ==> time[f] == before[f]
        invariant forall f :: f in done && f in time && f != flow ==> time[f] == Rebased(before[f], subtract)
        invariant flow in done ==> time[flow] == Sub64(before[flow], subtract)
      {
        var f := flowsList[i];
        ElemsAt(flowsList, i);
        ElemsPrefix(flowsList, i);
        done := done + {f};
        if subtract > time[f] && f != flow {
          assert f !in queuedLen;
          time := time[f := 0];
        } else {
          time := time[f := Sub64(time[f], subtract)];
        }
        i := i + 1;
      }
      assert flowsList[..i] == flowsList;
    }

    /** increment_sent_flow.  Overflow handling is exact: the stored words follow the
        reference, which never overflows; all queued flows and the served flow keep their
        differences except for the charge; nobody queued is clamped; and the tree needs no
        reordering. */
    method IncrementSentFlow(flow: FlowId, amount: nat)
      requires Valid() && sendingFlow == Some(flow) && amount == packetWeight + sendingLen
      modifies this`time
      ensures Agrees(flowsList, time, queuedTree, Charge(model))
      ensures forall f :: f in queuedLen ==>
                f in time && time[f] + old(time)[flow] + amount == old(time)[f] + time[flow]
    {
      hide Inv, Less, Sorted, Distinct;
      ghost var before, shift := time, 0;
      SubtractIsFloorMove(time, queuedTree, model);
      if amount > MAX_TIME - time[flow] {
        var subtract := if queuedTree == [] then time[flow] else time[queuedTree[0]];
        SubtractFromAll(flow, subtract);
        WrapsBack(before[flow], subtract, amount);
        shift := subtract;
      }
      time := time[flow := Add64(time[flow], amount)];
      ChargeAgrees(flowsList, before, queuedTree, model, shift, time);
    }

    /** output_handler_done */
    method OutputDone()
      requires Valid() && !freeing && sendingFlow.Some?
      modifies this
      ensures Valid() && model == Step(old(model), Done)
      ensures queuedTree == old(queuedTree) && queuedLen == old(queuedLen)
      ensures previousFlow == old(sendingFlow) && scheduleJob
      ensures var flow, amount := old(sendingFlow).value, packetWeight + old(sendingLen);
        forall f :: f in queuedLen ==>
          f in time && time[f] + old(time)[flow] + amount == old(time)[f] + time[flow]
    {
      hide Inv, Agrees;
      ghost var q := model;
      StepKeepsInv(q, Done);
      var flow := sendingFlow.value;
      IncrementSentFlow(flow, packetWeight + sendingLen);
      sendingFlow, previousFlow, scheduleJob, model := None, Some(flow), true, Charge(q);
    }
  }
}
