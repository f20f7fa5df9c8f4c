/**
 PacketPassInterface: a user sends packets to a provider, one at a time.  The calls of both sides
 only set jobs; the callbacks happen when the jobs run.  The contract below is what both sides may
 rely on; the class is the code, on a shared stack of pending jobs.
 */
module HandshakeSpec {
  import opened Prelude

  datatype Call =
    | Send | RequestCancel | ProviderDone            // calls of the user and of the provider
    | OperationCb | CancelCb | DoneCb                // callbacks of the interface

  datatype Phase =
    | Free                                           // the user may send
    | Waiting                                        // sent, the provider has not been told yet
    | Working(requested: bool, told: bool)           // with the provider; cancel requested, provider told
    | Returning                                      // the user has not been told yet that it is over

  /** One call or callback; None if it must not happen in this phase. */
  function Next(p: Phase, c: Call): Option<Phase> {
    match c
    case Send => if p.Free? then Some(Waiting) else None
    case RequestCancel =>
      match p {
        case Free => None
        case Waiting => Some(Returning)
        case Working(_, told) => Some(Working(true, told))
        case Returning => Some(Returning)
      }
    case ProviderDone => if p.Working? then Some(Returning) else None
    case OperationCb => if p.Waiting? then Some(Working(false, false)) else None
    case CancelCb => if p == Working(true, false) then Some(Working(true, true)) else None
    case DoneCb => if p.Returning? then Some(Free) else None
  }

  /** Where a history leads, None if it breaks the contract. */
  function Replay(h: seq<Call>): Option<Phase> {
    if h == [] then Some(Free)
    else
      var p := Replay(h[..|h|-1]);
      if p.None? then None else Next(p.value, h[|h|-1])
  }

  function Count(h: seq<Call>, c: Call): nat {
    if h == [] then 0 else Count(h[..|h|-1], c) + if h[|h|-1] == c then 1 else 0
  }

  /** Cancels that come before the provider has been told of the packet. */
  function EarlyCancels(h: seq<Call>): nat {
    if |h| < 2 then 0
    else EarlyCancels(h[..|h|-1]) + if h[|h|-1].RequestCancel? && h[|h|-2].Send? then 1 else 0
  }

  /** Whether the call has been made since the provider was told of the latest packet. */
  predicate SinceOperation(h: seq<Call>, c: Call) {
    h != [] && !h[|h|-1].OperationCb? && (h[|h|-1] == c || SinceOperation(h[..|h|-1], c))
  }

  lemma {:induction false} WaitingMeansSent(h: seq<Call>)
    requires Replay(h).Some?
    ensures Replay(h).value.Waiting? <==> h != [] && h[|h|-1].Send?
  {
    if h != [] {
      WaitingMeansSent(h[..|h|-1]);
    }
  }

  /** Every send is answered exactly once before the next one.  A packet reaches the provider exactly
      once, unless it is cancelled before, and then never; the provider answers once for every packet
      that reaches it, and is told of a cancel at most once per packet, if there was one. */
  lemma {:induction false} OncePerSend(h: seq<Call>)
    requires Replay(h).Some?
    ensures var p := Replay(h).value;
      && Count(h, Send) == Count(h, DoneCb) + (if p.Free? then 0 else 1)
      && Count(h, Send) == Count(h, OperationCb) + EarlyCancels(h) + (if p.Waiting? then 1 else 0)
      && Count(h, OperationCb) == Count(h, ProviderDone) + (if p.Working? then 1 else 0)
      && Count(h, CancelCb) + (if p.Working? && !p.told then 1 else 0) <= Count(h, OperationCb)
      && (p.Working? ==> p.requested == SinceOperation(h, RequestCancel) && p.told == SinceOperation(h, CancelCb))
  {
    if h != [] {
      OncePerSend(h[..|h|-1]);
      WaitingMeansSent(h[..|h|-1]);
    }
  }

  /** While the provider works the user may cancel, and a cancel that the provider has not been told of is
      still to come. */
  lemma {:induction false} CancelReaches(h: seq<Call>)
    requires Replay(h).Some? && Replay(h).value.Working? && SinceOperation(h, RequestCancel) && !SinceOperation(h, CancelCb)
    ensures Replay(h + [CancelCb]).Some?
  {
    OncePerSend(h);
    ReplaySnoc(h, CancelCb);
  }

  lemma {:induction false} ReplaySnoc(h: seq<Call>, c: Call)
    ensures Replay(h + [c]) == if Replay(h).None? then None else Next(Replay(h).value, c)
  {
    assert (h + [c])[..|h|] == h;
  }
}

module HandshakeImpl {
  import opened Prelude
  import opened PendingSpec
  import opened PendingImpl
  import H = HandshakeSpec

  datatype State = Unused | OperationPending | Busy | DonePending

  class PacketPass {
    const group: PendingGroup
    const operation: Job
    const requestCancel: Job
    const done: Job
    var state: State
    var cancelRequested: bool
    ghost var history: seq<H.Call>
    ghost var told: bool            // the provider has been told of the cancel

    function Jobs(): set<Job> {
      {operation, requestCancel, done}
    }

    /** The jobs of everybody else on the stack are set or not as before. */
    twostate predicate OthersStay()
      reads group
    {
      forall k :: k !in Jobs() ==> (group.IsSet(k) <==> old(group.IsSet(k)))
    }

    ghost function Phase(): H.Phase
      reads this
    {
      match state
      case Unused => H.Free
      case OperationPending => H.Waiting
      case Busy => H.Working(cancelRequested, told)
      case DonePending => H.Returning
    }

    /** The pending jobs are those that the state calls for. */
    ghost predicate JobsOk()
      reads this, group
    {
      && group.Valid()
      && (group.IsSet(operation) <==> state.OperationPending?)
      && (group.IsSet(done) <==> state.DonePending?)
      && (group.IsSet(requestCancel) <==> state.Busy? && cancelRequested && !told)
    }

    ghost predicate Valid()
      reads this, group
    {
      && operation != requestCancel && requestCancel != done && operation != done
      && JobsOk() && H.Replay(history) == Some(Phase())
      && (state.OperationPending? ==> !cancelRequested)
      && (told ==> cancelRequested)
    }

    constructor (group: PendingGroup, operation: Job, requestCancel: Job, done: Job)
      requires group.Valid() && operation != requestCancel && requestCancel != done && operation != done
      requires !group.IsSet(operation) && !group.IsSet(requestCancel) && !group.IsSet(done)
      ensures Valid() && state.Unused? && history == [] && this.group == group
      ensures this.operation == operation && this.requestCancel == requestCancel && this.done == done
    {
      this.group, this.operation, this.requestCancel, this.done := group, operation, requestCancel, done;
      state, cancelRequested, history, told := Unused, false, [], false;
    }

    /** PacketPassInterface_Sender_Send */
    method SenderSend()
      requires Valid() && state.Unused?
      modifies this, group
      ensures Valid() && history == old(history) + [H.Send] && group.jobs == Apply(old(group.jobs), Set(operation))
      ensures OthersStay()
    {
      H.ReplaySnoc(history, H.Send);
      group.SetJob(operation);
      state, cancelRequested, told := OperationPending, false, false;
      history := history + [H.Send];
    }

    /** PacketPassInterface_Done */
    method ProviderDone()
      requires Valid() && state.Busy?
      modifies this, group
      ensures Valid() && history == old(history) + [H.ProviderDone] && state.DonePending?
      ensures OthersStay()
    {
      H.ReplaySnoc(history, H.ProviderDone);
      group.UnsetJob(requestCancel);
      group.SetJob(done);
      state := DonePending;
      history := history + [H.ProviderDone];
    }

    /** PacketPassInterface_Sender_RequestCancel */
    method SenderRequestCancel()
      requires Valid() && !state.Unused?
      modifies this, group
      ensures Valid() && history == old(history) + [H.RequestCancel]
      ensures old(state).OperationPending? ==> state.DonePending?
      ensures !old(state).OperationPending? ==> state == old(state)
      ensures OthersStay()
    {
      hide H.Replay, Apply, Distinct;
      H.ReplaySnoc(history, H.RequestCancel);
      history := history + [H.RequestCancel];
      // the job is already pending, and one callback answers all requests
      if cancelRequested {
        return;
      }
      cancelRequested := true;
      if state.OperationPending? {
        group.UnsetJob(operation);
        group.SetJob(done);
        state := DonePending;
      } else if state.Busy? {
        group.SetJob(requestCancel);
      }
    }

    /** Runs the interface's job on top of the stack: one of the three job handlers up to its
        callback.  The callback is always one that the contract allows. */
    method ExecuteTop() returns (call: H.Call)
      requires Valid() && group.jobs != [] && group.jobs[0] in Jobs()
      modifies this, group
      ensures Valid() && group.jobs == old(group.jobs)[1..]
      ensures call in {H.OperationCb, H.CancelCb, H.DoneCb} && history == old(history) + [call]
      ensures OthersStay()
    {
      var j := group.ExecuteJob();
      if j == operation {
        H.ReplaySnoc(history, H.OperationCb);
        state := Busy;
        call := H.OperationCb;
      } else if j == requestCancel {
        H.ReplaySnoc(history, H.CancelCb);
        told := true;
        call := H.CancelCb;
      } else {
        H.ReplaySnoc(history, H.DoneCb);
        state := Unused;
        call := H.DoneCb;
      }
      history := history + [call];
    }

    /** Whatever others do with their own jobs on the shared stack, the interface stays as it is. */
    twostate lemma StaysValid()
      requires old(Valid()) && unchanged(this) && group.Valid()
      requires forall k :: k in Jobs() ==> (group.IsSet(k) <==> old(group.IsSet(k)))
      ensures Valid() && Phase() == old(Phase())
    {
    }
  }

  // ---- Many interfaces on one stack ------------------------------------------------------------

  /** Different interfaces, each with jobs of its own. */
  ghost predicate Apart(all: seq<PacketPass>, group: PendingGroup) {
    && (forall i :: 0 <= i < |all| ==> all[i].group == group)
    && (forall i, j :: 0 <= i < j < |all| ==> all[i] != all[j] && all[i].Jobs() !! all[j].Jobs())
  }

  ghost predicate AllValid(all: seq<PacketPass>, group: PendingGroup)
    reads all, group
  {
    group.Valid() && forall i :: 0 <= i < |all| ==> all[i].group == group && all[i].Valid()
  }

  /** BPendingGroup_ExecuteJob with the handlers of the interfaces: the top job is run by the
      interface it belongs to, if it belongs to one, and all interfaces stay within their contracts. */
  method RunTop(group: PendingGroup, all: seq<PacketPass>) returns (who: Option<nat>)
    requires Apart(all, group) && AllValid(all, group) && group.jobs != []
    modifies group, all
    ensures AllValid(all, group) && group.jobs == old(group.jobs)[1..]
    ensures who.Some? ==> who.value < |all| && old(group.jobs)[0] in all[who.value].Jobs()
    ensures who.None? ==> forall i :: 0 <= i < |all| ==> old(group.jobs)[0] !in all[i].Jobs()
    ensures forall i :: 0 <= i < |all| && who != Some(i) ==> all[i].history == old(all[i].history)
    ensures who.Some? ==>
      var p := all[who.value];
      |p.history| == |old(p.history)| + 1 && p.history[..|p.history| - 1] == old(p.history)
  {
    var i := 0;
    while i < |all| && group.jobs[0] !in all[i].Jobs()
      invariant i <= |all| && forall k :: 0 <= k < i ==> group.jobs[0] !in all[k].Jobs()
    {
      i := i + 1;
    }
    if i < |all| {
      who := Some(i);
      var call := all[i].ExecuteTop();
    } else {
      who := None;
      var j := group.ExecuteJob();
    }
    forall k | 0 <= k < |all| && k != i
      ensures all[k].Valid() && all[k].history == old(all[k].history)
    {
      assert unchanged(all[k]);
      all[k].StaysValid();
    }
  }
}
