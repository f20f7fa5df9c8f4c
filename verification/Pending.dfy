/**
 BPending: the stack of pending jobs that drives everything.  Setting a job puts it on top, so a job
 runs only when all jobs set after it have run or been unset.
 */
module PendingSpec {
  import opened Prelude

  type Job = nat

  datatype Op = Set(job: Job) | Unset(job: Job) | Execute

  function Apply(jobs: seq<Job>, op: Op): seq<Job>
    requires op.Execute? ==> jobs != []
  {
    match op
    case Set(j) => [j] + Remove(jobs, j)
    case Unset(j) => Remove(jobs, j)
    case Execute => jobs[1..]
  }

  /** The stack after some operations; None if a job was to be executed and there was none. */
  function Run(jobs: seq<Job>, ops: seq<Op>): Option<seq<Job>> {
    if ops == [] then Some(jobs)
    else
      var before := Run(jobs, ops[..|ops|-1]);
      if before.None? || (ops[|ops|-1].Execute? && before.value == []) then None
      else Some(Apply(before.value, ops[|ops|-1]))
  }

  predicate Above(jobs: seq<Job>, a: Job, b: Job) {
    if jobs == [] then false
    else if jobs[0] == a then b in jobs[1..]
    else if jobs[0] == b then false
    else Above(jobs[1..], a, b)
  }

  lemma {:induction false} AboveIn(jobs: seq<Job>, a: Job, b: Job)
    requires Above(jobs, a, b)
    ensures a in jobs && b in jobs
  {
    if jobs[0] != a {
      AboveIn(jobs[1..], a, b);
    }
  }

  lemma {:induction false} RemoveKeepsOrder(jobs: seq<Job>, a: Job, b: Job, j: Job)
    requires Above(jobs, a, b) && j != a && j != b
    ensures Above(Remove(jobs, j), a, b)
  {
    if jobs[0] == a {
      RemoveOther(jobs[1..], b, j);
      assert Remove(jobs, j)[1..] == Remove(jobs[1..], j);
    } else if jobs[0] != j {
      RemoveKeepsOrder(jobs[1..], a, b, j);
      assert Remove(jobs, j)[1..] == Remove(jobs[1..], j);
    }
  }

  lemma ApplyDistinct(jobs: seq<Job>, op: Op)
    requires Distinct(jobs) && (op.Execute? ==> jobs != [])
    ensures Distinct(Apply(jobs, op))
  {
    if !op.Execute? {
      RemoveSound(jobs, op.job);
      var rest := Remove(jobs, op.job);
      ElemsMember(rest, op.job);
      assert op.job !in rest;
    }
  }

  /** Neither job is set or unset again. */
  predicate Untouched(ops: seq<Op>, a: Job, b: Job) {
    forall i :: 0 <= i < |ops| && !ops[i].Execute? ==> ops[i].job != a && ops[i].job != b
  }

  /** Last in, first out: while a later job is pending, an earlier one has not run. */
  lemma {:induction false} LaterRunsFirst(jobs: seq<Job>, ops: seq<Op>, a: Job, b: Job)
    requires Distinct(jobs) && Above(jobs, a, b) && Untouched(ops, a, b) && Run(jobs, ops).Some?
    ensures var end := Run(jobs, ops).value;
      Distinct(end) && (a in end ==> Above(end, a, b))
  {
    if ops == [] {
    } else {
      var init, op := ops[..|ops|-1], ops[|ops|-1];
      assert forall i :: 0 <= i < |init| ==> init[i] == ops[i];
      LaterRunsFirst(jobs, init, a, b);
      var s := Run(jobs, init).value;
      ApplyDistinct(s, op);
      var end := Apply(s, op);
      if a in s {
        match op
        case Set(j) => RemoveKeepsOrder(s, a, b, j); assert end[1..] == Remove(s, j);
        case Unset(j) => RemoveKeepsOrder(s, a, b, j);
        case Execute =>
      } else {
        NotAdded(s, op, a);
      }
    }
  }

  lemma NotAdded(s: seq<Job>, op: Op, a: Job)
    requires a !in s && (op.Execute? ==> s != []) && (!op.Execute? ==> op.job != a)
    ensures a !in Apply(s, op)
  {
    if !op.Execute? {
      RemoveSub(s, op.job, a);
    }
  }

  lemma {:induction false} RemoveSub(s: seq<Job>, j: Job, a: Job)
    ensures a in Remove(s, j) ==> a in s
  {
    if s != [] && s[0] != j {
      RemoveSub(s[1..], j, a);
    }
  }

  lemma {:induction false} SetIsAbove(s: seq<Job>, a: Job, b: Job)
    requires b in s && a != b
    ensures Above(Apply(s, Set(a)), a, b)
  {
    RemoveOther(s, b, a);
    assert Apply(s, Set(a))[1..] == Remove(s, a);
  }

  /** When the done job gets its turn the schedule job is still waiting below it. */
  lemma {:induction false} DoneRuns(s: seq<Job>, ops: seq<Op>, schedule: Job, done: Job)
    requires Distinct(s) && schedule != done && Untouched(ops, done, schedule)
    requires var s1 := Apply(Apply(s, Set(schedule)), Set(done));
      Run(s1, ops).Some? && Run(s1, ops).value != [] && Run(s1, ops).value[0] == done
    ensures var s2 := Run(Apply(Apply(s, Set(schedule)), Set(done)), ops).value;
      Distinct(s2) && schedule in s2[1..]
  {
    hide Run, Untouched, Distinct;
    var s0 := Apply(s, Set(schedule));
    ApplyDistinct(s, Set(schedule));
    ApplyDistinct(s0, Set(done));
    SetIsAbove(s0, done, schedule);
    LaterRunsFirst(Apply(s0, Set(done)), ops, done, schedule);
  }

  /** A job that the done handler sets ends above the schedule job. */
  lemma {:induction false} ResubmitIsAbove(s2: seq<Job>, schedule: Job, operation: Job)
    requires Distinct(s2) && s2 != [] && schedule in s2[1..] && operation != schedule
    ensures var s3 := Apply(s2[1..], Set(operation)); Distinct(s3) && Above(s3, operation, schedule)
  {
    hide Above;
    ApplyDistinct(s2[1..], Set(operation));
    SetIsAbove(s2[1..], operation, schedule);
  }

  /** The fair queue sets its schedule job and then lets the flow's done job be set.  If the done
      handler, run by the last operation of `ops`, submits the flow's next packet, then that
      packet's operation job runs before the schedule job, whatever else is set in between. */
  lemma {:induction false} ResubmitBeforeSchedule(s: seq<Job>, ops: seq<Op>, more: seq<Op>, schedule: Job, done: Job,
                                                  operation: Job)
    requires Distinct(s) && schedule != done && done != operation && operation != schedule
    requires Untouched(ops, done, schedule) && Untouched(more, operation, schedule)
    requires var s1 := Apply(Apply(s, Set(schedule)), Set(done));
      && Run(s1, ops).Some? && Run(s1, ops).value != [] && Run(s1, ops).value[0] == done
      && Run(Apply(Run(s1, ops).value[1..], Set(operation)), more).Some?
    ensures var s1 := Apply(Apply(s, Set(schedule)), Set(done));
      var end := Run(Apply(Run(s1, ops).value[1..], Set(operation)), more).value;
      operation in end ==> schedule in end && Above(end, operation, schedule)
  {
    hide Distinct, Above, Apply, Run, Untouched;
    var s1 := Apply(Apply(s, Set(schedule)), Set(done));
    var s2 := Run(s1, ops).value;
    DoneRuns(s, ops, schedule, done);
    ResubmitIsAbove(s2, schedule, operation);
    var s3 := Apply(s2[1..], Set(operation));
    LaterRunsFirst(s3, more, operation, schedule);
    var end := Run(s3, more).value;
    if operation in end {
      AboveIn(end, operation, schedule);
    }
  }
}

module PendingImpl {
  import opened Prelude
  import opened PendingSpec

  class PendingGroup {
    var jobs: seq<Job>      // the linked list of pending jobs

    ghost predicate Valid()
      reads this
    {
      Distinct(jobs)
    }

    constructor ()
      ensures Valid() && jobs == []
    {
      jobs := [];
    }

    /** BSmallPending_IsSet */
    predicate IsSet(j: Job)
      reads this
    {
      j in jobs
    }

    /** BSmallPending_Set */
    method SetJob(j: Job)
      requires Valid()
      modifies this
      ensures Valid() && jobs == Apply(old(jobs), Set(j))
      ensures forall k :: IsSet(k) <==> old(IsSet(k)) || k == j
    {
      ApplyDistinct(jobs, Set(j));
      Members(jobs, j);
      if j in jobs {
        jobs := Remove(jobs, j);
      } else {
        RemoveLength(jobs, j);
      }
      jobs := [j] + jobs;
    }

    /** BSmallPending_Unset */
    method UnsetJob(j: Job)
      requires Valid()
      modifies this
      ensures Valid() && jobs == Apply(old(jobs), Unset(j))
      ensures forall k :: IsSet(k) <==> old(IsSet(k)) && k != j
    {
      ApplyDistinct(jobs, Unset(j));
      Members(jobs, j);
      if j in jobs {
        jobs := Remove(jobs, j);
      } else {
        RemoveLength(jobs, j);
      }
    }

    /** BPendingGroup_ExecuteJob; returns the job whose handler runs */
    method ExecuteJob() returns (j: Job)
      requires Valid() && jobs != []
      modifies this
      ensures Valid() && jobs == Apply(old(jobs), Execute) && j == old(jobs)[0]
      ensures forall k :: IsSet(k) <==> old(IsSet(k)) && k != j
    {
      j := jobs[0];
      jobs := jobs[1..];
    }
  }

  lemma {:induction false} Members(s: seq<Job>, j: Job)
    requires Distinct(s)
    ensures forall k :: k in Remove(s, j) <==> k in s && k != j
  {
    RemoveSound(s, j);
    ElemsIn(s);
    ElemsIn(Remove(s, j));
  }

}
