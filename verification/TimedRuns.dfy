/** The quota of timed tasks over runs of the scheduler: the completion callback at work (`smart_service.cpp`). */
module TimedRuns {
  import opened Basics
  import opened Scheduler
  import opened SchedulerRuns
  import Timed = TimedTasks

  /** The step publishes feedback, so that the callback is called. */
  predicate Publishes(s: State, step: Step) {
    && step.RunStep?
    && (|| s.runner == Idle || s.runner == DoCancel || s.runner == DoPause || s.runner == Returned(false)
        || s.runner == Threw || s.runner == OverNotice || (s.runner == CheckExec && s.status == Execing))
  }

  /** What one call of the callback makes of the list: it acts whenever the task is over. */
  function Callback(list: seq<Timed.Task>, id: string, s: State): Option<seq<Timed.Task>> {
    if s.status == Ended then Timed.AfterRun(list, id, s.task.executedCount, s.task.maxCount) else Some(list)
  }

  /** The list after all calls of the callback in a run of the system; None if one of them throws. */
  ghost function ListAfter(list: seq<Timed.Task>, id: string, states: seq<State>, steps: seq<Step>)
    : Option<seq<Timed.Task>>
    requires |states| == |steps| + 1
    decreases |steps|
  {
    if steps == [] then Some(list)
    else
      var next := if Publishes(states[0], steps[0]) then Callback(list, id, states[1]) else Some(list);
      if next.None? then None else ListAfter(next.value, id, states[1..], steps[1..])
  }

  /** A run of the system without an assignment that enters `run` a given number of times and ends outside of it. */
  ghost predicate Serves(states: seq<State>, steps: seq<Step>, entries: nat) {
    && Trace(states, steps) && Inv(states[0])
    && (forall k :: 0 <= k < |steps| ==> !Assigns(states[k], steps[k]))
    && Entries(states, steps) == entries && states[|steps|].runner == Idle
  }

  lemma ServesTail(states: seq<State>, steps: seq<Step>, entries: nat)
    requires Serves(states, steps, entries) && |steps| > 0
    ensures var e := if EntersRun(states[0], steps[0]) then 1 else 0;
      entries >= e && Serves(states[1..], steps[1..], entries - e)
    ensures Enabled(states[0], steps[0]) && states[1] == Apply(states[0], steps[0])
    ensures !Assigns(states[0], steps[0])
  {
    assert Follows(states[0], steps[0], states[1]);
    TraceTail(states, steps);
    InvStep(states[0], steps[0]);
    forall k | 0 <= k < |steps[1..]|
      ensures !Assigns(states[1..][k], steps[1..][k])
    {
      assert !Assigns(states[k + 1], steps[k + 1]);
    }
  }

  /** Nothing is published while no thread is in `run`. */
  lemma {:induction false} QuietOutside(list: seq<Timed.Task>, id: string, states: seq<State>, steps: seq<Step>)
    requires Serves(states, steps, 0) && states[0].runner == Idle
    ensures ListAfter(list, id, states, steps) == Some(list)
    decreases |steps|
  {
    if steps != [] {
      ServesTail(states, steps, 0);
      OutsideStep(states[0], steps[0]);
      QuietOutside(list, id, states[1..], steps[1..]);
    }
  }

  lemma OutsideStep(s: State, step: Step)
    requires Inv(s) && s.runner == Idle && Enabled(s, step) && !EntersRun(s, step) && !Assigns(s, step)
    ensures !Publishes(s, step) && Apply(s, step).runner == Idle && SameCounts(Apply(s, step), s)
    ensures Apply(s, step).status == s.status
  {
  }

  predicate SameCounts(s: State, t: State) {
    s.task.executedCount == t.task.executedCount && s.task.maxCount == t.task.maxCount
  }

  /** Inside a run that started on a new task. */
  predicate Inside(s: State) {
    s.runner != Idle && (s.runner == Setup || s.runner == Denied ==> s.status == Init)
  }

  lemma InsideRun(s: State)
    requires Inv(s) && Inside(s) && RunEnabled(s)
    ensures SameCounts(Run(s), s)
    ensures Run(s).runner == Idle <==> s.runner == OverNotice
    ensures Run(s).runner == Idle ==> Run(s).status == Ended
    ensures Run(s).runner != Idle ==> Inside(Run(s))
    ensures Run(s).runner != Idle && Publishes(s, RunStep) ==> Run(s).status != Ended
  {
  }

  lemma InsideStep(s: State, step: Step)
    requires Inv(s) && Inside(s) && Enabled(s, step) && !Assigns(s, step)
    ensures SameCounts(Apply(s, step), s)
    ensures Apply(s, step).runner == Idle <==> step.RunStep? && s.runner == OverNotice
    ensures Apply(s, step).runner == Idle ==> Apply(s, step).status == Ended
    ensures Apply(s, step).runner != Idle ==> Inside(Apply(s, step))
    ensures Apply(s, step).runner != Idle && Publishes(s, step) ==> Apply(s, step).status != Ended
  {
    if step == RunStep {
      InsideRun(s);
    }
  }

  /** The callback acts exactly once in a run, at its end, with the count of that run. */
  lemma {:induction false} ActsAtTheEnd(list: seq<Timed.Task>, id: string, states: seq<State>, steps: seq<Step>)
    requires Serves(states, steps, 0) && Inside(states[0])
    ensures ListAfter(list, id, states, steps)
            == Timed.AfterRun(list, id, states[0].task.executedCount, states[0].task.maxCount)
    decreases |steps|
  {
    assert steps != [];
    ServesTail(states, steps, 0);
    InsideStep(states[0], steps[0]);
    if states[1].runner == Idle {
      var next := Callback(list, id, states[1]);
      if next.Some? {
        QuietOutside(next.value, id, states[1..], steps[1..]);
      }
    } else {
      ActsAtTheEnd(list, id, states[1..], steps[1..]);
    }
  }

  /** From the assignment on, one entry to `run` raises the count by one, and the callback stores it at the end. */
  lemma {:induction false} OneEntry(list: seq<Timed.Task>, id: string, states: seq<State>, steps: seq<Step>)
    requires Serves(states, steps, 1) && states[0].runner == Idle && states[0].status == Init
    ensures ListAfter(list, id, states, steps)
            == Timed.AfterRun(list, id, states[0].task.executedCount + 1, states[0].task.maxCount)
    decreases |steps|
  {
    assert steps != [];
    ServesTail(states, steps, 1);
    if EntersRun(states[0], steps[0]) {
      EntryStep(states[0]);
      ActsAtTheEnd(list, id, states[1..], steps[1..]);
    } else {
      OutsideStep(states[0], steps[0]);
      OneEntry(list, id, states[1..], steps[1..]);
    }
  }

  lemma EntryStep(s: State)
    requires Inv(s) && s.runner == Idle && s.status == Init && s.runs > 0
    ensures Inside(Run(s)) && Run(s).status == Init && Run(s).task.maxCount == s.task.maxCount
    ensures Run(s).task.executedCount == s.task.executedCount + 1
  {
  }

  // ---------------------------------------------------------------------------------------------------------
  // Deliveries of a timed task
  // ---------------------------------------------------------------------------------------------------------

  /** A run of the system from the assignment of the stored task with an id, which is run once to its end. */
  ghost predicate IsDelivery(list: seq<Timed.Task>, id: string, states: seq<State>, steps: seq<Step>) {
    && Serves(states, steps, 1) && states[0].runner == Idle && states[0].status == Init
    && Timed.Position(list, id) < |list|
    && var t := list[Timed.Position(list, id)];
       && states[0].task.executedCount == Timed.ExecutedOf(t) && states[0].task.maxCount == Timed.MaxOf(t)
       && Timed.ExecutedOf(t) < Timed.MaxOf(t)
  }

  /** Delivering a task and running it once, whatever calls come in between, does to the list what `Delivered` says. */
  lemma DeliveryIsDelivered(list: seq<Timed.Task>, id: string, states: seq<State>, steps: seq<Step>)
    requires IsDelivery(list, id, states, steps)
    ensures ListAfter(list, id, states, steps) == Timed.Delivered(list, id)
  {
    OneEntry(list, id, states, steps);
  }

  datatype Delivery = Delivery(states: seq<State>, steps: seq<Step>)

  /** Each delivery takes the task from the list that the earlier ones have left. */
  ghost predicate AreDeliveries(list: seq<Timed.Task>, id: string, runs: seq<Delivery>)
    decreases runs
  {
    runs == [] ||
    (&& IsDelivery(list, id, runs[0].states, runs[0].steps)
     && var next := ListAfter(list, id, runs[0].states, runs[0].steps);
        next.None? || AreDeliveries(next.value, id, runs[1..]))
  }

  ghost function ListAfterAll(list: seq<Timed.Task>, id: string, runs: seq<Delivery>): Option<seq<Timed.Task>>
    requires AreDeliveries(list, id, runs)
    decreases runs
  {
    if runs == [] then Some(list)
    else
      var next := ListAfter(list, id, runs[0].states, runs[0].steps);
      if next.None? then None else ListAfterAll(next.value, id, runs[1..])
  }

  lemma {:induction false} DeliveriesAreDelivered(list: seq<Timed.Task>, id: string, runs: seq<Delivery>)
    requires AreDeliveries(list, id, runs)
    ensures ListAfterAll(list, id, runs) == Timed.DeliveredTimes(list, id, |runs|)
    decreases runs
  {
    if runs != [] {
      DeliveryIsDelivered(list, id, runs[0].states, runs[0].steps);
      var next := ListAfter(list, id, runs[0].states, runs[0].steps);
      if next.Some? {
        DeliveriesAreDelivered(next.value, id, runs[1..]);
      }
    }
  }

  /** Over any number of runs of the scheduler the stored count rises by one per run and stays below the maximum; the
    * task goes exactly at the run that reaches it, and all other tasks stay in order.
    */
  lemma QuotaOverRuns(list: seq<Timed.Task>, id: string, executed: int, maxCount: int, runs: seq<Delivery>)
    requires Timed.Counted(list, id, executed, maxCount) && AreDeliveries(list, id, runs)
    ensures executed + |runs| <= maxCount
    ensures ListAfterAll(list, id, runs).Some?
    ensures var after := ListAfterAll(list, id, runs).value;
      && Timed.UniqueIds(after) && Timed.Others(after, id) == Timed.Others(list, id)
      && (executed + |runs| < maxCount ==> Timed.Counted(after, id, executed + |runs|, maxCount))
      && (executed + |runs| == maxCount ==> Timed.Position(after, id) == |after|)
  {
    DeliveriesAreDelivered(list, id, runs);
    NoMoreDeliveries(list, id, executed, maxCount, runs);
    Timed.QuotaIsKept(list, id, executed, maxCount, |runs|);
  }

  /** A task whose maximum is reached is not delivered again. */
  lemma {:induction false} NoMoreDeliveries(
      list: seq<Timed.Task>, id: string, executed: int, maxCount: int, runs: seq<Delivery>)
    requires Timed.Counted(list, id, executed, maxCount) && AreDeliveries(list, id, runs)
    ensures executed + |runs| <= maxCount
    decreases runs
  {
    if runs != [] {
      DeliveryIsDelivered(list, id, runs[0].states, runs[0].steps);
      Timed.OneRun(list, id, executed, maxCount);
      var next := Timed.Delivered(list, id).value;
      if executed + 1 < maxCount {
        NoMoreDeliveries(next, id, executed + 1, maxCount, runs[1..]);
      }
    }
  }
}
