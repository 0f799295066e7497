/** Properties of whole runs of the scheduler: every statement is about all interleavings of all parties. */
module SchedulerRuns {
  import opened Scheduler

  /** A run of the system: `states[k + 1]` follows from `states[k]` by `steps[k]`. */
  ghost predicate Trace(states: seq<State>, steps: seq<Step>) {
    && |states| == |steps| + 1
    && forall k :: 0 <= k < |steps| ==> Follows(states[k], steps[k], states[k + 1])
  }

  ghost predicate Follows(s: State, step: Step, t: State) {
    Enabled(s, step) && t == Apply(s, step)
  }

  ghost predicate Reachable(s: State) {
    exists states, steps :: Trace(states, steps) && InitialState(states[0]) && states[|steps|] == s
  }

  lemma {:induction false} InvAlongTrace(states: seq<State>, steps: seq<Step>, k: nat)
    requires Trace(states, steps) && Inv(states[0]) && k <= |steps|
    ensures Inv(states[k])
    decreases k
  {
    if k > 0 {
      InvAlongTrace(states, steps, k - 1);
      assert Follows(states[k - 1], steps[k - 1], states[k]);
      InvStep(states[k - 1], steps[k - 1]);
    }
  }

  lemma TraceTail(states: seq<State>, steps: seq<Step>)
    requires Trace(states, steps) && |steps| > 0
    ensures Trace(states[1..], steps[1..])
  {
    forall k | 0 <= k < |steps[1..]|
      ensures Follows(states[1..][k], steps[1..][k], states[1..][k + 1])
    {
      assert Follows(states[k + 1], steps[k + 1], states[k + 2]);
    }
  }

  /** Everything reachable satisfies the invariant. */
  lemma ReachableInv(s: State)
    requires Reachable(s)
    ensures Inv(s)
  {
    var states, steps :| Trace(states, steps) && InitialState(states[0]) && states[|steps|] == s;
    InvInitially(states[0]);
    InvAlongTrace(states, steps, |steps|);
  }

  // ---------------------------------------------------------------------------------------------------------
  // Emergency stops
  // ---------------------------------------------------------------------------------------------------------

  /** The step publishes the start of the current action and then calls it. */
  predicate StartsAction(s: State, step: Step) {
    step.RunStep? && s.runner == CheckExec && s.status == Execing
  }

  /** The current action has returned, or is about to return, because of a stop request. */
  predicate JustStopped(s: State) {
    s.runner == StopSeen || s.runner == ActionEnd(true) || s.runner == Returned(true)
  }

  /** An action is stopped only while a pause or cancel is in flight, and that request is still standing. */
  lemma StoppedOnlyByCall(s: State)
    requires Reachable(s) && JustStopped(s)
    ensures Stopping(s.control) && s.req == Kind(s.control.call) && s.status == Execing
  {
    ReachableInv(s);
  }

  /** A polling action that is stopped at all is stopped by the `stop` call that is waiting for its device. */
  lemma StopNeedsWaitingCall(s: State)
    requires Reachable(s) && s.runner == Polling && RunEnabled(s)
    ensures s.control.StopWait? && s.control.k == s.task.actions[s.i].device
    ensures s.control.call != Resume
  {
    ReachableInv(s);
  }

  /** The request of the call that stopped the action has not been served, or its call has not returned. */
  predicate Held(s: State) {
    Stopping(s.control) && !MayStart(s) && (JustStopped(s) || BetweenActions(s.runner))
  }

  /** The pause has been served and every `stop` of its call has returned. */
  predicate PauseServed(s: State) {
    s.status == Paused && s.control == Free
  }

  lemma HeldStep(s: State, step: Step)
    requires Inv(s) && Held(s) && Enabled(s, step)
    ensures !StartsAction(s, step)
    ensures var t := Apply(s, step); t.i == s.i && t.task == s.task && (Held(t) || t.runner == Finish || PauseServed(t))
  {
    if step.RunStep? {
      assert Apply(s, step) == Run(s);
    } else if step.ControlStep? {
      assert Apply(s, step) == Controlled(s);
    }
  }

  /** Once an action has been stopped, an action starts only after the pause has been served and all `stop`
    * calls of that pause have returned, or after the run is over.
    */
  lemma {:induction false} StoppedActionWaits(states: seq<State>, steps: seq<Step>) returns (j: nat)
    requires Trace(states, steps) && Inv(states[0]) && |steps| > 0
    requires Held(states[0])
    requires StartsAction(states[|steps| - 1], steps[|steps| - 1])
    ensures j < |steps| && (PauseServed(states[j]) || states[j].runner == Finish)
    decreases |steps|
  {
    assert Follows(states[0], steps[0], states[1]);
    HeldStep(states[0], steps[0]);
    if PauseServed(states[1]) || states[1].runner == Finish {
      j := 1;
    } else {
      InvStep(states[0], steps[0]);
      TraceTail(states, steps);
      var m := StoppedActionWaits(states[1..], steps[1..]);
      j := m + 1;
    }
  }

  /** Every state with a stopped action is held. */
  lemma StoppedIsHeld(s: State)
    requires Reachable(s) && JustStopped(s)
    ensures Held(s)
  {
    ReachableInv(s);
  }

  /** Between two actions of a run the loop keeps its position. */
  lemma BetweenStep(s: State, step: Step)
    requires Inv(s) && Enabled(s, step) && (BetweenActions(s.runner) || JustStopped(s))
    requires !StartsAction(s, step)
    ensures var t := Apply(s, step);
      t.i == s.i && t.task == s.task && (BetweenActions(t.runner) || JustStopped(t) || t.runner == Finish)
  {
    assert !step.RunStep? ==> Apply(s, step).runner == s.runner;
  }

  /** The first action that a run starts after one was stopped is the stopped action itself. */
  lemma {:induction false} StoppedActionIsRetried(states: seq<State>, steps: seq<Step>)
    requires Trace(states, steps) && Inv(states[0]) && |steps| > 0
    requires JustStopped(states[0]) || BetweenActions(states[0].runner)
    requires forall j :: 0 <= j < |steps| ==> states[j].runner != Finish
    requires forall j :: 0 <= j < |steps| - 1 ==> !StartsAction(states[j], steps[j])
    requires StartsAction(states[|steps| - 1], steps[|steps| - 1])
    ensures states[0].i < |states[0].task.actions|
    ensures states[|steps|].log ==
            states[|steps| - 1].log + [ActionStarted(states[0].task.actions[states[0].i].no)]
    decreases |steps|
  {
    assert Follows(states[0], steps[0], states[1]);
    if |steps| > 1 {
      BetweenStep(states[0], steps[0]);
      InvStep(states[0], steps[0]);
      TraceTail(states, steps);
      assert !StartsAction(states[1], steps[1]) || |steps| == 2;
      StoppedActionIsRetried(states[1..], steps[1..]);
    }
  }

  // ---------------------------------------------------------------------------------------------------------
  // Control requests
  // ---------------------------------------------------------------------------------------------------------

  /** The status that the given call waits for. */
  predicate Effect(c: Call, status: Status) {
    match c
    case Pause => status == Paused || status == Ended
    case Resume => status == Execing || status == Ended
    case Cancel => status == Ended
  }

  /** The call in flight has written its request, and it stands. */
  predicate Stands(s: State, c: Call) {
    Serving(s.control) && s.control.call == c && s.req == Kind(c)
  }

  lemma StandsStep(s: State, step: Step, c: Call)
    requires Inv(s) && Stands(s, c) && Enabled(s, step)
    requires !(s.control == Await(c) && step == ControlStep)
    ensures Stands(Apply(s, step), c)
  {
  }

  /** A request that has been written stands until it has taken effect or the run is over: a later request is
    * only written after a state in which the earlier call saw the status it was waiting for.
    */
  lemma {:induction false} ServedBeforeOverwritten(states: seq<State>, steps: seq<Step>, c: Call)
    returns (l: nat)
    requires Trace(states, steps) && Inv(states[0])
    requires Serving(states[0].control) && states[0].control.call == c
    requires states[|steps|].control.Accept?
    ensures l < |steps| && states[l].control == Await(c) && Effect(c, states[l].status)
    ensures forall j :: 0 <= j <= l ==> Stands(states[j], c)
    decreases |steps|
  {
    assert Follows(states[0], steps[0], states[1]);
    if states[0].control == Await(c) && steps[0] == ControlStep {
      l := 0;
    } else {
      TraceTail(states, steps);
      InvStep(states[0], steps[0]);
      StandsStep(states[0], steps[0], c);
      var m := ServedBeforeOverwritten(states[1..], steps[1..], c);
      l := m + 1;
      forall j | 0 <= j <= l
        ensures Stands(states[j], c)
      {
        assert j > 0 ==> states[j] == states[1..][j - 1];
      }
    }
  }

  function Starts(log: seq<Event>): nat {
    if log == [] then 0
    else Starts(log[..|log| - 1]) + if log[|log| - 1].ActionStarted? then 1 else 0
  }

  lemma StartsAppend(log: seq<Event>, e: Event)
    ensures Starts(log + [e]) == Starts(log) + if e.ActionStarted? then 1 else 0
  {
    assert (log + [e])[..|log|] == log;
  }

  /** A pause or cancel has been written and the run is neither paused (canceled) nor over. */
  predicate Pending(s: State) {
    Stopping(s.control) && (s.status == Execing || (s.status == Paused && s.control.call == Cancel))
  }

  function Credit(s: State): nat {
    if MayStart(s) then 1 else 0
  }

  lemma PendingStep(s: State, step: Step)
    requires Inv(s) && Enabled(s, step) && Pending(s) && Pending(Apply(s, step))
    ensures var t := Apply(s, step);
      if StartsAction(s, step) then
        MayStart(s) && !MayStart(t) && t.log == s.log + [ActionStarted(s.task.actions[s.i].no)]
      else
        && (MayStart(t) ==> MayStart(s))
        && (t.log == s.log || (t.log == s.log + [t.log[|s.log|]] && !t.log[|s.log|].ActionStarted?))
  {
    assert !step.RunStep? ==> Apply(s, step).log == s.log;
  }

  lemma PendingStarts(s: State, step: Step)
    requires Inv(s) && Enabled(s, step) && Pending(s) && Pending(Apply(s, step))
    ensures Starts(Apply(s, step).log) + Credit(Apply(s, step)) <= Starts(s.log) + Credit(s)
  {
    PendingStep(s, step);
    var t := Apply(s, step);
    if t.log != s.log {
      StartsAppend(s.log, t.log[|s.log|]);
    }
  }

  /** While a pause or cancel is pending, at most one more action starts; none if the loop was not already past
    * the test of the request when it was written.
    */
  lemma {:induction false} AtMostOneMoreStart(states: seq<State>, steps: seq<Step>)
    requires Trace(states, steps) && Inv(states[0])
    requires forall j :: 0 <= j <= |steps| ==> Pending(states[j])
    ensures Starts(states[|steps|].log) + Credit(states[|steps|]) <= Starts(states[0].log) + Credit(states[0])
    decreases |steps|
  {
    if |steps| > 0 {
      assert Follows(states[0], steps[0], states[1]);
      PendingStarts(states[0], steps[0]);
      InvStep(states[0], steps[0]);
      TraceTail(states, steps);
      AtMostOneMoreStart(states[1..], steps[1..]);
    }
  }

  /** When `pause` returns and the task is paused, the loop is waiting, no device is running and no stop request
    * is left behind, so another action can be run on the devices.
    */
  lemma PauseReturnsQuiet(s: State)
    requires Reachable(s) && s.control == Await(Pause) && s.status == Paused
    ensures AtRest(Apply(s, ControlStep))
  {
    ReachableInv(s);
  }

  /** The loop waits in a pause that no call has yet asked to leave. */
  ghost predicate AtRest(s: State) {
    && s.status == Paused && s.req == ReqPause && s.runner == PauseWait
    && (forall k :: 0 <= k < |s.devices| ==> s.devices[k].status == Stopped)
    && (s.control == Free ==> forall k :: 0 <= k < |s.devices| ==> s.devices[k].request == NoStop)
  }

  /** The step writes a resume or cancel request. */
  predicate LeavesPause(s: State, step: Step) {
    step.ControlStep? && s.control.Accept? && s.control.call != Pause
  }

  lemma RestStep(s: State, step: Step)
    requires Inv(s) && AtRest(s) && Enabled(s, step) && !LeavesPause(s, step)
    ensures AtRest(Apply(s, step)) && Apply(s, step).log == s.log
  {
  }

  /** A paused task publishes nothing and starts nothing until a resume or cancel is written. */
  lemma {:induction false} PausedStaysPaused(states: seq<State>, steps: seq<Step>)
    requires Trace(states, steps) && Inv(states[0]) && AtRest(states[0])
    requires forall j :: 0 <= j < |steps| ==> !LeavesPause(states[j], steps[j])
    ensures AtRest(states[|steps|]) && states[|steps|].log == states[0].log
    decreases |steps|
  {
    if |steps| > 0 {
      assert Follows(states[0], steps[0], states[1]);
      RestStep(states[0], steps[0]);
      InvStep(states[0], steps[0]);
      TraceTail(states, steps);
      PausedStaysPaused(states[1..], steps[1..]);
    }
  }

  // ---------------------------------------------------------------------------------------------------------
  // The count of executions
  // ---------------------------------------------------------------------------------------------------------

  /** The step enters `run`. */
  predicate EntersRun(s: State, step: Step) {
    step.RunStep? && s.runner == Idle
  }

  /** How many times the first steps of a run of the system enter `run`. */
  ghost function Entries(states: seq<State>, steps: seq<Step>): nat
    requires |states| > |steps|
  {
    if steps == [] then 0
    else (if EntersRun(states[0], steps[0]) then 1 else 0) + Entries(states[1..], steps[1..])
  }

  /** Within one assignment the count of executions is raised exactly once per run, at its start. */
  lemma {:induction false} CountRisesPerRun(states: seq<State>, steps: seq<Step>)
    requires Trace(states, steps)
    requires forall k :: 0 <= k < |steps| ==> !Assigns(states[k], steps[k])
    ensures states[|steps|].task.executedCount == states[0].task.executedCount + Entries(states, steps)
    ensures states[|steps|].task.maxCount == states[0].task.maxCount
    decreases |steps|
  {
    if |steps| > 0 {
      assert Follows(states[0], steps[0], states[1]);
      TraceTail(states, steps);
      CountRisesPerRun(states[1..], steps[1..]);
    }
  }

  /** The message thread has taken a task that no thread has been started for yet. */
  predicate HasTask(h: Handler) {
    h.Gate? || h.EmptyTest? || h.OverTest? || h.Canceling? || h.Assigning? || h == Starting
  }

  function TaskInHand(h: Handler): nat {
    if HasTask(h) then 1 else 0
  }

  /** How many tasks and repeated executions arrive. */
  function Arrivals(steps: seq<Step>): nat {
    if steps == [] then 0 else (if steps[0].Receive? || steps[0].Spawn? then 1 else 0) + Arrivals(steps[1..])
  }

  lemma ThreadStep(s: State, step: Step)
    requires Enabled(s, step)
    ensures var t := Apply(s, step);
      t.runs + TaskInHand(t.handler) + (if EntersRun(s, step) then 1 else 0)
      == s.runs + TaskInHand(s.handler) + if step.Receive? || step.Spawn? then 1 else 0
  {
  }

  /** Each arrival starts exactly one thread, also for a task that is refused, and each thread enters `run` once. */
  lemma {:induction false} OneThreadPerArrival(states: seq<State>, steps: seq<Step>)
    requires Trace(states, steps)
    ensures var s, t := states[0], states[|steps|];
      t.runs + TaskInHand(t.handler) + Entries(states, steps) == s.runs + TaskInHand(s.handler) + Arrivals(steps)
    decreases |steps|
  {
    if |steps| > 0 {
      assert Follows(states[0], steps[0], states[1]);
      TraceTail(states, steps);
      ThreadStep(states[0], steps[0]);
      OneThreadPerArrival(states[1..], steps[1..]);
    }
  }
}
