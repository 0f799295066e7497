/** Replacing the current task and interrupting it for charging (`smart_service.cpp`), over all interleavings. */
module SchedulerReplacement {
  import opened Scheduler
  import opened SchedulerRuns

  // ---------------------------------------------------------------------------------------------------------
  // The priority gate
  // ---------------------------------------------------------------------------------------------------------

  /** The handler has let a task through the gate and has not yet assigned it. */
  predicate Replacing(h: Handler) {
    h.EmptyTest? || h.OverTest? || h.Canceling? || h.Assigning?
  }

  /** A task that is about to be assigned has passed the gate, and the gate is the last test of its priority. */
  lemma {:induction false} GatePassed(states: seq<State>, steps: seq<Step>, k: nat) returns (g: nat)
    requires Trace(states, steps) && k <= |steps| && Replacing(states[k].handler) && !Replacing(states[0].handler)
    ensures g < k && states[g].handler == Gate(states[k].handler.task) && steps[g] == HandlerStep
    ensures !Refuses(states[g], states[k].handler.task)
    ensures states[k].task.priority == states[g].task.priority
    decreases k
  {
    assert Follows(states[k - 1], steps[k - 1], states[k]);
    ReplacingStep(states[k - 1], steps[k - 1]);
    if Replacing(states[k - 1].handler) {
      g := GatePassed(states, steps, k - 1);
    } else {
      g := k - 1;
    }
  }

  lemma ReplacingStep(s: State, step: Step)
    requires Enabled(s, step) && Replacing(Apply(s, step).handler)
    ensures var t := Apply(s, step);
      t.task.priority == s.task.priority
      && if Replacing(s.handler) then t.handler.task == s.handler.task
         else step == HandlerStep && s.handler == Gate(t.handler.task) && !Refuses(s, t.handler.task)
  {
  }

  /** A task is replaced only by one of at least its priority, or after its end was seen; its run has published the
    * end by then, no call is in flight, and no scheduler is inside `run`.
    */
  lemma ReplacedAfterItsEnd(states: seq<State>, steps: seq<Step>, k: nat) returns (g: nat)
    requires Trace(states, steps) && InitialState(states[0]) && k < |steps| && Assigns(states[k], steps[k])
    ensures g < k && states[g].handler == Gate(states[k].handler.task)
    ensures states[g].status == Ended || states[k].handler.task.priority >= states[k].task.priority
    ensures states[k].runner == Idle && states[k].control == Free
    ensures states[k].status == Ended || states[k].status == Init
    ensures states[k].log == [] || states[k].log[|states[k].log| - 1] == Over
  {
    g := GatePassed(states, steps, k);
    InvInitially(states[0]);
    InvAlongTrace(states, steps, k);
    assert Follows(states[k], steps[k], states[k + 1]);
    OverIsLast(states, steps, k);
  }

  /** Outside of `run` the log is empty or complete. */
  lemma {:induction false} OverIsLast(states: seq<State>, steps: seq<Step>, k: nat)
    requires Trace(states, steps) && InitialState(states[0]) && k <= |steps|
    ensures states[k].runner == Idle && states[k].log != [] ==> states[k].log[|states[k].log| - 1] == Over
    decreases k
  {
    if k > 0 {
      OverIsLast(states, steps, k - 1);
      assert Follows(states[k - 1], steps[k - 1], states[k]);
    }
  }

  /** The handler is between a refusal and the next message. */
  predicate AfterRefusal(h: Handler) {
    h == Starting || h == Ready
  }

  predicate SameTask(a: Task, b: Task) {
    a == b.(executedCount := a.executedCount)
  }

  lemma RefusalStep(s: State, step: Step)
    requires Inv(s) && Enabled(s, step) && s.control == Free
    requires s.handler == Starting || (s.handler.Gate? && step == HandlerStep && Refuses(s, s.handler.task))
    ensures var t := Apply(s, step);
      && AfterRefusal(t.handler) && SameTask(t.task, s.task) && t.req == s.req && t.control == Free
      && (!step.RunStep? ==> t.status == s.status && t.log == s.log)
  {
  }

  /** A task of lower priority leaves the current one alone, whatever its status: until the next message no request is
    * written, no call is made, and only the scheduler itself changes the status or publishes anything.
    */
  lemma {:induction false} RefusalKeepsTask(states: seq<State>, steps: seq<Step>, k: nat)
    requires Trace(states, steps) && Inv(states[0]) && k <= |steps| && |steps| > 0
    requires states[0].handler.Gate? && Refuses(states[0], states[0].handler.task) && steps[0] == HandlerStep
    requires forall j :: 0 < j < |steps| ==> states[j].handler != Ready
    ensures SameTask(states[k].task, states[0].task) && states[k].req == states[0].req && states[k].control == Free
    ensures k > 0 ==> AfterRefusal(states[k].handler)
    ensures k > 0 && !steps[k - 1].RunStep? ==>
              states[k].status == states[k - 1].status && states[k].log == states[k - 1].log
    decreases k
  {
    if k > 0 {
      RefusalKeepsTask(states, steps, k - 1);
      InvAlongTrace(states, steps, k - 1);
      assert Follows(states[k - 1], steps[k - 1], states[k]);
      RefusalStep(states[k - 1], steps[k - 1]);
    }
  }

  // ---------------------------------------------------------------------------------------------------------
  // Charging
  // ---------------------------------------------------------------------------------------------------------

  /** The devices are free: the task rests in a pause, or no scheduler runs and none is about to. */
  ghost predicate Alone(s: State) {
    AtRest(s) || (s.runner == Idle && s.runs == 0)
  }

  lemma AloneStep(s: State, step: Step)
    requires Inv(s) && s.handler == Charging && Alone(s) && Enabled(s, step)
    ensures !StartsAction(s, step)
    ensures Apply(s, step).handler == Charging ==> Alone(Apply(s, step)) && Apply(s, step).devices == s.devices
  {
  }

  /** While the battery is charged no action starts and no device changes, if the devices were free at the start. */
  lemma {:induction false} ChargingIsAlone(states: seq<State>, steps: seq<Step>, k: nat)
    requires Trace(states, steps) && Inv(states[0]) && Alone(states[0]) && k <= |steps|
    requires forall j :: 0 <= j <= |steps| ==> states[j].handler == Charging
    ensures Alone(states[k]) && states[k].devices == states[0].devices
    ensures k > 0 ==> !StartsAction(states[k - 1], steps[k - 1])
    decreases k
  {
    if k > 0 {
      ChargingIsAlone(states, steps, k - 1);
      InvAlongTrace(states, steps, k - 1);
      assert Follows(states[k - 1], steps[k - 1], states[k]);
      AloneStep(states[k - 1], steps[k - 1]);
    }
  }

  /** An accepted pause that has taken effect frees the devices for charging. */
  lemma PauseFreesDevices(s: State)
    requires Reachable(s) && s.handler == Pausing && s.control == Await(Pause) && s.status == Paused
    ensures Alone(Apply(s, ControlStep))
  {
    PauseReturnsQuiet(s);
  }

  lemma Reach(s: State, step: Step) returns (t: State)
    requires Reachable(s) && Enabled(s, step)
    ensures t == Apply(s, step) && Reachable(t)
  {
    t := Apply(s, step);
    var states, steps :| Trace(states, steps) && InitialState(states[0]) && states[|steps|] == s;
    var states', steps' := states + [t], steps + [step];
    forall k | 0 <= k < |steps'|
      ensures Follows(states'[k], steps'[k], states'[k + 1])
    {
      if k < |steps| {
        assert Follows(states[k], steps[k], states[k + 1]);
      }
    }
    assert Trace(states', steps') && states'[|steps'|] == t;
  }

  function AtStart(devices: seq<Device>): State {
    State(NO_TASK, Init, NoRequest, 0, 0, 0, Idle, Free, Ready, devices, [])
  }

  lemma StartIsReachable(devices: seq<Device>)
    requires forall k :: 0 <= k < |devices| ==> devices[k].status == Stopped && devices[k].request == NoStop
    ensures Reachable(AtStart(devices))
  {
    var states, steps: seq<Step> := [AtStart(devices)], [];
    assert Trace(states, steps) && InitialState(states[0]) && states[|steps|] == AtStart(devices);
  }

  /** A first task is assigned, and a thread waits to run it. */
  lemma FirstTaskOf(t: Task, devices: seq<Device>) returns (s: State)
    requires forall k :: 0 <= k < |devices| ==> devices[k].status == Stopped && devices[k].request == NoStop
    requires t.priority >= 0
    ensures Reachable(s) && s == AtStart(devices).(task := t, runs := 1)
  {
    StartIsReachable(devices);
    s := Reach(AtStart(devices), Receive(t));
    s := Reach(s, HandlerStep);
    s := Reach(s, HandlerStep);
    s := Reach(s, HandlerStep);
    s := Reach(s, HandlerStep);
  }

  lemma FirstTask(t: Task) returns (s: State)
    requires t.priority >= 0
    ensures Reachable(s) && s == AtStart([]).(task := t, runs := 1)
  {
    s := FirstTaskOf(t, []);
  }

  /** The thread enters `run` and comes to the head of the loop. */
  lemma EntersLoop(s: State) returns (t: State)
    requires Reachable(s) && s.runner == Idle && s.runs > 0 && s.task.executedCount < s.task.maxCount
    ensures Reachable(t)
    ensures t == s.(task := s.task.(executedCount := s.task.executedCount + 1), runs := s.runs - 1, i := 0,
                    log := [Begun], status := Execing, activeNo := 0, runner := LoopHead)
  {
    t := Reach(s, RunStep);
    t := Reach(t, RunStep);
  }

  /** Without a resume or cancel request the loop comes to the test for a pause. */
  lemma ReachesPauseTest(s: State) returns (t: State)
    requires Reachable(s) && s.runner == LoopHead && s.status == Execing && HasAction(s)
    requires s.req == NoRequest || s.req == ReqPause
    ensures Reachable(t) && t == s.(runner := CheckPause)
  {
    t := Reach(s, RunStep);
    t := Reach(t, RunStep);
    t := Reach(t, RunStep);
  }

  /** Without a pending request the loop comes to the point where it starts an action. */
  lemma ReachesAction(s: State) returns (t: State)
    requires Reachable(s) && s.runner == LoopHead && s.status == Execing && s.req == NoRequest && HasAction(s)
    ensures Reachable(t) && t == s.(runner := CheckExec)
  {
    t := ReachesPauseTest(s);
    t := Reach(t, RunStep);
  }

  /** When the battery runs low before a new task has entered `run`, the pause does nothing and an action of the task
    * starts beside the charging action.
    */
  lemma ChargingMayMeetAction(t: Task) returns (s: State)
    requires t.priority >= 0 && t.executedCount < t.maxCount && t.actions != []
    ensures Reachable(s) && s.handler == Charging && StartsAction(s, RunStep) && Enabled(s, RunStep)
  {
    s := FirstTask(t);
    s := Reach(s, LowBattery);
    s := Reach(s, ControlStep);
    s := Reach(s, HandlerStep);
    s := EntersLoop(s);
    s := ReachesAction(s);
  }

  // ---------------------------------------------------------------------------------------------------------
  // An assignment that waits for ever
  // ---------------------------------------------------------------------------------------------------------

  /** The handler waits for the end of a run that waits for the handler. */
  predicate Blocked(s: State) {
    s.handler.Assigning? && s.runner == PauseWait && s.req == ReqPause && s.control == Free
  }

  lemma BlockedForEver(s: State, step: Step)
    requires Inv(s) && Blocked(s)
    ensures !Enabled(s, step)
  {
  }

  /** A thread is started without a task having been assigned for it, or a task is assigned over one whose thread has
    * not yet entered `run`, so that there will be two threads for it.
    */
  predicate StartsExtraRun(s: State, step: Step) {
    || step.Spawn?
    || (step.HandlerStep? && s.handler.Gate? && Refuses(s, s.handler.task))
    || (Assigns(s, step) && s.runs > 0)
  }

  predicate OverAndOut(s: State) {
    s.status == Ended && (s.runner == Idle || s.runner == OverNotice)
  }

  /** One run for each assignment: what a system without extra runs keeps. */
  predicate OneRunEach(s: State) {
    && (s.runs > 0 ==> s.runs == 1 && s.status == Init && s.runner == Idle && s.handler != Starting)
    && (s.handler == Starting ==> s.status == Init && s.runner == Idle)
    && (s.runner == Denied || s.runner == Setup ==> s.status == Init)
    && (s.status == Init ==> s.req == NoRequest)
    && (s.handler.OverTest? || s.handler.Canceling? ==> s.status != Init)
    && CancelsServed(s)
    && (s.handler.Assigning? ==> s.req == NoRequest || OverAndOut(s))
  }

  /** A cancel that has returned has seen the end of the run. */
  predicate CancelsServed(s: State) {
    && (s.status == Canceled || s.runner == DoCancel ==> Serving(s.control) && s.req == ReqCancel)
    && (s.req == ReqCancel && !Serving(s.control) ==> OverAndOut(s))
    && (s.handler.Canceling? && s.control == EnterAgain ==> s.status == Paused || OverAndOut(s))
    && (s.handler.Canceling? && s.control == Free ==> OverAndOut(s))
  }

  lemma OneRunRuns(s: State)
    requires Inv(s) && OneRunEach(s) && RunEnabled(s)
    ensures OneRunEach(Run(s))
  {
  }

  lemma OneRunControlled(s: State)
    requires Inv(s) && OneRunEach(s) && ControlEnabled(s)
    ensures OneRunEach(Controlled(s))
  {
  }

  lemma OneRunStep(s: State, step: Step)
    requires Inv(s) && OneRunEach(s) && Enabled(s, step) && !StartsExtraRun(s, step)
    ensures OneRunEach(Apply(s, step))
  {
    match step
    case RunStep => OneRunRuns(s);
    case ControlStep => OneRunControlled(s);
    case _ =>
  }

  /** If every assigned task gets exactly one thread, no assignment ever waits for a pause. */
  lemma {:induction false} NeverBlocked(states: seq<State>, steps: seq<Step>, k: nat)
    requires Trace(states, steps) && InitialState(states[0]) && k <= |steps|
    requires forall j :: 0 <= j < |steps| ==> !StartsExtraRun(states[j], steps[j])
    ensures OneRunEach(states[k]) && !Blocked(states[k])
    decreases k
  {
    InvInitially(states[0]);
    InvAlongTrace(states, steps, k);
    if k > 0 {
      NeverBlocked(states, steps, k - 1);
      InvAlongTrace(states, steps, k - 1);
      assert Follows(states[k - 1], steps[k - 1], states[k]);
      OneRunStep(states[k - 1], steps[k - 1]);
    }
  }

  /** A pause is accepted while the last action fails, so that the run ends before it is served. */
  lemma PauseAtTheEnd(t: Task) returns (s: State)
    requires t.priority >= 0 && t.executedCount + 1 < t.maxCount && |t.actions| == 1
    ensures Reachable(s) && s.task == t.(executedCount := t.executedCount + 1)
    ensures s.status == Ended && s.req == ReqPause && s.runs == 0 && s.runner == Idle && Listening(s)
  {
    s := FirstTask(t);
    s := EntersLoop(s);
    s := ReachesAction(s);
    s := Reach(s, Begin(Pause));
    s := Reach(s, ControlStep);
    s := Reach(s, ControlStep);
    s := Reach(s, ControlStep);
    s := FailsAndEnds(s);
    s := Reach(s, ControlStep);
    s := Reach(s, RunStep);
  }

  lemma FailsAndEnds(s: State) returns (t: State)
    requires Reachable(s) && s.runner == CheckExec && s.status == Execing && HasAction(s) && s.devices == []
    ensures Reachable(t) && t.runner == OverNotice
    ensures t == s.(activeNo := t.activeNo, log := t.log, status := Ended, runner := OverNotice)
  {
    t := Reach(s, RunStep);
    t := Reach(t, RunStep);
    t := Reach(t, RunStep);
    t := Reach(t, RunStep);
  }

  /** With an extra thread an assignment can wait for ever: the extra run takes up a pause request that its call has
    * left behind, and the handler that could resume it waits for the run to end.
    */
  lemma AssignmentMayBlock(t: Task, u: Task) returns (s: State)
    requires t.priority >= 0 && t.executedCount + 1 < t.maxCount && |t.actions| == 1
    ensures Reachable(s) && Blocked(s) && s.handler == Assigning(u)
  {
    s := PauseAtTheEnd(t);
    s := Reach(s, Spawn);
    s := Reach(s, Receive(u));
    s := Reach(s, HandlerStep);
    s := Reach(s, HandlerStep);
    s := Reach(s, HandlerStep);
    s := EntersLoop(s);
    s := PausesAgain(s);
  }

  lemma PausesAgain(s: State) returns (t: State)
    requires Reachable(s) && s.runner == LoopHead && s.status == Execing && s.req == ReqPause && HasAction(s)
    ensures Reachable(t) && t == s.(status := Paused, log := s.log + [PauseNoted], runner := PauseWait)
  {
    t := ReachesPauseTest(s);
    t := Reach(t, RunStep);
    t := Reach(t, RunStep);
  }
}
