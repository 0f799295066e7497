/** Bounded work: an explicit bound on the number of steps, and what a system without enabled steps looks like. */
module SchedulerTermination {
  import opened Scheduler
  import opened SchedulerRuns
  import opened SchedulerReplacement

  const PER_ACTION := 10
  const PER_DEVICE := 14

  /** Steps that a run still needs from the head of the loop, one pass per remaining action. */
  function FromHead(s: State): int {
    3 + PER_ACTION * (|s.task.actions| - s.i)
  }

  /** Steps that the scheduler still needs, not counting what later requests may cost. */
  function RunnerCost(s: State): int {
    match s.runner
    case Idle => 0
    case Denied => 2
    case Setup => 4 + PER_ACTION * |s.task.actions|
    case LoopHead => FromHead(s) + if s.status == Paused then 3 else 0
    case CheckCancel => FromHead(s) + if s.status == Paused then 2 else -1
    case DoCancel => 3
    case CheckResume => FromHead(s) + if s.status == Paused then 1 else -2
    case DoResume => FromHead(s)
    case CheckPause => FromHead(s) - 3
    case DoPause => FromHead(s) - 4
    case PauseWait => FromHead(s) - 5
    case CheckExec => FromHead(s) + if s.status == Paused then 4 else -4
    case Calling => FromHead(s) - 5
    case Polling => FromHead(s) - 6
    case StopSeen => FromHead(s) + 3
    case ActionEnd(stopped) => FromHead(s) + if stopped then 2 else -7
    case Returned(stopped) => FromHead(s) + if stopped then 1 else -8
    case Threw => 3
    case Finish => 2
    case OverNotice => 1
  }

  /** Steps of a call from the test of device `k` on, with the retry that each `stop` may cause. */
  function FromTest(s: State, k: nat): int {
    2 + PER_DEVICE * (|s.devices| - k)
  }

  /** The pass of the loop that leaves a pause is paid for by the call that ends the pause. */
  function ResumeCredit(s: State): int {
    if s.runner == PauseWait || s.runner == DoPause then 10 else 0
  }

  function ControlCost(s: State): int {
    match s.control
    case Free => 0
    case Enter(_) => FromTest(s, 0) + 13
    case EnterAgain => FromTest(s, 0) + 12
    case Accept(c) => FromTest(s, 0) + 11
    case StopTest(c, k) => FromTest(s, k) + CallCredit(s, c)
    case StopRequest(c, k) => FromTest(s, k + 1) + 13 + CallCredit(s, c)
    case StopWait(c, k) =>
      FromTest(s, k + 1) + CallCredit(s, c) +
      if k < |s.devices| && s.devices[k].status == Running && s.runner != StopSeen then 12 else 2
    case StopClear(c, k) => FromTest(s, k + 1) + 1 + CallCredit(s, c)
    case Await(c) => 1 + CallCredit(s, c)
  }

  function CallCredit(s: State, c: Call): int {
    if c == Pause then 0 else ResumeCredit(s)
  }

  /** Steps of the handler up to the next message or assignment, with the call or thread that it may still start. */
  function HandlerCost(s: State): int {
    match s.handler
    case Ready => 0
    case Gate(_) => 5 + CallCost(s) + RunCost(s)
    case EmptyTest(_) => 4 + CallCost(s)
    case OverTest(_) => 3 + CallCost(s)
    case Canceling(_) => 1
    case Assigning(_) => 0
    case Starting => 1 + RunCost(s)
    case Pausing => 3 + CallCost(s)
    case Charging => 2 + CallCost(s)
    case Resuming => 1
  }

  function RunCost(s: State): int {
    5 + PER_ACTION * |s.task.actions|
  }

  /** A bound on the number of internal steps that can follow without a new call or thread. */
  function Measure(s: State): int {
    Work(s) + s.runs * RunCost(s)
  }

  /** Steps that remain in the current run and the current call. */
  function Core(s: State): int {
    RunnerCost(s) + ControlCost(s)
  }

  function Work(s: State): int {
    Core(s) + HandlerCost(s)
  }

  function CallCost(s: State): int {
    FromTest(s, 0) + 13
  }

  lemma MeasureNat(s: State)
    requires Inv(s)
    ensures Measure(s) >= 0
  {
    assert FromHead(s) >= 3;
    assert HasAction(s) ==> FromHead(s) >= 13;
    assert RunnerCost(s) >= 0;
    assert ControlCost(s) >= 0;
    assert HandlerCost(s) >= 0;
    assert s.runs * RunCost(s) >= 0;
  }

  /** The steps inside an action, where a device changes. */
  lemma ActionWork(s: State)
    requires Inv(s) && RunEnabled(s) && (s.runner == Calling || InPolling(s.runner))
    ensures Core(Run(s)) < Core(s)
  {
    assert ControlCost(Run(s)) <= ControlCost(s);
  }

  lemma LoopWork(s: State)
    requires Inv(s) && RunEnabled(s) && s.runner != Idle && s.runner != Calling && !InPolling(s.runner)
    requires s.runner != PauseWait
    ensures Core(Run(s)) < Core(s)
  {
    LoopCredit(s);
    LoopRunner(s);
  }

  lemma LoopCredit(s: State)
    requires Inv(s) && RunEnabled(s) && s.runner != Idle && s.runner != Calling && !InPolling(s.runner)
    requires s.runner != PauseWait
    ensures ControlCost(Run(s)) <= ControlCost(s)
  {
    assert Run(s).devices == s.devices && Run(s).control == s.control;
  }

  lemma LoopRunner(s: State)
    requires Inv(s) && RunEnabled(s) && s.runner != Idle && s.runner != Calling && !InPolling(s.runner)
    requires s.runner != PauseWait
    ensures RunnerCost(Run(s)) < RunnerCost(s)
  {
  }

  /** Leaving the pause is paid for by the call that ends it. */
  lemma PauseWork(s: State)
    requires Inv(s) && RunEnabled(s) && s.runner == PauseWait
    ensures Core(Run(s)) < Core(s)
  {
    assert ControlCost(s) == ControlCost(Run(s)) + 10;
  }

  lemma HandlerWork(s: State)
    requires Inv(s) && HandlerEnabled(s) && !s.handler.Assigning? && s.handler != Starting
    ensures Work(Handled(s)) < Work(s)
  {
    var t := Handled(s);
    assert t == s.(handler := t.handler, control := t.control);
    assert RunnerCost(t) == RunnerCost(s);
    assert s.control == Free || t.control == s.control;
  }

  lemma ThreadWork(s: State)
    requires Inv(s) && s.handler == Starting
    ensures Measure(Handled(s)) < Measure(s)
  {
    assert (s.runs + 1) * RunCost(s) == s.runs * RunCost(s) + RunCost(s);
  }

  lemma CompletionWork(s: State)
    requires Inv(s) && Enabled(s, ActionCompletes)
    ensures Core(Apply(s, ActionCompletes)) < Core(s)
  {
  }

  lemma RaiseWork(s: State)
    requires Inv(s) && ControlEnabled(s) && s.control.StopRequest?
    ensures Core(Controlled(s)) < Core(s)
  {
    assert RunnerCost(Controlled(s)) == RunnerCost(s);
  }

  lemma WithdrawWork(s: State)
    requires Inv(s) && ControlEnabled(s) && s.control.StopClear?
    ensures Core(Controlled(s)) < Core(s)
  {
    assert RunnerCost(Controlled(s)) == RunnerCost(s);
  }

  lemma TestWork(s: State)
    requires Inv(s) && ControlEnabled(s) && s.control.StopTest?
    ensures Core(Controlled(s)) < Core(s)
  {
    assert Controlled(s) == s.(control := Controlled(s).control);
    assert RunnerCost(Controlled(s)) == RunnerCost(s);
  }

  lemma WaitWork(s: State)
    requires Inv(s) && ControlEnabled(s) && s.control.StopWait?
    ensures Core(Controlled(s)) < Core(s)
  {
    assert Controlled(s) == s.(control := Controlled(s).control);
    assert RunnerCost(Controlled(s)) == RunnerCost(s);
  }

  lemma CallWork(s: State)
    requires Inv(s) && ControlEnabled(s) && !s.control.StopTest? && !s.control.StopWait?
    requires !s.control.StopRequest? && !s.control.StopClear?
    ensures Core(Controlled(s)) < Core(s)
  {
    assert Controlled(s).devices == s.devices;
    assert RunnerCost(Controlled(s)) == RunnerCost(s);
  }

  lemma ControlWork(s: State)
    requires Inv(s) && ControlEnabled(s)
    ensures Core(Controlled(s)) < Core(s)
  {
    match s.control
    case StopTest(_, _) => TestWork(s);
    case StopRequest(_, _) => RaiseWork(s);
    case StopWait(_, _) => WaitWork(s);
    case StopClear(_, _) => WithdrawWork(s);
    case _ => CallWork(s);
  }

  /** The part of the measure that counts threads not yet started is left alone. */
  lemma SameThreads(s: State, t: State)
    requires t.runs == s.runs && |t.task.actions| == |s.task.actions| && Work(t) < Work(s)
    ensures Measure(t) <= Measure(s) - 1
  {
  }

  /** So is the part of the handler. */
  lemma SameHandler(s: State, t: State)
    requires t.handler == s.handler && t.runs == s.runs && |t.devices| == |s.devices|
    requires |t.task.actions| == |s.task.actions| && Core(t) < Core(s)
    ensures Measure(t) <= Measure(s) - 1
  {
    assert HandlerCost(t) == HandlerCost(s);
    SameThreads(s, t);
  }

  /** A thread that starts takes the cost of its run. */
  lemma StartWork(s: State)
    requires Inv(s) && RunEnabled(s) && s.runner == Idle
    ensures Run(s).runs == s.runs - 1 && RunCost(Run(s)) == RunCost(s) && Work(Run(s)) < Work(s) + RunCost(s)
  {
  }

  lemma StartDecreases(s: State)
    requires Inv(s) && RunEnabled(s) && s.runner == Idle
    ensures Measure(Run(s)) < Measure(s)
  {
    StartWork(s);
    assert s.runs * RunCost(s) == (s.runs - 1) * RunCost(s) + RunCost(s);
  }

  lemma RunDecreases(s: State)
    requires Inv(s) && RunEnabled(s) && s.runner != Idle
    ensures Measure(Run(s)) <= Measure(s) - 1
  {
    if s.runner == Calling || InPolling(s.runner) {
      ActionWork(s);
    } else if s.runner == PauseWait {
      PauseWork(s);
    } else {
      LoopWork(s);
    }
    SameHandler(s, Run(s));
  }

  lemma HandlerDecreases(s: State)
    requires Inv(s) && HandlerEnabled(s) && !s.handler.Assigning?
    ensures Measure(Handled(s)) <= Measure(s) - 1
  {
    if s.handler == Starting {
      ThreadWork(s);
    } else {
      HandlerWork(s);
      SameThreads(s, Handled(s));
    }
  }

  /** Every internal step but an assignment lowers the measure. */
  lemma InternalStepCost(s: State, step: Step)
    requires Inv(s) && Enabled(s, step) && Internal(step) && !Assigns(s, step)
    ensures Measure(Apply(s, step)) <= Measure(s) - 1
  {
    match step
    case RunStep =>
      if s.runner == Idle { StartDecreases(s); } else { RunDecreases(s); }
    case ControlStep => ControlWork(s); SameHandler(s, Controlled(s));
    case HandlerStep => HandlerDecreases(s);
    case ActionCompletes => CompletionWork(s); SameHandler(s, Apply(s, step));
    case ActionReturns => SameHandler(s, Apply(s, step));
    case ActionThrows => SameHandler(s, Apply(s, step));
  }

  /** What the arrival of a message may cost. */
  function MessageCost(callCost: int, runCost: int, step: Step): int {
    match step
    case Begin(_) => callCost
    case Spawn => runCost
    case Receive(_) => 5 + callCost + runCost
    case LowBattery => 3 + 2 * callCost
    case _ => 0
  }

  /** A message raises the measure by a fixed amount. */
  lemma ArrivalCost(s: State, step: Step)
    requires Inv(s) && Enabled(s, step) && !Internal(step)
    ensures Measure(Apply(s, step)) <= Measure(s) + MessageCost(CallCost(s), RunCost(s), step)
  {
    assert RunnerCost(Apply(s, step)) == RunnerCost(s);
    if step.Spawn? {
      assert (s.runs + 1) * RunCost(s) == s.runs * RunCost(s) + RunCost(s);
    }
  }

  function InternalSteps(steps: seq<Step>): nat {
    if steps == [] then 0 else (if Internal(steps[0]) then 1 else 0) + InternalSteps(steps[1..])
  }

  /** What the messages that arrive in a run may cost. */
  function Arrivals(callCost: int, runCost: int, steps: seq<Step>): int {
    if steps == [] then 0
    else MessageCost(callCost, runCost, steps[0]) + Arrivals(callCost, runCost, steps[1..])
  }

  lemma SameCosts(s: State, step: Step)
    requires Enabled(s, step) && !Assigns(s, step)
    ensures CallCost(Apply(s, step)) == CallCost(s) && RunCost(Apply(s, step)) == RunCost(s)
  {
  }

  /** Within one assignment, the internal steps of every run are bounded by the measure of its first state plus
    * a fixed cost for each message that arrives. Failing polls are not steps.
    */
  lemma {:induction false} BoundedWork(states: seq<State>, steps: seq<Step>)
    requires Trace(states, steps) && Inv(states[0])
    requires forall k :: 0 <= k < |steps| ==> !Assigns(states[k], steps[k])
    ensures InternalSteps(steps) + Measure(states[|steps|])
            <= Measure(states[0]) + Arrivals(CallCost(states[0]), RunCost(states[0]), steps)
    decreases |steps|
  {
    if |steps| > 0 {
      assert Follows(states[0], steps[0], states[1]);
      InvStep(states[0], steps[0]);
      SameCosts(states[0], steps[0]);
      if Internal(steps[0]) {
        InternalStepCost(states[0], steps[0]);
      } else {
        ArrivalCost(states[0], steps[0]);
      }
      TraceTail(states, steps);
      BoundedWork(states[1..], steps[1..]);
    }
  }

  /** The handler waits for a message, and the scheduler has either finished or is left in a pause. */
  ghost predicate Quiescent(s: State) {
    && Listening(s)
    && (|| (s.runner == Idle && s.runs == 0 && (s.status == Ended || s.task == NO_TASK))
        || (s.runner == PauseWait && s.req == ReqPause && s.status == Paused))
  }

  /** Unless the system is quiescent or an assignment waits for a pause, some party can take a step: there is no other
    * deadlock and no lost wake-up.
    */
  lemma Progress(s: State) returns (step: Step)
    requires Inv(s) && !Quiescent(s) && !Blocked(s)
    ensures Internal(step) && Enabled(s, step)
  {
    if s.runner == Polling {
      step := ActionCompletes;
    } else if RunEnabled(s) {
      step := RunStep;
    } else if s.runner == Calling {
      step := ActionReturns;
    } else {
      assert s.runner == Idle || s.runner == PauseWait;
      step := if s.control == Free then HandlerStep else ControlStep;
    }
  }

  /** A run in which no message arrives and no task is assigned makes at most `Measure` steps, and when no party can
    * move any more, every call has returned and the task is over or left in a pause, or an assignment waits for it.
    */
  lemma RunsToRest(states: seq<State>, steps: seq<Step>)
    requires Trace(states, steps) && Reachable(states[0])
    requires forall k :: 0 <= k < |steps| ==> Internal(steps[k]) && !Assigns(states[k], steps[k])
    ensures |steps| <= Measure(states[0])
    ensures (forall step :: Internal(step) ==> !Enabled(states[|steps|], step)) <==>
            Quiescent(states[|steps|]) || Blocked(states[|steps|])
  {
    var last := states[|steps|];
    ReachableInv(states[0]);
    InvAlongTrace(states, steps, |steps|);
    BoundedWork(states, steps);
    AllInternal(CallCost(states[0]), RunCost(states[0]), steps);
    MeasureNat(last);
    if !Quiescent(last) && !Blocked(last) {
      var step := Progress(last);
    }
  }

  lemma {:induction false} AllInternal(callCost: int, runCost: int, steps: seq<Step>)
    requires forall k :: 0 <= k < |steps| ==> Internal(steps[k])
    ensures InternalSteps(steps) == |steps| && Arrivals(callCost, runCost, steps) == 0
  {
    if steps != [] {
      AllInternal(callCost, runCost, steps[1..]);
    }
  }
}
