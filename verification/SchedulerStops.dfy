/** How a pause or cancel stops the devices, and how the charging of the battery is framed, over all interleavings. */
module SchedulerStops {
  import opened Scheduler
  import opened SchedulerRuns
  import opened SchedulerReplacement

  // ---------------------------------------------------------------------------------------------------------
  // Stages of a run
  // ---------------------------------------------------------------------------------------------------------

  ghost function AtControl(control: Control): iset<State> {
    iset s: State | s.control == control
  }

  ghost function AtHandler(handler: Handler): iset<State> {
    iset s: State | s.handler == handler
  }

  /** A run that has been at a stage and is no longer there has left it at some time for the first time. */
  lemma {:induction false} FirstOut(states: seq<State>, a: nat, n: nat, stage: iset<State>) returns (t: nat)
    requires a <= n < |states| && states[a] in stage && states[n] !in stage
    ensures a <= t < n && states[t + 1] !in stage
    ensures forall j :: a <= j <= t ==> states[j] in stage
    decreases n - a
  {
    if states[a + 1] in stage {
      t := FirstOut(states, a + 1, n, stage);
    } else {
      t := a;
    }
  }

  /** A run that is at a stage has come to it at some time for the last time. */
  lemma {:induction false} LastIn(states: seq<State>, n: nat, stage: iset<State>) returns (t: nat)
    requires n < |states| && states[0] !in stage && states[n] in stage
    ensures t < n && states[t] !in stage
    ensures forall j :: t < j <= n ==> states[j] in stage
    decreases n
  {
    if states[n - 1] in stage {
      t := LastIn(states, n - 1, stage);
    } else {
      t := n - 1;
    }
  }

  // ---------------------------------------------------------------------------------------------------------
  // Stopping the devices
  // ---------------------------------------------------------------------------------------------------------

  /** A call that is under way is moved on by its own steps only. */
  lemma ControlMoves(s: State, step: Step)
    requires Inv(s) && Enabled(s, step) && s.control != Free && Apply(s, step).control != s.control
    ensures step == ControlStep
  {
  }

  /** Where the call leaves a program point of its handshake with a device. */
  lemma LeavesControl(states: seq<State>, steps: seq<Step>, a: nat, n: nat) returns (t: nat)
    requires Trace(states, steps) && Inv(states[0]) && a < n <= |steps|
    requires states[a].control != Free && states[n].control != states[a].control
    ensures a <= t < n && steps[t] == ControlStep && Inv(states[t]) && Follows(states[t], steps[t], states[t + 1])
    ensures forall j :: a <= j <= t ==> states[j].control == states[a].control
  {
    t := FirstOut(states, a, n, AtControl(states[a].control));
    InvAlongTrace(states, steps, t);
    assert Follows(states[t], steps[t], states[t + 1]);
    ControlMoves(states[t], steps[t]);
  }

  /** The stop request of the device is up from after `r` until the device is seen stopped at `q`. */
  ghost predicate Stops(states: seq<State>, steps: seq<Step>, m: nat, r: nat, q: nat, c: Call, k: nat) {
    && m < r < q < |steps| < |states|
    && (forall j :: m < j <= r ==> states[j].control == StopRequest(c, k)) && steps[r] == ControlStep
    && (forall j :: r < j <= q ==> states[j].control == StopWait(c, k) && Requested(states[j], k))
    && states[q].devices[k].status == Stopped && steps[q] == ControlStep
  }

  predicate Requested(s: State, k: nat) {
    k < |s.devices| && s.devices[k].request == ReqStop
  }

  lemma RunningIsAsked(states: seq<State>, steps: seq<Step>, m: nat, c: Call, k: nat)
    requires Trace(states, steps) && m < |steps|
    requires states[m].control == StopTest(c, k) && steps[m] == ControlStep && k < |states[m].devices|
    requires states[m].devices[k].stoppable && states[m].devices[k].status == Running
    ensures states[m + 1].control == StopRequest(c, k)
  {
    assert Follows(states[m], steps[m], states[m + 1]);
  }

  /** While the call waits for the device, its request is up. */
  lemma StaysRequested(states: seq<State>, steps: seq<Step>, r: nat, q: nat, c: Call, k: nat)
    requires Trace(states, steps) && Inv(states[0]) && r < q <= |steps|
    requires forall j :: r < j <= q ==> states[j].control == StopWait(c, k)
    ensures forall j :: r < j <= q ==> Requested(states[j], k)
  {
    forall j | r < j <= q
      ensures Requested(states[j], k)
    {
      InvAlongTrace(states, steps, j);
    }
  }

  /** A device that runs when a pause or cancel comes to it is asked to stop, and the call does not pass it until it has
    * been seen stopped; the request stays up for so long.
    */
  lemma StopIsRaised(states: seq<State>, steps: seq<Step>, m: nat, n: nat, c: Call, k: nat) returns (r: nat, q: nat)
    requires Trace(states, steps) && Inv(states[0]) && m < n <= |steps|
    requires states[m].control == StopTest(c, k) && steps[m] == ControlStep && k < |states[m].devices|
    requires states[m].devices[k].stoppable && states[m].devices[k].status == Running
    requires states[n].control != StopRequest(c, k) && states[n].control != StopWait(c, k)
    ensures q < n && Stops(states, steps, m, r, q, c, k)
  {
    RunningIsAsked(states, steps, m, c, k);
    r := LeavesControl(states, steps, m + 1, n);
    q := LeavesControl(states, steps, r + 1, n);
    StaysRequested(states, steps, r, q, c, k);
  }

  /** The call has not yet come to the device, or is about to test it. */
  predicate NotPast(control: Control, c: Call, k: nat) {
    || (control.StopTest? && control.call == c && control.k <= k)
    || ((control.StopRequest? || control.StopWait? || control.StopClear?) && control.call == c && control.k < k)
  }

  ghost function NotYet(c: Call, k: nat): iset<State> {
    iset s: State | NotPast(s.control, c, k)
  }

  lemma TestIsNotSkipped(s: State, step: Step, c: Call, k: nat)
    requires Enabled(s, step) && NotPast(s.control, c, k) && k < |s.devices| && s.control != Free
    requires HandlerInv(s)
    ensures NotPast(Apply(s, step).control, c, k) || (s.control == StopTest(c, k) && step == ControlStep)
  {
  }

  lemma {:induction false} DevicesStay(states: seq<State>, steps: seq<Step>, k: nat)
    requires Trace(states, steps) && k <= |steps|
    ensures |states[k].devices| == |states[0].devices|
    decreases k
  {
    if k > 0 {
      DevicesStay(states, steps, k - 1);
      assert Follows(states[k - 1], steps[k - 1], states[k]);
    }
  }

  /** An accepted pause or cancel tests every device before it waits for its effect. */
  lemma EveryDeviceIsTested(states: seq<State>, steps: seq<Step>, a: nat, n: nat, c: Call, k: nat) returns (m: nat)
    requires Trace(states, steps) && Inv(states[0]) && a < n <= |steps| && c != Resume
    requires states[a].control == Accept(c) && states[n].control == Await(c) && k < |states[0].devices|
    ensures a < m < n && states[m].control == StopTest(c, k) && steps[m] == ControlStep && k < |states[m].devices|
  {
    var b := LeavesControl(states, steps, a, n);
    m := FirstOut(states, b + 1, n, NotYet(c, k));
    InvAlongTrace(states, steps, m);
    DevicesStay(states, steps, m);
    assert Follows(states[m], steps[m], states[m + 1]);
    TestIsNotSkipped(states[m], steps[m], c, k);
  }

  /** So an accepted pause or cancel tests every device, and stops it if it runs then. */
  lemma EveryDeviceIsStopped(states: seq<State>, steps: seq<Step>, a: nat, n: nat, c: Call, k: nat)
    returns (m: nat, r: nat, q: nat)
    requires Trace(states, steps) && Inv(states[0]) && a < n <= |steps| && c != Resume
    requires states[a].control == Accept(c) && states[n].control == Await(c) && k < |states[0].devices|
    ensures a < m < n && states[m].control == StopTest(c, k) && k < |states[m].devices|
    ensures states[m].devices[k].stoppable && states[m].devices[k].status == Running ==>
      q < n && Stops(states, steps, m, r, q, c, k)
  {
    m := EveryDeviceIsTested(states, steps, a, n, c, k);
    r, q := 0, 0;
    if states[m].devices[k].stoppable && states[m].devices[k].status == Running {
      r, q := StopIsRaised(states, steps, m, n, c, k);
    }
  }

  const MOTOR := Device(true, Stopped, NoStop)

  /** The loop is inside the polling action of the only device. */
  lemma ActionPolls(t: Task) returns (s: State)
    requires t.priority >= 0 && t.executedCount < t.maxCount && t.actions != []
    requires t.actions[0].device == 0 && t.actions[0].polling
    ensures Reachable(s) && s.runner == Polling && s.status == Execing && s.control == Free && s.handler == Ready
    ensures s.i == 0 && s.task.actions == t.actions && s.devices == [MOTOR.(status := Running)] && s.req == NoRequest
  {
    s := FirstTaskOf(t, [MOTOR]);
    s := EntersLoop(s);
    s := ReachesAction(s);
    s := CallsDevice(s);
  }

  /** The loop starts the current action, which polls the only device. */
  lemma CallsDevice(s: State) returns (t: State)
    requires Reachable(s) && s.runner == CheckExec && s.status == Execing && s.devices == [MOTOR] && HasAction(s)
    requires s.task.actions[s.i].device == 0 && s.task.actions[s.i].polling
    ensures Reachable(t)
    ensures t == s.(activeNo := t.activeNo, log := t.log, devices := [MOTOR.(status := Running)], runner := Polling)
  {
    t := Reach(s, RunStep);
    t := Reach(t, RunStep);
  }

  /** A pause comes to the device and raises its request. */
  lemma PauseRaises(s: State) returns (t: State)
    requires Reachable(s) && s.runner == Polling && s.status == Execing && s.control == Free && s.handler == Ready
    requires s.devices == [MOTOR.(status := Running)]
    ensures Reachable(t)
    ensures t == s.(req := ReqPause, control := StopWait(Pause, 0), devices := [Device(true, Running, ReqStop)])
  {
    t := Reach(s, Begin(Pause));
    t := Reach(t, ControlStep);
    t := Reach(t, ControlStep);
    t := Reach(t, ControlStep);
    t := Reach(t, ControlStep);
  }

  /** The action sees the request, stops the device and returns. */
  lemma SeesRequest(s: State) returns (t: State)
    requires Reachable(s) && s.runner == Polling && s.devices == [Device(true, Running, ReqStop)] && HasAction(s)
    requires s.task.actions[s.i].device == 0 && s.task.actions[s.i].polling
    ensures Reachable(t) && t == s.(devices := [Device(true, Stopped, ReqStop)], runner := Returned(true))
  {
    t := Reach(s, RunStep);
    t := Reach(t, RunStep);
    t := Reach(t, RunStep);
  }

  /** Actions do get stopped: a run in which a pause ends a polling action before it is done. */
  lemma ActionGetsStopped(t: Task) returns (s: State)
    requires t.priority >= 0 && t.executedCount < t.maxCount && t.actions != []
    requires t.actions[0].device == 0 && t.actions[0].polling
    ensures Reachable(s) && JustStopped(s) && s.runner == Returned(true)
    ensures s.control == StopWait(Pause, 0) && s.devices == [Device(true, Stopped, ReqStop)]
  {
    s := ActionPolls(t);
    s := PauseRaises(s);
    s := SeesRequest(s);
  }

  // ---------------------------------------------------------------------------------------------------------
  // Charging
  // ---------------------------------------------------------------------------------------------------------

  /** The handler is moved on by its own steps, except when a message arrives. */
  lemma HandlerMoves(s: State, step: Step)
    requires Enabled(s, step) && Apply(s, step).handler != s.handler
    ensures step == HandlerStep || (s.handler == Ready && s.control == Free && !Internal(step))
  {
  }

  /** The battery is charged only after a pause has been called for it and has returned. */
  lemma PauseComesFirst(states: seq<State>, steps: seq<Step>, k: nat) returns (g: nat, p: nat)
    requires Trace(states, steps) && k <= |steps| && states[k].handler == Charging
    requires states[0].handler != Charging && states[0].handler != Pausing
    ensures g < p < k && steps[g] == LowBattery && states[g + 1].control == Enter(Pause)
    ensures forall j :: g < j <= p ==> states[j].handler == Pausing
    ensures states[p].control == Free && steps[p] == HandlerStep
    ensures forall j :: p < j <= k ==> states[j].handler == Charging
  {
    p := LastIn(states, k, AtHandler(Charging));
    assert Follows(states[p], steps[p], states[p + 1]);
    HandlerMoves(states[p], steps[p]);
    g := LastIn(states, p, AtHandler(Pausing));
    assert Follows(states[g], steps[g], states[g + 1]);
    HandlerMoves(states[g], steps[g]);
  }

  /** After the charging a resume is called and has returned before the next message is taken. */
  lemma ResumeComesNext(states: seq<State>, steps: seq<Step>, k: nat, n: nat) returns (r: nat, q: nat)
    requires Trace(states, steps) && k < n <= |steps| && states[k].handler == Charging && states[n].handler == Ready
    ensures k <= r < q < n && steps[r] == HandlerStep && states[r + 1].control == Enter(Resume)
    ensures forall j :: k <= j <= r ==> states[j].handler == Charging
    ensures forall j :: r < j <= q ==> states[j].handler == Resuming
    ensures states[q].control == Free && steps[q] == HandlerStep && states[q + 1].handler == Ready
  {
    r := FirstOut(states, k, n, AtHandler(Charging));
    assert Follows(states[r], steps[r], states[r + 1]);
    HandlerMoves(states[r], steps[r]);
    q := FirstOut(states, r + 1, n, AtHandler(Resuming));
    assert Follows(states[q], steps[q], states[q + 1]);
    HandlerMoves(states[q], steps[q]);
  }
}
