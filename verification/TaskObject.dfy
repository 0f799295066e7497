/**
 * The task object with the loops of the program (`task.cpp`, `device_mqtt.cpp`, `smart_service.cpp`). Between any two
 * accesses of a shared variable the other thread may do whatever it can: what it does is taken from a script of
 * arbitrary steps. Ghost program counters and the history of steps tie the loops to the interleaved system.
 */
module TaskObject {
  import opened Basics
  import opened Scheduler
  import opened SchedulerRuns
  import opened SchedulerFeedback
  import opened SchedulerReplacement
  import opened SchedulerStops
  import opened SchedulerTermination

  // ---------------------------------------------------------------------------------------------------------
  // Histories
  // ---------------------------------------------------------------------------------------------------------

  /** The state that a sequence of steps leads to, if every one of them is possible. */
  ghost function After(start: State, steps: seq<Step>): Option<State> {
    if steps == [] then Some(start)
    else
      var last := steps[|steps| - 1];
      var before := After(start, steps[..|steps| - 1]);
      if before.Some? && Enabled(before.value, last) then Some(Apply(before.value, last)) else None
  }

  lemma AfterSnoc(start: State, steps: seq<Step>, s: State, step: Step)
    requires After(start, steps) == Some(s) && Enabled(s, step)
    ensures After(start, steps + [step]) == Some(Apply(s, step))
  {
    assert (steps + [step])[..|steps|] == steps;
  }

  /** What a history leads to is reachable, so that all theorems about the system hold of it. */
  lemma {:induction false} AfterIsReachable(start: State, steps: seq<Step>, s: State)
    requires InitialState(start) && After(start, steps) == Some(s)
    ensures Reachable(s)
  {
    if steps == [] {
      var states := [start];
      assert Trace(states, steps) && InitialState(states[0]) && states[|steps|] == s;
    } else {
      var n := |steps| - 1;
      var before := After(start, steps[..n]).value;
      AfterIsReachable(start, steps[..n], before);
      var t := Reach(before, steps[n]);
    }
  }

  /** Outside of `run` the task has not run yet, or it is over and its end is the last that has been published. */
  predicate NotRunning(s: State) {
    if s.log == [] then s.status == Init else s.status == Ended && s.log[|s.log| - 1] == Over
  }

  predicate LogFits(s: State) {
    && (s.runner == Idle ==> NotRunning(s)) && (s.runner == OverNotice ==> s.status == Ended)
    && (s.log == [] ==> s.runner == Idle)
  }

  lemma LogFitsStep(s: State, step: Step)
    requires LogFits(s) && Enabled(s, step)
    ensures LogFits(Apply(s, step))
  {
  }

  lemma {:induction false} AfterFits(start: State, steps: seq<Step>, s: State)
    requires InitialState(start) && After(start, steps) == Some(s)
    ensures LogFits(s)
  {
    if steps != [] {
      var n := |steps| - 1;
      AfterFits(start, steps[..n], After(start, steps[..n]).value);
      LogFitsStep(After(start, steps[..n]).value, steps[n]);
    }
  }

  /** The step at `k` of the history assigns the new task; no thread runs the old one, whose end is published. */
  ghost predicate AssignedAt(start: State, steps: seq<Step>, k: nat, newTask: Task) {
    k < |steps| && After(start, steps[..k]).Some? &&
    var s := After(start, steps[..k]).value;
    && Assigns(s, steps[k]) && s.handler == Assigning(newTask) && s.control == Free && s.runner == Idle
    && NotRunning(s)
  }

  lemma AssignedStays(start: State, steps: seq<Step>, k: nat, newTask: Task, more: seq<Step>)
    requires AssignedAt(start, steps, k, newTask) && steps <= more
    ensures AssignedAt(start, more, k, newTask)
  {
    assert more[..k] == steps[..k] && more[k] == steps[k];
  }

  /** After `k` steps of the history the task is paused. */
  ghost predicate PausedAt(start: State, steps: seq<Step>, k: nat) {
    k <= |steps| && After(start, steps[..k]).Some? && After(start, steps[..k]).value.status == Paused
  }

  /** The last step of the history has started a thread. */
  ghost predicate EndsWithStart(start: State, steps: seq<Step>) {
    && steps != [] && After(start, steps[..|steps| - 1]).Some? && After(start, steps).Some?
    && steps[|steps| - 1] == HandlerStep
    && After(start, steps).value.runs == After(start, steps[..|steps| - 1]).value.runs + 1
  }

  /** The states that a history goes through. */
  ghost function StatesOf(start: State, steps: seq<Step>): (states: seq<State>)
    requires After(start, steps).Some?
    ensures |states| == |steps| + 1 && states[|steps|] == After(start, steps).value
  {
    if steps == [] then [start] else StatesOf(start, steps[..|steps| - 1]) + [After(start, steps).value]
  }

  /** A history is a run of the step system. */
  lemma {:induction false} HistoryIsTrace(start: State, steps: seq<Step>)
    requires After(start, steps).Some?
    ensures Trace(StatesOf(start, steps), steps) && StatesOf(start, steps)[0] == start
    ensures forall j :: 0 <= j <= |steps| ==> After(start, steps[..j]) == Some(StatesOf(start, steps)[j])
  {
    assert steps[..|steps|] == steps;
    if steps != [] {
      var n := |steps| - 1;
      HistoryIsTrace(start, steps[..n]);
      HistorySnoc(StatesOf(start, steps[..n]), steps, After(start, steps).value);
      forall j | 0 <= j < |steps|
        ensures After(start, steps[..j]) == Some(StatesOf(start, steps)[j])
      {
        assert steps[..n][..j] == steps[..j];
      }
    }
  }

  lemma HistorySnoc(states: seq<State>, steps: seq<Step>, s: State)
    requires steps != [] && Trace(states, steps[..|steps| - 1])
    requires Follows(states[|steps| - 1], steps[|steps| - 1], s)
    ensures Trace(states + [s], steps)
  {
    forall k | 0 <= k < |steps|
      ensures Follows((states + [s])[k], steps[k], (states + [s])[k + 1])
    {
      if k < |steps| - 1 {
        assert Follows(states[k], steps[..|steps| - 1][k], states[k + 1]);
      }
    }
  }

  /** In the history the device has been asked to stop after `m`, and has then been seen stopped. */
  ghost predicate StoppedAfter(start: State, steps: seq<Step>, m: nat, c: Call, k: nat) {
    After(start, steps).Some? && exists r, q :: Stops(StatesOf(start, steps), steps, m, r, q, c, k)
  }

  lemma StoppedInHistory(start: State, steps: seq<Step>, m: nat, c: Call, k: nat, s: State, t: State)
    requires InitialState(start) && After(start, steps) == Some(t) && m < |steps|
    requires After(start, steps[..m]) == Some(s) && steps[m] == ControlStep && s.control == StopTest(c, k)
    requires k < |s.devices| && s.devices[k].stoppable && s.devices[k].status == Running
    requires t.control == StopTest(c, k + 1)
    ensures StoppedAfter(start, steps, m, c, k)
  {
    HistoryIsTrace(start, steps);
    InvInitially(start);
    var r, q := StopIsRaised(StatesOf(start, steps), steps, m, |steps|, c, k);
  }

  // ---------------------------------------------------------------------------------------------------------
  // What the other thread leaves alone
  // ---------------------------------------------------------------------------------------------------------

  datatype Party = SchedulerThread | MessageThread

  function PartyOf(step: Step): Party {
    if step.RunStep? || step.ActionReturns? || step.ActionThrows? || step.ActionCompletes? then SchedulerThread
    else MessageThread
  }

  /** The devices differ at most in their stop requests. */
  predicate SameStatuses(a: seq<Device>, b: seq<Device>) {
    |a| == |b| && forall k :: 0 <= k < |a| ==> a[k].stoppable == b[k].stoppable && a[k].status == b[k].status
  }

  /** The devices differ at most in their statuses. */
  predicate SameRequests(a: seq<Device>, b: seq<Device>) {
    |a| == |b| && forall k :: 0 <= k < |a| ==> a[k].stoppable == b[k].stoppable && a[k].request == b[k].request
  }

  /** What a thread can rely on while the other one runs. */
  predicate Keeps(me: Party, s: State, t: State) {
    match me
    case SchedulerThread =>
      && t.runner == s.runner && t.task == s.task && t.status == s.status && t.i == s.i
      && t.activeNo == s.activeNo && t.log == s.log && SameStatuses(s.devices, t.devices)
    case MessageThread =>
      && t.control == s.control && t.handler == s.handler && t.req == s.req
      && SameTask(t.task, s.task) && SameRequests(s.devices, t.devices)
  }

  lemma StepKeeps(me: Party, s: State, step: Step)
    requires Enabled(s, step) && PartyOf(step) != me && (me == SchedulerThread ==> s.runner != Idle)
    ensures Keeps(me, s, Apply(s, step))
  {
  }

  lemma {:induction false} KeepsTwice(me: Party, s: State, t: State, u: State)
    requires Keeps(me, s, t) && Keeps(me, t, u)
    ensures Keeps(me, s, u)
  {
  }

  /** The rest of the script is shorter, or as long and the measure of the system is lower. */
  predicate Nearer(script: nat, measure: int, script': nat, measure': int) {
    script < script' || (script == script' && 0 <= measure < measure')
  }

  /** A step continues a history, and brings the system nearer to rest if it is one of its own. */
  lemma Recorded(start: State, steps: seq<Step>, before: State, step: Step)
    requires InitialState(start) && After(start, steps) == Some(before) && Enabled(before, step)
    ensures After(start, steps + [step]) == Some(Apply(before, step))
    ensures Internal(step) && !Assigns(before, step) ==> 0 <= Measure(Apply(before, step)) < Measure(before)
  {
    AfterIsReachable(start, steps, before);
    ReachableInv(before);
    InvStep(before, step);
    if Internal(step) && !Assigns(before, step) {
      InternalStepCost(before, step);
    }
    MeasureNat(Apply(before, step));
    AfterSnoc(start, steps, before, step);
  }

  class SharedTask {
    var task: Task
    var status: Status
    var req: Request
    var i: nat
    var activeNo: int
    var devices: seq<Device>
    var log: seq<Event>
    /** What other threads will do if they can. */
    var script: seq<Step>
    /** The program counters of the threads. */
    var runs: nat
    var runner: Runner
    var control: Control
    var handler: Handler
    ghost const start: State
    ghost var steps: seq<Step>

    function View(): State
      reads this
    {
      State(task, status, req, i, activeNo, runs, runner, control, handler, devices, log)
    }

    /** The object is where its history has led. */
    ghost predicate Valid()
      reads this
    {
      InitialState(start) && After(start, steps) == Some(View())
    }

    /** The history goes on. */
    twostate predicate Continues()
      reads this
    {
      Valid() && old(steps) <= steps
    }

    lemma Known()
      requires Valid()
      ensures Reachable(View()) && Inv(View()) && Measure(View()) >= 0
    {
      AfterIsReachable(start, steps, View());
      ReachableInv(View());
      MeasureNat(View());
    }

    constructor (devices: seq<Device>, script: seq<Step>)
      requires forall k :: 0 <= k < |devices| ==> devices[k].status == Stopped && devices[k].request == NoStop
      ensures Valid() && View() == AtStart(devices) && this.script == script
    {
      task, status, req, i, activeNo, log := NO_TASK, Init, NoRequest, 0, 0, [];
      this.devices, this.script := devices, script;
      runs, runner, control, handler := 0, Idle, Free, Ready;
      start, steps := AtStart(devices), [];
    }

    /** Records that the last statements were a step: the program counters follow, and the shared fields must fit. */
    method Record(before: State, step: Step)
      requires InitialState(start) && After(start, steps) == Some(before) && Enabled(before, step)
      requires var t := Apply(before, step);
        && task == t.task && status == t.status && req == t.req && i == t.i && activeNo == t.activeNo
        && devices == t.devices && log == t.log
      modifies this`runs, this`runner, this`control, this`handler, this`steps
      ensures Valid() && View() == Apply(before, step) && steps == old(steps) + [step]
      ensures Internal(step) && !Assigns(before, step) ==> 0 <= Measure(View()) < Measure(before)
    {
      Recorded(start, steps, before, step);
      var t := Apply(before, step);
      runs, runner, control, handler := t.runs, t.runner, t.control, t.handler;
      steps := steps + [step];
    }

    /** One step of another thread, if it is one and possible. */
    method OtherStep(me: Party, step: Step)
      requires Valid() && (me == SchedulerThread ==> runner != Idle)
      modifies this`task, this`status, this`req, this`i, this`activeNo, this`devices, this`log
      modifies this`runs, this`runner, this`control, this`handler, this`steps
      ensures Continues() && Keeps(me, old(View()), View())
    {
      var s := View();
      if PartyOf(step) != me && Enabled(s, step) {
        var t := Apply(s, step);
        task, status, req, i, activeNo := t.task, t.status, t.req, t.i, t.activeNo;
        devices, log := t.devices, t.log;
        Record(s, step);
        StepKeeps(me, s, step);
      }
    }

    /** The other threads take any number of steps of the script; at least one is tried if this thread must wait. */
    method Interfere(me: Party, wait: bool) returns (tried: bool)
      requires Valid() && (me == SchedulerThread ==> runner != Idle)
      modifies this
      ensures Continues() && Keeps(me, old(View()), View())
      ensures |script| <= |old(script)| && (|script| == |old(script)| ==> View() == old(View()))
      ensures tried ==> |script| < |old(script)|
      ensures wait && !tried ==> View() == old(View()) && script == old(script) == []
    {
      tried := false;
      var more: bool := *;
      ghost var s := View();
      while script != [] && (more || (wait && !tried))
        invariant Continues() && Keeps(me, s, View())
        invariant |script| <= |old(script)| && (tried <==> |script| < |old(script)|)
        invariant !tried ==> View() == s && script == old(script)
        decreases |script|
      {
        ghost var t := View();
        var step := script[0];
        script := script[1..];
        OtherStep(me, step);
        KeepsTwice(me, s, t, View());
        tried, more := true, *;
      }
    }

    // -------------------------------------------------------------------------------------------------------
    // The scheduler thread
    // -------------------------------------------------------------------------------------------------------

    /** What a piece of the loop ensures: it is a piece of the history, on the same task, and the end is nearer. */
    twostate predicate Went()
      reads this
    {
      && Continues() && task == old(task)
      && Nearer(|script|, Measure(View()), |old(script)|, Measure(old(View())))
    }

    method ServeCancel() returns (canceled: bool)
      requires Valid() && runner == CheckCancel
      modifies this
      ensures Went() && runner == if canceled then Finish else CheckResume
    {
      canceled := TestCancel();
      if canceled {
        NoteCancel();
      }
    }

    method TestCancel() returns (canceled: bool)
      requires Valid() && runner == CheckCancel
      modifies this
      ensures Went() && runner == if canceled then DoCancel else CheckResume
    {
      var s := View();
      canceled := req == ReqCancel && (status == Execing || status == Paused);
      Record(s, RunStep);
    }

    method NoteCancel()
      requires Valid() && runner == DoCancel
      modifies this
      ensures Went() && runner == Finish
    {
      var _ := Interfere(SchedulerThread, false);
      var s := View();
      status := Canceled;
      log := log + [CancelNoted];
      Record(s, RunStep);
    }

    method ServeResume()
      requires Valid() && runner == CheckResume
      modifies this
      ensures Went() && runner == CheckPause
    {
      var s := View();
      var resuming := req == ReqResume && status == Paused;
      Record(s, RunStep);
      if resuming {
        Continue();
      }
    }

    method Continue()
      requires Valid() && runner == DoResume
      modifies this
      ensures Went() && runner == CheckPause
    {
      var _ := Interfere(SchedulerThread, false);
      var s := View();
      status := Execing;
      Record(s, RunStep);
    }

    /** A pause is waited out until a resume or cancel stands; false means that the script ends during the pause. */
    method ServePause() returns (ok: bool)
      requires Valid() && runner == CheckPause
      modifies this
      ensures Went() && i == old(i) && (ok ==> runner == CheckExec)
      ensures if old(req) == ReqPause then status == Paused && log == old(log) + [PauseNoted]
              else ok && status == Execing && log == old(log)
      ensures ok && status == Paused ==> req == ReqResume || req == ReqCancel
      ensures !ok ==> runner == PauseWait && status == Paused && req != ReqResume && req != ReqCancel && script == []
    {
      var pausing := TestPause();
      ok := true;
      if pausing {
        NotePause();
        ok := AwaitRequest();
      }
    }

    method TestPause() returns (pausing: bool)
      requires Valid() && runner == CheckPause
      modifies this
      ensures Went() && View() == old(View()).(runner := if pausing then DoPause else CheckExec)
      ensures status == Execing && (pausing <==> req == ReqPause)
    {
      Known();
      var s := View();
      pausing := req == ReqPause && status == Execing;
      Record(s, RunStep);
    }

    /** The loop waits for a resume or a cancel; nothing has happened if the script was over before. */
    method AwaitRequest() returns (ok: bool)
      requires Valid() && runner == PauseWait && status == Paused
      modifies this
      ensures Went() || (!ok && View() == old(View()) && script == old(script) && Continues())
      ensures status == Paused && log == old(log) && i == old(i) && task == old(task)
      ensures ok ==> runner == CheckExec && (req == ReqResume || req == ReqCancel)
      ensures !ok ==> runner == PauseWait && req != ReqResume && req != ReqCancel && script == []
    {
      ok := WaitForRequest();
      if ok {
        Resumed();
      }
    }

    method Resumed()
      requires Valid() && runner == PauseWait && status == Paused && (req == ReqResume || req == ReqCancel)
      modifies this
      ensures Went() && View() == old(View()).(runner := CheckExec) && script == old(script)
    {
      var s := View();
      Record(s, RunStep);
    }

    method WaitForRequest() returns (ok: bool)
      requires Valid() && runner == PauseWait
      modifies this
      ensures Continues() && Keeps(SchedulerThread, old(View()), View())
      ensures |script| <= |old(script)| && (|script| == |old(script)| ==> View() == old(View()))
      ensures ok <==> req == ReqResume || req == ReqCancel
      ensures !ok ==> script == []
    {
      ghost var s := View();
      while req != ReqResume && req != ReqCancel
        invariant Continues() && Keeps(SchedulerThread, s, View())
        invariant |script| <= |old(script)| && (|script| == |old(script)| ==> View() == s)
        decreases |script|
      {
        ghost var t := View();
        var tried := Interfere(SchedulerThread, true);
        KeepsTwice(SchedulerThread, s, t, View());
        if !tried {
          return false;
        }
      }
      ok := true;
    }

    method NotePause()
      requires Valid() && runner == DoPause
      modifies this
      ensures Went() && runner == PauseWait && status == Paused && log == old(log) + [PauseNoted] && i == old(i)
    {
      var _ := Interfere(SchedulerThread, false);
      var s := View();
      status := Paused;
      log := log + [PauseNoted];
      Record(s, RunStep);
    }

    /** The scheduler is inside a polling action of a device, at the same place of the list as before. */
    twostate predicate AtDevice(k: nat)
      reads this
    {
      && Went() && status == old(status) && i == old(i) && activeNo == old(activeNo) && log == old(log)
      && HasAction(View()) && task.actions[i].device == k && Polls(View())
    }

    method SetStatus(k: nat, value: DeviceStatus)
      requires Valid() && HasAction(View()) && task.actions[i].device == k < |devices| && Polls(View())
      requires (runner == Calling && value == Running)
               || ((runner == StopSeen || runner.ActionEnd?) && value == Stopped)
      modifies this
      ensures AtDevice(k)
      ensures runner == match old(runner)
                        case Calling => Polling
                        case StopSeen => ActionEnd(true)
                        case ActionEnd(stopped) => Returned(stopped)
                        case r => r
    {
      var s := View();
      devices := devices[k := devices[k].(status := value)];
      Record(s, RunStep);
    }

    /** The action has seen the request and reports that it was stopped. */
    method StopSelf(k: nat)
      requires Valid() && runner == Polling && HasAction(View()) && task.actions[i].device == k < |devices|
      requires Polls(View()) && devices[k].request == ReqStop
      modifies this
      ensures AtDevice(k) && runner == ActionEnd(true)
    {
      SeeStop(k);
      SetStatus(k, Stopped);
    }

    method SeeStop(k: nat)
      requires Valid() && runner == Polling && HasAction(View()) && task.actions[i].device == k < |devices|
      requires Polls(View()) && devices[k].request == ReqStop
      modifies this
      ensures AtDevice(k) && |devices| == |old(devices)| && runner == StopSeen
    {
      var s := View();
      Record(s, RunStep);
      var _ := Interfere(SchedulerThread, false);
    }

    method Arrive(k: nat)
      requires Valid() && runner == Polling && HasAction(View()) && task.actions[i].device == k < |devices|
      requires Polls(View())
      modifies this
      ensures AtDevice(k) && runner == ActionEnd(false)
    {
      var s := View();
      Record(s, ActionCompletes);
    }

    /** One round of the polling loop, after which the action may have been stopped or the device have arrived. */
    method PollOnce(k: nat) returns (stopped: bool, arrived: bool)
      requires Valid() && runner == Polling && HasAction(View()) && task.actions[i].device == k < |devices|
      requires Polls(View())
      modifies this
      ensures (stopped || arrived) && !(stopped && arrived) ==> AtDevice(k) && runner == ActionEnd(stopped)
      ensures !stopped && !arrived ==> AtDevice(k) && |script| < |old(script)| && runner == Polling
      ensures !(stopped && arrived)
    {
      stopped, arrived := false, false;
      var tried := Interfere(SchedulerThread, true);
      var nearby: bool := *;
      if devices[k].request == ReqStop {
        StopSelf(k);
        stopped := true;
      } else if nearby || !tried {
        Arrive(k);
        arrived := true;
      }
    }

    /** The polling loop of an action, which ends when the device arrives or is asked to stop. */
    method PollDevice(k: nat) returns (stopped: bool)
      requires Valid() && runner == Calling && HasAction(View()) && task.actions[i].device == k < |devices|
      requires Polls(View())
      modifies this
      ensures AtDevice(k) && runner == Returned(stopped)
    {
      SetStatus(k, Running);
      stopped := false;
      var arrived := false;
      while !stopped && !arrived
        invariant AtDevice(k) && runner == if stopped || arrived then ActionEnd(stopped) else Polling
        decreases !stopped && !arrived, |script|
      {
        stopped, arrived := PollOnce(k);
      }
      var _ := Interfere(SchedulerThread, false);
      SetStatus(k, Stopped);
    }

    /** The call of the current action: it may not be found, poll its device, return, or throw. */
    method CallAction() returns (stopped: bool, failed: bool)
      requires Valid() && runner == Calling && HasAction(View())
      modifies this
      ensures Went() && i == old(i) && activeNo == old(activeNo) && log == old(log)
      ensures runner == (if failed then Threw else Returned(stopped)) && (failed ==> !stopped)
    {
      var s := View();
      var k := task.actions[i].device;
      stopped, failed := false, false;
      if k >= |devices| {
        Record(s, RunStep);
        failed := true;
      } else if task.actions[i].polling && devices[k].stoppable {
        stopped := PollDevice(k);
      } else {
        failed := *;
        Record(s, if failed then ActionThrows else ActionReturns);
      }
    }

    /** The called action has failed, or its result has been published and the next one is due, or it was stopped by a
      * pause or cancel that is still in flight, and stays the current one.
      */
    twostate predicate ActionDone(failed: bool, no: int, before: seq<Event>)
      reads this
    {
      || (failed && i == old(i) && log == before + [ActionFailed(no)])
      || (!failed && i == old(i) + 1 && log == before + [ActionResult(no)])
      || (!failed && i == old(i) && log == before && Stopping(control))
    }

    /** The part of the loop that executes an action; a stopped one stays the current one. */
    method ExecuteAction() returns (failed: bool)
      requires Valid() && runner == CheckExec
      modifies this
      ensures Went() && runner == if failed then Finish else LoopHead
      ensures old(status) != Execing ==> !failed && i == old(i) && log == old(log) && status == old(status)
      ensures old(status) == Execing ==>
                old(i) < |task.actions| &&
                var no := task.actions[old(i)].no; ActionDone(failed, no, old(log) + [ActionStarted(no)])
    {
      Known();
      failed := false;
      if status == Execing {
        StartAction();
        failed := CallAndPublish();
      } else {
        var s := View();
        Record(s, RunStep);
      }
    }

    method StartAction()
      requires Valid() && runner == CheckExec && HasAction(View()) && status == Execing
      modifies this
      ensures Went() && runner == Calling && i == old(i)
      ensures activeNo == task.actions[i].no && log == old(log) + [ActionStarted(activeNo)]
    {
      var s := View();
      activeNo := task.actions[i].no;
      log := log + [ActionStarted(activeNo)];
      Record(s, RunStep);
    }

    method CallAndPublish() returns (failed: bool)
      requires Valid() && runner == Calling && HasAction(View())
      modifies this
      ensures Went() && runner == if failed then Finish else LoopHead
      ensures ActionDone(failed, old(activeNo), old(log))
    {
      var tried := Interfere(SchedulerThread, false);
      var stopped;
      stopped, failed := CallAction();
      tried := Interfere(SchedulerThread, false);
      Publish(stopped, failed);
    }

    /** What the loop does when the call of an action is over. */
    method Publish(stopped: bool, failed: bool)
      requires Valid() && runner == (if failed then Threw else Returned(stopped)) && (failed ==> !stopped)
      modifies this
      ensures Went() && runner == if failed then Finish else LoopHead
      ensures ActionDone(failed, old(activeNo), old(log))
    {
      var s := View();
      assert stopped ==> Stopping(control) by {
        Known();
      }
      if failed {
        log := log + [ActionFailed(activeNo)];
      } else if !stopped {
        log := log + [ActionResult(activeNo)];
        i := i + 1;
      }
      Record(s, RunStep);
    }

    /** The tests of the request at the head of the loop. */
    method ServeRequests() returns (ok: bool, canceled: bool)
      requires Valid() && runner == LoopHead && i < |task.actions|
      modifies this
      ensures Went() && (ok ==> runner == if canceled then Finish else CheckExec)
      ensures !ok ==> runner == PauseWait && status == Paused && req != ReqResume && req != ReqCancel && script == []
    {
      var s := View();
      Record(s, RunStep);
      ok, canceled := TestRequests();
    }

    method TestRequests() returns (ok: bool, canceled: bool)
      requires Valid() && runner == CheckCancel
      modifies this
      ensures Went() && (ok ==> runner == if canceled then Finish else CheckExec)
      ensures !ok ==> runner == PauseWait && status == Paused && req != ReqResume && req != ReqCancel && script == []
    {
      ok := true;
      var tried := Interfere(SchedulerThread, false);
      canceled := ServeCancel();
      if !canceled {
        ok := ServeOthers();
      }
    }

    method ServeOthers() returns (ok: bool)
      requires Valid() && runner == CheckResume
      modifies this
      ensures Went() && (ok ==> runner == CheckExec)
      ensures !ok ==> runner == PauseWait && status == Paused && req != ReqResume && req != ReqCancel && script == []
    {
      var tried := Interfere(SchedulerThread, false);
      ServeResume();
      tried := Interfere(SchedulerThread, false);
      ok := ServePause();
    }

    /** One round of the loop; `open` tells whether it goes on, `ok` that it is not left waiting in a pause. */
    method Round() returns (ok: bool, open: bool)
      requires Valid() && runner == LoopHead && i < |task.actions|
      modifies this
      ensures Went() && (ok ==> runner == if open then LoopHead else Finish)
      ensures !ok ==> runner == PauseWait && status == Paused && req != ReqResume && req != ReqCancel && script == []
    {
      open := false;
      var canceled;
      ok, canceled := ServeRequests();
      if ok && !canceled {
        var tried := Interfere(SchedulerThread, false);
        var failed := ExecuteAction();
        tried := Interfere(SchedulerThread, false);
        open := !failed;
      }
    }

    /** The loop over the actions; false means that it is left waiting in a pause. */
    method RunActions() returns (ok: bool)
      requires Valid() && runner == LoopHead
      modifies this
      ensures Continues() && task == old(task) && (ok ==> runner == Finish)
      ensures !ok ==> runner == PauseWait && status == Paused && req != ReqResume && req != ReqCancel && script == []
    {
      var open := true;
      while open && i < |task.actions|
        invariant Continues() && task == old(task) && runner == if open then LoopHead else Finish
        decreases |script|, Measure(View())
      {
        Known();
        ok, open := Round();
        if !ok {
          return;
        }
      }
      if open {
        var s := View();
        Record(s, RunStep);
      }
      ok := true;
    }

    /** The entry of `run`: the count goes up before it is compared with the maximum. */
    method EnterTask() returns (refused: bool)
      requires Valid() && runner == Idle && runs > 0
      modifies this
      ensures Continues() && task == old(task).(executedCount := old(task).executedCount + 1)
      ensures refused == IsRefused(task) && runner == if refused then Denied else LoopHead
    {
      var s := View();
      task := task.(executedCount := task.executedCount + 1);
      i, log := 0, [Begun];
      Record(s, RunStep);
      refused := task.executedCount > task.maxCount;
      if !refused {
        SetUp();
      }
    }

    method SetUp()
      requires Valid() && runner == Setup
      modifies this
      ensures Went() && runner == LoopHead
    {
      var tried := Interfere(SchedulerThread, false);
      var s := View();
      status, activeNo := Execing, 0;
      Record(s, RunStep);
    }

    /** `run`: its feedback is proper and complete when it returns; it may only be left waiting in a pause. */
    method RunTask() returns (over: bool)
      requires Valid() && runner == Idle && runs > 0
      modifies this
      ensures Continues() && task == old(task).(executedCount := old(task).executedCount + 1)
      ensures over ==> runner == Idle && status == Ended && log != [] && log[|log| - 1] == Over
      ensures !over ==> runner == PauseWait && status == Paused && req != ReqResume && req != ReqCancel && script == []
      ensures Feedback(log, task.actions, IsRefused(task))
    {
      var refused := EnterTask();
      over := true;
      var tried := Interfere(SchedulerThread, false);
      if !refused {
        over := RunActions();
      }
      if over {
        tried := Interfere(SchedulerThread, false);
        EndTask();
      }
      Shape();
    }

    /** The end of `run`, or its early return. */
    method EndTask()
      requires Valid() && (runner == Finish || runner == Denied)
      modifies this
      ensures Went() && runner == Idle && status == Ended && log != [] && log[|log| - 1] == Over
    {
      var s := View();
      status := Ended;
      Record(s, RunStep);
      NoteEnd();
    }

    method NoteEnd()
      requires Valid() && runner == OverNotice
      modifies this
      ensures Went() && runner == Idle && status == old(status) && log != [] && log[|log| - 1] == Over
    {
      var tried := Interfere(SchedulerThread, false);
      var s := View();
      log := log + [Over];
      Record(s, RunStep);
    }

    lemma Shape()
      requires Valid()
      ensures Feedback(log, task.actions, IsRefused(task))
    {
      Known();
      FeedbackShape(View());
    }

    // -------------------------------------------------------------------------------------------------------
    // The message thread
    // -------------------------------------------------------------------------------------------------------

    /** What a piece of a call ensures: it is a piece of the history, in the same message and with the same request. */
    twostate predicate Called()
      reads this
    {
      && Continues() && handler == old(handler) && req == old(req) && SameTask(task, old(task))
      && |devices| == |old(devices)|
    }

    /** `stop` of a device: it raises the request, waits until the device has stopped, and withdraws the request. A
      * device that runs at the call has had its request up until it was seen stopped.
      */
    method StopDevice(call: Call, k: nat) returns (ok: bool)
      requires Valid() && k < |devices| && control == StopTest(call, k)
      modifies this
      ensures Called() && (ok ==> control == StopTest(call, k + 1))
      ensures ok && old(devices[k]).stoppable && old(devices[k]).status == Running ==>
                StoppedAfter(start, steps, |old(steps)|, call, k)
      ensures !ok ==> control == StopWait(call, k) && script == []
    {
      ok := true;
      var s := View();
      var running := devices[k].stoppable && devices[k].status == Running;
      Record(s, ControlStep);
      ghost var before := steps;
      if devices[k].stoppable {
        ok := StopRunning(call, k, running);
      }
      if running && ok {
        assert before <= steps && steps[..|old(steps)|] == old(steps) && steps[|old(steps)|] == before[|old(steps)|];
        StoppedInHistory(start, steps, |old(steps)|, call, k, s, View());
      }
    }

    method StopRunning(call: Call, k: nat, running: bool) returns (ok: bool)
      requires Valid() && k < |devices| && devices[k].stoppable
      requires control == if running then StopRequest(call, k) else StopClear(call, k)
      modifies this
      ensures Called() && (ok ==> control == StopTest(call, k + 1))
      ensures !ok ==> control == StopWait(call, k) && script == []
    {
      ok := true;
      var tried := Interfere(MessageThread, false);
      if running {
        ok := AwaitStop(call, k);
      }
      if ok {
        WithdrawStop(call, k);
      }
    }

    method WithdrawStop(call: Call, k: nat)
      requires Valid() && k < |devices| && devices[k].stoppable && control == StopClear(call, k)
      modifies this
      ensures Called() && control == StopTest(call, k + 1)
    {
      var tried := Interfere(MessageThread, false);
      ClearRequest(call, k);
    }

    method ClearRequest(call: Call, k: nat)
      requires Valid() && k < |devices| && devices[k].stoppable && control == StopClear(call, k)
      modifies this`devices, this`runs, this`runner, this`control, this`handler, this`steps
      ensures Continues() && handler == old(handler) && |devices| == |old(devices)| && control == StopTest(call, k + 1)
    {
      var s := View();
      devices := devices[k := devices[k].(request := NoStop)];
      assert Apply(s, ControlStep) == s.(devices := devices, control := StopTest(call, k + 1));
      Record(s, ControlStep);
    }

    method AwaitStop(call: Call, k: nat) returns (ok: bool)
      requires Valid() && k < |devices| && devices[k].stoppable && control == StopRequest(call, k)
      modifies this
      ensures Called() && devices[k].stoppable && (ok ==> control == StopClear(call, k))
      ensures !ok ==> control == StopWait(call, k) && script == []
    {
      RaiseRequest(call, k);
      while devices[k].status == Running
        invariant Called() && control == StopWait(call, k)
        invariant devices[k].stoppable && devices[k].request == ReqStop
        decreases |script|
      {
        var tried := Interfere(MessageThread, true);
        if !tried {
          return false;
        }
        RaiseAgain(k);
      }
      var s := View();
      Record(s, ControlStep);
      ok := true;
    }

    /** The request is written again on every round of the wait; it is still up. */
    method RaiseAgain(k: nat)
      requires k < |devices| && devices[k].request == ReqStop
      modifies this`devices
      ensures devices == old(devices)
    {
      devices := devices[k := devices[k].(request := ReqStop)];
    }

    method RaiseRequest(call: Call, k: nat)
      requires Valid() && k < |devices| && devices[k].stoppable && control == StopRequest(call, k)
      modifies this
      ensures Called() && control == StopWait(call, k) && devices[k].stoppable && devices[k].request == ReqStop
    {
      var s := View();
      devices := devices[k := devices[k].(request := ReqStop)];
      Record(s, ControlStep);
    }

    /** A pause or cancel stops all devices in turn. */
    method StopAll(call: Call) returns (ok: bool)
      requires Valid() && control == StopTest(call, 0)
      modifies this
      ensures Called() && (ok ==> control == Await(call))
      ensures !ok ==> Serving(control) && script == []
    {
      var k := 0;
      while k < |devices|
        invariant Called() && k <= |devices| && control == StopTest(call, k)
        decreases |devices| - k
      {
        ok := StopDevice(call, k);
        if !ok {
          return;
        }
        k := k + 1;
        var tried := Interfere(MessageThread, false);
      }
      var s := View();
      Record(s, ControlStep);
      ok := true;
    }

    /** The status that the call waits for. */
    predicate Served(call: Call)
      reads this
    {
      Effect(call, status)
    }

    /** Waits for the effect of the request and returns. */
    method AwaitEffect(call: Call) returns (ok: bool)
      requires Valid() && control == Await(call)
      modifies this
      ensures Called() && (ok ==> control == Free && Served(call))
      ensures ok && call == Pause && status == Paused ==> AtRest(View())
      ensures !ok ==> Serving(control) && script == []
    {
      while !Served(call)
        invariant Called() && control == Await(call)
        decreases |script|
      {
        var tried := Interfere(MessageThread, true);
        if !tried {
          return false;
        }
      }
      var s := View();
      Known();
      if call == Pause && status == Paused {
        PauseReturnsQuiet(s);
      }
      Record(s, ControlStep);
      ok := true;
    }

    /** What a call ensures, whether or not it is accepted: the history goes on in the same message and task. */
    twostate predicate Asked()
      reads this
    {
      Continues() && handler == old(handler) && SameTask(task, old(task))
    }

    /** The call has been accepted: it writes its request. */
    method WriteRequest(call: Call)
      requires Valid() && control == Accept(call)
      modifies this
      ensures Asked() && req == Kind(call)
      ensures control == if call == Resume then Await(Resume) else StopTest(call, 0)
    {
      var tried := Interfere(MessageThread, false);
      var s := View();
      req := Kind(call);
      Record(s, ControlStep);
      tried := Interfere(MessageThread, false);
    }

    /** `pause`: once it has returned with the task paused, the loop waits and all devices rest. */
    method PauseTask() returns (ok: bool, accepted: bool)
      requires Valid() && control == Enter(Pause)
      modifies this
      ensures Asked() && (!accepted ==> ok && req == old(req))
      ensures (accepted <==> old(status) == Execing) && (ok ==> control == Free)
      ensures ok && accepted ==> Served(Pause) && req == ReqPause && (status == Paused ==> AtRest(View()))
      ensures !ok ==> Serving(control) && req == ReqPause && script == []
    {
      ok := true;
      var s := View();
      accepted := status == Execing;
      Record(s, ControlStep);
      if accepted {
        ok := ServeStop(Pause);
      }
    }

    /** An accepted pause or cancel. */
    method ServeStop(call: Call) returns (ok: bool)
      requires Valid() && control == Accept(call) && call != Resume
      modifies this
      ensures Asked() && req == Kind(call) && (ok ==> control == Free && Served(call))
      ensures ok && call == Pause && status == Paused ==> AtRest(View())
      ensures !ok ==> Serving(control) && script == []
    {
      WriteRequest(call);
      ok := StopAndAwait(call);
    }

    method StopAndAwait(call: Call) returns (ok: bool)
      requires Valid() && control == StopTest(call, 0)
      modifies this
      ensures Called() && (ok ==> control == Free && Served(call))
      ensures ok && call == Pause && status == Paused ==> AtRest(View())
      ensures !ok ==> Serving(control) && script == []
    {
      ok := StopAll(call);
      if ok {
        var tried := Interfere(MessageThread, false);
        ok := AwaitEffect(call);
      }
    }

    /** `resume`: once it has returned after being accepted, the task executes or is over. */
    method ResumeTask() returns (ok: bool, accepted: bool)
      requires Valid() && control == Enter(Resume)
      modifies this
      ensures Asked() && (!accepted ==> ok && req == old(req))
      ensures (accepted <==> old(status) == Paused) && (ok ==> control == Free)
      ensures ok && accepted ==> Served(Resume) && req == ReqResume
      ensures !ok ==> Serving(control) && req == ReqResume && script == []
    {
      ok := true;
      var s := View();
      accepted := status == Paused;
      Record(s, ControlStep);
      if accepted {
        WriteRequest(Resume);
        ok := AwaitEffect(Resume);
      }
    }

    /** Since the old state the task has been paused. */
    twostate predicate SawPaused()
      reads this
    {
      exists k :: |old(steps)| <= k <= |steps| && PausedAt(start, steps, k)
    }

    lemma StillPaused(from: nat, before: seq<Step>)
      requires before <= steps
      ensures (exists k :: from <= k <= |before| && PausedAt(start, before, k)) ==>
        exists k :: from <= k <= |steps| && PausedAt(start, steps, k)
    {
      if k :| from <= k <= |before| && PausedAt(start, before, k) {
        assert steps[..k] == before[..k] && PausedAt(start, steps, k);
      }
    }

    /** `cancel`: it is accepted while the task runs or is paused; once it has returned after being accepted, the task
      * is over.
      */
    method CancelTask() returns (ok: bool, accepted: bool)
      requires Valid() && control == Enter(Cancel)
      modifies this
      ensures Asked() && (!accepted ==> ok && req == old(req))
      ensures if accepted then old(status) == Execing || SawPaused() else old(status) != Execing && status != Paused
      ensures ok ==> control == Free
      ensures ok && accepted ==> Served(Cancel) && req == ReqCancel
      ensures !ok ==> Serving(control) && req == ReqCancel && script == []
    {
      ok := true;
      accepted := TestActive();
      if accepted {
        ghost var tested := steps;
        ok := ServeStop(Cancel);
        StillPaused(|old(steps)|, tested);
      }
    }

    /** The test of `cancel` reads the status twice. */
    method TestActive() returns (active: bool)
      requires Valid() && control == Enter(Cancel)
      modifies this
      ensures Asked() && req == old(req)
      ensures control == if active then Accept(Cancel) else Free
      ensures if active then old(status) == Execing || SawPaused() else old(status) != Execing && status != Paused
    {
      var s := View();
      active := status == Execing;
      Record(s, ControlStep);
      if !active {
        active := TestPaused();
      }
    }

    method TestPaused() returns (active: bool)
      requires Valid() && control == EnterAgain
      modifies this
      ensures Asked() && req == old(req) && control == if active then Accept(Cancel) else Free
      ensures (active <==> status == Paused) && (active ==> SawPaused())
    {
      var tried := Interfere(MessageThread, false);
      var s := View();
      active := status == Paused;
      Record(s, ControlStep);
      if active {
        assert steps[..|steps|] == steps;
        assert PausedAt(start, steps, |steps|);
      }
    }

    /** Since the old state the new task has taken the place of one that was not running. */
    twostate predicate Replaced(newTask: Task)
      reads this
    {
      exists k :: |old(steps)| <= k < |steps| && AssignedAt(start, steps, k, newTask)
    }

    lemma StillReplaced(from: nat, before: seq<Step>, newTask: Task)
      requires before <= steps && exists k :: from <= k < |before| && AssignedAt(start, before, k, newTask)
      ensures exists k :: from <= k < |steps| && AssignedAt(start, steps, k, newTask)
    {
      var k :| from <= k < |before| && AssignedAt(start, before, k, newTask);
      AssignedStays(start, before, k, newTask, steps);
    }

    /**
     * `set_current_task` on a received task. A task that is not over when the gate is passed is kept if the new one has
     * a lower priority; otherwise it is canceled, and the new task takes its place in a state in which the old one has
     * published its end, unless it has never run. A thread is started in any case.
     */
    method SetCurrentTask(newTask: Task) returns (ok: bool, replaced: bool)
      requires Valid() && handler == Gate(newTask) && control == Free
      modifies this
      ensures Continues()
      ensures replaced <==> newTask.priority >= old(task).priority || old(status) == Ended
      ensures !replaced ==> SameTask(task, old(task)) && req == old(req)
      ensures ok && replaced ==> SameTask(task, newTask) && req == NoRequest && Replaced(newTask)
      ensures ok ==> Listening(View()) && |steps| > |old(steps)| && EndsWithStart(start, steps)
      ensures !ok ==> script == [] && (Serving(control) || (handler == Assigning(newTask) && runner != Idle))
    {
      ok := true;
      replaced := TestGate(newTask);
      if replaced {
        ok := ReplaceAndStart(newTask);
      } else {
        var tried := Interfere(MessageThread, false);
        StartThread();
      }
    }

    method ReplaceAndStart(newTask: Task) returns (ok: bool)
      requires Valid() && handler == EmptyTest(newTask) && control == Free
      modifies this
      ensures Continues() && (ok ==> Replaced(newTask))
      ensures ok ==> Listening(View()) && SameTask(task, newTask) && req == NoRequest
      ensures ok ==> |steps| > |old(steps)| && EndsWithStart(start, steps)
      ensures !ok ==> script == [] && (Serving(control) || (handler == Assigning(newTask) && runner != Idle))
    {
      var tried := Interfere(MessageThread, false);
      ok := ReplaceTask(newTask);
      if ok {
        ghost var before := steps;
        StartThread();
        StillReplaced(|old(steps)|, before, newTask);
      }
    }

    method TestGate(newTask: Task) returns (passed: bool)
      requires Valid() && handler == Gate(newTask) && control == Free
      modifies this`runs, this`runner, this`control, this`handler, this`steps
      ensures Continues() && control == Free && handler == if passed then EmptyTest(newTask) else Starting
      ensures passed <==> status == Ended || newTask.priority >= task.priority
    {
      var s := View();
      passed := status == Ended || newTask.priority >= task.priority;
      Record(s, HandlerStep);
    }

    method StartThread()
      requires Valid() && handler == Starting && control == Free
      modifies this`runs, this`runner, this`control, this`handler, this`steps
      ensures Continues() && Listening(View()) && runs == old(runs) + 1
      ensures |steps| > |old(steps)| && EndsWithStart(start, steps)
    {
      var s := View();
      Record(s, HandlerStep);
      assert steps[..|steps| - 1] == old(steps);
    }

    method ReplaceTask(newTask: Task) returns (ok: bool)
      requires Valid() && handler == EmptyTest(newTask) && control == Free
      modifies this
      ensures Continues() && (ok ==> Replaced(newTask))
      ensures ok ==> handler == Starting && control == Free && SameTask(task, newTask) && req == NoRequest
      ensures !ok ==> script == [] && (Serving(control) || (handler == Assigning(newTask) && runner != Idle))
    {
      ok := EndCurrentTask(newTask);
      if ok {
        var tried := Interfere(MessageThread, false);
        ok := Assign(newTask);
        if ok {
          LetOthersGo(newTask);
        }
      }
    }

    /** What others do leaves the assignment in the history. */
    method LetOthersGo(newTask: Task)
      requires Valid() && handler == Starting && control == Free && SameTask(task, newTask) && req == NoRequest
      requires steps != [] && AssignedAt(start, steps, |steps| - 1, newTask)
      modifies this
      ensures Continues() && AssignedAt(start, steps, |old(steps)| - 1, newTask) && |steps| >= |old(steps)|
      ensures handler == Starting && control == Free && SameTask(task, newTask) && req == NoRequest
    {
      ghost var before := steps;
      var tried := Interfere(MessageThread, false);
      AssignedStays(start, before, |before| - 1, newTask, steps);
    }

    /** Cancels the current task unless it is empty or over. */
    method EndCurrentTask(newTask: Task) returns (ok: bool)
      requires Valid() && handler == EmptyTest(newTask) && control == Free
      modifies this
      ensures Continues() && (ok ==> handler == Assigning(newTask) && control == Free)
      ensures !ok ==> script == [] && Serving(control)
    {
      ok := true;
      var s := View();
      var empty := status == Init;
      Record(s, HandlerStep);
      if !empty {
        var tried := Interfere(MessageThread, false);
        ok := EndUnlessOver(newTask);
      }
    }

    method EndUnlessOver(newTask: Task) returns (ok: bool)
      requires Valid() && handler == OverTest(newTask) && control == Free
      modifies this
      ensures Continues() && (ok ==> handler == Assigning(newTask) && control == Free)
      ensures !ok ==> script == [] && Serving(control)
    {
      ok := true;
      var s := View();
      var over := status == Ended;
      Record(s, HandlerStep);
      if !over {
        ok := CancelAndReturn(newTask);
      }
    }

    method CancelAndReturn(newTask: Task) returns (ok: bool)
      requires Valid() && handler == Canceling(newTask) && control == Enter(Cancel)
      modifies this
      ensures Continues() && (ok ==> handler == Assigning(newTask) && control == Free)
      ensures !ok ==> script == [] && Serving(control)
    {
      var tried := Interfere(MessageThread, false);
      var accepted;
      ok, accepted := CancelTask();
      if ok {
        tried := Interfere(MessageThread, false);
        var s := View();
        Record(s, HandlerStep);
      }
    }

    /** The assignment, which waits for the mutex that `run` holds. */
    method Assign(newTask: Task) returns (ok: bool)
      requires Valid() && handler == Assigning(newTask) && control == Free
      modifies this
      ensures Continues()
      ensures ok ==> |steps| > |old(steps)| && AssignedAt(start, steps, |steps| - 1, newTask)
      ensures ok ==> handler == Starting && control == Free && task == newTask && status == Init && req == NoRequest
      ensures !ok ==> script == [] && handler == Assigning(newTask) && runner != Idle
    {
      while runner != Idle
        invariant Continues() && handler == Assigning(newTask) && control == Free
        decreases |script|
      {
        var tried := Interfere(MessageThread, true);
        if !tried {
          return false;
        }
      }
      PutTask(newTask);
      ok := true;
    }

    method PutTask(newTask: Task)
      requires Valid() && handler == Assigning(newTask) && control == Free && runner == Idle
      modifies this
      ensures Continues() && |steps| == |old(steps)| + 1 && AssignedAt(start, steps, |old(steps)|, newTask)
      ensures handler == Starting && control == Free && task == newTask && status == Init && req == NoRequest
    {
      var s := View();
      AfterFits(start, steps, s);
      task, status, req, i, activeNo, log := newTask, Init, NoRequest, 0, 0, [];
      Record(s, HandlerStep);
      assert steps[..|old(steps)|] == old(steps);
    }
  }
}
