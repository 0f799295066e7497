/** The task scheduler, its control calls and the device stop handshake, as an interleaved step system.
  *
  * Four parties share the atomics of a task and of the robot's devices: the scheduler loop (`Runner`), the thread
  * that handles messages (`Handler`), the pause/resume/cancel call that it makes (`Control`), and the polling loop
  * of the action that the scheduler has called. One step reads or writes at most one shared variable. A failing
  * iteration of a busy wait changes nothing, so it is a stuttering step and only the iteration that leaves the
  * wait is a step here.
  */
module Scheduler {

  datatype Status = Init | Paused | Execing | Canceled | Ended

  datatype Request = NoRequest | ReqPause | ReqResume | ReqCancel

  /** An action names its device by position; a position past the device list is an unknown device code. */
  datatype Action = Action(no: int, device: nat, polling: bool)

  datatype Task = Task(priority: int, executedCount: int, maxCount: int, actions: seq<Action>)

  datatype DeviceStatus = Stopped | Running

  datatype DeviceRequest = NoStop | ReqStop

  /** A device whose class leaves `stop` empty is not `stoppable`; its actions do not poll. */
  datatype Device = Device(stoppable: bool, status: DeviceStatus, request: DeviceRequest)

  /** Feedback messages of one run, in the order in which they are published. */
  datatype Event =
    | Begun
    | ActionStarted(no: int)
    | ActionResult(no: int)
    | ActionFailed(no: int)
    | PauseNoted
    | CancelNoted
    | Over

  /** Program points of the scheduler loop, including those of the action it has called. */
  datatype Runner =
    | Idle
    | Denied
    | Setup
    | LoopHead
    | CheckCancel
    | DoCancel
    | CheckResume
    | DoResume
    | CheckPause
    | DoPause
    | PauseWait
    | CheckExec
    | Calling
    | Polling
    | StopSeen
    | ActionEnd(stopped: bool)
    | Returned(stopped: bool)
    | Threw
    | Finish
    | OverNotice

  datatype Call = Pause | Resume | Cancel

  /** Program points of the control call that holds the control mutex. */
  datatype Control =
    | Free
    | Enter(call: Call)
    | EnterAgain
    | Accept(call: Call)
    | StopTest(call: Call, k: nat)
    | StopRequest(call: Call, k: nat)
    | StopWait(call: Call, k: nat)
    | StopClear(call: Call, k: nat)
    | Await(call: Call)

  /** Program points of the thread that handles messages one after the other: replacing the current task, and
    * interrupting it to charge the battery. The other messages are single calls or starts of a thread.
    */
  datatype Handler =
    | Ready
    | Gate(task: Task)
    | EmptyTest(task: Task)
    | OverTest(task: Task)
    | Canceling(task: Task)
    | Assigning(task: Task)
    | Starting
    | Pausing
    | Charging
    | Resuming

  /** `runs` counts the scheduler threads that are started but have not yet entered `run`. */
  datatype State = State(
    task: Task,
    status: Status,
    req: Request,
    i: nat,
    activeNo: int,
    runs: nat,
    runner: Runner,
    control: Control,
    handler: Handler,
    devices: seq<Device>,
    log: seq<Event>)

  datatype Step =
    | RunStep
    | ActionReturns
    | ActionThrows
    | ActionCompletes
    | ControlStep
    | HandlerStep
    | Begin(call: Call)
    | Spawn
    | Receive(task: Task)
    | LowBattery

  // ---------------------------------------------------------------------------------------------------------
  // The step function
  // ---------------------------------------------------------------------------------------------------------

  function Kind(c: Call): Request {
    match c
    case Pause => ReqPause
    case Resume => ReqResume
    case Cancel => ReqCancel
  }

  predicate HasAction(s: State) {
    s.i < |s.task.actions|
  }

  predicate DeviceFound(s: State)
    requires HasAction(s)
  {
    s.task.actions[s.i].device < |s.devices|
  }

  /** The current action runs the request/status handshake. */
  predicate Polls(s: State)
    requires HasAction(s)
  {
    var a := s.task.actions[s.i];
    a.polling && a.device < |s.devices| && s.devices[a.device].stoppable
  }

  function SetDeviceStatus(s: State, k: nat, v: DeviceStatus): State
    requires k < |s.devices|
  {
    s.(devices := s.devices[k := s.devices[k].(status := v)])
  }

  function SetDeviceRequest(s: State, k: nat, v: DeviceRequest): State
    requires k < |s.devices|
  {
    s.(devices := s.devices[k := s.devices[k].(request := v)])
  }

  predicate RunEnabled(s: State) {
    match s.runner
    case Idle => s.runs > 0
    case PauseWait => s.req == ReqResume || s.req == ReqCancel
    case CheckExec => s.status == Execing ==> HasAction(s)
    case Calling => HasAction(s) && (DeviceFound(s) ==> Polls(s))
    case Polling => HasAction(s) && Polls(s) && s.devices[s.task.actions[s.i].device].request == ReqStop
    case StopSeen => HasAction(s) && Polls(s)
    case ActionEnd(_) => HasAction(s) && Polls(s)
    case _ => true
  }

  function Run(s: State): State
    requires RunEnabled(s)
  {
    match s.runner
    case Idle =>
      var t := s.task.(executedCount := s.task.executedCount + 1);
      s.(task := t, runs := s.runs - 1, i := 0, log := [Begun],
         runner := if t.executedCount > t.maxCount then Denied else Setup)
    case Denied => s.(status := Ended, runner := OverNotice)
    case Setup => s.(status := Execing, activeNo := 0, runner := LoopHead)
    case LoopHead => s.(runner := if HasAction(s) then CheckCancel else Finish)
    case CheckCancel =>
      s.(runner := if s.req == ReqCancel && (s.status == Execing || s.status == Paused) then DoCancel else CheckResume)
    case DoCancel => s.(status := Canceled, log := s.log + [CancelNoted], runner := Finish)
    case CheckResume => s.(runner := if s.req == ReqResume && s.status == Paused then DoResume else CheckPause)
    case DoResume => s.(status := Execing, runner := CheckPause)
    case CheckPause => s.(runner := if s.req == ReqPause && s.status == Execing then DoPause else CheckExec)
    case DoPause => s.(status := Paused, log := s.log + [PauseNoted], runner := PauseWait)
    case PauseWait => s.(runner := CheckExec)
    case CheckExec =>
      if s.status == Execing then
        var no := s.task.actions[s.i].no;
        s.(activeNo := no, log := s.log + [ActionStarted(no)], runner := Calling)
      else
        s.(runner := LoopHead)
    case Calling =>
      if DeviceFound(s) then
        SetDeviceStatus(s, s.task.actions[s.i].device, Running).(runner := Polling)
      else
        s.(runner := Threw)
    case Polling => s.(runner := StopSeen)
    case StopSeen => SetDeviceStatus(s, s.task.actions[s.i].device, Stopped).(runner := ActionEnd(true))
    case ActionEnd(stopped) => SetDeviceStatus(s, s.task.actions[s.i].device, Stopped).(runner := Returned(stopped))
    case Returned(stopped) =>
      if stopped then
        s.(runner := LoopHead)
      else
        s.(log := s.log + [ActionResult(s.activeNo)], i := s.i + 1, runner := LoopHead)
    case Threw => s.(log := s.log + [ActionFailed(s.activeNo)], runner := Finish)
    case Finish => s.(status := Ended, runner := OverNotice)
    case OverNotice => s.(log := s.log + [Over], runner := Idle)
  }

  predicate ControlEnabled(s: State) {
    match s.control
    case Free => false
    case StopTest(_, k) => k <= |s.devices|
    case StopRequest(_, k) => k < |s.devices|
    case StopWait(_, k) => k < |s.devices| && s.devices[k].status != Running
    case StopClear(_, k) => k < |s.devices|
    case Await(Pause) => s.status == Paused || s.status == Ended
    case Await(Resume) => s.status == Execing || s.status == Ended
    case Await(Cancel) => s.status == Ended
    case _ => true
  }

  function Controlled(s: State): State
    requires ControlEnabled(s)
  {
    match s.control
    case Enter(Pause) => s.(control := if s.status == Execing then Accept(Pause) else Free)
    case Enter(Resume) => s.(control := if s.status == Paused then Accept(Resume) else Free)
    case Enter(Cancel) => s.(control := if s.status == Execing then Accept(Cancel) else EnterAgain)
    case EnterAgain => s.(control := if s.status == Paused then Accept(Cancel) else Free)
    case Accept(c) => s.(req := Kind(c), control := if c == Resume then Await(Resume) else StopTest(c, 0))
    case StopTest(c, k) =>
      s.(control := if k == |s.devices| then Await(c)
                    else if !s.devices[k].stoppable then StopTest(c, k + 1)
                    else if s.devices[k].status == Running then StopRequest(c, k)
                    else StopClear(c, k))
    case StopRequest(c, k) => SetDeviceRequest(s, k, ReqStop).(control := StopWait(c, k))
    case StopWait(c, k) => s.(control := StopClear(c, k))
    case StopClear(c, k) => SetDeviceRequest(s, k, NoStop).(control := StopTest(c, k + 1))
    case Await(_) => s.(control := Free)
  }

  predicate HandlerEnabled(s: State) {
    match s.handler
    case Ready => false
    case Canceling(_) => s.control == Free
    case Assigning(_) => s.runner == Idle
    case Pausing => s.control == Free
    case Resuming => s.control == Free
    case _ => true
  }

  /** The new task is refused by the priority gate. */
  predicate Refuses(s: State, t: Task) {
    s.status != Ended && t.priority < s.task.priority
  }

  /** The assignment waits for the mutex that a run of the scheduler holds. A thread is started in any case. */
  function Handled(s: State): State
    requires HandlerEnabled(s)
  {
    match s.handler
    case Gate(t) => s.(handler := if Refuses(s, t) then Starting else EmptyTest(t))
    case EmptyTest(t) => s.(handler := if s.status == Init then Assigning(t) else OverTest(t))
    case OverTest(t) =>
      if s.status == Ended then s.(handler := Assigning(t))
      else s.(handler := Canceling(t), control := Enter(Cancel))
    case Canceling(t) => s.(handler := Assigning(t))
    case Assigning(t) =>
      s.(task := t, status := Init, req := NoRequest, i := 0, activeNo := 0, log := [], handler := Starting)
    case Starting => s.(runs := s.runs + 1, handler := Ready)
    case Pausing => s.(handler := Charging)
    case Charging => s.(handler := Resuming, control := Enter(Resume))
    case Resuming => s.(handler := Ready)
  }

  /** A step of the program itself, as opposed to the arrival of a message. */
  predicate Internal(step: Step) {
    || step.RunStep? || step.ActionReturns? || step.ActionThrows? || step.ActionCompletes?
    || step.ControlStep? || step.HandlerStep?
  }

  /** The handler waits for the next message. */
  predicate Listening(s: State) {
    s.handler == Ready && s.control == Free
  }

  predicate Enabled(s: State, step: Step) {
    match step
    case RunStep => RunEnabled(s)
    case ActionReturns => s.runner == Calling && HasAction(s) && DeviceFound(s) && !Polls(s)
    case ActionThrows => s.runner == Calling && HasAction(s) && DeviceFound(s) && !Polls(s)
    case ActionCompletes => s.runner == Polling && HasAction(s) && Polls(s)
    case ControlStep => ControlEnabled(s)
    case HandlerStep => HandlerEnabled(s)
    case _ => Listening(s)
  }

  function Apply(s: State, step: Step): State
    requires Enabled(s, step)
  {
    match step
    case RunStep => Run(s)
    case ActionReturns => s.(runner := Returned(false))
    case ActionThrows => s.(runner := Threw)
    case ActionCompletes => s.(runner := ActionEnd(false))
    case ControlStep => Controlled(s)
    case HandlerStep => Handled(s)
    case Begin(c) => s.(control := Enter(c))
    case Spawn => s.(runs := s.runs + 1)
    case Receive(t) => s.(handler := Gate(t))
    case LowBattery => s.(handler := Pausing, control := Enter(Pause))
  }

  /** The step replaces the current task. */
  predicate Assigns(s: State, step: Step) {
    step.HandlerStep? && s.handler.Assigning?
  }

  const NO_TASK := Task(0, 0, 0, [])

  /** The service at start: an empty task and devices at rest. */
  ghost predicate InitialState(s: State) {
    && s.task == NO_TASK
    && s.status == Init && s.req == NoRequest && s.i == 0 && s.runs == 0
    && s.runner == Idle && s.control == Free && s.handler == Ready && s.log == []
    && forall k :: 0 <= k < |s.devices| ==> s.devices[k].status == Stopped && s.devices[k].request == NoStop
  }

  // ---------------------------------------------------------------------------------------------------------
  // The invariant
  // ---------------------------------------------------------------------------------------------------------

  /** The call has written its request and has not returned. */
  predicate Serving(c: Control) {
    c.StopTest? || c.StopRequest? || c.StopWait? || c.StopClear? || c.Await?
  }

  /** A pause or cancel that has written its request and has not returned. */
  predicate Stopping(c: Control) {
    Serving(c) && c.call != Resume
  }

  /** The scheduler is inside a polling action. */
  predicate InPolling(r: Runner) {
    r.Polling? || r.StopSeen? || r.ActionEnd?
  }

  /** The scheduler is inside the call of an action. */
  predicate InAction(r: Runner) {
    r.Calling? || InPolling(r) || r.Returned? || r.Threw?
  }

  /** The scheduler is inside the loop but not inside an action. */
  predicate BetweenActions(r: Runner) {
    || r.LoopHead? || r.CheckCancel? || r.DoCancel? || r.CheckResume? || r.DoResume?
    || r.CheckPause? || r.DoPause? || r.PauseWait? || r.CheckExec?
  }

  ghost predicate StatusInv(s: State) {
    && s.i <= |s.task.actions|
    && (s.status == Init && s.runner == Idle && s.runs == 0 && s.handler != Starting ==> s.task == NO_TASK)
    && (InAction(s.runner) || (BetweenActions(s.runner) && s.runner != LoopHead) ==> HasAction(s))
    && match s.runner
       case Idle => s.status == Init || s.status == Ended
       case Denied => s.status == Init || s.status == Ended
       case Setup => s.status == Init || s.status == Ended
       case DoResume => s.status == Paused
       case CheckPause => s.status == Execing
       case DoPause => s.status == Execing
       case PauseWait => s.status == Paused
       case Finish => s.status == Execing || s.status == Canceled
       case OverNotice => s.status == Ended
       case _ => if InAction(s.runner) then s.status == Execing else s.status == Execing || s.status == Paused
  }

  ghost predicate ControlInv(s: State) {
    && (Serving(s.control) ==> s.req == Kind(s.control.call))
    && (s.control.StopTest? ==> s.control.k <= |s.devices|)
    && (s.control.StopRequest? || s.control.StopWait? || s.control.StopClear? ==>
          s.control.k < |s.devices| && s.devices[s.control.k].stoppable)
    && ((Serving(s.control) && !s.control.Await?) ==> s.control.call != Resume)
    && (Serving(s.control) || s.control.Accept? ==> s.status != Init)
    && (s.control == Accept(Resume) ==> s.runner == PauseWait)
  }

  /** What a paused loop is waiting for, and why it may leave the wait. */
  ghost predicate PauseInv(s: State) {
    && (s.status == Paused ==>
          || (s.runner == PauseWait && s.req == ReqPause)
          || (s.control == Await(Resume) && s.runner != DoCancel)
          || (Serving(s.control) && s.control.call == Cancel && s.runner != CheckResume && s.runner != DoResume))
    && (s.status == Paused && s.runner == LoopHead ==> HasAction(s))
    && (s.runner == DoPause ==> s.req == ReqPause || (Serving(s.control) && s.control.call == Cancel))
  }

  ghost predicate DeviceInv(s: State) {
    && (InPolling(s.runner) ==> HasAction(s) && Polls(s))
    && (forall k :: 0 <= k < |s.devices| ==>
          (s.devices[k].status == Running <==>
           && HasAction(s) && k == s.task.actions[s.i].device
           && (s.runner == Polling || s.runner == StopSeen || s.runner == ActionEnd(false))))
    && (forall k :: 0 <= k < |s.devices| && s.devices[k].request == ReqStop ==>
          s.control.StopWait? || s.control.StopClear?)
    && (forall k :: 0 <= k < |s.devices| && s.devices[k].request == ReqStop ==> s.control.k == k)
    && (s.control.StopWait? && s.control.k < |s.devices| ==> s.devices[s.control.k].request == ReqStop)
  }

  /** A stopped action is known to the call that stopped it. */
  ghost predicate StopInv(s: State) {
    && (s.runner == StopSeen ==> s.control.StopWait? && HasAction(s) && s.control.k == s.task.actions[s.i].device)
    && (s.runner == ActionEnd(true) || s.runner == Returned(true) ==> Stopping(s.control))
    && (s.control.StopRequest? || s.control.StopWait? || ClearsStop(s) ==> !MayStart(s) && s.runner != Calling)
    && (ClearsStop(s) ==> s.devices[s.control.k].status == Stopped)
  }

  /** The call is about to withdraw a stop request that it has raised. */
  predicate ClearsStop(s: State) {
    s.control.StopClear? && s.control.k < |s.devices| && s.devices[s.control.k].request == ReqStop
  }

  /** The loop has already passed the test that would make it notice the request of the current call. */
  predicate MayStart(s: State) {
    && s.status == Execing
    && (|| s.runner == CheckExec
        || (Serving(s.control) && s.control.call == Cancel && (s.runner == CheckResume || s.runner == CheckPause)))
  }

  /** The call that the program point of the handler is waiting for, if any, is the one in flight. */
  ghost predicate HandlerInv(s: State) {
    match s.handler
    case Ready => true
    case Canceling(_) => Calls(s.control, Cancel)
    case Pausing => Calls(s.control, Pause)
    case Resuming => Calls(s.control, Resume)
    case _ => s.control == Free
  }

  predicate Calls(control: Control, c: Call) {
    control == Free || (control == EnterAgain && c == Cancel) || (!control.EnterAgain? && control.call == c)
  }

  ghost predicate Inv(s: State) {
    StatusInv(s) && ControlInv(s) && PauseInv(s) && DeviceInv(s) && StopInv(s) && HandlerInv(s)
  }

  lemma InvInitially(s: State)
    requires InitialState(s)
    ensures Inv(s)
  {
  }

  lemma RunKeepsStatus(s: State)
    requires Inv(s) && RunEnabled(s)
    ensures StatusInv(Run(s))
  {
  }

  lemma RunKeepsControl(s: State)
    requires Inv(s) && RunEnabled(s)
    ensures ControlInv(Run(s)) && PauseInv(Run(s)) && HandlerInv(Run(s))
  {
    assert Run(s).control == s.control && Run(s).handler == s.handler && Run(s).req == s.req;
  }

  lemma RunKeepsDevices(s: State)
    requires Inv(s) && RunEnabled(s)
    ensures DeviceInv(Run(s))
  {
    var t := Run(s);
    if s.runner.Calling? || InPolling(s.runner) {
      assert t.i == s.i && t.task == s.task;
    } else {
      assert t.devices == s.devices;
    }
  }

  lemma RunKeepsStops(s: State)
    requires Inv(s) && RunEnabled(s)
    ensures StopInv(Run(s))
  {
    assert Run(s).control == s.control;
  }

  lemma ControlKeepsDevices(s: State)
    requires Inv(s) && ControlEnabled(s)
    ensures StatusInv(Controlled(s)) && DeviceInv(Controlled(s))
  {
    if !s.control.StopRequest? && !s.control.StopClear? {
      assert Controlled(s).devices == s.devices;
    }
  }

  lemma ControlKeepsStops(s: State)
    requires Inv(s) && ControlEnabled(s)
    ensures StopInv(Controlled(s))
  {
  }

  lemma ControlKeepsRequests(s: State)
    requires Inv(s) && ControlEnabled(s)
    ensures ControlInv(Controlled(s)) && PauseInv(Controlled(s)) && HandlerInv(Controlled(s))
  {
  }

  lemma HandlerKeeps(s: State)
    requires Inv(s) && HandlerEnabled(s)
    ensures Inv(Handled(s))
  {
    assert Handled(s).devices == s.devices && Handled(s).runner == s.runner;
  }

  lemma ActionKeeps(s: State, step: Step)
    requires Inv(s) && Enabled(s, step) && (step.ActionReturns? || step.ActionThrows? || step.ActionCompletes?)
    ensures Inv(Apply(s, step))
  {
  }

  lemma ArrivalKeeps(s: State, step: Step)
    requires Inv(s) && Enabled(s, step) && !Internal(step)
    ensures Inv(Apply(s, step))
  {
  }

  /** Every step of every party keeps the invariant. */
  lemma InvStep(s: State, step: Step)
    requires Inv(s) && Enabled(s, step)
    ensures Inv(Apply(s, step))
  {
    match step
    case RunStep => RunKeepsStatus(s); RunKeepsControl(s); RunKeepsDevices(s); RunKeepsStops(s);
    case ControlStep => ControlKeepsDevices(s); ControlKeepsStops(s); ControlKeepsRequests(s);
    case HandlerStep => HandlerKeeps(s);
    case _ => if Internal(step) { ActionKeeps(s, step); } else { ArrivalKeeps(s, step); }
  }
}
