/** The feedback that one run publishes, whatever pauses, resumes, cancels and replacements occur. */
module SchedulerFeedback {
  import opened Scheduler
  import opened SchedulerRuns

  // ---------------------------------------------------------------------------------------------------------
  // Which event may follow which feedback
  // ---------------------------------------------------------------------------------------------------------

  /** How many actions have been reported as executed. */
  function Results(log: seq<Event>): nat {
    if log == [] then 0
    else Results(log[..|log| - 1]) + if log[|log| - 1].ActionResult? then 1 else 0
  }

  /** The last action has been started and not been reported since; pauses may lie in between. */
  predicate Started(log: seq<Event>) {
    log != [] &&
    (log[|log| - 1].ActionStarted? || (log[|log| - 1] == PauseNoted && Started(log[..|log| - 1])))
  }

  /** The run has begun, and neither failed, been canceled nor ended. */
  predicate Open(log: seq<Event>) {
    log != [] &&
    match log[|log| - 1]
    case ActionFailed(_) => false
    case CancelNoted => false
    case Over => false
    case _ => true
  }

  /** The number of the first action that has not been reported. */
  predicate IsNext(log: seq<Event>, no: int, actions: seq<Action>) {
    Results(log) < |actions| && actions[Results(log)].no == no
  }

  /** The event may follow the feedback so far. */
  predicate MayFollow(log: seq<Event>, e: Event, actions: seq<Action>, refused: bool) {
    match e
    case Begun => log == []
    case ActionStarted(no) => Open(log) && IsNext(log, no, actions)
    case ActionResult(no) => Open(log) && Started(log) && IsNext(log, no, actions)
    case ActionFailed(no) => Open(log) && Started(log) && IsNext(log, no, actions)
    case PauseNoted => Open(log)
    case CancelNoted => Open(log)
    case Over =>
      || (Open(log) && Results(log) == |actions|)
      || (refused && log == [Begun])
      || (log != [] && (log[|log| - 1] == CancelNoted || log[|log| - 1].ActionFailed?))
  }

  /** Every event follows what comes before it. */
  ghost predicate Feedback(log: seq<Event>, actions: seq<Action>, refused: bool) {
    forall k :: 0 <= k < |log| ==> MayFollow(log[..k], log[k], actions, refused)
  }

  lemma FeedbackSnoc(log: seq<Event>, e: Event, actions: seq<Action>, refused: bool)
    requires Feedback(log, actions, refused) && MayFollow(log, e, actions, refused)
    ensures Feedback(log + [e], actions, refused)
    ensures Results(log + [e]) == Results(log) + if e.ActionResult? then 1 else 0
    ensures Started(log + [e]) <==> e.ActionStarted? || (e == PauseNoted && Started(log))
  {
    var after := log + [e];
    assert after[..|log|] == log;
    forall k | 0 <= k < |after|
      ensures MayFollow(after[..k], after[k], actions, refused)
    {
      if k < |log| {
        assert after[..k] == log[..k];
      }
    }
  }

  // ---------------------------------------------------------------------------------------------------------
  // What this means for a whole log
  // ---------------------------------------------------------------------------------------------------------

  /** Nothing follows the end, and only the end follows a cancel or a failure. */
  lemma NothingFollows(log: seq<Event>, actions: seq<Action>, refused: bool, k: nat)
    requires Feedback(log, actions, refused) && k < |log|
    ensures log[k] == Over ==> k == |log| - 1
    ensures log[k] == CancelNoted || log[k].ActionFailed? ==> log[k + 1..] == [] || log[k + 1..] == [Over]
  {
    if k + 1 < |log| {
      var before := log[..k + 1];
      assert before[|before| - 1] == log[k];
      assert MayFollow(before, log[k + 1], actions, refused);
      if k + 2 < |log| {
        var more := log[..k + 2];
        assert more[|more| - 1] == log[k + 1];
        assert MayFollow(more, log[k + 2], actions, refused);
      }
    }
  }

  lemma {:induction false} ResultsGrow(log: seq<Event>, j: nat, k: nat)
    requires j <= k <= |log|
    ensures Results(log[..j]) <= Results(log[..k])
    ensures (exists i :: j <= i < k && log[i].ActionResult?) ==> Results(log[..j]) < Results(log[..k])
    decreases k
  {
    if j < k {
      ResultsGrow(log, j, k - 1);
      assert log[..k][..k - 1] == log[..k - 1];
      assert log[..k][k - 1] == log[k - 1];
    }
  }

  /** Starts come in list order, and only the same action is started again before its result. */
  lemma StartsInOrder(log: seq<Event>, actions: seq<Action>, refused: bool, j: nat, k: nat)
    requires Feedback(log, actions, refused) && j <= k < |log| && log[j].ActionStarted? && log[k].ActionStarted?
    ensures var m, n := Results(log[..j]), Results(log[..k]);
      m <= n < |actions| && log[j].no == actions[m].no && log[k].no == actions[n].no
      && ((exists i :: j <= i < k && log[i].ActionResult?) ==> m < n)
  {
    ResultsGrow(log, j, k);
    assert MayFollow(log[..j], log[j], actions, refused);
    assert MayFollow(log[..k], log[k], actions, refused);
  }

  /** Every action is reported at most once and in list order. */
  lemma ResultsInOrder(log: seq<Event>, actions: seq<Action>, refused: bool, j: nat, k: nat)
    requires Feedback(log, actions, refused) && j < k < |log| && log[j].ActionResult? && log[k].ActionResult?
    ensures var m, n := Results(log[..j]), Results(log[..k]);
      m < n < |actions| && log[j].no == actions[m].no && log[k].no == actions[n].no
  {
    ResultsGrow(log, j, k);
    assert MayFollow(log[..j], log[j], actions, refused);
    assert MayFollow(log[..k], log[k], actions, refused);
  }

  lemma {:induction false} StartFound(log: seq<Event>) returns (j: nat)
    requires Started(log)
    ensures j < |log| && log[j].ActionStarted? && forall i :: j < i < |log| ==> log[i] == PauseNoted
  {
    if log[|log| - 1].ActionStarted? {
      j := |log| - 1;
    } else {
      j := StartFound(log[..|log| - 1]);
    }
  }

  /** A result or a failure is that of the action started last, with nothing but pauses in between. */
  lemma ResultAfterStart(log: seq<Event>, actions: seq<Action>, refused: bool, k: nat) returns (j: nat)
    requires Feedback(log, actions, refused) && k < |log| && (log[k].ActionResult? || log[k].ActionFailed?)
    ensures j < k && log[j] == ActionStarted(log[k].no) && forall i :: j < i < k ==> log[i] == PauseNoted
  {
    assert MayFollow(log[..k], log[k], actions, refused);
    j := StartFound(log[..k]);
    assert log[..k][j] == log[j];
    assert forall i :: j < i < k ==> log[..k][i] == log[i];
    assert MayFollow(log[..j], log[j], actions, refused);
    PausesReportNothing(log, j, k);
  }

  lemma {:induction false} PausesReportNothing(log: seq<Event>, j: nat, k: nat)
    requires j < k <= |log| && !log[j].ActionResult? && forall i :: j < i < k ==> log[i] == PauseNoted
    ensures Results(log[..j]) == Results(log[..k])
    decreases k
  {
    assert log[..k][..k - 1] == log[..k - 1] && log[..k][k - 1] == log[k - 1];
    if j < k - 1 {
      PausesReportNothing(log, j, k - 1);
    }
  }

  /** A complete log without a failure or cancel reports all actions, or belongs to a run that was refused. */
  lemma CompleteLog(log: seq<Event>, actions: seq<Action>, refused: bool)
    requires Feedback(log, actions, refused) && log != [] && log[|log| - 1] == Over
    ensures |log| >= 2
    ensures var e := log[|log| - 2];
      e == CancelNoted || e.ActionFailed? || Results(log) == |actions| || (refused && log == [Begun, Over])
  {
    var init := log[..|log| - 1];
    assert MayFollow(init, log[|log| - 1], actions, refused);
    assert init[|init| - 1] == log[|log| - 2];
    assert log == init + [Over];
  }

  // ---------------------------------------------------------------------------------------------------------
  // The feedback of the scheduler
  // ---------------------------------------------------------------------------------------------------------

  predicate IsRefused(t: Task) {
    t.executedCount > t.maxCount
  }

  /** The event may be published next. */
  predicate MayPublish(s: State, e: Event) {
    MayFollow(s.log, e, s.task.actions, IsRefused(s.task))
  }

  ghost predicate LogInv(s: State) {
    && Feedback(s.log, s.task.actions, IsRefused(s.task))
    && match s.runner
       case Idle => s.log == [] || s.log[|s.log| - 1] == Over
       case OverNotice => MayPublish(s, Over)
       case Denied => s.log == [Begun] && IsRefused(s.task)
       case Finish => MayPublish(s, Over)
       case Setup => s.log == [Begun] && s.i == 0
       case _ =>
         && Open(s.log) && Results(s.log) == s.i
         && (InAction(s.runner) && HasAction(s) ==> Started(s.log) && s.activeNo == s.task.actions[s.i].no)
  }

  lemma LogInitially(s: State)
    requires InitialState(s)
    ensures LogInv(s)
  {
  }

  /** The steps of the loop that publish nothing. */
  lemma LogQuiet(s: State)
    requires Inv(s) && LogInv(s) && RunEnabled(s) && Run(s).log == s.log
    ensures LogInv(Run(s))
  {
    assert Run(s).task == s.task && Run(s).i == s.i;
  }

  /** The event that a step of the loop publishes, if it publishes one within a run. */
  function Published(s: State): Event
    requires RunEnabled(s)
  {
    match s.runner
    case DoCancel => CancelNoted
    case DoPause => PauseNoted
    case Returned(_) => ActionResult(s.activeNo)
    case Threw => ActionFailed(s.activeNo)
    case OverNotice => Over
    case _ => if HasAction(s) then ActionStarted(s.task.actions[s.i].no) else Over
  }

  predicate Ending(r: Runner) {
    r == DoCancel || r == Threw || r == OverNotice
  }

  /** A cancel, a failure or the end is published. */
  lemma LogEnds(s: State)
    requires Inv(s) && LogInv(s) && RunEnabled(s) && Ending(s.runner)
    ensures LogInv(Run(s))
  {
    var e := Published(s);
    assert Run(s).log == s.log + [e];
    assert MayPublish(s, e);
    FeedbackSnoc(s.log, e, s.task.actions, IsRefused(s.task));
    assert (s.log + [e])[|s.log|] == e;
  }

  /** The start of an action is published. */
  lemma LogStarts(s: State)
    requires Inv(s) && LogInv(s) && RunEnabled(s) && s.status == Execing && s.runner == CheckExec
    ensures LogInv(Run(s))
  {
    var e := Published(s);
    assert Open(s.log) && Results(s.log) == s.i && HasAction(s);
    assert Run(s).log == s.log + [e];
    assert MayPublish(s, e);
    FeedbackSnoc(s.log, e, s.task.actions, IsRefused(s.task));
    assert (s.log + [e])[|s.log|] == e;
  }

  /** The result of an action is published. */
  lemma LogResult(s: State)
    requires Inv(s) && LogInv(s) && RunEnabled(s) && Run(s).log != s.log && s.runner.Returned?
    ensures LogInv(Run(s))
  {
    var e := Published(s);
    assert Run(s).log == s.log + [e];
    assert MayPublish(s, e);
    FeedbackSnoc(s.log, e, s.task.actions, IsRefused(s.task));
    assert (s.log + [e])[|s.log|] == e;
  }

  /** A pause is published. */
  lemma LogPause(s: State)
    requires Inv(s) && LogInv(s) && RunEnabled(s) && s.runner == DoPause
    ensures LogInv(Run(s))
  {
    var e := Published(s);
    assert Run(s).log == s.log + [e];
    assert MayPublish(s, e);
    FeedbackSnoc(s.log, e, s.task.actions, IsRefused(s.task));
    assert (s.log + [e])[|s.log|] == e;
  }

  lemma LogPublishes(s: State)
    requires Inv(s) && LogInv(s) && RunEnabled(s) && Run(s).log != s.log && s.runner != Idle
    ensures LogInv(Run(s))
  {
    if Ending(s.runner) {
      LogEnds(s);
    } else if s.runner == CheckExec {
      LogStarts(s);
    } else if s.runner.Returned? {
      LogResult(s);
    } else {
      LogPause(s);
    }
  }

  lemma LogBegins(s: State)
    requires Inv(s) && LogInv(s) && RunEnabled(s) && s.runner == Idle
    ensures LogInv(Run(s))
  {
    var t := Run(s);
    assert t.log[..0] == [];
    assert Results([Begun]) == 0;
  }

  lemma LogControl(s: State)
    requires LogInv(s) && ControlEnabled(s)
    ensures LogInv(Controlled(s))
  {
    var t := Controlled(s);
    assert t.task == s.task && t.i == s.i && t.runner == s.runner && t.activeNo == s.activeNo && t.log == s.log;
  }

  lemma LogHandler(s: State)
    requires Inv(s) && LogInv(s) && HandlerEnabled(s)
    ensures LogInv(Handled(s))
  {
    var t := Handled(s);
    if !s.handler.Assigning? {
      assert t.task == s.task && t.i == s.i && t.runner == s.runner && t.activeNo == s.activeNo && t.log == s.log;
    }
  }

  lemma LogStep(s: State, step: Step)
    requires Inv(s) && LogInv(s) && Enabled(s, step)
    ensures LogInv(Apply(s, step))
  {
    match step
    case RunStep =>
      if s.runner == Idle { LogBegins(s); } else if Run(s).log == s.log { LogQuiet(s); } else { LogPublishes(s); }
    case ControlStep => LogControl(s);
    case HandlerStep => LogHandler(s);
    case _ =>
  }

  lemma {:induction false} LogAlongTrace(states: seq<State>, steps: seq<Step>, k: nat)
    requires Trace(states, steps) && InitialState(states[0]) && k <= |steps|
    ensures Inv(states[k]) && LogInv(states[k])
    decreases k
  {
    if k == 0 {
      InvInitially(states[0]);
      LogInitially(states[0]);
    } else {
      LogAlongTrace(states, steps, k - 1);
      assert Follows(states[k - 1], steps[k - 1], states[k]);
      InvStep(states[k - 1], steps[k - 1]);
      LogStep(states[k - 1], steps[k - 1]);
    }
  }

  /** In every reachable state the whole log is proper feedback; it reports the actions before the current one, and it
    * ends in the end notice exactly when its run is over.
    */
  lemma FeedbackShape(s: State)
    requires Reachable(s)
    ensures Feedback(s.log, s.task.actions, IsRefused(s.task))
    ensures s.log != [] && s.log[|s.log| - 1] == Over <==> s.runner == Idle && s.log != []
    ensures BetweenActions(s.runner) || InAction(s.runner) ==> Open(s.log) && Results(s.log) == s.i
  {
    var states, steps :| Trace(states, steps) && InitialState(states[0]) && states[|steps|] == s;
    LogAlongTrace(states, steps, |steps|);
    OverOnce(s.log, s.task.actions, IsRefused(s.task));
  }

  /** The end notice is not published twice. */
  lemma OverOnce(log: seq<Event>, actions: seq<Action>, refused: bool)
    ensures MayFollow(log, Over, actions, refused) ==> log != [] && log[|log| - 1] != Over
  {
  }

  /** The action numbers of the results are increasing when the list is sorted by number, as `from_json` sorts it. */
  lemma ResultsAreSorted(s: State, j: nat, k: nat)
    requires Reachable(s)
    requires forall a, b :: 0 <= a < b < |s.task.actions| ==> s.task.actions[a].no <= s.task.actions[b].no
    requires j < k < |s.log| && s.log[j].ActionResult? && s.log[k].ActionResult?
    ensures s.log[j].no <= s.log[k].no
  {
    FeedbackShape(s);
    ResultsInOrder(s.log, s.task.actions, IsRefused(s.task), j, k);
  }
}
