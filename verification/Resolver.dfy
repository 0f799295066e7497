/**
 * Ownership of the data shared by a resolver thread and the transfer that started it (`asyn-thread.c`), as a step
 * system: every interleaving of the two parties is a sequence of steps.
 */
module Resolver {

  /** The resolver thread: in the resolve call, before its critical section, and after it. */
  datatype ThreadPc = NotStarted | Resolving | Resolved | Cleaning | Returning | Exited

  /** The owner: starting the thread, waiting for it, and giving up the data. */
  datatype OwnerPc =
    Starting | Armed | Waiting | Joined | Destroying | Detaching | Joining | Freeing | Gone

  /**
   * `done` and `hnd` are the flag and the thread handle in the shared data, `res` says that the result list is in
   * it, `failed` that an error code is. The counters tell how often the shared data and a result list have been
   * released, how often a list has been taken over by the owner, and how often one has been dropped. `unwoken`
   * remembers that the owner could not be signalled, `completed` that it has asked for the result.
   */
  datatype State = State(
    owner: OwnerPc, thread: ThreadPc, done: bool, hnd: bool, res: bool, failed: bool,
    releases: nat, produced: nat, freed: nat, handed: nat, dropped: nat,
    unwoken: bool, completed: bool)

  function Initial(): State {
    State(Starting, NotStarted, true, false, false, false, 0, 0, 0, 0, 0, false, false)
  }

  datatype Step =
      /** `init_resolve_thread`: the host name cannot be copied. */
    | GiveUpStart
      /** The flag is cleared before the thread is created. */
    | Arm
    | CreateThread(ok: bool)
      /** The thread leaves the resolve call with a result list or an error. */
    | Resolve(ok: bool)
      /** The critical section of the thread; `woken` tells whether the owner could be signalled. */
    | Finish(woken: bool)
    | CleanUp
    | Return
      /** The owner sees the flag, takes the result over, and destroys the data. */
    | Poll
      /** The owner cancels whatever the thread is doing. */
    | Cancel
      /** The owner waits for the thread to exit, then takes the result over or ignores it. */
    | Wait
    | TakeOver(wanted: bool)
      /** The owner exchanges the flag under the mutex. */
    | Exchange
      /** If the flag was not set, the owner reads the thread handle and detaches the thread, after the mutex. */
    | Detach
    | Join
    | Release

  predicate Enabled(s: State, step: Step) {
    match step
    case GiveUpStart => s.owner == Starting
    case Arm => s.owner == Starting
    case CreateThread(_) => s.owner == Armed
    case Resolve(_) => s.thread == Resolving
    case Finish(_) => s.thread == Resolved
    case CleanUp => s.thread == Cleaning
    case Return => s.thread == Returning
    case Poll => s.owner == Waiting && s.done
    case Cancel => s.owner == Waiting
    case Wait => s.owner == Waiting && s.thread == Exited
    case TakeOver(_) => s.owner == Joined
    case Exchange => s.owner == Destroying
    case Detach => s.owner == Detaching
    case Join => s.owner == Joining && s.thread == Exited
    case Release => s.owner == Freeing
  }

  /** `destroy_thread_sync_data` and `free`: a result list still in the data goes with it. */
  function Destroyed(s: State): State {
    s.(res := false, freed := s.freed + (if s.res then 1 else 0), releases := s.releases + 1)
  }

  /** `getaddrinfo_complete`: the list is taken over unless there is an error code, and then forgotten. */
  function Completed(s: State): State {
    s.(res := false, completed := true,
       handed := s.handed + (if s.res && !s.failed then 1 else 0),
       dropped := s.dropped + (if s.res && s.failed then 1 else 0))
  }

  function Apply(s: State, step: Step): State
    requires Enabled(s, step)
  {
    match step
    case GiveUpStart => s.(owner := Destroying)
    case Arm => s.(owner := Armed, done := false)
    case CreateThread(ok) =>
      if ok then s.(owner := Waiting, thread := Resolving, hnd := true) else s.(owner := Destroying, done := true)
    case Resolve(ok) =>
      s.(thread := Resolved, res := ok, failed := !ok, produced := s.produced + (if ok then 1 else 0))
    case Finish(woken) =>
      if s.done then s.(thread := Cleaning)
      else s.(thread := Returning, done := true, failed := s.failed || !woken, unwoken := !woken)
    case CleanUp => Destroyed(s).(thread := Exited)
    case Return => s.(thread := Exited)
    case Poll => Completed(s).(owner := Destroying)
    case Cancel => s.(owner := Destroying)
    case Wait => s.(owner := Joined, hnd := false)
    case TakeOver(wanted) => (if wanted then Completed(s) else s).(owner := Destroying)
    case Exchange =>
      if !s.done then s.(owner := Detaching, done := true)
      else if s.hnd then s.(owner := Joining)
      else s.(owner := Freeing)
    case Detach => s.(owner := Gone)
    case Join => s.(owner := Freeing, hnd := false)
    case Release => Destroyed(s).(owner := Gone)
  }

  /** The step reads or writes the shared data. */
  predicate Touches(step: Step) {
    !step.Return?
  }

  /** Which combinations of the two parties, the flag and the handle occur. */
  ghost predicate Protocol(s: State) {
    match s.owner
    case Starting => s.done && !s.hnd && s.thread == NotStarted
    case Armed => !s.done && !s.hnd && s.thread == NotStarted
    case Waiting => s.hnd && s.thread != NotStarted && s.thread != Cleaning && (s.done <==> Passed(s))
    case Joined => s.done && !s.hnd && s.thread == Exited
    case Destroying =>
      && s.thread != Cleaning && (s.done <==> s.thread == NotStarted || Passed(s))
      && (s.hnd ==> s.thread != NotStarted) && (!s.hnd ==> s.thread == NotStarted || s.thread == Exited)
    case Detaching => s.done && s.hnd && s.thread != NotStarted && s.thread != Returning
    case Joining => s.done && s.hnd && Passed(s)
    case Freeing => s.done && !s.hnd && (s.thread == NotStarted || s.thread == Exited)
    case Gone => s.done && s.thread != Returning
  }

  /** The thread has left its critical section. */
  predicate Passed(s: State) {
    s.thread == Returning || s.thread == Exited
  }

  /** The data has been released: by an owner that has gone, or by a thread that found the flag set by its owner. */
  predicate Released(s: State) {
    (s.owner == Gone || s.owner == Detaching) && (s.thread == NotStarted || s.thread == Exited)
  }

  ghost predicate Inv(s: State) {
    && Protocol(s)
    && s.releases == (if Released(s) then 1 else 0)
    && (s.res ==> s.thread != NotStarted && s.thread != Resolving && !Released(s))
    && s.produced == s.freed + s.handed + s.dropped + (if s.res then 1 else 0)
    && (s.thread == NotStarted || s.thread == Resolving ==> s.produced == 0)
    && s.produced <= 1 && (s.freed > 0 ==> Released(s))
    && ResultInv(s)
  }

  /** Where a result list is or has gone. */
  ghost predicate ResultInv(s: State) {
    && (s.completed ==> s.owner != Waiting && s.owner != Joined && Passed(s) && !s.res)
    && (s.produced == 1 ==> (s.failed <==> s.unwoken))
    && (s.unwoken ==> Passed(s))
    && (s.handed == 1 <==> s.completed && s.produced == 1 && !s.unwoken)
    && (s.dropped == 1 <==> s.completed && s.produced == 1 && s.unwoken)
  }

  lemma InvStep(s: State, step: Step)
    requires Inv(s) && Enabled(s, step)
    ensures Inv(Apply(s, step))
  {
  }

  /** A step that touches the shared data finds it alive, except the detaching of a thread that has ended before. */
  lemma NoUseAfterRelease(s: State, step: Step)
    requires Inv(s) && Enabled(s, step) && Touches(step)
    ensures s.releases == 0 <==> !(step == Detach && s.thread == Exited)
  {
  }

  // ---------------------------------------------------------------------------------------------------------
  // Runs
  // ---------------------------------------------------------------------------------------------------------

  predicate Possible(s: State, steps: seq<Step>)
    decreases steps
  {
    steps == [] || (Enabled(s, steps[0]) && Possible(Apply(s, steps[0]), steps[1..]))
  }

  function Run(s: State, steps: seq<Step>): State
    requires Possible(s, steps)
    decreases steps
  {
    if steps == [] then s else Run(Apply(s, steps[0]), steps[1..])
  }

  lemma {:induction false} RunInv(s: State, steps: seq<Step>)
    requires Inv(s) && Possible(s, steps)
    ensures Inv(Run(s, steps))
    decreases steps
  {
    if steps != [] {
      InvStep(s, steps[0]);
      RunInv(Apply(s, steps[0]), steps[1..]);
    }
  }

  lemma {:induction false} PossiblePrefix(s: State, steps: seq<Step>, n: nat)
    requires Possible(s, steps) && n < |steps|
    ensures Possible(s, steps[..n]) && Enabled(Run(s, steps[..n]), steps[n])
    decreases steps
  {
    if n > 0 {
      PossiblePrefix(Apply(s, steps[0]), steps[1..], n - 1);
      assert steps[1..][..n - 1] == steps[..n][1..];
    }
  }

  ghost predicate DetachesAt(steps: seq<Step>, m: nat)
    requires m <= |steps|
  {
    Possible(Initial(), steps[..m]) && Run(Initial(), steps[..m]).owner == Detaching
  }

  /** A detaching owner has found the flag unset when it exchanged it, and has done nothing since. */
  lemma {:induction false} ExchangeBefore(steps: seq<Step>) returns (i: nat)
    requires Possible(Initial(), steps) && Run(Initial(), steps).owner == Detaching
    ensures i < |steps| && ExchangesUnset(steps, i) && forall m :: i < m <= |steps| ==> DetachesAt(steps, m)
    decreases steps
  {
    if steps != [] {
      var n := |steps| - 1;
      RunLast(steps);
      assert steps[..|steps|] == steps;
      if steps[n] == Exchange {
        i := n;
      } else {
        i := ExchangeBefore(steps[..n]);
        assert steps[..n][..i] == steps[..i];
        forall m | i < m <= n
          ensures DetachesAt(steps, m)
        {
          assert DetachesAt(steps[..n], m) && steps[..n][..m] == steps[..m];
        }
      }
    }
  }

  /** The thread has not reached its critical section when its flag is unset at the exchange. */
  lemma UnsetAtExchange(steps: seq<Step>, i: nat)
    requires Possible(Initial(), steps) && i < |steps| && ExchangesUnset(steps, i)
    ensures Run(Initial(), steps[..i]).thread in {Resolving, Resolved}
  {
    PossiblePrefix(Initial(), steps, i);
    RunInv(Initial(), steps[..i]);
  }

  /** The last step of a run. */
  lemma LastStep(s: State, steps: seq<Step>)
    requires Possible(s, steps) && steps != []
    ensures var n := |steps| - 1;
      && Possible(s, steps[..n]) && Enabled(Run(s, steps[..n]), steps[n])
      && Run(s, steps) == Apply(Run(s, steps[..n]), steps[n])
  {
    var n := |steps| - 1;
    var front, last := steps[..n], steps[n];
    PossiblePrefix(s, steps, n);
    assert front + [last] == steps;
    RunSnoc(s, front, last);
  }

  lemma RunLast(steps: seq<Step>)
    requires Possible(Initial(), steps) && steps != []
    ensures var n := |steps| - 1;
      && Possible(Initial(), steps[..n]) && Enabled(Run(Initial(), steps[..n]), steps[n])
      && Run(Initial(), steps) == Apply(Run(Initial(), steps[..n]), steps[n])
  {
    LastStep(Initial(), steps);
  }

  /** The step with which the thread has left the program points of a set that it was in before. */
  lemma {:induction false} StepOut(steps: seq<Step>, i: nat, inside: set<ThreadPc>) returns (k: nat)
    requires Possible(Initial(), steps) && i <= |steps| && Possible(Initial(), steps[..i])
    requires Run(Initial(), steps[..i]).thread in inside && Run(Initial(), steps).thread !in inside
    ensures i <= k < |steps| && Possible(Initial(), steps[..k]) && Possible(Initial(), steps[..k + 1])
    ensures Run(Initial(), steps[..k]).thread in inside && Run(Initial(), steps[..k + 1]).thread !in inside
    ensures Enabled(Run(Initial(), steps[..k]), steps[k])
    ensures Run(Initial(), steps[..k + 1]) == Apply(Run(Initial(), steps[..k]), steps[k])
    decreases steps
  {
    assert steps[..|steps|] == steps;
    if i == |steps| {
      assert false;
    } else {
      var n := |steps| - 1;
      RunLast(steps);
      if Run(Initial(), steps[..n]).thread in inside {
        k := n;
      } else {
        assert steps[..n][..i] == steps[..i];
        k := StepOut(steps[..n], i, inside);
        assert steps[..n][..k] == steps[..k] && steps[..n][..k + 1] == steps[..k + 1];
      }
    }
  }

  /** Between the exchange of the flag that found it unset and the detaching, the thread has ended. */
  ghost predicate Overtaken(steps: seq<Step>, n: nat)
    requires Possible(Initial(), steps) && n < |steps|
  {
    steps[n] == Detach && exists i, j, k ::
      0 <= i < j < k < n && ExchangesUnset(steps, i) && steps[j].Finish? && steps[k] == CleanUp
  }

  ghost predicate ExchangesUnset(steps: seq<Step>, i: nat)
    requires i < |steps|
  {
    steps[i] == Exchange && Possible(Initial(), steps[..i]) && !Run(Initial(), steps[..i]).done
  }

  lemma {:induction false} ExitedStays(steps: seq<Step>, m: nat)
    requires Possible(Initial(), steps) && m <= |steps|
    requires Possible(Initial(), steps[..m]) && Run(Initial(), steps[..m]).thread == Exited
    ensures Run(Initial(), steps).thread == Exited
    decreases steps
  {
    if m < |steps| {
      RunLast(steps);
      assert steps[..|steps| - 1][..m] == steps[..m];
      ExitedStays(steps[..|steps| - 1], m);
      RunInv(Initial(), steps[..|steps| - 1]);
    } else {
      assert steps[..m] == steps;
    }
  }

  lemma ThreadLeaves(s: State, step: Step)
    requires Inv(s) && Enabled(s, step) && s.owner == Detaching
    ensures s.thread in {Resolving, Resolved} && Apply(s, step).thread !in {Resolving, Resolved} ==>
      step.Finish? && Apply(s, step).thread == Cleaning
    ensures s.thread == Cleaning && Apply(s, step).thread != Cleaning ==> step == CleanUp
  {
  }

  /** A detaching owner whose thread has ended was overtaken by it. */
  lemma EndedMeanwhile(steps: seq<Step>) returns (i: nat, j: nat, k: nat)
    requires Possible(Initial(), steps)
    requires Run(Initial(), steps).owner == Detaching && Run(Initial(), steps).thread == Exited
    ensures i < j < k < |steps| && ExchangesUnset(steps, i) && steps[j].Finish? && steps[k] == CleanUp
  {
    i := ExchangeBefore(steps);
    UnsetAtExchange(steps, i);
    j := StepOut(steps, i, {Resolving, Resolved});
    assert j != i;
    LeavesAt(steps, j);
    k := StepOut(steps, j + 1, {Cleaning});
    LeavesAt(steps, k);
  }

  lemma LeavesAt(steps: seq<Step>, j: nat)
    requires Possible(Initial(), steps) && j < |steps| && DetachesAt(steps, j)
    requires Possible(Initial(), steps[..j + 1])
    requires Enabled(Run(Initial(), steps[..j]), steps[j])
    requires Run(Initial(), steps[..j + 1]) == Apply(Run(Initial(), steps[..j]), steps[j])
    ensures var s, t := Run(Initial(), steps[..j]), Run(Initial(), steps[..j + 1]);
      && (s.thread in {Resolving, Resolved} && t.thread !in {Resolving, Resolved} ==>
            steps[j].Finish? && t.thread == Cleaning)
      && (s.thread == Cleaning && t.thread != Cleaning ==> steps[j] == CleanUp)
  {
    RunInv(Initial(), steps[..j]);
    ThreadLeaves(Run(Initial(), steps[..j]), steps[j]);
  }

  lemma EndsThere(steps: seq<Step>, k: nat)
    requires Possible(Initial(), steps) && k < |steps| && steps[k] == CleanUp
    ensures Possible(Initial(), steps[..k + 1]) && Run(Initial(), steps[..k + 1]).thread == Exited
  {
    PossiblePrefix(Initial(), steps, k);
    RunSnoc(Initial(), steps[..k], steps[k]);
    assert steps[..k] + [steps[k]] == steps[..k + 1];
  }

  lemma OvertakenHasEnded(steps: seq<Step>, n: nat)
    requires Possible(Initial(), steps) && n < |steps| && Possible(Initial(), steps[..n]) && Overtaken(steps, n)
    ensures Run(Initial(), steps[..n]).thread == Exited
  {
    var i, j, k :| 0 <= i < j < k < n && ExchangesUnset(steps, i) && steps[j].Finish? && steps[k] == CleanUp;
    EndsThere(steps, k);
    assert steps[..n][..k + 1] == steps[..k + 1];
    ExitedStays(steps[..n], k + 1);
  }

  lemma EndedIsOvertaken(steps: seq<Step>, n: nat)
    requires Possible(Initial(), steps) && n < |steps| && Possible(Initial(), steps[..n]) && steps[n] == Detach
    requires Run(Initial(), steps[..n]).owner == Detaching && Run(Initial(), steps[..n]).thread == Exited
    ensures Overtaken(steps, n)
  {
    var i, j, k := EndedMeanwhile(steps[..n]);
    assert steps[..n][..i] == steps[..i] && ExchangesUnset(steps, i);
  }

  /**
   * In every interleaving a step that touches the shared data finds it alive, with one exception: the owner reads the
   * thread handle after it has given up the mutex. It finds the data released exactly if, since it exchanged the flag
   * and found it unset, the thread has ended its critical section and cleaned up.
   */
  lemma SafeAlongRun(steps: seq<Step>, n: nat)
    requires Possible(Initial(), steps) && n < |steps| && Touches(steps[n])
    ensures Possible(Initial(), steps[..n]) && (Run(Initial(), steps[..n]).releases > 0 <==> Overtaken(steps, n))
  {
    PossiblePrefix(Initial(), steps, n);
    RunInv(Initial(), steps[..n]);
    NoUseAfterRelease(Run(Initial(), steps[..n]), steps[n]);
    if Overtaken(steps, n) {
      OvertakenHasEnded(steps, n);
    } else if Run(Initial(), steps[..n]).releases > 0 {
      EndedIsOvertaken(steps, n);
    }
  }

  /** The owner cancels while the thread resolves, and is overtaken between the exchange and the detaching. */
  lemma OwnerIsOvertaken() returns (steps: seq<Step>)
    ensures Possible(Initial(), steps + [Detach]) && Possible(Initial(), steps)
    ensures Run(Initial(), steps).releases == 1 && Touches(Detach)
  {
    steps := [Arm];
    RunSnoc(Initial(), steps, CreateThread(true));
    steps := steps + [CreateThread(true)];
    RunSnoc(Initial(), steps, Cancel);
    steps := steps + [Cancel];
    RunSnoc(Initial(), steps, Exchange);
    steps := steps + [Exchange];
    RunSnoc(Initial(), steps, Resolve(true));
    steps := steps + [Resolve(true)];
    RunSnoc(Initial(), steps, Finish(true));
    steps := steps + [Finish(true)];
    RunSnoc(Initial(), steps, CleanUp);
    steps := steps + [CleanUp];
    RunSnoc(Initial(), steps, Detach);
  }

  /** Both parties are through with the data. */
  predicate Settled(s: State) {
    s.owner == Gone && (s.thread == NotStarted || s.thread == Exited)
  }

  ghost predicate Final(s: State) {
    forall step :: !Enabled(s, step)
  }

  /** As long as a party is not through with the data, some party can move. */
  lemma Progress(s: State)
    requires Inv(s)
    ensures Final(s) <==> Settled(s)
  {
    if !Settled(s) {
      var step :=
        match s.thread
        case Resolving => Resolve(true)
        case Resolved => Finish(true)
        case Cleaning => CleanUp
        case Returning => Return
        case _ =>
          match s.owner
          case Starting => Arm
          case Armed => CreateThread(true)
          case Waiting => Cancel
          case Joined => TakeOver(true)
          case Destroying => Exchange
          case Detaching => Detach
          case Joining => Join
          case Freeing => Release
          case Gone => Return;
      assert Enabled(s, step);
    }
  }

  function ThreadRank(t: ThreadPc): nat {
    match t
    case NotStarted => 4
    case Resolving => 3
    case Resolved => 2
    case Cleaning => 1
    case Returning => 1
    case Exited => 0
  }

  function OwnerRank(o: OwnerPc): nat {
    match o
    case Starting => 7
    case Armed => 6
    case Waiting => 5
    case Joined => 4
    case Destroying => 3
    case Detaching => 1
    case Joining => 2
    case Freeing => 1
    case Gone => 0
  }

  function Rank(s: State): nat {
    ThreadRank(s.thread) + OwnerRank(s.owner)
  }

  lemma RankStep(s: State, step: Step)
    requires Inv(s) && Enabled(s, step)
    ensures Rank(Apply(s, step)) < Rank(s)
  {
  }

  lemma {:induction false} RunsAreShort(s: State, steps: seq<Step>)
    requires Inv(s) && Possible(s, steps)
    ensures |steps| + Rank(Run(s, steps)) <= Rank(s)
    decreases steps
  {
    if steps != [] {
      RankStep(s, steps[0]);
      InvStep(s, steps[0]);
      RunsAreShort(Apply(s, steps[0]), steps[1..]);
    }
  }

  /**
   * Every interleaving that goes on as long as it can releases the shared data exactly once. A result list is either
   * handed over or freed, not both, unless the owner was not signalled and asks for the result: then it is dropped.
   */
  lemma ReleasedExactlyOnce(steps: seq<Step>)
    requires Possible(Initial(), steps) && Final(Run(Initial(), steps))
    ensures var s := Run(Initial(), steps);
      && |steps| <= 11 && s.releases == 1
      && s.produced <= 1 && s.freed + s.handed + s.dropped == s.produced
      && (s.handed == 1 <==> s.produced == 1 && s.completed && !s.unwoken)
      && (s.freed == 1 <==> s.produced == 1 && !s.completed)
      && (s.dropped == 1 <==> s.produced == 1 && s.completed && s.unwoken)
  {
    RunInv(Initial(), steps);
    RunsAreShort(Initial(), steps);
    Progress(Run(Initial(), steps));
  }

  /** A run can be continued by a step that is possible in its last state. */
  lemma {:induction false} RunSnoc(s: State, steps: seq<Step>, step: Step)
    requires Possible(s, steps) && Enabled(Run(s, steps), step)
    ensures Possible(s, steps + [step]) && Run(s, steps + [step]) == Apply(Run(s, steps), step)
    decreases steps
  {
    if steps == [] {
      assert ([] + [step])[1..] == [];
    } else {
      RunSnoc(Apply(s, steps[0]), steps[1..], step);
      assert (steps + [step])[1..] == steps[1..] + [step];
    }
  }

  /** The resolver finds a list but cannot signal its owner. */
  lemma ResolvesUnnoticed() returns (steps: seq<Step>)
    ensures Possible(Initial(), steps)
    ensures Run(Initial(), steps)
            == State(Waiting, Returning, true, true, true, true, 0, 1, 0, 0, 0, true, false)
  {
    RunSnoc(Initial(), [], Arm);
    RunSnoc(Initial(), [Arm], CreateThread(true));
    RunSnoc(Initial(), [Arm, CreateThread(true)], Resolve(true));
    steps := [Arm, CreateThread(true), Resolve(true)];
    assert [Arm] + [CreateThread(true)] == [Arm, CreateThread(true)];
    RunSnoc(Initial(), steps, Finish(false));
    steps := steps + [Finish(false)];
  }

  /** A dropped list does occur: when the owner could not be signalled and then sees the flag. */
  lemma ListIsDropped() returns (steps: seq<Step>)
    ensures Possible(Initial(), steps) && Final(Run(Initial(), steps)) && Run(Initial(), steps).dropped == 1
  {
    steps := ResolvesUnnoticed();
    RunSnoc(Initial(), steps, Poll);
    steps := steps + [Poll];
    RunSnoc(Initial(), steps, Return);
    steps := steps + [Return];
    RunSnoc(Initial(), steps, Exchange);
    steps := steps + [Exchange];
    RunSnoc(Initial(), steps, Join);
    steps := steps + [Join];
    RunSnoc(Initial(), steps, Release);
    steps := steps + [Release];
    RunInv(Initial(), steps);
    Progress(Run(Initial(), steps));
  }
}
