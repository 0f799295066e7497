/**
 * The shared data of a resolver thread with the functions of the program (`asyn-thread.c`). Between any two accesses
 * the other party may do whatever it can: what it does is taken from a script of arbitrary steps. The program counters
 * and the history of steps tie the functions to the interleaved system.
 */
module ResolverObject {
  import opened Resolver

  datatype Party = Thread | Owner

  function PartyOf(step: Step): Party {
    if step.Resolve? || step.Finish? || step.CleanUp? || step.Return? then Thread else Owner
  }

  /** What a party can rely on while the other one runs. */
  predicate Keeps(me: Party, s: State, t: State) {
    match me
    case Thread =>
      t.thread == s.thread && (!Passed(s) ==> t.res == s.res && t.failed == s.failed && (s.done ==> t.done))
    case Owner =>
      && t.owner == s.owner && t.hnd == s.hnd && (s.done ==> t.done)
      && t.handed == s.handed && t.completed == s.completed && (s.thread == NotStarted ==> t == s)
      && (t.thread == NotStarted ==> s.thread == NotStarted)
  }

  lemma StepKeeps(me: Party, s: State, step: Step)
    requires Inv(s) && Enabled(s, step) && PartyOf(step) != me && (me == Thread ==> s.thread != NotStarted)
    ensures Keeps(me, s, Apply(s, step))
  {
  }

  lemma KeepsTwice(me: Party, s: State, t: State, u: State)
    requires Keeps(me, s, t) && Keeps(me, t, u) && (Passed(s) ==> Passed(t))
    ensures Keeps(me, s, u)
  {
  }

  /** A thread that has passed its critical section does not come back. */
  lemma PassedStays(s: State, step: Step)
    requires Inv(s) && Enabled(s, step) && Passed(s)
    ensures Passed(Apply(s, step))
  {
  }

  ghost predicate LedTo(steps: seq<Step>, s: State) {
    Possible(Initial(), steps) && Run(Initial(), steps) == s
  }

  lemma LedToSnoc(steps: seq<Step>, s: State, step: Step)
    requires LedTo(steps, s) && Enabled(s, step)
    ensures LedTo(steps + [step], Apply(s, step))
  {
    RunSnoc(Initial(), steps, step);
  }

  class ThreadData {
    var owner: OwnerPc
    var thread: ThreadPc
    var done: bool
    var hnd: bool
    var res: bool
    var failed: bool
    /** How often the data and result lists were released, made, freed, taken over and dropped. */
    var releases: nat
    var produced: nat
    var freed: nat
    var handed: nat
    var dropped: nat
    var unwoken: bool
    var completed: bool
    /** What the other party will do if it can. */
    var script: seq<Step>
    ghost var steps: seq<Step>

    function View(): State
      reads this
    {
      State(owner, thread, done, hnd, res, failed, releases, produced, freed, handed, dropped, unwoken, completed)
    }

    /** The object is where its history has led. */
    ghost predicate Valid()
      reads this
    {
      LedTo(steps, View())
    }

    /** The history has been continued, not replaced. */
    twostate predicate Continues()
      reads this
    {
      Valid() && old(steps) <= steps
    }

    lemma Known()
      requires Valid()
      ensures Inv(View())
    {
      RunInv(Initial(), steps);
    }

    /** `init_thread_sync_data`: the request counts as done until the thread starts. */
    constructor (script: seq<Step>)
      ensures Valid() && View() == Initial() && this.script == script
    {
      owner, thread, done, hnd, res, failed := Starting, NotStarted, true, false, false, false;
      releases, produced, freed, handed, dropped, unwoken, completed := 0, 0, 0, 0, 0, false, false;
      this.script, steps := script, [];
    }

    /** Records that the last statements were a step: program counters and counts follow, the shared fields must fit. */
    method Record(before: State, step: Step)
      requires LedTo(steps, before) && Enabled(before, step)
      requires var t := Apply(before, step); done == t.done && hnd == t.hnd && res == t.res && failed == t.failed
      modifies this`owner, this`thread, this`releases, this`produced, this`freed, this`handed, this`dropped
      modifies this`unwoken, this`completed, this`steps
      ensures Continues() && View() == Apply(before, step) && steps == old(steps) + [step]
    {
      LedToSnoc(steps, before, step);
      var t := Apply(before, step);
      owner, thread := t.owner, t.thread;
      releases, produced, freed, handed, dropped := t.releases, t.produced, t.freed, t.handed, t.dropped;
      unwoken, completed := t.unwoken, t.completed;
      steps := steps + [step];
      assert View() == t;
    }

    method OtherStep(me: Party, step: Step)
      requires Valid() && (me == Thread ==> thread != NotStarted)
      modifies this`owner, this`thread, this`done, this`hnd, this`res, this`failed
      modifies this`releases, this`produced, this`freed, this`handed, this`dropped
      modifies this`unwoken, this`completed, this`steps
      ensures Continues() && Keeps(me, old(View()), View()) && (old(Passed(View())) ==> Passed(View()))
    {
      var s := View();
      if PartyOf(step) != me && Enabled(s, step) {
        Known();
        StepKeeps(me, s, step);
        if Passed(s) {
          PassedStays(s, step);
        }
        var t := Apply(s, step);
        done, hnd, res, failed := t.done, t.hnd, t.res, t.failed;
        Record(s, step);
      }
    }

    /** The other party takes any number of steps of the script; at least one is tried if this party must wait. */
    method Interfere(me: Party, wait: bool) returns (tried: bool)
      requires Valid() && (me == Thread ==> thread != NotStarted)
      modifies this
      ensures Continues() && Keeps(me, old(View()), View()) && (old(Passed(View())) ==> Passed(View()))
      ensures |script| <= |old(script)| && (tried ==> |script| < |old(script)|)
      ensures wait && !tried ==> View() == old(View()) && script == []
    {
      tried := false;
      var more: bool := *;
      ghost var s := View();
      while script != [] && (more || (wait && !tried))
        invariant Continues() && Keeps(me, s, View()) && (Passed(s) ==> Passed(View()))
        invariant |script| <= |old(script)| && (tried <==> |script| < |old(script)|)
        invariant !tried ==> View() == s && script == old(script)
        invariant me == Thread ==> thread != NotStarted
        decreases |script|
      {
        ghost var t := View();
        var step := script[0];
        script := script[1..];
        OtherStep(me, step);
        KeepsTwice(me, s, t, View());
        tried, more := true, *;
      }
    }

    /** `destroy_thread_sync_data`: a list still in the data goes with it. */
    method DestroySyncData()
      modifies this`res
      ensures !res
    {
      if res {
        res := false;
      }
    }

    /** `getaddrinfo_complete`: the list is taken over if there is no error, and forgotten in any case. */
    method Complete() returns (taken: bool)
      modifies this`res
      ensures !res && taken == (old(res) && !failed)
    {
      taken := res && !failed;
      res := false;
    }

    // -------------------------------------------------------------------------------------------------------
    // The resolver thread
    // -------------------------------------------------------------------------------------------------------

    method ResolveName()
      requires Valid() && thread == Resolving
      modifies this
      ensures Continues() && thread == Resolved
    {
      var ok: bool := *;
      var s := View();
      res, failed := ok, !ok;
      Record(s, Resolve(ok));
    }

    /** The critical section: the thread finds the flag set, or sets it and signals the owner. */
    method EndRequest() returns (found: bool)
      requires Valid() && thread == Resolved
      modifies this
      ensures Continues() && done && thread == if found then Cleaning else Returning
    {
      var s := View();
      found := done;
      var woken: bool := *;
      if !done {
        if !woken {
          failed := true;
        }
        done := true;
      }
      Record(s, Finish(woken));
    }

    method LeaveThread(found: bool)
      requires Valid() && done && thread == if found then Cleaning else Returning
      modifies this
      ensures Continues() && done && thread == Exited && owner == old(owner)
      ensures found ==> Released(View()) && !completed
    {
      var s := View();
      Known();
      if found {
        DestroySyncData();
        Record(s, CleanUp);
      } else {
        Record(s, Return);
      }
    }

    /** `getaddrinfo_thread`: the thread releases the data exactly if its owner has left, and else leaves it to it. */
    method GetaddrinfoThread() returns (found: bool)
      requires Valid() && thread == Resolving
      modifies this
      ensures Continues() && thread == Exited && done
      ensures found ==> Released(View()) && releases == 1 && !res && handed == 0 && freed == produced
      ensures !found && owner != Gone ==> releases == 0
    {
      var _ := Interfere(Thread, false);
      ResolveName();
      var _ := Interfere(Thread, false);
      found := EndRequest();
      var _ := Interfere(Thread, false);
      Known();
      LeaveThread(found);
      Known();
    }

    // -------------------------------------------------------------------------------------------------------
    // The owner
    // -------------------------------------------------------------------------------------------------------

    /**
     * `destroy_async_data`: if the flag was set, the data is released here, after the thread has ended; if not, the
     * data is left to the thread, which will find the flag set. Then the thread handle is read to detach the thread,
     * and `late` tells that the thread has released the data before. Not `ok` means that the script ends before the
     * thread does.
     */
    method DestroyAsyncData() returns (ok: bool, was: bool, late: bool)
      requires Valid() && owner == Destroying
      modifies this
      ensures Continues() && handed == old(handed) && completed == old(completed)
      ensures (old(done) ==> was) && (!old(hnd) || !was ==> ok)
      ensures old(thread) == NotStarted <==> thread == NotStarted
      ensures ok && was ==> owner == Gone && Released(View())
      ensures ok && !was ==> owner == Gone && done && (late <==> Released(View()))
      ensures late ==> !was && releases == 1 && steps != [] && steps[|steps| - 1] == Detach
      ensures !ok ==> owner == Joining && thread == Returning && script == []
    {
      Known();
      var tried := Interfere(Owner, false);
      was := ExchangeFlag();
      ok, late := true, false;
      if !was {
        late := DetachThread();
      } else {
        ok := JoinAndRelease();
      }
    }

    method JoinAndRelease() returns (ok: bool)
      requires Valid() && owner == if hnd then Joining else Freeing
      modifies this
      ensures Continues() && handed == old(handed) && completed == old(completed) && (!old(hnd) ==> ok)
      ensures old(thread) == NotStarted <==> thread == NotStarted
      ensures if ok then owner == Gone && Released(View()) else owner == Joining && thread == Returning && script == []
    {
      ok := true;
      if hnd {
        ok := Join();
      }
      if ok {
        var tried := Interfere(Owner, false);
        ReleaseData();
      }
    }

    method ExchangeFlag() returns (was: bool)
      requires Valid() && owner == Destroying
      modifies this`done, this`owner, this`thread, this`steps
      modifies this`releases, this`produced, this`freed, this`handed, this`dropped, this`unwoken, this`completed
      ensures Continues() && was == old(done) && thread == old(thread)
      ensures handed == old(handed) && completed == old(completed)
      ensures owner == if !was then Detaching else if hnd then Joining else Freeing
    {
      var s := View();
      was := done;
      done := true;
      Record(s, Exchange);
    }

    /** The handle is read after the mutex has been given up, whether or not the data is still there. */
    method DetachThread() returns (late: bool)
      requires Valid() && owner == Detaching
      modifies this
      ensures Continues() && owner == Gone && done && (late <==> Released(View())) && (late ==> releases == 1)
      ensures handed == old(handed) && completed == old(completed) && steps != [] && steps[|steps| - 1] == Detach
      ensures thread != NotStarted && old(thread) != NotStarted
    {
      var tried := Interfere(Owner, false);
      Known();
      late := thread == Exited;
      var s := View();
      Record(s, Detach);
      Known();
    }

    method Join() returns (ok: bool)
      requires Valid() && owner == Joining && hnd
      modifies this
      ensures Continues() && handed == old(handed) && completed == old(completed)
      ensures if ok then owner == Freeing else owner == Joining && thread == Returning && script == []
      ensures thread != NotStarted && old(thread) != NotStarted
    {
      Known();
      while thread != Exited
        invariant Continues() && owner == Joining && hnd && handed == old(handed) && completed == old(completed)
        decreases |script|
      {
        var tried := Interfere(Owner, true);
        if !tried {
          Known();
          return false;
        }
      }
      var s := View();
      hnd, ok := false, true;
      Record(s, Resolver.Join);
    }

    method ReleaseData()
      requires Valid() && owner == Freeing
      modifies this
      ensures Continues() && owner == Gone && Released(View())
      ensures handed == old(handed) && completed == old(completed)
      ensures thread == old(thread)
    {
      var s := View();
      Known();
      DestroySyncData();
      Record(s, Release);
    }

    /** `init_resolve_thread`: without a copy of the name, or without a thread, all is released again. */
    method InitResolveThread(copied: bool, created: bool) returns (ok: bool)
      requires Valid() && owner == Starting
      modifies this
      ensures Continues() && ok == (copied && created)
      ensures ok ==> owner == Waiting && thread == Resolving && hnd && !done && releases == 0
      ensures !ok ==> Released(View()) && releases == 1 && !res && produced == 0
    {
      Known();
      var s := View();
      ok := copied && created;
      if !copied {
        Record(s, GiveUpStart);
      } else {
        done := false;
        Record(s, Arm);
        s := View();
        hnd := created;
        done := !created;
        Record(s, CreateThread(created));
      }
      Known();
      if !ok {
        var joined, was, late := DestroyAsyncData();
        Known();
      }
    }

    /** The result list was taken over if there was one, except when the owner could not be signalled. */
    ghost predicate Taken(taken: bool)
      reads this
    {
      Released(View()) && releases == 1 && !res && freed == 0 && handed == (if taken then 1 else 0)
      && (taken <==> produced == 1 && !unwoken)
    }

    /** `Curl_resolver_is_resolved`: it answers as soon as the flag is set, with the list if there is one. */
    method IsResolved() returns (answered: bool, taken: bool, ok: bool)
      requires Valid() && owner == Waiting
      modifies this
      ensures Continues() && (old(done) ==> answered)
      ensures !answered ==> owner == Waiting && !taken && ok
      ensures answered && ok ==> Taken(taken)
      ensures !ok ==> owner == Joining && thread == Returning && script == []
    {
      var tried := Interfere(Owner, false);
      var s := View();
      answered, taken, ok := done, false, true;
      if done {
        Known();
        taken := Complete();
        Record(s, Poll);
        var was, late;
        ok, was, late := DestroyAsyncData();
        Known();
      }
    }

    /** `thread_wait_resolv`: the thread is waited for, and its result taken over or ignored. */
    method WaitResolv(wanted: bool) returns (taken: bool, ok: bool)
      requires Valid() && owner == Waiting
      modifies this
      ensures Continues()
      ensures ok && wanted ==> Taken(taken)
      ensures ok && !wanted ==> !taken && Released(View()) && releases == 1 && !res && handed == 0 && freed == produced
      ensures !ok ==> owner == Waiting && thread != Exited && !taken && script == []
    {
      taken, ok := false, true;
      while thread != Exited
        invariant Continues() && owner == Waiting
        decreases |script|
      {
        var tried := Interfere(Owner, true);
        if !tried {
          return false, false;
        }
      }
      taken := TakeResult(wanted);
      var was, late;
      ok, was, late := DestroyAsyncData();
      Known();
    }

    /** The thread has ended: its handle is given back, and the result is taken over or left in the data. */
    method TakeResult(wanted: bool) returns (taken: bool)
      requires Valid() && owner == Waiting && thread == Exited
      modifies this
      ensures Continues() && owner == Destroying && done && !hnd && completed == wanted
      ensures handed == if taken then 1 else 0
    {
      Known();
      var s := View();
      hnd, taken := false, false;
      Record(s, Wait);
      s := View();
      if wanted {
        taken := Complete();
      }
      Record(s, TakeOver(wanted));
    }

    /** `Curl_resolver_cancel`: whatever the thread does, no result is taken over. */
    method CancelResolve() returns (ok: bool)
      requires Valid() && owner == Waiting
      modifies this
      ensures Continues() && handed == 0 && !completed
      ensures ok ==> owner == Gone && done && releases == if thread == Exited then 1 else 0
      ensures !ok ==> owner == Joining && thread == Returning && script == []
    {
      var s := View();
      Known();
      Record(s, Cancel);
      var was, late;
      ok, was, late := DestroyAsyncData();
      Known();
    }
  }
}
