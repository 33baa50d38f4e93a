/** How a shutdown of the task executor ends: with every worker gone, from any reachable state. */
module TaskPoolShutdown {
  import opened TaskPool

  lemma StepFirst(s: State, step: Step, rest: seq<Step>)
    requires Enabled(s, step) && ValidRun(Apply(s, step), rest)
    ensures ValidRun(s, [step] + rest) && After(s, [step] + rest) == After(Apply(s, step), rest)
  {
    assert ([step] + rest)[1..] == rest;
  }

  /** Steps that finish what has been begun: nobody calls `run` or `shutdown`, or takes the mutex for `run`. */
  predicate Finishes(step: Step) {
    !step.CallRun? && !step.CallShutdown? && !step.LockRun?
  }

  /** How far the shutting-down client is from setting the flag. */
  ghost function BeforeFlag(s: State): nat {
    if s.flag then 0
    else if exists c :: 0 <= c < |s.clients| && s.clients[c].ShutHolds? then 1
    else if s.lock.Free? then 2
    else 3
  }

  /** What the client that holds the mutex has yet to do before it lets go. */
  function Holding(s: State): nat {
    if s.lock.ByClient? && s.lock.c < |s.clients| then
      if s.clients[s.lock.c].RunHolds? then 2 else if s.clients[s.lock.c].RunInline? then 1 else 0
    else 0
  }

  ghost predicate Closer(t: State, s: State) {
    || BeforeFlag(t) < BeforeFlag(s)
    || (s.flag && t.flag && (Remaining(t) < Remaining(s) || (Remaining(t) == Remaining(s) && Holding(t) < Holding(s))))
  }

  /** Until the flag is set: the step of the mutex's holder, or of the client that is shutting down. */
  lemma NextStepToFlag(s: State) returns (step: Step)
    requires Inv(s) && s.shutdownCalled && !s.flag
    ensures Enabled(s, step) && Finishes(step) && Closer(Apply(s, step), s)
  {
    var c :| 0 <= c < |s.clients| && InShutdown(s.clients[c]);
    if s.clients[c].ShutHolds? {
      step := SetFlag(c);
    } else if s.lock.Free? {
      step := LockShutdown(c);
      assert Apply(s, step).clients[c].ShutHolds?;
    } else if s.lock.ByWorker? {
      step := Dispatch(s.lock.w);
    } else {
      var wake: nat := if w: nat :| w < |s.workers| && s.workers[w].Asleep? then w else 0;
      step := Accept(s.lock.c, wake);
    }
  }

  /** While the joins have not returned there is a finishing step that brings them closer. */
  lemma NextStep(s: State) returns (step: Step)
    requires Inv(s) && s.shutdownCalled && !s.joined
    ensures Enabled(s, step) && Finishes(step) && Closer(Apply(s, step), s)
  {
    if s.flag {
      step := ShutdownIsNeverStuck(s);
      RemainingFalls(s, step);
    } else {
      step := NextStepToFlag(s);
    }
  }

  /** When they have returned, the mutex can only be held for `run`, and its holder can let go. */
  lemma ReleaseStep(s: State) returns (step: Step)
    requires Inv(s) && s.joined && !s.lock.Free?
    ensures Enabled(s, step) && Finishes(step) && Closer(Apply(s, step), s)
  {
    var c := s.lock.c;
    step := if s.clients[c].RunHolds? then Accept(c, 0) else FinishInline(c);
    RemainingFalls(s, step);
  }

  /** A shutdown that has been called completes: from any reachable state, finishing what has been begun
      makes every worker leave and the joins return. */
  lemma {:induction false} ShutdownCompletes(s: State) returns (run: seq<Step>)
    requires Inv(s) && s.shutdownCalled
    ensures ValidRun(s, run) && After(s, run).joined && AllExited(After(s, run))
    ensures forall step :: step in run ==> Finishes(step)
    decreases BeforeFlag(s), if s.flag then Remaining(s) else 0, if s.flag then Holding(s) else 0
  {
    run := [];
    if !s.joined {
      var step := NextStep(s);
      StepKeepsInv(s, step);
      run := ShutdownCompletes(Apply(s, step));
      StepFirst(s, step, run);
      run := [step] + run;
    }
  }

  function ShutdownAlone(): seq<Step> {
    [CallShutdown(0)] + ([LockShutdown(0)] + ([SetFlag(0)] + ([Join(0)] + [])))
  }

  /** With no worker to wait for, a shutdown returns at once and leaves the queue as it was. */
  lemma ShutdownWithoutWorkers(s: State)
    requires s.workers == [] && s.clients == [Idle] && s.lock.Free? && !s.shutdownCalled
    ensures ValidRun(s, ShutdownAlone())
    ensures After(s, ShutdownAlone()).joined && After(s, ShutdownAlone()).queue == s.queue
  {
    var s1 := Apply(s, CallShutdown(0));
    var s2 := Apply(s1, LockShutdown(0));
    var s3 := Apply(s2, SetFlag(0));
    StepFirst(s3, Join(0), []);
    StepFirst(s2, SetFlag(0), [Join(0)] + []);
    StepFirst(s1, LockShutdown(0), [SetFlag(0)] + ([Join(0)] + []));
    StepFirst(s, CallShutdown(0), [LockShutdown(0)] + ([SetFlag(0)] + ([Join(0)] + [])));
  }

  function TaskThenShutdown(task: Task): seq<Step> {
    [CallRun(0, task)] + ([LockRun(0)] + ([Accept(0, 0)] + ShutdownAlone()))
  }

  /** So without workers a task can be accepted, the shutdown return, and the task still be queued. */
  lemma NoWorkersLeaveTheQueue(task: Task)
    ensures ValidRun(Init(0, 1), TaskThenShutdown(task))
    ensures var s := After(Init(0, 1), TaskThenShutdown(task)); s.joined && s.queue == [Job(0, task)]
  {
    var s0 := Init(0, 1);
    var s1 := Apply(s0, CallRun(0, task));
    var s2 := Apply(s1, LockRun(0));
    ShutdownWithoutWorkers(Apply(s2, Accept(0, 0)));
    StepFirst(s2, Accept(0, 0), ShutdownAlone());
    StepFirst(s1, LockRun(0), [Accept(0, 0)] + ShutdownAlone());
    StepFirst(s0, CallRun(0, task), [LockRun(0)] + ([Accept(0, 0)] + ShutdownAlone()));
  }
}
