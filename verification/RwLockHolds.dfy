/** What a thread has when the lock function it called has returned, who has to wait, and that waiting ends. */
module RwLockHolds {
  import opened Folds
  import opened RwLock

  /** Between a call that asks for `mode` and the next `unlock`. */
  predicate Wanting(th: Thread, mode: Mode) {
    || (mode.Exclusive? && th.pc.WantsExclusive?)
    || (mode.Shared? && th.pc.WantsShared?)
    || ((th.pc.FlagUnset? || th.pc.Inside?) && th.held == mode)
  }

  lemma StepKeepsWanting(s: State, step: Step, t: nat, mode: Mode)
    requires Enabled(s, step) && step != CallUnlock(t)
    requires t < |s.threads| && Wanting(s.threads[t], mode)
    ensures |Apply(s, step).threads| == |s.threads| && Wanting(Apply(s, step).threads[t], mode)
  {
  }

  lemma {:induction false} RunKeepsWanting(s: State, run: seq<Step>, t: nat, mode: Mode)
    requires ValidRun(s, run) && CallUnlock(t) !in run
    requires t < |s.threads| && Wanting(s.threads[t], mode)
    ensures |After(s, run).threads| == |s.threads| && Wanting(After(s, run).threads[t], mode)
    decreases |run|
  {
    if run != [] {
      StepKeepsWanting(s, run[0], t, mode);
      RunKeepsWanting(Apply(s, run[0]), run[1..], t, mode);
    }
  }

  /** The thread has what it asked for, and the others have nothing that is in its way. */
  ghost predicate Granted(s: State, t: nat, mode: Mode)
    requires t < |s.threads|
  {
    && s.threads[t].held == mode
    && forall u :: 0 <= u < |s.threads| && u != t ==>
         if mode.Exclusive? then s.threads[u].held.Nothing? else !s.threads[u].held.Exclusive?
  }

  lemma InsideIsGranted(s: State, t: nat, mode: Mode)
    requires Inv(s) && t < |s.threads| && s.threads[t].pc.Inside? && Wanting(s.threads[t], mode)
    ensures Granted(s, t, mode)
  {
    assert Consistent(s.threads[t]);
    if mode.Exclusive? {
      WriterIsAlone(s, t);
    } else {
      ReaderSeesNoFlag(s, t);
      forall u | 0 <= u < |s.threads|
        ensures !s.threads[u].held.Exclusive?
      {
        TotalAtLeast(Writes, s.threads, u);
      }
    }
  }

  /** The mode a lock function asks for. */
  predicate AsksFor(step: Step, mode: Mode) {
    match step
    case CallWrlock(_) => mode.Exclusive?
    case TryWrlock(_, ok) => ok && mode.Exclusive?
    case CallRdlock(_) => mode.Shared?
    case TryRdlock(_, ok) => ok && mode.Shared?
    case _ => false
  }

  /** Whatever the other threads do: when `wrlock` has returned, or `trywrlock` successfully, its caller is
      alone with the lock until it unlocks; after `rdlock` or `tryrdlock` it shares it with readers only. */
  lemma CallerGetsWhatItAskedFor(s: State, step: Step, mode: Mode, run: seq<Step>)
    requires Inv(s) && Enabled(s, step) && AsksFor(step, mode)
    requires ValidRun(Apply(s, step), run) && CallUnlock(step.t) !in run
    ensures var end := After(Apply(s, step), run);
      && step.t < |end.threads|
      && (end.threads[step.t].pc.Inside? ==> Granted(end, step.t, mode))
  {
    StepKeepsInv(s, step);
    RunKeepsInv(Apply(s, step), run);
    RunKeepsWanting(Apply(s, step), run, step.t, mode);
    var end := After(Apply(s, step), run);
    if end.threads[step.t].pc.Inside? {
      InsideIsGranted(end, step.t, mode);
    }
  }

  /** A call that gives up has done nothing. */
  lemma RefusalChangesNothing(s: State, step: Step)
    requires Enabled(s, step) && (step == TryRdlock(step.t, false) || step == TryWrlock(step.t, false))
    ensures Apply(s, step) == s
  {
  }

  // ---------------------------------------------------------------- who waits

  ghost predicate SomeoneHolds(s: State, mode: Mode) {
    exists u :: 0 <= u < |s.threads| && s.threads[u].held == mode
  }

  lemma NativeLockIsHeldWhenHeld(s: State)
    requires Inv(s)
    ensures s.writer <==> SomeoneHolds(s, Exclusive)
    ensures s.readers > 0 <==> SomeoneHolds(s, Shared)
  {
    if u :| 0 <= u < |s.threads| && s.threads[u].held == Exclusive {
      TotalAtLeast(Writes, s.threads, u);
    } else {
      TotalZero(Writes, s.threads);
    }
    if u :| 0 <= u < |s.threads| && s.threads[u].held == Shared {
      TotalAtLeast(Reads, s.threads, u);
    } else {
      TotalZero(Reads, s.threads);
    }
  }

  /** A reader is kept waiting by an exclusive holder only, other readers notwithstanding; a writer by any
      holder, and by nothing else. The `try` functions can succeed in the same cases. */
  lemma WhoWaits(s: State, t: nat)
    requires Inv(s) && t < |s.threads|
    ensures s.threads[t].pc.WantsShared? ==>
      (Enabled(s, AcquireShared(t)) <==> !SomeoneHolds(s, Exclusive))
    ensures s.threads[t].pc.WantsExclusive? ==>
      (Enabled(s, AcquireExclusive(t)) <==> !SomeoneHolds(s, Exclusive) && !SomeoneHolds(s, Shared))
    ensures s.threads[t].pc.Out? ==>
      && (Enabled(s, TryRdlock(t, true)) <==> !SomeoneHolds(s, Exclusive))
      && (Enabled(s, TryWrlock(t, true)) <==> !SomeoneHolds(s, Exclusive) && !SomeoneHolds(s, Shared))
  {
    NativeLockIsHeldWhenHeld(s);
  }

  /** A thread enters a lock function. */
  predicate Calls(step: Step) {
    step.CallRdlock? || step.TryRdlock? || step.CallWrlock? || step.TryWrlock?
  }

  /** The step that a thread inside one of the functions, or inside the lock, is to take next. */
  function NextOf(th: Thread, t: nat): Step
    requires !th.pc.Out?
  {
    match th.pc
    case WantsShared => AcquireShared(t)
    case WantsExclusive => AcquireExclusive(t)
    case FlagUnset => SetFlag(t)
    case Inside => CallUnlock(t)
    case Unlocking => ReadFlag(t)
    case SawExclusive => ClearFlag(t)
    case FlagCleared => ReleaseExclusive(t)
    case SawShared => ReleaseShared(t)
  }

  /** The threads never block one another for good: while any is at work, one of them can take its step. */
  lemma NeverStuck(s: State, t: nat) returns (step: Step)
    requires Inv(s) && t < |s.threads| && !s.threads[t].pc.Out?
    ensures Enabled(s, step) && !Calls(step)
  {
    NativeLockIsHeldWhenHeld(s);
    if u: nat :| u < |s.threads| && !s.threads[u].held.Nothing? {
      assert Consistent(s.threads[u]);
      step := NextOf(s.threads[u], u);
    } else {
      assert Consistent(s.threads[t]);
      step := NextOf(s.threads[t], t);
    }
  }
}
