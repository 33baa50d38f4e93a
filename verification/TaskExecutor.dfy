/**
 The executor object itself. Each method is one uninterrupted stretch of the code, updating the
 fields in place; its contract says that the object's state moved by the corresponding step of
 the protocol in `TaskPool`, so everything proved there about runs holds of the object.
 */
module TaskExecutor {
  import opened TaskPool

  class Executor {
    var isShuttingDownTaskQueue: bool
    var queue: seq<Job>
    var mutex: Owner
    var threads: seq<WorkerPc>
    var callers: seq<ClientPc>
    ghost var shutdownCalled: bool
    ghost var joined: bool
    var accepted: seq<Task>
    ghost var pushed: seq<Job>
    ghost var taken: seq<Job>
    ghost var finished: seq<nat>

    ghost function Abs(): State
      reads this
    {
      State(isShuttingDownTaskQueue, queue, mutex, threads, callers, shutdownCalled, joined,
            accepted, pushed, taken, finished)
    }

    /** What holds of a reachable state of the protocol holds of the object. */
    ghost predicate Valid()
      reads this
    {
      Inv(Abs())
    }

    constructor (numThreads: nat, numCallers: nat)
      ensures Valid() && Abs() == Init(numThreads, numCallers)
    {
      isShuttingDownTaskQueue, queue, mutex := false, [], Free;
      threads := seq(numThreads, _ => WantsLock);
      callers := seq(numCallers, _ => Idle);
      shutdownCalled, joined := false, false;
      accepted, pushed, taken, finished := [], [], [], [];
      new;
      InitInv(numThreads, numCallers);
    }

    /** A thread or a caller acquires the mutex, in a wait or a lock guard. */
    method AcquireForDispatch(w: nat)
      requires Valid() && Enabled(Abs(), Lock(w))
      modifies this
      ensures Valid() && Abs() == old(Apply(Abs(), Lock(w)))
    {
      StepKeepsInv(Abs(), Lock(w));
      mutex := ByWorker(w);
      threads := threads[w := HoldsLock];
    }

    method AcquireForRun(c: nat)
      requires Valid() && Enabled(Abs(), LockRun(c))
      modifies this
      ensures Valid() && Abs() == old(Apply(Abs(), LockRun(c)))
    {
      StepKeepsInv(Abs(), LockRun(c));
      mutex := ByClient(c);
      callers := callers[c := RunHolds(callers[c].task)];
    }

    method AcquireForShutdown(c: nat)
      requires Valid() && Enabled(Abs(), LockShutdown(c))
      modifies this
      ensures Valid() && Abs() == old(Apply(Abs(), LockShutdown(c)))
    {
      StepKeepsInv(Abs(), LockShutdown(c));
      mutex := ByClient(c);
      callers := callers[c := ShutHolds];
    }

    /** A caller enters `run`. */
    method EnterRun(c: nat, task: Task)
      requires Valid() && Enabled(Abs(), CallRun(c, task))
      modifies this
      ensures Valid() && Abs() == old(Apply(Abs(), CallRun(c, task)))
    {
      StepKeepsInv(Abs(), CallRun(c, task));
      callers := callers[c := RunWants(task)];
    }

    /** A caller enters `shutdown`. */
    method EnterShutdown(c: nat)
      requires Valid() && Enabled(Abs(), CallShutdown(c))
      modifies this
      ensures Valid() && Abs() == old(Apply(Abs(), CallShutdown(c)))
    {
      StepKeepsInv(Abs(), CallShutdown(c));
      callers := callers[c := ShutWants];
      shutdownCalled := true;
    }

    /** `signal.notify_one`: wakes one sleeping thread, if there is one. */
    method NotifyOne() returns (wake: nat)
      modifies this`threads
      ensures if old(AnyAsleep(Abs()))
              then wake < |old(threads)| && old(threads)[wake].Asleep? && threads == old(threads)[wake := Notified]
              else threads == old(threads)
    {
      wake := 0;
      if exists w :: 0 <= w < |threads| && threads[w].Asleep? {
        wake :| 0 <= wake < |threads| && threads[wake].Asleep?;
        threads := threads[wake := Notified];
      }
    }

    /** `signal.notify_all` */
    method NotifyAll()
      modifies this`threads
      ensures threads == WakeAll(old(threads))
    {
      var i := 0;
      while i < |threads|
        invariant 0 <= i <= |threads| == |old(threads)|
        invariant threads[..i] == WakeAll(old(threads))[..i]
        invariant threads[i..] == old(threads)[i..]
      {
        if threads[i].Asleep? {
          threads := threads[i := Notified];
        }
        i := i + 1;
      }
      assert threads == threads[..i];
    }

    /** `run`, its last branch and the end of the locked block. */
    method Push(c: nat) returns (wake: nat)
      requires c < |callers| && callers[c].RunHolds? && !isShuttingDownTaskQueue
      modifies this
      ensures old(Enabled(Abs(), Accept(c, wake)))
      ensures Abs() == old(Apply(Abs(), Accept(c, wake)))
    {
      var job := Job(|accepted|, callers[c].task);
      accepted := accepted + [job.task];
      queue := queue + [job];
      pushed := pushed + [job];
      wake := NotifyOne();
      callers := callers[c := Idle];
      mutex := Free;
    }

    /** `run`, from the lock guard to the end of the block or to the call of the task. */
    method Run(c: nat) returns (wake: nat)
      requires Valid() && c < |callers| && callers[c].RunHolds?
      modifies this
      ensures Valid() && old(Enabled(Abs(), Accept(c, wake)))
      ensures Abs() == old(Apply(Abs(), Accept(c, wake)))
    {
      if isShuttingDownTaskQueue {
        wake := 0;
        StepKeepsInv(Abs(), Accept(c, wake));
        accepted := accepted + [callers[c].task];
        callers := callers[c := RunInline(Job(|accepted| - 1, callers[c].task))];
      } else {
        wake := Push(c);
        StepKeepsInv(old(Abs()), Accept(c, wake));
      }
    }

    /** The end of a task that `run` executed itself, by return or by exception. */
    method RunInlineEnds(c: nat)
      requires Valid() && Enabled(Abs(), FinishInline(c))
      modifies this
      ensures Valid() && Abs() == old(Apply(Abs(), FinishInline(c)))
    {
      StepKeepsInv(Abs(), FinishInline(c));
      finished := finished + [callers[c].job.id];
      callers := callers[c := Idle];
      mutex := Free;
    }

    /** `shutdown`, the locked block: set the flag once and wake every sleeping worker. */
    method ShutdownLocked(c: nat)
      requires Valid() && Enabled(Abs(), SetFlag(c))
      modifies this
      ensures Valid() && Abs() == old(Apply(Abs(), SetFlag(c)))
    {
      StepKeepsInv(Abs(), SetFlag(c));
      if !isShuttingDownTaskQueue {
        isShuttingDownTaskQueue := true;
        NotifyAll();
      }
      callers := callers[c := Joining(0)];
      mutex := Free;
    }

    /** `shutdown`, one turn of the join loop, or its end. */
    method JoinNext(c: nat)
      requires Valid() && Enabled(Abs(), Join(c))
      modifies this
      ensures Valid() && Abs() == old(Apply(Abs(), Join(c)))
    {
      StepKeepsInv(Abs(), Join(c));
      if callers[c].next < |threads| {
        callers := callers[c := Joining(callers[c].next + 1)];
      } else {
        callers := callers[c := Idle];
        joined := true;
      }
    }

    /** `dispatchTasks`, with the mutex just acquired: wait, leave the loop, or take the front task. */
    method DispatchLocked(w: nat)
      requires Valid() && Enabled(Abs(), Dispatch(w))
      modifies this
      ensures Valid() && Abs() == old(Apply(Abs(), Dispatch(w)))
    {
      StepKeepsInv(Abs(), Dispatch(w));
      if !isShuttingDownTaskQueue && queue == [] {
        threads := threads[w := Asleep];
      } else if queue == [] {
        threads := threads[w := Exited];
      } else {
        var task := queue[0];
        queue := queue[1..];
        taken := taken + [task];
        threads := threads[w := Executing(task)];
      }
      mutex := Free;
    }

    /** The end of a task in `dispatchTasks`, by return or by exception: back to the head of the loop. */
    method TaskEnds(w: nat)
      requires Valid() && Enabled(Abs(), Finish(w))
      modifies this
      ensures Valid() && Abs() == old(Apply(Abs(), Finish(w)))
    {
      StepKeepsInv(Abs(), Finish(w));
      finished := finished + [threads[w].job.id];
      threads := threads[w := WantsLock];
    }
  }
}
