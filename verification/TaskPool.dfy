/**
 The task executor as an interleaved protocol: a mutex, a condition variable, a fixed
 set of workers, any number of client threads, and one shutdown that drains and joins.
 A `Step` is what one thread does between two points where another thread can intervene;
 everything between acquiring and releasing the mutex is one step of the holder.
 */
module TaskPool {
  import opened Folds

  datatype Task = WriteFile(file: string, data: string)

  /** An accepted task and its number in the order of acceptance. */
  datatype Job = Job(id: nat, task: Task)

  datatype WorkerPc =
    | WantsLock
    | HoldsLock
    | Asleep            // in signal.wait, mutex released, not notified
    | Notified          // woken inside signal.wait, wants the mutex again
    | Executing(job: Job)
    | Exited

  datatype ClientPc =
    | Idle
    | RunWants(task: Task)
    | RunHolds(task: Task)
    | RunInline(job: Job)   // running the task itself, mutex held
    | ShutWants
    | ShutHolds
    | Joining(next: nat)

  datatype Owner = Free | ByWorker(w: nat) | ByClient(c: nat)

  /** `accepted`, `pushed`, `taken` and `finished` are histories; the code never reads them. */
  datatype State = State(
    flag: bool,
    queue: seq<Job>,
    lock: Owner,
    workers: seq<WorkerPc>,
    clients: seq<ClientPc>,
    shutdownCalled: bool,
    joined: bool,
    accepted: seq<Task>,
    pushed: seq<Job>,
    taken: seq<Job>,
    finished: seq<nat>)

  datatype Step =
    | Lock(w: nat)
    | Dispatch(w: nat)
    | Finish(w: nat)
    | Spurious(w: nat)
    | CallRun(c: nat, task: Task)
    | LockRun(c: nat)
    | Accept(c: nat, wake: nat)
    | FinishInline(c: nat)
    | CallShutdown(c: nat)
    | LockShutdown(c: nat)
    | SetFlag(c: nat)
    | Join(c: nat)

  function Init(numWorkers: nat, numClients: nat): State {
    State(false, [], Free, seq(numWorkers, _ => WantsLock), seq(numClients, _ => Idle),
          false, false, [], [], [], [])
  }

  predicate AnyAsleep(s: State) {
    exists w :: 0 <= w < |s.workers| && s.workers[w].Asleep?
  }

  predicate AllExited(s: State) {
    forall w :: 0 <= w < |s.workers| ==> s.workers[w].Exited?
  }

  function WakeAll(workers: seq<WorkerPc>): seq<WorkerPc> {
    seq(|workers|, i requires 0 <= i < |workers| => if workers[i].Asleep? then Notified else workers[i])
  }

  predicate WorkerAt(s: State, w: nat) {
    w < |s.workers|
  }

  predicate ClientAt(s: State, c: nat) {
    c < |s.clients|
  }

  predicate Enabled(s: State, step: Step) {
    match step
    case Lock(w) => WorkerAt(s, w) && s.lock.Free? && (s.workers[w].WantsLock? || s.workers[w].Notified?)
    case Dispatch(w) => WorkerAt(s, w) && s.workers[w].HoldsLock?
    case Finish(w) => WorkerAt(s, w) && s.workers[w].Executing?
    case Spurious(w) => WorkerAt(s, w) && s.workers[w].Asleep?
    case CallRun(c, _) => ClientAt(s, c) && s.clients[c].Idle?
    case LockRun(c) => ClientAt(s, c) && s.clients[c].RunWants? && s.lock.Free?
    case Accept(c, wake) =>
      && ClientAt(s, c) && s.clients[c].RunHolds?
      && (!s.flag && AnyAsleep(s) ==> WorkerAt(s, wake) && s.workers[wake].Asleep?)
    case FinishInline(c) => ClientAt(s, c) && s.clients[c].RunInline?
    case CallShutdown(c) => ClientAt(s, c) && s.clients[c].Idle? && !s.shutdownCalled
    case LockShutdown(c) => ClientAt(s, c) && s.clients[c].ShutWants? && s.lock.Free?
    case SetFlag(c) => ClientAt(s, c) && s.clients[c].ShutHolds?
    case Join(c) =>
      && ClientAt(s, c) && s.clients[c].Joining?
      && (s.clients[c].next < |s.workers| ==> s.workers[s.clients[c].next].Exited?)
  }

  function Apply(s: State, step: Step): State
    requires Enabled(s, step)
  {
    match step
    case Lock(w) => s.(lock := ByWorker(w), workers := s.workers[w := HoldsLock])
    case Dispatch(w) =>
      if !s.flag && s.queue == [] then
        s.(lock := Free, workers := s.workers[w := Asleep])
      else if s.queue == [] then
        s.(lock := Free, workers := s.workers[w := Exited])
      else
        s.(lock := Free, workers := s.workers[w := Executing(s.queue[0])],
           queue := s.queue[1..], taken := s.taken + [s.queue[0]])
    case Finish(w) =>
      s.(workers := s.workers[w := WantsLock], finished := s.finished + [s.workers[w].job.id])
    case Spurious(w) => s.(workers := s.workers[w := Notified])
    case CallRun(c, task) => s.(clients := s.clients[c := RunWants(task)])
    case LockRun(c) => s.(lock := ByClient(c), clients := s.clients[c := RunHolds(s.clients[c].task)])
    case Accept(c, wake) =>
      var job := Job(|s.accepted|, s.clients[c].task);
      var t := s.(accepted := s.accepted + [job.task]);
      if s.flag then
        t.(clients := s.clients[c := RunInline(job)])
      else
        t.(lock := Free, clients := s.clients[c := Idle],
           queue := s.queue + [job], pushed := s.pushed + [job],
           workers := if AnyAsleep(s) then s.workers[wake := Notified] else s.workers)
    case FinishInline(c) =>
      s.(lock := Free, clients := s.clients[c := Idle], finished := s.finished + [s.clients[c].job.id])
    case CallShutdown(c) => s.(clients := s.clients[c := ShutWants], shutdownCalled := true)
    case LockShutdown(c) => s.(lock := ByClient(c), clients := s.clients[c := ShutHolds])
    case SetFlag(c) =>
      s.(lock := Free, clients := s.clients[c := Joining(0)], flag := true,
         workers := if s.flag then s.workers else WakeAll(s.workers))
    case Join(c) =>
      var k := s.clients[c].next;
      if k < |s.workers| then s.(clients := s.clients[c := Joining(k + 1)])
      else s.(clients := s.clients[c := Idle], joined := true)
  }

  ghost predicate ValidRun(s: State, run: seq<Step>)
    decreases |run|
  {
    run == [] || (Enabled(s, run[0]) && ValidRun(Apply(s, run[0]), run[1..]))
  }

  ghost function After(s: State, run: seq<Step>): State
    requires ValidRun(s, run)
    decreases |run|
  {
    if run == [] then s else After(Apply(s, run[0]), run[1..])
  }

  // ---------------------------------------------------------------- invariants

  predicate ClientHoldsMutex(pc: ClientPc) {
    pc.RunHolds? || pc.RunInline? || pc.ShutHolds?
  }

  /** The mutex has exactly the holder that the program points say it has. */
  ghost predicate MutexInv(s: State) {
    && (forall w :: 0 <= w < |s.workers| ==> (s.workers[w].HoldsLock? <==> s.lock == ByWorker(w)))
    && (forall c :: 0 <= c < |s.clients| ==> (ClientHoldsMutex(s.clients[c]) <==> s.lock == ByClient(c)))
    && (s.lock.ByWorker? ==> s.lock.w < |s.workers|)
    && (s.lock.ByClient? ==> s.lock.c < |s.clients|)
  }

  predicate InShutdown(pc: ClientPc) {
    pc.ShutWants? || pc.ShutHolds? || pc.Joining?
  }

  /** From the call until the joins have returned, one client and no other is shutting down. */
  ghost predicate OneShutdown(s: State) {
    && (s.joined ==> s.shutdownCalled)
    && (forall c :: 0 <= c < |s.clients| && InShutdown(s.clients[c]) ==> s.shutdownCalled && !s.joined)
    && (s.shutdownCalled && !s.joined ==> exists c :: 0 <= c < |s.clients| && InShutdown(s.clients[c]))
    && (forall c, d :: 0 <= c < d < |s.clients| ==> !(InShutdown(s.clients[c]) && InShutdown(s.clients[d])))
  }

  /** What the shutdown flag implies, and what implies it. */
  ghost predicate FlagInv(s: State) {
    && (s.flag ==> s.shutdownCalled && !AnyAsleep(s))
    && (s.joined ==> s.flag && AllExited(s))
    && (forall w :: 0 <= w < |s.workers| && s.workers[w].Exited? ==> s.flag && s.queue == [])
    && (forall c :: 0 <= c < |s.clients| ==>
          && (s.clients[c].RunInline? || s.clients[c].Joining? ==> s.flag)
          && (s.clients[c].ShutWants? || s.clients[c].ShutHolds? ==> !s.flag)
          && (s.clients[c].Joining? ==>
                && s.clients[c].next <= |s.workers|
                && forall w :: 0 <= w < s.clients[c].next ==> s.workers[w].Exited?))
  }

  /** Awake, not executing: will look at the queue before it can sleep. */
  function Coming(pc: WorkerPc): nat {
    if pc.WantsLock? || pc.HoldsLock? || pc.Notified? then 1 else 0
  }

  /** No lost wakeup. */
  ghost predicate WakeInv(s: State) {
    AnyAsleep(s) ==> |s.queue| <= Total(Coming, s.workers)
  }

  ghost predicate JobInv(s: State, job: Job) {
    job.id < |s.accepted| && s.accepted[job.id] == job.task
  }

  /** Pushed jobs carry the task accepted under their number, in the order of acceptance. */
  ghost predicate HistoryInv(accepted: seq<Task>, pushed: seq<Job>) {
    && (forall i :: 0 <= i < |pushed| ==> pushed[i].id < |accepted| && accepted[pushed[i].id] == pushed[i].task)
    && (forall i, j :: 0 <= i < j < |pushed| ==> pushed[i].id < pushed[j].id)
  }

  ghost predicate HandedOut(s: State) {
    && (forall c :: 0 <= c < |s.clients| && s.clients[c].RunInline? ==>
          JobInv(s, s.clients[c].job) && forall i :: 0 <= i < |s.pushed| ==> s.pushed[i].id < s.clients[c].job.id)
    && (forall w :: 0 <= w < |s.workers| && s.workers[w].Executing? ==> s.workers[w].job in s.taken)
    && (s.workers == [] ==> s.taken == [])
  }

  ghost predicate FifoInv(s: State) {
    && s.taken + s.queue == s.pushed
    && HistoryInv(s.accepted, s.pushed)
    && HandedOut(s)
  }

  function QueuedAs(id: nat): Job -> nat {
    (job: Job) => if job.id == id then 1 else 0
  }

  function RunsAs(id: nat): WorkerPc -> nat {
    (pc: WorkerPc) => if pc.Executing? && pc.job.id == id then 1 else 0
  }

  function InlinesAs(id: nat): ClientPc -> nat {
    (pc: ClientPc) => if pc.RunInline? && pc.job.id == id then 1 else 0
  }

  function FinishedAs(id: nat): nat -> nat {
    (x: nat) => if x == id then 1 else 0
  }

  /** In how many places a job number is to be found. */
  ghost function Places(s: State, id: nat): nat {
    Total(QueuedAs(id), s.queue) + Total(RunsAs(id), s.workers) +
    Total(InlinesAs(id), s.clients) + Total(FinishedAs(id), s.finished)
  }

  ghost predicate PlacedRight(s: State, id: nat) {
    Places(s, id) == if id < |s.accepted| then 1 else 0
  }

  ghost predicate OnceInv(s: State) {
    forall id: nat :: PlacedRight(s, id)
  }

  ghost predicate Inv(s: State) {
    MutexInv(s) && OneShutdown(s) && FlagInv(s) && WakeInv(s) && FifoInv(s) && OnceInv(s)
  }

  lemma InitPlacedRight(numWorkers: nat, numClients: nat, id: nat)
    ensures PlacedRight(Init(numWorkers, numClients), id)
  {
    TotalZero(RunsAs(id), Init(numWorkers, numClients).workers);
    TotalZero(InlinesAs(id), Init(numWorkers, numClients).clients);
  }

  lemma InitInv(numWorkers: nat, numClients: nat)
    ensures Inv(Init(numWorkers, numClients))
  {
    var s := Init(numWorkers, numClients);
    assert MutexInv(s) && OneShutdown(s) && FlagInv(s);
    assert WakeInv(s) && FifoInv(s);
    forall id: nat ensures PlacedRight(s, id) {
      InitPlacedRight(numWorkers, numClients, id);
    }
  }

  predicate IsWorkerStep(step: Step) {
    step.Lock? || step.Dispatch? || step.Finish? || step.Spurious?
  }

  predicate IsRunStep(step: Step) {
    step.CallRun? || step.LockRun? || step.Accept? || step.FinishInline?
  }

  predicate IsShutdownStep(step: Step) {
    step.CallShutdown? || step.LockShutdown? || step.SetFlag? || step.Join?
  }

  lemma MutexWorkerStep(s: State, step: Step)
    requires IsWorkerStep(step) && Enabled(s, step) && MutexInv(s)
    ensures MutexInv(Apply(s, step))
  {
  }

  lemma MutexRunStep(s: State, step: Step)
    requires IsRunStep(step) && Enabled(s, step) && MutexInv(s)
    ensures MutexInv(Apply(s, step))
  {
  }

  lemma MutexShutdownStep(s: State, step: Step)
    requires IsShutdownStep(step) && Enabled(s, step) && MutexInv(s)
    ensures MutexInv(Apply(s, step))
  {
  }

  lemma FlagWorkerStep(s: State, step: Step)
    requires IsWorkerStep(step) && Enabled(s, step) && MutexInv(s) && OneShutdown(s) && FlagInv(s)
    ensures FlagInv(Apply(s, step))
  {
  }

  lemma FlagRunStep(s: State, step: Step)
    requires IsRunStep(step) && Enabled(s, step) && MutexInv(s) && OneShutdown(s) && FlagInv(s)
    ensures FlagInv(Apply(s, step))
  {
  }

  lemma FlagShutdownStep(s: State, step: Step)
    requires IsShutdownStep(step) && Enabled(s, step) && MutexInv(s) && OneShutdown(s) && FlagInv(s)
    ensures FlagInv(Apply(s, step))
  {
  }

  /** Only shutdown steps move a client into or out of its shutdown. */
  lemma OthersKeepShutdown(s: State, step: Step)
    requires !IsShutdownStep(step) && Enabled(s, step)
    ensures var t := Apply(s, step);
      && t.shutdownCalled == s.shutdownCalled && t.joined == s.joined && |t.clients| == |s.clients|
      && forall c :: 0 <= c < |s.clients| ==> InShutdown(t.clients[c]) == InShutdown(s.clients[c])
  {
  }

  lemma OneShutdownOtherStep(s: State, step: Step)
    requires !IsShutdownStep(step) && Enabled(s, step) && OneShutdown(s)
    ensures OneShutdown(Apply(s, step))
  {
    OthersKeepShutdown(s, step);
    var t := Apply(s, step);
    if s.shutdownCalled && !s.joined {
      var c :| 0 <= c < |s.clients| && InShutdown(s.clients[c]);
      assert InShutdown(t.clients[c]);
    }
  }

  lemma OneShutdownShutdownStep(s: State, step: Step)
    requires IsShutdownStep(step) && Enabled(s, step) && OneShutdown(s)
    ensures OneShutdown(Apply(s, step))
  {
    var t := Apply(s, step);
    assert t.clients == s.clients[step.c := t.clients[step.c]];
    assert t.joined || InShutdown(t.clients[step.c]);
  }

  lemma WakeStep(s: State, step: Step)
    requires Enabled(s, step) && FlagInv(s) && WakeInv(s)
    ensures WakeInv(Apply(s, step))
  {
    var t := Apply(s, step);
    match step
    case Lock(w) => TotalUpdate(Coming, s.workers, w, t.workers[w]);
    case Dispatch(w) => TotalUpdate(Coming, s.workers, w, t.workers[w]);
    case Finish(w) => TotalUpdate(Coming, s.workers, w, t.workers[w]);
    case Spurious(w) => TotalUpdate(Coming, s.workers, w, t.workers[w]);
    case Accept(c, wake) =>
      if !s.flag && AnyAsleep(s) {
        TotalUpdate(Coming, s.workers, wake, t.workers[wake]);
      }
    case SetFlag(c) =>
    case _ =>
  }

  lemma HistoryPush(accepted: seq<Task>, pushed: seq<Job>, task: Task)
    requires HistoryInv(accepted, pushed)
    ensures HistoryInv(accepted + [task], pushed)
    ensures HistoryInv(accepted + [task], pushed + [Job(|accepted|, task)])
  {
  }

  lemma HandedOutWorkerStep(s: State, step: Step)
    requires IsWorkerStep(step) && Enabled(s, step) && FifoInv(s)
    ensures HandedOut(Apply(s, step))
  {
  }

  lemma HandedOutClientStep(s: State, step: Step)
    requires !IsWorkerStep(step) && Enabled(s, step) && FlagInv(s) && FifoInv(s)
    ensures HandedOut(Apply(s, step))
  {
  }

  lemma FifoStep(s: State, step: Step)
    requires Enabled(s, step) && FlagInv(s) && FifoInv(s)
    ensures FifoInv(Apply(s, step))
  {
    if IsWorkerStep(step) {
      HandedOutWorkerStep(s, step);
    } else {
      HandedOutClientStep(s, step);
    }
    if step.Accept? {
      HistoryPush(s.accepted, s.pushed, s.clients[step.c].task);
      assert (s.taken + s.queue) + [Job(|s.accepted|, s.clients[step.c].task)]
          == s.taken + (s.queue + [Job(|s.accepted|, s.clients[step.c].task)]);
    } else if step.Dispatch? && s.queue != [] {
      assert (s.taken + [s.queue[0]]) + s.queue[1..] == s.taken + s.queue;
    }
  }

  lemma WorkerStepPlaces(s: State, step: Step, id: nat)
    requires IsWorkerStep(step) && Enabled(s, step)
    ensures Places(Apply(s, step), id) == Places(s, id)
  {
    var t := Apply(s, step);
    var w := step.w;
    TotalUpdate(RunsAs(id), s.workers, w, t.workers[w]);
    if step.Finish? {
      TotalAppend(FinishedAs(id), s.finished, s.workers[w].job.id);
    }
  }

  lemma AcceptPlaces(s: State, c: nat, wake: nat, id: nat)
    requires Enabled(s, Accept(c, wake)) && PlacedRight(s, id)
    ensures PlacedRight(Apply(s, Accept(c, wake)), id)
  {
    var t := Apply(s, Accept(c, wake));
    TotalUpdate(InlinesAs(id), s.clients, c, t.clients[c]);
    TotalAppend(QueuedAs(id), s.queue, Job(|s.accepted|, s.clients[c].task));
    if !s.flag && AnyAsleep(s) {
      TotalUpdate(RunsAs(id), s.workers, wake, t.workers[wake]);
    }
  }

  lemma ClientStepPlaces(s: State, step: Step, id: nat)
    requires !IsWorkerStep(step) && !step.Accept?
    requires Enabled(s, step)
    ensures Places(Apply(s, step), id) == Places(s, id)
  {
    var t := Apply(s, step);
    TotalUpdate(InlinesAs(id), s.clients, step.c, t.clients[step.c]);
    if step.FinishInline? {
      TotalAppend(FinishedAs(id), s.finished, s.clients[step.c].job.id);
    } else if step.SetFlag? {
      WakeAllKeepsRunning(id, s.workers);
    }
  }

  lemma OnceStepFor(s: State, step: Step, id: nat)
    requires Enabled(s, step) && PlacedRight(s, id)
    ensures PlacedRight(Apply(s, step), id)
  {
    if IsWorkerStep(step) {
      WorkerStepPlaces(s, step, id);
    } else if step.Accept? {
      AcceptPlaces(s, step.c, step.wake, id);
    } else {
      ClientStepPlaces(s, step, id);
    }
  }

  lemma {:induction false} WakeAllKeepsRunning(id: nat, workers: seq<WorkerPc>)
    ensures Total(RunsAs(id), WakeAll(workers)) == Total(RunsAs(id), workers)
  {
    if workers != [] {
      assert WakeAll(workers)[1..] == WakeAll(workers[1..]);
      WakeAllKeepsRunning(id, workers[1..]);
    }
  }

  lemma StepKeepsInv(s: State, step: Step)
    requires Enabled(s, step) && Inv(s)
    ensures Inv(Apply(s, step))
  {
    if IsWorkerStep(step) {
      MutexWorkerStep(s, step);
      FlagWorkerStep(s, step);
      OneShutdownOtherStep(s, step);
    } else if IsRunStep(step) {
      MutexRunStep(s, step);
      FlagRunStep(s, step);
      OneShutdownOtherStep(s, step);
    } else {
      MutexShutdownStep(s, step);
      FlagShutdownStep(s, step);
      OneShutdownShutdownStep(s, step);
    }
    WakeStep(s, step);
    FifoStep(s, step);
    forall id: nat ensures PlacedRight(Apply(s, step), id) {
      OnceStepFor(s, step, id);
    }
  }

  lemma {:induction false} RunKeepsInv(s: State, run: seq<Step>)
    requires Inv(s) && ValidRun(s, run)
    ensures Inv(After(s, run)) && |After(s, run).workers| == |s.workers|
    decreases |run|
  {
    if run != [] {
      StepKeepsInv(s, run[0]);
      RunKeepsInv(Apply(s, run[0]), run[1..]);
    }
  }

  // ---------------------------------------------------------------- main results

  /** A worker asleep and un-notified never faces more tasks than there are workers coming for them;
      after the flag is set nobody is asleep; and a queued task always has somebody coming for it
      unless every worker is already executing one. */
  lemma NoLostWakeup(numWorkers: nat, numClients: nat, run: seq<Step>)
    requires ValidRun(Init(numWorkers, numClients), run)
    ensures var s := After(Init(numWorkers, numClients), run);
      && |s.workers| == numWorkers
      && (AnyAsleep(s) ==> !s.flag && |s.queue| <= Total(Coming, s.workers))
      && (s.queue != [] ==>
            || (forall w :: 0 <= w < numWorkers ==> s.workers[w].Executing?)
            || (exists w :: 0 <= w < numWorkers && Coming(s.workers[w]) == 1))
  {
    InitInv(numWorkers, numClients);
    RunKeepsInv(Init(numWorkers, numClients), run);
    var s := After(Init(numWorkers, numClients), run);
    if s.queue != [] && !(forall w :: 0 <= w < numWorkers ==> s.workers[w].Executing?) {
      if AnyAsleep(s) {
        var w := TotalWitness(Coming, s.workers);
      } else {
        var w :| 0 <= w < numWorkers && !s.workers[w].Executing?;
        assert Coming(s.workers[w]) == 1;
      }
    }
  }

  /** Tasks leave the queue in the order in which they entered it, and every accepted task is queued,
      being executed, or finished, in exactly one of these places and there once. */
  lemma FifoExactlyOnce(numWorkers: nat, numClients: nat, run: seq<Step>, id: nat)
    requires ValidRun(Init(numWorkers, numClients), run)
    ensures var s := After(Init(numWorkers, numClients), run);
      && s.taken + s.queue == s.pushed
      && (forall i, j :: 0 <= i < j < |s.pushed| ==> s.pushed[i].id < s.pushed[j].id)
      && (forall i :: 0 <= i < |s.pushed| ==> JobInv(s, s.pushed[i]))
      && Places(s, id) == if id < |s.accepted| then 1 else 0
  {
    InitInv(numWorkers, numClients);
    RunKeepsInv(Init(numWorkers, numClients), run);
    assert PlacedRight(After(Init(numWorkers, numClients), run), id);
  }

  /** Once the flag is set it stays, and no task enters the queue any more. */
  lemma {:induction false} NothingPushedAfterFlag(s: State, run: seq<Step>)
    requires s.flag && ValidRun(s, run)
    ensures After(s, run).flag && After(s, run).pushed == s.pushed
    decreases |run|
  {
    if run != [] {
      NothingPushedAfterFlag(Apply(s, run[0]), run[1..]);
    }
  }

  /** When the joins have returned, the queue is empty exactly when there was a worker at all or
      nothing had been queued; and with a worker every queued task was executed, once. */
  lemma ShutdownDrains(numWorkers: nat, numClients: nat, run: seq<Step>)
    requires ValidRun(Init(numWorkers, numClients), run)
    requires After(Init(numWorkers, numClients), run).joined
    ensures var s := After(Init(numWorkers, numClients), run);
      && (s.queue == [] <==> numWorkers > 0 || s.pushed == [])
      && (numWorkers > 0 ==>
            forall job :: job in s.pushed ==> Total(FinishedAs(job.id), s.finished) == 1)
  {
    InitInv(numWorkers, numClients);
    RunKeepsInv(Init(numWorkers, numClients), run);
    var s := After(Init(numWorkers, numClients), run);
    if numWorkers > 0 {
      assert s.workers[0].Exited?;
      forall job | job in s.pushed
        ensures Total(FinishedAs(job.id), s.finished) == 1
      {
        assert PlacedRight(s, job.id);
        TotalZero(RunsAs(job.id), s.workers);
        TotalZero(InlinesAs(job.id), s.clients);
      }
    }
  }

  // Remaining work of the pool's threads once the flag is set.
  function Rank(pc: WorkerPc): nat {
    match pc
    case Exited => 0
    case HoldsLock => 1
    case Executing(_) => 3
    case _ => 2
  }

  function JoinRank(numWorkers: nat): ClientPc -> nat {
    (pc: ClientPc) => if pc.Joining? && pc.next <= numWorkers then numWorkers + 1 - pc.next else 0
  }

  function Remaining(s: State): nat {
    3 * |s.queue| + Total(Rank, s.workers) + Total(JoinRank(|s.workers|), s.clients)
  }

  predicate Draining(step: Step) {
    step.Lock? || step.Dispatch? || step.Finish? || step.Join?
  }

  function DrainingSteps(run: seq<Step>): nat {
    if run == [] then 0 else (if Draining(run[0]) then 1 else 0) + DrainingSteps(run[1..])
  }

  lemma RemainingFalls(s: State, step: Step)
    requires Inv(s) && s.flag && Enabled(s, step)
    ensures if Draining(step) then Remaining(Apply(s, step)) < Remaining(s)
            else Remaining(Apply(s, step)) == Remaining(s)
  {
    var t := Apply(s, step);
    if step.Lock? || step.Dispatch? || step.Finish? {
      TotalUpdate(Rank, s.workers, step.w, t.workers[step.w]);
    } else if step.Spurious? {
      assert false;
    } else {
      TotalUpdate(JoinRank(|s.workers|), s.clients, step.c, t.clients[step.c]);
    }
  }

  /** After the flag is set the workers and the joining thread make only so many steps, whatever the
      other clients do in between. */
  lemma {:induction false} ShutdownIsBounded(s: State, run: seq<Step>)
    requires Inv(s) && s.flag && ValidRun(s, run)
    ensures Remaining(After(s, run)) + DrainingSteps(run) <= Remaining(s)
    decreases |run|
  {
    if run != [] {
      StepKeepsInv(s, run[0]);
      RemainingFalls(s, run[0]);
      ShutdownIsBounded(Apply(s, run[0]), run[1..]);
    }
  }

  /** And until the joins have returned there is always a next one: a step of a worker or of the joining
      thread, or a step of the client that holds the mutex just then. */
  lemma ShutdownIsNeverStuck(s: State) returns (step: Step)
    requires Inv(s) && s.flag && !s.joined
    ensures Enabled(s, step)
    ensures Draining(step) || ((step.Accept? || step.FinishInline?) && s.lock == ByClient(step.c))
  {
    if s.lock.ByWorker? {
      step := Dispatch(s.lock.w);
    } else if s.lock.ByClient? {
      step := if s.clients[s.lock.c].RunHolds? then Accept(s.lock.c, 0) else FinishInline(s.lock.c);
    } else if AllExited(s) {
      var c :| 0 <= c < |s.clients| && InShutdown(s.clients[c]);
      step := Join(c);
    } else {
      var w :| 0 <= w < |s.workers| && !s.workers[w].Exited?;
      step := if s.workers[w].Executing? then Finish(w) else Lock(w);
    }
  }
}
