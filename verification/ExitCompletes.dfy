/** The exit hook can always finish its report, and the race it is protected from can really happen. */
module ExitCompletes {
  import opened TaskPool
  import opened TaskPoolShutdown
  import opened ExitStatus

  /** One finishing step of the pool, seen in the world around it. */
  lemma PoolActFirst(w: World, step: Step) returns (next: World)
    requires LifeInv(w) && w.phase.Exiting? && Enabled(w.pool, step) && Finishes(step)
    ensures CanAct(w, Pool(step)) && next == Act(w, Pool(step))
    ensures LifeInv(next) && next.phase.Exiting? && next.pool == Apply(w.pool, step)
    ensures next.shuttingDown == w.shuttingDown
  {
    next := Act(w, Pool(step));
    ActKeepsInv(w, Pool(step));
  }

  /** The game thread carries out the report itself. */
  function ReportEnds(): seq<Action> {
    [OpenFile(OnClient(0))] + ([WriteData(OnClient(0))] + ([Pool(FinishInline(0))] + []))
  }

  lemma InlineReportEnds(w: World)
    requires SizesAgree(w) && w.phase.Reporting? && At(w, OnClient(0), NotOpened)
    ensures ValidLife(w, ReportEnds())
    ensures var end := AfterLife(w, ReportEnds());
      && end.phase.Reported?
      && end.files == w.files[TaskOf(w, OnClient(0)).file := TaskOf(w, OnClient(0)).data + "\n"]
  {
    var w1 := Act(w, OpenFile(OnClient(0)));
    var w2 := Act(w1, WriteData(OnClient(0)));
    ActFirst(w2, Pool(FinishInline(0)), []);
    ActFirst(w1, WriteData(OnClient(0)), [Pool(FinishInline(0))] + []);
    ActFirst(w, OpenFile(OnClient(0)), [WriteData(OnClient(0))] + ([Pool(FinishInline(0))] + []));
  }

  /** The report reaches the executor, which finds the flag set. */
  function ReportLife(): seq<Action> {
    [Report] + ([Pool(LockRun(0))] + ([Pool(Accept(0, 0))] + ReportEnds()))
  }

  lemma Reports(w: World)
    requires LifeInv(w) && w.phase.Exiting? && w.pool.joined && w.pool.lock.Free?
    ensures ValidLife(w, ReportLife())
    ensures var end := AfterLife(w, ReportLife());
      end.phase.Reported? && end.files == w.files[STATUS := StatusText(w.shuttingDown) + "\n"]
  {
    var w1 := Act(w, Report);
    var w2 := Act(w1, Pool(LockRun(0)));
    var w3 := Act(w2, Pool(Accept(0, 0)));
    InlineReportEnds(w3);
    ActFirst(w2, Pool(Accept(0, 0)), ReportEnds());
    ActFirst(w1, Pool(LockRun(0)), [Pool(Accept(0, 0))] + ReportEnds());
    ActFirst(w, Report, [Pool(LockRun(0))] + ([Pool(Accept(0, 0))] + ReportEnds()));
  }

  /** Wherever the workers and the other clients stand when the game thread is in its exit hook: the joins
      can return, whoever holds the mutex for `run` can let go, and the hook comes to its end with the
      status file saying whether the server was shutting down. */
  lemma {:induction false} ExitHookCompletes(w: World) returns (life: seq<Action>)
    requires LifeInv(w) && w.phase.Exiting?
    ensures ValidLife(w, life) && AfterLife(w, life).phase.Reported?
    ensures Content(AfterLife(w, life).files, STATUS) == StatusText(w.shuttingDown) + "\n"
    decreases BeforeFlag(w.pool), if w.pool.flag then Remaining(w.pool) else 0,
              if w.pool.flag then Holding(w.pool) else 0
  {
    if w.pool.joined && w.pool.lock.Free? {
      Reports(w);
      life := ReportLife();
    } else {
      var step: Step;
      if w.pool.joined {
        step := ReleaseStep(w.pool);
      } else {
        step := NextStep(w.pool);
      }
      var next := PoolActFirst(w, step);
      life := ExitHookCompletes(next);
      ActFirst(w, Pool(step), life);
      life := [Pool(step)] + life;
    }
  }

  /** From the start of the plugin each of the two outcomes is reached, by a life in which `shuttingDown` is
      set to it before the exit. */
  lemma EitherStatusIsReached(numWorkers: nat, numClients: nat, files: map<string, string>, was: bool, value: bool)
    returns (life: seq<Action>)
    requires numClients > 0
    ensures ValidLife(InitWorld(numWorkers, numClients, files, was), life)
    ensures var end := AfterLife(InitWorld(numWorkers, numClients, files, was), life);
      && end.phase.Reported?
      && Content(end.files, STATUS) == (if value then "cleanshutdown" else "unexpectedshutdown") + "\n"
  {
    var w := InitWorld(numWorkers, numClients, files, was);
    InitInv(numWorkers, numClients);
    var w1 := Act(w, SetShuttingDown(value));
    ActKeepsInv(w, SetShuttingDown(value));
    var w2 := Act(w1, EnterExit);
    ActKeepsInv(w1, EnterExit);
    life := ExitHookCompletes(w2);
    ActFirst(w1, EnterExit, life);
    ActFirst(w, SetShuttingDown(value), [EnterExit] + life);
    life := [SetShuttingDown(value)] + ([EnterExit] + life);
  }

  // ---------------------------------------------------------------- the race is reachable

  /** The world after client 0 has queued a status write and nobody was asleep for it. */
  function Submitted(w: World, text: string): World
    requires 0 < |w.clientStage|
  {
    var job := Job(|w.pool.accepted|, WriteFile(STATUS, text));
    w.(clientStage := w.clientStage[0 := NotOpened],
       pool := w.pool.(accepted := w.pool.accepted + [job.task], queue := w.pool.queue + [job],
                       pushed := w.pool.pushed + [job]))
  }

  function Submit(text: string, rest: seq<Action>): seq<Action> {
    [Pool(CallRun(0, WriteFile(STATUS, text)))] + ([Pool(LockRun(0))] + ([Pool(Accept(0, 0))] + rest))
  }

  lemma SubmitFirst(w: World, text: string, rest: seq<Action>)
    requires SizesAgree(w) && w.phase.Playing? && w.pool.clients == [Idle] && w.pool.lock.Free?
    requires !w.pool.flag && !AnyAsleep(w.pool)
    requires ValidLife(Submitted(w, text), rest)
    ensures ValidLife(w, Submit(text, rest))
    ensures AfterLife(w, Submit(text, rest)) == AfterLife(Submitted(w, text), rest)
  {
    var w1 := Act(w, Pool(CallRun(0, WriteFile(STATUS, text))));
    var w2 := Act(w1, Pool(LockRun(0)));
    assert Act(w2, Pool(Accept(0, 0))) == Submitted(w, text);
    ActFirst(w2, Pool(Accept(0, 0)), rest);
    ActFirst(w1, Pool(LockRun(0)), [Pool(Accept(0, 0))] + rest);
    ActFirst(w, Pool(CallRun(0, WriteFile(STATUS, text))), [Pool(LockRun(0))] + ([Pool(Accept(0, 0))] + rest));
  }

  /** The world after worker `i` has taken the front task. */
  function Taken(w: World, i: nat): World
    requires i < |w.pool.workers| == |w.workerStage| && w.pool.queue != []
  {
    w.(workerStage := w.workerStage[i := NotOpened],
       pool := w.pool.(workers := w.pool.workers[i := Executing(w.pool.queue[0])],
                       queue := w.pool.queue[1..], taken := w.pool.taken + [w.pool.queue[0]]))
  }

  function Take(i: nat, rest: seq<Action>): seq<Action> {
    [Pool(Lock(i))] + ([Pool(Dispatch(i))] + rest)
  }

  lemma TakeFirst(w: World, i: nat, rest: seq<Action>)
    requires SizesAgree(w) && i < |w.pool.workers| && w.pool.workers[i].WantsLock?
    requires w.pool.lock.Free? && w.pool.queue != []
    requires ValidLife(Taken(w, i), rest)
    ensures ValidLife(w, Take(i, rest)) && AfterLife(w, Take(i, rest)) == AfterLife(Taken(w, i), rest)
  {
    var w1 := Act(w, Pool(Lock(i)));
    assert Act(w1, Pool(Dispatch(i))) == Taken(w, i);
    ActFirst(w1, Pool(Dispatch(i)), rest);
    ActFirst(w, Pool(Lock(i)), [Pool(Dispatch(i))] + rest);
  }

  lemma TakeBoth(w: World)
    requires SizesAgree(w) && w.pool.workers == [WantsLock, WantsLock] && w.pool.lock.Free?
    requires |w.pool.queue| == 2 && w.pool.queue[0].task.file == w.pool.queue[1].task.file == STATUS
    ensures ValidLife(w, Take(0, Take(1, Race(0, 1))))
    ensures Content(AfterLife(w, Take(0, Take(1, Race(0, 1)))).files, STATUS)
            == Overwrite(w.pool.queue[1].task.data + "\n", w.pool.queue[0].task.data + "\n")
  {
    var w1 := Taken(w, 0);
    QueuedWritesRace(Taken(w1, 1), 0, 1);
    TakeFirst(w1, 1, Race(0, 1));
    TakeFirst(w, 0, Take(1, Race(0, 1)));
  }

  lemma SubmitBoth(w: World, first: string, second: string, rest: seq<Action>)
    requires SizesAgree(w) && w.phase.Playing? && w.pool.clients == [Idle] && w.pool.lock.Free?
    requires !w.pool.flag && !AnyAsleep(w.pool)
    requires ValidLife(Submitted(Submitted(w, first), second), rest)
    ensures ValidLife(w, Submit(first, Submit(second, rest)))
    ensures AfterLife(w, Submit(first, Submit(second, rest)))
            == AfterLife(Submitted(Submitted(w, first), second), rest)
  {
    var w1 := Submitted(w, first);
    SubmitFirst(w1, second, rest);
    SubmitFirst(w, first, Submit(second, rest));
  }

  /** From the start of the plugin, two status writes can be with two workers at once, and `Race` leaves the
      first text on top of the second although it was submitted, accepted and taken before it. */
  lemma RaceIsReachable(files: map<string, string>, first: string, second: string)
    ensures var w := InitWorld(2, 1, files, false);
      var life := Submit(first, Submit(second, Take(0, Take(1, Race(0, 1)))));
      && ValidLife(w, life)
      && Content(AfterLife(w, life).files, STATUS) == Overwrite(second + "\n", first + "\n")
  {
    var w := InitWorld(2, 1, files, false);
    TakeBoth(Submitted(Submitted(w, first), second));
    SubmitBoth(w, first, second, Take(0, Take(1, Race(0, 1))));
  }
}
