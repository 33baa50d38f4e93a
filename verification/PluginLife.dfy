/**
 The plugin around its executor: the globals, the file operations of its tasks, and the exit hook,
 updating their fields in place and calling the executor's methods.
 */
module PluginLife {
  import opened TaskPool
  import opened TaskExecutor
  import opened ExitStatus
  import opened ExitCompletes

  lemma OnlyOneChanged(before: map<string, string>, after: map<string, string>, file: string)
    requires file in after && after - {file} == before - {file}
    ensures after == before[file := after[file]]
  {
    forall f | f != file
      ensures f in after <==> f in before
      ensures f in after ==> after[f] == before[f]
    {
      assert f in after <==> f in after - {file};
      assert f in before <==> f in before - {file};
    }
  }

  class Plugin {
    const executor: Executor
    var workerStage: seq<Stage>
    var clientStage: seq<Stage>
    var files: map<string, string>
    var shuttingDown: bool
    var phase: Phase

    ghost function Abs(): World
      reads this, executor
    {
      World(executor.Abs(), workerStage, clientStage, files, shuttingDown, phase)
    }

    ghost predicate Valid()
      reads this, executor
    {
      LifeInv(Abs())
    }

    /** The agent is carrying out this task and has come this far with it. */
    ghost predicate AtTask(agent: Agent, task: Task, stage: Stage)
      reads this, executor
    {
      SizesAgree(Abs()) && At(Abs(), agent, stage) && TaskOf(Abs(), agent) == task
    }

    constructor (numThreads: nat, numClients: nat, files: map<string, string>)
      ensures Valid() && fresh(executor) && Abs() == InitWorld(numThreads, numClients, files, false)
    {
      executor := new Executor(numThreads, numClients);
      workerStage := seq(numThreads, _ => NotOpened);
      clientStage := seq(numClients, _ => NotOpened);
      this.files, shuttingDown, phase := files, false, Playing;
    }

    method Reach(agent: Agent, stage: Stage)
      requires SizesAgree(Abs()) && InTask(Abs(), agent)
      modifies this`workerStage, this`clientStage
      ensures Abs() == old(Advance(Abs(), agent, stage))
    {
      match agent {
        case OnWorker(w) => workerStage := workerStage[w := stage];
        case OnClient(c) => clientStage := clientStage[c := stage];
      }
    }

    /** The task's `myfile.open(serverDir + file)`: the target is there and empty, whatever it was before. */
    method OpenTarget(agent: Agent, task: Task)
      requires Valid() && AtTask(agent, task, NotOpened)
      modifies this`workerStage, this`clientStage, this`files
      ensures Valid() && AtTask(agent, task, Opened)
      ensures forall a: Agent, stage: Stage :: a != agent ==> (At(Abs(), a, stage) <==> old(At(Abs(), a, stage)))
      ensures task.file in files && files[task.file] == ""
      ensures files - {task.file} == old(files) - {task.file}
    {
      ActKeepsInv(Abs(), OpenFile(agent));
      files := files[task.file := ""];
      Reach(agent, Opened);
    }

    /** The task's `myfile << data + "\n"` and `myfile.close()`: the target begins with the line, and is the
        line if nobody else has written to it since it was opened. */
    method WriteTarget(agent: Agent, task: Task)
      requires Valid() && AtTask(agent, task, Opened)
      modifies this`workerStage, this`clientStage, this`files
      ensures Valid() && AtTask(agent, task, Written)
      ensures forall a: Agent, stage: Stage :: a != agent ==> (At(Abs(), a, stage) <==> old(At(Abs(), a, stage)))
      ensures task.file in files && task.data + "\n" <= files[task.file]
      ensures old(Content(files, task.file)) == "" ==> files[task.file] == task.data + "\n"
      ensures var content, size := old(Content(files, task.file)), |task.data| + 1;
        files[task.file][size..] == if size < |content| then content[size..] else ""
      ensures files - {task.file} == old(files) - {task.file}
    {
      ActKeepsInv(Abs(), WriteData(agent));
      files := files[task.file := Overwrite(Content(files, task.file), task.data + "\n")];
      Reach(agent, Written);
    }

    /** The exit hook up to its call of `shutdown`, after which it can always be completed. */
    method ExitHookEnters()
      requires Valid() && phase.Playing? && Enabled(executor.Abs(), CallShutdown(0))
      modifies this`phase, executor
      ensures Valid() && phase.Exiting? && InShutdown(executor.callers[0])
      ensures exists life :: ValidLife(Abs(), life) && AfterLife(Abs(), life).phase.Reported? &&
                             Content(AfterLife(Abs(), life).files, STATUS) == StatusText(shuttingDown) + "\n"
    {
      ActKeepsInv(Abs(), EnterExit);
      phase := Exiting;
      executor.EnterShutdown(0);
      ghost var life := ExitHookCompletes(Abs());
    }

    /** The hook's `writeStatus`, up to the lock in `run`. */
    method SubmitReport() returns (task: Task)
      requires Valid() && phase.Exiting? && executor.joined && executor.mutex.Free?
      modifies this`phase, executor
      ensures Valid() && phase.Reporting? && executor.joined && executor.mutex.Free?
      ensures task == StatusTask(shuttingDown) && executor.callers[0] == RunWants(task)
    {
      ActKeepsInv(Abs(), Report);
      var status;
      if shuttingDown {
        status := "cleanshutdown";
      } else {
        status := "unexpectedshutdown";
      }
      task := WriteFile("status.txt", status);
      phase := Reporting;
      executor.EnterRun(0, task);
    }

    /** `run`, the lock guard. */
    method LockReport(task: Task)
      requires Valid() && phase.Reporting? && executor.mutex.Free? && executor.callers[0] == RunWants(task)
      modifies executor
      ensures Valid() && executor.callers[0] == RunHolds(task)
    {
      ActKeepsInv(Abs(), Pool(LockRun(0)));
      executor.AcquireForRun(0);
    }

    /** `run`, up to the call of the task: the flag is set, so the game thread is to execute it. */
    method StartReport(task: Task)
      requires Valid() && phase.Reporting? && executor.callers[0] == RunHolds(task)
      modifies this`clientStage, executor
      ensures Valid() && AtTask(OnClient(0), task, NotOpened)
    {
      ActKeepsInv(Abs(), Pool(Accept(0, 0)));
      var _ := executor.Run(0);
      clientStage := clientStage[0 := NotOpened];
    }

    /** The whole task, undisturbed. */
    method CarryOut(agent: Agent, task: Task)
      requires Valid() && AtTask(agent, task, NotOpened)
      modifies this`workerStage, this`clientStage, this`files
      ensures Valid() && AtTask(agent, task, Written)
      ensures files == old(files)[task.file := task.data + "\n"]
    {
      OpenTarget(agent, task);
      WriteTarget(agent, task);
      OnlyOneChanged(old(files), files, task.file);
    }

    /** `run`, after the task. */
    method EndReport(ghost task: Task)
      requires Valid() && phase.Reporting? && AtTask(OnClient(0), task, Written)
      modifies this`phase, executor
      ensures Valid() && phase.Reported? && executor.callers[0].Idle? && executor.mutex.Free?
    {
      ActKeepsInv(Abs(), Pool(FinishInline(0)));
      executor.RunInlineEnds(0);
      phase := Reported;
    }

    /** `run`, from the call of the task to its return. */
    method FinishReport(task: Task)
      requires Valid() && phase.Reporting? && AtTask(OnClient(0), task, NotOpened)
      modifies this`phase, this`clientStage, this`workerStage, this`files, executor
      ensures Valid() && phase.Reported? && executor.callers[0].Idle? && executor.mutex.Free?
      ensures files == old(files)[task.file := task.data + "\n"]
    {
      CarryOut(OnClient(0), task);
      EndReport(task);
    }

    /** The exit hook after `shutdown` has returned: when it is done the status file holds the status line,
        no other file has changed, and the executor is free. */
    method ExitHookReports()
      requires Valid() && phase.Exiting? && executor.joined && executor.mutex.Free?
      modifies this`phase, this`clientStage, this`workerStage, this`files, executor
      ensures Valid() && phase.Reported? && executor.callers[0].Idle? && executor.mutex.Free?
      ensures files == old(files)["status.txt" :=
        if shuttingDown then "cleanshutdown\n" else "unexpectedshutdown\n"]
    {
      assert "cleanshutdown" + "\n" == "cleanshutdown\n" && "unexpectedshutdown" + "\n" == "unexpectedshutdown\n";
      var task := SubmitReport();
      LockReport(task);
      StartReport(task);
      FinishReport(task);
    }
  }
}
