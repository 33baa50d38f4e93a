/**
 The status file over the plugin's whole life. Worker threads and inline calls carry out
 `writeFile` tasks against a file system, in separate open and write steps; the game thread
 (client 0) submits status writes, enters the exit hook, waits for the joins, and reports.
 */
module ExitStatus {
  import opened TaskPool

  const STATUS := "status.txt"

  /** How far an agent has come with the task it is executing. */
  datatype Stage = NotOpened | Opened | Written

  datatype Agent = OnWorker(w: nat) | OnClient(c: nat)

  datatype Phase = Playing | Exiting | Reporting | Reported | ReportThrew

  datatype World = World(
    pool: State,
    workerStage: seq<Stage>,
    clientStage: seq<Stage>,
    files: map<string, string>,
    shuttingDown: bool,
    phase: Phase)

  datatype Action =
    | Pool(step: Step)
    | OpenFile(agent: Agent)
    | WriteData(agent: Agent)
    | SetShuttingDown(value: bool)
    | EnterExit
    | Report

  function InitWorld(numWorkers: nat, numClients: nat, files: map<string, string>, shuttingDown: bool): World {
    World(Init(numWorkers, numClients), seq(numWorkers, _ => NotOpened), seq(numClients, _ => NotOpened),
          files, shuttingDown, Playing)
  }

  function StatusText(shuttingDown: bool): string {
    if shuttingDown then "cleanshutdown" else "unexpectedshutdown"
  }

  function StatusTask(shuttingDown: bool): Task {
    WriteFile(STATUS, StatusText(shuttingDown))
  }

  /** What a file holds after `data` was written over it from its beginning. */
  function Overwrite(content: string, data: string): string {
    if |content| <= |data| then data else data + content[|data|..]
  }

  function Content(files: map<string, string>, file: string): string {
    if file in files then files[file] else ""
  }

  predicate SizesAgree(w: World) {
    |w.workerStage| == |w.pool.workers| && |w.clientStage| == |w.pool.clients|
  }

  predicate InTask(w: World, agent: Agent)
    requires SizesAgree(w)
  {
    match agent
    case OnWorker(i) => i < |w.pool.workers| && w.pool.workers[i].Executing?
    case OnClient(c) => c < |w.pool.clients| && w.pool.clients[c].RunInline?
  }

  /** The agent is inside a task, and at this stage of it. */
  predicate At(w: World, agent: Agent, stage: Stage)
    requires SizesAgree(w)
  {
    InTask(w, agent) &&
    match agent
    case OnWorker(i) => w.workerStage[i] == stage
    case OnClient(c) => w.clientStage[c] == stage
  }

  function TaskOf(w: World, agent: Agent): Task
    requires SizesAgree(w) && InTask(w, agent)
  {
    if agent.OnWorker? then w.pool.workers[agent.w].job.task else w.pool.clients[agent.c].job.task
  }

  function Advance(w: World, agent: Agent, stage: Stage): World
    requires SizesAgree(w) && InTask(w, agent)
  {
    if agent.OnWorker? then w.(workerStage := w.workerStage[agent.w := stage])
    else w.(clientStage := w.clientStage[agent.c := stage])
  }

  /** Status writes come from the game thread only, and it submits none from inside or after the exit
      hook but the report; `shutdown` is called by the exit hook only. */
  predicate Lawful(w: World, step: Step) {
    match step
    case CallRun(c, task) => (c == 0 && w.phase.Playing?) || (task.file != STATUS && (c != 0 || w.phase.Reported?))
    case CallShutdown(_) => false
    case _ => true
  }

  predicate CanAct(w: World, action: Action)
    requires SizesAgree(w)
  {
    match action
    case Pool(step) => Enabled(w.pool, step) && Lawful(w, step)
    case OpenFile(agent) => At(w, agent, NotOpened)
    case WriteData(agent) => At(w, agent, Opened)
    case SetShuttingDown(_) => w.phase.Playing? && 0 < |w.pool.clients| && w.pool.clients[0].Idle?
    case EnterExit => w.phase.Playing? && Enabled(w.pool, CallShutdown(0))
    case Report => w.phase.Exiting? && w.pool.joined && Enabled(w.pool, CallRun(0, StatusTask(w.shuttingDown)))
  }

  function PoolAct(w: World, step: Step): World
    requires SizesAgree(w) && Enabled(w.pool, step)
  {
    var t := w.(pool := Apply(w.pool, step));
    match step
    case Dispatch(i) => t.(workerStage := w.workerStage[i := NotOpened])
    case Accept(c, _) => t.(clientStage := w.clientStage[c := NotOpened])
    case FinishInline(c) =>
      if c == 0 && w.phase.Reporting? then
        t.(phase := if w.clientStage[0] == Written then Reported else ReportThrew)
      else t
    case _ => t
  }

  function Act(w: World, action: Action): World
    requires SizesAgree(w) && CanAct(w, action)
  {
    match action
    case Pool(step) => PoolAct(w, step)
    case OpenFile(agent) =>
      Advance(w, agent, Opened).(files := w.files[TaskOf(w, agent).file := ""])
    case WriteData(agent) =>
      var task := TaskOf(w, agent);
      Advance(w, agent, Written).(files :=
        w.files[task.file := Overwrite(Content(w.files, task.file), task.data + "\n")])
    case SetShuttingDown(value) => w.(shuttingDown := value)
    case EnterExit => w.(pool := Apply(w.pool, CallShutdown(0)), phase := Exiting)
    case Report => w.(pool := Apply(w.pool, CallRun(0, StatusTask(w.shuttingDown))), phase := Reporting)
  }

  lemma PoolSizes(s: State, step: Step)
    requires Enabled(s, step)
    ensures |Apply(s, step).workers| == |s.workers| && |Apply(s, step).clients| == |s.clients|
  {
  }

  lemma SizesStay(w: World, action: Action)
    requires SizesAgree(w) && CanAct(w, action)
    ensures SizesAgree(Act(w, action))
  {
    match action
    case Pool(step) => PoolSizes(w.pool, step);
    case _ =>
  }

  ghost predicate ValidLife(w: World, life: seq<Action>)
    requires SizesAgree(w)
    decreases |life|
  {
    life == [] ||
    (CanAct(w, life[0]) && (SizesStay(w, life[0]); ValidLife(Act(w, life[0]), life[1..])))
  }

  ghost function AfterLife(w: World, life: seq<Action>): World
    requires SizesAgree(w) && ValidLife(w, life)
    decreases |life|
  {
    if life == [] then w else (SizesStay(w, life[0]); AfterLife(Act(w, life[0]), life[1..]))
  }

  // ---------------------------------------------------------------- invariant

  predicate Wields(pc: ClientPc, task: Task) {
    match pc
    case RunWants(t) => t == task
    case RunHolds(t) => t == task
    case RunInline(job) => job.task == task
    case _ => false
  }

  predicate KeepsOff(pc: ClientPc) {
    match pc
    case RunWants(t) => t.file != STATUS
    case RunHolds(t) => t.file != STATUS
    case RunInline(job) => job.task.file != STATUS
    case _ => true
  }

  ghost predicate ReportInv(w: World)
    requires SizesAgree(w)
  {
    && (forall c :: 0 < c < |w.pool.clients| ==> KeepsOff(w.pool.clients[c]))
    && (w.phase.Reporting? || w.phase.Reported? ==> 0 < |w.pool.clients| && w.pool.joined)
    && (w.phase.Reported? ==>
          && KeepsOff(w.pool.clients[0])
          && Content(w.files, STATUS) == StatusText(w.shuttingDown) + "\n")
    && (w.phase.Reporting? ==>
          && Wields(w.pool.clients[0], StatusTask(w.shuttingDown))
          && (At(w, OnClient(0), Opened) ==> Content(w.files, STATUS) == "")
          && (At(w, OnClient(0), Written) ==> Content(w.files, STATUS) == StatusText(w.shuttingDown) + "\n"))
  }

  /** From entering the exit hook until it reports, the game thread waits for the joins and does nothing else. */
  ghost predicate ExitInv(w: World) {
    w.phase.Exiting? ==>
      && 0 < |w.pool.clients| && w.pool.shutdownCalled
      && if w.pool.joined then w.pool.clients[0].Idle? else InShutdown(w.pool.clients[0])
  }

  ghost predicate LifeInv(w: World) {
    SizesAgree(w) && Inv(w.pool) && ExitInv(w) && ReportInv(w)
  }

  lemma PoolActKeepsExit(w: World, step: Step)
    requires SizesAgree(w) && OneShutdown(w.pool) && ExitInv(w) && Enabled(w.pool, step) && Lawful(w, step)
    ensures ExitInv(PoolAct(w, step))
  {
    if !IsShutdownStep(step) {
      OthersKeepShutdown(w.pool, step);
    }
  }

  lemma WorkerActKeepsReport(w: World, step: Step)
    requires IsWorkerStep(step) && LifeInv(w) && Enabled(w.pool, step) && SizesAgree(PoolAct(w, step))
    ensures ReportInv(PoolAct(w, step))
  {
  }

  lemma RunActKeepsReport(w: World, step: Step)
    requires IsRunStep(step) && LifeInv(w) && Enabled(w.pool, step) && Lawful(w, step)
    requires SizesAgree(PoolAct(w, step))
    ensures ReportInv(PoolAct(w, step))
  {
  }

  lemma ShutdownActKeepsReport(w: World, step: Step)
    requires IsShutdownStep(step) && LifeInv(w) && Enabled(w.pool, step) && Lawful(w, step)
    requires SizesAgree(PoolAct(w, step))
    ensures ReportInv(PoolAct(w, step))
  {
  }

  /** Once the joins have returned no worker can touch a file. */
  lemma WorkersAreGone(w: World, i: nat, stage: Stage)
    requires LifeInv(w) && (w.phase.Reporting? || w.phase.Reported?)
    ensures !At(w, OnWorker(i), stage)
  {
  }

  lemma OpenKeepsReport(w: World, agent: Agent)
    requires LifeInv(w) && CanAct(w, OpenFile(agent))
    ensures ReportInv(Act(w, OpenFile(agent)))
  {
    if agent.OnWorker? && (w.phase.Reporting? || w.phase.Reported?) {
      WorkersAreGone(w, agent.w, NotOpened);
    }
  }

  lemma WriteKeepsReport(w: World, agent: Agent)
    requires LifeInv(w) && CanAct(w, WriteData(agent))
    ensures ReportInv(Act(w, WriteData(agent)))
  {
    if agent.OnWorker? && (w.phase.Reporting? || w.phase.Reported?) {
      WorkersAreGone(w, agent.w, Opened);
    }
  }

  lemma ActKeepsInv(w: World, action: Action)
    requires LifeInv(w) && CanAct(w, action)
    ensures LifeInv(Act(w, action))
  {
    SizesStay(w, action);
    match action
    case Pool(step) =>
      StepKeepsInv(w.pool, step);
      PoolActKeepsExit(w, step);
      if IsWorkerStep(step) {
        WorkerActKeepsReport(w, step);
      } else if IsRunStep(step) {
        RunActKeepsReport(w, step);
      } else {
        ShutdownActKeepsReport(w, step);
      }
    case EnterExit => StepKeepsInv(w.pool, CallShutdown(0));
    case Report => StepKeepsInv(w.pool, CallRun(0, StatusTask(w.shuttingDown)));
    case SetShuttingDown(_) =>
    case OpenFile(agent) => OpenKeepsReport(w, agent);
    case WriteData(agent) => WriteKeepsReport(w, agent);
  }

  lemma {:induction false} LifeKeepsInv(w: World, life: seq<Action>)
    requires LifeInv(w) && ValidLife(w, life)
    ensures LifeInv(AfterLife(w, life))
    decreases |life|
  {
    if life != [] {
      ActKeepsInv(w, life[0]);
      LifeKeepsInv(Act(w, life[0]), life[1..]);
    }
  }

  /** However the workers, the other clients and all earlier status writes interleave: once the exit hook
      has reported, the status file says exactly whether the server was shutting down. */
  lemma ExitStatusWins(numWorkers: nat, numClients: nat, files: map<string, string>, shuttingDown: bool,
                       life: seq<Action>)
    requires ValidLife(InitWorld(numWorkers, numClients, files, shuttingDown), life)
    ensures var w := AfterLife(InitWorld(numWorkers, numClients, files, shuttingDown), life);
      w.phase.Reported? ==>
        && (Content(w.files, STATUS) == "cleanshutdown\n" <==> w.shuttingDown)
        && (Content(w.files, STATUS) == "unexpectedshutdown\n" <==> !w.shuttingDown)
  {
    var w0 := InitWorld(numWorkers, numClients, files, shuttingDown);
    InitInv(numWorkers, numClients);
    LifeKeepsInv(w0, life);
    assert StatusText(true) + "\n" == "cleanshutdown\n";
    assert StatusText(false) + "\n" == "unexpectedshutdown\n";
    assert |"cleanshutdown\n"| != |"unexpectedshutdown\n"|;
  }

  lemma ActFirst(w: World, action: Action, rest: seq<Action>)
    requires SizesAgree(w) && CanAct(w, action)
    requires SizesAgree(Act(w, action)) && ValidLife(Act(w, action), rest)
    ensures ValidLife(w, [action] + rest)
    ensures AfterLife(w, [action] + rest) == AfterLife(Act(w, action), rest)
  {
    assert ([action] + rest)[1..] == rest;
  }

  /** Undisturbed, a task leaves its file with its own line and nothing else. */
  lemma UndisturbedTaskOverwrites(w: World, agent: Agent)
    requires SizesAgree(w) && CanAct(w, OpenFile(agent))
    ensures var life := [OpenFile(agent)] + ([WriteData(agent)] + []);
      && ValidLife(w, life)
      && AfterLife(w, life).files == w.files[TaskOf(w, agent).file := TaskOf(w, agent).data + "\n"]
  {
    var w1 := Act(w, OpenFile(agent));
    ActFirst(w1, WriteData(agent), []);
    ActFirst(w, OpenFile(agent), [WriteData(agent)] + []);
  }

  /** Workers `i` and `j` open the file in this order and write it in the other. */
  function Race(i: nat, j: nat): seq<Action> {
    [OpenFile(OnWorker(i))] + ([OpenFile(OnWorker(j))] +
      ([WriteData(OnWorker(j))] + ([WriteData(OnWorker(i))] + [])))
  }

  /** Without the joins nothing like it holds: whenever two workers have both taken a status write, in
      whatever order, either text can land last, with the tail of a longer first one left behind it. */
  lemma QueuedWritesRace(w: World, i: nat, j: nat)
    requires SizesAgree(w) && i != j && At(w, OnWorker(i), NotOpened) && At(w, OnWorker(j), NotOpened)
    requires w.pool.workers[i].job.task.file == STATUS && w.pool.workers[j].job.task.file == STATUS
    ensures ValidLife(w, Race(i, j))
    ensures Content(AfterLife(w, Race(i, j)).files, STATUS) ==
            Overwrite(w.pool.workers[j].job.task.data + "\n", w.pool.workers[i].job.task.data + "\n")
  {
    var w1 := Act(w, OpenFile(OnWorker(i)));
    var w2 := Act(w1, OpenFile(OnWorker(j)));
    var w3 := Act(w2, WriteData(OnWorker(j)));
    ActFirst(w3, WriteData(OnWorker(i)), []);
    ActFirst(w2, WriteData(OnWorker(j)), [WriteData(OnWorker(i))] + []);
    ActFirst(w1, OpenFile(OnWorker(j)), [WriteData(OnWorker(j))] + ([WriteData(OnWorker(i))] + []));
    ActFirst(w, OpenFile(OnWorker(i)),
             [OpenFile(OnWorker(j))] + ([WriteData(OnWorker(j))] + ([WriteData(OnWorker(i))] + [])));
  }
}
