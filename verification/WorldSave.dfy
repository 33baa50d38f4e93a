/**
 The world-save scheduler: two timestamps, three flags, the delayed callbacks, and a clock. Requests,
 damage, respawns, chat messages, timer firings and clock ticks drive it, all on the game thread.
 Timestamps are 64-bit and their differences wrap.
 */
module WorldSave {
  import opened Base

  const SAVE_RATE: int := 300
  const DMG_RATE: int := 60
  const MAX_DELAY: int := 1200
  const RESPAWN_WINDOW: nat := 480
  const RESPAWN_DELAY: nat := 30

  datatype Kind = Deferred | Respawn | Admitted

  datatype Timer = Timer(kind: Kind, due: nat)

  /** `saves` is the history of calls of the original save: when, and whether it had to wait; `logins` is
      that of logins passed on to the original, by player. */
  datatype State = State(
    clock: nat,
    lastDmg: nat,
    lastSave: nat,
    hasPendingSave: bool,
    pendingForceSave: bool,
    shuttingDown: bool,
    timers: seq<Timer>,
    saves: seq<(nat, bool)>,
    logins: seq<nat>)

  datatype Phrase = OneMinute | PerformingSave | NoLonger | ShutdownRequired | AboutToSave

  datatype Step =
    | Request(forceWait: bool)
    | Damage(baseLevel: int, causerTeam: Option<int>)
    | StartPlayer(hasPawn: bool, isFromLogin: bool)
    | Chat(phrases: set<Phrase>)
    | Login(player: nat)
    | Fire(i: nat)
    | Tick(to: nat)

  /** 64-bit unsigned subtraction. */
  function Since(now: nat, earlier: nat): nat {
    (now - earlier) % U64
  }

  datatype Outcome = Saved | Admits | Defers | Dropped

  function Decide(s: State, forceWait: bool): Outcome {
    var sinceDmg := Since(s.clock, s.lastDmg);
    var sinceSave := Since(s.clock, s.lastSave);
    if !forceWait && !s.shuttingDown && !s.pendingForceSave && sinceSave < MAX_DELAY then
      if sinceDmg < DMG_RATE || sinceSave < SAVE_RATE then
        if !s.hasPendingSave && sinceSave >= SAVE_RATE then Defers else Dropped
      else Admits
    else Saved
  }

  function SaveWorld(s: State, forceWait: bool): State {
    match Decide(s, forceWait)
    case Saved =>
      s.(lastSave := s.clock, pendingForceSave := false, hasPendingSave := false,
         saves := s.saves + [(s.clock, forceWait)])
    case Admits => s.(lastSave := s.clock, timers := s.timers + [Timer(Admitted, s.clock)])
    case Defers =>
      s.(hasPendingSave := true,
         timers := s.timers + [Timer(Deferred, s.clock + DMG_RATE - Since(s.clock, s.lastDmg))])
    case Dropped => s
  }

  /** A call of `SaveWorld` reaches the original at once, with the flag it was given, exactly when it is to
      wait for the save, the server is shutting down, a force is pending, or the last save is twenty minutes
      old; otherwise it saves nothing. */
  lemma SavesAtOnceExactlyWhen(s: State, forceWait: bool)
    requires s.lastSave <= s.clock < U64
    ensures SaveWorld(s, forceWait).saves ==
      if forceWait || s.shuttingDown || s.pendingForceSave || s.clock - s.lastSave >= 1200
      then s.saves + [(s.clock, forceWait)] else s.saves
  {
    assert Since(s.clock, s.lastSave) == s.clock - s.lastSave;
  }

  function TakeDamage(s: State, baseLevel: int, causerTeam: Option<int>): State {
    if baseLevel == 1 && causerTeam.Some? && causerTeam.value >= FIRST_PLAYER_TEAM then s.(lastDmg := s.clock)
    else s
  }

  function StartNewShooterPlayer(s: State, hasPawn: bool, isFromLogin: bool): State {
    if !hasPawn || isFromLogin || Since(s.clock, s.lastSave) > RESPAWN_WINDOW
       || s.hasPendingSave || s.pendingForceSave
    then s
    else s.(hasPendingSave := true, pendingForceSave := true,
            timers := s.timers + [Timer(Respawn, s.clock + RESPAWN_DELAY)])
  }

  function ServerChat(s: State, phrases: set<Phrase>): State {
    if OneMinute in phrases then s.(shuttingDown := true)
    else if !s.shuttingDown && PerformingSave in phrases then s.(shuttingDown := true)
    else if NoLonger in phrases then s.(shuttingDown := false)
    else if !s.shuttingDown && ShutdownRequired in phrases then s.(shuttingDown := true)
    else s
  }

  /** A login is refused with a message, or passed on. */
  function PreLogin(s: State, player: nat): State {
    if s.shuttingDown then s else s.(logins := s.logins + [player])
  }

  /** The state in which a fired callback calls `SaveWorld(false)`. */
  function Released(s: State, i: nat): State
    requires i < |s.timers|
  {
    var t := s.(timers := s.timers[..i] + s.timers[i + 1..]);
    match s.timers[i].kind
    case Deferred => t.(hasPendingSave := false)
    case Respawn => t.(hasPendingSave := false, pendingForceSave := true)
    case Admitted => t.(pendingForceSave := true)
  }

  /** The clock is monotone and a timer fires no earlier than it is due. */
  predicate Enabled(s: State, step: Step) {
    match step
    case Fire(i) => i < |s.timers| && s.timers[i].due <= s.clock
    case Tick(to) => s.clock < to < U64
    case _ => true
  }

  /** The clock does not pass the due time of a timer that has not fired. */
  predicate Punctual(s: State, step: Step) {
    step.Tick? ==> forall i :: 0 <= i < |s.timers| ==> step.to <= s.timers[i].due
  }

  function Apply(s: State, step: Step): State
    requires Enabled(s, step)
  {
    match step
    case Request(forceWait) => SaveWorld(s, forceWait)
    case Damage(baseLevel, causerTeam) => TakeDamage(s, baseLevel, causerTeam)
    case StartPlayer(hasPawn, isFromLogin) => StartNewShooterPlayer(s, hasPawn, isFromLogin)
    case Chat(phrases) => ServerChat(s, phrases)
    case Login(player) => PreLogin(s, player)
    case Fire(i) => SaveWorld(Released(s, i), false)
    case Tick(to) => s.(clock := to)
  }

  ghost predicate ValidRun(s: State, run: seq<Step>)
    decreases |run|
  {
    run == [] || (Enabled(s, run[0]) && ValidRun(Apply(s, run[0]), run[1..]))
  }

  ghost function After(s: State, run: seq<Step>): State
    requires ValidRun(s, run)
    decreases |run|
  {
    if run == [] then s else After(Apply(s, run[0]), run[1..])
  }

  ghost predicate PunctualRun(s: State, run: seq<Step>)
    requires ValidRun(s, run)
    decreases |run|
  {
    run == [] || (Punctual(s, run[0]) && PunctualRun(Apply(s, run[0]), run[1..]))
  }

  // ---------------------------------------------------------------- invariants

  /** Nothing is stamped in the future, and each pending flag has a callback that will honour it. */
  ghost predicate Inv(s: State) {
    && s.lastDmg <= s.clock < U64 && s.lastSave <= s.clock
    && (s.hasPendingSave ==> exists i :: 0 <= i < |s.timers| && !s.timers[i].kind.Admitted?)
    && (s.pendingForceSave ==> exists i :: 0 <= i < |s.timers| && s.timers[i].kind.Respawn?)
  }

  lemma RemovedKeepsOthers(timers: seq<Timer>, i: nat, k: nat) returns (j: nat)
    requires i < |timers| && k < |timers| && i != k
    ensures j < |timers[..i] + timers[i + 1..]| && (timers[..i] + timers[i + 1..])[j] == timers[k]
  {
    j := if k < i then k else k - 1;
  }

  lemma SaveWorldKeepsInv(s: State, forceWait: bool)
    requires Inv(s)
    ensures Inv(SaveWorld(s, forceWait))
  {
    var t := SaveWorld(s, forceWait);
    assert t.timers[..|s.timers|] == s.timers;
    if Decide(s, forceWait).Defers? {
      assert t.timers[|s.timers|].kind == Deferred;
    }
  }

  lemma ReleasedDeferredInv(s: State, i: nat)
    requires Inv(s) && i < |s.timers| && s.timers[i].kind.Deferred?
    ensures Inv(Released(s, i))
  {
    if s.pendingForceSave {
      var k :| 0 <= k < |s.timers| && s.timers[k].kind.Respawn?;
      var j := RemovedKeepsOthers(s.timers, i, k);
      assert Released(s, i).timers[j].kind.Respawn?;
    }
  }

  lemma FireKeepsInv(s: State, i: nat)
    requires Inv(s) && Enabled(s, Fire(i))
    ensures Inv(Apply(s, Fire(i)))
  {
    var r := Released(s, i);
    if s.timers[i].kind.Deferred? {
      ReleasedDeferredInv(s, i);
      SaveWorldKeepsInv(r, false);
    } else {
      assert Decide(r, false).Saved?;
    }
  }

  lemma StepKeepsInv(s: State, step: Step)
    requires Inv(s) && Enabled(s, step)
    ensures Inv(Apply(s, step))
  {
    match step
    case Request(forceWait) => SaveWorldKeepsInv(s, forceWait);
    case Fire(i) => FireKeepsInv(s, i);
    case StartPlayer(_, _) =>
      var t := Apply(s, step);
      if t != s {
        assert t.timers[|s.timers|].kind == Respawn;
      }
    case _ =>
  }

  lemma {:induction false} RunKeepsInv(s: State, run: seq<Step>)
    requires Inv(s) && ValidRun(s, run)
    ensures Inv(After(s, run)) && s.clock <= After(s, run).clock
    decreases |run|
  {
    if run != [] {
      StepKeepsInv(s, run[0]);
      RunKeepsInv(Apply(s, run[0]), run[1..]);
    }
  }
}
