/**
 The scheduler as the plugin holds it: global variables that hooks and delayed callbacks update in
 place. Each method's contract says that the object moved as `WorldSave.Apply` says.
 */
module WorldSaveHooks {
  import opened Base
  import opened WorldSave

  /** The message is taken as the end of a shutdown, and is not passed on. */
  predicate Clearing(s: State, phrases: set<Phrase>) {
    OneMinute !in phrases && (s.shuttingDown || PerformingSave !in phrases) && NoLonger in phrases
  }

  class Scheduler {
    var clock: nat
    var lastDmg: nat
    var lastSave: nat
    var hasPendingSave: bool
    var pendingForceSave: bool
    var shuttingDown: bool
    var timers: seq<Timer>
    var saves: seq<(nat, bool)>
    var logins: seq<nat>

    function Abs(): State
      reads this
    {
      State(clock, lastDmg, lastSave, hasPendingSave, pendingForceSave, shuttingDown, timers, saves, logins)
    }

    /** Timestamps lie in the past, and each pending flag has a callback that will honour it. */
    ghost predicate Valid()
      reads this
    {
      Inv(Abs())
    }

    constructor (now: nat)
      requires now < U64
      ensures Valid() && Abs() == State(now, 0, 0, false, false, false, [], [], [])
    {
      clock, lastDmg, lastSave := now, 0, 0;
      hasPendingSave, pendingForceSave, shuttingDown := false, false, false;
      timers, saves, logins := [], [], [];
    }

    method DelayExecute(kind: Kind, seconds: nat)
      modifies this`timers
      ensures timers == old(timers) + [Timer(kind, clock + seconds)]
    {
      timers := timers + [Timer(kind, clock + seconds)];
    }

    method TakeDamageHook(baseLevel: int, causerTeam: Option<int>)
      requires Valid()
      modifies this`lastDmg
      ensures Valid() && Abs() == old(TakeDamage(Abs(), baseLevel, causerTeam))
    {
      StepKeepsInv(Abs(), Damage(baseLevel, causerTeam));
      if baseLevel == 1 && causerTeam.Some? && causerTeam.value >= FIRST_PLAYER_TEAM {
        lastDmg := clock;
      }
    }

    /** `refused` is whether the error message is set; otherwise the original is called. */
    method PreLoginHook(player: nat) returns (refused: bool)
      requires Valid()
      modifies this`logins
      ensures Valid() && Abs() == old(PreLogin(Abs(), player))
      ensures refused <==> logins == old(logins)
    {
      StepKeepsInv(Abs(), Login(player));
      if shuttingDown {
        return true;
      }
      logins := logins + [player];
      refused := false;
    }

    method StartNewShooterPlayerHook(hasPawn: bool, isFromLogin: bool)
      requires Valid()
      modifies this
      ensures Valid() && Abs() == old(StartNewShooterPlayer(Abs(), hasPawn, isFromLogin))
    {
      StepKeepsInv(Abs(), StartPlayer(hasPawn, isFromLogin));
      if !hasPawn || isFromLogin || Since(clock, lastSave) > RESPAWN_WINDOW || hasPendingSave || pendingForceSave {
        return;
      }
      hasPendingSave := true;
      pendingForceSave := true;
      DelayExecute(Respawn, RESPAWN_DELAY);
    }

    /** `forwarded` is whether the original chat is called. */
    method ServerChatHook(phrases: set<Phrase>) returns (forwarded: bool)
      requires Valid()
      modifies this`shuttingDown
      ensures Valid() && Abs() == old(ServerChat(Abs(), phrases))
      ensures forwarded <==> AboutToSave !in phrases && !old(Clearing(Abs(), phrases))
    {
      StepKeepsInv(Abs(), Chat(phrases));
      if OneMinute in phrases {
        shuttingDown := true;
      } else if !shuttingDown && PerformingSave in phrases {
        shuttingDown := true;
      } else if NoLonger in phrases {
        shuttingDown := false;
        return false;
      } else if !shuttingDown && ShutdownRequired in phrases {
        shuttingDown := true;
      }
      forwarded := AboutToSave !in phrases;
    }

    /** Called by the engine and, with the invariant broken for a moment, by the callbacks. */
    method SaveWorldHook(forceWaitOnSave: bool)
      modifies this
      ensures Abs() == old(SaveWorld(Abs(), forceWaitOnSave))
      ensures old(Valid()) ==> Valid()
      ensures old(lastSave <= clock < U64) ==>
        saves == old(saves) +
          (if forceWaitOnSave || old(shuttingDown || pendingForceSave || clock - lastSave >= 1200)
           then [(clock, forceWaitOnSave)] else [])
    {
      if lastSave <= clock < U64 {
        SavesAtOnceExactlyWhen(Abs(), forceWaitOnSave);
      }
      if Inv(Abs()) {
        SaveWorldKeepsInv(Abs(), forceWaitOnSave);
      }
      var now := clock;
      var sinceDmg := Since(now, lastDmg);
      var sinceSave := Since(now, lastSave);
      if !forceWaitOnSave && !shuttingDown && !pendingForceSave && sinceSave < MAX_DELAY {
        if sinceDmg < DMG_RATE || sinceSave < SAVE_RATE {
          if !hasPendingSave && sinceSave >= SAVE_RATE {
            hasPendingSave := true;
            DelayExecute(Deferred, DMG_RATE - sinceDmg);
          }
          return;
        }
        lastSave := now;
        DelayExecute(Admitted, 0);
      } else {
        lastSave := now;
        pendingForceSave := false;
        hasPendingSave := false;
        saves := saves + [(now, forceWaitOnSave)];
      }
    }

    /** The engine's timer runs one of the three lambdas and forgets it. */
    method FireTimer(i: nat)
      requires Valid() && Enabled(Abs(), Fire(i))
      modifies this
      ensures Valid() && Abs() == old(Apply(Abs(), Fire(i)))
    {
      FireKeepsInv(Abs(), i);
      var kind := timers[i].kind;
      timers := timers[..i] + timers[i + 1..];
      match kind {
        case Deferred =>
          hasPendingSave := false;
        case Respawn =>
          hasPendingSave := false;
          pendingForceSave := true;
        case Admitted =>
          pendingForceSave := true;
      }
      SaveWorldHook(false);
    }

    /** The engine's clock moves on. */
    method Advance(to: nat)
      requires Valid() && Enabled(Abs(), Tick(to))
      modifies this`clock
      ensures Valid() && Abs() == old(Apply(Abs(), Tick(to)))
    {
      StepKeepsInv(Abs(), Tick(to));
      clock := to;
    }
  }
}
