/** What each request, hit, respawn and message comes to, in seconds and over whole runs. */
module WorldSaveAnswers {
  import opened Base
  import opened WorldSave

  /** A plain request while nothing forces it, within twenty minutes of the last save: turned away for five
      minutes after it; then announced and due at once, if no boss was hit for a minute; or else put off, if
      none is pending, until the last hit is a minute old. */
  lemma PlainRequest(s: State)
    requires Inv(s) && !s.shuttingDown && !s.pendingForceSave && s.clock - s.lastSave < 1200
    ensures s.clock - s.lastSave < 300 ==> SaveWorld(s, false) == s
    ensures s.clock - s.lastSave >= 300 && s.clock - s.lastDmg >= 60 ==>
      SaveWorld(s, false) == s.(lastSave := s.clock, timers := s.timers + [Timer(Admitted, s.clock)])
    ensures s.clock - s.lastSave >= 300 && s.clock - s.lastDmg < 60 && s.hasPendingSave ==>
      SaveWorld(s, false) == s
    ensures s.clock - s.lastSave >= 300 && s.clock - s.lastDmg < 60 && !s.hasPendingSave ==>
      SaveWorld(s, false) == s.(hasPendingSave := true, timers := s.timers + [Timer(Deferred, s.lastDmg + 60)])
  {
    assert Since(s.clock, s.lastSave) == s.clock - s.lastSave;
    assert Since(s.clock, s.lastDmg) == s.clock - s.lastDmg;
  }

  /** Any other call saves, and is the last save; it settles whatever was pending. */
  lemma ForcedRequest(s: State, forceWait: bool)
    requires Inv(s)
    requires forceWait || s.shuttingDown || s.pendingForceSave || s.clock - s.lastSave >= 1200
    ensures SaveWorld(s, forceWait) == s.(lastSave := s.clock, pendingForceSave := false, hasPendingSave := false,
                                          saves := s.saves + [(s.clock, forceWait)])
  {
    SavesAtOnceExactlyWhen(s, forceWait);
    assert Since(s.clock, s.lastSave) == s.clock - s.lastSave;
  }

  /** A callback of an announced or respawn save reaches the original as it fires; a deferred one does
      exactly when a request would by then. */
  lemma FiredCallback(s: State, i: nat)
    requires Inv(s) && Enabled(s, Fire(i))
    ensures Apply(s, Fire(i)).saves ==
      if !s.timers[i].kind.Deferred? || s.shuttingDown || s.pendingForceSave || s.clock - s.lastSave >= 1200
      then s.saves + [(s.clock, false)] else s.saves
  {
    SavesAtOnceExactlyWhen(Released(s, i), false);
  }

  // ---------------------------------------------------------------- callbacks keep their time

  /** The save promised is there, no later than `due`, or its callback is still to come. */
  ghost predicate Promised(s: State, n: nat, due: nat) {
    || (|s.saves| > n && s.saves[n].0 <= due)
    || (|s.saves| == n && s.clock <= due && exists i :: 0 <= i < |s.timers| && Keeps(s.timers[i], due))
  }

  predicate Keeps(timer: Timer, due: nat) {
    !timer.kind.Deferred? && timer.due == due
  }

  lemma RequestKeepsTimers(s: State, forceWait: bool)
    ensures var t := SaveWorld(s, forceWait);
      && t.clock == s.clock && |t.timers| >= |s.timers| && t.timers[..|s.timers|] == s.timers
      && (t.saves == s.saves || t.saves == s.saves + [(s.clock, forceWait)])
  {
  }

  lemma StepKeepsPromised(s: State, step: Step, n: nat, due: nat)
    requires Inv(s) && Enabled(s, step) && Punctual(s, step) && Promised(s, n, due)
    ensures Promised(Apply(s, step), n, due)
  {
    var t := Apply(s, step);
    if step.Request? {
      RequestKeepsTimers(s, step.forceWait);
    } else if step.Fire? {
      RequestKeepsTimers(Released(s, step.i), false);
      FiredCallback(s, step.i);
    }
    if |s.saves| == n && |t.saves| == n {
      var k :| 0 <= k < |s.timers| && Keeps(s.timers[k], due);
      if step.Fire? {
        var j := RemovedKeepsOthers(s.timers, step.i, k);
        assert t.timers[j] == s.timers[k];
      } else {
        assert t.timers[k] == s.timers[k];
      }
    }
  }

  lemma {:induction false} RunKeepsPromised(s: State, run: seq<Step>, n: nat, due: nat)
    requires Inv(s) && ValidRun(s, run) && PunctualRun(s, run) && Promised(s, n, due)
    ensures Promised(After(s, run), n, due)
    decreases |run|
  {
    if run != [] {
      StepKeepsInv(s, run[0]);
      StepKeepsPromised(s, run[0], n, due);
      RunKeepsPromised(Apply(s, run[0]), run[1..], n, due);
    }
  }

  // ---------------------------------------------------------------- respawns and announcements

  /** A player who comes back with a character, not by login, within eight minutes of the last save and with
      nothing pending, arms a save: whatever follows, there is one within thirty seconds. No other arms one. */
  lemma RespawnIsSaved(s: State, hasPawn: bool, isFromLogin: bool, run: seq<Step>)
    requires Inv(s)
    requires var armed := Apply(s, StartPlayer(hasPawn, isFromLogin)); ValidRun(armed, run) && PunctualRun(armed, run)
    ensures var armed := Apply(s, StartPlayer(hasPawn, isFromLogin));
      if hasPawn && !isFromLogin && s.clock - s.lastSave <= 480 && !s.hasPendingSave && !s.pendingForceSave then
        && armed == s.(hasPendingSave := true, pendingForceSave := true,
                       timers := s.timers + [Timer(Respawn, s.clock + 30)])
        && (After(armed, run).clock > s.clock + 30 ==>
              |After(armed, run).saves| > |s.saves| && After(armed, run).saves[|s.saves|].0 <= s.clock + 30)
      else armed == s
  {
    var armed := Apply(s, StartPlayer(hasPawn, isFromLogin));
    assert Since(s.clock, s.lastSave) == s.clock - s.lastSave;
    if armed != s {
      StepKeepsInv(s, StartPlayer(hasPawn, isFromLogin));
      assert Keeps(armed.timers[|s.timers|], s.clock + 30);
      RunKeepsPromised(armed, run, |s.saves|, s.clock + 30);
    }
  }

  /** An announced save is made before the clock moves. */
  lemma AnnouncedSaveIsMade(s: State, run: seq<Step>)
    requires Inv(s) && !s.shuttingDown && !s.pendingForceSave
    requires 300 <= s.clock - s.lastSave < 1200 && s.clock - s.lastDmg >= 60
    requires ValidRun(SaveWorld(s, false), run) && PunctualRun(SaveWorld(s, false), run)
    ensures var t := After(SaveWorld(s, false), run);
      t.clock > s.clock ==> |t.saves| > |s.saves| && t.saves[|s.saves|].0 <= s.clock
  {
    PlainRequest(s);
    SaveWorldKeepsInv(s, false);
    assert Keeps(SaveWorld(s, false).timers[|s.timers|], s.clock);
    RunKeepsPromised(SaveWorld(s, false), run, |s.saves|, s.clock);
  }

  // ---------------------------------------------------------------- hits

  /** A creature of base level 1, hit by something of a player's tribe. */
  predicate BossHit(step: Step) {
    step.Damage? && step.baseLevel == 1 && step.causerTeam.Some? && step.causerTeam.value >= 50000
  }

  /** The clock at the last such hit of a run, or `was` if there is none. */
  ghost function LastHit(s: State, run: seq<Step>, was: nat): nat
    requires ValidRun(s, run)
    decreases |run|
  {
    if run == [] then was else LastHit(Apply(s, run[0]), run[1..], if BossHit(run[0]) then s.clock else was)
  }

  /** The damage stamp is the time of the last hit that counts, and nothing else moves it. */
  lemma {:induction false} StampIsLastHit(s: State, run: seq<Step>)
    requires ValidRun(s, run)
    ensures After(s, run).lastDmg == LastHit(s, run, s.lastDmg)
    decreases |run|
  {
    if run != [] {
      StampIsLastHit(Apply(s, run[0]), run[1..]);
    }
  }

  // ---------------------------------------------------------------- messages

  /** Out of shutdown mode, three messages enter it, one of them only if it is not also taken back. */
  predicate Starts(phrases: set<Phrase>) {
    OneMinute in phrases || PerformingSave in phrases || (ShutdownRequired in phrases && NoLonger !in phrases)
  }

  predicate Ends(phrases: set<Phrase>) {
    NoLonger in phrases && OneMinute !in phrases
  }

  /** The mode that a run's messages lead to from a mode. */
  function Mode(run: seq<Step>, was: bool): bool {
    if run == [] then was
    else Mode(run[1..], if !run[0].Chat? then was
                        else if was then !Ends(run[0].phrases) else Starts(run[0].phrases))
  }

  /** Shutdown mode is what the messages of the run have made it, and nothing else moves it. */
  lemma {:induction false} ModeIsWhatMessagesSay(s: State, run: seq<Step>)
    requires ValidRun(s, run)
    ensures After(s, run).shuttingDown == Mode(run, s.shuttingDown)
    decreases |run|
  {
    if run != [] {
      ModeIsWhatMessagesSay(Apply(s, run[0]), run[1..]);
    }
  }
}
