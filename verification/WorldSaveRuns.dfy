/** What holds over whole runs of the world-save scheduler. */
module WorldSaveRuns {
  import opened Base
  import opened Folds
  import opened WorldSave

  function Init(clock: nat): State {
    State(clock, 0, 0, false, false, false, [], [], [])
  }

  // ---------------------------------------------------------------- nothing is lost

  /** In every reachable state each pending flag has its callback outstanding; so a request that neither
      saves nor schedules came too soon after the last save, or a callback will call for a save in its
      place. */
  lemma DroppedRequestIsCovered(clock: nat, run: seq<Step>)
    requires clock < U64 && ValidRun(Init(clock), run)
    ensures var s := After(Init(clock), run);
      && (s.pendingForceSave ==> exists i :: 0 <= i < |s.timers| && s.timers[i].kind.Respawn?)
      && (s.hasPendingSave ==> exists i :: 0 <= i < |s.timers| && !s.timers[i].kind.Admitted?)
    ensures var s := After(Init(clock), run);
      Decide(s, false).Dropped? ==>
        || s.clock - s.lastSave < SAVE_RATE
        || (exists i :: 0 <= i < |s.timers| && !s.timers[i].kind.Admitted?)
  {
    RunKeepsInv(Init(clock), run);
  }

  /** The throttle stands on a clock that does not run backwards. Within the save rate after the last save
      a plain request is turned away; before it, by any step back that leaves the difference
      above the longest delay when it wraps, it is let through at once. */
  lemma ThrottleNeedsForwardClock(s: State)
    requires s.clock < U64 && s.lastSave < U64
    requires !s.shuttingDown && !s.pendingForceSave
    ensures s.lastSave <= s.clock < s.lastSave + SAVE_RATE ==> Decide(s, false).Dropped?
    ensures s.clock < s.lastSave ==> (Decide(s, false).Saved? <==> s.lastSave - s.clock <= U64 - MAX_DELAY)
  {
    if s.clock < s.lastSave {
      assert Since(s.clock, s.lastSave) == U64 + s.clock - s.lastSave;
    }
  }

  lemma {:induction false} StampsOnlyGrow(s: State, run: seq<Step>)
    requires Inv(s) && ValidRun(s, run)
    ensures s.lastDmg <= After(s, run).lastDmg && s.lastSave <= After(s, run).lastSave
    decreases |run|
  {
    if run != [] {
      StepKeepsInv(s, run[0]);
      StampsOnlyGrow(Apply(s, run[0]), run[1..]);
    }
  }

  /** Whatever happens after a player's hit on a boss, no save is announced within a minute of it, nor
      within the save rate of the last save. */
  lemma AnnouncedSaveWaitsForQuiet(s: State, causerTeam: int, run: seq<Step>)
    requires Inv(s) && causerTeam >= FIRST_PLAYER_TEAM
    requires ValidRun(Apply(s, Damage(1, Some(causerTeam))), run)
    ensures var t := After(Apply(s, Damage(1, Some(causerTeam))), run);
      Decide(t, false).Admits? ==> t.clock - s.clock >= DMG_RATE && t.clock - t.lastSave >= SAVE_RATE
  {
    var hit := Apply(s, Damage(1, Some(causerTeam)));
    StepKeepsInv(s, Damage(1, Some(causerTeam)));
    RunKeepsInv(hit, run);
    StampsOnlyGrow(hit, run);
  }

  // ---------------------------------------------------------------- how many saves

  datatype Charge = Forcing | InShutdown | Throttled | Arming | Free

  function CallCharge(s: State, forceWait: bool): Charge {
    if forceWait then Forcing
    else if s.shuttingDown then InShutdown
    else if s.pendingForceSave then Free
    else if Decide(s, false).Saved? || Decide(s, false).Admits? then Throttled
    else Free
  }

  /** What a step is charged with. */
  function ChargeOf(s: State, step: Step): Charge
    requires Enabled(s, step)
  {
    match step
    case Request(forceWait) => CallCharge(s, forceWait)
    case Fire(i) => CallCharge(Released(s, i), false)
    case StartPlayer(_, _) => if Apply(s, step) != s then Arming else Free
    case _ => Free
  }

  ghost function Count(s: State, run: seq<Step>, charge: Charge): nat
    requires ValidRun(s, run)
    decreases |run|
  {
    if run == [] then 0
    else (if ChargeOf(s, run[0]) == charge then 1 else 0) + Count(Apply(s, run[0]), run[1..], charge)
  }

  /** Callbacks whose save has been paid for when they were scheduled. */
  function Paid(timer: Timer): nat {
    if timer.kind.Deferred? then 0 else 1
  }

  function Credit(s: State): nat {
    Total(Paid, s.timers) + if s.pendingForceSave then 1 else 0
  }

  function Price(charge: Charge): nat {
    match charge
    case Arming => 2
    case Free => 0
    case _ => 1
  }

  lemma CallIsPaidFor(s: State, forceWait: bool)
    ensures var t := SaveWorld(s, forceWait);
      |t.saves| + Credit(t) <= |s.saves| + Credit(s) + Price(CallCharge(s, forceWait))
  {
    var t := SaveWorld(s, forceWait);
    if t.timers != s.timers {
      TotalAppend(Paid, s.timers, t.timers[|s.timers|]);
    }
  }

  lemma StepIsPaidFor(s: State, step: Step)
    requires Enabled(s, step)
    ensures var t := Apply(s, step);
      |t.saves| + Credit(t) <= |s.saves| + Credit(s) + Price(ChargeOf(s, step))
  {
    match step
    case Request(forceWait) => CallIsPaidFor(s, forceWait);
    case Fire(i) =>
      TotalRemove(Paid, s.timers, i);
      if s.timers[i].kind.Deferred? {
        CallIsPaidFor(Released(s, i), false);
      } else {
        assert Decide(Released(s, i), false).Saved?;
      }
    case StartPlayer(_, _) =>
      TotalAppend(Paid, s.timers, Timer(Respawn, s.clock + RESPAWN_DELAY));
    case _ =>
  }

  lemma {:induction false} RunIsPaidFor(s: State, run: seq<Step>)
    requires ValidRun(s, run)
    ensures var t := After(s, run);
      |t.saves| + Credit(t) <= |s.saves| + Credit(s) + Count(s, run, Forcing) + Count(s, run, InShutdown)
                               + Count(s, run, Throttled) + 2 * Count(s, run, Arming)
    decreases |run|
  {
    if run != [] {
      StepIsPaidFor(s, run[0]);
      RunIsPaidFor(Apply(s, run[0]), run[1..]);
    }
  }

  /** The last save, or one save rate before `start` if that is later: what throttled admissions push up. */
  function Mark(s: State, start: int): int {
    if s.lastSave >= start - SAVE_RATE then s.lastSave else start - SAVE_RATE
  }

  lemma ThrottledStepMovesMark(s: State, step: Step, start: int)
    requires Inv(s) && Enabled(s, step) && start <= s.clock
    ensures Mark(s, start) + (if ChargeOf(s, step).Throttled? then SAVE_RATE else 0) <= Mark(Apply(s, step), start)
  {
  }

  lemma {:induction false} ThrottledAreSpaced(s: State, run: seq<Step>, start: int)
    requires Inv(s) && ValidRun(s, run) && start <= s.clock
    ensures Mark(s, start) + SAVE_RATE * Count(s, run, Throttled) <= Mark(After(s, run), start)
    decreases |run|
  {
    if run != [] {
      StepKeepsInv(s, run[0]);
      ThrottledStepMovesMark(s, run[0], start);
      ThrottledAreSpaced(Apply(s, run[0]), run[1..], start);
    }
  }

  /** Original saves of any run: one at once, one per elapsed save rate, one per call that forces a wait,
      one per call while shutting down, two per respawn save armed, and those that callbacks outstanding
      at its start were scheduled for. */
  lemma SaveRateBound(s: State, run: seq<Step>)
    requires Inv(s) && ValidRun(s, run)
    ensures var t := After(s, run);
      |t.saves| - |s.saves| <= 1 + (t.clock - s.clock) / SAVE_RATE + Count(s, run, Forcing)
                               + Count(s, run, InShutdown) + 2 * Count(s, run, Arming) + Credit(s)
  {
    RunIsPaidFor(s, run);
    RunKeepsInv(s, run);
    ThrottledAreSpaced(s, run, s.clock);
  }

  lemma StepFirst(s: State, step: Step, rest: seq<Step>)
    requires Enabled(s, step) && Punctual(s, step)
    requires ValidRun(Apply(s, step), rest) && PunctualRun(Apply(s, step), rest)
    ensures ValidRun(s, [step] + rest) && PunctualRun(s, [step] + rest)
    ensures After(s, [step] + rest) == After(Apply(s, step), rest)
  {
    assert ([step] + rest)[1..] == rest;
  }

  /** A player starts, somebody requests a save, and the respawn callback fires when it is due. */
  function RespawnRun(due: nat): seq<Step> {
    [StartPlayer(true, false)] + ([Request(false)] + ([Tick(due)] + ([Fire(0)] + [])))
  }

  /** The two saves per respawn are real: a request during the delay spends the forced save, and the
      callback forces another one half a minute later. */
  lemma RespawnCanSaveTwice(s: State)
    requires Inv(s) && s.timers == [] && s.clock + RESPAWN_DELAY < U64
    requires StartNewShooterPlayer(s, true, false) != s
    ensures var run := RespawnRun(s.clock + RESPAWN_DELAY);
      && ValidRun(s, run) && PunctualRun(s, run)
      && After(s, run).saves == s.saves + [(s.clock, false), (s.clock + RESPAWN_DELAY, false)]
  {
    var due := s.clock + RESPAWN_DELAY;
    var s1 := Apply(s, StartPlayer(true, false));
    var s2 := Apply(s1, Request(false));
    var s3 := Apply(s2, Tick(due));
    StepFirst(s3, Fire(0), []);
    StepFirst(s2, Tick(due), [Fire(0)] + []);
    StepFirst(s1, Request(false), [Tick(due)] + ([Fire(0)] + []));
    StepFirst(s, StartPlayer(true, false), [Request(false)] + ([Tick(due)] + ([Fire(0)] + [])));
  }

  // ---------------------------------------------------------------- no starvation

  /** A callback is outstanding that leads to a save before the deadline counted from `base`. */
  ghost predicate Covers(s: State, timer: Timer, base: nat) {
    && timer.due < base + MAX_DELAY + DMG_RATE
    && (timer.kind.Deferred? ==> s.lastSave == base && base + SAVE_RATE <= timer.due)
  }

  ghost predicate Covered(s: State, base: nat) {
    exists i :: 0 <= i < |s.timers| && Covers(s, s.timers[i], base)
  }

  /** The invariant of punctual runs. */
  ghost predicate Live(s: State) {
    && Inv(s)
    && (forall i :: 0 <= i < |s.timers| ==> s.clock <= s.timers[i].due)
    && (s.hasPendingSave ==> Covered(s, s.lastSave))
  }

  /** A save has come in time since there were `n`, or is still to come in time. */
  ghost predicate Promise(s: State, base: nat, n: nat) {
    if |s.saves| == n then Covered(s, base)
    else |s.saves| > n && s.saves[n].0 < base + MAX_DELAY + DMG_RATE
  }

  lemma CallKeepsLive(s: State, forceWait: bool)
    requires Live(s)
    ensures Live(SaveWorld(s, forceWait))
  {
    SaveWorldKeepsInv(s, forceWait);
    var t := SaveWorld(s, forceWait);
    assert t.timers[..|s.timers|] == s.timers;
    if t.hasPendingSave {
      if t.timers != s.timers {
        assert Covers(t, t.timers[|s.timers|], t.lastSave);
      } else {
        var i :| 0 <= i < |s.timers| && Covers(s, s.timers[i], s.lastSave);
        assert Covers(t, t.timers[i], t.lastSave);
      }
    }
  }

  lemma FireKeepsLive(s: State, i: nat)
    requires Live(s) && Enabled(s, Fire(i))
    ensures Live(Apply(s, Fire(i)))
  {
    var r := Released(s, i);
    if s.timers[i].kind.Deferred? {
      ReleasedDeferredInv(s, i);
      CallKeepsLive(r, false);
    } else {
      FireKeepsInv(s, i);
      assert Decide(r, false).Saved?;
    }
  }

  lemma StartKeepsLive(s: State, hasPawn: bool, isFromLogin: bool)
    requires Live(s)
    ensures Live(StartNewShooterPlayer(s, hasPawn, isFromLogin))
  {
    StepKeepsInv(s, StartPlayer(hasPawn, isFromLogin));
    var t := StartNewShooterPlayer(s, hasPawn, isFromLogin);
    if t != s {
      assert Covers(t, t.timers[|s.timers|], t.lastSave);
    }
  }

  lemma StepKeepsLive(s: State, step: Step)
    requires Live(s) && Enabled(s, step) && Punctual(s, step)
    ensures Live(Apply(s, step))
  {
    match step
    case Request(forceWait) => CallKeepsLive(s, forceWait);
    case Fire(i) => FireKeepsLive(s, i);
    case StartPlayer(hasPawn, isFromLogin) => StartKeepsLive(s, hasPawn, isFromLogin);
    case _ =>
      StepKeepsInv(s, step);
      var t := Apply(s, step);
      if s.hasPendingSave {
        var i :| 0 <= i < |s.timers| && Covers(s, s.timers[i], s.lastSave);
        assert Covers(t, t.timers[i], t.lastSave);
      }
  }

  lemma CallKeepsPromise(s: State, forceWait: bool, base: nat)
    requires Live(s) && Covered(s, base)
    ensures Promise(SaveWorld(s, forceWait), base, |s.saves|)
  {
    var t := SaveWorld(s, forceWait);
    var i :| 0 <= i < |s.timers| && Covers(s, s.timers[i], base);
    match Decide(s, forceWait)
    case Saved =>
    case Admits => assert Covers(t, t.timers[|s.timers|], base);
    case _ => assert t.timers[i] == s.timers[i] && Covers(t, t.timers[i], base);
  }

  /** A callback that covers the deadline saves, or hands over to another that does. */
  lemma CoveringFires(s: State, i: nat, base: nat)
    requires Live(s) && Enabled(s, Fire(i)) && Covers(s, s.timers[i], base)
    ensures Promise(Apply(s, Fire(i)), base, |s.saves|)
  {
    var t := Apply(s, Fire(i));
    if !Decide(Released(s, i), false).Saved? {
      assert Covers(t, t.timers[|t.timers| - 1], base);
    }
  }

  /** Another callback saves, or leaves the covering one in place, or is admitted at once. */
  lemma OtherFires(s: State, i: nat, k: nat, base: nat)
    requires Live(s) && Enabled(s, Fire(i)) && k < |s.timers| && k != i && Covers(s, s.timers[k], base)
    ensures Promise(Apply(s, Fire(i)), base, |s.saves|)
  {
    var r, t := Released(s, i), Apply(s, Fire(i));
    var j := RemovedKeepsOthers(s.timers, i, k);
    match Decide(r, false)
    case Saved =>
    case Admits => assert Covers(t, t.timers[|r.timers|], base);
    case _ => assert t.timers[j] == s.timers[k] && Covers(t, t.timers[j], base);
  }

  lemma StepKeepsPromise(s: State, step: Step, base: nat, n: nat)
    requires Live(s) && Enabled(s, step) && Punctual(s, step) && Promise(s, base, n)
    ensures Promise(Apply(s, step), base, n)
  {
    var t := Apply(s, step);
    if |s.saves| > n {
      assert |t.saves| > n && t.saves[n] == s.saves[n];
    } else {
      match step
      case Request(forceWait) => CallKeepsPromise(s, forceWait, base);
      case Fire(i) =>
        var k :| 0 <= k < |s.timers| && Covers(s, s.timers[k], base);
        if k == i {
          CoveringFires(s, i, base);
        } else {
          OtherFires(s, i, k, base);
        }
      case _ =>
        var i :| 0 <= i < |s.timers| && Covers(s, s.timers[i], base);
        assert t.timers[i] == s.timers[i] && Covers(t, t.timers[i], base);
    }
  }

  lemma {:induction false} RunKeepsPromise(s: State, run: seq<Step>, base: nat, n: nat)
    requires Live(s) && ValidRun(s, run) && PunctualRun(s, run) && Promise(s, base, n)
    ensures Live(After(s, run)) && Promise(After(s, run), base, n)
    decreases |run|
  {
    if run != [] {
      StepKeepsLive(s, run[0]);
      StepKeepsPromise(s, run[0], base, n);
      RunKeepsPromise(Apply(s, run[0]), run[1..], base, n);
    }
  }

  lemma {:induction false} RunKeepsLive(s: State, run: seq<Step>)
    requires Live(s) && ValidRun(s, run) && PunctualRun(s, run)
    ensures Live(After(s, run))
    decreases |run|
  {
    if run != [] {
      StepKeepsLive(s, run[0]);
      RunKeepsLive(Apply(s, run[0]), run[1..]);
    }
  }

  /** Damage cannot starve a deferred save: from any reachable state with a save pending, whatever is done
      next, an original save has come before 1260 seconds after the last save, once the clock is there. */
  lemma DeferredSaveIsNotStarved(clock: nat, before: seq<Step>, run: seq<Step>)
    requires clock < U64 && ValidRun(Init(clock), before) && PunctualRun(Init(clock), before)
    requires var s := After(Init(clock), before); s.hasPendingSave && ValidRun(s, run) && PunctualRun(s, run)
    ensures var s := After(Init(clock), before);
      var t := After(s, run);
      s.lastSave + MAX_DELAY + DMG_RATE <= t.clock ==>
        |t.saves| > |s.saves| && t.saves[|s.saves|].0 < s.lastSave + MAX_DELAY + DMG_RATE
  {
    RunKeepsLive(Init(clock), before);
    var s := After(Init(clock), before);
    RunKeepsPromise(s, run, s.lastSave, |s.saves|);
  }

  /** Each hop of the retry chain waits one to sixty seconds, with patience left, and leaves less of it. */
  lemma RetryHop(s: State, i: nat)
    requires Live(s) && Enabled(s, Fire(i)) && s.timers[i].kind.Deferred?
    requires Decide(Released(s, i), false).Defers?
    ensures var t := Apply(s, Fire(i));
      var next := t.timers[|t.timers| - 1];
      && |t.timers| == |s.timers| && next.kind.Deferred? && t.lastSave == s.lastSave
      && s.clock + 1 <= next.due <= s.clock + DMG_RATE
      && 0 < MAX_DELAY - (s.clock - s.lastSave)
      && MAX_DELAY - (next.due - t.lastSave) < MAX_DELAY - (s.clock - s.lastSave)
  {
  }

  // ---------------------------------------------------------------- time can pass

  /** Firings still possible at the present instant. */
  function Due(clock: nat): Timer -> nat {
    (timer: Timer) => if timer.due > clock then 0 else if timer.kind.Deferred? then 2 else 1
  }

  lemma FiringShrinksBacklog(s: State, i: nat)
    requires Live(s) && Enabled(s, Fire(i))
    ensures var t := Apply(s, Fire(i));
      t.clock == s.clock && Total(Due(s.clock), t.timers) < Total(Due(s.clock), s.timers)
  {
    var r, t := Released(s, i), Apply(s, Fire(i));
    TotalRemove(Due(s.clock), s.timers, i);
    if Decide(r, false).Admits? || Decide(r, false).Defers? {
      assert s.timers[i].kind.Deferred?;
      var added := t.timers[|r.timers|];
      TotalAppend(Due(s.clock), r.timers, added);
      assert Due(s.clock)(added) <= 1;
    }
  }

  /** Punctuality asks nothing impossible: after finitely many firings the clock is free to move on. */
  lemma {:induction false} TimeCanPass(s: State) returns (run: seq<Step>)
    requires Live(s) && s.clock + 1 < U64
    ensures forall step :: step in run ==> step.Fire?
    ensures ValidRun(s, run) && PunctualRun(s, run)
    ensures Enabled(After(s, run), Tick(s.clock + 1)) && Punctual(After(s, run), Tick(s.clock + 1))
    decreases Total(Due(s.clock), s.timers)
  {
    if i: nat :| i < |s.timers| && s.timers[i].due <= s.clock {
      FiringShrinksBacklog(s, i);
      StepKeepsLive(s, Fire(i));
      var rest := TimeCanPass(Apply(s, Fire(i)));
      run := [Fire(i)] + rest;
      assert run[1..] == rest;
    } else {
      run := [];
    }
  }

  // ---------------------------------------------------------------- shutdown mode

  predicate Clears(step: Step) {
    step.Chat? && NoLonger in step.phrases && OneMinute !in step.phrases
  }

  function Calls(run: seq<Step>): nat {
    if run == [] then 0 else (if run[0].Request? || run[0].Fire? then 1 else 0) + Calls(run[1..])
  }

  /** Shutdown mode ends with exactly one kind of message. */
  lemma OnlyClearingMessageEndsShutdown(s: State, step: Step)
    requires s.shuttingDown && Enabled(s, step)
    ensures Apply(s, step).shuttingDown <==> !Clears(step)
  {
  }

  /** While it lasts, every call of `SaveWorld` reaches the original at once, and no login does. */
  lemma {:induction false} ShutdownSavesAtOnce(s: State, run: seq<Step>)
    requires s.shuttingDown && ValidRun(s, run)
    requires forall step :: step in run ==> !Clears(step)
    ensures After(s, run).shuttingDown
    ensures |After(s, run).saves| == |s.saves| + Calls(run)
    ensures After(s, run).logins == s.logins
    decreases |run|
  {
    if run != [] {
      OnlyClearingMessageEndsShutdown(s, run[0]);
      ShutdownSavesAtOnce(Apply(s, run[0]), run[1..]);
    }
  }

  function Arrival(step: Step): seq<nat> {
    if step.Login? then [step.player] else []
  }

  /** The players that log in during a run. */
  function Arrivals(run: seq<Step>): seq<nat> {
    if run == [] then [] else Arrival(run[0]) + Arrivals(run[1..])
  }

  predicate Announces(step: Step) {
    step.Chat? && (OneMinute in step.phrases || PerformingSave in step.phrases || ShutdownRequired in step.phrases)
  }

  lemma LoginPasses(s: State, step: Step)
    requires !s.shuttingDown && Enabled(s, step) && !Announces(step)
    ensures !Apply(s, step).shuttingDown && Apply(s, step).logins == s.logins + Arrival(step)
  {
  }

  /** Until a shutdown is announced, every login is passed on, in the order of arrival. */
  lemma {:induction false} LoginsPassUntilShutdown(s: State, run: seq<Step>)
    requires !s.shuttingDown && ValidRun(s, run)
    requires forall step :: step in run ==> !Announces(step)
    ensures !After(s, run).shuttingDown
    ensures After(s, run).logins == s.logins + Arrivals(run)
    decreases |run|
  {
    if run != [] {
      LoginPasses(s, run[0]);
      LoginsPassUntilShutdown(Apply(s, run[0]), run[1..]);
      assert s.logins + (Arrival(run[0]) + Arrivals(run[1..])) == (s.logins + Arrival(run[0])) + Arrivals(run[1..]);
    }
  }

  /** From a one-minute warning until a message that takes it back, nobody gets in. */
  lemma NoLoginAfterWarning(s: State, phrases: set<Phrase>, run: seq<Step>)
    requires OneMinute in phrases && ValidRun(Apply(s, Chat(phrases)), run)
    requires forall step :: step in run ==> !Clears(step)
    ensures After(Apply(s, Chat(phrases)), run).logins == s.logins
  {
    ShutdownSavesAtOnce(Apply(s, Chat(phrases)), run);
  }
}
