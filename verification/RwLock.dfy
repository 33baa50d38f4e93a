/**
 The Windows reader/writer lock wrapper: a native lock with separate shared and exclusive operations,
 and a flag that tells `unlock` which release to call. Acquiring, setting the flag, reading it, clearing
 it and releasing are separate steps of any number of threads, interleaved in any order.
 */
module RwLock {
  import opened Folds

  datatype Mode = Nothing | Shared | Exclusive

  datatype Pc =
    | Out
    | WantsShared
    | WantsExclusive
    | FlagUnset           // exclusive lock acquired, flag not yet written
    | Inside              // the lock call has returned
    | Unlocking           // unlock called, flag not yet read
    | SawExclusive        // flag read as true, to be cleared
    | FlagCleared         // about to release exclusively
    | SawShared           // flag read as false, about to release shared

  /** `held` is what the thread acquired and has not released; the code has no such variable. */
  datatype Thread = Thread(pc: Pc, held: Mode)

  datatype State = State(readers: nat, writer: bool, flag: bool, threads: seq<Thread>)

  datatype Step =
    | CallRdlock(t: nat)
    | AcquireShared(t: nat)
    | TryRdlock(t: nat, ok: bool)
    | CallWrlock(t: nat)
    | AcquireExclusive(t: nat)
    | TryWrlock(t: nat, ok: bool)
    | SetFlag(t: nat)
    | CallUnlock(t: nat)
    | ReadFlag(t: nat)
    | ClearFlag(t: nat)
    | ReleaseExclusive(t: nat)
    | ReleaseShared(t: nat)

  function Init(n: nat): State {
    State(0, false, false, seq(n, _ => Thread(Out, Nothing)))
  }

  predicate FreeForShared(s: State) {
    !s.writer
  }

  predicate FreeForExclusive(s: State) {
    !s.writer && s.readers == 0
  }

  predicate Enabled(s: State, step: Step) {
    && step.t < |s.threads|
    && var pc := s.threads[step.t].pc;
       match step
       case CallRdlock(_) => pc.Out?
       case AcquireShared(_) => pc.WantsShared? && FreeForShared(s)
       case TryRdlock(_, ok) => pc.Out? && (ok ==> FreeForShared(s))
       case CallWrlock(_) => pc.Out?
       case AcquireExclusive(_) => pc.WantsExclusive? && FreeForExclusive(s)
       case TryWrlock(_, ok) => pc.Out? && (ok ==> FreeForExclusive(s))
       case SetFlag(_) => pc.FlagUnset?
       case CallUnlock(_) => pc.Inside?
       case ReadFlag(_) => pc.Unlocking?
       case ClearFlag(_) => pc.SawExclusive?
       case ReleaseExclusive(_) => pc.FlagCleared?
       case ReleaseShared(_) => pc.SawShared?
  }

  /** The releases act on the native lock, whatever the caller holds. */
  function Apply(s: State, step: Step): State
    requires Enabled(s, step)
  {
    var th := s.threads[step.t];
    match step
    case CallRdlock(t) => s.(threads := s.threads[t := th.(pc := WantsShared)])
    case AcquireShared(t) => s.(readers := s.readers + 1, threads := s.threads[t := Thread(Inside, Shared)])
    case TryRdlock(t, ok) =>
      if ok then s.(readers := s.readers + 1, threads := s.threads[t := Thread(Inside, Shared)]) else s
    case CallWrlock(t) => s.(threads := s.threads[t := th.(pc := WantsExclusive)])
    case AcquireExclusive(t) => s.(writer := true, threads := s.threads[t := Thread(FlagUnset, Exclusive)])
    case TryWrlock(t, ok) =>
      if ok then s.(writer := true, threads := s.threads[t := Thread(FlagUnset, Exclusive)]) else s
    case SetFlag(t) => s.(flag := true, threads := s.threads[t := th.(pc := Inside)])
    case CallUnlock(t) => s.(threads := s.threads[t := th.(pc := Unlocking)])
    case ReadFlag(t) => s.(threads := s.threads[t := th.(pc := if s.flag then SawExclusive else SawShared)])
    case ClearFlag(t) => s.(flag := false, threads := s.threads[t := th.(pc := FlagCleared)])
    case ReleaseExclusive(t) => s.(writer := false, threads := s.threads[t := Thread(Out, Nothing)])
    case ReleaseShared(t) =>
      s.(readers := if s.readers > 0 then s.readers - 1 else 0, threads := s.threads[t := Thread(Out, Nothing)])
  }

  ghost predicate ValidRun(s: State, run: seq<Step>)
    decreases |run|
  {
    run == [] || (Enabled(s, run[0]) && ValidRun(Apply(s, run[0]), run[1..]))
  }

  ghost function After(s: State, run: seq<Step>): State
    requires ValidRun(s, run)
    decreases |run|
  {
    if run == [] then s else After(Apply(s, run[0]), run[1..])
  }

  lemma StepFirst(s: State, step: Step, rest: seq<Step>)
    requires Enabled(s, step) && ValidRun(Apply(s, step), rest)
    ensures ValidRun(s, [step] + rest) && After(s, [step] + rest) == After(Apply(s, step), rest)
  {
    assert ([step] + rest)[1..] == rest;
  }

  // ---------------------------------------------------------------- invariant

  /** What a thread holds at each of its program points. */
  predicate Consistent(th: Thread) {
    match th.pc
    case Out => th.held.Nothing?
    case WantsShared => th.held.Nothing?
    case WantsExclusive => th.held.Nothing?
    case SawShared => th.held.Shared?
    case Inside => !th.held.Nothing?
    case Unlocking => !th.held.Nothing?
    case _ => th.held.Exclusive?
  }

  function Reads(th: Thread): nat {
    if th.held.Shared? then 1 else 0
  }

  function Writes(th: Thread): nat {
    if th.held.Exclusive? then 1 else 0
  }

  /** Between its write of the flag and its clearing of it. */
  function Flags(th: Thread): nat {
    if th.held.Exclusive? && !th.pc.FlagUnset? && !th.pc.FlagCleared? then 1 else 0
  }

  function Bit(b: bool): nat {
    if b then 1 else 0
  }

  ghost predicate Inv(s: State) {
    && (forall t :: 0 <= t < |s.threads| ==> Consistent(s.threads[t]))
    && s.readers == Total(Reads, s.threads)
    && Bit(s.writer) == Total(Writes, s.threads)
    && Bit(s.flag) == Total(Flags, s.threads)
    && (s.writer ==> s.readers == 0)
  }

  lemma InitInv(n: nat)
    ensures Inv(Init(n))
  {
    TotalZero(Reads, Init(n).threads);
    TotalZero(Writes, Init(n).threads);
    TotalZero(Flags, Init(n).threads);
  }

  /** A thread that holds the lock exclusively is alone with it, and its point tells the flag. */
  lemma WriterIsAlone(s: State, t: nat)
    requires Inv(s) && t < |s.threads| && s.threads[t].held.Exclusive?
    ensures s.writer && s.readers == 0 && s.flag == (Flags(s.threads[t]) == 1)
    ensures forall u :: 0 <= u < |s.threads| && u != t ==> s.threads[u].held.Nothing?
  {
    TotalAtLeast(Writes, s.threads, t);
    TotalAtLeast(Flags, s.threads, t);
    forall u | 0 <= u < |s.threads| && u != t
      ensures s.threads[u].held.Nothing?
    {
      TotalAtLeast(Reads, s.threads, u);
      TotalAtLeastTwo(Writes, s.threads, if t < u then t else u, if t < u then u else t);
    }
    if s.flag {
      var u := TotalWitness(Flags, s.threads);
      assert u == t;
    }
  }

  /** While a thread holds it shared, nobody writes and the flag is down. */
  lemma ReaderSeesNoFlag(s: State, t: nat)
    requires Inv(s) && t < |s.threads| && s.threads[t].held.Shared?
    ensures !s.writer && s.readers > 0 && !s.flag
  {
    TotalAtLeast(Reads, s.threads, t);
    if s.flag {
      var u := TotalWitness(Flags, s.threads);
      WriterIsAlone(s, u);
    }
  }

  predicate InUnlock(step: Step) {
    step.CallUnlock? || step.ReadFlag? || step.ClearFlag? || step.ReleaseExclusive? || step.ReleaseShared?
  }

  lemma UnlockStepKeepsInv(s: State, step: Step)
    requires Inv(s) && Enabled(s, step) && InUnlock(step)
    ensures Inv(Apply(s, step))
  {
    var t := step.t;
    var next := Apply(s, step).threads[t];
    if s.threads[t].held.Exclusive? {
      WriterIsAlone(s, t);
    } else {
      ReaderSeesNoFlag(s, t);
    }
    TotalUpdate(Reads, s.threads, t, next);
    TotalUpdate(Writes, s.threads, t, next);
    TotalUpdate(Flags, s.threads, t, next);
  }

  lemma LockStepKeepsInv(s: State, step: Step)
    requires Inv(s) && Enabled(s, step) && !InUnlock(step)
    ensures Inv(Apply(s, step))
  {
    var next := Apply(s, step).threads[step.t];
    if step.SetFlag? {
      WriterIsAlone(s, step.t);
    }
    assert Apply(s, step).threads == s.threads[step.t := next];
    TotalUpdate(Reads, s.threads, step.t, next);
    TotalUpdate(Writes, s.threads, step.t, next);
    TotalUpdate(Flags, s.threads, step.t, next);
  }

  lemma StepKeepsInv(s: State, step: Step)
    requires Inv(s) && Enabled(s, step)
    ensures Inv(Apply(s, step))
  {
    if InUnlock(step) {
      UnlockStepKeepsInv(s, step);
    } else {
      LockStepKeepsInv(s, step);
    }
  }

  lemma {:induction false} RunKeepsInv(s: State, run: seq<Step>)
    requires Inv(s) && ValidRun(s, run)
    ensures Inv(After(s, run))
    decreases |run|
  {
    if run != [] {
      StepKeepsInv(s, run[0]);
      RunKeepsInv(Apply(s, run[0]), run[1..]);
    }
  }

  // ---------------------------------------------------------------- main results

  /** In every interleaving: a thread in `unlock` reads the flag as true exactly when it holds the lock
      exclusively, and releases in the mode it holds, on a native lock that is held in that mode. */
  lemma UnlockReleasesWhatIsHeld(n: nat, run: seq<Step>, t: nat)
    requires ValidRun(Init(n), run) && t < |After(Init(n), run).threads|
    ensures var s := After(Init(n), run);
      && (s.threads[t].pc.Unlocking? ==> (s.flag <==> s.threads[t].held.Exclusive?))
      && (s.threads[t].pc.FlagCleared? ==> s.threads[t].held.Exclusive? && s.writer)
      && (s.threads[t].pc.SawShared? ==> s.threads[t].held.Shared? && s.readers > 0 && !s.writer)
  {
    InitInv(n);
    RunKeepsInv(Init(n), run);
    var s := After(Init(n), run);
    assert Consistent(s.threads[t]);
    if s.threads[t].held.Exclusive? {
      WriterIsAlone(s, t);
    } else if s.threads[t].held.Shared? {
      ReaderSeesNoFlag(s, t);
    }
  }

  predicate WritesFlag(pc: Pc) {
    pc.FlagUnset? || pc.SawExclusive?
  }

  predicate TouchesFlag(pc: Pc) {
    WritesFlag(pc) || pc.Unlocking?
  }

  /** The plain flag is never written by one thread while another is about to read or write it. */
  lemma FlagIsNeverRaced(n: nat, run: seq<Step>, t: nat, u: nat)
    requires ValidRun(Init(n), run)
    requires var s := After(Init(n), run); t < |s.threads| && u < |s.threads| && t != u
    ensures var s := After(Init(n), run); !(WritesFlag(s.threads[t].pc) && TouchesFlag(s.threads[u].pc))
  {
    InitInv(n);
    RunKeepsInv(Init(n), run);
    var s := After(Init(n), run);
    if WritesFlag(s.threads[t].pc) {
      assert Consistent(s.threads[t]);
      WriterIsAlone(s, t);
      assert Consistent(s.threads[u]);
    }
  }

  /** When every thread is out again, the lock is as it was made. */
  lemma LockIsFreeWhenAllAreOut(n: nat, run: seq<Step>)
    requires ValidRun(Init(n), run)
    requires forall t :: 0 <= t < |After(Init(n), run).threads| ==> After(Init(n), run).threads[t].pc.Out?
    ensures var s := After(Init(n), run); s.readers == 0 && !s.writer && !s.flag
  {
    InitInv(n);
    RunKeepsInv(Init(n), run);
    var s := After(Init(n), run);
    assert forall t :: 0 <= t < |s.threads| ==> Consistent(s.threads[t]);
    TotalZero(Reads, s.threads);
    TotalZero(Writes, s.threads);
    TotalZero(Flags, s.threads);
  }
}
