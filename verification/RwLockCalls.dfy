/** The wrapper's functions, each run without interruption: they take the steps of `RwLock` in this order. */
module RwLockCalls {
  import opened RwLock

  const EBUSY := 16

  class NativeRwLock {
    var readers: nat
    var writer: bool
    var haveExclusive: bool
    var threads: seq<Thread>

    function Abs(): State
      reads this
    {
      State(readers, writer, haveExclusive, threads)
    }

    constructor (numThreads: nat)
      ensures Abs() == Init(numThreads)
    {
      readers, writer, haveExclusive := 0, false, false;
      threads := seq(numThreads, _ => Thread(Out, Nothing));
    }

    method Tryrdlock(t: nat) returns (rc: int)
      requires t < |threads| && threads[t].pc.Out?
      modifies this
      ensures rc == 0 <==> !old(writer)
      ensures rc == 0 || rc == EBUSY
      ensures old(Enabled(Abs(), TryRdlock(t, rc == 0)))
      ensures Abs() == old(Apply(Abs(), TryRdlock(t, rc == 0)))
    {
      if writer {
        return EBUSY;
      }
      readers := readers + 1;
      threads := threads[t := Thread(Inside, Shared)];
      rc := 0;
    }

    method Trywrlock(t: nat) returns (rc: int)
      requires t < |threads| && threads[t].pc.Out?
      modifies this
      ensures rc == 0 <==> !old(writer) && old(readers) == 0
      ensures rc == 0 || rc == EBUSY
      ensures rc != 0 ==> Abs() == old(Abs())
      ensures rc == 0 ==> old(ValidRun(Abs(), [TryWrlock(t, true), SetFlag(t)]))
      ensures rc == 0 ==> Abs() == old(After(Abs(), [TryWrlock(t, true), SetFlag(t)]))
    {
      if writer || readers > 0 {
        return EBUSY;
      }
      writer := true;
      haveExclusive := true;
      threads := threads[t := Thread(Inside, Exclusive)];
      rc := 0;
      ghost var s := old(Abs());
      StepFirst(Apply(s, TryWrlock(t, true)), SetFlag(t), []);
      StepFirst(s, TryWrlock(t, true), [SetFlag(t)] + []);
      assert [TryWrlock(t, true), SetFlag(t)] == [TryWrlock(t, true)] + ([SetFlag(t)] + []);
      assert Abs().threads == After(s, [TryWrlock(t, true), SetFlag(t)]).threads;
    }

    method Unlock(t: nat)
      requires t < |threads| && threads[t].pc.Inside? && Inv(Abs())
      modifies this
      ensures old(ValidRun(Abs(), UnlockSteps(t, haveExclusive)))
      ensures Abs() == old(After(Abs(), UnlockSteps(t, haveExclusive)))
    {
      UnlockAlone(Abs(), t);
      if haveExclusive {
        haveExclusive := false;
        writer := false;
      } else {
        readers := readers - 1;
      }
      threads := threads[t := Thread(Out, Nothing)];
    }
  }

  function UnlockSteps(t: nat, flag: bool): seq<Step> {
    [CallUnlock(t)] + ([ReadFlag(t)] +
      (if flag then [ClearFlag(t)] + ([ReleaseExclusive(t)] + []) else [ReleaseShared(t)] + []))
  }

  /** What an uninterrupted `unlock` amounts to. */
  lemma UnlockAlone(s: State, t: nat)
    requires Inv(s) && t < |s.threads| && s.threads[t].pc.Inside?
    ensures s.flag <==> s.threads[t].held.Exclusive?
    ensures !s.flag ==> s.readers > 0
    ensures ValidRun(s, UnlockSteps(t, s.flag))
    ensures After(s, UnlockSteps(t, s.flag)) ==
      State(if s.flag then s.readers else s.readers - 1, s.writer && !s.flag, false,
            s.threads[t := Thread(Out, Nothing)])
  {
    assert Consistent(s.threads[t]);
    if s.threads[t].held.Exclusive? {
      WriterIsAlone(s, t);
    } else {
      ReaderSeesNoFlag(s, t);
    }
    var s1 := Apply(s, CallUnlock(t));
    var s2 := Apply(s1, ReadFlag(t));
    if s.flag {
      var s3 := Apply(s2, ClearFlag(t));
      StepFirst(s3, ReleaseExclusive(t), []);
      StepFirst(s2, ClearFlag(t), [ReleaseExclusive(t)] + []);
    } else {
      StepFirst(s2, ReleaseShared(t), []);
    }
    var rest := if s.flag then [ClearFlag(t)] + ([ReleaseExclusive(t)] + []) else [ReleaseShared(t)] + [];
    StepFirst(s1, ReadFlag(t), rest);
    StepFirst(s, CallUnlock(t), [ReadFlag(t)] + rest);
    assert After(s2, rest).threads == s.threads[t := Thread(Out, Nothing)];
  }
}
