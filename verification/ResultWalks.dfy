/** Where iterators get to, and what their rows hold. */
module ResultWalks {
  import opened Base
  import opened ResultCursor

  lemma OpFirst(rows: seq<Row>, kinds: seq<Kind>, s: State, op: Op, rest: seq<Op>)
    requires Enabled(rows, s, op) && ValidRun(rows, kinds, Apply(rows, kinds, s, op), rest)
    ensures ValidRun(rows, kinds, s, [op] + rest)
    ensures Outputs(rows, kinds, s, [op] + rest)
         == [Output(rows, kinds, s, op)] + Outputs(rows, kinds, Apply(rows, kinds, s, op), rest)
  {
    assert ([op] + rest)[1..] == rest;
  }

  /** The tuples that a run's dereferences return, in order. */
  function Seen(outputs: seq<Option<Tuple>>): seq<Tuple> {
    if outputs == [] then []
    else (if outputs[0].Some? then [outputs[0].value] else []) + Seen(outputs[1..])
  }

  lemma SeenFirst(output: Option<Tuple>, rest: seq<Option<Tuple>>)
    ensures Seen([output] + rest) == (if output.Some? then [output.value] else []) + Seen(rest)
  {
    assert ([output] + rest)[1..] == rest;
  }

  // ---------------------------------------------------------------- one move

  /** An iterator moved by `delta`, with nothing done to the cursor. */
  function MovedTo(s: State, i: nat, index: nat): State
    requires i < |s.its|
  {
    s.(its := s.its[i := Iter(index, None)])
  }

  lemma AdvanceMovesBy(rows: seq<Row>, kinds: seq<Kind>, s: State, i: nat, delta: int)
    requires i < |s.its| && 0 <= s.its[i].index + delta < U64
    ensures Enabled(rows, s, Advance(i, delta))
    ensures Apply(rows, kinds, s, Advance(i, delta)) == MovedTo(s, i, s.its[i].index + delta)
  {
  }

  /** A dereference returns the row at the iterator's index and leaves the index where it is. */
  lemma DerefStays(rows: seq<Row>, kinds: seq<Kind>, s: State, i: nat)
    requires AllCoherent(rows, kinds, s) && i < |s.its| && s.its[i].index <= |rows|
    ensures Enabled(rows, s, Deref(i))
    ensures Output(rows, kinds, s, Deref(i)) == Some(TupleAt(rows, kinds, s.its[i].index, true))
    ensures var t := Apply(rows, kinds, s, Deref(i));
      AllCoherent(rows, kinds, t) && |t.its| == |s.its| && t.its[i].index == s.its[i].index
  {
  }

  // ---------------------------------------------------------------- whole walks

  /** `*it; ++it;` for `n` rows. */
  function Forwards(i: nat, n: nat): seq<Op> {
    if n == 0 then [] else [Deref(i)] + ([Advance(i, 1)] + Forwards(i, n - 1))
  }

  /** `--it; *it;` for `n` rows. */
  function Backwards(i: nat, n: nat): seq<Op> {
    if n == 0 then [] else [Advance(i, -1)] + ([Deref(i)] + Backwards(i, n - 1))
  }

  function Reversed(tuples: seq<Tuple>): seq<Tuple> {
    if tuples == [] then [] else [tuples[|tuples| - 1]] + Reversed(tuples[..|tuples| - 1])
  }

  /** Stepping forwards sees the rows from the iterator's own to the last, once each and in order. */
  lemma {:induction false} ForwardsSeesTheRest(rows: seq<Row>, kinds: seq<Kind>, s: State, i: nat, c: nat)
    requires AllCoherent(rows, kinds, s) && i < |s.its| && s.its[i].index == c <= |rows| < U64
    ensures ValidRun(rows, kinds, s, Forwards(i, |rows| - c))
    ensures Seen(Outputs(rows, kinds, s, Forwards(i, |rows| - c))) == AllRows(rows, kinds, true)[c..]
    decreases |rows| - c
  {
    if c < |rows| {
      DerefStays(rows, kinds, s, i);
      var s1 := Apply(rows, kinds, s, Deref(i));
      var rest := Forwards(i, |rows| - c - 1);
      AdvanceMovesBy(rows, kinds, s1, i, 1);
      var s2 := Apply(rows, kinds, s1, Advance(i, 1));
      ForwardsSeesTheRest(rows, kinds, s2, i, c + 1);
      OpFirst(rows, kinds, s1, Advance(i, 1), rest);
      OpFirst(rows, kinds, s, Deref(i), [Advance(i, 1)] + rest);
      SeenFirst(None, Outputs(rows, kinds, s2, rest));
      SeenFirst(Some(TupleAt(rows, kinds, c, true)), Outputs(rows, kinds, s1, [Advance(i, 1)] + rest));
    }
  }

  /** Stepping backwards sees the rows before the iterator's own, last to first. */
  lemma {:induction false} BackwardsSeesTheRest(rows: seq<Row>, kinds: seq<Kind>, s: State, i: nat, c: nat)
    requires AllCoherent(rows, kinds, s) && i < |s.its| && s.its[i].index == c <= |rows| < U64
    ensures ValidRun(rows, kinds, s, Backwards(i, c))
    ensures Seen(Outputs(rows, kinds, s, Backwards(i, c))) == Reversed(AllRows(rows, kinds, true)[..c])
    decreases c
  {
    if c > 0 {
      AdvanceMovesBy(rows, kinds, s, i, -1);
      var s1 := Apply(rows, kinds, s, Advance(i, -1));
      DerefStays(rows, kinds, s1, i);
      var s2 := Apply(rows, kinds, s1, Deref(i));
      var rest := Backwards(i, c - 1);
      BackwardsSeesTheRest(rows, kinds, s2, i, c - 1);
      OpFirst(rows, kinds, s1, Deref(i), rest);
      OpFirst(rows, kinds, s, Advance(i, -1), [Deref(i)] + rest);
      SeenFirst(Some(TupleAt(rows, kinds, c - 1, true)), Outputs(rows, kinds, s2, rest));
      SeenFirst(None, Outputs(rows, kinds, s1, [Deref(i)] + rest));
      assert AllRows(rows, kinds, true)[..c][..c - 1] == AllRows(rows, kinds, true)[..c - 1];
    }
  }

  /** From `begin()` forwards all rows are seen in order, and from `end()` backwards in reverse, whatever
      other iterators there are and wherever the cursor is. */
  lemma WholeWalks(rows: seq<Row>, kinds: seq<Kind>, s: State)
    requires AllCoherent(rows, kinds, s) && |rows| < U64
    ensures var there := [Begin] + Forwards(|s.its|, |rows|);
      ValidRun(rows, kinds, s, there) && Seen(Outputs(rows, kinds, s, there)) == AllRows(rows, kinds, true)
    ensures var back := [End] + Backwards(|s.its|, |rows|);
      ValidRun(rows, kinds, s, back) && Seen(Outputs(rows, kinds, s, back)) == Reversed(AllRows(rows, kinds, true))
  {
    var i, all := |s.its|, AllRows(rows, kinds, true);
    assert all[0..] == all && all[..|rows|] == all;
    var b := Apply(rows, kinds, s, Begin);
    ForwardsSeesTheRest(rows, kinds, b, i, 0);
    OpFirst(rows, kinds, s, Begin, Forwards(i, |rows|));
    SeenFirst(None, Outputs(rows, kinds, b, Forwards(i, |rows|)));
    var e := Apply(rows, kinds, s, End);
    BackwardsSeesTheRest(rows, kinds, e, i, |rows|);
    OpFirst(rows, kinds, s, End, Backwards(i, |rows|));
    SeenFirst(None, Outputs(rows, kinds, e, Backwards(i, |rows|)));
  }

  // ---------------------------------------------------------------- the cursor

  ghost function After(rows: seq<Row>, kinds: seq<Kind>, s: State, run: seq<Op>): State
    requires ValidRun(rows, kinds, s, run)
    decreases |run|
  {
    if run == [] then s else After(rows, kinds, Apply(rows, kinds, s, run[0]), run[1..])
  }

  function Nexts(n: nat): seq<Op> {
    if n == 0 then [] else [Next] + Nexts(n - 1)
  }

  /** `next` `n` times puts the cursor `n` rows on, and touches no iterator. */
  lemma {:induction false} NextsGoThatFarOn(rows: seq<Row>, kinds: seq<Kind>, s: State, n: nat)
    requires s.cursor + n <= |rows|
    ensures ValidRun(rows, kinds, s, Nexts(n))
    ensures After(rows, kinds, s, Nexts(n)) == State(s.cursor + n, s.its)
    decreases n
  {
    if n > 0 {
      NextsGoThatFarOn(rows, kinds, Apply(rows, kinds, s, Next), n - 1);
      assert Nexts(n)[1..] == Nexts(n - 1);
    }
  }

  /** After `seek(k)` and `next` `n` times the cursor is at row `k + n`, wherever it was. */
  lemma SeekAndNext(rows: seq<Row>, kinds: seq<Kind>, s: State, k: nat, n: nat)
    requires k + n <= |rows|
    ensures ValidRun(rows, kinds, s, [Seek(k)] + Nexts(n))
    ensures After(rows, kinds, s, [Seek(k)] + Nexts(n)) == State(k + n, s.its)
  {
    NextsGoThatFarOn(rows, kinds, Apply(rows, kinds, s, Seek(k)), n);
    assert ([Seek(k)] + Nexts(n))[1..] == Nexts(n);
  }

  /** Of the iterators' operations only a dereference moves the cursor: to the iterator's row, unless that
      row is remembered. */
  lemma OnlyFetchingMovesTheCursor(rows: seq<Row>, kinds: seq<Kind>, s: State, op: Op)
    requires Enabled(rows, s, op) && !op.Seek? && !op.Next?
    ensures Apply(rows, kinds, s, op).cursor ==
      if op.Deref? && s.its[op.i].data.None? then s.its[op.i].index else s.cursor
  {
  }

  // ---------------------------------------------------------------- jumps and copies

  /** `it + n` (or `it - n`) is an iterator `n` rows further on (or back); `it` stays where it is. */
  lemma OffsetIsThatFarOn(rows: seq<Row>, kinds: seq<Kind>, s: State, i: nat, n: int)
    requires AllCoherent(rows, kinds, s) && i < |s.its| && s.its[i].index <= |rows| < U64
    requires 0 <= s.its[i].index + n <= |rows|
    ensures var run := [Offset(i, n)] + ([Deref(|s.its|)] + ([Deref(i)] + []));
      && ValidRun(rows, kinds, s, run)
      && Seen(Outputs(rows, kinds, s, run))
         == [TupleAt(rows, kinds, s.its[i].index + n, true), TupleAt(rows, kinds, s.its[i].index, true)]
  {
    var c, there := s.its[i].index, s.its[i].index + n;
    var s1 := Apply(rows, kinds, s, Offset(i, n));
    assert s1 == s.(its := s.its + [Iter(there, None)]);
    TwoDerefs(rows, kinds, s1, |s.its|, i);
    OpFirst(rows, kinds, s, Offset(i, n), [Deref(|s.its|)] + ([Deref(i)] + []));
    SeenFirst(None, Outputs(rows, kinds, s1, [Deref(|s.its|)] + ([Deref(i)] + [])));
  }

  lemma TwoDerefs(rows: seq<Row>, kinds: seq<Kind>, s: State, i: nat, j: nat)
    requires AllCoherent(rows, kinds, s) && i < |s.its| && j < |s.its| && i != j
    requires s.its[i].index <= |rows| && s.its[j].index <= |rows|
    ensures var run := [Deref(i)] + ([Deref(j)] + []);
      && ValidRun(rows, kinds, s, run)
      && Seen(Outputs(rows, kinds, s, run))
         == [TupleAt(rows, kinds, s.its[i].index, true), TupleAt(rows, kinds, s.its[j].index, true)]
  {
    DerefStays(rows, kinds, s, i);
    var s1 := Apply(rows, kinds, s, Deref(i));
    assert s1.its[j] == s.its[j];
    DerefStays(rows, kinds, s1, j);
    OpFirst(rows, kinds, s1, Deref(j), []);
    OpFirst(rows, kinds, s, Deref(i), [Deref(j)] + []);
    SeenFirst(Output(rows, kinds, s1, Deref(j)), []);
    SeenFirst(Output(rows, kinds, s, Deref(i)), Outputs(rows, kinds, s1, [Deref(j)] + []));
  }

  /** `it++` yields the row that `it` was at, and `it` is at the next one. */
  lemma PostfixYieldsTheOldRow(rows: seq<Row>, kinds: seq<Kind>, s: State, i: nat)
    requires AllCoherent(rows, kinds, s) && i < |s.its| && s.its[i].index < |rows| < U64
    ensures var run := [Copy(i)] + ([Advance(i, 1)] + ([Deref(|s.its|)] + ([Deref(i)] + [])));
      && ValidRun(rows, kinds, s, run)
      && Seen(Outputs(rows, kinds, s, run))
         == [TupleAt(rows, kinds, s.its[i].index, true), TupleAt(rows, kinds, s.its[i].index + 1, true)]
  {
    var both := [Deref(|s.its|)] + ([Deref(i)] + []);
    var s1 := Apply(rows, kinds, s, Copy(i));
    AdvanceMovesBy(rows, kinds, s1, i, 1);
    var s2 := Apply(rows, kinds, s1, Advance(i, 1));
    TwoDerefs(rows, kinds, s2, |s.its|, i);
    OpFirst(rows, kinds, s1, Advance(i, 1), both);
    OpFirst(rows, kinds, s, Copy(i), [Advance(i, 1)] + both);
    SeenFirst(None, Outputs(rows, kinds, s2, both));
    SeenFirst(None, Outputs(rows, kinds, s1, [Advance(i, 1)] + both));
  }

  // ---------------------------------------------------------------- fields

  /** A tuple has a row's fields in their columns: the text of each that converts, and for one that does not
      nothing in a string, and in a scalar zero in the container and no value at all in `each`. Past the last
      row no field converts. */
  lemma FieldsAreTheRows(rows: seq<Row>, kinds: seq<Kind>, k: nat, zeroed: bool, i: nat)
    requires i < |kinds| && (k < |rows| ==> i < |rows[k]|)
    ensures |TupleAt(rows, kinds, k, zeroed)| == |kinds|
    ensures var cell, value := if k < |rows| then rows[k][i] else Missing, TupleAt(rows, kinds, k, zeroed)[i];
      match cell
      case Convertible(text) => value == Converted(text)
      case _ => value == if kinds[i].StringColumn? then Converted("") else if zeroed then Zero else Indeterminate
  {
  }
}
