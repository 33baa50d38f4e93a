/**
 `each` against a callback that does as it likes with the result: every turn starts where the callback
 and `next` left the one cursor.
 */
module ResultEach {
  import opened ResultCursor

  /** What a callback does on being shown the last of these rows: the state it leaves, and whether to go on. */
  type Callback = (seq<nat>, State) -> (State, bool)

  /** `visited` are the numbers of the rows shown so far; the loop counts them. */
  datatype Loop =
    | Turning(s: State, visited: seq<nat>)
    | Ended(s: State, visited: seq<nat>)
    | PastTheEnd(visited: seq<nat>)   // the cursor was moved on from the end

  /** The head of the loop, and its body if there is a row. */
  function Turn(rows: seq<Row>, callback: Callback, e: Loop): Loop {
    if !e.Turning? then e
    else if e.s.cursor == |rows| then Ended(e.s, e.visited)
    else if e.s.cursor > |rows| then PastTheEnd(e.visited)
    else
      var visited := e.visited + [e.s.cursor];
      var (t, goOn) := callback(visited, e.s);
      if !goOn then Ended(t, visited)
      else if t.cursor < |rows| then Turning(t.(cursor := t.cursor + 1), visited)
      else PastTheEnd(visited)
  }

  /** `each` after `n` turns; it starts with `reset`. */
  function Turns(rows: seq<Row>, callback: Callback, s: State, n: nat): Loop {
    if n == 0 then Turning(s.(cursor := 0), []) else Turn(rows, callback, Turns(rows, callback, s, n - 1))
  }

  function FirstRows(n: nat): seq<nat> {
    seq(n, k requires 0 <= k => k)
  }

  /** The tuples of the rows visited, as the callback is given them. */
  function Tuples(rows: seq<Row>, kinds: seq<Kind>, visited: seq<nat>): seq<Tuple> {
    seq(|visited|, k requires 0 <= k < |visited| => TupleAt(rows, kinds, visited[k], false))
  }

  /** The loop ends, and what it has shown by then is every row once, in order. */
  ghost predicate VisitsAllInOrder(rows: seq<Row>, callback: Callback, s: State) {
    exists n: nat :: Turns(rows, callback, s, n).Ended? && Turns(rows, callback, s, n).visited == FirstRows(|rows|)
  }

  /** What the callback finds when it is shown row `k` after rows `0` to `k - 1`. */
  function Finds(callback: Callback, s: State, k: nat): State {
    if k == 0 then s.(cursor := 0)
    else callback(FirstRows(k), Finds(callback, s, k - 1)).0.(cursor := k)
  }

  /** Shown row `k` in its order, the callback goes on unless it is the last row, and where it goes on it
      has the cursor back on the row it was shown. */
  predicate Obeys(rows: seq<Row>, callback: Callback, s: State, k: nat) {
    var (t, goOn) := callback(FirstRows(k + 1), Finds(callback, s, k));
    (k + 1 < |rows| ==> goOn) && (goOn ==> t.cursor == k)
  }

  lemma {:induction false} OnTrack(rows: seq<Row>, callback: Callback, s: State, k: nat)
    requires k < |rows| && forall j: nat :: j < k ==> Obeys(rows, callback, s, j)
    ensures Turns(rows, callback, s, k) == Turning(Finds(callback, s, k), FirstRows(k))
  {
    if k > 0 {
      OnTrack(rows, callback, s, k - 1);
      assert Obeys(rows, callback, s, k - 1);
      assert FirstRows(k - 1) + [k - 1] == FirstRows(k);
    }
  }

  predicate InOrder(visited: seq<nat>) {
    forall k :: 0 <= k < |visited| ==> visited[k] == k
  }

  /** No longer able to end after every row in order. */
  predicate Lost(rows: seq<Row>, e: Loop) {
    || e.PastTheEnd?
    || !InOrder(e.visited) || |e.visited| > |rows|
    || (e.Ended? && |e.visited| != |rows|)
    || (e.Turning? && e.s.cursor != |e.visited|)
  }

  lemma LostIsFinal(rows: seq<Row>, callback: Callback, e: Loop)
    requires Lost(rows, e)
    ensures Lost(rows, Turn(rows, callback, e))
  {
    var t := Turn(rows, callback, e);
    if e.Turning? && e.s.cursor < |rows| {
      assert t.visited[|e.visited|] == e.s.cursor;
      assert forall k :: 0 <= k < |e.visited| ==> t.visited[k] == e.visited[k];
    }
  }

  lemma {:induction false} LostStays(rows: seq<Row>, callback: Callback, s: State, k: nat, n: nat)
    requires k <= n && Lost(rows, Turns(rows, callback, s, k))
    ensures Lost(rows, Turns(rows, callback, s, n))
  {
    if k < n {
      LostStays(rows, callback, s, k, n - 1);
      LostIsFinal(rows, callback, Turns(rows, callback, s, n - 1));
    }
  }

  /** The first turn on which the callback does not obey decides the loop. */
  lemma FirstFault(rows: seq<Row>, callback: Callback, s: State, k: nat)
    requires k < |rows| && !Obeys(rows, callback, s, k)
    requires forall j: nat :: j < k ==> Obeys(rows, callback, s, j)
    ensures !VisitsAllInOrder(rows, callback, s)
  {
    OnTrack(rows, callback, s, k);
    assert FirstRows(k) + [k] == FirstRows(k + 1);
    assert Lost(rows, Turns(rows, callback, s, k + 1));
    forall n: nat
      ensures Turns(rows, callback, s, n).Turning? || Lost(rows, Turns(rows, callback, s, n))
    {
      if n <= k {
        OnTrack(rows, callback, s, n);
      } else {
        LostStays(rows, callback, s, k + 1, n);
      }
    }
  }

  lemma {:induction false} FaultIsFound(rows: seq<Row>, callback: Callback, s: State, k: nat)
    requires k <= |rows| && exists j: nat :: j < k && !Obeys(rows, callback, s, j)
    ensures !VisitsAllInOrder(rows, callback, s)
  {
    if exists j: nat :: j < k - 1 && !Obeys(rows, callback, s, j) {
      FaultIsFound(rows, callback, s, k - 1);
    } else {
      FirstFault(rows, callback, s, k - 1);
    }
  }

  lemma ObedienceSuffices(rows: seq<Row>, callback: Callback, s: State)
    requires forall k: nat :: k < |rows| ==> Obeys(rows, callback, s, k)
    ensures VisitsAllInOrder(rows, callback, s)
  {
    var n := |rows|;
    if n == 0 {
      assert Turns(rows, callback, s, 1) == Ended(s.(cursor := 0), []);
    } else {
      OnTrack(rows, callback, s, n - 1);
      assert Obeys(rows, callback, s, n - 1);
      assert FirstRows(n - 1) + [n - 1] == FirstRows(n);
      var last := Turns(rows, callback, s, n);
      assert last.visited == FirstRows(n);
      assert Turns(rows, callback, s, n + 1) == Turn(rows, callback, last);
    }
  }

  /** `each` shows every row once, in order, and ends, exactly when its callback goes on at every row but
      the last and has the cursor back where it was whenever it goes on. */
  lemma EachNeedsTheCursor(rows: seq<Row>, kinds: seq<Kind>, callback: Callback, s: State)
    ensures VisitsAllInOrder(rows, callback, s)
       <==> (forall k: nat :: k < |rows| ==> Obeys(rows, callback, s, k))
    ensures Tuples(rows, kinds, FirstRows(|rows|)) == AllRows(rows, kinds, false)
  {
    if forall k: nat :: k < |rows| ==> Obeys(rows, callback, s, k) {
      ObedienceSuffices(rows, callback, s);
    } else {
      FaultIsFound(rows, callback, s, |rows|);
    }
  }

  /** A callback that looks at the tuple it is given and leaves the result alone. */
  function LooksOnly(rows: seq<Row>, kinds: seq<Kind>, callback: Tuple -> bool): Callback {
    (visited: seq<nat>, s: State) =>
      (s, visited != [] && callback(TupleAt(rows, kinds, visited[|visited| - 1], false)))
  }

  lemma OneMore(rows: seq<Row>, kinds: seq<Kind>, c: nat)
    ensures Tuples(rows, kinds, FirstRows(c + 1))
         == Tuples(rows, kinds, FirstRows(c)) + [TupleAt(rows, kinds, c, false)]
  {
  }

  lemma LooksOnlyTurn(rows: seq<Row>, kinds: seq<Kind>, callback: Tuple -> bool, s: State, c: nat)
    requires c <= |rows|
    ensures Turn(rows, LooksOnly(rows, kinds, callback), Turning(s.(cursor := c), FirstRows(c))) ==
            if c == |rows| then Ended(s.(cursor := c), FirstRows(c))
            else if callback(TupleAt(rows, kinds, c, false)) then Turning(s.(cursor := c + 1), FirstRows(c + 1))
            else Ended(s.(cursor := c), FirstRows(c + 1))
  {
    assert FirstRows(c) + [c] == FirstRows(c + 1);
  }

  /** To such a callback `each` shows what `Shown` says. */
  lemma {:induction false} EachShows(rows: seq<Row>, kinds: seq<Kind>, callback: Tuple -> bool, s: State, c: nat)
    returns (n: nat)
    requires c <= |rows|
    requires Turns(rows, LooksOnly(rows, kinds, callback), s, c) == Turning(s.(cursor := c), FirstRows(c))
    ensures var e := Turns(rows, LooksOnly(rows, kinds, callback), s, n);
      e.Ended? && Tuples(rows, kinds, e.visited)
                  == Tuples(rows, kinds, FirstRows(c)) + Shown(rows, kinds, c, callback)
    decreases |rows| - c
  {
    n := c + 1;
    LooksOnlyTurn(rows, kinds, callback, s, c);
    var before := Tuples(rows, kinds, FirstRows(c));
    if c == |rows| {
      assert before + [] == before;
    } else {
      OneMore(rows, kinds, c);
      TurnShows(rows, kinds, c, callback, before);
      var args := TupleAt(rows, kinds, c, false);
      if callback(args) {
        n := EachShows(rows, kinds, callback, s, c + 1);
      } else {
        assert (before + [args]) + [] == before + [args];
      }
    }
  }

  /** A callback that dereferences an iterator of its own, fresh from `begin()`. */
  function ReadsTheFirstRow(rows: seq<Row>, kinds: seq<Kind>): Callback {
    (visited: seq<nat>, s: State) =>
      (Apply(rows, kinds, Apply(rows, kinds, s, Begin), Deref(|s.its|)), true)
  }

  lemma FirstRowResets(rows: seq<Row>, kinds: seq<Kind>, visited: seq<nat>, s: State)
    ensures ReadsTheFirstRow(rows, kinds)(visited, s).0.cursor == 0
  {
  }

  lemma FreshIteratorTurn(rows: seq<Row>, kinds: seq<Kind>, e: Loop)
    requires |rows| >= 2 && e.Turning? && e.s.cursor < |rows|
    ensures var t := Turn(rows, ReadsTheFirstRow(rows, kinds), e);
      t.Turning? && t.s.cursor == 1 && t.visited == e.visited + [e.s.cursor]
  {
    FirstRowResets(rows, kinds, e.visited + [e.s.cursor], e.s);
  }

  function FirstThenSecond(n: nat): seq<nat> {
    seq(n, k requires 0 <= k => if k == 0 then 0 else 1)
  }

  /** With two rows or more, `each` shows such a callback the first row, then the second for ever. */
  lemma {:induction false} FreshIteratorLoopsForever(rows: seq<Row>, kinds: seq<Kind>, s: State, n: nat)
    requires |rows| >= 2
    ensures var e := Turns(rows, ReadsTheFirstRow(rows, kinds), s, n);
      e.Turning? && e.s.cursor == (if n == 0 then 0 else 1) && e.visited == FirstThenSecond(n)
  {
    if n > 0 {
      assert FirstThenSecond(n) == FirstThenSecond(n - 1) + [if n == 1 then 0 else 1];
      FreshIteratorLoopsForever(rows, kinds, s, n - 1);
      FreshIteratorTurn(rows, kinds, Turns(rows, ReadsTheFirstRow(rows, kinds), s, n - 1));
    }
  }
}
