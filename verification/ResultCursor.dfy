/**
 Query results: one cursor per result, moved by `seek`, `next` and `each` and by every iterator that has
 to fetch, and iterators that remember the row they last fetched. An iterator is only its index, whatever
 the others do with the cursor.
 */
module ResultCursor {
  import opened Base

  datatype Kind = StringColumn | ScalarColumn

  /** A field's text, and whether the converter of its column accepts it. A string column accepts every
      text but the empty one, which counts as missing. */
  datatype Cell = Missing | Unconvertible(text: string) | Convertible(text: string)

  /** A converted text, a scalar's zero, or a scalar that was never initialised. */
  datatype Value = Converted(text: string) | Zero | Indeterminate

  type Row = seq<Cell>
  type Tuple = seq<Value>

  /** `get_value`: a field that is missing or cannot be converted leaves the variable alone. */
  function GetValue(rows: seq<Row>, cursor: nat, i: nat, initial: Value): Value {
    if cursor < |rows| && i < |rows[cursor]| && rows[cursor][i].Convertible?
    then Converted(rows[cursor][i].text)
    else initial
  }

  /** `make_shared<tuple>` zeroes scalars; the variables of `bind_and_call` start as they are. */
  function Blank(kind: Kind, zeroed: bool): Value {
    if kind.StringColumn? then Converted("") else if zeroed then Zero else Indeterminate
  }

  function TupleAt(rows: seq<Row>, kinds: seq<Kind>, cursor: nat, zeroed: bool): Tuple {
    seq(|kinds|, i requires 0 <= i < |kinds| => GetValue(rows, cursor, i, Blank(kinds[i], zeroed)))
  }

  // ---------------------------------------------------------------- many iterators, one cursor

  datatype Iter = Iter(index: nat, data: Option<Tuple>)

  datatype State = State(cursor: nat, its: seq<Iter>)

  datatype Op =
    | Advance(i: nat, delta: int)       // ++, --, +=, -=
    | Offset(i: nat, delta: int)        // +, -: a new iterator, without data
    | Copy(i: nat)                   // a new iterator, with the same data
    | Move(i: nat)                   // a new iterator, which takes the data away
    | Assign(i: nat, from: nat)
    | Begin
    | End
    | Deref(i: nat)
    | Seek(n: nat)
    | Next

  function Moved(index: nat, delta: int): nat {
    (index + delta) % U64
  }

  /** The iterators named exist, and the cursor is not sent past the end. */
  predicate Enabled(rows: seq<Row>, s: State, op: Op) {
    match op
    case Assign(i, from) => i < |s.its| && from < |s.its|
    case Deref(i) => i < |s.its| && (s.its[i].data.Some? || s.its[i].index <= |rows|)
    case Seek(n) => n <= |rows|
    case Next => s.cursor < |rows|
    case Begin => true
    case End => true
    case _ => op.i < |s.its|
  }

  /** What fetching leaves behind: the cursor moved, the tuple read from where it now is. */
  function Fetched(rows: seq<Row>, kinds: seq<Kind>, s: State, i: nat): State
    requires i < |s.its|
  {
    if s.its[i].data.Some? then s
    else
      var cursor := s.its[i].index;
      State(cursor, s.its[i := s.its[i].(data := Some(TupleAt(rows, kinds, cursor, true)))])
  }

  function Apply(rows: seq<Row>, kinds: seq<Kind>, s: State, op: Op): State
    requires Enabled(rows, s, op)
  {
    match op
    case Advance(i, delta) => s.(its := s.its[i := Iter(Moved(s.its[i].index, delta), None)])
    case Offset(i, delta) => s.(its := s.its + [Iter(Moved(s.its[i].index, delta), None)])
    case Copy(i) => s.(its := s.its + [s.its[i]])
    case Move(i) => s.(its := s.its[i := s.its[i].(data := None)] + [s.its[i]])
    case Assign(i, from) => s.(its := s.its[i := s.its[from]])
    case Begin => s.(its := s.its + [Iter(0, None)])
    case End => s.(its := s.its + [Iter(|rows|, None)])
    case Deref(i) => Fetched(rows, kinds, s, i)
    case Seek(n) => s.(cursor := n)
    case Next => s.(cursor := s.cursor + 1)
  }

  /** What a dereference returns. */
  function Output(rows: seq<Row>, kinds: seq<Kind>, s: State, op: Op): Option<Tuple>
    requires Enabled(rows, s, op)
  {
    if op.Deref? then Fetched(rows, kinds, s, op.i).its[op.i].data else None
  }

  ghost predicate ValidRun(rows: seq<Row>, kinds: seq<Kind>, s: State, run: seq<Op>)
    decreases |run|
  {
    run == [] || (Enabled(rows, s, run[0]) && ValidRun(rows, kinds, Apply(rows, kinds, s, run[0]), run[1..]))
  }

  ghost function Outputs(rows: seq<Row>, kinds: seq<Kind>, s: State, run: seq<Op>): seq<Option<Tuple>>
    requires ValidRun(rows, kinds, s, run)
    decreases |run|
  {
    if run == [] then []
    else [Output(rows, kinds, s, run[0])] + Outputs(rows, kinds, Apply(rows, kinds, s, run[0]), run[1..])
  }

  // The simple form: an iterator is an index, and a dereference looks the row up.

  function SimpleApply(rows: seq<Row>, its: seq<nat>, op: Op): seq<nat> {
    match op
    case Advance(i, delta) => if i < |its| then its[i := Moved(its[i], delta)] else its
    case Offset(i, delta) => if i < |its| then its + [Moved(its[i], delta)] else its
    case Copy(i) => if i < |its| then its + [its[i]] else its
    case Move(i) => if i < |its| then its + [its[i]] else its
    case Assign(i, from) => if i < |its| && from < |its| then its[i := its[from]] else its
    case Begin => its + [0]
    case End => its + [|rows|]
    case _ => its
  }

  function SimpleOutput(rows: seq<Row>, kinds: seq<Kind>, its: seq<nat>, op: Op): Option<Tuple> {
    if op.Deref? && op.i < |its| then Some(TupleAt(rows, kinds, its[op.i], true)) else None
  }

  function SimpleOutputs(rows: seq<Row>, kinds: seq<Kind>, its: seq<nat>, run: seq<Op>): seq<Option<Tuple>>
    decreases |run|
  {
    if run == [] then []
    else [SimpleOutput(rows, kinds, its, run[0])] +
         SimpleOutputs(rows, kinds, SimpleApply(rows, its, run[0]), run[1..])
  }

  function Indices(its: seq<Iter>): seq<nat> {
    seq(|its|, i requires 0 <= i < |its| => its[i].index)
  }

  predicate Coherent(rows: seq<Row>, kinds: seq<Kind>, it: Iter) {
    it.data.Some? ==> it.data.value == TupleAt(rows, kinds, it.index, true)
  }

  predicate AllCoherent(rows: seq<Row>, kinds: seq<Kind>, s: State) {
    forall i :: 0 <= i < |s.its| ==> Coherent(rows, kinds, s.its[i])
  }

  lemma StepRefines(rows: seq<Row>, kinds: seq<Kind>, s: State, op: Op)
    requires AllCoherent(rows, kinds, s) && Enabled(rows, s, op)
    ensures AllCoherent(rows, kinds, Apply(rows, kinds, s, op))
    ensures Indices(Apply(rows, kinds, s, op).its) == SimpleApply(rows, Indices(s.its), op)
    ensures Output(rows, kinds, s, op) == SimpleOutput(rows, kinds, Indices(s.its), op)
  {
  }

  /** Under any interleaving of moves, copies, cursor calls and dereferences, every dereference returns the
      row at its own iterator's index, as if there were neither a cursor nor remembered rows. */
  lemma {:induction false} IteratorsAreTheirIndices(rows: seq<Row>, kinds: seq<Kind>, s: State, run: seq<Op>)
    requires AllCoherent(rows, kinds, s) && ValidRun(rows, kinds, s, run)
    ensures Outputs(rows, kinds, s, run) == SimpleOutputs(rows, kinds, Indices(s.its), run)
    decreases |run|
  {
    if run != [] {
      StepRefines(rows, kinds, s, run[0]);
      IteratorsAreTheirIndices(rows, kinds, Apply(rows, kinds, s, run[0]), run[1..]);
    }
  }

  // ---------------------------------------------------------------- each and the container

  /** All rows, in order. */
  function AllRows(rows: seq<Row>, kinds: seq<Kind>, zeroed: bool): seq<Tuple> {
    seq(|rows|, k requires 0 <= k => TupleAt(rows, kinds, k, zeroed))
  }

  /** What `each` shows its callback from row `c` on: rows in order, up to and with the first declined. */
  function Shown(rows: seq<Row>, kinds: seq<Kind>, c: nat, callback: Tuple -> bool): seq<Tuple>
    decreases |rows| - c
  {
    if c >= |rows| then []
    else
      var args := TupleAt(rows, kinds, c, false);
      [args] + if callback(args) then Shown(rows, kinds, c + 1, callback) else []
  }

  /** One turn of `each` after `before` has been shown. */
  lemma TurnShows(rows: seq<Row>, kinds: seq<Kind>, c: nat, callback: Tuple -> bool, before: seq<Tuple>)
    requires c < |rows|
    ensures var args := TupleAt(rows, kinds, c, false);
      before + Shown(rows, kinds, c, callback)
      == (before + [args]) + if callback(args) then Shown(rows, kinds, c + 1, callback) else []
  {
    var args := TupleAt(rows, kinds, c, false);
    var rest := if callback(args) then Shown(rows, kinds, c + 1, callback) else [];
    assert before + ([args] + rest) == (before + [args]) + rest;
  }

  lemma {:induction false} ShownToAlwaysTrue(rows: seq<Row>, kinds: seq<Kind>, c: nat)
    requires c <= |rows|
    ensures Shown(rows, kinds, c, _ => true) == AllRows(rows, kinds, false)[c..]
    decreases |rows| - c
  {
    if c < |rows| {
      ShownToAlwaysTrue(rows, kinds, c + 1);
    }
  }

  predicate EveryScalarConverts(rows: seq<Row>, kinds: seq<Kind>) {
    forall k, i :: 0 <= k < |rows| && 0 <= i < |kinds| && kinds[i].ScalarColumn? ==>
      i < |rows[k]| && rows[k][i].Convertible?
  }

  /** `each` and the container show the same tuples exactly when every scalar field converts: for one that
      does not, the iterator has zero where the callback's argument was never initialised. */
  lemma EachAgreesWithContainer(rows: seq<Row>, kinds: seq<Kind>)
    ensures Shown(rows, kinds, 0, _ => true) == AllRows(rows, kinds, true)
       <==> EveryScalarConverts(rows, kinds)
  {
    ShownToAlwaysTrue(rows, kinds, 0);
    var a, b := AllRows(rows, kinds, false), AllRows(rows, kinds, true);
    if EveryScalarConverts(rows, kinds) {
      forall k | 0 <= k < |rows|
        ensures a[k] == b[k]
      {
        assert forall i :: 0 <= i < |kinds| ==> a[k][i] == b[k][i];
      }
    } else {
      var k, i :| 0 <= k < |rows| && 0 <= i < |kinds| && kinds[i].ScalarColumn?
                  && !(i < |rows[k]| && rows[k][i].Convertible?);
      assert a[k][i] == Indeterminate && b[k][i] == Zero;
    }
  }
}
