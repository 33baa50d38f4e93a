/** The result and iterator objects, whose methods move the cursor and fill the cache in place. */
module ResultCalls {
  import opened Base
  import opened ResultCursor

  class Result {
    /** What the server returned; it is stored in `rows` by the first call that needs it. */
    const stored: seq<Row>
    var fetched: bool
    var rows: seq<Row>
    var current: nat

    ghost predicate Valid()
      reads this
    {
      fetched ==> rows == stored && current <= |rows|
    }

    /** The cursor as the first call will find it. */
    ghost function Cursor(): nat
      reads this
    {
      if fetched then current else 0
    }

    constructor (stored: seq<Row>)
      ensures Valid() && this.stored == stored && !fetched
    {
      this.stored := stored;
      fetched, rows, current := false, [], 0;
    }

    method CheckCondition()
      requires Valid()
      modifies this
      ensures Valid() && fetched && current == old(Cursor())
    {
      if !fetched {
        rows, current, fetched := stored, 0, true;
      }
    }

    method Count() returns (n: nat)
      requires Valid()
      modifies this
      ensures Valid() && Cursor() == old(Cursor()) && n == |stored|
    {
      CheckCondition();
      n := |rows|;
    }

    method SeekTo(n: nat)
      requires Valid() && n <= |stored|
      modifies this
      ensures Valid() && fetched && current == n
    {
      CheckCondition();
      current := n;
    }

    /** All fields of the current row, from the last to the first, into variables that start as blanks. */
    method ReadFields(kinds: seq<Kind>, zeroed: bool) returns (tuple: Tuple)
      requires Valid()
      modifies this
      ensures Valid() && fetched && current == old(Cursor())
      ensures tuple == TupleAt(stored, kinds, current, zeroed)
    {
      CheckCondition();
      tuple := seq(|kinds|, i requires 0 <= i < |kinds| => Blank(kinds[i], zeroed));
      var i := |kinds|;
      while i > 0
        invariant 0 <= i <= |kinds| == |tuple|
        invariant forall j :: 0 <= j < i ==> tuple[j] == Blank(kinds[j], zeroed)
        invariant tuple[i..] == TupleAt(stored, kinds, current, zeroed)[i..]
      {
        i := i - 1;
        tuple := tuple[i := GetValue(rows, current, i, tuple[i])];
      }
      assert tuple == tuple[0..];
    }

    /** `each`, with a callback that leaves the result alone. */
    method Each(kinds: seq<Kind>, callback: Tuple -> bool) returns (count: nat, shown: seq<Tuple>)
      requires Valid()
      modifies this
      ensures Valid() && shown == Shown(stored, kinds, 0, callback) && count == |shown|
    {
      SeekTo(0);
      count, shown := 0, [];
      ghost var all := Shown(stored, kinds, 0, callback);
      assert [] + all == all;
      while current < |rows|
        invariant Valid() && fetched && count == |shown|
        invariant shown + Shown(stored, kinds, current, callback) == all
        decreases |stored| - current
      {
        TurnShows(stored, kinds, current, callback, shown);
        var args := ReadFields(kinds, false);
        count := count + 1;
        shown := shown + [args];
        if !callback(args) {
          assert shown + [] == shown;
          return;
        }
        current := current + 1;
      }
      assert shown + [] == shown;
    }
  }

  class ResultIterator {
    const kinds: seq<Kind>
    var res: Result
    var rowIndex: nat
    var data: Option<Tuple>

    /** Says nothing about the cursor: no other iterator can break it. */
    ghost predicate Valid()
      reads this
    {
      Coherent(res.stored, kinds, Iter(rowIndex, data))
    }

    constructor (res: Result, kinds: seq<Kind>, rowIndex: nat)
      ensures Valid() && this.res == res && this.kinds == kinds && this.rowIndex == rowIndex && data.None?
    {
      this.res, this.kinds, this.rowIndex, data := res, kinds, rowIndex, None;
    }

    method SetIndex(i: nat)
      modifies this
      ensures Valid() && rowIndex == i && res == old(res)
    {
      rowIndex := i;
      data := None;
    }

    method Assign(itr: ResultIterator)
      requires itr.Valid() && itr.kinds == kinds
      modifies this
      ensures Valid() && res == old(itr.res) && rowIndex == old(itr.rowIndex) && data == old(itr.data)
    {
      res := itr.res;
      rowIndex := itr.rowIndex;
      data := itr.data;
    }

    method Dereference() returns (tuple: Tuple)
      requires Valid() && res.Valid() && rowIndex <= |res.stored|
      modifies this`data, res
      ensures Valid() && res.Valid()
      ensures tuple == TupleAt(res.stored, kinds, rowIndex, true) && data == Some(tuple)
      ensures old(data.Some?) ==> res.Cursor() == old(res.Cursor())
    {
      if data.None? {
        res.SeekTo(rowIndex);
        var fields := res.ReadFields(kinds, true);
        data := Some(fields);
      }
      tuple := data.value;
    }
  }

  /** `for (auto& row : res.as_container<...>())` */
  method Traverse(res: Result, kinds: seq<Kind>) returns (seen: seq<Tuple>)
    requires res.Valid()
    modifies res
    ensures res.Valid() && seen == AllRows(res.stored, kinds, true)
  {
    var itr := new ResultIterator(res, kinds, 0);
    var n := res.Count();
    var end := new ResultIterator(res, kinds, n);
    seen := [];
    while itr.rowIndex != end.rowIndex
      invariant fresh(itr) && fresh(end) && itr != end && itr.Valid() && res.Valid()
      invariant itr.res == res && itr.kinds == kinds
      invariant end.rowIndex == |res.stored| && itr.rowIndex <= |res.stored|
      invariant seen == AllRows(res.stored, kinds, true)[..itr.rowIndex]
      decreases |res.stored| - itr.rowIndex
    {
      var tuple := itr.Dereference();
      seen := seen + [tuple];
      itr.SetIndex(itr.rowIndex + 1);
    }
  }
}
