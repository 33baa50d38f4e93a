/** Sums of a natural-valued weight over a sequence, and how point changes move them. */
module Folds {

  function Total<A>(weight: A -> nat, xs: seq<A>): nat {
    if xs == [] then 0 else weight(xs[0]) + Total(weight, xs[1..])
  }

  lemma {:induction false} TotalUpdate<A>(weight: A -> nat, xs: seq<A>, i: nat, x: A)
    requires i < |xs|
    ensures Total(weight, xs[i := x]) + weight(xs[i]) == Total(weight, xs) + weight(x)
  {
    var ys := xs[i := x];
    if i == 0 {
      assert ys[1..] == xs[1..];
    } else {
      assert ys[1..] == xs[1..][i - 1 := x];
      TotalUpdate(weight, xs[1..], i - 1, x);
    }
  }

  lemma {:induction false} TotalAppend<A>(weight: A -> nat, xs: seq<A>, x: A)
    ensures Total(weight, xs + [x]) == Total(weight, xs) + weight(x)
  {
    if xs == [] {
      assert [x][1..] == [];
    } else {
      assert (xs + [x])[1..] == xs[1..] + [x];
      TotalAppend(weight, xs[1..], x);
    }
  }

  /** A member's weight is part of the sum. */
  lemma {:induction false} TotalAtLeast<A>(weight: A -> nat, xs: seq<A>, i: nat)
    requires i < |xs|
    ensures weight(xs[i]) <= Total(weight, xs)
  {
    if i > 0 {
      TotalAtLeast(weight, xs[1..], i - 1);
    }
  }

  /** Two different members' weights are both part of the sum. */
  lemma {:induction false} TotalAtLeastTwo<A>(weight: A -> nat, xs: seq<A>, i: nat, j: nat)
    requires i < j < |xs|
    ensures weight(xs[i]) + weight(xs[j]) <= Total(weight, xs)
  {
    if i == 0 {
      TotalAtLeast(weight, xs[1..], j - 1);
    } else {
      TotalAtLeastTwo(weight, xs[1..], i - 1, j - 1);
    }
  }

  /** A positive sum has a member with a positive weight. */
  lemma {:induction false} TotalWitness<A>(weight: A -> nat, xs: seq<A>) returns (i: nat)
    requires Total(weight, xs) > 0
    ensures i < |xs| && weight(xs[i]) > 0
  {
    if weight(xs[0]) > 0 {
      i := 0;
    } else {
      i := TotalWitness(weight, xs[1..]);
      i := i + 1;
    }
  }

  lemma {:induction false} TotalZero<A>(weight: A -> nat, xs: seq<A>)
    requires forall i :: 0 <= i < |xs| ==> weight(xs[i]) == 0
    ensures Total(weight, xs) == 0
  {
    if xs != [] {
      TotalZero(weight, xs[1..]);
    }
  }

  lemma {:induction false} TotalRemove<A>(weight: A -> nat, xs: seq<A>, i: nat)
    requires i < |xs|
    ensures Total(weight, xs[..i] + xs[i + 1..]) + weight(xs[i]) == Total(weight, xs)
  {
    if i == 0 {
      assert xs[..0] + xs[1..] == xs[1..];
    } else {
      assert (xs[..i] + xs[i + 1..])[1..] == xs[1..][..i - 1] + xs[1..][i..];
      TotalRemove(weight, xs[1..], i - 1);
    }
  }
}
