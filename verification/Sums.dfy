/** Sums of a measure over a sequence, and how they change under an update. */
module Sums {

  function Sum<T>(xs: seq<T>, f: T -> int): int {
    if xs == [] then 0 else f(xs[0]) + Sum(xs[1..], f)
  }

  /** `xs` with the element at `i` taken out. */
  function Without<T>(xs: seq<T>, i: nat): seq<T>
    requires i < |xs|
  {
    xs[..i] + xs[i + 1..]
  }

  lemma {:induction false} SumConcat<T>(xs: seq<T>, ys: seq<T>, f: T -> int)
    ensures Sum(xs + ys, f) == Sum(xs, f) + Sum(ys, f)
  {
    if xs == [] {
      assert xs + ys == ys;
    } else {
      SumConcat(xs[1..], ys, f);
      assert (xs + ys)[1..] == xs[1..] + ys;
    }
  }

  lemma SumSingle<T>(x: T, f: T -> int)
    ensures Sum([x], f) == f(x)
  {
    assert [x][1..] == [];
  }

  lemma SumSplit<T>(xs: seq<T>, i: nat, f: T -> int)
    requires i < |xs|
    ensures Sum(xs, f) == Sum(xs[..i], f) + f(xs[i]) + Sum(xs[i + 1..], f)
  {
    assert xs == xs[..i] + ([xs[i]] + xs[i + 1..]);
    SumConcat(xs[..i], [xs[i]] + xs[i + 1..], f);
    SumConcat([xs[i]], xs[i + 1..], f);
    SumSingle(xs[i], f);
  }

  lemma SumUpdate<T>(xs: seq<T>, i: nat, x: T, f: T -> int)
    requires i < |xs|
    ensures Sum(xs[i := x], f) == Sum(xs, f) - f(xs[i]) + f(x)
  {
    SumSplit(xs, i, f);
    SumSplit(xs[i := x], i, f);
    assert xs[i := x][..i] == xs[..i];
    assert xs[i := x][i + 1..] == xs[i + 1..];
  }

  lemma SumRemove<T>(xs: seq<T>, i: nat, f: T -> int)
    requires i < |xs|
    ensures Sum(Without(xs, i), f) == Sum(xs, f) - f(xs[i])
  {
    SumSplit(xs, i, f);
    SumConcat(xs[..i], xs[i + 1..], f);
  }

  lemma SumAppend<T>(xs: seq<T>, x: T, f: T -> int)
    ensures Sum(xs + [x], f) == Sum(xs, f) + f(x)
  {
    SumConcat(xs, [x], f);
    SumSingle(x, f);
  }

  /** If every term lies between 0 and `top`, the sum lies between 0 and `top` times the length. */
  lemma {:induction false} SumBounds<T>(xs: seq<T>, f: T -> int, top: nat)
    requires forall i :: 0 <= i < |xs| ==> 0 <= f(xs[i]) <= top
    ensures 0 <= Sum(xs, f) <= |xs| * top
  {
    if xs != [] {
      forall i | 0 <= i < |xs[1..]| ensures 0 <= f(xs[1..][i]) <= top {
        assert xs[1..][i] == xs[i + 1];
      }
      SumBounds(xs[1..], f, top);
      assert |xs| * top == top + |xs[1..]| * top;
    }
  }

  lemma {:induction false} SumZero<T>(xs: seq<T>, f: T -> int)
    requires forall i :: 0 <= i < |xs| ==> f(xs[i]) == 0
    ensures Sum(xs, f) == 0
  {
    SumBounds(xs, f, 0);
  }

  lemma {:induction false} SumOnes<T>(xs: seq<T>, f: T -> int)
    requires forall i :: 0 <= i < |xs| ==> f(xs[i]) == 1
    ensures Sum(xs, f) == |xs|
  {
    if xs != [] {
      SumOnes(xs[1..], f);
    }
  }

  /** Like SumBounds, but leaving out one term. */
  lemma SumBoundsExcept<T>(xs: seq<T>, i: nat, f: T -> int, top: nat)
    requires i < |xs|
    requires forall j :: 0 <= j < |xs| ==> 0 <= f(xs[j]) <= top
    ensures f(xs[i]) <= Sum(xs, f) <= f(xs[i]) + (|xs| - 1) * top
  {
    SumSplit(xs, i, f);
    var before, after := xs[..i], xs[i + 1..];
    SumBounds(before, f, top);
    SumBounds(after, f, top);
    Distribute(|before|, |after|, top);
  }

  lemma Distribute(a: nat, b: nat, c: nat)
    ensures (a + b) * c == a * c + b * c
  {}
}
