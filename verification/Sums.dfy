/** Sums over a sequence of threads: what one thread's change does to the total. */
module Sums {

  ghost function Sum<T>(xs: seq<T>, f: T -> int): int {
    if xs == [] then 0 else f(xs[0]) + Sum(xs[1..], f)
  }

  lemma {:induction false} SumUpdate<T>(xs: seq<T>, i: nat, x: T, f: T -> int)
    requires i < |xs|
    ensures Sum(xs[i := x], f) == Sum(xs, f) - f(xs[i]) + f(x)
  {
    if i > 0 {
      assert xs[i := x][1..] == xs[1..][i - 1 := x];
      SumUpdate(xs[1..], i - 1, x, f);
    } else {
      assert xs[i := x][1..] == xs[1..];
    }
  }

  lemma {:induction false} SumNonNegative<T>(xs: seq<T>, f: T -> int)
    requires forall x :: f(x) >= 0
    ensures Sum(xs, f) >= 0
  {
    if xs != [] { SumNonNegative(xs[1..], f); }
  }

  lemma {:induction false} SumAtLeast<T>(xs: seq<T>, i: nat, f: T -> int)
    requires i < |xs| && forall x :: f(x) >= 0
    ensures Sum(xs, f) >= f(xs[i])
  {
    if i == 0 { SumNonNegative(xs[1..], f); } else { SumAtLeast(xs[1..], i - 1, f); }
  }

  lemma {:induction false} SumAtLeastTwo<T>(xs: seq<T>, i: nat, j: nat, f: T -> int)
    requires i < j < |xs| && forall x :: f(x) >= 0
    ensures Sum(xs, f) >= f(xs[i]) + f(xs[j])
  {
    if i == 0 { SumAtLeast(xs[1..], j - 1, f); } else { SumAtLeastTwo(xs[1..], i - 1, j - 1, f); }
  }

  lemma {:induction false} SumAllZero<T>(xs: seq<T>, f: T -> int)
    requires forall x :: x in xs ==> f(x) == 0
    ensures Sum(xs, f) == 0
  {
    if xs != [] {
      assert forall x :: x in xs[1..] ==> x in xs;
      SumAllZero(xs[1..], f);
    }
  }

  lemma {:induction false} SumOnlyOne<T>(xs: seq<T>, i: nat, f: T -> int)
    requires i < |xs| && forall j :: 0 <= j < |xs| && j != i ==> f(xs[j]) == 0
    ensures Sum(xs, f) == f(xs[i])
  {
    if i == 0 {
      forall x | x in xs[1..] ensures f(x) == 0 {
        var j :| 0 <= j < |xs| - 1 && xs[1..][j] == x;
        assert xs[j + 1] == x;
      }
      SumAllZero(xs[1..], f);
    } else {
      assert f(xs[0]) == 0;
      SumOnlyOne(xs[1..], i - 1, f);
    }
  }
}
