/** Sums of weights over lists, independent of the order of the list. */
module Sums {

  function Sum<T>(xs: seq<T>, w: T -> int): int {
    if xs == [] then 0 else Sum(xs[..|xs| - 1], w) + w(xs[|xs| - 1])
  }

  lemma {:induction false} SumConcat<T>(xs: seq<T>, ys: seq<T>, w: T -> int)
    ensures Sum(xs + ys, w) == Sum(xs, w) + Sum(ys, w)
    decreases |ys|
  {
    if ys == [] {
      assert xs + ys == xs;
    } else {
      var last := |ys| - 1;
      assert (xs + ys)[..|xs| + last] == xs + ys[..last];
      SumConcat(xs, ys[..last], w);
    }
  }

  lemma SumTake<T>(xs: seq<T>, i: nat, w: T -> int)
    requires i < |xs|
    ensures Sum(xs[..i + 1], w) == Sum(xs[..i], w) + w(xs[i])
  {
    assert xs[..i + 1][..i] == xs[..i];
  }

  lemma SumSplit<T>(xs: seq<T>, i: nat, w: T -> int)
    requires i <= |xs|
    ensures Sum(xs, w) == Sum(xs[..i], w) + Sum(xs[i..], w)
  {
    assert xs == xs[..i] + xs[i..];
    SumConcat(xs[..i], xs[i..], w);
  }

  lemma SumSingle<T>(x: T, w: T -> int)
    ensures Sum([x], w) == w(x)
  {
    assert [x][..0] == [];
    assert Sum([x][..0], w) == 0;
  }

  lemma SumPick<T>(xs: seq<T>, i: nat, w: T -> int)
    requires i < |xs|
    ensures Sum(xs, w) == Sum(xs[..i], w) + w(xs[i]) + Sum(xs[i + 1..], w)
    ensures Sum(xs, w) == w(xs[i]) + Sum(xs[..i] + xs[i + 1..], w)
  {
    SumSplit(xs, i + 1, w);
    SumTake(xs, i, w);
    SumConcat(xs[..i], xs[i + 1..], w);
  }

  /** The order of the list does not matter. */
  lemma {:induction false} SumPermutation<T>(xs: seq<T>, ys: seq<T>, w: T -> int)
    requires multiset(xs) == multiset(ys)
    ensures Sum(xs, w) == Sum(ys, w)
    decreases |xs|
  {
    if xs == [] {
      assert |ys| == |multiset(ys)| == 0;
    } else {
      var n := |xs| - 1;
      var x := xs[n];
      assert xs == xs[..n] + [x];
      assert x in multiset(ys);
      var j :| 0 <= j < |ys| && ys[j] == x;
      var rest := ys[..j] + ys[j + 1..];
      assert ys == ys[..j] + [x] + ys[j + 1..];
      assert multiset(rest) == multiset(ys) - multiset{x};
      assert multiset(xs[..n]) == multiset(xs) - multiset{x};
      SumPermutation(xs[..n], rest, w);
      SumPick(ys, j, w);
    }
  }

  lemma {:induction false} SumNonNegative<T>(xs: seq<T>, w: T -> int)
    requires forall i :: 0 <= i < |xs| ==> w(xs[i]) >= 0
    ensures Sum(xs, w) >= 0
  {
    if xs != [] { SumNonNegative(xs[..|xs| - 1], w); }
  }

  lemma SumAtLeastOne<T>(xs: seq<T>, x: T, w: T -> int)
    requires x in xs && forall i :: 0 <= i < |xs| ==> w(xs[i]) >= 0
    ensures Sum(xs, w) >= w(x)
  {
    var i :| 0 <= i < |xs| && xs[i] == x;
    SumPick(xs, i, w);
    SumNonNegative(xs[..i] + xs[i + 1..], w);
  }

  lemma SumAtLeastTwo<T>(xs: seq<T>, x: T, y: T, w: T -> int)
    requires x in xs && y in xs && x != y && forall i :: 0 <= i < |xs| ==> w(xs[i]) >= 0
    ensures Sum(xs, w) >= w(x) + w(y)
  {
    var i :| 0 <= i < |xs| && xs[i] == x;
    var j :| 0 <= j < |xs| && xs[j] == y;
    var rest := xs[..i] + xs[i + 1..];
    SumPick(xs, i, w);
    assert rest[if j < i then j else j - 1] == y;
    SumAtLeastOne(rest, y, w);
  }

  lemma {:induction false} SumZero<T>(xs: seq<T>, w: T -> int)
    requires forall i :: 0 <= i < |xs| ==> w(xs[i]) == 0
    ensures Sum(xs, w) == 0
  {
    if xs != [] { SumZero(xs[..|xs| - 1], w); }
  }

  lemma {:induction false} SumSame<T>(xs: seq<T>, w: T -> int, v: T -> int)
    requires forall i :: 0 <= i < |xs| ==> w(xs[i]) == v(xs[i])
    ensures Sum(xs, w) == Sum(xs, v)
  {
    if xs != [] { SumSame(xs[..|xs| - 1], w, v); }
  }

  /** At least one unit per element. */
  lemma {:induction false} SumAtLeastLength<T>(xs: seq<T>, w: T -> int)
    requires forall i :: 0 <= i < |xs| ==> w(xs[i]) >= 1
    ensures Sum(xs, w) >= |xs|
  {
    if xs != [] { SumAtLeastLength(xs[..|xs| - 1], w); }
  }

  lemma {:induction false} SumAtMost<T>(xs: seq<T>, w: T -> int, bound: nat)
    requires forall i :: 0 <= i < |xs| ==> w(xs[i]) <= bound
    ensures Sum(xs, w) <= bound * |xs|
  {
    if xs != [] {
      SumAtMost(xs[..|xs| - 1], w, bound);
      assert bound * |xs| == bound * (|xs| - 1) + bound;
    }
  }

  lemma SumUpdate<T>(xs: seq<T>, i: nat, x: T, w: T -> int)
    requires i < |xs|
    ensures Sum(xs[i := x], w) == Sum(xs, w) - w(xs[i]) + w(x)
  {
    SumPick(xs, i, w);
    SumPick(xs[i := x], i, w);
    assert xs[i := x][..i] == xs[..i] && xs[i := x][i + 1..] == xs[i + 1..];
  }
}
