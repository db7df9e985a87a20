/** Sums of natural weights over sequences. */
module Totals {
  function Total<T>(xs: seq<T>, weight: T -> nat): nat {
    if xs == [] then 0 else Total(xs[..|xs| - 1], weight) + weight(xs[|xs| - 1])
  }

  lemma TotalAppend<T>(xs: seq<T>, x: T, weight: T -> nat)
    ensures Total(xs + [x], weight) == Total(xs, weight) + weight(x)
  {
    assert (xs + [x])[..|xs|] == xs;
  }

  lemma {:induction false} TotalUpdate<T>(xs: seq<T>, i: nat, x: T, weight: T -> nat)
    requires i < |xs|
    ensures Total(xs[i := x], weight) + weight(xs[i]) == Total(xs, weight) + weight(x)
  {
    var n := |xs| - 1;
    if i == n {
      assert xs[i := x][..n] == xs[..n];
    } else {
      assert xs[i := x][..n] == xs[..n][i := x];
      TotalUpdate(xs[..n], i, x, weight);
    }
  }

  /** Element by element no heavier, in all no heavier. */
  lemma {:induction false} TotalAtMost<T>(xs: seq<T>, v: T -> nat, ys: seq<T>, w: T -> nat)
    requires |xs| == |ys|
    requires forall i :: 0 <= i < |xs| ==> v(xs[i]) <= w(ys[i])
    ensures Total(xs, v) <= Total(ys, w)
  {
    if xs != [] {
      TotalAtMost(xs[..|xs| - 1], v, ys[..|ys| - 1], w);
    }
  }

  lemma {:induction false} TotalSuffix<T>(xs: seq<T>, m: nat, weight: T -> nat)
    requires m <= |xs|
    ensures Total(xs[m..], weight) <= Total(xs, weight)
  {
    if m < |xs| {
      assert xs[m..][..|xs[m..]| - 1] == xs[..|xs| - 1][m..];
      TotalSuffix(xs[..|xs| - 1], m, weight);
    }
  }

  lemma {:induction false} TotalPrefix<T>(xs: seq<T>, m: nat, weight: T -> nat)
    requires m <= |xs|
    ensures Total(xs[..m], weight) <= Total(xs, weight)
  {
    if m < |xs| {
      assert xs[..|xs| - 1][..m] == xs[..m];
      TotalPrefix(xs[..|xs| - 1], m, weight);
    } else {
      assert xs[..m] == xs;
    }
  }

  lemma {:induction false} TotalZero<T>(xs: seq<T>, weight: T -> nat)
    requires forall x :: x in xs ==> weight(x) == 0
    ensures Total(xs, weight) == 0
  {
    if xs != [] {
      TotalZero(xs[..|xs| - 1], weight);
    }
  }

  /** One element heavier and none lighter, in all heavier. */
  lemma {:induction false} TotalRaise<T>(xs: seq<T>, i: nat, v: T -> nat, w: T -> nat)
    requires i < |xs| && v(xs[i]) < w(xs[i])
    requires forall k :: 0 <= k < |xs| ==> v(xs[k]) <= w(xs[k])
    ensures Total(xs, v) < Total(xs, w)
  {
    var n := |xs| - 1;
    if i == n {
      TotalAtMost(xs[..n], v, xs[..n], w);
    } else {
      TotalRaise(xs[..n], i, v, w);
    }
  }

  // ---------- Counting ----------

  function Indicator<T>(p: T -> bool): T -> nat {
    x => if p(x) then 1 else 0
  }

  function Count<T>(xs: seq<T>, p: T -> bool): nat {
    Total(xs, Indicator(p))
  }

  lemma CountAppend<T>(xs: seq<T>, x: T, p: T -> bool)
    ensures Count(xs + [x], p) == Count(xs, p) + if p(x) then 1 else 0
  {
    TotalAppend(xs, x, Indicator(p));
  }

  lemma CountAtMost<T>(xs: seq<T>, p: T -> bool, q: T -> bool)
    requires forall x :: x in xs && p(x) ==> q(x)
    ensures Count(xs, p) <= Count(xs, q)
  {
    TotalAtMost(xs, Indicator(p), xs, Indicator(q));
  }

  /** What is of one of two kinds is no more than both kinds together. */
  lemma {:induction false} CountSplit<T>(xs: seq<T>, p: T -> bool, q: T -> bool, r: T -> bool)
    requires forall x :: x in xs && r(x) ==> p(x) || q(x)
    ensures Count(xs, r) <= Count(xs, p) + Count(xs, q)
  {
    if xs != [] {
      CountSplit(xs[..|xs| - 1], p, q, r);
    }
  }

  /** An element of `q` alone beside those of `p`. */
  lemma CountMore<T>(xs: seq<T>, x: T, p: T -> bool, q: T -> bool)
    requires x in xs && q(x) && !p(x)
    requires forall y :: y in xs && p(y) ==> q(y)
    ensures Count(xs, p) < Count(xs, q)
  {
    var i :| 0 <= i < |xs| && xs[i] == x;
    TotalRaise(xs, i, Indicator(p), Indicator(q));
  }
}
