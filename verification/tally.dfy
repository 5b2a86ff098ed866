/** Sums of a weight over a list of goroutines, and how one step changes them. */
module Tally {

  function Total<T>(ts: seq<T>, w: T -> nat): nat {
    if ts == [] then 0 else Total(ts[..|ts| - 1], w) + w(ts[|ts| - 1])
  }

  lemma {:induction false} TotalUpdate<T>(ts: seq<T>, w: T -> nat, i: nat, x: T)
    requires i < |ts|
    ensures Total(ts[i := x], w) + w(ts[i]) == Total(ts, w) + w(x)
  {
    var n := |ts| - 1;
    if i == n {
      assert ts[i := x][..n] == ts[..n];
    } else {
      TotalUpdate(ts[..n], w, i, x);
      assert ts[i := x][..n] == ts[..n][i := x];
    }
  }

  lemma {:induction false} TotalAppend<T>(ts: seq<T>, w: T -> nat, more: seq<T>)
    ensures Total(ts + more, w) == Total(ts, w) + Total(more, w)
  {
    if more == [] {
      assert ts + more == ts;
    } else {
      var m := |more| - 1;
      assert (ts + more)[..|ts| + m] == ts + more[..m];
      TotalAppend(ts, w, more[..m]);
    }
  }

  /** One goroutine's step: `ts[i]` becomes `x` and `more` goroutines are started. */
  lemma TotalStep<T>(ts: seq<T>, w: T -> nat, i: nat, x: T, more: seq<T>)
    requires i < |ts|
    ensures Total(ts[i := x] + more, w) + w(ts[i]) == Total(ts, w) + w(x) + Total(more, w)
  {
    TotalAppend(ts[i := x], w, more);
    TotalUpdate(ts, w, i, x);
  }

  lemma {:induction false} TotalBound<T>(ts: seq<T>, w: T -> nat, i: nat)
    requires i < |ts|
    ensures w(ts[i]) <= Total(ts, w)
  {
    var n := |ts| - 1;
    if i < n {
      TotalBound(ts[..n], w, i);
    }
  }

  lemma {:induction false} TotalBoundTwo<T>(ts: seq<T>, w: T -> nat, i: nat, j: nat)
    requires i < j < |ts|
    ensures w(ts[i]) + w(ts[j]) <= Total(ts, w)
  {
    var n := |ts| - 1;
    if j < n {
      TotalBoundTwo(ts[..n], w, i, j);
    } else {
      TotalBound(ts[..n], w, i);
    }
  }

  lemma {:induction false} TotalZero<T>(ts: seq<T>, w: T -> nat)
    requires forall x <- ts :: w(x) == 0
    ensures Total(ts, w) == 0
  {
    if ts != [] {
      TotalZero(ts[..|ts| - 1], w);
    }
  }

  lemma {:induction false} TotalPositive<T>(ts: seq<T>, w: T -> nat) returns (i: nat)
    requires Total(ts, w) > 0
    ensures i < |ts| && w(ts[i]) > 0
  {
    var n := |ts| - 1;
    if w(ts[n]) > 0 {
      i := n;
    } else {
      i := TotalPositive(ts[..n], w);
    }
  }
}
