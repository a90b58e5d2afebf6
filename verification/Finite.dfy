/** Counting arguments over finite sets and sequences. */
module Finite {

  ghost function Below(n: int): (s: set<int>)
    ensures forall i :: i in s <==> 0 <= i < n
    ensures n >= 0 ==> |s| == n
    decreases n
  {
    if n <= 0 then {} else Below(n - 1) + {n - 1}
  }

  ghost predicate Distinct<T>(xs: seq<T>) {
    forall i, j :: 0 <= i < j < |xs| ==> xs[i] != xs[j]
  }

  ghost function Elements<T>(xs: seq<T>): set<T> {
    set x | x in xs
  }

  /** `ys` is what stands in `xs` at the places `at`, in order. */
  ghost predicate Picks<T>(xs: seq<T>, at: seq<int>, ys: seq<T>) {
    && |at| == |ys|
    && (forall i, j {:trigger at[i], at[j]} :: 0 <= i < j < |at| ==> at[i] < at[j])
    && (forall i {:trigger at[i]} :: 0 <= i < |at| ==> 0 <= at[i] < |xs| && ys[i] == xs[at[i]])
  }

  lemma {:induction false} DistinctSize<T>(xs: seq<T>)
    requires Distinct(xs)
    ensures |Elements(xs)| == |xs|
  {
    if |xs| > 0 {
      var ys, y := xs[..|xs| - 1], xs[|xs| - 1];
      DistinctSize(ys);
      assert xs == ys + [y];
      assert Elements(xs) == Elements(ys) + {y};
      assert y !in ys;
    }
  }

  lemma SubsetSize<T>(a: set<T>, b: set<T>)
    requires a <= b
    ensures |a| <= |b|
    ensures |a| == |b| ==> a == b
  {
    var rest := b - a;
    assert b == a + rest;
    if |a| == |b| {
      assert |rest| == 0;
    }
  }

  /** Distinct numbers below `n` are at most `n`, and `n` of them are all. */
  lemma Pigeonhole(xs: seq<int>, n: int)
    requires n >= 0 && Distinct(xs)
    requires forall i :: 0 <= i < |xs| ==> 0 <= xs[i] < n
    ensures |xs| <= n
    ensures |xs| == n ==> Elements(xs) == Below(n)
  {
    DistinctSize(xs);
    SubsetSize(Elements(xs), Below(n));
  }
}
