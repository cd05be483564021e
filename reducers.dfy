/**
  The four summary statistics the aggregator applies to each group:
  `np.mean`, `np.min`, `np.max` and `np.sum`, over exact reals.
*/
module Reducers {

  import opened Seqs

  datatype Stat = Mean | Min | Max | Sum

  /** The name a statistic is stored under. */
  function StatName(s: Stat): string
  {
    match s
    case Mean => "mean"
    case Min => "min"
    case Max => "max"
    case Sum => "sum"
  }

  function Total(s: seq<real>): real
  {
    if s == [] then 0.0 else s[0] + Total(s[1..])
  }

  function Minimum(s: seq<real>): (m: real)
    requires |s| > 0
    ensures m in s
    ensures forall i :: 0 <= i < |s| ==> m <= s[i]
  {
    if |s| == 1 then s[0]
    else
      var rest := Minimum(s[1..]);
      if s[0] <= rest then s[0] else rest
  }

  function Maximum(s: seq<real>): (m: real)
    requires |s| > 0
    ensures m in s
    ensures forall i :: 0 <= i < |s| ==> s[i] <= m
  {
    if |s| == 1 then s[0]
    else
      var rest := Maximum(s[1..]);
      if s[0] >= rest then s[0] else rest
  }

  function Average(s: seq<real>): real
    requires |s| > 0
  {
    Total(s) / (|s| as real)
  }

  /**
    A group is never empty, so every statistic is defined on it. The
    minimum and the maximum are values of the group bounding all the others,
    and the mean lies between them.
  */
  function Reduce(stat: Stat, s: seq<real>): (r: real)
    requires |s| > 0
    ensures stat == Min || stat == Max ==> r in s
    ensures forall i :: 0 <= i < |s| ==> (stat == Min ==> r <= s[i]) && (stat == Max ==> s[i] <= r)
    ensures stat == Mean ==> Minimum(s) <= r <= Maximum(s)
  {
    match stat
    case Mean => AverageBetween(s); Average(s)
    case Min => Minimum(s)
    case Max => Maximum(s)
    case Sum => Total(s)
  }

  lemma {:induction false} TotalAppend(a: seq<real>, b: seq<real>)
    ensures Total(a + b) == Total(a) + Total(b)
  {
    if a == [] {
      assert a + b == b;
    } else {
      assert (a + b)[1..] == a[1..] + b;
      TotalAppend(a[1..], b);
    }
  }

  /** The total does not depend on the order of the values. */
  lemma {:induction false} TotalPermutation(a: seq<real>, b: seq<real>)
    requires multiset(a) == multiset(b)
    ensures Total(a) == Total(b)
    decreases |a|
  {
    if a == [] {
      assert |b| == |multiset(b)| == 0;
    } else {
      var i := RemoveFirst(a, b);
      TotalPermutation(a[1..], b[..i] + b[i + 1..]);
      assert b == b[..i] + [b[i]] + b[i + 1..];
      TotalAppend(b[..i] + [b[i]], b[i + 1..]);
      TotalAppend(b[..i], [b[i]]);
      TotalAppend(b[..i], b[i + 1..]);
    }
  }

  lemma {:induction false} TotalBounds(s: seq<real>, lo: real, hi: real)
    requires forall i :: 0 <= i < |s| ==> lo <= s[i] <= hi
    ensures lo * (|s| as real) <= Total(s) <= hi * (|s| as real)
  {
    if s != [] {
      TotalBounds(s[1..], lo, hi);
    }
  }

  lemma QuotientBounds(t: real, n: real, lo: real, hi: real)
    requires n > 0.0 && lo * n <= t <= hi * n
    ensures lo <= t / n <= hi
  {
  }

  /** The mean of a group lies between its minimum and its maximum. */
  lemma {:induction false} AverageBetween(s: seq<real>)
    requires |s| > 0
    ensures Minimum(s) <= Average(s) <= Maximum(s)
  {
    AverageWithin(s, Minimum(s), Maximum(s));
  }

  /** Values that all lie between two bounds have their mean between them too. */
  lemma AverageWithin(s: seq<real>, lo: real, hi: real)
    requires |s| > 0
    requires forall i :: 0 <= i < |s| ==> lo <= s[i] <= hi
    ensures lo <= Average(s) <= hi
  {
    TotalBounds(s, lo, hi);
    QuotientBounds(Total(s), |s| as real, lo, hi);
  }

  /** Every statistic depends only on the multiset of values, never on their order. */
  lemma ReducePermutation(stat: Stat, a: seq<real>, b: seq<real>)
    requires multiset(a) == multiset(b) && |a| > 0
    ensures |b| > 0 && Reduce(stat, a) == Reduce(stat, b)
  {
    assert |b| == |multiset(b)| == |multiset(a)| == |a|;
    TotalPermutation(a, b);
    assert Minimum(a) in multiset(b) && Minimum(b) in multiset(a);
    assert Maximum(a) in multiset(b) && Maximum(b) in multiset(a);
  }

}
