/** Sums over sequences, shared by the scheduling and the thread-counting proofs. */
module Sums {
  function Sum(v: seq<int>): int {
    if v == [] then 0 else Sum(v[..|v| - 1]) + v[|v| - 1]
  }

  lemma {:induction false} SumUpdate(v: seq<int>, i: nat, x: int)
    requires i < |v|
    ensures Sum(v[i := x]) == Sum(v) - v[i] + x
  {
    var m := |v| - 1;
    if i == m {
      assert v[i := x][..m] == v[..m];
    } else {
      assert v[i := x][..m] == v[..m][i := x];
      SumUpdate(v[..m], i, x);
    }
  }

  lemma {:induction false} SumMonotone(a: seq<int>, b: seq<int>)
    requires |a| == |b| && forall i :: 0 <= i < |a| ==> a[i] <= b[i]
    ensures Sum(a) <= Sum(b)
  {
    if a != [] {
      SumMonotone(a[..|a| - 1], b[..|b| - 1]);
    }
  }

  lemma {:induction false} SumStrict(a: seq<int>, b: seq<int>, k: nat)
    requires |a| == |b| && k < |a| && a[k] < b[k] && forall i :: 0 <= i < |a| ==> a[i] <= b[i]
    ensures Sum(a) < Sum(b)
  {
    SumUpdate(b, k, a[k]);
    SumMonotone(a, b[k := a[k]]);
  }

  lemma {:induction false} SumGrowth(a: seq<int>, b: seq<int>)
    requires |a| == |b| && forall i :: 0 <= i < |a| ==> b[i] <= a[i] + 2
    ensures Sum(b) <= Sum(a) + 2 * |a|
  {
    if a != [] {
      SumGrowth(a[..|a| - 1], b[..|b| - 1]);
    }
  }

  lemma {:induction false} SumDifference(a: seq<int>, b: seq<int>, c: seq<int>)
    requires |a| == |b| == |c| && forall i :: 0 <= i < |a| ==> a[i] == b[i] - c[i]
    ensures Sum(a) == Sum(b) - Sum(c)
  {
    if a != [] {
      var m := |a| - 1;
      SumDifference(a[..m], b[..m], c[..m]);
    }
  }

  lemma {:induction false} SumOfZeros(v: seq<int>)
    requires forall i :: 0 <= i < |v| ==> v[i] == 0
    ensures Sum(v) == 0
  {
    if v != [] {
      SumOfZeros(v[..|v| - 1]);
    }
  }

  ghost predicate NonNegative(v: seq<int>) {
    forall i :: 0 <= i < |v| ==> 0 <= v[i]
  }

  lemma {:induction false} SumAtLeast(v: seq<int>, k: nat)
    requires NonNegative(v)
    ensures 0 <= Sum(v) && (k < |v| ==> v[k] <= Sum(v))
  {
    SumMonotone(seq(|v|, _ => 0), v);
    SumOfZeros(seq(|v|, _ => 0));
    if k < |v| {
      SumUpdate(v, k, 0);
      SumMonotone(seq(|v|, _ => 0), v[k := 0]);
    }
  }

  lemma {:induction false} SumPositive(v: seq<int>) returns (k: nat)
    requires Sum(v) > 0
    ensures k < |v| && v[k] > 0
  {
    var m := |v| - 1;
    if v[m] > 0 {
      k := m;
    } else {
      k := SumPositive(v[..m]);
    }
  }
}
