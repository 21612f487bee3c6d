/** For every allocation with which the scan order matters, a safe state that the safety test
    refuses; so the condition under which the test is exact is itself exact. */
module BankerTrap {
  import opened Common
  import opened BankerSafety
  import opened BankerScan

  /** The processes before n except two. */
  function Skip(n: nat, i: nat, q: nat): (order: seq<nat>)
    ensures IsOrder(order, n)
  {
    if n == 0 then [] else Skip(n - 1, i, q) + if n - 1 == i || n - 1 == q then [] else [n - 1]
  }

  lemma {:induction false} InSkip(n: nat, i: nat, q: nat, r: nat)
    ensures r in Skip(n, i, q) <==> r < n && r != i && r != q
  {
    if n > 0 {
      InSkip(n - 1, i, q, r);
    }
  }

  lemma SkipOne(k: nat, i: nat, q: nat)
    requires 0 < k
    ensures k - 1 == i || k - 1 == q ==> Skip(k, i, q) == Skip(k - 1, i, q)
    ensures k - 1 != i && k - 1 != q ==> Skip(k, i, q) == Skip(k - 1, i, q) + [k - 1]
  {
  }

  /** How much of resource j the processes before n hold, except two. */
  function SumBut(allocation: Matrix, j: nat, n: nat, i: nat, q: nat): int
    requires n <= |allocation| && forall r :: 0 <= r < n ==> j < |allocation[r]|
  {
    if n == 0 then 0
    else SumBut(allocation, j, n - 1, i, q) + if n - 1 == i || n - 1 == q then 0 else allocation[n - 1][j]
  }

  lemma {:induction false} WorkOfSkip(s: State, n: nat, i: nat, q: nat, j: nat, order: seq<nat>)
    requires WellFormed(s) && n <= |s.max| && j < |s.available|
    requires order == Skip(n, i, q) && IsOrder(order, |s.max|)
    ensures WorkAt(s, order, j) == s.available[j] + SumBut(s.allocation, j, n, i, q)
  {
    if n > 0 {
      var before := Skip(n - 1, i, q);
      WorkOfSkip(s, n - 1, i, q, j, before);
      SkipOne(n, i, q);
      if n - 1 == i || n - 1 == q {
        assert order == before;
      } else {
        WorkAfter(s, before, n - 1, j);
        assert order == before + [n - 1];
      }
    }
  }

  /** What process i holds makes the difference between the work q waits for and what it gets. */
  lemma {:induction false} SpoilerLowersWork(allocation: Matrix, j: nat, n: nat, i: nat, q: nat)
    requires n <= |allocation| && i != q && forall r :: 0 <= r < n ==> j < |allocation[r]|
    ensures SumBut(allocation, j, n, q, q) == SumBut(allocation, j, n, i, q) + if i < n then allocation[i][j] else 0
  {
    if n > 0 {
      SpoilerLowersWork(allocation, j, n - 1, i, q);
    }
  }

  /** Everybody but q can finish at any time. */
  ghost predicate Easy(s: State, q: nat)
    requires WellFormed(s)
  {
    forall r: nat, order :: r < |s.max| && r != q && IsOrder(order, |s.max|) ==> CanFinish(s, order, r)
  }

  /** Nobody but q needs anything; q needs exactly what the others without i would leave. */
  ghost predicate Trap(s: State, i: nat, q: nat)
    requires WellFormed(s) && i < |s.max| && q < |s.max|
  {
    && Easy(s, q)
    && forall j :: 0 <= j < |s.available| ==>
         s.available[j] == 0 && s.need[q][j] == SumBut(s.allocation, j, |s.max|, i, q)
  }

  // ----- setting it

  lemma LeastEntry(allocation: Matrix) returns (low: int)
    ensures low <= 0
    ensures forall i, j :: 0 <= i < |allocation| && 0 <= j < |allocation[i]| ==> low <= allocation[i][j]
  {
    low := 0;
    for i := 0 to |allocation|
      invariant low <= 0
      invariant forall k, j :: 0 <= k < i && 0 <= j < |allocation[k]| ==> low <= allocation[k][j]
    {
      for j := 0 to |allocation[i]|
        invariant low <= 0
        invariant forall k, l :: 0 <= k < i && 0 <= l < |allocation[k]| ==> low <= allocation[k][l]
        invariant forall l :: 0 <= l < j ==> low <= allocation[i][l]
      {
        low := Min(low, allocation[i][j]);
      }
    }
  }

  lemma {:induction false} WorkAboveFloor(s: State, order: seq<nat>, low: int, j: nat)
    requires WellFormed(s) && IsOrder(order, |s.max|) && j < |s.available| && 0 <= s.available[j]
    requires forall i :: 0 <= i < |s.allocation| ==> low <= s.allocation[i][j]
    ensures |order| * low <= WorkAt(s, order, j)
  {
    if order != [] {
      WorkAboveFloor(s, order[..|order| - 1], low, j);
      assert |order| * low == (|order| - 1) * low + low;
    }
  }

  /** Nothing is available and everybody but q needs `low`. */
  function TrapState(allocation: Matrix, resources: nat, q: nat, claim: seq<int>, low: int): (s: State)
    requires Rectangular(allocation, |allocation|, resources) && q < |allocation| && |claim| == resources
    ensures Consistent(s) && s.allocation == allocation && |s.available| == resources && |s.max| == |allocation|
    ensures forall j :: 0 <= j < resources ==> s.available[j] == 0 && s.need[q][j] == claim[j]
    ensures forall r, j :: 0 <= r < |allocation| && r != q && 0 <= j < resources ==> s.need[r][j] == low
  {
    var need := seq(|allocation|, r requires 0 <= r < |allocation| => if r == q then claim else seq(resources, _ => low));
    var max := seq(|allocation|, r requires 0 <= r < |allocation| => Plus(allocation[r], need[r]));
    State(seq(resources, _ => 0), allocation, need, max)
  }

  lemma LowNeedsFinish(s: State, low: int, r: nat, order: seq<nat>)
    requires WellFormed(s) && low <= 0 && r < |s.max| && IsOrder(order, |s.max|)
    requires forall j :: 0 <= j < |s.available| ==> s.available[j] == 0 && s.need[r][j] == |s.max| * low
    requires forall i, j :: 0 <= i < |s.allocation| && 0 <= j < |s.available| ==> low <= s.allocation[i][j]
    ensures CanFinish(s, order, r)
  {
    OrderFits(order, |s.max|);
    assert |s.max| * low <= |order| * low;
    forall j | 0 <= j < |s.available| ensures s.need[r][j] <= WorkAt(s, order, j) {
      WorkAboveFloor(s, order, low, j);
    }
  }

  lemma MakeTrap(allocation: Matrix, resources: nat, i: nat, q: nat) returns (s: State)
    requires Rectangular(allocation, |allocation|, resources) && i < |allocation| && q < |allocation|
    ensures Consistent(s) && s.allocation == allocation && |s.available| == resources && |s.max| == |allocation|
    ensures Trap(s, i, q)
  {
    var n := |allocation|;
    var low := LeastEntry(allocation);
    var claim := seq(resources, j requires 0 <= j < resources => SumBut(allocation, j, n, i, q));
    s := TrapState(allocation, resources, q, claim, n * low);
    forall r: nat, order: seq<nat> | r < n && r != q && IsOrder(order, n) ensures CanFinish(s, order, r) {
      LowNeedsFinish(s, low, r, order);
    }
  }

  // ----- the trapped state is safe

  lemma SkipFinishes(s: State, i: nat, q: nat)
    requires WellFormed(s) && Easy(s, q)
    ensures Finishes(s, Skip(|s.max|, i, q))
  {
    var order := Skip(|s.max|, i, q);
    forall k | 0 <= k < |order| ensures CanFinish(s, order[..k], order[k]) {
      InSkip(|s.max|, i, q, order[k]);
      assert IsOrder(order[..k], |s.max|);
    }
  }

  lemma NeedIsMet(s: State, i: nat, q: nat)
    requires WellFormed(s) && i < |s.max| && q < |s.max| && Trap(s, i, q)
    ensures CanFinish(s, Skip(|s.max|, i, q), q)
  {
    forall j | 0 <= j < |s.available| ensures s.need[q][j] <= WorkAt(s, Skip(|s.max|, i, q), j) {
      WorkOfSkip(s, |s.max|, i, q, j, Skip(|s.max|, i, q));
    }
  }

  lemma NobodyLeft(n: nat, i: nat, q: nat)
    ensures forall r: nat :: r < n ==> r in Skip(n, i, q) + [q] + [i]
  {
    forall r: nat | r < n ensures r in Skip(n, i, q) + [q] + [i] {
      InSkip(n, i, q, r);
    }
  }

  lemma FinishLastTwo(s: State, order: seq<nat>, i: nat, q: nat)
    requires WellFormed(s) && i < |s.max| && q < |s.max| && i != q && Easy(s, q)
    requires Finishes(s, order) && i !in order && q !in order && CanFinish(s, order, q)
    ensures Finishes(s, order + [q] + [i])
  {
    FinishOneMore(s, order, q);
    FinishOneMore(s, order + [q], i);
  }

  lemma TrapIsSafe(s: State, i: nat, q: nat)
    requires WellFormed(s) && i < |s.max| && q < |s.max| && i != q && Trap(s, i, q)
    ensures Safe(s)
  {
    var order := Skip(|s.max|, i, q);
    SkipFinishes(s, i, q);
    NeedIsMet(s, i, q);
    InSkip(|s.max|, i, q, q);
    InSkip(|s.max|, i, q, i);
    FinishLastTwo(s, order, i, q);
    NobodyLeft(|s.max|, i, q);
    EverybodyIsSafe(s, order + [q] + [i]);
  }

  lemma EverybodyIsSafe(s: State, order: seq<nat>)
    requires WellFormed(s) && Finishes(s, order) && forall r: nat :: r < |s.max| ==> r in order
    ensures Safe(s)
  {
    OrderFits(order, |s.max|);
    if |order| < |s.max| {
      OrderMissesOne(order, |s.max|);
    }
    assert IsSafeSequence(s, order);
  }

  // ----- and the scan walks into it

  /** Process q cannot finish right after those before it. */
  ghost predicate Blocked(s: State, q: nat)
    requires WellFormed(s) && q < |s.max|
  {
    IsOrder(Skip(q, q, q), |s.max|) && !CanFinish(s, Skip(q, q, q), q)
  }

  lemma TrapVisit(s: State, q: nat, k: nat, order: seq<nat>)
    requires WellFormed(s) && q < |s.max| && Easy(s, q) && Blocked(s, q) && k < |s.max|
    requires order == Skip(k, q, q) && IsOrder(order, |s.max|)
    ensures Visit(s, order, k) == Skip(k + 1, q, q)
  {
    SkipOne(k + 1, q, q);
    if k != q {
      InSkip(k, q, q, k);
      assert CanFinish(s, order, k);
    }
  }

  /** Everybody but q finishes in index order if q cannot finish when its turn comes. */
  lemma TrapPass(s: State, q: nat)
    requires WellFormed(s) && q < |s.max| && Easy(s, q) && Blocked(s, q)
    ensures Pass(s, [], 0) == Skip(|s.max|, q, q)
  {
    var trace: seq<seq<nat>> := seq(|s.max| + 1, k requires 0 <= k => Skip(k, q, q));
    forall k | 0 <= k < |s.max| ensures trace[k + 1] == Visit(s, trace[k], k) {
      TrapVisit(s, q, k, trace[k]);
    }
    TraceIsPass(s, trace, 0);
    assert trace[0] == [];
  }

  /** After that nothing changes if q can still not finish. */
  lemma RestPass(s: State, q: nat, rest: seq<nat>)
    requires WellFormed(s) && q < |s.max| && rest == Skip(|s.max|, q, q) && !CanFinish(s, rest, q)
    ensures Pass(s, rest, 0) == rest
  {
    var trace := seq(|s.max| + 1, _ => rest);
    forall k | 0 <= k < |s.max| ensures trace[k + 1] == Visit(s, trace[k], k) {
      InSkip(|s.max|, q, q, k);
    }
    TraceIsPass(s, trace, 0);
  }

  /** Even after everybody else finished, what process i took with it is missing. */
  lemma TrapHolds(s: State, i: nat, q: nat, j: nat, rest: seq<nat>)
    requires WellFormed(s) && i < |s.max| && q < |s.max| && i != q && Trap(s, i, q)
    requires j < |s.available| && s.allocation[i][j] < 0 && rest == Skip(|s.max|, q, q)
    ensures !CanFinish(s, rest, q)
  {
    SpoilerLowersWork(s.allocation, j, |s.max|, i, q);
    WorkOfSkip(s, |s.max|, q, q, j, rest);
    assert WorkAt(s, rest, j) < s.need[q][j];
  }

  lemma TrapIsRefused(s: State, i: nat, q: nat, j: nat)
    requires WellFormed(s) && i < |s.max| && q < |s.max| && i != q && Trap(s, i, q)
    requires j < |s.available| && s.allocation[i][j] < 0
    requires q == |s.max| - 1 || Blocked(s, q)
    ensures !Accepts(s)
  {
    var rest := Skip(|s.max|, q, q);
    TrapHolds(s, i, q, j, rest);
    if q == |s.max| - 1 {
      LastIsBlocked(s, q);
    }
    ScanStops(s, q, rest);
  }

  lemma LastIsBlocked(s: State, q: nat)
    requires WellFormed(s) && q == |s.max| - 1 && !CanFinish(s, Skip(|s.max|, q, q), q)
    ensures Blocked(s, q)
  {
    SkipOne(|s.max|, q, q);
  }

  lemma ScanStops(s: State, q: nat, rest: seq<nat>)
    requires WellFormed(s) && q < |s.max| && Easy(s, q) && Blocked(s, q)
    requires rest == Skip(|s.max|, q, q) && !CanFinish(s, rest, q)
    ensures !Accepts(s)
  {
    TrapPass(s, q);
    RestPass(s, q, rest);
    ScanEnds(s, rest);
    InSkip(|s.max|, q, q, q);
    OrderFits(rest, |s.max|);
    RoomForOne(rest, |s.max|, q);
  }

  lemma ScanEnds(s: State, rest: seq<nat>)
    requires WellFormed(s) && IsOrder(rest, |s.max|)
    requires Pass(s, [], 0) == rest && Pass(s, rest, 0) == rest
    ensures Scan(s, []) == rest
  {
    assert Scan(s, rest) == rest;
  }

  // ----- which allocations allow a trap

  /** A process that holds something negative, before the last one. */
  lemma EarlySpoiler(allocation: Matrix, resources: nat, i: nat, j: nat) returns (s: State)
    requires Rectangular(allocation, |allocation|, resources) && i < |allocation| - 1 && j < resources
    requires allocation[i][j] < 0
    ensures Consistent(s) && s.allocation == allocation && Safe(s) && !Accepts(s)
  {
    var q := |allocation| - 1;
    s := MakeTrap(allocation, resources, i, q);
    TrapIsSafe(s, i, q);
    TrapIsRefused(s, i, q, j);
  }

  /** Only the last process does, but somebody between the first and the last holds something:
      it finishes, then the last one spoils the work before the first is asked again. */
  lemma LateSpoiler(allocation: Matrix, resources: nat, j: nat, r: nat, c: nat) returns (s: State)
    requires Rectangular(allocation, |allocation|, resources) && j < resources && c < resources
    requires forall k :: 0 <= k < |allocation| - 1 ==> RowNonNegative(allocation[k])
    requires 0 < r < |allocation| - 1 && 0 < allocation[r][c] && allocation[|allocation| - 1][j] < 0
    ensures Consistent(s) && s.allocation == allocation && Safe(s) && !Accepts(s)
  {
    var i := |allocation| - 1;
    s := MakeTrap(allocation, resources, i, 0);
    TrapIsSafe(s, i, 0);
    SumAtLeastOne(allocation, c, |allocation|, r);
    assert WorkAt(s, [], c) == 0 && Skip(0, 0, 0) == [];
    assert Blocked(s, 0);
    TrapIsRefused(s, i, 0, j);
  }

  lemma {:induction false} SumAtLeastOne(allocation: Matrix, j: nat, n: nat, r: nat)
    requires n <= |allocation| && forall k :: 0 <= k < |allocation| ==> j < |allocation[k]|
    requires forall k :: 0 <= k < |allocation| - 1 ==> RowNonNegative(allocation[k])
    requires 0 < r < |allocation| - 1
    ensures SumBut(allocation, j, n, |allocation| - 1, 0) >= if r < n then allocation[r][j] else 0
  {
    if n > 0 {
      SumAtLeastOne(allocation, j, n - 1, r);
    }
  }

  /** The test never refuses a safe state with this allocation, whatever is needed and available. */
  ghost predicate IsExactFor(allocation: Matrix, resources: nat) {
    forall s :: WellFormed(s) && s.allocation == allocation && |s.available| == resources ==> (Accepts(s) <==> Safe(s))
  }

  /** For which allocations the safety test is exact. */
  lemma ExactIffOrderFree(allocation: Matrix, resources: nat)
    requires Rectangular(allocation, |allocation|, resources)
    ensures IsExactFor(allocation, resources) <==> OrderFree(allocation)
  {
    var last := |allocation| - 1;
    if OrderFree(allocation) {
      forall s | WellFormed(s) && s.allocation == allocation && |s.available| == resources
        ensures Accepts(s) <==> Safe(s)
      {
        OrderFreeIsExact(s);
      }
    } else if i :| 0 <= i < last && !RowNonNegative(allocation[i]) {
      var j :| 0 <= j < resources && allocation[i][j] < 0;
      var s := EarlySpoiler(allocation, resources, i, j);
    } else {
      var j :| 0 <= j < resources && allocation[last][j] < 0;
      var r :| 0 < r < last && !RowZero(allocation[r]);
      var c :| 0 <= c < resources && allocation[r][c] != 0;
      var s := LateSpoiler(allocation, resources, j, r, c);
    }
  }
}
