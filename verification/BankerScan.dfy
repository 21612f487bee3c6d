/** The safety test as the program runs it: passes over the processes in index order.  For
    which allocations it finds a safe order whenever there is one, and what runs of requests
    keep. */
module BankerScan {
  import opened Common
  import opened BankerSafety

  /** The order of finishing after a look at process k. */
  ghost function Visit(s: State, order: seq<nat>, k: nat): (order': seq<nat>)
    requires WellFormed(s) && IsOrder(order, |s.max|) && k < |s.max|
    ensures IsOrder(order', |s.max|) && order <= order'
  {
    if k !in order && CanFinish(s, order, k) then order + [k] else order
  }

  /** The order of finishing after a pass over the processes from k on. */
  ghost function Pass(s: State, order: seq<nat>, k: nat): (order': seq<nat>)
    requires WellFormed(s) && IsOrder(order, |s.max|) && k <= |s.max|
    ensures IsOrder(order', |s.max|) && order <= order'
    decreases |s.max| - k
  {
    if k == |s.max| then order else Pass(s, Visit(s, order, k), k + 1)
  }

  /** The orders of finishing during a pass, before each look and at the end. */
  ghost predicate IsTrace(s: State, trace: seq<seq<nat>>)
    requires WellFormed(s)
  {
    && |trace| == |s.max| + 1
    && (forall k :: 0 <= k < |trace| ==> IsOrder(trace[k], |s.max|))
    && forall k :: 0 <= k < |s.max| ==> trace[k + 1] == Visit(s, trace[k], k)
  }

  lemma PassTrace(s: State, order: seq<nat>) returns (trace: seq<seq<nat>>)
    requires WellFormed(s) && IsOrder(order, |s.max|)
    ensures IsTrace(s, trace) && trace[0] == order && trace[|s.max|] == Pass(s, order, 0)
  {
    trace := [order];
    for k := 0 to |s.max|
      invariant |trace| == k + 1 && trace[0] == order && forall l :: 0 <= l <= k ==> IsOrder(trace[l], |s.max|)
      invariant forall l :: 0 <= l < k ==> trace[l + 1] == Visit(s, trace[l], l)
      invariant Pass(s, trace[k], k) == Pass(s, order, 0)
    {
      trace := trace + [Visit(s, trace[k], k)];
    }
  }

  lemma {:induction false} TraceIsPass(s: State, trace: seq<seq<nat>>, k: nat)
    requires WellFormed(s) && IsTrace(s, trace) && k <= |s.max|
    ensures Pass(s, trace[k], k) == trace[|s.max|]
    decreases |s.max| - k
  {
    if k < |s.max| {
      TraceIsPass(s, trace, k + 1);
    }
  }

  lemma OrderFits(order: seq<nat>, processes: nat)
    requires IsOrder(order, processes)
    ensures |order| <= processes
  {
    DistinctSize(order);
    SubsetSize(Elements(order), Range(processes));
  }

  /** The order of finishing after passes until one finds nobody. */
  ghost function Scan(s: State, order: seq<nat>): (order': seq<nat>)
    requires WellFormed(s) && IsOrder(order, |s.max|)
    ensures IsOrder(order', |s.max|)
    ensures Pass(s, order', 0) == order'
    decreases |s.max| - |order|
  {
    var next := Pass(s, order, 0);
    OrderFits(next, |s.max|);
    if next == order then order else Scan(s, next)
  }

  /** The answer of the safety test. */
  ghost predicate Accepts(s: State)
    requires WellFormed(s)
  {
    |Scan(s, [])| == |s.max|
  }

  // ----- the answer yes is always right

  lemma VisitFinishes(s: State, order: seq<nat>, k: nat)
    requires WellFormed(s) && Finishes(s, order) && k < |s.max|
    ensures Finishes(s, Visit(s, order, k))
  {
    if k !in order && CanFinish(s, order, k) {
      FinishOneMore(s, order, k);
    }
  }

  /** A pass only lets processes finish that can. */
  lemma {:induction false} PassFinishes(s: State, order: seq<nat>, k: nat, order': seq<nat>)
    requires WellFormed(s) && Finishes(s, order) && k <= |s.max| && order' == Pass(s, order, k)
    ensures Finishes(s, order')
    decreases |s.max| - k
  {
    if k < |s.max| {
      VisitFinishes(s, order, k);
      PassFinishes(s, Visit(s, order, k), k + 1, order');
    } else {
      assert order' == order;
    }
  }

  lemma {:induction false} ScanFinishes(s: State, order: seq<nat>)
    requires WellFormed(s) && Finishes(s, order)
    ensures Finishes(s, Scan(s, order))
    decreases |s.max| - |order|
  {
    var next := Pass(s, order, 0);
    PassFinishes(s, order, 0, next);
    OrderFits(next, |s.max|);
    if next != order {
      ScanFinishes(s, next);
    }
  }

  lemma AcceptedIsSafe(s: State)
    requires WellFormed(s) && Accepts(s)
    ensures IsSafeSequence(s, Scan(s, []))
  {
    ScanFinishes(s, []);
  }

  // ----- the answer no

  /** A pass that finds nobody has seen that nobody can finish. */
  lemma {:induction false} PassSeesAll(s: State, order: seq<nat>, k: nat, i: nat)
    requires WellFormed(s) && IsOrder(order, |s.max|) && k <= i < |s.max|
    requires Pass(s, order, k) == order && i !in order
    ensures !CanFinish(s, order, i)
    decreases |s.max| - k
  {
    var next := Visit(s, order, k);
    assert Pass(s, order, k) == Pass(s, next, k + 1);
    assert next == order;
    if k < i {
      PassSeesAll(s, order, k + 1, i);
    }
  }

  lemma ScanIsStuck(s: State)
    requires WellFormed(s) && !Accepts(s)
    ensures Stuck(s, Scan(s, []))
  {
    var order := Scan(s, []);
    OrderFits(order, |s.max|);
    forall i: nat | i < |s.max| && i !in order ensures !CanFinish(s, order, i) {
      PassSeesAll(s, order, 0, i);
    }
  }

  ghost predicate RowZero(row: seq<int>) {
    forall j :: 0 <= j < |row| ==> row[j] == 0
  }

  /** The allocations with which the scan order does not matter: nothing negative is held, except
      perhaps by the last process, and then only the first may hold anything besides. */
  ghost predicate OrderFree(allocation: Matrix) {
    var last := |allocation| - 1;
    && (forall i :: 0 <= i < last ==> RowNonNegative(allocation[i]))
    && (last >= 0 ==> RowNonNegative(allocation[last]) || forall i :: 0 < i < last ==> RowZero(allocation[i]))
  }

  /** When the last process finished, at position p, nobody else could have. */
  ghost predicate LastResort(s: State, order: seq<nat>, p: nat)
    requires WellFormed(s) && IsOrder(order, |s.max|)
  {
    && p < |order| && order[p] == |s.max| - 1
    && forall i: nat :: i < |s.max| - 1 && i !in order[..p] ==> !CanFinish(s, order[..p], i)
  }

  ghost predicate LastAfterOthers(s: State, order: seq<nat>)
    requires WellFormed(s) && IsOrder(order, |s.max|) && 0 < |s.max|
  {
    |s.max| - 1 in order ==> exists p: nat :: LastResort(s, order, p)
  }

  /** The processes before k that are still waiting cannot finish. */
  ghost predicate PassedBy(s: State, order: seq<nat>, k: nat)
    requires WellFormed(s) && IsOrder(order, |s.max|) && k <= |s.max|
  {
    forall i: nat :: i < k && i !in order ==> !CanFinish(s, order, i)
  }

  lemma FinishKeepsLast(s: State, order: seq<nat>, k: nat)
    requires WellFormed(s) && IsOrder(order, |s.max|) && k < |s.max| && k !in order
    requires forall i :: 0 < i < |s.max| - 1 ==> RowZero(s.allocation[i])
    requires LastAfterOthers(s, order) && (|s.max| - 1 in order || PassedBy(s, order, k))
    ensures LastAfterOthers(s, order + [k])
    ensures |s.max| - 1 in order + [k] || PassedBy(s, order + [k], k + 1)
  {
    var order', last := order + [k], |s.max| - 1;
    if last in order {
      var p: nat :| LastResort(s, order, p);
      assert order'[..p] == order[..p];
      assert LastResort(s, order', p);
    } else if k == last {
      assert order'[..|order|] == order;
      assert LastResort(s, order', |order|);
    } else {
      forall i: nat | i < k + 1 && i !in order' ensures !CanFinish(s, order', i) {
        assert i !in order && i < k && RowZero(s.allocation[k]);
        forall j | 0 <= j < |s.available| ensures WorkAt(s, order', j) == WorkAt(s, order, j) {
          WorkAfter(s, order, k, j);
        }
      }
      assert last !in order';
    }
  }

  lemma {:induction false} PassKeepsLast(s: State, order: seq<nat>, k: nat)
    requires WellFormed(s) && IsOrder(order, |s.max|) && k <= |s.max| && 0 < |s.max|
    requires forall i :: 0 < i < |s.max| - 1 ==> RowZero(s.allocation[i])
    requires LastAfterOthers(s, order) && (|s.max| - 1 in order || PassedBy(s, order, k))
    ensures LastAfterOthers(s, Pass(s, order, k))
    decreases |s.max| - k
  {
    if k < |s.max| {
      if Visit(s, order, k) != order {
        FinishKeepsLast(s, order, k);
      }
      PassKeepsLast(s, Visit(s, order, k), k + 1);
    }
  }

  lemma {:induction false} ScanKeepsLast(s: State, order: seq<nat>)
    requires WellFormed(s) && IsOrder(order, |s.max|) && 0 < |s.max|
    requires forall i :: 0 < i < |s.max| - 1 ==> RowZero(s.allocation[i])
    requires LastAfterOthers(s, order)
    ensures LastAfterOthers(s, Scan(s, order))
    decreases |s.max| - |order|
  {
    var next := Pass(s, order, 0);
    PassKeepsLast(s, order, 0);
    OrderFits(next, |s.max|);
    if next != order {
      ScanKeepsLast(s, next);
    }
  }

  /** If the last process ran when nobody else could, it precedes everyone still waiting in
      every safe sequence. */
  lemma LastResortComesFirst(s: State, order: seq<nat>, p: nat, other: seq<nat>, k: nat)
    requires WellFormed(s) && IsOrder(order, |s.max|) && LastResort(s, order, p) && IsSafeSequence(s, other)
    requires forall i :: 0 <= i < |s.max| - 1 ==> RowNonNegative(s.allocation[i])
    requires k < |other| && other[k] !in order && forall i: nat :: i in other[..k] ==> i in order
    ensures |s.max| - 1 in other[..k]
  {
    var last, before := |s.max| - 1, order[..p];
    assert last !in before && other[k] !in before;
    OrderFits(order, |s.max|);
    var m := FirstOutside(s, other, before);
    assert last !in other[..m];
    if other[m] != last {
      CanFinishLater(s, other[..m], before, other[m]);
      assert false;
    }
    assert order[p] in order;
    forall i | 0 <= i < m ensures other[i] in before {
      assert other[..m][i] == other[i];
    }
    assert other[..k][m] == last;
  }

  lemma OrderFreeIsExact(s: State)
    requires WellFormed(s) && OrderFree(s.allocation)
    ensures Accepts(s) <==> Safe(s)
  {
    if Accepts(s) {
      AcceptedIsSafe(s);
    } else {
      var order, last := Scan(s, []), |s.max| - 1;
      ScanIsStuck(s);
      if RowNonNegative(s.allocation[last]) {
        StuckIsUnsafe(s, order);
      } else {
        ScanKeepsLast(s, []);
        forall other | IsSafeSequence(s, other) ensures false {
          StuckBehindLast(s, order, other);
        }
      }
    }
  }

  lemma StuckBehindLast(s: State, order: seq<nat>, other: seq<nat>)
    requires WellFormed(s) && IsOrder(order, |s.max|) && 0 < |s.max| && LastAfterOthers(s, order)
    requires forall i :: 0 <= i < |s.max| - 1 ==> RowNonNegative(s.allocation[i])
    requires Stuck(s, order)
    ensures !IsSafeSequence(s, other)
  {
    if IsSafeSequence(s, other) {
      var k := FirstOutside(s, other, order);
      if |s.max| - 1 in order {
        var p: nat :| LastResort(s, order, p);
        LastResortComesFirst(s, order, p, other, k);
      }
      CanFinishLater(s, other[..k], order, other[k]);
    }
  }

  // ----- requests

  /** The requests that the program grants. */
  ghost predicate Grants(s: State, p: nat, request: seq<int>)
    requires IsRequest(s, p, request)
  {
    AtMost(request, s.need[p]) && AtMost(request, s.available) && Accepts(Grant(s, p, request))
  }

  /** They are safe to grant, and all that are if the scan order does not matter. */
  lemma GrantsSafely(s: State, p: nat, request: seq<int>)
    requires IsRequest(s, p, request)
    ensures Grants(s, p, request) ==> Grantable(s, p, request)
    ensures OrderFree(Grant(s, p, request).allocation) ==> (Grants(s, p, request) <==> Grantable(s, p, request))
  {
    var s' := Grant(s, p, request);
    if Accepts(s') {
      AcceptedIsSafe(s');
    }
    if OrderFree(s'.allocation) {
      OrderFreeIsExact(s');
    }
  }

  /** What a request does to the banker; a denied one changes nothing. */
  ghost predicate Step(s: State, p: nat, request: seq<int>, s': State) {
    IsRequest(s, p, request) && s' == if Grants(s, p, request) then Grant(s, p, request) else s
  }

  ghost predicate IsRun(states: seq<State>, requests: seq<(nat, seq<int>)>) {
    && |states| == |requests| + 1
    && forall t :: 0 <= t < |requests| ==> Step(states[t], requests[t].0, requests[t].1, states[t + 1])
  }

  /** Whatever is requested, be it negative, a safe system stays safe, nothing is lost or
      created, and allocation and need stay the two parts of the claim. */
  lemma {:induction false} RunStaysSafe(states: seq<State>, requests: seq<(nat, seq<int>)>, t: nat)
    requires IsRun(states, requests) && t <= |requests|
    requires Consistent(states[0]) && Safe(states[0])
    ensures Consistent(states[t]) && Safe(states[t])
    ensures states[t].max == states[0].max && |states[t].available| == |states[0].available|
    ensures forall j :: 0 <= j < |states[0].available| ==>
              Total(states[t], j, |states[t].max|) == Total(states[0], j, |states[0].max|)
  {
    if t > 0 {
      RunStaysSafe(states, requests, t - 1);
      var s, p, request := states[t - 1], requests[t - 1].0, requests[t - 1].1;
      assert Step(s, p, request, states[t]);
      GrantsSafely(s, p, request);
      if Grants(s, p, request) {
        forall j | 0 <= j < |s.available| ensures Total(states[t], j, |s.max|) == Total(s, j, |s.max|) {
          GrantKeepsTotal(s, p, request, j, |s.max|);
        }
      }
    }
  }

  lemma GrantStaysWithinBounds(s: State, p: nat, request: seq<int>)
    requires IsRequest(s, p, request) && WithinBounds(s) && RowNonNegative(request)
    ensures NonNegative(Grant(s, p, request).allocation)
    ensures Grants(s, p, request) ==> WithinBounds(Grant(s, p, request))
  {
    var s' := Grant(s, p, request);
    forall i | 0 <= i < |s.max| ensures RowNonNegative(s'.allocation[i]) {
      assert RowNonNegative(s.allocation[i]);
    }
    if Grants(s, p, request) {
      forall i | 0 <= i < |s.max| ensures RowNonNegative(s'.need[i]) {
        assert RowNonNegative(s.need[i]);
      }
    }
  }

  /** If nobody asks for less than nothing, nobody ever holds less than nothing or more than
      its claim, and no more is handed out than there is. */
  lemma {:induction false} RunStaysWithinBounds(states: seq<State>, requests: seq<(nat, seq<int>)>, t: nat)
    requires IsRun(states, requests) && t <= |requests|
    requires forall k :: 0 <= k < |requests| ==> RowNonNegative(requests[k].1)
    requires WellFormed(states[0]) && WithinBounds(states[0])
    ensures WellFormed(states[t]) && WithinBounds(states[t])
  {
    if t > 0 {
      RunStaysWithinBounds(states, requests, t - 1);
      var s, p, request := states[t - 1], requests[t - 1].0, requests[t - 1].1;
      assert Step(s, p, request, states[t]);
      GrantStaysWithinBounds(s, p, request);
    }
  }

  /** In such a run exactly the requests are granted that are safe to grant. */
  lemma RunGrantsAllSafe(states: seq<State>, requests: seq<(nat, seq<int>)>, t: nat)
    requires IsRun(states, requests) && t < |requests|
    requires forall k :: 0 <= k < |requests| ==> RowNonNegative(requests[k].1)
    requires WellFormed(states[0]) && WithinBounds(states[0])
    ensures var s, p, request := states[t], requests[t].0, requests[t].1;
            IsRequest(s, p, request) && (Grants(s, p, request) <==> Grantable(s, p, request))
  {
    var s, p, request := states[t], requests[t].0, requests[t].1;
    RunStaysWithinBounds(states, requests, t);
    assert Step(s, p, request, states[t + 1]);
    GrantStaysWithinBounds(s, p, request);
    GrantsSafely(s, p, request);
  }
}
