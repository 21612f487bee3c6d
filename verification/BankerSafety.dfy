/** The banker's algorithm on values: safe states, requests, and runs of requests. */
module BankerSafety {
  import opened Common
  import opened Sums

  /** One row per process, one column per resource. */
  type Matrix = seq<seq<int>>

  datatype State = State(available: seq<int>, allocation: Matrix, need: Matrix, max: Matrix)

  ghost predicate Rectangular(m: Matrix, processes: nat, resources: nat) {
    |m| == processes && forall i :: 0 <= i < |m| ==> |m[i]| == resources
  }

  ghost predicate WellFormed(s: State) {
    && Rectangular(s.allocation, |s.max|, |s.available|)
    && Rectangular(s.need, |s.max|, |s.available|)
    && Rectangular(s.max, |s.max|, |s.available|)
  }

  ghost predicate RowNonNegative(row: seq<int>) {
    forall j :: 0 <= j < |row| ==> 0 <= row[j]
  }

  ghost predicate NonNegative(m: Matrix) {
    forall i :: 0 <= i < |m| ==> RowNonNegative(m[i])
  }

  // ----- finishing orders

  ghost predicate InRange(order: seq<nat>, processes: nat) {
    forall k :: 0 <= k < |order| ==> order[k] < processes
  }

  /** The amount of resource j on hand once the processes of `order` have finished. */
  function WorkAt(s: State, order: seq<nat>, j: nat): int
    requires WellFormed(s) && j < |s.available|
    requires InRange(order, |s.max|)
  {
    if order == [] then s.available[j]
    else WorkAt(s, order[..|order| - 1], j) + s.allocation[order[|order| - 1]][j]
  }

  ghost predicate CanFinish(s: State, order: seq<nat>, i: nat)
    requires WellFormed(s) && i < |s.max|
    requires InRange(order, |s.max|)
  {
    forall j :: 0 <= j < |s.available| ==> s.need[i][j] <= WorkAt(s, order, j)
  }

  ghost predicate IsOrder(order: seq<nat>, processes: nat) {
    InRange(order, processes) && Distinct(order)
  }

  /** Each process of the order can get all it still needs once its predecessors finished. */
  ghost predicate Finishes(s: State, order: seq<nat>)
    requires WellFormed(s)
  {
    && IsOrder(order, |s.max|)
    && forall k :: 0 <= k < |order| ==> CanFinish(s, order[..k], order[k])
  }

  ghost predicate IsSafeSequence(s: State, order: seq<nat>)
    requires WellFormed(s)
  {
    |order| == |s.max| && Finishes(s, order)
  }

  ghost predicate Safe(s: State)
    requires WellFormed(s)
  {
    exists order :: IsSafeSequence(s, order)
  }

  /** The work on hand: what is available and what the finished processes held. */
  lemma {:induction false} WorkIsSum(s: State, order: seq<nat>, j: nat)
    requires WellFormed(s) && j < |s.available| && InRange(order, |s.max|)
    ensures WorkAt(s, order, j)
         == s.available[j] + Sum(seq(|order|, k requires 0 <= k < |order| => s.allocation[order[k]][j]))
  {
    var held := seq(|order|, k requires 0 <= k < |order| => s.allocation[order[k]][j]);
    if order != [] {
      var m := |order| - 1;
      WorkIsSum(s, order[..m], j);
      assert held[..m] == seq(m, k requires 0 <= k < m => s.allocation[order[..m][k]][j]);
    }
  }

  /** A safe sequence in full: each process once, each with all it needs when its turn comes. */
  lemma SafeSequenceMeans(s: State, order: seq<nat>)
    requires WellFormed(s)
    ensures IsSafeSequence(s, order) <==>
              && |order| == |s.max| && (forall k :: 0 <= k < |order| ==> order[k] < |s.max|)
              && (forall k, l :: 0 <= k < l < |order| ==> order[k] != order[l])
              && forall k, j :: 0 <= k < |order| && 0 <= j < |s.available| ==>
                   s.need[order[k]][j]
                     <= s.available[j] + Sum(seq(k, l requires 0 <= l < k => s.allocation[order[l]][j]))
  {
    assert IsOrder(order, |s.max|) <==>
             && (forall k :: 0 <= k < |order| ==> order[k] < |s.max|)
             && (forall k, l :: 0 <= k < l < |order| ==> order[k] != order[l]);
    if IsOrder(order, |s.max|) {
      forall k | 0 <= k < |order|
        ensures CanFinish(s, order[..k], order[k]) <==> forall j :: 0 <= j < |s.available| ==>
                  s.need[order[k]][j]
                    <= s.available[j] + Sum(seq(k, l requires 0 <= l < k => s.allocation[order[l]][j]))
      {
        forall j | 0 <= j < |s.available|
          ensures WorkAt(s, order[..k], j)
               == s.available[j] + Sum(seq(k, l requires 0 <= l < k => s.allocation[order[l]][j]))
        {
          WorkIsSum(s, order[..k], j);
          assert seq(k, l requires 0 <= l < k => s.allocation[order[..k][l]][j])
              == seq(k, l requires 0 <= l < k => s.allocation[order[l]][j]);
        }
      }
    }
  }

  lemma WorkAfter(s: State, order: seq<nat>, i: nat, j: nat)
    requires WellFormed(s) && i < |s.max| && j < |s.available|
    requires InRange(order, |s.max|)
    ensures WorkAt(s, order + [i], j) == WorkAt(s, order, j) + s.allocation[i][j]
  {
    assert (order + [i])[..|order|] == order;
  }

  lemma {:induction false} WorkWithout(s: State, order: seq<nat>, k: nat, j: nat)
    requires WellFormed(s) && j < |s.available| && k < |order|
    requires InRange(order, |s.max|)
    ensures WorkAt(s, order, j) == WorkAt(s, order[..k] + order[k + 1..], j) + s.allocation[order[k]][j]
  {
    var m := |order| - 1;
    var rest := order[..k] + order[k + 1..];
    if k == m {
      assert rest == order[..m];
    } else {
      WorkWithout(s, order[..m], k, j);
      assert rest[..|rest| - 1] == order[..m][..k] + order[..m][k + 1..];
    }
  }

  /** Dropping one process from both orders keeps one within the other. */
  lemma WithoutStaysWithin(few: seq<nat>, many: seq<nat>, processes: nat, k: nat)
    requires IsOrder(few, processes) && IsOrder(many, processes) && few != [] && k < |many|
    requires many[k] == few[|few| - 1]
    requires forall i: nat :: i in few ==> i in many
    ensures var rest := many[..k] + many[k + 1..];
            IsOrder(rest, processes) && forall i: nat :: i in few[..|few| - 1] ==> i in rest
  {
    var m, rest := |few| - 1, many[..k] + many[k + 1..];
    assert forall b :: 0 <= b < |rest| ==> rest[b] == many[if b < k then b else b + 1];
    forall i: nat | i in few[..m] ensures i in rest {
      assert i in few && i != few[m];
      var b :| 0 <= b < |many| && many[b] == i;
      assert rest[if b < k then b else b - 1] == i;
    }
  }

  /** More finished processes mean more work on hand, as long as the additional ones hold
      nothing negative. */
  lemma {:induction false} WorkMonotone(s: State, few: seq<nat>, many: seq<nat>, j: nat)
    requires WellFormed(s) && j < |s.available|
    requires IsOrder(few, |s.max|) && IsOrder(many, |s.max|)
    requires forall i: nat :: i in few ==> i in many
    requires forall i: nat :: i in many && i !in few ==> 0 <= s.allocation[i][j]
    ensures WorkAt(s, few, j) <= WorkAt(s, many, j)
  {
    if few == [] {
      if many != [] {
        assert many[|many| - 1] in many;
        WorkMonotone(s, few, many[..|many| - 1], j);
      }
    } else {
      var m := |few| - 1;
      assert few[m] in few;
      var k :| 0 <= k < |many| && many[k] == few[m];
      WithoutStaysWithin(few, many, |s.max|, k);
      WorkMonotone(s, few[..m], many[..k] + many[k + 1..], j);
      WorkWithout(s, many, k, j);
    }
  }

  /** Who can finish can still finish after others did that hold nothing negative. */
  lemma CanFinishLater(s: State, few: seq<nat>, many: seq<nat>, i: nat)
    requires WellFormed(s) && i < |s.max|
    requires IsOrder(few, |s.max|) && IsOrder(many, |s.max|)
    requires forall k: nat :: k in few ==> k in many
    requires forall k: nat :: k in many && k !in few ==> RowNonNegative(s.allocation[k])
    requires CanFinish(s, few, i)
    ensures CanFinish(s, many, i)
  {
    forall j | 0 <= j < |s.available| ensures s.need[i][j] <= WorkAt(s, many, j) {
      WorkMonotone(s, few, many, j);
    }
  }

  /** Not everybody finished, and none of the others can. */
  ghost predicate Stuck(s: State, order: seq<nat>)
    requires WellFormed(s)
  {
    && IsOrder(order, |s.max|) && |order| < |s.max|
    && forall i: nat :: i < |s.max| && i !in order ==> !CanFinish(s, order, i)
  }

  /** The greedy scan loses nothing: if it is stuck, no order finishes everybody. */
  lemma StuckIsUnsafe(s: State, order: seq<nat>)
    requires WellFormed(s) && NonNegative(s.allocation) && Stuck(s, order)
    ensures !Safe(s)
  {
    forall other | IsSafeSequence(s, other) ensures false {
      var k := FirstOutside(s, other, order);
      CanFinishLater(s, other[..k], order, other[k]);
    }
  }

  /** The first process of a safe sequence that an incomplete order lacks. */
  lemma FirstOutside(s: State, other: seq<nat>, order: seq<nat>) returns (k: nat)
    requires WellFormed(s) && IsSafeSequence(s, other) && IsOrder(order, |s.max|) && |order| < |s.max|
    ensures k < |other| && other[k] !in order && forall i: nat :: i in other[..k] ==> i in order
  {
    OrderMissesOne(order, |s.max|);
    var missing: nat :| missing < |s.max| && missing !in order;
    FullOrderHasAll(other, |s.max|, missing);
    k := 0;
    while other[k] in order
      invariant k < |other| && forall i: nat :: i in other[..k] ==> i in order
      decreases |other| - k
    {
      assert other[..k + 1] == other[..k] + [other[k]];
      assert exists m :: k < m < |other| && other[m] == missing by {
        var m :| 0 <= m < |other| && other[m] == missing;
        assert missing !in other[..k + 1];
      }
      k := k + 1;
    }
  }

  function Range(n: nat): (r: set<nat>)
    ensures |r| == n && forall k: nat :: k in r <==> k < n
  {
    if n == 0 then {} else Range(n - 1) + {n - 1}
  }

  lemma FullOrderHasAll(order: seq<nat>, processes: nat, i: nat)
    requires IsOrder(order, processes) && |order| == processes && i < processes
    ensures i in order
  {
    DistinctSize(order);
    assert Elements(order) <= Range(processes);
    SubsetSize(Elements(order), Range(processes));
    assert i in Elements(order);
  }

  lemma FinishOneMore(s: State, order: seq<nat>, i: nat)
    requires WellFormed(s) && Finishes(s, order) && i < |s.max| && i !in order && CanFinish(s, order, i)
    ensures Finishes(s, order + [i])
    ensures forall j :: 0 <= j < |s.available| ==> WorkAt(s, order + [i], j) == WorkAt(s, order, j) + s.allocation[i][j]
  {
    var order' := order + [i];
    forall k | 0 <= k < |order'| ensures CanFinish(s, order'[..k], order'[k]) {
      if k < |order| {
        assert order'[..k] == order[..k] && CanFinish(s, order[..k], order[k]);
      } else {
        assert order'[..k] == order;
      }
    }
    forall j | 0 <= j < |s.available|
      ensures WorkAt(s, order', j) == WorkAt(s, order, j) + s.allocation[i][j]
    {
      WorkAfter(s, order, i, j);
    }
  }

  lemma RoomForOne(order: seq<nat>, processes: nat, i: nat)
    requires IsOrder(order, processes) && |order| <= processes && i < processes && i !in order
    ensures |order| < processes
  {
    if |order| == processes {
      FullOrderHasAll(order, processes, i);
      assert false;
    }
  }

  lemma OrderMissesOne(order: seq<nat>, processes: nat)
    requires IsOrder(order, processes) && |order| < processes
    ensures exists i: nat :: i < processes && i !in order
  {
    DistinctSize(order);
    NotCovered(Elements(order), Range(processes));
  }

  lemma NotCovered(a: set<nat>, b: set<nat>)
    requires |a| < |b|
    ensures exists x: nat :: x in b && x !in a
  {
    assert b <= a ==> a == b + (a - b);
  }

  // ----- requests

  function Plus(a: seq<int>, b: seq<int>): seq<int>
    requires |a| == |b|
  {
    seq(|a|, j requires 0 <= j < |a| => a[j] + b[j])
  }

  function Minus(a: seq<int>, b: seq<int>): seq<int>
    requires |a| == |b|
  {
    seq(|a|, j requires 0 <= j < |a| => a[j] - b[j])
  }

  function Negated(a: seq<int>): seq<int> {
    seq(|a|, j requires 0 <= j < |a| => -a[j])
  }

  /** The part of each claim that is not allocated. */
  function Unallocated(s: State): (need: Matrix)
    requires WellFormed(s)
    ensures Rectangular(need, |s.max|, |s.available|)
    ensures forall i, j :: 0 <= i < |s.max| && 0 <= j < |s.available| ==> need[i][j] == s.max[i][j] - s.allocation[i][j]
  {
    seq(|s.max|, i requires 0 <= i < |s.max| => Minus(s.max[i], s.allocation[i]))
  }

  ghost predicate AtMost(a: seq<int>, b: seq<int>)
    requires |a| == |b|
  {
    forall j :: 0 <= j < |a| ==> a[j] <= b[j]
  }

  ghost predicate IsRequest(s: State, p: nat, request: seq<int>) {
    WellFormed(s) && p < |s.max| && |request| == |s.available|
  }

  function Grant(s: State, p: nat, request: seq<int>): (s': State)
    requires IsRequest(s, p, request)
    ensures WellFormed(s') && s'.max == s.max && |s'.available| == |s.available|
  {
    State(Minus(s.available, request),
          s.allocation[p := Plus(s.allocation[p], request)],
          s.need[p := Minus(s.need[p], request)],
          s.max)
  }

  /** Exactly the requests the banker grants. */
  ghost predicate Grantable(s: State, p: nat, request: seq<int>)
    requires IsRequest(s, p, request)
  {
    AtMost(request, s.need[p]) && AtMost(request, s.available) && Safe(Grant(s, p, request))
  }

  /** The whole claim of a process is its allocation and what it still needs. */
  ghost predicate Consistent(s: State) {
    && WellFormed(s)
    && forall i, j :: 0 <= i < |s.max| && 0 <= j < |s.available| ==> s.allocation[i][j] + s.need[i][j] == s.max[i][j]
  }

  /** Nobody holds or still needs less than nothing, and no more is handed out than there is. */
  ghost predicate WithinBounds(s: State) {
    NonNegative(s.allocation) && NonNegative(s.need) && forall j :: 0 <= j < |s.available| ==> 0 <= s.available[j]
  }

  function Total(s: State, j: nat, processes: nat): int
    requires WellFormed(s) && j < |s.available| && processes <= |s.max|
  {
    if processes == 0 then s.available[j] else Total(s, j, processes - 1) + s.allocation[processes - 1][j]
  }

  lemma {:induction false} GrantKeepsTotal(s: State, p: nat, request: seq<int>, j: nat, n: nat)
    requires IsRequest(s, p, request) && j < |s.available| && n <= |s.max|
    ensures Total(Grant(s, p, request), j, n) == Total(s, j, n) - if n <= p then request[j] else 0
  {
    if n > 0 {
      GrantKeepsTotal(s, p, request, j, n - 1);
    }
  }

  // ----- a safe state never blocks: the head of its sequence can always have everything

  lemma {:induction false} GrantHeadKeepsWork(s: State, order: seq<nat>, request: seq<int>, k: nat, j: nat)
    requires WellFormed(s) && IsOrder(order, |s.max|) && k <= |order| && order != [] && j < |s.available|
    requires IsRequest(s, order[0], request)
    ensures WorkAt(Grant(s, order[0], request), order[..k], j)
         == WorkAt(s, order[..k], j) - if k == 0 then request[j] else 0
  {
    if k > 0 {
      GrantHeadKeepsWork(s, order, request, k - 1, j);
      assert order[..k][..k - 1] == order[..k - 1];
    }
  }

  lemma SafeHeadIsGrantable(s: State, order: seq<nat>)
    requires WellFormed(s) && IsSafeSequence(s, order) && order != []
    ensures Grantable(s, order[0], s.need[order[0]])
    ensures IsSafeSequence(Grant(s, order[0], s.need[order[0]]), order)
  {
    var p := order[0];
    var s' := Grant(s, p, s.need[p]);
    assert CanFinish(s, order[..0], p);
    forall k | 0 <= k < |order| ensures CanFinish(s', order[..k], order[k]) {
      forall j | 0 <= j < |s.available| ensures s'.need[order[k]][j] <= WorkAt(s', order[..k], j) {
        GrantHeadKeepsWork(s, order, s.need[p], k, j);
        assert CanFinish(s, order[..k], order[k]);
      }
    }
    assert IsSafeSequence(s', order);
  }
}
