/** The banker as the program runs it: matrices, work and finished arrays updated in
    place, and a request that is tried, tested and rolled back if it is unsafe. */
module Banker {
  import opened Common
  import opened BankerSafety
  import opened BankerScan

  class BankerSystem {
    const processes: nat
    const resources: nat
    const allocation: array2<int>
    const max: array2<int>
    const need: array2<int>
    const available: array<int>
    const safeSequence: array<nat>
    const finished: array<bool>
    ghost var state: State

    ghost predicate Shaped() {
      && allocation.Length0 == max.Length0 == need.Length0 == safeSequence.Length == finished.Length == processes
      && allocation.Length1 == max.Length1 == need.Length1 == available.Length == resources
      && allocation != max && allocation != need && max != need
    }

    ghost predicate Holds(a: array2<int>, m: Matrix)
      reads a
    {
      && Rectangular(m, a.Length0, a.Length1)
      && forall i, j :: 0 <= i < a.Length0 && 0 <= j < a.Length1 ==> a[i, j] == m[i][j]
    }

    /** The ghost state is what the arrays hold. */
    ghost predicate Valid()
      reads this, allocation, max, need, available
    {
      && Shaped()
      && state.available == available[..]
      && Holds(allocation, state.allocation) && Holds(max, state.max) && Holds(need, state.need)
    }

    /** An empty system; the caller then fills in the matrices. */
    constructor (processes: nat, resources: nat)
      ensures Valid() && this.processes == processes && this.resources == resources
      ensures state.available == seq(resources, j => 0)
      ensures state.allocation == state.need == state.max == seq(processes, i => seq(resources, j => 0))
      ensures fresh(allocation) && fresh(max) && fresh(need) && fresh(available) && fresh(safeSequence) && fresh(finished)
    {
      var zero := seq(processes, i => seq(resources, j => 0));
      this.processes := processes;
      this.resources := resources;
      this.allocation := new int[processes, resources]((i, j) => 0);
      this.max := new int[processes, resources]((i, j) => 0);
      this.need := new int[processes, resources]((i, j) => 0);
      this.available := new int[resources](_ => 0);
      this.safeSequence := new nat[processes](_ => 0);
      this.finished := new bool[processes](_ => false);
      this.state := State(seq(resources, j => 0), zero, zero, zero);
      new;
      assert available[..] == state.available;
    }

    /** Makes need the part of each claim that is not allocated. */
    method CalNeed()
      requires Valid()
      modifies this`state, need
      ensures Valid() && Consistent(state)
      ensures state == old(state).(need := state.need)
      ensures forall i, j :: 0 <= i < processes && 0 <= j < resources ==> need[i, j] == max[i, j] - allocation[i, j]
    {
      ghost var rows: Matrix := Unallocated(state);
      for i := 0 to processes
        modifies need
        invariant forall k, j :: 0 <= k < i && 0 <= j < resources ==> need[k, j] == rows[k][j]
      {
        for j := 0 to resources
          modifies need
          invariant forall k, l :: 0 <= k < i && 0 <= l < resources ==> need[k, l] == rows[k][l]
          invariant forall l :: 0 <= l < j ==> need[i, l] == rows[i][l]
        {
          need[i, j] := max[i, j] - allocation[i, j];
        }
      }
      state := state.(need := rows);
    }

    method CanAllocateResources(process: nat, work: array<int>) returns (can: bool)
      requires Valid() && process < processes && work.Length == resources
      ensures can <==> forall j :: 0 <= j < resources ==> state.need[process][j] <= work[j]
    {
      for j := 0 to resources
        invariant forall l :: 0 <= l < j ==> state.need[process][l] <= work[l]
      {
        if need[process, j] > work[j] {
          return false;
        }
      }
      return true;
    }

    /** The variables of the scan: who finished, in which order, and the work that frees. */
    ghost predicate Scanning(work: array<int>, order: seq<nat>)
      requires Valid()
      reads this, allocation, max, need, available, work, safeSequence, finished
    {
      && work.Length == resources && |order| <= processes
      && Finishes(state, order)
      && (forall k :: 0 <= k < |order| ==> safeSequence[k] == order[k])
      && (forall i: nat :: i < processes ==> (finished[i] <==> i in order))
      && (forall j :: 0 <= j < resources ==> work[j] == WorkAt(state, order, j))
    }

    /** Safety test: if true, safeSequence lets every process finish in that order; if the scan
        order does not matter for the allocation, it is true whenever any order does. */
    method IsSafe() returns (safe: bool)
      requires Valid()
      modifies safeSequence, finished
      ensures Valid()
      ensures safe <==> Accepts(state)
      ensures safe ==> safeSequence[..] == Scan(state, []) && IsSafeSequence(state, safeSequence[..])
      ensures OrderFree(state.allocation) ==> (safe <==> Safe(state))
    {
      var work, completed := new int[resources], 0;
      for j := 0 to resources
        invariant forall l :: 0 <= l < j ==> work[l] == available[l]
      {
        work[j] := available[j];
      }
      for i := 0 to processes
        modifies finished
        invariant forall k :: 0 <= k < i ==> !finished[k]
      {
        finished[i] := false;
      }
      ghost var order: seq<nat> := [];
      while completed < processes
        invariant Valid() && completed == |order| && Scanning(work, order)
        invariant Scan(state, order) == Scan(state, [])
        decreases processes - completed
      {
        var found;
        found, completed, order := ScanOnce(completed, work, order);
        if !found {
          if OrderFree(state.allocation) {
            OrderFreeIsExact(state);
          }
          return false;
        }
      }
      FullScan(state, order);
      assert safeSequence[..] == order && IsSafeSequence(state, order);
      return true;
    }

    /** One pass over all processes, in index order. */
    method ScanOnce(completed: nat, work: array<int>, ghost order: seq<nat>)
      returns (found: bool, completed': nat, ghost order': seq<nat>)
      requires Valid() && Scanning(work, order) && completed == |order| && work != available
      modifies safeSequence, finished, work
      ensures Valid() && Scanning(work, order') && completed' == |order'|
      ensures order' == Pass(state, order, 0) && (found <==> completed < completed')
    {
      ghost var trace := PassTrace(state, order);
      found, completed', order' := false, completed, order;
      for i := 0 to processes
        invariant Valid() && Scanning(work, order') && completed' == |order'|
        invariant order' == trace[i]
        invariant completed <= completed' && (found <==> completed < completed')
      {
        var finishes;
        finishes, completed' := VisitProcess(i, completed', work, order');
        order' := trace[i + 1];
        if finishes {
          found := true;
        }
      }
    }

    /** Lets process i finish if it has not and can. */
    method VisitProcess(i: nat, completed: nat, work: array<int>, ghost order: seq<nat>)
      returns (finishes: bool, completed': nat)
      requires Valid() && Scanning(work, order) && completed == |order| && work != available && i < processes
      modifies safeSequence, finished, work
      ensures Valid() && Scanning(work, Visit(state, order, i)) && completed' == |Visit(state, order, i)|
      ensures completed' == if finishes then completed + 1 else completed
    {
      finishes := false;
      if !finished[i] {
        finishes := CanAllocateResources(i, work);
        assert finishes <==> CanFinish(state, order, i);
        if finishes {
          RoomForOne(order, processes, i);
          FinishProcess(i, completed, work, order);
        }
      }
      completed' := if finishes then completed + 1 else completed;
    }

    /** Grants the request if it is within the process's need, available, and leaves a
        system that passes the safety test; otherwise every matrix is exactly as before. */
    method RequestResources(process: nat, request: array<int>) returns (granted: bool)
      requires Valid() && process < processes && request.Length == resources
      requires request != available
      modifies this`state, available, allocation, need, safeSequence, finished
      ensures Valid()
      ensures Step(old(state), process, request[..], state)
      ensures granted ==> forall j :: 0 <= j < resources ==>
                && request[j] <= old(need[process, j]) && request[j] <= old(available[j])
                && available[j] == old(available[j]) - request[j]
                && allocation[process, j] == old(allocation[process, j]) + request[j]
                && need[process, j] == old(need[process, j]) - request[j]
      ensures forall i, j :: 0 <= i < processes && 0 <= j < resources && (i != process || !granted) ==>
                allocation[i, j] == old(allocation[i, j]) && need[i, j] == old(need[i, j])
      ensures granted || available[..] == old(available[..])
      ensures granted <==> Grants(old(state), process, request[..])
      ensures granted ==> IsSafeSequence(state, safeSequence[..])
    {
      for j := 0 to resources
        invariant forall l :: 0 <= l < j ==> request[l] <= need[process, l] && request[l] <= available[l]
      {
        if request[j] > need[process, j] {
          return false;
        }
        if request[j] > available[j] {
          return false;
        }
      }
      Take(process, request);
      var safe := IsSafe();
      if safe {
        return true;
      }
      GiveBack(process, request);
      RollbackRestores(old(state), process, request[..]);
      return false;
    }

    /** The tentative allocation. */
    method Take(process: nat, request: array<int>)
      requires Valid() && process < processes && request.Length == resources && request != available
      modifies this`state, available, allocation, need
      ensures Valid() && state == Grant(old(state), process, request[..])
    {
      ghost var s, after := state, Grant(state, process, request[..]);
      for j := 0 to resources
        invariant forall l :: 0 <= l < resources ==> available[l] == if l < j then after.available[l] else s.available[l]
        invariant HoldsRow(allocation, s.allocation, process, after.allocation[process], j)
        invariant HoldsRow(need, s.need, process, after.need[process], j)
      {
        available[j] := available[j] - request[j];
        allocation[process, j] := allocation[process, j] + request[j];
        need[process, j] := need[process, j] - request[j];
      }
      state := after;
    }

    /** Its rollback. */
    method GiveBack(process: nat, request: array<int>)
      requires Valid() && process < processes && request.Length == resources && request != available
      modifies this`state, available, allocation, need
      ensures Valid() && state == Grant(old(state), process, Negated(request[..]))
    {
      ghost var s, after := state, Grant(state, process, Negated(request[..]));
      for j := 0 to resources
        invariant forall l :: 0 <= l < resources ==> available[l] == if l < j then after.available[l] else s.available[l]
        invariant HoldsRow(allocation, s.allocation, process, after.allocation[process], j)
        invariant HoldsRow(need, s.need, process, after.need[process], j)
      {
        available[j] := available[j] + request[j];
        allocation[process, j] := allocation[process, j] - request[j];
        need[process, j] := need[process, j] + request[j];
      }
      state := after;
    }

    /** The matrix with the first j entries of row p replaced. */
    ghost predicate HoldsRow(a: array2<int>, m: Matrix, p: nat, row: seq<int>, j: nat)
      requires Rectangular(m, a.Length0, a.Length1) && |row| == a.Length1
      reads a
    {
      forall k, l :: 0 <= k < a.Length0 && 0 <= l < a.Length1 ==>
        a[k, l] == if k == p && l < j then row[l] else m[k][l]
    }

    /** Appends process i to the safe sequence and hands back what it holds. */
    method FinishProcess(i: nat, completed: nat, work: array<int>, ghost order: seq<nat>)
      requires Valid() && Scanning(work, order) && completed == |order| < processes
      requires i < processes && i !in order && CanFinish(state, order, i)
      requires work != available
      modifies safeSequence, finished, work
      ensures Valid() && Scanning(work, order + [i])
    {
      FinishOneMore(state, order, i);
      safeSequence[completed] := i;
      AddAllocation(i, work);
      finished[i] := true;
    }

    method AddAllocation(i: nat, work: array<int>)
      requires Valid() && i < processes && work.Length == resources && work != available
      modifies work
      ensures forall l :: 0 <= l < resources ==> work[l] == old(work[l]) + state.allocation[i][l]
    {
      for j := 0 to resources
        modifies work
        invariant forall l :: j <= l < resources ==> work[l] == old(work[l])
        invariant forall l :: 0 <= l < j ==> work[l] == old(work[l]) + state.allocation[i][l]
      {
        work[j] := work[j] + allocation[i, j];
      }
    }
  }

  /** Nobody is left to be found. */
  lemma FullScan(s: State, order: seq<nat>)
    requires WellFormed(s) && IsOrder(order, |s.max|) && |order| == |s.max|
    ensures Scan(s, order) == order
  {
    OrderFits(Pass(s, order, 0), |s.max|);
  }

  lemma RollbackRestores(s: State, p: nat, request: seq<int>)
    requires IsRequest(s, p, request)
    ensures Grant(Grant(s, p, request), p, Negated(request)) == s
  {
    var s' := Grant(s, p, request);
    assert Minus(s'.available, Negated(request)) == s.available;
    assert Plus(s'.allocation[p], Negated(request)) == s.allocation[p];
    assert Minus(s'.need[p], Negated(request)) == s.need[p];
  }
}
