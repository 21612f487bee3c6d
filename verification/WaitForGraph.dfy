/** Deadlock detection: depth-first search for a directed cycle (detectDeadLock). */
module WaitFor {
  import opened Common

  type Vertex = nat

  datatype Graph = Graph(processes: nat, edges: set<(Vertex, Vertex)>)

  ghost predicate WellFormed(g: Graph) {
    forall e :: e in g.edges ==> e.0 < g.processes && e.1 < g.processes
  }

  /** Every vertex of the walk waits for the next one. */
  ghost predicate IsWalk(g: Graph, walk: seq<Vertex>) {
    forall i :: 0 < i < |walk| ==> (walk[i - 1], walk[i]) in g.edges
  }

  /** A closed walk of at least one edge: a process that waits for itself, directly or not. */
  ghost predicate IsCycle(g: Graph, walk: seq<Vertex>) {
    2 <= |walk| && IsWalk(g, walk) && walk[0] == walk[|walk| - 1]
  }

  ghost predicate HasCycle(g: Graph) {
    exists walk :: IsCycle(g, walk)
  }

  // ----- a graph whose edges all descend in some order has no cycle

  lemma {:induction false} RankedWalkDescends(g: Graph, rank: Vertex -> int, walk: seq<Vertex>)
    requires forall e :: e in g.edges ==> rank(e.1) < rank(e.0)
    requires 2 <= |walk| && IsWalk(g, walk)
    ensures rank(walk[|walk| - 1]) < rank(walk[0])
  {
    var n := |walk| - 1;
    assert (walk[n - 1], walk[n]) in g.edges;
    if n > 1 {
      RankedWalkDescends(g, rank, walk[..n]);
    }
  }

  /** The tool every acyclicity claim of this project uses. */
  lemma RankedIsAcyclic(g: Graph, rank: Vertex -> int)
    requires forall e :: e in g.edges ==> rank(e.1) < rank(e.0)
    ensures !HasCycle(g)
  {
    forall walk | IsCycle(g, walk) ensures false {
      RankedWalkDescends(g, rank, walk);
    }
  }

  // ----- what the search has established

  /** Everything a finished vertex waits for finished before it. */
  ghost predicate FinishedInOrder(g: Graph, done: seq<Vertex>) {
    forall i, v :: 0 <= i < |done| && (done[i], v) in g.edges ==> v in done[..i]
  }

  function Position(done: seq<Vertex>, v: Vertex): (p: nat)
    ensures p <= |done| && (p < |done| ==> done[p] == v) && (v !in done ==> p == |done|)
    ensures forall j :: 0 <= j < p ==> done[j] != v
    ensures v in done ==> p < |done|
  {
    if done == [] || done[0] == v then 0 else 1 + Position(done[1..], v)
  }

  lemma AllFinishedIsAcyclic(g: Graph, done: seq<Vertex>)
    requires WellFormed(g) && FinishedInOrder(g, done)
    requires forall v: nat :: v < g.processes ==> v in done
    ensures !HasCycle(g)
  {
    var rank := (v: Vertex) => Position(done, v);
    forall e | e in g.edges ensures rank(e.1) < rank(e.0) {
      var p := Position(done, e.0);
      assert e.0 in done && e.1 in done[..p];
      var q :| 0 <= q < p && done[q] == e.1;
      assert Position(done, e.1) <= q;
    }
    RankedIsAcyclic(g, rank);
  }

  /** The recursion stack: a walk of distinct open vertices, finished ones elsewhere. */
  ghost predicate Searching(g: Graph, open: seq<Vertex>, done: seq<Vertex>) {
    && IsWalk(g, open) && Distinct(open)
    && FinishedInOrder(g, done)
    && (forall v :: v in open ==> v < g.processes && v !in done)
    && (forall v :: v in done ==> v < g.processes)
  }

  ghost predicate Marks(visited: seq<bool>, recStack: seq<bool>, open: seq<Vertex>, done: seq<Vertex>)
    requires |visited| == |recStack|
  {
    && (forall v :: 0 <= v < |visited| ==> (visited[v] <==> v in open || v in done))
    && (forall v :: 0 <= v < |recStack| ==> (recStack[v] <==> v in open))
  }

  lemma MarkOpen(visited: seq<bool>, recStack: seq<bool>, open: seq<Vertex>, done: seq<Vertex>, v: Vertex)
    requires |visited| == |recStack| && v < |visited| && Marks(visited, recStack, open, done)
    ensures Marks(visited[v := true], recStack[v := true], open + [v], done)
  {
  }

  lemma MarkDone(visited: seq<bool>, recStack: seq<bool>, open: seq<Vertex>, done: seq<Vertex>, v: Vertex)
    requires |visited| == |recStack| && v < |visited| && v !in open && Marks(visited, recStack, open + [v], done)
    ensures Marks(visited, recStack[v := false], open, done + [v])
  {
    assert v in open + [v];
  }

  /** An edge from the top of the stack back into the stack closes a cycle. */
  lemma BackEdgeIsCycle(g: Graph, open: seq<Vertex>, v: Vertex)
    requires IsWalk(g, open) && open != [] && v in open && (open[|open| - 1], v) in g.edges
    ensures HasCycle(g)
  {
    var i :| 0 <= i < |open| && open[i] == v;
    assert IsCycle(g, open[i..] + [v]);
  }

  lemma Finish(g: Graph, open: seq<Vertex>, vertex: Vertex, done: seq<Vertex>)
    requires Searching(g, open + [vertex], done)
    requires forall v :: (vertex, v) in g.edges ==> v in done
    ensures Searching(g, open, done + [vertex])
  {
    var done', stack := done + [vertex], open + [vertex];
    assert forall i :: 0 <= i < |open| ==> open[i] == stack[i];
    assert stack[|open|] == vertex;
    forall i, v | 0 <= i < |done'| && (done'[i], v) in g.edges ensures v in done'[..i] {
      if i < |done| {
        assert v in done[..i] && done'[..i] == done[..i];
      } else {
        assert done'[..i] == done;
      }
    }
    forall v | v in open ensures v < g.processes && v !in done' {
      var i :| 0 <= i < |open| && open[i] == v;
      assert stack[i] != stack[|open|] && v in stack;
    }
    assert vertex in stack;
  }

  lemma Open(g: Graph, open: seq<Vertex>, vertex: Vertex, done: seq<Vertex>)
    requires Searching(g, open, done) && vertex < g.processes && vertex !in open && vertex !in done
    requires open == [] || (open[|open| - 1], vertex) in g.edges
    ensures Searching(g, open + [vertex], done)
  {
  }

  ghost function Unvisited(visited: seq<bool>): set<Vertex> {
    set v | 0 <= v < |visited| && !visited[v]
  }

  class WaitForGraph {
    const matrix: array2<int>
    const processes: nat

    ghost predicate Valid() {
      processes <= matrix.Length0 && processes <= matrix.Length1
    }

    ghost function AsGraph(): (g: Graph)
      requires Valid()
      reads matrix
      ensures g.processes == processes && WellFormed(g)
      ensures forall u: nat, v: nat :: u < processes && v < processes ==> ((u, v) in g.edges <==> matrix[u, v] != 0)
    {
      Graph(processes, set u, v | 0 <= u < processes && 0 <= v < processes && matrix[u, v] != 0 :: (u, v))
    }

    /** Initialises a graph with no edges. */
    constructor (processes: nat)
      ensures Valid() && this.processes == processes && AsGraph().edges == {} && fresh(matrix)
    {
      this.processes := processes;
      this.matrix := new int[processes, processes]((i, j) => 0);
    }

    method DetectCycleDfs(vertex: nat, visited: array<bool>, recStack: array<bool>,
                          ghost open: seq<Vertex>, ghost done: seq<Vertex>)
      returns (found: bool, ghost done': seq<Vertex>)
      requires Valid() && visited != recStack && visited.Length == recStack.Length == processes
      requires vertex < processes && vertex !in open
      requires open == [] || (open[|open| - 1], vertex) in AsGraph().edges
      requires Searching(AsGraph(), open, done) && Marks(visited[..], recStack[..], open, done)
      modifies visited, recStack
      ensures found ==> HasCycle(AsGraph())
      ensures !found ==> Searching(AsGraph(), open, done') && Marks(visited[..], recStack[..], open, done')
      ensures !found ==> vertex in done' && done <= done' && Unvisited(visited[..]) <= old(Unvisited(visited[..]))
      decreases Unvisited(visited[..])
    {
      ghost var g := AsGraph();
      done' := done;
      if !visited[vertex] {
        ghost var stack := open + [vertex];
        Open(g, open, vertex, done);
        MarkOpen(visited[..], recStack[..], open, done, vertex);
        visited[vertex] := true;
        recStack[vertex] := true;
        assert visited[..] == old(visited[..])[vertex := true] && recStack[..] == old(recStack[..])[vertex := true];
        for i := 0 to processes
          invariant AsGraph() == g && done <= done'
          invariant Searching(g, stack, done') && Marks(visited[..], recStack[..], stack, done')
          invariant forall v: nat :: v < i && (vertex, v) in g.edges ==> v in done'
          invariant Unvisited(visited[..]) <= old(Unvisited(visited[..]))
        {
          if matrix[vertex, i] != 0 {
            if !visited[i] {
              assert vertex in old(Unvisited(visited[..])) && vertex !in Unvisited(visited[..]);
              found, done' := DetectCycleDfs(i, visited, recStack, stack, done');
              if found {
                return;
              }
            }
            if recStack[i] {
              BackEdgeIsCycle(g, stack, i);
              return true, done';
            }
          }
        }
        Finish(g, open, vertex, done');
        MarkDone(visited[..], recStack[..], open, done', vertex);
        done' := done' + [vertex];
      }
      ghost var marks := recStack[..];
      recStack[vertex] := false;
      assert recStack[..] == marks[vertex := false];
      found := false;
    }

    /** Reports a deadlock exactly when some process waits for itself in a cycle. */
    method DetectDeadlock() returns (found: bool)
      requires Valid()
      ensures found <==> HasCycle(AsGraph())
      ensures found <==> exists walk: seq<nat> ::
                && 2 <= |walk| && walk[0] == walk[|walk| - 1] && (forall i :: 0 <= i < |walk| ==> walk[i] < processes)
                && forall i :: 0 < i < |walk| ==> matrix[walk[i - 1], walk[i]] != 0
    {
      var visited, recStack := new bool[processes](_ => false), new bool[processes](_ => false);
      ghost var g, done := AsGraph(), [];
      for i := 0 to processes
        invariant AsGraph() == g && fresh(visited) && fresh(recStack)
        invariant Searching(g, [], done) && Marks(visited[..], recStack[..], [], done)
        invariant forall v: nat :: v < i ==> v in done
      {
        found, done := DetectCycleDfs(i, visited, recStack, [], done);
        if found {
          CycleSpelledOut();
          return;
        }
      }
      AllFinishedIsAcyclic(g, done);
      CycleSpelledOut();
      found := false;
    }

    lemma CycleIsClosedWalk(walk: seq<nat>)
      requires Valid() && IsCycle(AsGraph(), walk)
      ensures forall i :: 0 <= i < |walk| ==> walk[i] < processes
      ensures forall i :: 0 < i < |walk| ==> matrix[walk[i - 1], walk[i]] != 0
    {
      forall i {:trigger walk[i]} | 0 < i < |walk|
        ensures walk[i - 1] < processes && walk[i] < processes && matrix[walk[i - 1], walk[i]] != 0
      {
        assert (walk[i - 1], walk[i]) in AsGraph().edges;
      }
      assert walk[1 - 1] == walk[0] && walk[1] < processes;
    }

    lemma ClosedWalkIsCycle(walk: seq<nat>)
      requires Valid() && 2 <= |walk| && walk[0] == walk[|walk| - 1]
      requires forall i :: 0 <= i < |walk| ==> walk[i] < processes
      requires forall i :: 0 < i < |walk| ==> matrix[walk[i - 1], walk[i]] != 0
      ensures IsCycle(AsGraph(), walk)
    {
      forall i | 0 < i < |walk| ensures (walk[i - 1], walk[i]) in AsGraph().edges {
        assert matrix[walk[i - 1], walk[i]] != 0;
      }
    }

    /** A cycle, in terms of the matrix. */
    lemma CycleSpelledOut()
      requires Valid()
      ensures HasCycle(AsGraph()) <==> exists walk: seq<nat> ::
                && 2 <= |walk| && walk[0] == walk[|walk| - 1] && (forall i :: 0 <= i < |walk| ==> walk[i] < processes)
                && forall i :: 0 < i < |walk| ==> matrix[walk[i - 1], walk[i]] != 0
    {
      if HasCycle(AsGraph()) {
        var walk :| IsCycle(AsGraph(), walk);
        CycleIsClosedWalk(walk);
      } else if walk: seq<nat> :|
        && 2 <= |walk| && walk[0] == walk[|walk| - 1] && (forall i :: 0 <= i < |walk| ==> walk[i] < processes)
        && forall i :: 0 < i < |walk| ==> matrix[walk[i - 1], walk[i]] != 0
      {
        ClosedWalkIsCycle(walk);
      }
    }
  }
}
