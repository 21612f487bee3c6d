/** Deadlock prevention by ordered requests (ResourceOrderingSystem.c), and what it means
    for the wait-for graph. */
module ResourceOrdering {
  import opened Common
  import opened WaitFor

  datatype Resource = Resource(id: nat, priority: int, available: bool)

  datatype Outcome = OutOfOrder | Unavailable | Granted

  function InitialResources(n: nat): seq<Resource> {
    seq(n, i requires 0 <= i < n => Resource(i, i, true))
  }

  /** A first request (-1) is always in order; a later one must name a higher priority. */
  predicate InOrder(resources: seq<Resource>, curr: int, req: nat)
    requires -1 <= curr < |resources| && req < |resources|
  {
    curr == -1 || resources[curr].priority < resources[req].priority
  }

  function Ask(resources: seq<Resource>, curr: int, req: nat): Outcome
    requires -1 <= curr < |resources| && req < |resources|
  {
    if !InOrder(resources, curr, req) then OutOfOrder
    else if !resources[req].available then Unavailable
    else Granted
  }

  class ResourceOrderingSystem {
    const resources: array<Resource>

    constructor (numResources: nat)
      ensures fresh(resources) && resources[..] == InitialResources(numResources)
      ensures resources.Length == numResources && forall i :: 0 <= i < numResources ==> resources[i] == Resource(i, i, true)
    {
      resources := new Resource[numResources](i => Resource(0, 0, false));
      new;
      for i := 0 to numResources
        invariant forall k :: 0 <= k < i ==> resources[k] == Resource(k, k, true)
      {
        resources[i] := Resource(i, i, true);
      }
    }

    method IsValidResourceRequest(curr: int, req: nat) returns (valid: bool)
      requires -1 <= curr < resources.Length && req < resources.Length
      ensures valid <==> curr == -1 || resources[curr].priority < resources[req].priority
      ensures resources[..] == InitialResources(resources.Length) ==> (valid <==> curr < req)
    {
      if curr == -1 {
        return true;
      }
      return resources[curr].priority < resources[req].priority;
    }

    /** Grants the resource exactly if it is free and the request is a first one or ascends. */
    method RequestResource(process: nat, curr: int, req: nat) returns (granted: bool)
      requires -1 <= curr < resources.Length && req < resources.Length
      modifies resources
      ensures granted <==> (curr == -1 || old(resources[curr]).priority < old(resources[req]).priority)
                           && old(resources[req]).available
      ensures granted <==> Ask(old(resources[..]), curr, req) == Granted
      ensures resources[..] == if granted then old(resources[..])[req := old(resources[..])[req].(available := false)]
                               else old(resources[..])
    {
      var valid := IsValidResourceRequest(curr, req);
      if !valid {
        return false;
      }
      if !resources[req].available {
        return false;
      }
      resources[req] := resources[req].(available := false);
      return true;
    }
  }

  // ----- many processes

  /** Who was granted what, the last resource each process acquired (-1 for none), and the
      request it was refused although it was in order. */
  datatype State = State(resources: seq<Resource>, holder: map<nat, nat>, last: seq<int>, waiting: seq<Option<nat>>)

  /** A request by process p that passes `curr` as its current resource. */
  datatype Request = Request(p: nat, curr: int, req: nat)

  predicate Possible(s: State, r: Request) {
    && |s.last| == |s.waiting|
    && r.p < |s.last| && -1 <= r.curr < |s.resources| && r.req < |s.resources|
  }

  function Serve(s: State, r: Request): State
    requires Possible(s, r)
  {
    match Ask(s.resources, r.curr, r.req)
    case OutOfOrder => s.(waiting := s.waiting[r.p := None])
    case Unavailable => s.(waiting := s.waiting[r.p := Some(r.req)])
    case Granted =>
      State(s.resources[r.req := s.resources[r.req].(available := false)],
            s.holder[r.req := r.p], s.last[r.p := r.req], s.waiting[r.p := None])
  }

  function Start(processes: nat, resources: nat): State {
    State(InitialResources(resources), map[], seq(processes, _ => -1), seq(processes, _ => None))
  }

  /** p waits for the process that holds the resource p was refused. */
  predicate WaitsFor(s: State, p: nat, q: nat) {
    && p < |s.waiting| && s.waiting[p].Some?
    && s.waiting[p].value in s.holder && s.holder[s.waiting[p].value] == q
  }

  ghost function WaitGraph(s: State): Graph {
    Graph(|s.waiting|, set p: nat, q: nat | p < |s.waiting| && q < |s.waiting| && WaitsFor(s, p, q) :: (p, q))
  }

  ghost predicate CanRun(s: State, run: seq<Request>)
    decreases |run|
  {
    run == [] || (Possible(s, run[0]) && CanRun(Serve(s, run[0]), run[1..]))
  }

  ghost function After(s: State, run: seq<Request>): State
    requires CanRun(s, run)
    decreases |run|
  {
    if run == [] then s else After(Serve(s, run[0]), run[1..])
  }

  /** A rule says which resource a process may ask for after the last one it acquired. */
  type Rule = (int, nat) -> bool

  /** Every request that passes the program's own test also obeys the rule. */
  ghost predicate Obeys(s: State, run: seq<Request>, rule: Rule)
    requires CanRun(s, run)
    decreases |run|
  {
    run == []
    || (&& (Ask(s.resources, run[0].curr, run[0].req) != OutOfOrder ==> rule(s.last[run[0].p], run[0].req))
        && Obeys(Serve(s, run[0]), run[1..], rule))
  }

  /** Every request passes the last resource its process acquired, as main does. */
  ghost predicate Disciplined(s: State, run: seq<Request>)
    requires CanRun(s, run)
    decreases |run|
  {
    run == [] || (run[0].curr == s.last[run[0].p] && Disciplined(Serve(s, run[0]), run[1..]))
  }

  /** Processes hold nothing above their last resource and wait for nothing below it. */
  ghost predicate Ordered(s: State) {
    && |s.last| == |s.waiting|
    && (forall i :: 0 <= i < |s.resources| ==> s.resources[i].priority == i)
    && (forall i :: 0 <= i < |s.resources| ==> (s.resources[i].available <==> i !in s.holder))
    && (forall p :: 0 <= p < |s.last| ==> -1 <= s.last[p] < |s.resources|)
    && (forall r :: r in s.holder ==> s.holder[r] < |s.last| && r <= s.last[s.holder[r]])
    && (forall p :: 0 <= p < |s.waiting| && s.waiting[p].Some? ==>
          s.last[p] < s.waiting[p].value < |s.resources| && s.waiting[p].value in s.holder)
  }

  lemma RequestKeepsOrder(s: State, r: Request)
    requires Ordered(s) && Possible(s, r)
    requires Ask(s.resources, r.curr, r.req) != OutOfOrder ==> s.last[r.p] < r.req
    ensures Ordered(Serve(s, r))
  {
    var s' := Serve(s, r);
    forall x | x in s'.holder ensures s'.holder[x] < |s'.last| && x <= s'.last[s'.holder[x]] {
      assert x == r.req || x in s.holder;
    }
  }

  /** The rule never lets a process ask for a resource it might hold, or for a lower one. */
  ghost predicate Ascending(rule: Rule, resources: nat) {
    forall a: nat, b: nat :: a <= b < resources ==> !rule(b, a)
  }

  lemma {:induction false} RunKeepsOrder(s: State, run: seq<Request>, rule: Rule)
    requires Ordered(s) && CanRun(s, run) && Ascending(rule, |s.resources|) && Obeys(s, run, rule)
    ensures Ordered(After(s, run))
    decreases |run|
  {
    if run != [] {
      var r := run[0];
      assert rule(s.last[r.p], r.req) ==> s.last[r.p] < r.req by {
        if r.req <= s.last[r.p] {
          var b: nat := s.last[r.p];
          assert !rule(b, r.req);
        }
      }
      RequestKeepsOrder(s, r);
      RunKeepsOrder(Serve(s, r), run[1..], rule);
    }
  }

  /** Passing the last acquired resource is one way to ascend. */
  lemma {:induction false} DisciplineAscends(s: State, run: seq<Request>)
    requires Ordered(s) && CanRun(s, run) && Disciplined(s, run)
    ensures Obeys(s, run, (last, req) => last < req)
    decreases |run|
  {
    if run != [] {
      RequestKeepsOrder(s, run[0]);
      DisciplineAscends(Serve(s, run[0]), run[1..]);
    }
  }

  function Height(s: State, p: nat): int {
    if p < |s.waiting| && s.waiting[p].Some? then -(s.waiting[p].value as int) else -(|s.resources| as int)
  }

  lemma OrderedIsAcyclic(s: State)
    requires Ordered(s)
    ensures !HasCycle(WaitGraph(s))
  {
    var rank := (p: Vertex) => Height(s, p);
    forall e | e in WaitGraph(s).edges ensures rank(e.1) < rank(e.0) {
      assert s.waiting[e.0].value in s.holder;
    }
    RankedIsAcyclic(WaitGraph(s), rank);
  }

  // ----- the answers after any run, disciplined or not

  /** Priorities never change, and a resource is taken exactly if somebody was granted it. */
  ghost predicate Tracked(s: State) {
    && (forall i :: 0 <= i < |s.resources| ==> s.resources[i].priority == i)
    && (forall i :: 0 <= i < |s.resources| ==> (s.resources[i].available <==> i !in s.holder))
  }

  lemma {:induction false} RunStaysTracked(s: State, run: seq<Request>)
    requires Tracked(s) && CanRun(s, run)
    ensures Tracked(After(s, run))
    decreases |run|
  {
    if run != [] {
      assert Tracked(Serve(s, run[0]));
      RunStaysTracked(Serve(s, run[0]), run[1..]);
    }
  }

  /** After any run of requests, the next one is granted exactly if it is a first or an ascending
      one for a resource nobody holds; it is left waiting exactly if somebody holds it. */
  lemma EveryRequestIsAnswered(processes: nat, resources: nat, run: seq<Request>, r: Request)
    requires CanRun(Start(processes, resources), run) && Possible(After(Start(processes, resources), run), r)
    ensures var s := After(Start(processes, resources), run);
            var s' := Serve(s, r);
            if r.curr != -1 && r.req <= r.curr then
              s'.holder == s.holder && s'.last == s.last && s'.waiting == s.waiting[r.p := None]
            else if r.req in s.holder then
              s'.holder == s.holder && s'.last == s.last && s'.waiting == s.waiting[r.p := Some(r.req)]
            else
              s'.holder == s.holder[r.req := r.p] && s'.last == s.last[r.p := r.req] && s'.waiting == s.waiting[r.p := None]
  {
    RunStaysTracked(Start(processes, resources), run);
  }

  /** A process asks for a resource, for a higher one, and for the first one again. */
  function AskAgain(a: nat, b: nat): seq<Request> {
    [Request(0, -1, a)] + (if a < b then [Request(0, a, b)] else []) + [Request(0, -1, a)]
  }

  lemma AskingAgainDeadlocks(processes: nat, resources: nat, a: nat, b: nat, rule: Rule)
    requires 1 <= processes && a <= b < resources
    requires rule(-1, a) && (a < b ==> rule(a, b)) && rule(b, a)
    ensures var s, run := Start(processes, resources), AskAgain(a, b);
            CanRun(s, run) && Obeys(s, run, rule) && HasCycle(WaitGraph(After(s, run)))
  {
    var s0, first, last := Start(processes, resources), Request(0, -1, a), [Request(0, -1, a)];
    var s1 := Serve(s0, first);
    var rest := if a < b then [Request(0, a, b)] + last else last;
    assert AskAgain(a, b) == [first] + rest && AskAgain(a, b)[1..] == rest;
    assert a < b ==> rest[1..] == last;
    var s2 := if a < b then Serve(s1, Request(0, a, b)) else s1;
    var s3 := Serve(s2, last[0]);
    assert last[1..] == [] && CanRun(s3, []) && After(s3, []) == s3 && Obeys(s3, [], rule);
    assert CanRun(s2, last) && After(s2, last) == s3 && Obeys(s2, last, rule);
    assert CanRun(s1, rest) && After(s1, rest) == s3 && Obeys(s1, rest, rule);
    assert WaitsFor(s3, 0, 0);
    assert IsCycle(WaitGraph(s3), [0, 0]);
  }

  ghost predicate PreventsDeadlock(rule: Rule, processes: nat, resources: nat) {
    var s := Start(processes, resources);
    forall run :: CanRun(s, run) && Obeys(s, run, rule) ==> !HasCycle(WaitGraph(After(s, run)))
  }

  /** Which rules prevent deadlock: among those that allow every first and every ascending
      request, exactly those that allow no other. */
  lemma RulePreventsDeadlockIff(processes: nat, resources: nat, rule: Rule)
    requires 1 <= processes
    requires forall a: nat :: a < resources ==> rule(-1, a)
    requires forall a: nat, b: nat :: a < b < resources ==> rule(a, b)
    ensures PreventsDeadlock(rule, processes, resources) <==> Ascending(rule, resources)
  {
    var s := Start(processes, resources);
    if Ascending(rule, resources) {
      forall run | CanRun(s, run) && Obeys(s, run, rule) ensures !HasCycle(WaitGraph(After(s, run))) {
        RunKeepsOrder(s, run, rule);
        OrderedIsAcyclic(After(s, run));
      }
    } else {
      var a: nat, b: nat :| a <= b < resources && rule(b, a);
      AskingAgainDeadlocks(processes, resources, a, b, rule);
      assert CanRun(s, AskAgain(a, b));
    }
  }

  /** If every process passes its last acquired resource, no sequence of requests ever
      leads to a cycle of waiting processes. */
  lemma DisciplinePreventsDeadlock(processes: nat, resources: nat, run: seq<Request>)
    requires CanRun(Start(processes, resources), run) && Disciplined(Start(processes, resources), run)
    ensures !HasCycle(WaitGraph(After(Start(processes, resources), run)))
  {
    DisciplineAscends(Start(processes, resources), run);
    RunKeepsOrder(Start(processes, resources), run, (last, req) => last < req);
    OrderedIsAcyclic(After(Start(processes, resources), run));
  }

  /** So the cycle detector stays silent on the wait-for graph of every such state. */
  method DetectorStaysSilent(detector: WaitForGraph, processes: nat, resources: nat, ghost run: seq<Request>)
    returns (found: bool)
    requires CanRun(Start(processes, resources), run) && Disciplined(Start(processes, resources), run)
    requires detector.Valid() && detector.AsGraph() == WaitGraph(After(Start(processes, resources), run))
    ensures !found
  {
    DisciplinePreventsDeadlock(processes, resources, run);
    found := detector.DetectDeadlock();
  }

  /** Two processes that would be fine but for one last request that passes -1. */
  function OneLapse(a: nat, b: nat): seq<Request> {
    [Request(0, -1, b), Request(1, -1, a), Request(1, a, b)] + [Request(0, -1, a)]
  }

  /** The program does not check what is passed: one request that passes -1 instead of the
      last resource can close a cycle, whichever two resources are involved. */
  lemma DisciplineIsNeeded(processes: nat, resources: nat, a: nat, b: nat)
    requires 2 <= processes && a < b < resources
    ensures var s, run := Start(processes, resources), OneLapse(a, b);
            && CanRun(s, run[..3]) && Disciplined(s, run[..3])
            && CanRun(s, run) && IsCycle(WaitGraph(After(s, run)), [0, 1, 0])
  {
    var s0, run := Start(processes, resources), OneLapse(a, b);
    var s1 := Serve(s0, run[0]);
    var s2 := Serve(s1, run[1]);
    var s3 := Serve(s2, run[2]);
    var s4 := Serve(s3, run[3]);
    assert run[3..] == [run[3]] && run[2..] == [run[2]] + run[3..] && run[1..] == [run[1]] + run[2..];
    assert CanRun(s4, []) && After(s4, []) == s4;
    assert run[3..][1..] == [] && CanRun(s3, run[3..]) && After(s3, run[3..]) == s4;
    assert run[2..][1..] == run[3..] && CanRun(s2, run[2..]) && After(s2, run[2..]) == s4;
    assert run[1..][1..] == run[2..] && CanRun(s1, run[1..]) && After(s1, run[1..]) == s4;
    assert CanRun(s0, run) && After(s0, run) == s4;
    var start := run[..3];
    assert start[1..] == [run[1], run[2]] && start[1..][1..] == [run[2]] && start[1..][1..][1..] == [];
    assert CanRun(s3, []) && Disciplined(s3, []);
    assert CanRun(s2, [run[2]]) && Disciplined(s2, [run[2]]);
    assert CanRun(s1, [run[1], run[2]]) && Disciplined(s1, [run[1], run[2]]);
    assert WaitsFor(s4, 0, 1) && WaitsFor(s4, 1, 0);
  }
}
