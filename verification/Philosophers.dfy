/** The dining philosophers of demo_deadlock.c.  Philosopher x eats with forks x - 1 and
    x + 1; even philosophers take the left one first, odd ones the right one. */
module Philosophers {
  import opened Common
  import opened WaitFor

  function Left(x: nat, n: nat): (f: nat)
    requires x < n
    ensures f == if x == 0 then n - 1 else x - 1
  {
    Wraps(x, n);
    (x + n - 1) % n
  }

  function Right(x: nat, n: nat): (f: nat)
    requires x < n
    ensures f == if x == n - 1 then 0 else x + 1
  {
    (x + 1) % n
  }

  lemma Wraps(x: nat, n: nat)
    requires x < n
    ensures (x + n - 1) % n == if x == 0 then n - 1 else x - 1
  {
    if x > 0 {
      OneLap(x - 1, n);
    }
  }

  lemma OneLap(x: nat, n: nat)
    requires x < n
    ensures (x + n) % n == x
  {
  }

  function First(x: nat, n: nat): nat
    requires x < n
  {
    if x % 2 == 0 then Left(x, n) else Right(x, n)
  }

  function Second(x: nat, n: nat): nat
    requires x < n
  {
    if x % 2 == 0 then Right(x, n) else Left(x, n)
  }

  datatype Pc = Thinking | HoldsFirst | Eating | ReleasedFirst

  datatype State = State(forks: seq<Option<nat>>, pcs: seq<Pc>) {
    function N(): nat { |pcs| }
  }

  datatype Action = LockFirst(x: nat) | LockSecond(x: nat) | UnlockFirst(x: nat) | UnlockSecond(x: nat)

  predicate Shaped(s: State) {
    |s.forks| == s.N()
  }

  predicate Enabled(s: State, a: Action) {
    && Shaped(s) && a.x < s.N()
    && match a
       case LockFirst(x) => s.pcs[x].Thinking? && s.forks[First(x, s.N())].None?
       case LockSecond(x) => s.pcs[x].HoldsFirst? && s.forks[Second(x, s.N())].None?
       case UnlockFirst(x) => s.pcs[x].Eating?
       case UnlockSecond(x) => s.pcs[x].ReleasedFirst?
  }

  function Apply(s: State, a: Action): State
    requires Enabled(s, a)
  {
    var x, n := a.x, s.N();
    match a
    case LockFirst(_) => State(s.forks[First(x, n) := Some(x)], s.pcs[x := HoldsFirst])
    case LockSecond(_) => State(s.forks[Second(x, n) := Some(x)], s.pcs[x := Eating])
    case UnlockFirst(_) => State(s.forks[First(x, n) := None], s.pcs[x := ReleasedFirst])
    case UnlockSecond(_) => State(s.forks[Second(x, n) := None], s.pcs[x := Thinking])
  }

  function Initial(n: nat): State {
    State(seq(n, _ => None), seq(n, _ => Thinking))
  }

  // ----- who holds what

  predicate Holds(s: State, x: nat, f: nat)
    requires x < s.N()
  {
    match s.pcs[x]
    case Thinking => false
    case HoldsFirst => f == First(x, s.N())
    case Eating => f == First(x, s.N()) || f == Second(x, s.N())
    case ReleasedFirst => f == Second(x, s.N())
  }

  ghost predicate ForksMatch(s: State) {
    && Shaped(s)
    && (forall x, f :: 0 <= x < s.N() && 0 <= f < s.N() ==> (Holds(s, x, f) <==> s.forks[f] == Some(x)))
    && (forall f :: 0 <= f < s.N() && s.forks[f].Some? ==> s.forks[f].value < s.N())
    && (forall x :: 0 <= x < s.N() && First(x, s.N()) == Second(x, s.N()) ==> s.pcs[x].Thinking? || s.pcs[x].HoldsFirst?)
  }

  lemma HoldsAfterStep(s: State, a: Action, x: nat, f: nat)
    requires ForksMatch(s) && Enabled(s, a) && x < s.N() && f < s.N()
    ensures Holds(Apply(s, a), x, f) <==> Apply(s, a).forks[f] == Some(x)
  {
    var first, second := First(a.x, s.N()), Second(a.x, s.N());
    assert Holds(s, a.x, first) <==> s.forks[first] == Some(a.x);
    assert Holds(s, a.x, second) <==> s.forks[second] == Some(a.x);
    assert Holds(s, x, f) <==> s.forks[f] == Some(x);
  }

  lemma StepKeepsForks(s: State, a: Action)
    requires ForksMatch(s) && Enabled(s, a)
    ensures ForksMatch(Apply(s, a)) && Apply(s, a).N() == s.N()
  {
    var s' := Apply(s, a);
    forall x, f | 0 <= x < s'.N() && 0 <= f < s'.N()
      ensures Holds(s', x, f) <==> s'.forks[f] == Some(x)
    {
      HoldsAfterStep(s, a, x, f);
    }
    assert Holds(s, a.x, First(a.x, s.N())) <==> s.forks[First(a.x, s.N())] == Some(a.x);
  }

  /** Philosophers who share a fork never eat together. */
  lemma NeighboursDoNotEatTogether(s: State, x: nat, y: nat, f: nat)
    requires ForksMatch(s) && x < s.N() && y < s.N() && x != y && f < s.N()
    requires f == First(x, s.N()) || f == Second(x, s.N())
    requires f == First(y, s.N()) || f == Second(y, s.N())
    ensures !(s.pcs[x].Eating? && s.pcs[y].Eating?)
  {
    assert Holds(s, x, f) <==> s.forks[f] == Some(x);
    assert Holds(s, y, f) <==> s.forks[f] == Some(y);
  }

  // ----- circular waiting

  /** The fork a philosopher who is not eating wants next. */
  function Wanted(s: State, x: nat): nat
    requires x < s.N()
  {
    if s.pcs[x].Thinking? then First(x, s.N()) else Second(x, s.N())
  }

  predicate WaitsFor(s: State, x: nat, y: nat) {
    && Shaped(s) && x < s.N()
    && (s.pcs[x].Thinking? || s.pcs[x].HoldsFirst?)
    && Wanted(s, x) < |s.forks| && s.forks[Wanted(s, x)] == Some(y)
  }

  ghost function WaitGraph(s: State): Graph {
    Graph(s.N(), set x: nat, y: nat | x < s.N() && y < s.N() && WaitsFor(s, x, y) :: (x, y))
  }

  /** For an odd number of philosophers the forks can be ranked so that everybody takes
      the lower one first: the forks lie on the two chains n-1, 1, 3, ..., n-2, 0 and
      n-1, n-3, ..., 2, 0. */
  function Rank(f: nat, n: nat): nat
    requires f < n
  {
    if f == n - 1 then 0 else if f == 0 then 2 * n else if f % 2 == 1 then f + 1 else n - 1 - f
  }

  lemma Parity(x: nat)
    ensures (x + 1) % 2 == 1 - x % 2
    ensures x > 0 ==> (x - 1) % 2 == 1 - x % 2
  {
  }

  lemma RankOfOdd(f: nat, n: nat)
    requires f < n && f % 2 == 1 && n % 2 == 1
    ensures f < n - 1 && Rank(f, n) == f + 1
  {
    Parity(n);
  }

  lemma EvenFirstRanksLower(x: nat, n: nat)
    requires x < n && n % 2 == 1 && n >= 3 && x % 2 == 0
    ensures Rank(First(x, n), n) < Rank(Second(x, n), n) <= 2 * n
  {
    Parity(x);
    if x > 0 {
      RankOfOdd(x - 1, n);
    }
    if x < n - 1 {
      RankOfOdd(x + 1, n);
    }
  }

  lemma OddFirstRanksLower(x: nat, n: nat)
    requires x < n && n % 2 == 1 && n >= 3 && x % 2 == 1
    ensures Rank(First(x, n), n) < Rank(Second(x, n), n) <= 2 * n
  {
    Parity(x);
    RankOfOdd(x, n);
  }

  lemma FirstRanksLower(x: nat, n: nat)
    requires x < n && n % 2 == 1 && n >= 3
    ensures First(x, n) < n && Second(x, n) < n
    ensures Rank(First(x, n), n) < Rank(Second(x, n), n) <= 2 * n
  {
    if x % 2 == 0 {
      EvenFirstRanksLower(x, n);
    } else {
      OddFirstRanksLower(x, n);
    }
  }

  /** A waiting philosopher stands the lower the higher the fork it wants. */
  function Height(s: State, x: nat): int {
    if x < s.N() && (s.pcs[x].Thinking? || s.pcs[x].HoldsFirst?) && Wanted(s, x) < s.N()
    then -(Rank(Wanted(s, x), s.N()) as int)
    else -2 * (s.N() as int) - 1
  }

  lemma OddTablesNeverWaitInACircle(s: State)
    requires ForksMatch(s) && s.N() % 2 == 1 && s.N() >= 3
    ensures !HasCycle(WaitGraph(s))
  {
    var n := s.N();
    var rank := (x: Vertex) => Height(s, x);
    forall e | e in WaitGraph(s).edges ensures rank(e.1) < rank(e.0) {
      var x, y := e.0, e.1;
      FirstRanksLower(x, n);
      FirstRanksLower(y, n);
      assert Holds(s, y, Wanted(s, x));
    }
    RankedIsAcyclic(WaitGraph(s), rank);
  }

  /** Somebody can always go on: follow the holders of the wanted forks upwards in rank. */
  lemma {:induction false} OddTablesGoOn(s: State, x: nat) returns (a: Action)
    requires ForksMatch(s) && s.N() % 2 == 1 && s.N() >= 3 && x < s.N()
    ensures Enabled(s, a)
    decreases if s.pcs[x].Thinking? || s.pcs[x].HoldsFirst? then 2 * s.N() + 1 - Rank(Wanted(s, x), s.N()) else 0
  {
    FirstRanksLower(x, s.N());
    match s.pcs[x]
    case Eating => a := UnlockFirst(x);
    case ReleasedFirst => a := UnlockSecond(x);
    case _ =>
      match s.forks[Wanted(s, x)]
      case None => a := if s.pcs[x].Thinking? then LockFirst(x) else LockSecond(x);
      case Some(y) =>
        FirstRanksLower(y, s.N());
        assert Holds(s, y, Wanted(s, x));
        a := OddTablesGoOn(s, y);
  }

  // ----- whole runs

  predicate CanRun(s: State, run: seq<Action>)
    decreases |run|
  {
    run == [] || (Enabled(s, run[0]) && CanRun(Apply(s, run[0]), run[1..]))
  }

  function After(s: State, run: seq<Action>): State
    requires CanRun(s, run)
    decreases |run|
  {
    if run == [] then s else After(Apply(s, run[0]), run[1..])
  }

  lemma {:induction false} RunKeepsForks(s: State, run: seq<Action>)
    requires ForksMatch(s) && CanRun(s, run)
    ensures ForksMatch(After(s, run)) && After(s, run).N() == s.N()
    decreases |run|
  {
    if run != [] {
      StepKeepsForks(s, run[0]);
      RunKeepsForks(Apply(s, run[0]), run[1..]);
    }
  }

  /** The state in which the first m philosophers hold their first fork. */
  ghost predicate Grabbed(s: State, n: nat, m: nat) {
    && Shaped(s) && s.N() == n
    && (forall x :: 0 <= x < n ==> s.pcs[x] == if x < m then HoldsFirst else Thinking)
    && (forall x :: 0 <= x < n ==> First(x, n) < n && s.forks[First(x, n)] == if x < m then Some(x) else None)
  }

  /** At an even table no two philosophers start with the same fork. */
  lemma FirstIsInjective(n: nat, x: nat, y: nat)
    requires x < n && y < n && n % 2 == 0 && First(x, n) == First(y, n)
    ensures x == y
  {
  }

  lemma GrabOne(s: State, n: nat, m: nat)
    requires Grabbed(s, n, m) && m < n && (n % 2 == 0 || n == 1)
    ensures Enabled(s, LockFirst(m)) && Grabbed(Apply(s, LockFirst(m)), n, m + 1)
  {
    assert s.pcs[m] == Thinking && s.forks[First(m, n)] == None;
    var s' := Apply(s, LockFirst(m));
    forall x | 0 <= x < n ensures s'.forks[First(x, n)] == if x < m + 1 then Some(x) else None {
      if x != m && n % 2 == 0 && First(x, n) == First(m, n) {
        FirstIsInjective(n, x, m);
      }
    }
  }

  lemma {:induction false} GrabAll(s: State, n: nat, m: nat) returns (run: seq<Action>)
    requires Grabbed(s, n, m) && m <= n && (n % 2 == 0 || n == 1)
    ensures CanRun(s, run) && Grabbed(After(s, run), n, n)
    decreases n - m
  {
    if m == n {
      run := [];
    } else {
      GrabOne(s, n, m);
      var rest := GrabAll(Apply(s, LockFirst(m)), n, m + 1);
      run := [LockFirst(m)] + rest;
      assert run[1..] == rest;
    }
  }

  /** Even philosophers look to the right for their second fork, odd ones to the left. */
  function NextButOne(x: nat, n: nat): nat
    requires x < n
  {
    if n == 1 then 0
    else if x % 2 == 0 then (if x + 2 < n then x + 2 else x + 2 - n)
    else if x >= 2 then x - 2
    else x + n - 2
  }

  lemma SecondIsNextsFirst(x: nat, n: nat)
    requires x < n && (n % 2 == 0 || n == 1)
    ensures NextButOne(x, n) < n && First(NextButOne(x, n), n) == Second(x, n)
  {
    assert n % 2 == 0 ==> NextButOne(x, n) % 2 == x % 2;
  }

  lemma EverybodyWaits(s: State, n: nat, x: nat)
    requires x < n && (n % 2 == 0 || n == 1) && Grabbed(s, n, n)
    ensures WaitsFor(s, x, NextButOne(x, n)) && s.forks[Second(x, n)].Some? && s.forks[First(x, n)].Some?
  {
    SecondIsNextsFirst(x, n);
    assert s.forks[First(x, n)] == Some(x);
    assert s.forks[First(NextButOne(x, n), n)] == Some(NextButOne(x, n));
  }

  /** The even philosophers in seating order, back to the first. */
  function EvenRound(n: nat): (walk: seq<nat>)
    requires n >= 2 && n % 2 == 0
    ensures |walk| == n / 2 + 1 && walk[0] == walk[n / 2] == 0
    ensures forall i :: 0 <= i < n / 2 ==> walk[i] == 2 * i < n && walk[i + 1] == NextButOne(walk[i], n)
  {
    seq(n / 2 + 1, i requires 0 <= i <= n / 2 => if 2 * i < n then 2 * i else 0)
  }

  /** If everybody holds a first fork, everybody waits for the next but one, in a circle. */
  lemma GrabbedIsCircle(s: State, n: nat)
    requires n >= 1 && (n % 2 == 0 || n == 1) && Grabbed(s, n, n)
    ensures HasCycle(WaitGraph(s))
  {
    var walk := if n == 1 then [0, 0] else EvenRound(n);
    forall i | 0 < i < |walk| ensures (walk[i - 1], walk[i]) in WaitGraph(s).edges {
      EverybodyWaits(s, n, walk[i - 1]);
      assert walk[i] == NextButOne(walk[i - 1], n);
    }
    assert IsCycle(WaitGraph(s), walk);
  }

  lemma GrabbedIsStuck(s: State, n: nat, a: Action)
    requires n >= 1 && (n % 2 == 0 || n == 1) && Grabbed(s, n, n)
    ensures !Enabled(s, a)
  {
    if a.x < n {
      EverybodyWaits(s, n, a.x);
    }
  }

  ghost predicate ReachesCircle(n: nat, run: seq<Action>) {
    CanRun(Initial(n), run) && HasCycle(WaitGraph(After(Initial(n), run)))
  }

  /** A circular wait is reachable exactly at tables of even size, and at a table of one. */
  lemma CircularWaitIffEven(n: nat)
    requires n >= 1
    ensures (exists run :: ReachesCircle(n, run)) <==> n % 2 == 0 || n == 1
  {
    if n % 2 == 0 || n == 1 {
      var run := GrabAll(Initial(n), n, 0);
      GrabbedIsCircle(After(Initial(n), run), n);
      assert ReachesCircle(n, run);
    } else {
      forall run | CanRun(Initial(n), run) ensures !HasCycle(WaitGraph(After(Initial(n), run))) {
        RunKeepsForks(Initial(n), run);
        OddTablesNeverWaitInACircle(After(Initial(n), run));
      }
    }
  }

  ghost predicate ReachesStandstill(n: nat, run: seq<Action>) {
    CanRun(Initial(n), run) && forall a :: !Enabled(After(Initial(n), run), a)
  }

  /** At exactly the same tables all philosophers together can come to a standstill; at
      every other table somebody can always go on. */
  lemma StandstillIffEven(n: nat)
    requires n >= 1
    ensures (exists run :: ReachesStandstill(n, run)) <==> n % 2 == 0 || n == 1
  {
    if n % 2 == 0 || n == 1 {
      var run := GrabAll(Initial(n), n, 0);
      forall a ensures !Enabled(After(Initial(n), run), a) {
        GrabbedIsStuck(After(Initial(n), run), n, a);
      }
      assert ReachesStandstill(n, run);
    } else {
      forall run | CanRun(Initial(n), run) ensures !ReachesStandstill(n, run) {
        RunKeepsForks(Initial(n), run);
        var a := OddTablesGoOn(After(Initial(n), run), 0);
      }
    }
  }

  /** In no run, at any table, do two philosophers who share a fork eat together. */
  lemma NeighboursNeverEatTogether(n: nat, run: seq<Action>, x: nat, y: nat)
    requires CanRun(Initial(n), run) && x < n && y < n && x != y
    requires First(x, n) == First(y, n) || First(x, n) == Second(y, n) || Second(x, n) == First(y, n) || Second(x, n) == Second(y, n)
    ensures After(Initial(n), run).N() == n
    ensures !(After(Initial(n), run).pcs[x].Eating? && After(Initial(n), run).pcs[y].Eating?)
  {
    RunKeepsForks(Initial(n), run);
    var s := After(Initial(n), run);
    if First(x, n) == First(y, n) || First(x, n) == Second(y, n) {
      NeighboursDoNotEatTogether(s, x, y, First(x, n));
    } else {
      NeighboursDoNotEatTogether(s, x, y, Second(x, n));
    }
  }

  // ----- the forks themselves

  /** The shared forks and where each philosopher is in philosopher_activity. */
  class Table {
    const forks: array<Option<nat>>
    const pcs: array<Pc>

    ghost predicate Valid()
      reads forks, pcs
    {
      ForksMatch(View())
    }

    ghost function View(): State
      reads forks, pcs
    {
      State(forks[..], pcs[..])
    }

    constructor (philosophers: nat)
      ensures Valid() && fresh(forks) && fresh(pcs) && View() == Initial(philosophers)
      ensures forks.Length == pcs.Length == philosophers
      ensures forall x :: 0 <= x < philosophers ==> forks[x] == None && pcs[x] == Thinking
    {
      forks := new Option<nat>[philosophers](_ => None);
      pcs := new Pc[philosophers](_ => Thinking);
      new;
      assert View() == Initial(philosophers);
    }

    /** A philosopher who thinks or holds one fork locks the next one, which must be free. */
    method Lock(x: nat)
      requires Valid() && x < pcs.Length && (pcs[x].Thinking? || pcs[x].HoldsFirst?)
      requires var n := pcs.Length;
               forks[if (x % 2 == 0) == pcs[x].Thinking? then (x + n - 1) % n else (x + 1) % n] == None
      modifies forks, pcs
      ensures Valid()
      ensures View() == Apply(old(View()), if old(pcs[x]).Thinking? then LockFirst(x) else LockSecond(x))
      ensures var n := pcs.Length;
              var fork := if (x % 2 == 0) == old(pcs[x]).Thinking? then (x + n - 1) % n else (x + 1) % n;
              && forks[..] == old(forks[..])[fork := Some(x)]
              && pcs[..] == old(pcs[..])[x := if old(pcs[x]).Thinking? then HoldsFirst else Eating]
    {
      StepKeepsForks(View(), if pcs[x].Thinking? then LockFirst(x) else LockSecond(x));
      if pcs[x].Thinking? {
        forks[First(x, pcs.Length)] := Some(x);
        pcs[x] := HoldsFirst;
      } else {
        forks[Second(x, pcs.Length)] := Some(x);
        pcs[x] := Eating;
      }
    }

    /** A philosopher who has eaten unlocks the forks in the order of locking them. */
    method Unlock(x: nat)
      requires Valid() && x < pcs.Length && (pcs[x].Eating? || pcs[x].ReleasedFirst?)
      modifies forks, pcs
      ensures Valid()
      ensures View() == Apply(old(View()), if old(pcs[x]).Eating? then UnlockFirst(x) else UnlockSecond(x))
      ensures var n := pcs.Length;
              var fork := if (x % 2 == 0) == old(pcs[x]).Eating? then (x + n - 1) % n else (x + 1) % n;
              && forks[..] == old(forks[..])[fork := None]
              && pcs[..] == old(pcs[..])[x := if old(pcs[x]).Eating? then ReleasedFirst else Thinking]
    {
      StepKeepsForks(View(), if pcs[x].Eating? then UnlockFirst(x) else UnlockSecond(x));
      if pcs[x].Eating? {
        forks[First(x, pcs.Length)] := None;
        pcs[x] := ReleasedFirst;
      } else {
        forks[Second(x, pcs.Length)] := None;
        pcs[x] := Thinking;
      }
    }
  }
}
