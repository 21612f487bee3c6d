/** The semaphore-and-mutex buffer of consumer_producer.c as a step machine: each
    sem_wait, lock, access, unlock and sem_post of a thread is a step of its own. */
module SemBuffer {
  import opened Common
  import opened Sums
  import opened Tasks

  /** Where a thread is in product_item or consume_item. */
  datatype Pc = Idle | Claimed | Locked | Accessed | Released

  datatype Thread = Thread(task: Task, pc: Pc) {
    predicate Inside() {
      pc.Locked? || pc.Accessed?
    }

    predicate Finished() {
      pc.Idle? && task.Left() == 0
    }
  }

  /** The shared buffer, its mutex and semaphores, the threads, and what went through, in order. */
  datatype State = State(data: seq<int>, count: int, emptySlots: nat, filledSlots: nat, owner: Option<nat>,
                         threads: seq<Thread>, produced: seq<int>, consumed: seq<int>)

  datatype Action = Wait(t: nat) | Lock(t: nat) | Access(t: nat) | Unlock(t: nat) | Post(t: nat)

  /** A wait or lock is possible only when the semaphore or mutex lets it through. */
  predicate Enabled(s: State, a: Action) {
    && a.t < |s.threads|
    && var me := s.threads[a.t];
       match a
       case Wait(_) => me.pc.Idle? && me.task.Left() > 0 && (if me.task.Insert? then s.emptySlots else s.filledSlots) > 0
       case Lock(_) => me.pc.Claimed? && s.owner.None?
       case Access(_) => me.pc.Locked? && me.task.Left() > 0
       case Unlock(_) => me.pc.Accessed?
       case Post(_) => me.pc.Released?
  }

  /** The index an access writes to or reads from. */
  function Index(s: State, t: nat): int
    requires t < |s.threads|
  {
    if s.threads[t].task.Insert? then s.count else s.count - 1
  }

  /** What a step does to the thread that takes it. */
  function NextThread(me: Thread, a: Action): Thread {
    match a
    case Wait(_) => me.(pc := Claimed)
    case Lock(_) => me.(pc := Locked)
    case Access(_) => Thread(me.task.Rest(), Accessed)
    case Unlock(_) => me.(pc := Released)
    case Post(_) => me.(pc := Idle)
  }

  function Apply(s: State, a: Action): (s': State)
    requires Enabled(s, a)
    ensures s'.threads == s.threads[a.t := NextThread(s.threads[a.t], a)]
  {
    var me := s.threads[a.t];
    var s' := s.(threads := s.threads[a.t := NextThread(me, a)]);
    match a
    case Wait(_) =>
      if me.task.Insert? then s'.(emptySlots := s.emptySlots - 1) else s'.(filledSlots := s.filledSlots - 1)
    case Lock(_) => s'.(owner := Some(a.t))
    case Access(_) =>
      if me.task.Insert? then
        var item := me.task.items[0];
        s'.(data := if 0 <= s.count < |s.data| then s.data[s.count := item] else s.data, count := s.count + 1,
            produced := s.produced + [item])
      else
        var item := if 0 <= s.count - 1 < |s.data| then s.data[s.count - 1] else 0;
        s'.(count := s.count - 1, consumed := s.consumed + [item])
    case Unlock(_) => s'.(owner := None)
    case Post(_) =>
      if me.task.Insert? then s'.(filledSlots := s.filledSlots + 1) else s'.(emptySlots := s.emptySlots + 1)
  }

  // ----- counting threads

  /** Before: claimed but not yet accessed.  Behind: accessed but not yet posted.
      Holding: how often a value is still to be produced. */
  datatype Weight = Before(kind: Kind) | Behind(kind: Kind) | Remaining(kind: Kind) | Holding(item: int) | Fuel

  function Value(w: Weight, th: Thread): nat {
    match w
    case Before(kind) => if th.task.Kind() == kind && (th.pc.Claimed? || th.pc.Locked?) then 1 else 0
    case Behind(kind) => if th.task.Kind() == kind && (th.pc.Accessed? || th.pc.Released?) then 1 else 0
    case Remaining(kind) => if th.task.Kind() == kind then th.task.Left() else 0
    case Holding(item) => if th.task.Insert? then multiset(th.task.items)[item] else 0
    case Fuel => StepsLeft(th)
  }

  /** Every operation takes exactly five steps. */
  function StepsLeft(th: Thread): nat {
    var rounds := 5 * th.task.Left();
    match th.pc
    case Idle => rounds
    case Claimed => if rounds == 0 then 0 else rounds - 1
    case Locked => if rounds == 0 then 0 else rounds - 2
    case Accessed => rounds + 2
    case Released => rounds + 1
  }

  function Values(w: Weight, threads: seq<Thread>): (v: seq<int>)
    ensures |v| == |threads| && forall i :: 0 <= i < |v| ==> v[i] == Value(w, threads[i])
  {
    seq(|threads|, i requires 0 <= i < |threads| => Value(w, threads[i]))
  }

  function Total(w: Weight, threads: seq<Thread>): nat {
    SumAtLeast(Values(w, threads), 0);
    Sum(Values(w, threads))
  }

  predicate Replaced(w: Weight, threads: seq<Thread>, t: nat, th: Thread)
    requires t < |threads|
  {
    Total(w, threads[t := th]) == Total(w, threads) - Value(w, threads[t]) + Value(w, th)
  }

  lemma TotalUpdate(w: Weight, threads: seq<Thread>, t: nat, th: Thread)
    requires t < |threads|
    ensures Replaced(w, threads, t, th)
  {
    SumUpdate(Values(w, threads), t, Value(w, th));
    assert Values(w, threads[t := th]) == Values(w, threads)[t := Value(w, th)];
  }

  lemma TotalPositive(w: Weight, threads: seq<Thread>) returns (t: nat)
    requires Total(w, threads) > 0
    ensures t < |threads| && Value(w, threads[t]) > 0
  {
    t := SumPositive(Values(w, threads));
  }

  lemma TotalAtLeast(w: Weight, threads: seq<Thread>, t: nat)
    requires t < |threads|
    ensures Value(w, threads[t]) <= Total(w, threads)
  {
    SumAtLeast(Values(w, threads), t);
  }

  // ----- the invariant

  ghost predicate ThreadOk(s: State, t: nat)
    requires t < |s.threads|
  {
    var th := s.threads[t];
    && (th.Inside() <==> s.owner == Some(t))
    && (th.pc.Claimed? || th.pc.Locked? ==> th.task.Left() > 0)
  }

  /** The semaphores count what the threads have claimed and not yet posted. */
  ghost predicate SlotsAccounted(s: State) {
    && s.count == s.filledSlots + Total(Before(Consumer), s.threads) + Total(Behind(Producer), s.threads)
    && |s.data| - s.count == s.emptySlots + Total(Before(Producer), s.threads) + Total(Behind(Consumer), s.threads)
  }

  ghost predicate ItemsConserved(s: State) {
    0 <= s.count <= |s.data| && multiset(s.produced) == multiset(s.consumed) + multiset(s.data[..s.count])
  }

  ghost predicate Inv(s: State) {
    && (s.owner.Some? ==> s.owner.value < |s.threads|)
    && (forall t :: 0 <= t < |s.threads| ==> ThreadOk(s, t))
    && SlotsAccounted(s)
    && ItemsConserved(s)
  }

  ghost predicate Initial(s: State) {
    && s.count == 0 && s.emptySlots == |s.data| && s.filledSlots == 0 && s.owner.None?
    && s.produced == s.consumed == []
    && forall t :: 0 <= t < |s.threads| ==> s.threads[t].pc.Idle?
  }

  function Produced(s: State): nat {
    |s.produced| + Total(Remaining(Producer), s.threads)
  }

  function Consumed(s: State): nat {
    |s.consumed| + Total(Remaining(Consumer), s.threads)
  }

  /** How often a value was or will be produced. */
  function Known(s: State, item: int): nat {
    multiset(s.produced)[item] + Total(Holding(item), s.threads)
  }

  ghost predicate Kept(s: State, s': State) {
    && Inv(s')
    && |s'.data| == |s.data| && |s'.threads| == |s.threads|
    && Produced(s') == Produced(s) && Consumed(s') == Consumed(s)
    && Total(Fuel, s'.threads) == Total(Fuel, s.threads) - 1
    && forall item :: Known(s', item) == Known(s, item)
  }

  lemma NobodyInFlight(threads: seq<Thread>)
    requires forall t :: 0 <= t < |threads| ==> threads[t].pc.Idle?
    ensures forall kind :: Total(Before(kind), threads) == 0
    ensures forall kind :: Total(Behind(kind), threads) == 0
  {
    forall kind ensures Total(Before(kind), threads) == 0 {
      SumOfZeros(Values(Before(kind), threads));
    }
    forall kind ensures Total(Behind(kind), threads) == 0 {
      SumOfZeros(Values(Behind(kind), threads));
    }
  }

  lemma InitialInv(s: State)
    requires Initial(s)
    ensures Inv(s)
  {
    NobodyInFlight(s.threads);
    assert s.data[..0] == [];
  }

  /** Every access is in bounds: a thread inside the lock before its access has a slot. */
  lemma AccessInBounds(s: State, t: nat)
    requires Inv(s) && t < |s.threads| && s.threads[t].pc.Locked?
    ensures 0 <= Index(s, t) < |s.data|
  {
    TotalAtLeast(Before(s.threads[t].task.Kind()), s.threads, t);
  }

  lemma PutConserves(data: seq<int>, count: nat, item: int)
    requires count < |data|
    ensures multiset(data[count := item][..count + 1]) == multiset(data[..count]) + multiset{item}
  {
    assert data[count := item][..count + 1] == data[..count] + [item];
  }

  lemma TakeConserves(data: seq<int>, count: nat)
    requires 0 < count <= |data|
    ensures multiset(data[..count]) == multiset(data[..count - 1]) + multiset{data[count - 1]}
  {
    assert data[..count] == data[..count - 1] + [data[count - 1]];
  }

  lemma ProduceConserves(s: State, t: nat)
    requires ItemsConserved(s) && Enabled(s, Access(t)) && s.threads[t].task.Insert? && s.count < |s.data|
    ensures ItemsConserved(Apply(s, Access(t)))
  {
    var s', item := Apply(s, Access(t)), s.threads[t].task.items[0];
    PutConserves(s.data, s.count, item);
    assert s'.data == s.data[s.count := item] && s'.count == s.count + 1;
    assert s'.produced == s.produced + [item] && s'.consumed == s.consumed;
  }

  lemma ConsumeConserves(s: State, t: nat)
    requires ItemsConserved(s) && Enabled(s, Access(t)) && s.threads[t].task.Extract? && 0 < s.count
    ensures ItemsConserved(Apply(s, Access(t)))
  {
    TakeConserves(s.data, s.count);
  }

  lemma StepKeepsThreads(s: State, a: Action)
    requires Inv(s) && Enabled(s, a)
    ensures var s' := Apply(s, a);
            && |s'.threads| == |s.threads|
            && (s'.owner.Some? ==> s'.owner.value < |s'.threads|)
            && forall t :: 0 <= t < |s'.threads| ==> ThreadOk(s', t)
  {
    var s' := Apply(s, a);
    assert ThreadOk(s, a.t);
    forall t | 0 <= t < |s'.threads| ensures ThreadOk(s', t) {
      assert ThreadOk(s, t);
    }
  }

  /** What the four in-flight counts lose and gain by a step. */
  lemma InFlightStep(s: State, a: Action, kind: Kind)
    requires Enabled(s, a)
    ensures var me, threads := s.threads[a.t], Apply(s, a).threads;
            var mine := me.task.Kind() == kind;
            && Total(Before(kind), threads) == Total(Before(kind), s.threads)
                 + (if mine && a.Wait? then 1 else if mine && a.Access? then -1 else 0)
            && Total(Behind(kind), threads) == Total(Behind(kind), s.threads)
                 + (if mine && a.Access? then 1 else if mine && a.Post? then -1 else 0)
  {
    var th := NextThread(s.threads[a.t], a);
    TotalUpdate(Before(kind), s.threads, a.t, th);
    TotalUpdate(Behind(kind), s.threads, a.t, th);
  }

  /** The semaphores follow. */
  lemma StepKeepsSlots(s: State, a: Action)
    requires Inv(s) && Enabled(s, a)
    ensures SlotsAccounted(Apply(s, a))
  {
    InFlightStep(s, a, Producer);
    InFlightStep(s, a, Consumer);
  }

  lemma OneStepLess(th: Thread, a: Action, s: State)
    requires Enabled(s, a) && th == s.threads[a.t] && ThreadOk(s, a.t)
    ensures StepsLeft(NextThread(th, a)) == StepsLeft(th) - 1
    ensures NextThread(th, a).task.Kind() == th.task.Kind()
    ensures NextThread(th, a).task.Left() == th.task.Left() - if a.Access? then 1 else 0
  {
  }

  lemma StepKeepsTasks(s: State, a: Action)
    requires Inv(s) && Enabled(s, a)
    ensures var s' := Apply(s, a);
            && Produced(s') == Produced(s) && Consumed(s') == Consumed(s)
            && Total(Fuel, s'.threads) == Total(Fuel, s.threads) - 1
  {
    var me := s.threads[a.t];
    assert ThreadOk(s, a.t);
    OneStepLess(me, a, s);
    TotalUpdate(Remaining(Producer), s.threads, a.t, NextThread(me, a));
    TotalUpdate(Remaining(Consumer), s.threads, a.t, NextThread(me, a));
    TotalUpdate(Fuel, s.threads, a.t, NextThread(me, a));
  }

  /** A value leaves its producer when it is produced. */
  lemma StepKeepsItems(s: State, a: Action, item: int)
    requires Enabled(s, a)
    ensures Known(Apply(s, a), item) == Known(s, item)
  {
    var me := s.threads[a.t];
    TotalUpdate(Holding(item), s.threads, a.t, NextThread(me, a));
    if a.Access? && me.task.Insert? {
      assert me.task.items == [me.task.items[0]] + me.task.items[1..];
    }
  }

  lemma StepKeeps(s: State, a: Action)
    requires Inv(s) && Enabled(s, a)
    ensures Kept(s, Apply(s, a))
  {
    StepKeepsThreads(s, a);
    StepKeepsSlots(s, a);
    StepKeepsTasks(s, a);
    forall item ensures Known(Apply(s, a), item) == Known(s, item) {
      StepKeepsItems(s, a, item);
    }
    if a.Access? {
      AccessInBounds(s, a.t);
      if s.threads[a.t].task.Insert? {
        ProduceConserves(s, a.t);
      } else {
        ConsumeConserves(s, a.t);
      }
    }
  }

  // ----- progress and whole runs

  ghost predicate AllFinished(s: State) {
    forall t :: 0 <= t < |s.threads| ==> s.threads[t].Finished()
  }

  /** What is produced exceeds what is consumed by what the buffer may still hold. */
  ghost predicate Balanced(s: State) {
    0 <= Produced(s) - Consumed(s) <= |s.data|
  }

  lemma SameNumber(s: State)
    requires ItemsConserved(s)
    ensures |s.produced| == |s.consumed| + s.count
  {
    assert |multiset(s.produced)| == |multiset(s.consumed)| + |multiset(s.data[..s.count])|;
  }

  lemma NobodyWaitsForever(s: State)
    requires Inv(s) && Balanced(s) && 1 <= |s.data|
    requires forall t :: 0 <= t < |s.threads| ==> s.threads[t].pc.Idle?
    requires Total(Remaining(Producer), s.threads) > 0 ==> s.emptySlots == 0
    requires Total(Remaining(Consumer), s.threads) > 0 ==> s.filledSlots == 0
    ensures AllFinished(s)
  {
    NobodyInFlight(s.threads);
    SameNumber(s);
    assert Total(Remaining(Producer), s.threads) == 0 && Total(Remaining(Consumer), s.threads) == 0;
    forall t | 0 <= t < |s.threads| ensures s.threads[t].Finished() {
      TotalAtLeast(Remaining(s.threads[t].task.Kind()), s.threads, t);
    }
  }

  lemma NotStuck(s: State) returns (a: Action)
    requires Inv(s) && Balanced(s) && 1 <= |s.data| && !AllFinished(s)
    ensures Enabled(s, a)
  {
    if s.owner.Some? {
      var t := s.owner.value;
      assert ThreadOk(s, t);
      a := if s.threads[t].pc.Locked? then Access(t) else Unlock(t);
    } else if t :| 0 <= t < |s.threads| && !s.threads[t].pc.Idle? {
      assert ThreadOk(s, t);
      a := if s.threads[t].pc.Claimed? then Lock(t) else Post(t);
    } else if s.emptySlots > 0 && Total(Remaining(Producer), s.threads) > 0 {
      var t := TotalPositive(Remaining(Producer), s.threads);
      a := Wait(t);
    } else if s.filledSlots > 0 && Total(Remaining(Consumer), s.threads) > 0 {
      var t := TotalPositive(Remaining(Consumer), s.threads);
      a := Wait(t);
    } else {
      NobodyWaitsForever(s);
      assert false;
    }
  }

  ghost predicate CanRun(s: State, run: seq<Action>)
    decreases |run|
  {
    run == [] || (Enabled(s, run[0]) && CanRun(Apply(s, run[0]), run[1..]))
  }

  ghost function After(s: State, run: seq<Action>): State
    requires CanRun(s, run)
    decreases |run|
  {
    if run == [] then s else After(Apply(s, run[0]), run[1..])
  }

  ghost predicate Completes(s: State, run: seq<Action>) {
    CanRun(s, run) && AllFinished(After(s, run))
  }

  /** In every interleaving nothing is lost or duplicated, and every step brings the
      program exactly one step nearer to its end. */
  lemma {:induction false} RunKeeps(s: State, run: seq<Action>)
    requires Inv(s) && CanRun(s, run)
    ensures Inv(After(s, run))
    ensures Produced(After(s, run)) == Produced(s) && Consumed(After(s, run)) == Consumed(s)
    ensures |After(s, run).data| == |s.data|
    ensures forall item :: Known(After(s, run), item) == Known(s, item)
    ensures |run| == Total(Fuel, s.threads) - Total(Fuel, After(s, run).threads)
    decreases |run|
  {
    if run != [] {
      StepKeeps(s, run[0]);
      RunKeeps(Apply(s, run[0]), run[1..]);
    }
  }

  lemma {:induction false} RunToTheEnd(s: State) returns (run: seq<Action>)
    requires Inv(s) && Balanced(s) && 1 <= |s.data|
    ensures Completes(s, run)
    decreases Total(Fuel, s.threads)
  {
    if AllFinished(s) {
      run := [];
    } else {
      var a := NotStuck(s);
      StepKeeps(s, a);
      var rest := RunToTheEnd(Apply(s, a));
      run := [a] + rest;
      assert run[1..] == rest;
    }
  }

  lemma FinishedIsBalanced(s: State)
    requires Inv(s) && AllFinished(s)
    ensures Balanced(s) && Total(Fuel, s.threads) == 0
  {
    SumOfZeros(Values(Remaining(Producer), s.threads));
    SumOfZeros(Values(Remaining(Consumer), s.threads));
    SumOfZeros(Values(Fuel, s.threads));
    SameNumber(s);
  }

  /** The program can run to completion exactly if production exceeds consumption by no
      more than the buffer holds. */
  lemma CompletesIffBalanced(s: State)
    requires Initial(s) && 1 <= |s.data|
    ensures (exists run :: Completes(s, run)) <==> Balanced(s)
  {
    InitialInv(s);
    if Balanced(s) {
      var run := RunToTheEnd(s);
      assert Completes(s, run);
    }
    forall run | Completes(s, run) ensures Balanced(s) {
      RunKeeps(s, run);
      FinishedIsBalanced(After(s, run));
    }
  }

  /** Then every run is on its way there: it can go on until it has taken exactly as
      many steps as every other complete run. */
  lemma BalancedRunsComplete(s: State, run: seq<Action>)
    requires Initial(s) && 1 <= |s.data| && Balanced(s) && CanRun(s, run)
    ensures |run| <= Total(Fuel, s.threads)
    ensures |run| == Total(Fuel, s.threads) <==> Completes(s, run)
    ensures |run| < Total(Fuel, s.threads) <==> exists a :: Enabled(After(s, run), a)
  {
    InitialInv(s);
    RunKeeps(s, run);
    var s' := After(s, run);
    if AllFinished(s') {
      FinishedIsBalanced(s');
    } else {
      var a := NotStuck(s');
    }
    forall a | Enabled(s', a) ensures Total(Fuel, s'.threads) > 0 {
      StepKeeps(s', a);
    }
  }

  /** The accounting in every reachable state: every slot is free, filled or claimed, all
      accesses are in bounds, and what was produced was consumed or is in the buffer. */
  lemma SlotsAndItems(s: State, run: seq<Action>)
    requires Initial(s) && CanRun(s, run)
    ensures var s' := After(s, run);
            && s'.emptySlots + s'.filledSlots
               + Total(Before(Producer), s'.threads) + Total(Behind(Producer), s'.threads)
               + Total(Before(Consumer), s'.threads) + Total(Behind(Consumer), s'.threads) == |s.data|
            && ItemsConserved(s')
            && forall t :: 0 <= t < |s'.threads| && s'.threads[t].pc.Locked? ==> 0 <= Index(s', t) < |s.data|
  {
    InitialInv(s);
    RunKeeps(s, run);
    var s' := After(s, run);
    forall t | 0 <= t < |s'.threads| && s'.threads[t].pc.Locked? ensures 0 <= Index(s', t) < |s.data| {
      AccessInBounds(s', t);
    }
  }

  /** What was produced is what the producers started with, but for what they still have. */
  lemma ProducedFromTasks(s: State, run: seq<Action>, item: int)
    requires Initial(s) && CanRun(s, run)
    ensures multiset(After(s, run).produced)[item] + Total(Holding(item), After(s, run).threads) == Total(Holding(item), s.threads)
  {
    InitialInv(s);
    RunKeeps(s, run);
    assert Known(After(s, run), item) == Known(s, item);
  }

  // ----- the buffer is a stack

  /** An access, without the definition of the step: a producer puts its next item on top of the
      filled slots; a consumer takes the last filled slot and leaves the others as they are. */
  lemma AccessIsStackOperation(s: State, t: nat)
    requires Inv(s) && Enabled(s, Access(t))
    ensures var s', me := Apply(s, Access(t)), s.threads[t].task;
            && 0 <= s.count <= |s.data| && 0 <= s'.count <= |s'.data| == |s.data|
            && match me
               case Insert(items) =>
                 && s'.data[..s'.count] == s.data[..s.count] + [items[0]]
                 && s'.produced == s.produced + [items[0]] && s'.consumed == s.consumed
                 && s'.threads == s.threads[t := Thread(Insert(items[1..]), Accessed)]
               case Extract(count) =>
                 && 0 < s.count == s'.count + 1 && s'.data == s.data
                 && s'.consumed == s.consumed + [s.data[s.count - 1]] && s'.produced == s.produced
                 && s'.threads == s.threads[t := Thread(Extract(count - 1), Accessed)]
  {
    AccessInBounds(s, t);
  }

  datatype Event = In(item: int) | Out(item: int)

  /** What a step adds to the histories. */
  function Traffic(s: State, s': State): seq<Event> {
    (if |s.produced| < |s'.produced| then [In(s'.produced[|s.produced|])] else [])
    + if |s.consumed| < |s'.consumed| then [Out(s'.consumed[|s.consumed|])] else []
  }

  /** The productions and consumptions along a run, in order. */
  ghost function Trace(s: State, run: seq<Action>): seq<Event>
    requires CanRun(s, run)
    decreases |run|
  {
    if run == [] then [] else Traffic(s, Apply(s, run[0])) + Trace(Apply(s, run[0]), run[1..])
  }

  /** Replays events on a stack; only the item on top, the one put in last, can come out. */
  function Replay(stack: seq<int>, events: seq<Event>): Option<seq<int>>
    decreases |events|
  {
    if events == [] then Some(stack)
    else
      var top := |stack| - 1;
      match events[0]
      case In(item) => Replay(stack + [item], events[1..])
      case Out(item) => if top >= 0 && stack[top] == item then Replay(stack[..top], events[1..]) else None
  }

  lemma ReplayStep(s: State, a: Action, rest: seq<Event>)
    requires Inv(s) && Enabled(s, a) && 0 <= Apply(s, a).count <= |Apply(s, a).data|
    ensures var s' := Apply(s, a);
            Replay(s.data[..s.count], Traffic(s, s') + rest) == Replay(s'.data[..s'.count], rest)
  {
    var s' := Apply(s, a);
    if a.Access? {
      AccessIsStackOperation(s, a.t);
      var stack := s.data[..s.count];
      if s.threads[a.t].task.Insert? {
        assert Traffic(s, s') == [In(s.threads[a.t].task.items[0])];
        assert ([In(s.threads[a.t].task.items[0])] + rest)[1..] == rest;
      } else {
        assert Traffic(s, s') == [Out(s.data[s.count - 1])];
        assert ([Out(s.data[s.count - 1])] + rest)[1..] == rest;
        assert stack[..s.count - 1] == s'.data[..s'.count];
      }
    } else {
      assert Traffic(s, s') == [];
      assert [] + rest == rest;
    }
  }

  /** In every interleaving each consumed item is the one produced last among those still in the
      buffer, and what the replay leaves is what the buffer holds. */
  lemma {:induction false} ConsumedIsLatestProduced(s: State, run: seq<Action>)
    requires Inv(s) && CanRun(s, run)
    ensures 0 <= After(s, run).count <= |After(s, run).data|
    ensures Replay(s.data[..s.count], Trace(s, run)) == Some(After(s, run).data[..After(s, run).count])
    decreases |run|
  {
    if run != [] {
      var s1 := Apply(s, run[0]);
      StepKeeps(s, run[0]);
      ConsumedIsLatestProduced(s1, run[1..]);
      ReplayStep(s, run[0], Trace(s1, run[1..]));
    }
  }

  lemma BufferIsStack(s: State, run: seq<Action>)
    requires Initial(s) && CanRun(s, run)
    ensures 0 <= After(s, run).count <= |After(s, run).data|
    ensures Replay([], Trace(s, run)) == Some(After(s, run).data[..After(s, run).count])
  {
    InitialInv(s);
    ConsumedIsLatestProduced(s, run);
    assert s.data[..0] == [];
  }

  // ----- the critical sections on the real buffer

  /** SharedBuffer between lock and unlock. */
  class SharedBuffer {
    const data: array<int>
    var count: nat

    ghost predicate Valid()
      reads this
    {
      count <= data.Length
    }

    ghost function Contents(): seq<int>
      requires Valid()
      reads this, data
    {
      data[..count]
    }

    constructor (size: nat)
      ensures Valid() && fresh(data) && data.Length == size && Contents() == []
    {
      data := new int[size](_ => 0);
      count := 0;
    }

    method Add(item: int)
      requires Valid() && count < data.Length
      modifies this, data
      ensures Valid() && Contents() == old(Contents()) + [item] && count == old(count) + 1
      ensures data[..] == old(data[..])[old(count) := item]
    {
      data[count] := item;
      count := count + 1;
    }

    method Remove() returns (item: int)
      requires Valid() && 0 < count
      modifies this
      ensures Valid() && old(Contents()) == Contents() + [item] && count == old(count) - 1
    {
      count := count - 1;
      item := data[count];
    }

    /** The buffer of the step machine is the real one. */
    ghost predicate Shows(s: State)
      reads this, data
    {
      s.data == data[..] && s.count == count
    }

    /** A producer's access in the machine is Add on the real buffer. */
    method AddFor(ghost s: State, ghost t: nat, item: int)
      requires Shows(s) && Inv(s) && Enabled(s, Access(t)) && s.threads[t].task.Insert? && item == s.threads[t].task.items[0]
      modifies this, data
      ensures Shows(Apply(s, Access(t))) && Apply(s, Access(t)).produced == s.produced + [item]
    {
      AccessInBounds(s, t);
      Add(item);
    }

    /** A consumer's access in the machine is Remove on the real buffer. */
    method RemoveFor(ghost s: State, ghost t: nat) returns (item: int)
      requires Shows(s) && Inv(s) && Enabled(s, Access(t)) && s.threads[t].task.Extract?
      modifies this
      ensures Shows(Apply(s, Access(t))) && Apply(s, Access(t)).consumed == s.consumed + [item]
    {
      AccessInBounds(s, t);
      item := Remove();
    }
  }
}
