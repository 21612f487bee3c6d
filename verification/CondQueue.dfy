/** The condition-variable ring queue as a step machine.  Every lock, test, wait,
    wake-up, signal and unlock of a thread is a step of its own; a signal wakes at
    least one waiter if there is one, and waiters may wake spuriously. */
module CondQueue {
  import opened Common
  import opened Sums
  import opened Tasks

  /** Where a thread is in queue_push or queue_pop. */
  datatype Pc = Idle | Testing | Sleeping | Woken | Acting | Signalling | Unlocking

  datatype Thread = Thread(task: Task, pc: Pc) {
    predicate Inside() {
      pc.Testing? || pc.Acting? || pc.Signalling? || pc.Unlocking?
    }

    predicate Finished() {
      pc.Idle? && task.Left() == 0
    }
  }

  /** The shared ring, the mutex, the threads, and a history of all values moved. */
  datatype State = State(data: seq<int>, front: nat, rear: nat, owner: Option<nat>, threads: seq<Thread>,
                         pushed: seq<int>, popped: seq<int>)

  // ----- the ring

  function Next(i: nat, size: nat): nat
    requires 1 <= size
  {
    (i + 1) % size
  }

  predicate RingOk(data: seq<int>, front: nat, rear: nat) {
    front < |data| && rear < |data|
  }

  /** The queued values, oldest first. */
  function Contents(data: seq<int>, front: nat, rear: nat): seq<int>
    requires RingOk(data, front, rear)
  {
    if front <= rear then data[front..rear] else data[front..] + data[..rear]
  }

  lemma NextIs(i: nat, size: nat)
    requires i < size
    ensures Next(i, size) == if i + 1 == size then 0 else i + 1
  {
  }

  /** The ring is full at size - 1 values and empty when the indices meet. */
  lemma FullAndEmpty(data: seq<int>, front: nat, rear: nat)
    requires RingOk(data, front, rear)
    ensures |Contents(data, front, rear)| <= |data| - 1
    ensures Next(rear, |data|) == front <==> |Contents(data, front, rear)| == |data| - 1
    ensures front == rear <==> Contents(data, front, rear) == []
  {
    NextIs(rear, |data|);
  }

  lemma PushRefines(data: seq<int>, front: nat, rear: nat, value: int)
    requires RingOk(data, front, rear) && Next(rear, |data|) != front
    ensures RingOk(data[rear := value], front, Next(rear, |data|))
    ensures Contents(data[rear := value], front, Next(rear, |data|)) == Contents(data, front, rear) + [value]
  {
    NextIs(rear, |data|);
  }

  lemma PopRefines(data: seq<int>, front: nat, rear: nat)
    requires RingOk(data, front, rear) && front != rear
    ensures RingOk(data, Next(front, |data|), rear)
    ensures Contents(data, front, rear) == [data[front]] + Contents(data, Next(front, |data|), rear)
  {
    NextIs(front, |data|);
    DropFirst(data, front, rear);
  }

  lemma DropFirst(data: seq<int>, front: nat, rear: nat)
    requires RingOk(data, front, rear) && front != rear
    ensures front < rear ==> data[front..rear] == [data[front]] + data[front + 1..rear]
    ensures data[front..] == [data[front]] + data[front + 1..]
    ensures front < rear || data[front..] + data[..rear] == [data[front]] + (data[front + 1..] + data[..rear])
    ensures front + 1 == |data| ==> data[front + 1..] + data[..rear] == data[0..rear]
  {
  }

  // ----- the steps

  datatype Action =
    | Lock(t: nat)
    | Test(t: nat)
    | Act(t: nat)
    | Signal(t: nat, woken: set<nat>)
    | Unlock(t: nat)
    | Spurious(t: nat)

  predicate IsSleeper(threads: seq<Thread>, kind: Kind, t: nat) {
    t < |threads| && threads[t].pc.Sleeping? && threads[t].task.Kind() == kind
  }

  /** The loop condition of the wait: the producer's queue is full, the consumer's empty. */
  predicate MustWait(s: State, kind: Kind)
    requires RingOk(s.data, s.front, s.rear)
  {
    if kind.Producer? then Next(s.rear, |s.data|) == s.front else s.front == s.rear
  }

  /** What a thread can do next.  That the indices are in range and work is left whenever
      a thread tests or acts is not a restriction but holds in every reachable state. */
  ghost predicate Enabled(s: State, a: Action) {
    && a.t < |s.threads|
    && var me := s.threads[a.t];
       match a
       case Lock(_) => s.owner.None? && (me.pc.Woken? || (me.pc.Idle? && me.task.Left() > 0))
       case Test(_) => me.pc.Testing? && RingOk(s.data, s.front, s.rear)
       case Act(_) => me.pc.Acting? && RingOk(s.data, s.front, s.rear) && me.task.Left() > 0
       case Signal(_, woken) =>
         && me.pc.Signalling?
         && (forall w :: w in woken ==> IsSleeper(s.threads, me.task.Kind().Other(), w))
         && ((exists w :: IsSleeper(s.threads, me.task.Kind().Other(), w)) ==> woken != {})
       case Unlock(_) => me.pc.Unlocking?
       case Spurious(_) => me.pc.Sleeping?
  }

  function Wake(threads: seq<Thread>, woken: set<nat>): (r: seq<Thread>)
    ensures |r| == |threads|
  {
    seq(|threads|, i requires 0 <= i < |threads| => if i in woken then threads[i].(pc := Woken) else threads[i])
  }

  /** What a step does to the thread that takes it. */
  function NextThread(me: Thread, a: Action, mustWait: bool): Thread {
    match a
    case Lock(_) => me.(pc := Testing)
    case Test(_) => me.(pc := if mustWait then Sleeping else Acting)
    case Act(_) => Thread(me.task.Rest(), Signalling)
    case Signal(_, _) => me.(pc := Unlocking)
    case Unlock(_) => me.(pc := Idle)
    case Spurious(_) => me.(pc := Woken)
  }

  function Apply(s: State, a: Action): (s': State)
    requires Enabled(s, a)
    ensures |s'.threads| == |s.threads|
  {
    var me := s.threads[a.t];
    var mustWait := a.Test? && MustWait(s, me.task.Kind());
    var others := if a.Signal? then Wake(s.threads, a.woken) else s.threads;
    var s' := s.(threads := others[a.t := NextThread(me, a, mustWait)]);
    match a
    case Lock(_) => s'.(owner := Some(a.t))
    case Test(_) => if mustWait then s'.(owner := None) else s'
    case Act(_) =>
      if me.task.Insert? then
        s'.(data := s.data[s.rear := me.task.items[0]], rear := Next(s.rear, |s.data|),
            pushed := s.pushed + [me.task.items[0]])
      else
        s'.(front := Next(s.front, |s.data|), popped := s.popped + [s.data[s.front]])
    case Unlock(_) => s'.(owner := None)
    case _ => s'
  }

  // ----- counting threads

  /** Numbers that are summed over all threads. */
  datatype Weight = Asleep(kind: Kind) | Coming(kind: Kind) | Remaining(kind: Kind) | SignalsDue | Rank

  function Value(w: Weight, th: Thread): nat {
    match w
    case Asleep(kind) => if th.pc.Sleeping? && th.task.Kind() == kind then 1 else 0
    case Coming(kind) =>
      // Threads of this kind that will test the queue again, and signals still due to them.
      if th.task.Kind() == kind then (if th.pc.Woken? || th.pc.Testing? || th.pc.Acting? then 1 else 0)
      else if th.pc.Signalling? then 1 else 0
    case Remaining(kind) => if th.task.Kind() == kind then th.task.Left() else 0
    case SignalsDue => th.task.Left() + if th.pc.Signalling? then 1 else 0
    case Rank => RankOf(th)
  }

  /** How far a thread is from its next signal; only signals let ranks rise. */
  function RankOf(th: Thread): nat {
    match th.pc
    case Unlocking => 6
    case Idle => if th.task.Left() > 0 then 5 else 0
    case Woken => 4
    case Testing => 3
    case Sleeping => 2
    case Acting => 2
    case Signalling => 1
  }

  function Values(w: Weight, threads: seq<Thread>): (v: seq<int>)
    ensures |v| == |threads| && forall i :: 0 <= i < |v| ==> v[i] == Value(w, threads[i])
  {
    seq(|threads|, i requires 0 <= i < |threads| => Value(w, threads[i]))
  }

  function Total(w: Weight, threads: seq<Thread>): (total: nat)
  {
    SumAtLeast(Values(w, threads), 0);
    Sum(Values(w, threads))
  }

  lemma TotalUpdate(w: Weight, threads: seq<Thread>, t: nat, th: Thread)
    requires t < |threads|
    ensures Total(w, threads[t := th]) == Total(w, threads) - Value(w, threads[t]) + Value(w, th)
  {
    SumUpdate(Values(w, threads), t, Value(w, th));
    assert Values(w, threads[t := th]) == Values(w, threads)[t := Value(w, th)];
  }

  lemma TotalPositive(w: Weight, threads: seq<Thread>) returns (t: nat)
    requires Total(w, threads) > 0
    ensures t < |threads| && Value(w, threads[t]) > 0
  {
    t := SumPositive(Values(w, threads));
  }

  // ----- the invariant

  function Length(s: State): nat
    requires RingOk(s.data, s.front, s.rear)
  {
    |Contents(s.data, s.front, s.rear)|
  }

  /** How many operations of this kind would be possible without waiting. */
  function Supply(s: State, kind: Kind): int
    requires RingOk(s.data, s.front, s.rear)
  {
    if kind.Consumer? then Length(s) else |s.data| - 1 - Length(s)
  }

  /** No wake-up is lost: while anyone of this kind sleeps, enough others of its kind are
      on their way, or will be signalled, to use up the whole supply. */
  ghost predicate NoLostWakeup(s: State, kind: Kind)
    requires RingOk(s.data, s.front, s.rear)
  {
    Total(Asleep(kind), s.threads) > 0 ==> Supply(s, kind) <= Total(Coming(kind), s.threads)
  }

  ghost predicate ThreadOk(s: State, t: nat)
    requires t < |s.threads| && RingOk(s.data, s.front, s.rear)
  {
    var th := s.threads[t];
    && (th.Inside() <==> s.owner == Some(t))
    && (th.pc.Testing? || th.pc.Sleeping? || th.pc.Woken? || th.pc.Acting? ==> th.task.Left() > 0)
    && (th.pc.Acting? ==> !MustWait(s, th.task.Kind()))
  }

  ghost predicate Inv(s: State) {
    && RingOk(s.data, s.front, s.rear)
    && (s.owner.Some? ==> s.owner.value < |s.threads|)
    && (forall t :: 0 <= t < |s.threads| ==> ThreadOk(s, t))
    && s.popped + Contents(s.data, s.front, s.rear) == s.pushed
    && NoLostWakeup(s, Producer) && NoLostWakeup(s, Consumer)
  }

  ghost predicate Initial(s: State) {
    && 1 <= |s.data| && s.front == s.rear == 0 && s.owner.None?
    && s.pushed == s.popped == []
    && forall t :: 0 <= t < |s.threads| ==> s.threads[t].pc.Idle?
  }

  /** What stays constant: the operations done and still to be done. */
  function Pushes(s: State): nat {
    |s.pushed| + Total(Remaining(Producer), s.threads)
  }

  function Pops(s: State): nat {
    |s.popped| + Total(Remaining(Consumer), s.threads)
  }

  lemma InitialInv(s: State)
    requires Initial(s)
    ensures Inv(s)
  {
    forall kind: Kind ensures NoLostWakeup(s, kind) {
      if Total(Asleep(kind), s.threads) > 0 {
        var t := TotalPositive(Asleep(kind), s.threads);
        assert false;
      }
    }
  }

  /** What every step keeps. */
  ghost predicate Kept(s: State, s': State) {
    && Inv(s')
    && |s'.data| == |s.data| && |s'.threads| == |s.threads|
    && Pushes(s') == Pushes(s) && Pops(s') == Pops(s)
    && s.pushed <= s'.pushed && s.popped <= s'.popped
  }

  /** The ring after a step, and how many values it gained. */
  lemma RingStep(s: State, a: Action)
    requires Inv(s) && Enabled(s, a)
    ensures var s', me := Apply(s, a), s.threads[a.t];
            && RingOk(s'.data, s'.front, s'.rear) && |s'.data| == |s.data|
            && s'.popped + Contents(s'.data, s'.front, s'.rear) == s'.pushed
            && Length(s') == Length(s) + (if !a.Act? then 0 else if me.task.Insert? then 1 else -1)
            && s.pushed <= s'.pushed && s.popped <= s'.popped
            && |s'.pushed| == |s.pushed| + (if a.Act? && me.task.Insert? then 1 else 0)
            && |s'.popped| == |s.popped| + if a.Act? && me.task.Extract? then 1 else 0
  {
    if a.Act? {
      var me, queued := s.threads[a.t], Contents(s.data, s.front, s.rear);
      assert ThreadOk(s, a.t);
      FullAndEmpty(s.data, s.front, s.rear);
      if me.task.Insert? {
        PushRefines(s.data, s.front, s.rear, me.task.items[0]);
        Regroup(s.popped, queued, [me.task.items[0]]);
      } else {
        PopRefines(s.data, s.front, s.rear);
        Regroup(s.popped, [s.data[s.front]], Contents(s.data, Next(s.front, |s.data|), s.rear));
      }
    }
  }

  lemma Regroup(a: seq<int>, b: seq<int>, c: seq<int>)
    ensures a + (b + c) == a + b + c
  {
  }

  /** Waking threads changes nobody's task, puts nobody to sleep and stops nobody. */
  lemma WakeTotals(threads: seq<Thread>, woken: set<nat>, kind: Kind)
    requires forall w :: w in woken && w < |threads| ==> threads[w].pc.Sleeping?
    ensures var awake := Wake(threads, woken);
            && Total(Remaining(kind), awake) == Total(Remaining(kind), threads)
            && Total(Asleep(kind), awake) <= Total(Asleep(kind), threads)
            && Total(Coming(kind), threads) <= Total(Coming(kind), awake)
  {
    var awake := Wake(threads, woken);
    assert Values(Remaining(kind), awake) == Values(Remaining(kind), threads);
    SumMonotone(Values(Asleep(kind), awake), Values(Asleep(kind), threads));
    SumMonotone(Values(Coming(kind), threads), Values(Coming(kind), awake));
  }

  /** If anyone of the signalled kind sleeps, one more of them comes. */
  lemma SignalIsReceived(s: State, t: nat, woken: set<nat>)
    requires Enabled(s, Signal(t, woken))
    requires Total(Asleep(s.threads[t].task.Kind().Other()), s.threads) > 0
    ensures var other := s.threads[t].task.Kind().Other();
            Total(Coming(other), s.threads) < Total(Coming(other), Wake(s.threads, woken))
  {
    var other := s.threads[t].task.Kind().Other();
    var sleeper := TotalPositive(Asleep(other), s.threads);
    assert IsSleeper(s.threads, other, sleeper);
    var w :| w in woken;
    assert IsSleeper(s.threads, other, w);
    SumStrict(Values(Coming(other), s.threads), Values(Coming(other), Wake(s.threads, woken)), w);
  }

  /** The counts after a step that wakes nobody: sleepers, ... */
  lemma QuietAsleep(s: State, a: Action, kind: Kind)
    requires RingOk(s.data, s.front, s.rear) && Enabled(s, a) && !a.Signal?
    ensures !(s.threads[a.t].task.Kind() == kind && a.Test? && MustWait(s, kind)) ==>
              Total(Asleep(kind), Apply(s, a).threads) <= Total(Asleep(kind), s.threads)
  {
    var me := s.threads[a.t];
    TotalUpdate(Asleep(kind), s.threads, a.t, NextThread(me, a, a.Test? && MustWait(s, me.task.Kind())));
  }

  /** ... threads on their way, ... */
  lemma QuietComing(s: State, a: Action, kind: Kind)
    requires RingOk(s.data, s.front, s.rear) && Enabled(s, a) && !a.Signal?
    ensures var mine := s.threads[a.t].task.Kind() == kind;
            Total(Coming(kind), Apply(s, a).threads) >= Total(Coming(kind), s.threads)
              + if mine && (a.Act? || (a.Test? && MustWait(s, kind))) then -1 else if !mine && a.Act? then 1 else 0
  {
    var me := s.threads[a.t];
    TotalUpdate(Coming(kind), s.threads, a.t, NextThread(me, a, a.Test? && MustWait(s, me.task.Kind())));
  }

  /** ... and operations left. */
  lemma QuietRemaining(s: State, a: Action, kind: Kind)
    requires RingOk(s.data, s.front, s.rear) && Enabled(s, a) && !a.Signal?
    ensures var mine := s.threads[a.t].task.Kind() == kind;
            Total(Remaining(kind), Apply(s, a).threads)
              == Total(Remaining(kind), s.threads) - if mine && a.Act? then 1 else 0
  {
    var me := s.threads[a.t];
    TotalUpdate(Remaining(kind), s.threads, a.t, NextThread(me, a, a.Test? && MustWait(s, me.task.Kind())));
  }

  /** The counts after a signal: it costs the signaller's share and brings a woken one. */
  lemma SignalComing(s: State, t: nat, woken: set<nat>, kind: Kind)
    requires Enabled(s, Signal(t, woken)) && Total(Asleep(kind), s.threads) > 0
    ensures Total(Coming(kind), s.threads) <= Total(Coming(kind), Apply(s, Signal(t, woken)).threads)
  {
    var me, awake := s.threads[t], Wake(s.threads, woken);
    assert t !in woken;
    WakeTotals(s.threads, woken, kind);
    TotalUpdate(Coming(kind), awake, t, me.(pc := Unlocking));
    if kind == me.task.Kind().Other() {
      SignalIsReceived(s, t, woken);
    }
  }

  lemma SignalAsleep(s: State, t: nat, woken: set<nat>, kind: Kind)
    requires Enabled(s, Signal(t, woken))
    ensures Total(Asleep(kind), Apply(s, Signal(t, woken)).threads) <= Total(Asleep(kind), s.threads)
  {
    WakeTotals(s.threads, woken, kind);
    TotalUpdate(Asleep(kind), Wake(s.threads, woken), t, s.threads[t].(pc := Unlocking));
  }

  lemma SignalRemaining(s: State, t: nat, woken: set<nat>, kind: Kind)
    requires Enabled(s, Signal(t, woken))
    ensures Total(Remaining(kind), Apply(s, Signal(t, woken)).threads) == Total(Remaining(kind), s.threads)
  {
    WakeTotals(s.threads, woken, kind);
    TotalUpdate(Remaining(kind), Wake(s.threads, woken), t, s.threads[t].(pc := Unlocking));
  }

  lemma StepKeepsWakeups(s: State, a: Action, kind: Kind)
    requires Inv(s) && Enabled(s, a)
    ensures RingOk(Apply(s, a).data, Apply(s, a).front, Apply(s, a).rear)
    ensures NoLostWakeup(Apply(s, a), kind)
  {
    RingStep(s, a);
    FullAndEmpty(s.data, s.front, s.rear);
    if !a.Signal? {
      QuietAsleep(s, a, kind);
      QuietComing(s, a, kind);
    } else {
      SignalAsleep(s, a.t, a.woken, kind);
      if Total(Asleep(kind), s.threads) > 0 {
        SignalComing(s, a.t, a.woken, kind);
      }
    }
  }

  lemma StepKeepsTasks(s: State, a: Action)
    requires Inv(s) && Enabled(s, a)
    ensures Pushes(Apply(s, a)) == Pushes(s) && Pops(Apply(s, a)) == Pops(s)
  {
    var me := s.threads[a.t];
    assert |Apply(s, a).pushed| == |s.pushed| + (if a.Act? && me.task.Insert? then 1 else 0)
        && |Apply(s, a).popped| == |s.popped| + (if a.Act? && me.task.Extract? then 1 else 0) by {
      RingStep(s, a);
    }
    if a.Signal? {
      SignalRemaining(s, a.t, a.woken, Producer);
      SignalRemaining(s, a.t, a.woken, Consumer);
    } else {
      QuietRemaining(s, a, Producer);
      QuietRemaining(s, a, Consumer);
    }
  }

  lemma StepKeepsThreads(s: State, a: Action)
    requires Inv(s) && Enabled(s, a)
    ensures var s' := Apply(s, a);
            && RingOk(s'.data, s'.front, s'.rear)
            && (s'.owner.Some? ==> s'.owner.value < |s'.threads|)
            && forall t :: 0 <= t < |s'.threads| ==> ThreadOk(s', t)
  {
    var s' := Apply(s, a);
    RingStep(s, a);
    assert ThreadOk(s, a.t);
    forall t | 0 <= t < |s'.threads| ensures ThreadOk(s', t) {
      assert ThreadOk(s, t);
    }
  }

  lemma StepKeeps(s: State, a: Action)
    requires Inv(s) && Enabled(s, a)
    ensures Kept(s, Apply(s, a))
  {
    RingStep(s, a);
    StepKeepsThreads(s, a);
    StepKeepsWakeups(s, a, Producer);
    StepKeepsWakeups(s, a, Consumer);
    StepKeepsTasks(s, a);
  }

  // ----- progress

  /** An upper bound on the steps left, counting what the signals due may stir up among
      n threads: due * (2n + 6) + rank. */
  function Budget(due: nat, n: nat, rank: nat): nat {
    if due == 0 then rank else Budget(due - 1, n, rank) + 2 * n + 6
  }

  function Fuel(s: State): nat {
    Budget(Total(SignalsDue, s.threads), |s.threads|, Total(Rank, s.threads))
  }

  lemma {:induction false} BudgetShift(due: nat, n: nat, rank: nat, rank': nat)
    ensures Budget(due, n, rank') == Budget(due, n, rank) + rank' - rank
  {
    if due > 0 {
      BudgetShift(due - 1, n, rank, rank');
    }
  }

  lemma RankOfWake(threads: seq<Thread>, woken: set<nat>)
    requires forall w :: w in woken && w < |threads| ==> threads[w].pc.Sleeping?
    ensures Total(Rank, Wake(threads, woken)) <= Total(Rank, threads) + 2 * |threads|
    ensures Total(SignalsDue, Wake(threads, woken)) == Total(SignalsDue, threads)
  {
    var awake := Wake(threads, woken);
    forall i | 0 <= i < |threads|
      ensures Value(Rank, awake[i]) <= Value(Rank, threads[i]) + 2
      ensures Value(SignalsDue, awake[i]) == Value(SignalsDue, threads[i])
    {
      assert i in woken ==> threads[i].pc.Sleeping?;
    }
    SumGrowth(Values(Rank, threads), Values(Rank, awake));
    assert Values(SignalsDue, awake) == Values(SignalsDue, threads);
  }

  lemma SignalBurnsFuel(s: State, t: nat, woken: set<nat>)
    requires Enabled(s, Signal(t, woken))
    ensures var threads := Apply(s, Signal(t, woken)).threads;
            && Total(SignalsDue, threads) == Total(SignalsDue, s.threads) - 1
            && Total(Rank, threads) <= Total(Rank, s.threads) + 2 * |s.threads| + 5
  {
    var me := s.threads[t].(pc := Unlocking);
    assert t !in woken;
    RankOfWake(s.threads, woken);
    TotalUpdate(SignalsDue, Wake(s.threads, woken), t, me);
    TotalUpdate(Rank, Wake(s.threads, woken), t, me);
  }

  lemma NextThreadBurnsFuel(s: State, a: Action, mustWait: bool)
    requires RingOk(s.data, s.front, s.rear) && Enabled(s, a) && !a.Signal? && ThreadOk(s, a.t)
    ensures var th, th' := s.threads[a.t], NextThread(s.threads[a.t], a, mustWait);
            && Value(SignalsDue, th') == Value(SignalsDue, th)
            && Value(Rank, th') <= Value(Rank, th) + if a.Spurious? then 2 else -1
  {
  }

  lemma QuietBurnsFuel(s: State, a: Action)
    requires RingOk(s.data, s.front, s.rear) && Enabled(s, a) && !a.Signal? && ThreadOk(s, a.t)
    ensures var threads := Apply(s, a).threads;
            && Total(SignalsDue, threads) == Total(SignalsDue, s.threads)
            && Total(Rank, threads) <= Total(Rank, s.threads) + if a.Spurious? then 2 else -1
  {
    var mustWait := a.Test? && MustWait(s, s.threads[a.t].task.Kind());
    var th := NextThread(s.threads[a.t], a, mustWait);
    NextThreadBurnsFuel(s, a, mustWait);
    TotalUpdate(SignalsDue, s.threads, a.t, th);
    TotalUpdate(Rank, s.threads, a.t, th);
  }

  /** Every step but a spurious wake-up burns fuel. */
  lemma StepBurnsFuel(s: State, a: Action)
    requires RingOk(s.data, s.front, s.rear) && Enabled(s, a) && ThreadOk(s, a.t)
    ensures Fuel(Apply(s, a)) <= Fuel(s) + if a.Spurious? then 2 else -1
  {
    var due, n, rank := Total(SignalsDue, s.threads), |s.threads|, Total(Rank, s.threads);
    var rank' := Total(Rank, Apply(s, a).threads);
    if a.Signal? {
      SignalBurnsFuel(s, a.t, a.woken);
      BudgetShift(due - 1, n, rank, rank');
    } else {
      QuietBurnsFuel(s, a);
      BudgetShift(due, n, rank, rank');
    }
  }

  ghost predicate AllFinished(s: State) {
    forall t :: 0 <= t < |s.threads| ==> s.threads[t].Finished()
  }

  /** Pushes and pops are matched, up to what the ring may still hold at the end. */
  ghost predicate Balanced(s: State) {
    0 <= Pushes(s) - Pops(s) <= |s.data| - 1
  }

  /** With no thread inside the lock, none woken and none ready to start, everybody is
      asleep or finished; then nobody is asleep. */
  lemma NobodyAsleepForever(s: State)
    requires Inv(s) && Balanced(s) && 2 <= |s.data|
    requires forall t :: 0 <= t < |s.threads| ==> s.threads[t].pc.Sleeping? || s.threads[t].Finished()
    ensures AllFinished(s)
  {
    FullAndEmpty(s.data, s.front, s.rear);
    assert |s.pushed| == |s.popped| + Length(s);
    forall kind: Kind ensures Total(Coming(kind), s.threads) == 0 {
      if Total(Coming(kind), s.threads) > 0 {
        var t := TotalPositive(Coming(kind), s.threads);
        assert false;
      }
    }
    forall kind: Kind | Total(Remaining(kind), s.threads) > 0 ensures Supply(s, kind) <= 0 {
      var t := TotalPositive(Remaining(kind), s.threads);
      SumAtLeast(Values(Asleep(kind), s.threads), t);
    }
    // A sleeping consumer means an empty ring, a sleeping producer a full one.
    assert Total(Remaining(Producer), s.threads) == 0 && Total(Remaining(Consumer), s.threads) == 0;
    forall t | 0 <= t < |s.threads| ensures s.threads[t].Finished() {
      SumAtLeast(Values(Remaining(s.threads[t].task.Kind()), s.threads), t);
      assert ThreadOk(s, t);
    }
  }

  function AllSleepers(threads: seq<Thread>, kind: Kind): (r: set<nat>)
    ensures forall w :: w in r <==> IsSleeper(threads, kind, w)
  {
    set w: nat | 0 <= w < |threads| && IsSleeper(threads, kind, w)
  }

  /** No reachable state is stuck: some thread can take a step that is not a spurious wake-up. */
  lemma NotStuck(s: State) returns (a: Action)
    requires Inv(s) && Balanced(s) && 2 <= |s.data| && !AllFinished(s)
    ensures Enabled(s, a) && !a.Spurious?
  {
    if s.owner.Some? {
      var t := s.owner.value;
      assert ThreadOk(s, t);
      a := match s.threads[t].pc
           case Testing => Test(t)
           case Acting => Act(t)
           case Signalling => Signal(t, AllSleepers(s.threads, s.threads[t].task.Kind().Other()))
           case _ => Unlock(t);
    } else if t :| 0 <= t < |s.threads| && !s.threads[t].pc.Sleeping? && !s.threads[t].Finished() {
      assert ThreadOk(s, t);
      a := Lock(t);
    } else {
      NobodyAsleepForever(s);
      assert false;
    }
  }

  // ----- whole runs

  ghost predicate CanRun(s: State, run: seq<Action>)
    decreases |run|
  {
    run == [] || (Enabled(s, run[0]) && CanRun(Apply(s, run[0]), run[1..]))
  }

  ghost function After(s: State, run: seq<Action>): State
    requires CanRun(s, run)
    decreases |run|
  {
    if run == [] then s else After(Apply(s, run[0]), run[1..])
  }

  function SpuriousIn(run: seq<Action>): nat {
    if run == [] then 0 else (if run[0].Spurious? then 1 else 0) + SpuriousIn(run[1..])
  }

  /** Along every run from an initial state the values popped are, in lock order, a prefix
      of the values pushed; the ring holds exactly the rest, and no wake-up is lost. */
  lemma {:induction false} RunKeeps(s: State, run: seq<Action>)
    requires Inv(s) && CanRun(s, run)
    ensures Kept(s, After(s, run))
    decreases |run|
  {
    if run != [] {
      StepKeeps(s, run[0]);
      RunKeeps(Apply(s, run[0]), run[1..]);
    }
  }

  /** No run is longer than its initial fuel and its spurious wake-ups allow. */
  lemma {:induction false} RunsAreBounded(s: State, run: seq<Action>)
    requires Inv(s) && CanRun(s, run)
    ensures |run| <= Fuel(s) + 3 * SpuriousIn(run)
    decreases |run|
  {
    if run != [] {
      StepKeeps(s, run[0]);
      StepBurnsFuel(s, run[0]);
      RunsAreBounded(Apply(s, run[0]), run[1..]);
    }
  }

  lemma {:induction false} RunToTheEnd(s: State) returns (run: seq<Action>)
    requires Inv(s) && Balanced(s) && 2 <= |s.data|
    ensures CanRun(s, run) && AllFinished(After(s, run)) && SpuriousIn(run) == 0
    decreases Fuel(s)
  {
    if AllFinished(s) {
      run := [];
    } else {
      var a := NotStuck(s);
      StepKeeps(s, a);
      StepBurnsFuel(s, a);
      var rest := RunToTheEnd(Apply(s, a));
      run := [a] + rest;
      assert run[1..] == rest;
    }
  }

  lemma FinishedIsBalanced(s: State)
    requires Inv(s) && AllFinished(s)
    ensures Balanced(s)
  {
    forall kind: Kind ensures Total(Remaining(kind), s.threads) == 0 {
      if Total(Remaining(kind), s.threads) > 0 {
        var t := TotalPositive(Remaining(kind), s.threads);
        assert false;
      }
    }
    FullAndEmpty(s.data, s.front, s.rear);
    assert |s.pushed| == |s.popped| + Length(s);
  }

  ghost predicate Completes(s: State, run: seq<Action>) {
    CanRun(s, run) && AllFinished(After(s, run))
  }

  /** The program can run to completion exactly if the pushes exceed the pops by no less
      than nothing and no more than the ring holds. */
  lemma CompletesIffBalanced(s: State)
    requires Initial(s) && 2 <= |s.data|
    ensures (exists run :: Completes(s, run)) <==> Balanced(s)
  {
    InitialInv(s);
    if Balanced(s) {
      var complete := RunToTheEnd(s);
      assert Completes(s, complete);
    }
    forall run | Completes(s, run) ensures Balanced(s) {
      RunKeeps(s, run);
      FinishedIsBalanced(After(s, run));
    }
  }

  /** Then every run that has not completed can go on without a spurious wake-up. */
  lemma BalancedRunsGoOn(s: State, run: seq<Action>) returns (a: Action)
    requires Initial(s) && 2 <= |s.data| && Balanced(s) && CanRun(s, run) && !Completes(s, run)
    ensures Enabled(After(s, run), a) && !a.Spurious?
  {
    InitialInv(s);
    RunKeeps(s, run);
    a := NotStuck(After(s, run));
  }

  /** In every interleaving the ring is a bounded first-in-first-out queue, and at most
      one thread is inside the lock. */
  lemma RingIsBoundedFifo(s: State, run: seq<Action>)
    requires Initial(s) && CanRun(s, run)
    ensures var s' := After(s, run);
            && RingOk(s'.data, s'.front, s'.rear)
            && s'.popped + Contents(s'.data, s'.front, s'.rear) == s'.pushed
            && |Contents(s'.data, s'.front, s'.rear)| <= |s.data| - 1
            && forall t, u :: 0 <= t < u < |s'.threads| ==> !(s'.threads[t].Inside() && s'.threads[u].Inside())
  {
    InitialInv(s);
    RunKeeps(s, run);
    var s' := After(s, run);
    FullAndEmpty(s'.data, s'.front, s'.rear);
    forall t, u | 0 <= t < u < |s'.threads|
      ensures !(s'.threads[t].Inside() && s'.threads[u].Inside())
    {
      assert ThreadOk(s', t) && ThreadOk(s', u);
    }
  }

  // ----- who pushed what

  /** The threads that push along a run, in lock order. */
  ghost function Pushers(s: State, run: seq<Action>): seq<nat>
    requires CanRun(s, run)
    decreases |run|
  {
    if run == [] then []
    else (if run[0].Act? && s.threads[run[0].t].task.Insert? then [run[0].t] else []) + Pushers(Apply(s, run[0]), run[1..])
  }

  /** The values that thread t contributed. */
  function PushedBy(values: seq<int>, pushers: seq<nat>, t: nat): seq<int>
    requires |values| == |pushers|
  {
    if values == [] then []
    else (if pushers[0] == t then [values[0]] else []) + PushedBy(values[1..], pushers[1..], t)
  }

  /** One value further, the rest of a run accounts for the thread's remaining items. */
  lemma OnePushed(value: int, values: seq<int>, pusher: nat, pushers: seq<nat>, t: nat, rest: seq<int>)
    requires |values| == |pushers|
    ensures PushedBy([value] + values, [pusher] + pushers, t) + rest
         == (if pusher == t then [value] else []) + (PushedBy(values, pushers, t) + rest)
  {
    assert ([value] + values)[1..] == values && ([pusher] + pushers)[1..] == pushers;
  }

  lemma StepOfTask(s: State, a: Action, t: nat)
    requires Inv(s) && Enabled(s, a) && t < |s.threads|
    ensures var s' := Apply(s, a);
            && s'.threads[t].task == (if a.Act? && a.t == t then s.threads[t].task.Rest() else s.threads[t].task)
            && s'.pushed == s.pushed + if a.Act? && s.threads[a.t].task.Insert? then [s.threads[a.t].task.items[0]] else []
  {
  }

  /** The items of thread t at one moment are those it pushes until a later one, in order,
      and those it still has then. */
  ghost predicate Accounts(s: State, end: State, pushers: seq<nat>, t: nat) {
    && t < |s.threads| && t < |end.threads| && s.threads[t].task.Insert? && end.threads[t].task.Insert?
    && s.pushed <= end.pushed && |end.pushed| == |s.pushed| + |pushers|
    && PushedBy(end.pushed[|s.pushed|..], pushers, t) + end.threads[t].task.items == s.threads[t].task.items
  }

  lemma AccountsBefore(s: State, a: Action, end: State, pushers: seq<nat>, t: nat)
    requires Inv(s) && Enabled(s, a) && t < |s.threads| && s.threads[t].task.Insert?
    requires Accounts(Apply(s, a), end, pushers, t)
    ensures Accounts(s, end, (if a.Act? && s.threads[a.t].task.Insert? then [a.t] else []) + pushers, t)
  {
    var s1 := Apply(s, a);
    StepOfTask(s, a, t);
    var later := end.pushed[|s1.pushed|..];
    if a.Act? && s.threads[a.t].task.Insert? {
      var value := s.threads[a.t].task.items[0];
      assert s1.pushed[|s.pushed|] == value;
      assert end.pushed[|s.pushed|..] == [value] + later;
      OnePushed(value, later, a.t, pushers, t, end.threads[t].task.items);
    } else {
      assert [] + pushers == pushers;
    }
  }

  lemma {:induction false} RunAccounts(s: State, run: seq<Action>, t: nat, end: State, pushers: seq<nat>)
    requires Inv(s) && CanRun(s, run) && t < |s.threads| && s.threads[t].task.Insert?
    requires end == After(s, run) && pushers == Pushers(s, run)
    ensures Accounts(s, end, pushers, t)
    decreases |run|
  {
    if run == [] {
      assert s.pushed[|s.pushed|..] == [];
    } else {
      var s1 := Apply(s, run[0]);
      StepKeeps(s, run[0]);
      StepOfTask(s, run[0], t);
      RunAccounts(s1, run[1..], t, end, Pushers(s1, run[1..]));
      AccountsBefore(s, run[0], end, Pushers(s1, run[1..]), t);
    }
  }

  /** Every producer's items enter the ring in its own order, each exactly once: the values it
      pushed, followed by those it still has to push, are those it started with. */
  lemma ItemsEnterInOrder(s: State, run: seq<Action>, t: nat)
    requires Initial(s) && CanRun(s, run) && t < |s.threads| && s.threads[t].task.Insert?
    ensures var s', pushers := After(s, run), Pushers(s, run);
            && |s'.pushed| == |pushers| && t < |s'.threads| && s'.threads[t].task.Insert?
            && PushedBy(s'.pushed, pushers, t) + s'.threads[t].task.items == s.threads[t].task.items
  {
    var s' := After(s, run);
    InitialInv(s);
    RunAccounts(s, run, t, s', Pushers(s, run));
    assert s'.pushed[|s.pushed|..] == s'.pushed;
  }

  // ----- the critical sections on the real ring

  /** thread_safe_queue_t without its mutex and condition variables: what queue_push and
      queue_pop do between the end of their wait loop and their signal. */
  class ThreadSafeQueue {
    const data: array<int>
    var front: nat
    var rear: nat

    ghost predicate Valid()
      reads this, data
    {
      RingOk(data[..], front, rear)
    }

    constructor (size: nat)
      requires 1 <= size
      ensures Valid() && fresh(data) && data.Length == size && front == rear == 0
    {
      data := new int[size](_ => 0);
      front, rear := 0, 0;
    }

    method IsFull() returns (full: bool)
      requires Valid()
      ensures full <==> |Contents(data[..], front, rear)| == data.Length - 1
      ensures full <==> (rear + 1) % data.Length == front
    {
      FullAndEmpty(data[..], front, rear);
      full := (rear + 1) % data.Length == front;
    }

    method IsEmpty() returns (empty: bool)
      requires Valid()
      ensures empty <==> Contents(data[..], front, rear) == []
      ensures empty <==> front == rear
    {
      FullAndEmpty(data[..], front, rear);
      empty := front == rear;
    }

    method Put(value: int)
      requires Valid() && |Contents(data[..], front, rear)| < data.Length - 1
      modifies this`rear, data
      ensures Valid() && Contents(data[..], front, rear) == old(Contents(data[..], front, rear)) + [value]
      ensures data[..] == old(data[..])[old(rear) := value] && rear == (old(rear) + 1) % data.Length
    {
      FullAndEmpty(data[..], front, rear);
      PushRefines(data[..], front, rear, value);
      ghost var before := data[..];
      data[rear] := value;
      assert data[..] == before[rear := value];
      rear := Next(rear, data.Length);
    }

    method Take() returns (value: int)
      requires Valid() && Contents(data[..], front, rear) != []
      modifies this`front
      ensures Valid() && [value] + Contents(data[..], front, rear) == old(Contents(data[..], front, rear))
      ensures value == data[old(front)] && front == (old(front) + 1) % data.Length
    {
      FullAndEmpty(data[..], front, rear);
      PopRefines(data[..], front, rear);
      value := data[front];
      front := Next(front, data.Length);
    }

    /** The ring of the step machine is the real one. */
    ghost predicate Shows(s: State)
      reads this, data
    {
      s.data == data[..] && s.front == front && s.rear == rear
    }

    /** A producer's access in the machine is Put on the real ring. */
    method PutFor(ghost s: State, ghost t: nat, item: int)
      requires Shows(s) && Inv(s) && Enabled(s, Act(t)) && s.threads[t].task.Insert? && item == s.threads[t].task.items[0]
      modifies this`rear, data
      ensures Shows(Apply(s, Act(t))) && Apply(s, Act(t)).pushed == s.pushed + [item]
    {
      assert ThreadOk(s, t);
      FullAndEmpty(data[..], front, rear);
      Put(item);
    }

    /** A consumer's access in the machine is Take on the real ring. */
    method TakeFor(ghost s: State, ghost t: nat) returns (item: int)
      requires Shows(s) && Inv(s) && Enabled(s, Act(t)) && s.threads[t].task.Extract?
      modifies this`front
      ensures Shows(Apply(s, Act(t))) && Apply(s, Act(t)).popped == s.popped + [item]
    {
      assert ThreadOk(s, t);
      FullAndEmpty(data[..], front, rear);
      item := Take();
    }
  }
}
