/** round_robin_scheduling and the exact completion time of every process. */
module RoundRobin {
  import opened Common
  import opened Sums

  datatype Process = Process(id: int, arrival: int, burst: int, remaining: int, waiting: int, turnaround: int)

  /** The number of turns a process needs. */
  function Turns(work: int, quantum: int): int
    requires 1 <= quantum
  {
    (work + quantum - 1) / quantum
  }

  /** The work done on each process when the first i have had one turn more than the rest:
      at most `level` + quantum on the former, at most `level` on the latter. */
  function Done(work: seq<int>, i: nat, level: int, quantum: int): seq<int> {
    seq(|work|, j requires 0 <= j < |work| => Min(work[j], if j < i then level + quantum else level))
  }

  /** When process i leaves: everyone up to it has had as many turns as it needs, the
      others one turn less, and the processor was never idle. */
  function FinishTime(work: seq<int>, quantum: int, i: nat): int
    requires 1 <= quantum && i < |work|
  {
    Sum(Done(work, i + 1, (Turns(work[i], quantum) - 1) * quantum, quantum))
  }

  function Work(processes: seq<Process>): seq<int> {
    seq(|processes|, i requires 0 <= i < |processes| => processes[i].remaining)
  }

  function Bursts(processes: seq<Process>): seq<int> {
    seq(|processes|, i requires 0 <= i < |processes| => processes[i].burst)
  }

  function Completed(p: Process, finish: int): Process {
    p.(remaining := 0, turnaround := finish - p.arrival, waiting := finish - p.arrival - p.burst)
  }

  /** The record of process j once `done` of its work is done. */
  function RecordAt(initial: seq<Process>, quantum: int, j: nat, done: int): Process
    requires 1 <= quantum && j < |initial|
  {
    if done == initial[j].remaining then Completed(initial[j], FinishTime(Work(initial), quantum, j))
    else initial[j].(remaining := initial[j].remaining - done)
  }

  ghost predicate Recorded(processes: seq<Process>, initial: seq<Process>, quantum: int, done: seq<int>)
    requires 1 <= quantum
  {
    |processes| == |initial| == |done| && forall j :: 0 <= j < |initial| ==> processes[j] == RecordAt(initial, quantum, j, done[j])
  }

  function Finished(work: seq<int>, done: seq<int>): (v: seq<int>)
    requires |work| == |done|
  {
    seq(|work|, j requires 0 <= j < |work| => if done[j] == work[j] then 1 else 0)
  }

  /** The turnaround times of the processes that have finished. */
  function Accrued(initial: seq<Process>, quantum: int, done: seq<int>): (v: seq<int>)
    requires 1 <= quantum && |initial| == |done|
  {
    seq(|initial|, j requires 0 <= j < |initial| =>
      if done[j] == initial[j].remaining then FinishTime(Work(initial), quantum, j) - initial[j].arrival else 0)
  }

  function AccruedBursts(initial: seq<Process>, done: seq<int>): (v: seq<int>)
    requires |initial| == |done|
  {
    seq(|initial|, j requires 0 <= j < |initial| => if done[j] == initial[j].remaining then initial[j].burst else 0)
  }

  // ----- arithmetic of turns

  lemma TurnsBetween(work: int, quantum: int, k: int)
    requires 1 <= quantum && k * quantum < work <= k * quantum + quantum
    ensures Turns(work, quantum) == k + 1
  {
    var rest := work + quantum - 1 - (k + 1) * quantum;
    assert (k + 1) * quantum == k * quantum + quantum;
    DivideExactly(k + 1, quantum, rest);
  }

  lemma DivideExactly(k: int, quantum: int, rest: int)
    requires 0 <= rest < quantum
    ensures (k * quantum + rest) / quantum == k
  {
    var total := k * quantum + rest;
    var d, m := total / quantum, total % quantum;
    assert total == quantum * d + m;
    if d > k {
      MoreTurns(quantum, k + 1, d);
    } else if d < k {
      MoreTurns(quantum, d + 1, k);
    }
  }

  lemma MoreTurns(quantum: int, a: int, b: int)
    requires 0 < quantum && a <= b
    ensures quantum * (a - 1) + quantum <= quantum * b
  {
    var gap := b - a;
    assert quantum * b == quantum * (a - 1) + quantum + quantum * gap;
  }

  /** A process that finishes during its turn at level k * quantum does so at its finish time. */
  lemma FinishesNow(work: seq<int>, quantum: int, i: nat, k: int)
    requires 1 <= quantum && i < |work| && k * quantum < work[i] <= k * quantum + quantum
    ensures FinishTime(work, quantum, i) == Sum(Done(work, i + 1, k * quantum, quantum))
  {
    TurnsBetween(work[i], quantum, k);
  }

  /** The finish time in closed form: a process that needs r turns leaves when everyone up to it
      has had r of them and everyone behind it r - 1, each as far as there was work. */
  lemma FinishTimeIs(work: seq<int>, quantum: int, i: nat, r: int)
    requires 1 <= quantum && i < |work| && r * quantum - quantum < work[i] <= r * quantum
    ensures FinishTime(work, quantum, i)
         == Sum(seq(|work|, j requires 0 <= j < |work| =>
                      var most := if j <= i then r * quantum else r * quantum - quantum;
                      if work[j] < most then work[j] else most))
  {
    assert (r - 1) * quantum == r * quantum - quantum;
    FinishesNow(work, quantum, i, r - 1);
    assert Done(work, i + 1, (r - 1) * quantum, quantum)
        == seq(|work|, j requires 0 <= j < |work| =>
                 var most := if j <= i then r * quantum else r * quantum - quantum;
                 if work[j] < most then work[j] else most);
  }

  lemma NextTurn(work: seq<int>, i: nat, level: int, quantum: int)
    requires 1 <= quantum && i < |work|
    ensures Done(work, i + 1, level, quantum) == Done(work, i, level, quantum)[i := Min(work[i], level + quantum)]
    ensures Sum(Done(work, i + 1, level, quantum))
         == Sum(Done(work, i, level, quantum)) + Min(work[i], level + quantum) - Min(work[i], level)
  {
    SumUpdate(Done(work, i, level, quantum), i, Min(work[i], level + quantum));
  }

  lemma NextRound(work: seq<int>, level: int, quantum: int)
    ensures Done(work, |work|, level, quantum) == Done(work, 0, level + quantum, quantum)
  {
  }

  lemma {:induction false} AllOnes(v: seq<int>)
    requires forall j :: 0 <= j < |v| ==> v[j] == 1
    ensures Sum(v) == |v|
  {
    if v != [] {
      AllOnes(v[..|v| - 1]);
    }
  }

  /** Exactly when everybody has finished does the counter reach n. */
  lemma {:induction false} SomeUnfinished(v: seq<int>) returns (j: nat)
    requires forall k :: 0 <= k < |v| ==> 0 <= v[k] <= 1
    requires Sum(v) < |v|
    ensures j < |v| && v[j] == 0
  {
    var m := |v| - 1;
    if v[m] == 0 {
      j := m;
    } else {
      j := SomeUnfinished(v[..m]);
    }
  }

  lemma {:induction false} FullMeansAll(v: seq<int>, j: nat)
    requires forall k :: 0 <= k < |v| ==> 0 <= v[k] <= 1
    requires Sum(v) >= |v| && j < |v|
    ensures v[j] == 1
  {
    var ones := seq(|v|, _ => 1);
    AllOnes(ones);
    if v[j] == 0 {
      SumStrict(v, ones, j);
    }
  }

  // ----- the loops

  /** The loop state: records, clock, counter and accumulators after the work `done`. */
  ghost predicate Books(initial: seq<Process>, processes: seq<Process>, quantum: int, done: seq<int>,
                        now: int, completed: int, totalWaiting: int, totalTurnaround: int)
    requires 1 <= quantum
  {
    && Recorded(processes, initial, quantum, done)
    && now == Sum(done)
    && completed == Sum(Finished(Work(initial), done))
    && totalTurnaround == Sum(Accrued(initial, quantum, done))
    && totalWaiting == totalTurnaround - Sum(AccruedBursts(initial, done))
  }

  lemma BooksOpen(initial: seq<Process>, quantum: int)
    requires 1 <= quantum && forall j :: 0 <= j < |initial| ==> 0 < initial[j].remaining
    ensures Books(initial, initial, quantum, Done(Work(initial), 0, 0, quantum), 0, 0, 0, 0)
  {
    var done := Done(Work(initial), 0, 0, quantum);
    SumOfZeros(done);
    SumOfZeros(Finished(Work(initial), done));
    SumOfZeros(Accrued(initial, quantum, done));
    SumOfZeros(AccruedBursts(initial, done));
  }

  /** More work on process i, to the amount `more` in all, finishing it or not. */
  lemma BooksAfterTurn(initial: seq<Process>, processes: seq<Process>, quantum: int, done: seq<int>,
                       now: int, completed: int, totalWaiting: int, totalTurnaround: int, i: nat, more: int)
    requires 1 <= quantum && i < |initial|
    requires Books(initial, processes, quantum, done, now, completed, totalWaiting, totalTurnaround)
    requires done[i] < more <= initial[i].remaining
    ensures var record := RecordAt(initial, quantum, i, more);
            var now' := now + more - done[i];
            && processes[i] == initial[i].(remaining := initial[i].remaining - done[i])
            && if more == initial[i].remaining
               then Books(initial, processes[i := record], quantum, done[i := more], now', completed + 1,
                          totalWaiting + FinishTime(Work(initial), quantum, i) - initial[i].arrival - initial[i].burst,
                          totalTurnaround + FinishTime(Work(initial), quantum, i) - initial[i].arrival)
               else Books(initial, processes[i := record], quantum, done[i := more], now', completed,
                          totalWaiting, totalTurnaround)
  {
    SumUpdate(done, i, more);
    FinishedAfterTurn(Work(initial), done, i, more);
    AccruedAfterTurn(initial, quantum, done, i, more);
  }

  lemma FinishedAfterTurn(work: seq<int>, done: seq<int>, i: nat, more: int)
    requires |work| == |done| && i < |work| && done[i] < more <= work[i]
    ensures Sum(Finished(work, done[i := more])) == Sum(Finished(work, done)) + if more == work[i] then 1 else 0
  {
    var flag := if more == work[i] then 1 else 0;
    assert Finished(work, done[i := more]) == Finished(work, done)[i := flag];
    SumUpdate(Finished(work, done), i, flag);
  }

  lemma AccruedAfterTurn(initial: seq<Process>, quantum: int, done: seq<int>, i: nat, more: int)
    requires 1 <= quantum && |initial| == |done| && i < |initial| && done[i] < more <= initial[i].remaining
    ensures var last, finish := more == initial[i].remaining, FinishTime(Work(initial), quantum, i);
            && Sum(Accrued(initial, quantum, done[i := more]))
               == Sum(Accrued(initial, quantum, done)) + (if last then finish - initial[i].arrival else 0)
            && Sum(AccruedBursts(initial, done[i := more]))
               == Sum(AccruedBursts(initial, done)) + if last then initial[i].burst else 0
  {
    var last, finish := more == initial[i].remaining, FinishTime(Work(initial), quantum, i);
    var x, y := if last then finish - initial[i].arrival else 0, if last then initial[i].burst else 0;
    assert Accrued(initial, quantum, done[i := more]) == Accrued(initial, quantum, done)[i := x];
    assert AccruedBursts(initial, done[i := more]) == AccruedBursts(initial, done)[i := y];
    SumUpdate(Accrued(initial, quantum, done), i, x);
    SumUpdate(AccruedBursts(initial, done), i, y);
  }

  /** The record of a process that runs from `now` for at most a quantum. */
  function AfterTurn(p: Process, quantum: int, now: int): Process {
    var time := Min(p.remaining, quantum);
    if time == p.remaining then Completed(p, now + time) else p.(remaining := p.remaining - time)
  }

  method Execute(processes: array<Process>, quantum: int, i: nat, now: int) returns (executeTime: int)
    requires i < processes.Length && 0 < processes[i].remaining && 1 <= quantum
    modifies processes
    ensures executeTime == if old(processes[i]).remaining < quantum then old(processes[i]).remaining else quantum
    ensures processes[..] == old(processes[..])[i := AfterTurn(old(processes[i]), quantum, now)]
    ensures processes[i] == AfterTurn(old(processes[i]), quantum, now)
  {
    executeTime := if processes[i].remaining < quantum then processes[i].remaining else quantum;
    processes[i] := processes[i].(remaining := processes[i].remaining - executeTime);
    if processes[i].remaining == 0 {
      processes[i] := processes[i].(turnaround := now + executeTime - processes[i].arrival);
      processes[i] := processes[i].(waiting := processes[i].turnaround - processes[i].burst);
    }
  }

  /** The most work anyone has had after k full rounds. */
  function Level(k: nat, quantum: int): int {
    if k == 0 then 0 else Level(k - 1, quantum) + quantum
  }

  lemma {:induction false} LevelIs(k: nat, quantum: int)
    ensures Level(k, quantum) == k * quantum
  {
    if k > 0 {
      LevelIs(k - 1, quantum);
      assert k * quantum == (k - 1) * quantum + quantum;
    }
  }

  /** One turn of process i in round k. */
  method Turn(processes: array<Process>, quantum: int, i: nat, now: int, completed: int,
              totalWaiting: int, totalTurnaround: int, ghost initial: seq<Process>, ghost k: nat)
    returns (now': int, completed': int, totalWaiting': int, totalTurnaround': int)
    requires 1 <= quantum && i < processes.Length == |initial|
    requires forall j :: 0 <= j < |initial| ==> 0 < initial[j].remaining
    requires Books(initial, processes[..], quantum, Done(Work(initial), i, Level(k, quantum), quantum),
                   now, completed, totalWaiting, totalTurnaround)
    modifies processes
    ensures Books(initial, processes[..], quantum, Done(Work(initial), i + 1, Level(k, quantum), quantum),
                  now', completed', totalWaiting', totalTurnaround')
    ensures forall j :: 0 <= j < processes.Length && j != i ==> processes[j] == old(processes[j])
    ensures var p, was := processes[i], old(processes[i]);
            var time := if was.remaining < quantum then was.remaining else quantum;
            && now' == now + time && p.remaining == was.remaining - time
            && p.id == was.id && p.arrival == was.arrival && p.burst == was.burst
            && if was.remaining > 0 && p.remaining == 0 then
                 && p.turnaround == now' - p.arrival && p.waiting == p.turnaround - p.burst && completed' == completed + 1
                 && totalWaiting' == totalWaiting + p.waiting && totalTurnaround' == totalTurnaround + p.turnaround
               else
                 && p.turnaround == was.turnaround && p.waiting == was.waiting && completed' == completed
                 && totalWaiting' == totalWaiting && totalTurnaround' == totalTurnaround
  {
    ghost var before := processes[..];
    ghost var level, done := Level(k, quantum), Done(Work(initial), i, Level(k, quantum), quantum);
    ghost var more := Min(initial[i].remaining, level + quantum);
    now', completed', totalWaiting', totalTurnaround' := now, completed, totalWaiting, totalTurnaround;
    NextTurn(Work(initial), i, level, quantum);
    assert processes[i] == before[i] == RecordAt(initial, quantum, i, done[i]);
    if processes[i].remaining > 0 {
      BooksAfterTurn(initial, before, quantum, done, now, completed, totalWaiting, totalTurnaround, i, more);
      if more == initial[i].remaining {
        LevelIs(k, quantum);
        FinishesNow(Work(initial), quantum, i, k);
      }
      var executeTime := Execute(processes, quantum, i, now);
      now' := now + executeTime;
      if processes[i].remaining == 0 {
        completed' := completed + 1;
        totalWaiting' := totalWaiting + processes[i].waiting;
        totalTurnaround' := totalTurnaround + processes[i].turnaround;
      }
    } else {
      assert done[i] == initial[i].remaining == more;
      assert Done(Work(initial), i + 1, level, quantum) == done;
    }
  }

  lemma {:induction false} LargestWork(work: seq<int>) returns (top: int)
    ensures forall j :: 0 <= j < |work| ==> work[j] <= top
  {
    top := 0;
    if work != [] {
      var m := |work| - 1;
      top := LargestWork(work[..m]);
      forall j | 0 <= j < m ensures work[j] <= top {
        assert work[j] == work[..m][j];
      }
      if top < work[m] {
        top := work[m];
      }
    }
  }

  /** While the counter is below n there is work above the current level. */
  lemma UnfinishedIsAboveLevel(work: seq<int>, level: int, quantum: int, top: int)
    requires forall j :: 0 <= j < |work| ==> work[j] <= top
    requires Sum(Finished(work, Done(work, 0, level, quantum))) < |work|
    ensures level < top
  {
    var j := SomeUnfinished(Finished(work, Done(work, 0, level, quantum)));
  }

  lemma TotalsOfRecords(initial: seq<Process>, p: seq<Process>, quantum: int)
    requires 1 <= quantum && |p| == |initial|
    requires forall j :: 0 <= j < |initial| ==>
               && p[j].turnaround == FinishTime(Work(initial), quantum, j) - initial[j].arrival
               && p[j].waiting == p[j].turnaround - initial[j].burst
    ensures Sum(seq(|p|, i requires 0 <= i < |p| => p[i].turnaround)) == Sum(Turnarounds(initial, quantum))
    ensures Sum(seq(|p|, i requires 0 <= i < |p| => p[i].waiting)) == Sum(Turnarounds(initial, quantum)) - Sum(Bursts(initial))
  {
    var turnarounds := seq(|p|, i requires 0 <= i < |p| => p[i].turnaround);
    assert turnarounds == Turnarounds(initial, quantum);
    SumDifference(seq(|p|, i requires 0 <= i < |p| => p[i].waiting), turnarounds, Bursts(initial));
  }

  lemma BooksClosed(initial: seq<Process>, processes: seq<Process>, quantum: int, done: seq<int>,
                    now: int, completed: int, totalWaiting: int, totalTurnaround: int)
    requires 1 <= quantum && |initial| <= completed
    requires Books(initial, processes, quantum, done, now, completed, totalWaiting, totalTurnaround)
    ensures forall j :: 0 <= j < |initial| ==>
              var p, was := processes[j], initial[j];
              && p.id == was.id && p.arrival == was.arrival && p.burst == was.burst && p.remaining == 0
              && p.turnaround == FinishTime(Work(initial), quantum, j) - was.arrival
              && p.waiting == p.turnaround - was.burst
    ensures |processes| == |initial| && now == Sum(Work(initial))
    ensures totalTurnaround == Sum(Turnarounds(initial, quantum))
    ensures totalWaiting == totalTurnaround - Sum(Bursts(initial))
    ensures totalTurnaround == Sum(seq(|processes|, i requires 0 <= i < |processes| => processes[i].turnaround))
    ensures totalWaiting == Sum(seq(|processes|, i requires 0 <= i < |processes| => processes[i].waiting))
  {
    forall j | 0 <= j < |initial| ensures done[j] == initial[j].remaining {
      FullMeansAll(Finished(Work(initial), done), j);
    }
    assert done == Work(initial);
    assert Accrued(initial, quantum, done) == Turnarounds(initial, quantum);
    assert AccruedBursts(initial, done) == Bursts(initial);
    TotalsOfRecords(initial, processes, quantum);
  }

  function Turnarounds(initial: seq<Process>, quantum: int): seq<int>
    requires 1 <= quantum
  {
    seq(|initial|, j requires 0 <= j < |initial| => FinishTime(Work(initial), quantum, j) - initial[j].arrival)
  }

  /** Round k: one turn for every process in order. */
  method Round(processes: array<Process>, quantum: int, now: int, completed: int,
               totalWaiting: int, totalTurnaround: int, ghost initial: seq<Process>, ghost k: nat)
    returns (now': int, completed': int, totalWaiting': int, totalTurnaround': int)
    requires 1 <= quantum && processes.Length == |initial|
    requires forall j :: 0 <= j < |initial| ==> 0 < initial[j].remaining
    requires Books(initial, processes[..], quantum, Done(Work(initial), 0, Level(k, quantum), quantum),
                   now, completed, totalWaiting, totalTurnaround)
    modifies processes
    ensures Books(initial, processes[..], quantum, Done(Work(initial), 0, Level(k + 1, quantum), quantum),
                  now', completed', totalWaiting', totalTurnaround')
  {
    now', completed', totalWaiting', totalTurnaround' := now, completed, totalWaiting, totalTurnaround;
    for i := 0 to processes.Length
      invariant Books(initial, processes[..], quantum, Done(Work(initial), i, Level(k, quantum), quantum),
                      now', completed', totalWaiting', totalTurnaround')
    {
      now', completed', totalWaiting', totalTurnaround' :=
        Turn(processes, quantum, i, now', completed', totalWaiting', totalTurnaround', initial, k);
    }
    NextRound(Work(initial), Level(k, quantum), quantum);
  }

  /** Runs every process to completion in turns; each leaves exactly at its finish time. */
  method RoundRobinScheduling(processes: array<Process>, quantum: int)
    returns (now: int, totalWaiting: int, totalTurnaround: int)
    requires 1 <= quantum
    requires forall j :: 0 <= j < processes.Length ==> 0 < processes[j].remaining
    modifies processes
    ensures forall j :: 0 <= j < processes.Length ==>
              var p, was := processes[..][j], old(processes[..])[j];
              && p.id == was.id && p.arrival == was.arrival && p.burst == was.burst && p.remaining == 0
              && p.turnaround == FinishTime(Work(old(processes[..])), quantum, j) - was.arrival
              && p.waiting == p.turnaround - was.burst
    ensures now == Sum(Work(old(processes[..])))
    ensures totalTurnaround == Sum(Turnarounds(old(processes[..]), quantum))
    ensures totalWaiting == totalTurnaround - Sum(Bursts(old(processes[..])))
    ensures var p := processes[..];
            && totalTurnaround == Sum(seq(|p|, i requires 0 <= i < |p| => p[i].turnaround))
            && totalWaiting == Sum(seq(|p|, i requires 0 <= i < |p| => p[i].waiting))
  {
    ghost var initial, k := processes[..], 0;
    ghost var top := LargestWork(Work(initial));
    var completed := 0;
    now, totalWaiting, totalTurnaround := 0, 0, 0;
    ghost var done := Done(Work(initial), 0, 0, quantum);
    BooksOpen(initial, quantum);
    while completed < processes.Length
      invariant 0 <= k && done == Done(Work(initial), 0, Level(k, quantum), quantum)
      invariant Books(initial, processes[..], quantum, done, now, completed, totalWaiting, totalTurnaround)
      decreases top - Level(k, quantum)
    {
      UnfinishedIsAboveLevel(Work(initial), Level(k, quantum), quantum, top);
      now, completed, totalWaiting, totalTurnaround :=
        Round(processes, quantum, now, completed, totalWaiting, totalTurnaround, initial, k);
      k := k + 1;
      done := Done(Work(initial), 0, Level(k, quantum), quantum);
    }
    BooksClosed(initial, processes[..], quantum, done, now, completed, totalWaiting, totalTurnaround);
  }

  // ----- the order in which processes leave

  lemma TurnsAreEnough(work: int, quantum: int)
    requires 1 <= quantum && 0 < work
    ensures (Turns(work, quantum) - 1) * quantum < work <= (Turns(work, quantum) - 1) * quantum + quantum
  {
    var d, m := (work + quantum - 1) / quantum, (work + quantum - 1) % quantum;
    assert work + quantum - 1 == quantum * d + m;
    assert (d - 1) * quantum == quantum * d - quantum;
  }

  /** Processes leave in order of the turns they need, ties in order of position; no
      process overtakes another that needs no more turns and stands before it. */
  lemma FinishesInOrder(work: seq<int>, quantum: int, i: nat, j: nat)
    requires 1 <= quantum && i < |work| && j < |work| && forall k :: 0 <= k < |work| ==> 0 < work[k]
    requires var a, b := Turns(work[i], quantum), Turns(work[j], quantum); a < b || (a == b && i < j)
    ensures FinishTime(work, quantum, i) < FinishTime(work, quantum, j)
  {
    var a, b := Turns(work[i], quantum), Turns(work[j], quantum);
    TurnsAreEnough(work[j], quantum);
    if a < b {
      MoreTurns(quantum, a, b - 1);
      assert quantum * (a - 1) == (a - 1) * quantum && quantum * (b - 1) == (b - 1) * quantum;
    }
    var mine, theirs := Done(work, i + 1, (a - 1) * quantum, quantum), Done(work, j + 1, (b - 1) * quantum, quantum);
    assert mine[j] < theirs[j];
    SumStrict(mine, theirs, j);
  }
}
