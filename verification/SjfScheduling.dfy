/** sjf_scheduling as the program runs it: a loop over time that decrements the
    remaining time of one job per tick and fills in the process records. */
module SjfScheduling {
  import opened Common
  import opened Sums
  import opened Srpt

  datatype Process = Process(id: int, arrival: int, burst: int, waiting: int, turnaround: int)

  function Arrivals(processes: seq<Process>): seq<int> {
    seq(|processes|, i requires 0 <= i < |processes| => processes[i].arrival)
  }

  function Bursts(processes: seq<Process>): seq<int> {
    seq(|processes|, i requires 0 <= i < |processes| => processes[i].burst)
  }

  /** The record of a process that leaves the processor at time `finish`. */
  function Completed(process: Process, finish: int): Process {
    process.(waiting := finish - process.burst - process.arrival, turnaround := finish - process.arrival)
  }

  /** Every finished process carries the times of the schedule; the others are untouched. */
  ghost predicate Recorded(processes: seq<Process>, initial: seq<Process>, remaining: seq<int>, schedule: Schedule) {
    && |processes| == |initial| == |remaining|
    && forall i :: 0 <= i < |initial| ==>
         processes[i] == if remaining[i] == 0 then Completed(initial[i], Finish(schedule, i)) else initial[i]
  }

  /** What the accumulators hold: the turnaround of the finished processes only. */
  ghost function Accrued(arrivals: seq<int>, remaining: seq<int>, schedule: Schedule): seq<int>
    requires |arrivals| == |remaining|
  {
    seq(|arrivals|, i requires 0 <= i < |arrivals| => if remaining[i] == 0 then Finish(schedule, i) - arrivals[i] else 0)
  }

  ghost function AccruedBursts(bursts: seq<int>, remaining: seq<int>): seq<int>
    requires |bursts| == |remaining|
  {
    seq(|bursts|, i requires 0 <= i < |bursts| => if remaining[i] == 0 then bursts[i] else 0)
  }

  /** The schedule so far: the rule was followed and `remaining` is what is left. */
  ghost predicate Underway(schedule: Schedule, arrivals: seq<int>, bursts: seq<int>, remaining: seq<int>)
    requires |arrivals| == |bursts|
  {
    && |remaining| == |bursts|
    && IsSrpt(schedule, arrivals, bursts)
    && (forall i :: 0 <= i < |bursts| ==> remaining[i] == bursts[i] - Served(schedule, i) && 0 <= remaining[i])
    && (forall t :: 0 <= t < |schedule| && 0 <= schedule[t] < |bursts| ==> arrivals[schedule[t]] <= t)
  }

  /** The program's choice among the jobs that have arrived. */
  ghost predicate Chosen(arrivals: seq<int>, remaining: seq<int>, now: int, job: int)
    requires |arrivals| == |remaining|
  {
    if job == -1 then forall i :: 0 <= i < |remaining| && arrivals[i] <= now ==> remaining[i] <= 0
    else
      && 0 <= job < |remaining| && arrivals[job] <= now && remaining[job] > 0
      && forall i :: 0 <= i < |remaining| && arrivals[i] <= now && remaining[i] > 0 ==> remaining[job] <= remaining[i]
  }

  lemma ServedAfter(schedule: Schedule, slot: int, job: int)
    ensures Served(schedule + [slot], job) == Served(schedule, job) + if slot == job then 1 else 0
    ensures Finish(schedule + [slot], job) == if slot == job then |schedule| + 1 else Finish(schedule, job)
  {
    assert (schedule + [slot])[..|schedule|] == schedule;
  }

  /** A schedule counts as a multiset of jobs, and a job finishes after its last slot. */
  lemma {:induction false} ServedIs(schedule: Schedule, job: int)
    ensures Served(schedule, job) == multiset(schedule)[job]
    ensures 0 <= Finish(schedule, job) <= |schedule|
    ensures job in schedule ==> 1 <= Finish(schedule, job) && schedule[Finish(schedule, job) - 1] == job
    ensures forall t :: Finish(schedule, job) <= t < |schedule| ==> schedule[t] != job
  {
    if schedule != [] {
      var n := |schedule| - 1;
      ServedIs(schedule[..n], job);
      assert schedule == schedule[..n] + [schedule[n]];
    }
  }

  /** Slot t goes to the first of the shortest arrived unfinished jobs, and is idle only
      if there is none. */
  ghost predicate FirstShortest(schedule: Schedule, initial: seq<Process>, t: nat)
    requires t < |schedule|
  {
    var job, done := schedule[t], multiset(schedule[..t]);
    if job == -1 then forall i :: 0 <= i < |initial| && initial[i].arrival <= t ==> done[i] >= initial[i].burst
    else
      && 0 <= job < |initial| && initial[job].arrival <= t && done[job] < initial[job].burst
      && forall i :: 0 <= i < |initial| && initial[i].arrival <= t && done[i] < initial[i].burst ==>
           && initial[job].burst - done[job] <= initial[i].burst - done[i]
           && (i < job ==> initial[job].burst - done[job] < initial[i].burst - done[i])
  }

  ghost predicate FollowsRule(schedule: Schedule, initial: seq<Process>) {
    forall t :: 0 <= t < |schedule| ==> FirstShortest(schedule, initial, t)
  }

  /** The rule in full: slot t goes to the first of the jobs that have arrived by t, are not
      complete, and have least work left; it is idle exactly if there is none. */
  lemma FollowsRuleMeans(schedule: Schedule, initial: seq<Process>, t: nat)
    requires FollowsRule(schedule, initial) && t < |schedule|
    ensures var job, left := schedule[t], seq(|initial|, i requires 0 <= i < |initial| =>
                                                initial[i].burst - multiset(schedule[..t])[i]);
            && -1 <= job < |initial|
            && (job == -1 <==> forall i :: 0 <= i < |initial| && initial[i].arrival <= t ==> left[i] <= 0)
            && (job >= 0 ==> initial[job].arrival <= t && left[job] > 0)
            && (forall i :: 0 <= job && 0 <= i < |initial| && initial[i].arrival <= t && left[i] > 0 ==>
                  if i < job then left[job] < left[i] else left[job] <= left[i])
  {
    assert FirstShortest(schedule, initial, t);
  }

  lemma OneMoreChoice(schedule: Schedule, initial: seq<Process>, remaining: seq<int>, job: int)
    requires Underway(schedule, Arrivals(initial), Bursts(initial), remaining)
    requires Chosen(Arrivals(initial), remaining, |schedule|, job)
    requires forall i :: 0 <= i < job && initial[i].arrival <= |schedule| && remaining[i] > 0 ==> remaining[job] < remaining[i]
    requires FollowsRule(schedule, initial)
    ensures FollowsRule(schedule + [job], initial)
  {
    var longer := schedule + [job];
    forall i | 0 <= i < |initial| ensures remaining[i] == initial[i].burst - multiset(schedule)[i] {
      ServedIs(schedule, i);
      assert Bursts(initial)[i] == initial[i].burst;
    }
    forall t | 0 <= t <= |schedule| ensures FirstShortest(longer, initial, t) {
      assert longer[..t] == schedule[..t];
      if t < |schedule| {
        assert FirstShortest(schedule, initial, t);
      } else {
        assert schedule[..t] == schedule;
        assert forall i :: 0 <= i < |initial| ==> Arrivals(initial)[i] == initial[i].arrival;
      }
    }
  }

  lemma OneMoreSlot(schedule: Schedule, arrivals: seq<int>, bursts: seq<int>, remaining: seq<int>, job: int)
    requires |arrivals| == |bursts| && Underway(schedule, arrivals, bursts, remaining)
    requires Chosen(arrivals, remaining, |schedule|, job)
    ensures Underway(schedule + [job], arrivals, bursts, AfterSlot(remaining, job))
  {
    var longer := schedule + [job];
    forall t | 0 <= t <= |schedule|
      ensures Backlog(longer, arrivals, bursts, t) == Backlog(schedule, arrivals, bursts, t)
    {
      assert longer[..t] == schedule[..t];
    }
    assert longer[..|schedule|] == schedule && schedule[..|schedule|] == schedule;
    forall i | 0 <= i < |bursts|
      ensures AfterSlot(remaining, job)[i] == bursts[i] - Served(longer, i)
    {
      ServedAfter(schedule, job, i);
    }
  }

  lemma {:induction false} PositiveUpdate(v: seq<int>, i: nat, x: int)
    requires i < |v|
    ensures Positive(v[i := x]) == Positive(v) - (if v[i] > 0 then 1 else 0) + if x > 0 then 1 else 0
  {
    var m := |v| - 1;
    if i == m {
      assert v[i := x][..m] == v[..m];
    } else {
      assert v[i := x][..m] == v[..m][i := x];
      PositiveUpdate(v[..m], i, x);
    }
  }

  lemma {:induction false} NonePositive(v: seq<int>, i: nat)
    requires i < |v| && Positive(v) == 0
    ensures v[i] <= 0
  {
    if i < |v| - 1 {
      NonePositive(v[..|v| - 1], i);
    }
  }

  lemma {:induction false} AllPositive(v: seq<int>)
    requires forall i :: 0 <= i < |v| ==> v[i] > 0
    ensures Positive(v) == |v|
  {
    if v != [] {
      AllPositive(v[..|v| - 1]);
    }
  }

  lemma {:induction false} SomePositive(v: seq<int>)
    requires NonNegative(v)
    ensures 0 <= Sum(v)
    ensures Positive(v) > 0 ==> exists i :: 0 <= i < |v| && v[i] > 0
  {
    if v != [] {
      SomePositive(v[..|v| - 1]);
    }
  }

  lemma {:induction false} LatestArrival(arrivals: seq<int>) returns (latest: int)
    ensures forall i :: 0 <= i < |arrivals| ==> arrivals[i] <= latest
  {
    latest := 0;
    if arrivals != [] {
      var m := |arrivals| - 1;
      latest := LatestArrival(arrivals[..m]);
      forall i | 0 <= i < m ensures arrivals[i] <= latest {
        assert arrivals[i] == arrivals[..m][i];
      }
      if latest < arrivals[m] {
        latest := arrivals[m];
      }
    }
  }

  /** The inner scan: the first of the shortest arrived unfinished jobs, or -1. */
  method ShortestJob(processes: array<Process>, remaining: array<int>, now: int) returns (job: int)
    requires remaining.Length == processes.Length
    requires forall x :: x in remaining[..] ==> x < INT_MAX
    ensures Chosen(Arrivals(processes[..]), remaining[..], now, job)
    ensures -1 <= job < processes.Length
    ensures job == -1 <==> forall i :: 0 <= i < processes.Length && processes[i].arrival <= now ==> remaining[i] <= 0
    ensures job >= 0 ==> processes[job].arrival <= now && remaining[job] > 0
    ensures job >= 0 ==> forall i :: 0 <= i < processes.Length && processes[i].arrival <= now && remaining[i] > 0 ==>
                           remaining[job] <= remaining[i]
    ensures forall i :: 0 <= i < job && processes[i].arrival <= now && remaining[i] > 0 ==> remaining[job] < remaining[i]
  {
    job := -1;
    var shortest := INT_MAX;
    for i := 0 to processes.Length
      invariant -1 <= job < i
      invariant shortest == if job == -1 then INT_MAX else remaining[job]
      invariant job >= 0 ==> processes[job].arrival <= now && remaining[job] > 0
      invariant forall k :: 0 <= k < i && processes[k].arrival <= now && remaining[k] > 0 ==> shortest <= remaining[k]
      invariant forall k :: 0 <= k < job && processes[k].arrival <= now && remaining[k] > 0 ==> shortest < remaining[k]
      invariant job == -1 ==> forall k :: 0 <= k < i && processes[k].arrival <= now ==> remaining[k] <= 0
    {
      assert remaining[i] in remaining[..];
      if processes[i].arrival <= now && remaining[i] < shortest && remaining[i] > 0 {
        job := i;
        shortest := remaining[i];
      }
    }
  }

  /** What one tick of `job` does to the records and to the accumulated totals. */
  lemma AfterTick(initial: seq<Process>, records: seq<Process>, left: seq<int>, schedule: Schedule, job: int)
    requires Recorded(records, initial, left, schedule)
    requires 0 <= job < |initial| && left[job] > 0
    ensures var arrivals, bursts := Arrivals(initial), Bursts(initial);
            var left', schedule' := AfterSlot(left, job), schedule + [job];
            var records' := if left'[job] == 0 then records[job := Completed(initial[job], |schedule'|)] else records;
            && records[job] == initial[job]
            && Recorded(records', initial, left', schedule')
            && Sum(Accrued(arrivals, left', schedule')) == Sum(Accrued(arrivals, left, schedule))
                 + (if left'[job] == 0 then |schedule'| - arrivals[job] else 0)
            && Sum(AccruedBursts(bursts, left')) == Sum(AccruedBursts(bursts, left))
                 + if left'[job] == 0 then bursts[job] else 0
  {
    var arrivals, bursts := Arrivals(initial), Bursts(initial);
    var left', schedule' := AfterSlot(left, job), schedule + [job];
    forall i | 0 <= i < |initial|
      ensures Finish(schedule', i) == if i == job then |schedule'| else Finish(schedule, i)
    {
      ServedAfter(schedule, job, i);
    }
    var more := if left'[job] == 0 then |schedule'| - arrivals[job] else 0;
    assert Accrued(arrivals, left', schedule') == Accrued(arrivals, left, schedule)[job := more];
    SumUpdate(Accrued(arrivals, left, schedule), job, more);
    var moreBurst := if left'[job] == 0 then bursts[job] else 0;
    assert AccruedBursts(bursts, left') == AccruedBursts(bursts, left)[job := moreBurst];
    SumUpdate(AccruedBursts(bursts, left), job, moreBurst);
  }

  /** The records, the counter and the accumulators between two iterations. */
  ghost predicate Books(initial: seq<Process>, records: seq<Process>, remaining: seq<int>, schedule: Schedule,
                        completed: int, totalWaiting: int, totalTurnaround: int) {
    && Recorded(records, initial, remaining, schedule)
    && Positive(remaining) == |initial| - completed
    && totalTurnaround == Sum(Accrued(Arrivals(initial), remaining, schedule))
    && totalWaiting == totalTurnaround - Sum(AccruedBursts(Bursts(initial), remaining))
  }

  lemma BooksOpen(initial: seq<Process>)
    requires forall i :: 0 <= i < |initial| ==> 0 < initial[i].burst
    ensures Books(initial, initial, Bursts(initial), [], 0, 0, 0)
  {
    AllPositive(Bursts(initial));
    SumOfZeros(Accrued(Arrivals(initial), Bursts(initial), []));
    SumOfZeros(AccruedBursts(Bursts(initial), Bursts(initial)));
  }

  lemma BooksAfterIdling(initial: seq<Process>, records: seq<Process>, remaining: seq<int>, schedule: Schedule,
                         completed: int, totalWaiting: int, totalTurnaround: int)
    requires Books(initial, records, remaining, schedule, completed, totalWaiting, totalTurnaround)
    ensures Books(initial, records, remaining, schedule + [-1], completed, totalWaiting, totalTurnaround)
  {
    var arrivals := Arrivals(initial);
    forall i | 0 <= i < |initial| ensures Finish(schedule + [-1], i) == Finish(schedule, i) {
      ServedAfter(schedule, -1, i);
    }
    assert Accrued(arrivals, remaining, schedule + [-1]) == Accrued(arrivals, remaining, schedule);
  }

  lemma BooksAfterTick(initial: seq<Process>, records: seq<Process>, remaining: seq<int>, schedule: Schedule,
                       completed: int, totalWaiting: int, totalTurnaround: int, job: int)
    requires Books(initial, records, remaining, schedule, completed, totalWaiting, totalTurnaround)
    requires 0 <= job < |remaining| && remaining[job] > 0
    ensures records[job] == initial[job]
    ensures Sum(AfterSlot(remaining, job)) < Sum(remaining)
    ensures remaining[job] > 1 ==>
              Books(initial, records, AfterSlot(remaining, job), schedule + [job], completed, totalWaiting, totalTurnaround)
    ensures remaining[job] == 1 ==>
              var done := Completed(initial[job], |schedule| + 1);
              Books(initial, records[job := done], AfterSlot(remaining, job), schedule + [job], completed + 1,
                    totalWaiting + done.waiting, totalTurnaround + done.turnaround)
  {
    AfterTick(initial, records, remaining, schedule, job);
    SumUpdate(remaining, job, remaining[job] - 1);
    PositiveUpdate(remaining, job, remaining[job] - 1);
  }

  lemma BooksClosed(initial: seq<Process>, records: seq<Process>, remaining: seq<int>, schedule: Schedule,
                    totalWaiting: int, totalTurnaround: int)
    requires Underway(schedule, Arrivals(initial), Bursts(initial), remaining)
    requires Books(initial, records, remaining, schedule, |initial|, totalWaiting, totalTurnaround)
    ensures Completes(schedule, Arrivals(initial), Bursts(initial)) && IsSrpt(schedule, Arrivals(initial), Bursts(initial))
    ensures forall i :: 0 <= i < |initial| ==> records[i] == Completed(initial[i], Finish(schedule, i))
    ensures totalTurnaround == Sum(Turnarounds(schedule, Arrivals(initial)))
    ensures totalWaiting == totalTurnaround - Sum(Bursts(initial))
  {
    forall i | 0 <= i < |initial| ensures remaining[i] == 0 {
      NonePositive(remaining, i);
    }
    assert Accrued(Arrivals(initial), remaining, schedule) == Turnarounds(schedule, Arrivals(initial));
    assert AccruedBursts(Bursts(initial), remaining) == Bursts(initial);
  }

  lemma TotalsOfRecords(initial: seq<Process>, p: seq<Process>, schedule: Schedule)
    requires |p| == |initial|
    requires forall i :: 0 <= i < |initial| ==> p[i] == Completed(initial[i], Finish(schedule, i))
    ensures Sum(seq(|p|, i requires 0 <= i < |p| => p[i].turnaround)) == Sum(Turnarounds(schedule, Arrivals(initial)))
    ensures Sum(seq(|p|, i requires 0 <= i < |p| => p[i].waiting))
         == Sum(Turnarounds(schedule, Arrivals(initial))) - Sum(Bursts(initial))
  {
    var turnarounds := seq(|p|, i requires 0 <= i < |p| => p[i].turnaround);
    assert turnarounds == Turnarounds(schedule, Arrivals(initial));
    SumDifference(seq(|p|, i requires 0 <= i < |p| => p[i].waiting), turnarounds, Bursts(initial));
  }

  /** Idling is only possible before the last arrival. */
  lemma IdleIsBounded(arrivals: seq<int>, remaining: seq<int>, now: int, latest: int)
    requires |arrivals| == |remaining| && NonNegative(remaining) && Positive(remaining) > 0
    requires Chosen(arrivals, remaining, now, -1)
    requires forall i :: 0 <= i < |arrivals| ==> arrivals[i] <= latest
    ensures now < latest
  {
    SomePositive(remaining);
  }

  lemma RemainingBelowMax(initial: seq<Process>, remaining: seq<int>, schedule: Schedule)
    requires Underway(schedule, Arrivals(initial), Bursts(initial), remaining)
    requires forall i :: 0 <= i < |initial| ==> initial[i].burst < INT_MAX
    ensures forall x :: x in remaining ==> x < INT_MAX
    ensures NonNegative(remaining)
  {
    forall i | 0 <= i < |remaining| ensures remaining[i] < INT_MAX {
      assert Bursts(initial)[i] == initial[i].burst;
    }
  }

  /** One tick of the chosen job; on completion its record and the totals are updated. */
  method RunJob(processes: array<Process>, remaining: array<int>, job: int, now: int, completed: int,
                totalWaiting: int, totalTurnaround: int, ghost initial: seq<Process>, ghost schedule: Schedule)
    returns (completed': int, totalWaiting': int, totalTurnaround': int)
    requires 0 <= job < remaining.Length && remaining[job] > 0 && now == |schedule|
    requires processes.Length == remaining.Length
    requires Books(initial, processes[..], remaining[..], schedule, completed, totalWaiting, totalTurnaround)
    modifies processes, remaining
    ensures remaining[..] == AfterSlot(old(remaining[..]), job)
    ensures Sum(remaining[..]) < old(Sum(remaining[..]))
    ensures Books(initial, processes[..], remaining[..], schedule + [job], completed', totalWaiting', totalTurnaround')
  {
    ghost var left, records := remaining[..], processes[..];
    completed', totalWaiting', totalTurnaround' := completed, totalWaiting, totalTurnaround;
    BooksAfterTick(initial, records, left, schedule, completed, totalWaiting, totalTurnaround, job);
    remaining[job] := remaining[job] - 1;
    assert remaining[..] == AfterSlot(left, job);
    if remaining[job] == 0 {
      completed' := completed + 1;
      var finish := now + 1;
      processes[job] := processes[job].(waiting := finish - processes[job].burst - processes[job].arrival,
                                        turnaround := finish - processes[job].arrival);
      assert processes[..] == records[job := Completed(initial[job], finish)];
      totalWaiting' := totalWaiting + processes[job].waiting;
      totalTurnaround' := totalTurnaround + processes[job].turnaround;
    }
  }

  /** The choice made on the current records extends the schedule of the initial ones. */
  lemma NextSlot(schedule: Schedule, initial: seq<Process>, records: seq<Process>, remaining: seq<int>, job: int)
    requires Underway(schedule, Arrivals(initial), Bursts(initial), remaining) && FollowsRule(schedule, initial)
    requires Arrivals(records) == Arrivals(initial) && Chosen(Arrivals(initial), remaining, |schedule|, job)
    requires |records| == |initial|
    requires forall i :: 0 <= i < job && records[i].arrival <= |schedule| && remaining[i] > 0 ==> remaining[job] < remaining[i]
    ensures Underway(schedule + [job], Arrivals(initial), Bursts(initial), AfterSlot(remaining, job))
    ensures FollowsRule(schedule + [job], initial)
  {
    forall i | 0 <= i < |initial| ensures records[i].arrival == initial[i].arrival {
      assert Arrivals(records)[i] == Arrivals(initial)[i];
    }
    OneMoreChoice(schedule, initial, remaining, job);
    OneMoreSlot(schedule, Arrivals(initial), Bursts(initial), remaining, job);
  }

  method InitialRemaining(processes: array<Process>) returns (remaining: array<int>)
    ensures fresh(remaining) && remaining[..] == Bursts(processes[..])
  {
    remaining := new int[processes.Length];
    for i := 0 to processes.Length
      invariant forall k :: 0 <= k < i ==> remaining[k] == processes[k].burst
    {
      remaining[i] := processes[i].burst;
    }
  }

  /** Everything that holds between two iterations of the loop. */
  ghost predicate InProgress(initial: seq<Process>, records: seq<Process>, remaining: seq<int>, schedule: Schedule,
                             completed: int, totalWaiting: int, totalTurnaround: int) {
    && (forall i :: 0 <= i < |initial| ==> initial[i].burst < INT_MAX)
    && Underway(schedule, Arrivals(initial), Bursts(initial), remaining)
    && FollowsRule(schedule, initial)
    && Books(initial, records, remaining, schedule, completed, totalWaiting, totalTurnaround)
  }

  /** One iteration: choose a job, if there is one, and run it for one unit of time. */
  method Tick(processes: array<Process>, remaining: array<int>, now: int, completed: int, totalWaiting: int,
              totalTurnaround: int, ghost initial: seq<Process>, ghost schedule: Schedule, ghost latest: int)
    returns (completed': int, totalWaiting': int, totalTurnaround': int, ghost schedule': Schedule)
    requires now == |schedule| && processes.Length == remaining.Length && completed != processes.Length
    requires InProgress(initial, processes[..], remaining[..], schedule, completed, totalWaiting, totalTurnaround)
    requires forall i :: 0 <= i < |initial| ==> Arrivals(initial)[i] <= latest
    modifies processes, remaining
    ensures |schedule'| == now + 1
    ensures InProgress(initial, processes[..], remaining[..], schedule', completed', totalWaiting', totalTurnaround')
    ensures 0 <= old(Sum(remaining[..])) && Sum(remaining[..]) <= old(Sum(remaining[..]))
    ensures Sum(remaining[..]) < old(Sum(remaining[..])) || now < latest
  {
    ghost var left := remaining[..];
    completed', totalWaiting', totalTurnaround' := completed, totalWaiting, totalTurnaround;
    assert Arrivals(processes[..]) == Arrivals(initial);
    RemainingBelowMax(initial, left, schedule);
    SomePositive(left);
    var job := ShortestJob(processes, remaining, now);
    NextSlot(schedule, initial, processes[..], left, job);
    schedule' := schedule + [job];
    if job == -1 {
      IdleIsBounded(Arrivals(initial), left, now, latest);
      BooksAfterIdling(initial, processes[..], left, schedule, completed, totalWaiting, totalTurnaround);
    } else {
      completed', totalWaiting', totalTurnaround' :=
        RunJob(processes, remaining, job, now, completed, totalWaiting, totalTurnaround, initial, schedule);
    }
  }

  /** Runs every process to completion; the totals are the least possible. */
  method ScheduleSjf(processes: array<Process>) returns (totalWaiting: int, totalTurnaround: int, ghost schedule: Schedule)
    requires forall i :: 0 <= i < processes.Length ==> 0 < processes[i].burst < INT_MAX
    modifies processes
    ensures Completes(schedule, Arrivals(old(processes[..])), Bursts(old(processes[..])))
    ensures IsSrpt(schedule, Arrivals(old(processes[..])), Bursts(old(processes[..])))
    ensures FollowsRule(schedule, old(processes[..]))
    ensures forall i :: 0 <= i < processes.Length ==>
              var p, was := processes[..][i], old(processes[..])[i];
              && p.id == was.id && p.arrival == was.arrival && p.burst == was.burst
              && p.turnaround == Finish(schedule, i) - was.arrival
              && p.waiting == p.turnaround - was.burst
    ensures totalTurnaround == Sum(Turnarounds(schedule, Arrivals(old(processes[..]))))
    ensures totalWaiting == totalTurnaround - Sum(Bursts(old(processes[..])))
    ensures var p := processes[..];
            && totalTurnaround == Sum(seq(|p|, i requires 0 <= i < |p| => p[i].turnaround))
            && totalWaiting == Sum(seq(|p|, i requires 0 <= i < |p| => p[i].waiting))
    ensures forall other :: Completes(other, Arrivals(old(processes[..])), Bursts(old(processes[..]))) ==>
              totalTurnaround <= Sum(Turnarounds(other, Arrivals(old(processes[..]))))
  {
    ghost var initial := processes[..];
    ghost var latest := LatestArrival(Arrivals(initial));
    var now, completed := 0, 0;
    totalWaiting, totalTurnaround, schedule := 0, 0, [];
    var remaining := InitialRemaining(processes);
    BooksOpen(initial);
    while completed != processes.Length
      invariant now == |schedule|
      invariant InProgress(initial, processes[..], remaining[..], schedule, completed, totalWaiting, totalTurnaround)
      decreases Sum(remaining[..]), latest - now
    {
      completed, totalWaiting, totalTurnaround, schedule :=
        Tick(processes, remaining, now, completed, totalWaiting, totalTurnaround, initial, schedule, latest);
      now := now + 1;
    }
    BooksClosed(initial, processes[..], remaining[..], schedule, totalWaiting, totalTurnaround);
    TotalsOfRecords(initial, processes[..], schedule);
    forall other | Completes(other, Arrivals(initial), Bursts(initial))
      ensures totalTurnaround <= Sum(Turnarounds(other, Arrivals(initial)))
    {
      SrptOptimal(schedule, other, Arrivals(initial), Bursts(initial));
    }
  }
}
