/** The unit-tick shortest-remaining-time scheduler (sjf_scheduling) and its
    optimality among all preemptive schedules. */
module Srpt {
  import opened Common
  import opened Sums

  /** A schedule names the job run in each time slot; any other number idles. */
  type Schedule = seq<int>

  function Served(schedule: Schedule, job: int): nat {
    if schedule == [] then 0
    else Served(schedule[..|schedule| - 1], job) + if schedule[|schedule| - 1] == job then 1 else 0
  }

  /** The time at which a job last leaves the processor. */
  function Finish(schedule: Schedule, job: int): nat {
    if schedule == [] then 0
    else if schedule[|schedule| - 1] == job then |schedule|
    else Finish(schedule[..|schedule| - 1], job)
  }

  /** Every job gets exactly its burst, none before it arrives. */
  ghost predicate Completes(schedule: Schedule, arrivals: seq<int>, bursts: seq<int>)
    requires |arrivals| == |bursts|
  {
    && (forall i :: 0 <= i < |bursts| ==> Served(schedule, i) == bursts[i])
    && (forall t :: 0 <= t < |schedule| && 0 <= schedule[t] < |bursts| ==> arrivals[schedule[t]] <= t)
  }

  function Turnarounds(schedule: Schedule, arrivals: seq<int>): seq<int> {
    seq(|arrivals|, i requires 0 <= i < |arrivals| => Finish(schedule, i) - arrivals[i])
  }

  // ----- work left after dropping k jobs

  /** The least total of `v` that dropping `k` entries can leave. */
  function Rest(v: seq<int>, k: nat): int {
    if v == [] then 0
    else
      var front, last := v[..|v| - 1], v[|v| - 1];
      if k == 0 then Rest(front, 0) + last else Min(Rest(front, k) + last, Rest(front, k - 1))
  }

  function Positive(v: seq<int>): nat {
    if v == [] then 0 else Positive(v[..|v| - 1]) + if v[|v| - 1] > 0 then 1 else 0
  }

  lemma {:induction false} RestBounds(v: seq<int>, k: nat)
    requires NonNegative(v)
    ensures 0 <= Rest(v, k + 1) <= Rest(v, k)
  {
    if v != [] {
      RestBounds(v[..|v| - 1], k);
      if k > 0 {
        RestBounds(v[..|v| - 1], k - 1);
      }
    }
  }

  /** Only k jobs can be unfinished if dropping k leaves no work. */
  lemma {:induction false} RestZero(v: seq<int>, k: nat)
    requires NonNegative(v)
    ensures Rest(v, k) == 0 <==> Positive(v) <= k
  {
    if v != [] {
      var front := v[..|v| - 1];
      RestZero(front, k);
      RestBounds(front, k);
      if k > 0 {
        RestZero(front, k - 1);
        RestBounds(front, k - 1);
      }
    }
  }

  lemma RestAppend(front: seq<int>, last: int, k: nat)
    ensures Rest(front + [last], k)
         == if k == 0 then Rest(front, 0) + last else Min(Rest(front, k) + last, Rest(front, k - 1))
  {
    assert (front + [last])[..|front|] == front;
  }

  /** `with` is `without` after a job with no work was given `x` units: either
      it is among the dropped or it is not. */
  ghost predicate Inserted(with: seq<int>, without: seq<int>, x: int, k: nat) {
    Rest(with, k) == if k == 0 then Rest(without, 0) + x else Min(Rest(without, k) + x, Rest(without, k - 1))
  }

  lemma InsertedStep(with: seq<int>, without: seq<int>, last: int, x: int, k: nat)
    requires Inserted(with, without, x, k) && (k > 0 ==> Inserted(with, without, x, k - 1))
    ensures Inserted(with + [last], without + [last], x, k)
  {
    RestAppend(with, last, k);
    RestAppend(without, last, k);
    if k > 0 {
      RestAppend(without, last, k - 1);
    }
  }

  /** The position of the job does not matter. */
  lemma {:induction false} RestInsert(v: seq<int>, i: nat, x: int, k: nat)
    requires i < |v| && NonNegative(v) && v[i] == 0 && 0 <= x
    ensures Inserted(v[i := x], v, x, k)
    decreases |v|
  {
    var m := |v| - 1;
    var front, last := v[..m], v[m];
    assert v == front + [last];
    if i == m {
      assert v[i := x] == front + [x];
      InsertedLast(front, x, k);
    } else {
      assert v[i := x] == front[i := x] + [last];
      RestInsert(front, i, x, k);
      if k > 0 {
        RestInsert(front, i, x, k - 1);
      }
      InsertedStep(front[i := x], front, last, x, k);
    }
  }

  lemma InsertedLast(front: seq<int>, x: int, k: nat)
    requires NonNegative(front) && 0 <= x
    ensures Inserted(front + [x], front + [0], x, k)
  {
    RestAppend(front, x, k);
    AbsentJobIsFree(front, k);
    if k > 0 {
      AbsentJobIsFree(front, k - 1);
    }
  }

  lemma AbsentJobIsFree(front: seq<int>, k: nat)
    requires NonNegative(front)
    ensures Rest(front + [0], k) == Rest(front, k)
  {
    RestAppend(front, 0, k);
    if k > 0 {
      RestBounds(front, k - 1);
    }
  }

  /** If every unfinished job needs at least x, keeping one fewer saves x. */
  lemma {:induction false} RestDrop(v: seq<int>, x: int, k: nat)
    requires NonNegative(v) && 0 < x && Rest(v, k) > 0
    requires forall i :: 0 <= i < |v| && v[i] > 0 ==> x <= v[i]
    ensures Rest(v, k + 1) + x <= Rest(v, k)
  {
    var front := v[..|v| - 1];
    RestBounds(front, k);
    if k > 0 {
      RestBounds(front, k - 1);
    }
    if v[|v| - 1] == 0 {
      RestDrop(front, x, k);
    } else if k > 0 && Rest(front, k - 1) <= Rest(front, k) + v[|v| - 1] {
      RestDrop(front, x, k - 1);
    }
  }

  /** One unit of work on any job. */
  lemma RestAfterWork(v: seq<int>, j: nat, k: nat)
    requires j < |v| && NonNegative(v) && v[j] > 0
    ensures Rest(v[j := v[j] - 1], k) >= Rest(v, k) - 1
  {
    var without := v[j := 0];
    RestInsert(without, j, v[j], k);
    RestInsert(without, j, v[j] - 1, k);
    assert without[j := v[j]] == v && without[j := v[j] - 1] == v[j := v[j] - 1];
  }

  /** One unit of work on a shortest unfinished job: it is the best anyone can do. */
  lemma RestAfterShortest(v: seq<int>, s: nat, k: nat)
    requires s < |v| && NonNegative(v) && v[s] > 0
    requires forall i :: 0 <= i < |v| && v[i] > 0 ==> v[s] <= v[i]
    ensures Rest(v[s := v[s] - 1], k) == if Rest(v, k) > 0 then Rest(v, k) - 1 else 0
  {
    var without, v' := v[s := 0], v[s := v[s] - 1];
    RestInsert(without, s, v[s], k);
    RestInsert(without, s, v[s] - 1, k);
    assert without[s := v[s]] == v && without[s := v[s] - 1] == v';
    RestBounds(without, k);
    RestBounds(v', k);
    if k > 0 && Rest(without, k - 1) > 0 {
      RestDrop(without, v[s], k - 1);
    }
  }

  // ----- dominance over time

  ghost predicate AtMost(mine: seq<int>, theirs: seq<int>) {
    forall k: nat :: Rest(mine, k) <= Rest(theirs, k)
  }

  /** The work still owed to the jobs that have arrived by time t. */
  ghost function Backlog(schedule: Schedule, arrivals: seq<int>, bursts: seq<int>, t: nat): seq<int>
    requires |arrivals| == |bursts| && t <= |schedule|
  {
    seq(|bursts|, i requires 0 <= i < |bursts| =>
      if arrivals[i] <= t then bursts[i] - Served(schedule[..t], i) else 0)
  }

  ghost predicate IsShortest(backlog: seq<int>, job: int) {
    && 0 <= job < |backlog| && backlog[job] > 0
    && forall i :: 0 <= i < |backlog| && backlog[i] > 0 ==> backlog[job] <= backlog[i]
  }

  /** The rule of the program: a shortest arrived unfinished job, or idle if there is none. */
  ghost predicate IsSrpt(schedule: Schedule, arrivals: seq<int>, bursts: seq<int>)
    requires |arrivals| == |bursts|
  {
    forall t :: 0 <= t < |schedule| ==>
      var backlog := Backlog(schedule, arrivals, bursts, t);
      IsShortest(backlog, schedule[t]) || (!(0 <= schedule[t] < |bursts|) && forall i :: 0 <= i < |backlog| ==> backlog[i] <= 0)
  }

  function AfterSlot(v: seq<int>, job: int): seq<int> {
    if 0 <= job < |v| then v[job := v[job] - 1] else v
  }

  /** Let the first m jobs in if they arrive at time t. */
  ghost function Admit(v: seq<int>, arrivals: seq<int>, bursts: seq<int>, t: int, m: nat): (v': seq<int>)
    requires m <= |v| == |arrivals| == |bursts|
    ensures |v'| == |v|
    ensures forall i :: 0 <= i < |v| ==> v'[i] == if i < m && arrivals[i] == t then bursts[i] else v[i]
  {
    if m == 0 then v
    else
      var v0 := Admit(v, arrivals, bursts, t, m - 1);
      if arrivals[m - 1] == t then v0[m - 1 := bursts[m - 1]] else v0
  }

  lemma {:induction false} ArrivalsKeepOrder(mine: seq<int>, theirs: seq<int>, arrivals: seq<int>, bursts: seq<int>,
                                             t: int, m: nat)
    requires m <= |mine| == |theirs| == |arrivals| == |bursts|
    requires NonNegative(mine) && NonNegative(theirs) && NonNegative(bursts) && AtMost(mine, theirs)
    requires forall i :: 0 <= i < |bursts| && arrivals[i] == t ==> mine[i] == theirs[i] == 0
    ensures AtMost(Admit(mine, arrivals, bursts, t, m), Admit(theirs, arrivals, bursts, t, m))
  {
    if m > 0 {
      ArrivalsKeepOrder(mine, theirs, arrivals, bursts, t, m - 1);
      if arrivals[m - 1] == t {
        var mine', theirs' := Admit(mine, arrivals, bursts, t, m - 1), Admit(theirs, arrivals, bursts, t, m - 1);
        var x := bursts[m - 1];
        var mine'', theirs'' := mine'[m - 1 := x], theirs'[m - 1 := x];
        forall k: nat
          ensures Rest(mine'', k) <= Rest(theirs'', k)
        {
          RestInsert(mine', m - 1, x, k);
          RestInsert(theirs', m - 1, x, k);
        }
      }
    }
  }

  lemma WorkKeepsOrder(mine: seq<int>, theirs: seq<int>, myJob: int, theirJob: int)
    requires |mine| == |theirs| && NonNegative(mine) && NonNegative(theirs) && AtMost(mine, theirs)
    requires IsShortest(mine, myJob) || (!(0 <= myJob < |mine|) && forall i :: 0 <= i < |mine| ==> mine[i] == 0)
    requires 0 <= theirJob < |theirs| ==> theirs[theirJob] > 0
    ensures AtMost(AfterSlot(mine, myJob), AfterSlot(theirs, theirJob))
  {
    var mine', theirs' := AfterSlot(mine, myJob), AfterSlot(theirs, theirJob);
    forall k: nat
      ensures Rest(mine', k) <= Rest(theirs', k)
    {
      RestBounds(theirs', k);
      RestBounds(mine, k);
      if 0 <= theirJob < |theirs| {
        RestAfterWork(theirs, theirJob, k);
      }
      if 0 <= myJob < |mine| {
        RestAfterShortest(mine, myJob, k);
      } else {
        AllDone(mine, k);
      }
    }
  }

  lemma {:induction false} AllDone(v: seq<int>, k: nat)
    requires forall i :: 0 <= i < |v| ==> v[i] == 0
    ensures Rest(v, k) == 0
  {
    if v != [] {
      AllDone(v[..|v| - 1], k);
      if k > 0 {
        AllDone(v[..|v| - 1], k - 1);
      }
    }
  }

  lemma {:induction false} ServedMonotone(schedule: Schedule, job: int, t: nat)
    requires t <= |schedule|
    ensures Served(schedule[..t], job) <= Served(schedule, job)
  {
    var m := |schedule| - 1;
    if t == |schedule| {
      assert schedule[..t] == schedule;
    } else {
      ServedMonotone(schedule[..m], job, t);
      assert schedule[..m][..t] == schedule[..t];
    }
  }

  lemma ServedStep(schedule: Schedule, job: int, t: nat)
    requires t < |schedule|
    ensures Served(schedule[..t + 1], job) == Served(schedule[..t], job) + if schedule[t] == job then 1 else 0
  {
    assert schedule[..t + 1][..t] == schedule[..t];
  }

  lemma {:induction false} NotServedBeforeArrival(schedule: Schedule, arrivals: seq<int>, bursts: seq<int>, i: nat, t: nat)
    requires |arrivals| == |bursts| && i < |bursts| && t <= |schedule| && t <= arrivals[i]
    requires Completes(schedule, arrivals, bursts)
    ensures Served(schedule[..t], i) == 0
  {
    if t > 0 {
      NotServedBeforeArrival(schedule, arrivals, bursts, i, t - 1);
      ServedStep(schedule, i, t - 1);
    }
  }

  lemma BacklogIsOwed(schedule: Schedule, arrivals: seq<int>, bursts: seq<int>, t: nat)
    requires |arrivals| == |bursts| && t <= |schedule| && Completes(schedule, arrivals, bursts)
    ensures NonNegative(Backlog(schedule, arrivals, bursts, t)) && NonNegative(bursts)
    ensures t < |schedule| && 0 <= schedule[t] < |bursts| ==> Backlog(schedule, arrivals, bursts, t)[schedule[t]] > 0
  {
    forall i | 0 <= i < |bursts| ensures Served(schedule[..t], i) <= bursts[i] {
      ServedMonotone(schedule, i, t);
    }
    if t < |schedule| && 0 <= schedule[t] < |bursts| {
      ServedStep(schedule, schedule[t], t);
      ServedMonotone(schedule, schedule[t], t + 1);
    }
  }

  lemma BacklogStep(schedule: Schedule, arrivals: seq<int>, bursts: seq<int>, t: nat)
    requires |arrivals| == |bursts| && t < |schedule| && Completes(schedule, arrivals, bursts)
    ensures var worked := AfterSlot(Backlog(schedule, arrivals, bursts, t), schedule[t]);
            && Backlog(schedule, arrivals, bursts, t + 1) == Admit(worked, arrivals, bursts, t + 1, |bursts|)
            && NonNegative(worked)
            && forall i :: 0 <= i < |bursts| && arrivals[i] == t + 1 ==> worked[i] == 0
  {
    BacklogIsOwed(schedule, arrivals, bursts, t);
    var later := Backlog(schedule, arrivals, bursts, t + 1);
    var worked := AfterSlot(Backlog(schedule, arrivals, bursts, t), schedule[t]);
    var admitted := Admit(worked, arrivals, bursts, t + 1, |bursts|);
    forall i | 0 <= i < |bursts|
      ensures later[i] == admitted[i]
    {
      ServedStep(schedule, i, t);
      if arrivals[i] == t + 1 {
        NotServedBeforeArrival(schedule, arrivals, bursts, i, t + 1);
      }
    }
  }

  lemma DominanceStep(mine: Schedule, theirs: Schedule, arrivals: seq<int>, bursts: seq<int>, t: nat)
    requires |arrivals| == |bursts| && t < |mine| && t < |theirs|
    requires Completes(mine, arrivals, bursts) && Completes(theirs, arrivals, bursts)
    requires IsSrpt(mine, arrivals, bursts)
    requires AtMost(Backlog(mine, arrivals, bursts, t), Backlog(theirs, arrivals, bursts, t))
    ensures AtMost(Backlog(mine, arrivals, bursts, t + 1), Backlog(theirs, arrivals, bursts, t + 1))
  {
    var v, w := Backlog(mine, arrivals, bursts, t), Backlog(theirs, arrivals, bursts, t);
    BacklogIsOwed(mine, arrivals, bursts, t);
    BacklogIsOwed(theirs, arrivals, bursts, t);
    WorkKeepsOrder(v, w, mine[t], theirs[t]);
    BacklogStep(mine, arrivals, bursts, t);
    BacklogStep(theirs, arrivals, bursts, t);
    ArrivalsKeepOrder(AfterSlot(v, mine[t]), AfterSlot(w, theirs[t]), arrivals, bursts, t + 1, |bursts|);
  }

  /** At every moment, however many jobs one may set aside, the shortest-remaining-time
      schedule owes no more work to the others than any rival does. */
  lemma {:induction false} SrptDominates(mine: Schedule, theirs: Schedule, arrivals: seq<int>, bursts: seq<int>, t: nat)
    requires |arrivals| == |bursts| && t <= |mine| && t <= |theirs|
    requires Completes(mine, arrivals, bursts) && Completes(theirs, arrivals, bursts)
    requires IsSrpt(mine, arrivals, bursts)
    ensures AtMost(Backlog(mine, arrivals, bursts, t), Backlog(theirs, arrivals, bursts, t))
  {
    if t == 0 {
      assert mine[..0] == theirs[..0] == [];
    } else {
      SrptDominates(mine, theirs, arrivals, bursts, t - 1);
      DominanceStep(mine, theirs, arrivals, bursts, t - 1);
    }
  }

  // ----- from unfinished jobs to finish times

  lemma {:induction false} FinishIsLastService(schedule: Schedule, job: int, t: nat)
    requires t <= |schedule|
    ensures Finish(schedule, job) <= |schedule|
    ensures t < Finish(schedule, job) <==> Served(schedule[..t], job) < Served(schedule, job)
  {
    if t == |schedule| {
      assert schedule[..t] == schedule;
    }
    if schedule != [] {
      var m := |schedule| - 1;
      if t <= m {
        assert schedule[..m][..t] == schedule[..t];
        FinishIsLastService(schedule[..m], job, t);
        ServedMonotone(schedule[..m], job, t);
      } else {
        FinishIsLastService(schedule[..m], job, m);
      }
    }
  }

  /** The time each job has spent unfinished, from time 0 up to T. */
  ghost function Ages(schedule: Schedule, n: nat, T: nat): seq<int> {
    seq(n, i requires 0 <= i < n => Min(T, Finish(schedule, i)))
  }

  ghost function Owed(schedule: Schedule, bursts: seq<int>, t: nat): seq<int>
    requires t <= |schedule|
  {
    seq(|bursts|, i requires 0 <= i < |bursts| => bursts[i] - Served(schedule[..t], i))
  }

  lemma {:induction false} CountedSum(a: seq<int>, b: seq<int>, p: seq<int>)
    requires |a| == |b| == |p|
    requires forall i :: 0 <= i < |a| ==> b[i] == a[i] + if p[i] > 0 then 1 else 0
    ensures Sum(b) == Sum(a) + Positive(p)
  {
    if a != [] {
      var m := |a| - 1;
      CountedSum(a[..m], b[..m], p[..m]);
    }
  }

  lemma {:induction false} PositiveSplit(all: seq<int>, some: seq<int>, others: seq<int>)
    requires |all| == |some| == |others|
    requires forall i :: 0 <= i < |all| ==> if some[i] == 0 then others[i] == all[i] else some[i] == all[i] && others[i] == 0
    ensures Positive(all) == Positive(some) + Positive(others)
  {
    if all != [] {
      var m := |all| - 1;
      PositiveSplit(all[..m], some[..m], others[..m]);
    }
  }

  ghost function Unarrived(arrivals: seq<int>, bursts: seq<int>, t: nat): seq<int>
    requires |arrivals| == |bursts|
  {
    seq(|bursts|, i requires 0 <= i < |bursts| => if arrivals[i] <= t then 0 else bursts[i])
  }

  lemma OwedSplit(schedule: Schedule, arrivals: seq<int>, bursts: seq<int>, t: nat)
    requires |arrivals| == |bursts| && t <= |schedule| && Completes(schedule, arrivals, bursts)
    ensures Positive(Owed(schedule, bursts, t))
         == Positive(Backlog(schedule, arrivals, bursts, t)) + Positive(Unarrived(arrivals, bursts, t))
  {
    forall i | 0 <= i < |bursts| && arrivals[i] > t ensures Served(schedule[..t], i) == 0 {
      NotServedBeforeArrival(schedule, arrivals, bursts, i, t);
    }
    PositiveSplit(Owed(schedule, bursts, t), Unarrived(arrivals, bursts, t), Backlog(schedule, arrivals, bursts, t));
  }

  lemma AgesStep(schedule: Schedule, arrivals: seq<int>, bursts: seq<int>, t: nat)
    requires |arrivals| == |bursts| && t < |schedule| && Completes(schedule, arrivals, bursts)
    ensures Sum(Ages(schedule, |bursts|, t + 1))
         == Sum(Ages(schedule, |bursts|, t)) + Positive(Owed(schedule, bursts, t))
  {
    forall i | 0 <= i < |bursts|
      ensures t < Finish(schedule, i) <==> Owed(schedule, bursts, t)[i] > 0
    {
      FinishIsLastService(schedule, i, t);
    }
    CountedSum(Ages(schedule, |bursts|, t), Ages(schedule, |bursts|, t + 1), Owed(schedule, bursts, t));
  }

  lemma FewerUnfinished(mine: Schedule, theirs: Schedule, arrivals: seq<int>, bursts: seq<int>, t: nat)
    requires |arrivals| == |bursts| && t <= |mine| && t <= |theirs|
    requires Completes(mine, arrivals, bursts) && Completes(theirs, arrivals, bursts)
    requires IsSrpt(mine, arrivals, bursts)
    ensures Positive(Owed(mine, bursts, t)) <= Positive(Owed(theirs, bursts, t))
  {
    var v, w := Backlog(mine, arrivals, bursts, t), Backlog(theirs, arrivals, bursts, t);
    SrptDominates(mine, theirs, arrivals, bursts, t);
    BacklogIsOwed(mine, arrivals, bursts, t);
    BacklogIsOwed(theirs, arrivals, bursts, t);
    RestZero(w, Positive(w));
    RestZero(v, Positive(w));
    RestBounds(v, Positive(w));
    OwedSplit(mine, arrivals, bursts, t);
    OwedSplit(theirs, arrivals, bursts, t);
  }

  lemma {:induction false} YoungerJobs(mine: Schedule, theirs: Schedule, arrivals: seq<int>, bursts: seq<int>, t: nat)
    requires |arrivals| == |bursts| && t <= |mine| == |theirs|
    requires Completes(mine, arrivals, bursts) && Completes(theirs, arrivals, bursts)
    requires IsSrpt(mine, arrivals, bursts)
    ensures Sum(Ages(mine, |bursts|, t)) <= Sum(Ages(theirs, |bursts|, t))
  {
    if t == 0 {
      assert Ages(mine, |bursts|, 0) == Ages(theirs, |bursts|, 0);
    } else {
      YoungerJobs(mine, theirs, arrivals, bursts, t - 1);
      AgesStep(mine, arrivals, bursts, t - 1);
      AgesStep(theirs, arrivals, bursts, t - 1);
      FewerUnfinished(mine, theirs, arrivals, bursts, t - 1);
    }
  }

  // ----- schedules of different lengths

  lemma IdleChangesNothing(schedule: Schedule, arrivals: seq<int>, bursts: seq<int>)
    requires |arrivals| == |bursts| && Completes(schedule, arrivals, bursts)
    ensures Completes(schedule + [-1], arrivals, bursts)
    ensures Turnarounds(schedule + [-1], arrivals) == Turnarounds(schedule, arrivals)
    ensures IsSrpt(schedule, arrivals, bursts) ==> IsSrpt(schedule + [-1], arrivals, bursts)
  {
    var longer := schedule + [-1];
    assert longer[..|schedule|] == schedule;
    forall i | 0 <= i < |bursts|
      ensures Served(longer, i) == Served(schedule, i) && Finish(longer, i) == Finish(schedule, i)
    {
    }
    if IsSrpt(schedule, arrivals, bursts) {
      IdleKeepsRule(schedule, arrivals, bursts);
    }
  }

  lemma IdleKeepsRule(schedule: Schedule, arrivals: seq<int>, bursts: seq<int>)
    requires |arrivals| == |bursts| && Completes(schedule, arrivals, bursts) && IsSrpt(schedule, arrivals, bursts)
    ensures IsSrpt(schedule + [-1], arrivals, bursts)
  {
    var longer := schedule + [-1];
    forall t | 0 <= t <= |schedule|
      ensures Backlog(longer, arrivals, bursts, t) == Backlog(schedule, arrivals, bursts, t)
    {
      assert longer[..t] == schedule[..t];
    }
    var left := Backlog(longer, arrivals, bursts, |schedule|);
    assert schedule[..|schedule|] == schedule;
    assert forall i :: 0 <= i < |left| ==> left[i] == 0;
  }

  lemma {:induction false} Padded(schedule: Schedule, arrivals: seq<int>, bursts: seq<int>, length: nat)
    returns (longer: Schedule)
    requires |arrivals| == |bursts| && Completes(schedule, arrivals, bursts) && |schedule| <= length
    ensures |longer| == length && Completes(longer, arrivals, bursts)
    ensures Turnarounds(longer, arrivals) == Turnarounds(schedule, arrivals)
    ensures IsSrpt(schedule, arrivals, bursts) ==> IsSrpt(longer, arrivals, bursts)
    decreases length - |schedule|
  {
    if |schedule| == length {
      longer := schedule;
    } else {
      IdleChangesNothing(schedule, arrivals, bursts);
      longer := Padded(schedule + [-1], arrivals, bursts, length);
    }
  }

  lemma TotalTurnaround(schedule: Schedule, arrivals: seq<int>, bursts: seq<int>)
    requires |arrivals| == |bursts|
    ensures Sum(Turnarounds(schedule, arrivals)) == Sum(Ages(schedule, |bursts|, |schedule|)) - Sum(arrivals)
  {
    forall i | 0 <= i < |bursts| ensures Finish(schedule, i) <= |schedule| {
      FinishIsLastService(schedule, i, |schedule|);
    }
    SumDifference(Turnarounds(schedule, arrivals), Ages(schedule, |bursts|, |schedule|), arrivals);
  }

  /** Shortest remaining time first minimises total turnaround over all preemptive
      schedules that complete the same jobs and start none before it arrives. */
  lemma SrptOptimal(mine: Schedule, theirs: Schedule, arrivals: seq<int>, bursts: seq<int>)
    requires |arrivals| == |bursts|
    requires Completes(mine, arrivals, bursts) && Completes(theirs, arrivals, bursts)
    requires IsSrpt(mine, arrivals, bursts)
    ensures Sum(Turnarounds(mine, arrivals)) <= Sum(Turnarounds(theirs, arrivals))
  {
    var length := if |mine| <= |theirs| then |theirs| else |mine|;
    var mine' := Padded(mine, arrivals, bursts, length);
    var theirs' := Padded(theirs, arrivals, bursts, length);
    YoungerJobs(mine', theirs', arrivals, bursts, length);
    TotalTurnaround(mine', arrivals, bursts);
    TotalTurnaround(theirs', arrivals, bursts);
  }
}
