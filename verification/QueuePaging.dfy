/** FIFO and LRU as eviction queues: the head is the next victim.  The two
    policies differ only in whether a hit moves the page to the tail. */
module QueuePaging {
  import opened Common
  import opened Paging

  datatype Policy = Fifo | Lru

  function Without(queue: seq<Page>, page: Page): (rest: seq<Page>)
    ensures forall x :: x in rest <==> x in queue && x != page
  {
    if queue == [] then []
    else if queue[0] == page then Without(queue[1..], page)
    else [queue[0]] + Without(queue[1..], page)
  }

  function QueueStep(policy: Policy, queue: seq<Page>, page: Page, capacity: nat): seq<Page>
    requires 1 <= capacity
  {
    if page in queue then (if policy.Fifo? then queue else Without(queue, page) + [page])
    else if |queue| < capacity then queue + [page]
    else queue[1..] + [page]
  }

  /** The eviction queue after the whole reference string. */
  function Queue(policy: Policy, pages: seq<Page>, capacity: nat): seq<Page>
    requires 1 <= capacity
  {
    if pages == [] then []
    else
      var n := |pages| - 1;
      QueueStep(policy, Queue(policy, pages[..n], capacity), pages[n], capacity)
  }

  function QueueFaults(policy: Policy, pages: seq<Page>, capacity: nat): nat
    requires 1 <= capacity
  {
    if pages == [] then 0
    else
      var n := |pages| - 1;
      QueueFaults(policy, pages[..n], capacity)
        + if pages[n] in Queue(policy, pages[..n], capacity) then 0 else 1
  }

  ghost predicate QueueShape(queue: seq<Page>, capacity: nat) {
    Distinct(queue) && |queue| <= capacity
  }

  // ----- Without on queues that hold every page once

  lemma {:induction false} WithoutAt(queue: seq<Page>, i: nat)
    requires i < |queue| && Distinct(queue)
    ensures Without(queue, queue[i]) == queue[..i] + queue[i + 1..]
  {
    if i == 0 {
      WithoutAbsent(queue[1..], queue[0]);
      assert queue[..0] + queue[1..] == queue[1..];
    } else {
      WithoutAt(queue[1..], i - 1);
      assert queue[1..][i - 1] == queue[i];
      assert [queue[0]] + (queue[1..][..i - 1] + queue[1..][i..]) == queue[..i] + queue[i + 1..];
    }
  }

  lemma {:induction false} WithoutAbsent(queue: seq<Page>, page: Page)
    requires page !in queue
    ensures Without(queue, page) == queue
  {
    if queue != [] {
      WithoutAbsent(queue[1..], page);
    }
  }

  lemma MoveToTailKeepsShape(queue: seq<Page>, i: nat)
    requires Distinct(queue) && i < |queue|
    ensures Distinct(queue[..i] + queue[i + 1..] + [queue[i]])
    ensures |queue[..i] + queue[i + 1..] + [queue[i]]| == |queue|
  {
  }

  lemma StepShape(policy: Policy, queue: seq<Page>, page: Page, capacity: nat)
    requires 1 <= capacity && QueueShape(queue, capacity)
    ensures QueueShape(QueueStep(policy, queue, page, capacity), capacity)
    ensures page in QueueStep(policy, queue, page, capacity)
  {
    if page in queue && policy.Lru? {
      var i :| 0 <= i < |queue| && queue[i] == page;
      WithoutAt(queue, i);
      MoveToTailKeepsShape(queue, i);
    }
  }

  lemma {:induction false} QueueIsShaped(policy: Policy, pages: seq<Page>, capacity: nat)
    requires 1 <= capacity
    ensures QueueShape(Queue(policy, pages, capacity), capacity)
  {
    if pages != [] {
      var n := |pages| - 1;
      QueueIsShaped(policy, pages[..n], capacity);
      StepShape(policy, Queue(policy, pages[..n], capacity), pages[n], capacity);
    }
  }

  // ----- both policies are demand-paging runs

  ghost function ResidentRun(policy: Policy, pages: seq<Page>, capacity: nat): seq<set<Page>>
    requires 1 <= capacity
  {
    if pages == [] then [{}]
    else ResidentRun(policy, pages[..|pages| - 1], capacity) + [Elements(Queue(policy, pages, capacity))]
  }

  lemma StepIsDemand(policy: Policy, queue: seq<Page>, page: Page, capacity: nat)
    requires 1 <= capacity && QueueShape(queue, capacity)
    ensures var queue' := QueueStep(policy, queue, page, capacity);
            && Serves(page, Elements(queue'), capacity)
            && (if page in queue then Elements(queue') == Elements(queue)
                else Elements(queue') <= Elements(queue) + {page})
  {
    var queue' := QueueStep(policy, queue, page, capacity);
    StepShape(policy, queue, page, capacity);
    DistinctSize(queue');
    if page in queue && policy.Lru? {
      assert forall x :: x in queue' <==> x in Without(queue, page) || x == page;
    }
  }

  lemma FaultsAppend(run: seq<set<Page>>, pages: seq<Page>, after: set<Page>, page: Page)
    requires |run| == |pages| + 1
    ensures Faults(run + [after], pages + [page]) == Faults(run, pages) + if page in run[|pages|] then 0 else 1
  {
    var n, run', pages' := |pages|, run + [after], pages + [page];
    assert run'[..n + 1] == run && pages'[..n] == pages;
  }

  lemma ExtendDemandRun(run: seq<set<Page>>, pages: seq<Page>, after: set<Page>, page: Page, capacity: nat)
    requires IsDemandRun(run, pages, capacity) && Serves(page, after, capacity)
    requires if page in run[|pages|] then after == run[|pages|] else after <= run[|pages|] + {page}
    ensures IsDemandRun(run + [after], pages + [page], capacity)
  {
    var n, run', pages' := |pages|, run + [after], pages + [page];
    forall i | 0 <= i < n + 1
      ensures Serves(pages'[i], run'[i + 1], capacity)
      ensures if pages'[i] in run'[i] then run'[i + 1] == run'[i] else run'[i + 1] <= run'[i] + {pages'[i]}
    {
      if i < n {
        assert pages'[i] == pages[i] && run'[i] == run[i] && run'[i + 1] == run[i + 1];
        assert Serves(pages[i], run[i + 1], capacity);
      } else {
        assert pages'[i] == page && run'[i] == run[n] && run'[i + 1] == after;
      }
    }
  }

  lemma {:induction false} QueueRunIsDemand(policy: Policy, pages: seq<Page>, capacity: nat)
    requires 1 <= capacity
    ensures var run := ResidentRun(policy, pages, capacity);
            && IsDemandRun(run, pages, capacity)
            && run[|pages|] == Elements(Queue(policy, pages, capacity))
            && Faults(run, pages) == QueueFaults(policy, pages, capacity)
  {
    if pages != [] {
      var n := |pages| - 1;
      var before, page := pages[..n], pages[n];
      assert before + [page] == pages;
      QueueRunIsDemand(policy, before, capacity);
      var queue, run := Queue(policy, before, capacity), ResidentRun(policy, before, capacity);
      QueueIsShaped(policy, before, capacity);
      StepIsDemand(policy, queue, page, capacity);
      var after := Elements(QueueStep(policy, queue, page, capacity));
      ExtendDemandRun(run, before, after, page, capacity);
      FaultsAppend(run, before, after, page);
    }
  }

  // ----- competitiveness

  /** A phase is a stretch of requests naming at most `capacity` pages.  `count` phases are
      over; the current one has named the pages `named` and seen `recent` faults. `held` is
      what the rival held after the first request of the phase, or nothing in the first one. */
  datatype Phase = Phase(count: nat, named: set<Page>, held: set<Page>, recent: nat)

  /** What a rival with `frames` frames has paid at least when `count` phases are over:
      all pages of the first one, and each later time all but those it held already. */
  function Toll(count: nat, frames: nat, capacity: nat): nat
    requires frames <= capacity
  {
    if count == 0 then 0 else frames + Multiple(capacity - frames + 1, count)
  }

  /** k * n, by addition. */
  function Multiple(k: nat, n: nat): nat {
    if n == 0 then 0 else Multiple(k, n - 1) + k
  }

  lemma {:induction false} MultipleIs(k: nat, n: nat)
    ensures Multiple(k, n) == k * n
  {
    if n > 0 {
      MultipleIs(k, n - 1);
      assert k * n == k * (n - 1) + k;
    }
  }

  ghost predicate TailNamed(queue: seq<Page>, recent: nat, named: set<Page>) {
    recent <= |queue| && forall j :: |queue| - recent <= j < |queue| ==> queue[j] in named
  }

  /** In each phase the policy faults at most `capacity` times, on pages now at the tail of its
      queue, while the rival has paid the toll and for every page of the phase it did not hold. */
  ghost predicate InPhase(queue: seq<Page>, faults: nat, capacity: nat, rival: set<Page>, paid: nat, frames: nat, ph: Phase)
    requires frames <= capacity
  {
    && TailNamed(queue, ph.recent, ph.named)
    && faults <= Multiple(capacity, ph.count) + ph.recent
    && |ph.named| <= capacity && |ph.held| <= frames && (ph.count == 0 ==> ph.held == {})
    && Toll(ph.count, frames, capacity) + |ph.named + rival - ph.held| <= paid
  }

  lemma RecentAreNamed(queue: seq<Page>, ph: Phase)
    requires Distinct(queue) && TailNamed(queue, ph.recent, ph.named)
    ensures ph.recent <= |ph.named|
    ensures forall page :: page !in queue ==> ph.recent + 1 <= |ph.named + {page}|
  {
    var tail := queue[|queue| - ph.recent..];
    DistinctSize(tail);
    SubsetSize(Elements(tail), ph.named);
    forall page | page !in queue ensures ph.recent + 1 <= |ph.named + {page}| {
      assert page !in Elements(tail);
      SubsetSize(Elements(tail) + {page}, ph.named + {page});
    }
  }

  /** Whatever the rival newly holds it has just paid for. */
  lemma RivalPays(rival: set<Page>, rival': set<Page>, page: Page, ph: Phase)
    requires page in rival'
    ensures |ph.named + {page} + rival' - ph.held| <= |ph.named + rival - ph.held| + |rival' - rival|
  {
    SubsetSize(ph.named + {page} + rival' - ph.held, (ph.named + rival - ph.held) + (rival' - rival));
  }

  lemma TailStaysNamed(policy: Policy, queue: seq<Page>, page: Page, capacity: nat, recent: nat, named: set<Page>)
    requires 1 <= capacity && QueueShape(queue, capacity) && TailNamed(queue, recent, named)
    requires page !in queue ==> recent < capacity
    ensures TailNamed(QueueStep(policy, queue, page, capacity), recent + (if page in queue then 0 else 1), named + {page})
  {
    if page in queue {
      var i :| 0 <= i < |queue| && queue[i] == page;
      WithoutAt(queue, i);
    }
  }

  lemma StayInPhase(policy: Policy, queue: seq<Page>, page: Page, faults: nat, capacity: nat,
                    rival: set<Page>, rival': set<Page>, paid: nat, frames: nat, ph: Phase)
    requires 1 <= frames <= capacity && QueueShape(queue, capacity)
    requires InPhase(queue, faults, capacity, rival, paid, frames, ph)
    requires Serves(page, rival', frames) && |ph.named + {page}| <= capacity
    ensures var fault := if page in queue then 0 else 1;
            InPhase(QueueStep(policy, queue, page, capacity), faults + fault, capacity, rival', paid + |rival' - rival|,
                    frames, ph.(named := ph.named + {page}, recent := ph.recent + fault))
  {
    RivalPays(rival, rival', page, ph);
    RecentAreNamed(queue, ph);
    TailStaysNamed(policy, queue, page, capacity, ph.recent, ph.named);
  }

  lemma StartPhase(policy: Policy, queue: seq<Page>, page: Page, faults: nat, capacity: nat,
                   rival: set<Page>, rival': set<Page>, paid: nat, frames: nat, ph: Phase)
    requires 1 <= frames <= capacity && QueueShape(queue, capacity)
    requires InPhase(queue, faults, capacity, rival, paid, frames, ph)
    requires Serves(page, rival', frames) && page !in ph.named && |ph.named| == capacity
    ensures var fault := if page in queue then 0 else 1;
            InPhase(QueueStep(policy, queue, page, capacity), faults + fault, capacity, rival', paid + |rival' - rival|,
                    frames, Phase(ph.count + 1, {page}, rival', fault))
  {
    RivalPays(rival, rival', page, ph);
    RecentAreNamed(queue, ph);
    SubsetSize(ph.named + {page}, (ph.named + {page} + rival' - ph.held) + ph.held);
    assert {page} + rival' - rival' == {};
  }

  lemma PhaseStep(policy: Policy, queue: seq<Page>, page: Page, faults: nat, capacity: nat,
                  rival: set<Page>, rival': set<Page>, paid: nat, frames: nat, ph: Phase)
    returns (ph': Phase)
    requires 1 <= frames <= capacity && QueueShape(queue, capacity)
    requires InPhase(queue, faults, capacity, rival, paid, frames, ph)
    requires Serves(page, rival', frames)
    ensures InPhase(QueueStep(policy, queue, page, capacity), faults + (if page in queue then 0 else 1), capacity,
                    rival', paid + |rival' - rival|, frames, ph')
  {
    var fault := if page in queue then 0 else 1;
    if |ph.named + {page}| <= capacity {
      StayInPhase(policy, queue, page, faults, capacity, rival, rival', paid, frames, ph);
      ph' := ph.(named := ph.named + {page}, recent := ph.recent + fault);
    } else {
      assert page in ph.named ==> ph.named + {page} == ph.named;
      StartPhase(policy, queue, page, faults, capacity, rival, rival', paid, frames, ph);
      ph' := Phase(ph.count + 1, {page}, rival', fault);
    }
  }

  lemma {:induction false} PhasesAlongRun(policy: Policy, pages: seq<Page>, capacity: nat,
                                          rival: seq<set<Page>>, frames: nat, i: nat)
    returns (ph: Phase)
    requires 1 <= frames <= capacity && IsRun(rival, pages, frames) && i <= |pages|
    ensures InPhase(Queue(policy, pages[..i], capacity), QueueFaults(policy, pages[..i], capacity), capacity,
                    rival[i], Loads(rival[..i + 1]), frames, ph)
  {
    if i == 0 {
      ph := Phase(0, {}, {}, 0);
    } else {
      var page, before := pages[i - 1], pages[..i - 1];
      assert pages[..i][..i - 1] == before;
      assert Serves(page, rival[i], frames);
      LoadsOfPrefix(rival, i - 1);
      ph := PhasesAlongRun(policy, pages, capacity, rival, frames, i - 1);
      QueueIsShaped(policy, before, capacity);
      ph := PhaseStep(policy, Queue(policy, before, capacity), page, QueueFaults(policy, before, capacity), capacity,
                      rival[i - 1], rival[i], Loads(rival[..i]), frames, ph);
    }
  }

  /** The bound when the string stops in the middle of a phase. */
  lemma PhaseBound(queue: seq<Page>, faults: nat, capacity: nat, rival: set<Page>, paid: nat, frames: nat, ph: Phase)
    requires 1 <= frames <= capacity && Distinct(queue)
    requires InPhase(queue, faults, capacity, rival, paid, frames, ph)
    ensures (capacity - frames + 1) * faults <= capacity * paid
  {
    var c, n := capacity - frames + 1, |ph.named|;
    RecentAreNamed(queue, ph);
    SubsetSize(ph.named, (ph.named + rival - ph.held) + ph.held);
    // From the second phase on the toll covers the pages the rival held.
    var slack := if ph.count == 0 || frames < n then n else frames;
    MultipleIs(capacity, ph.count);
    MultipleIs(c, ph.count);
    Bound(c, capacity, ph.count, ph.recent, slack, faults, paid);
  }

  lemma Bound(c: nat, k: nat, count: nat, recent: nat, slack: nat, faults: nat, paid: nat)
    requires c <= k && recent <= slack && faults <= k * count + recent && c * count + slack <= paid
    ensures c * faults <= k * paid
  {
    calc {
      c * faults;
    <= { Scale(c, faults, k * count + recent); }
      c * (k * count + recent);
    == { Distribute(c, k, count, recent); }
      k * (c * count) + c * recent;
    <= { Scale(recent, c, k); Scale(k, recent, slack); }
      k * (c * count) + k * slack;
    == { Distribute(k, 1, c * count, slack); }
      k * (c * count + slack);
    <= { Scale(k, c * count + slack, paid); }
      k * paid;
    }
  }

  lemma Distribute(c: nat, k: nat, a: nat, b: nat)
    ensures c * (k * a + b) == k * (c * a) + c * b
  {
    assert c * (k * a) == k * (c * a);
  }

  /** FIFO and LRU with `capacity` frames against a rival with at most as many: the policy
      faults at most capacity / (capacity - frames + 1) times as often as the rival loads pages. */
  lemma QueueIsCompetitive(policy: Policy, pages: seq<Page>, capacity: nat, rival: seq<set<Page>>, frames: nat)
    requires 1 <= frames <= capacity && IsRun(rival, pages, frames)
    ensures (capacity - frames + 1) * QueueFaults(policy, pages, capacity) <= capacity * Loads(rival)
  {
    var n := |pages|;
    var ph := PhasesAlongRun(policy, pages, capacity, rival, frames, n);
    assert pages[..n] == pages && rival[..n + 1] == rival;
    QueueIsShaped(policy, pages, capacity);
    PhaseBound(Queue(policy, pages, capacity), QueueFaults(policy, pages, capacity), capacity,
               rival[n], Loads(rival), frames, ph);
  }

  lemma Scale(k: nat, a: nat, b: nat)
    requires a <= b
    ensures k * a <= k * b && a * k <= b * k
  {
  }
}
