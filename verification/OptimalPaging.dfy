/** Farthest-in-future replacement (optimalPageReplacement) and its optimality. */
module OptimalPaging {
  import opened Common
  import opened Paging

  /** The first position from `from` on that references `page`, or |pages|. */
  function NextUse(pages: seq<Page>, page: Page, from: nat): (next: nat)
    requires from <= |pages|
    ensures from <= next <= |pages|
    ensures next < |pages| ==> pages[next] == page
    ensures forall j :: from <= j < next ==> pages[j] != page
    decreases |pages| - from
  {
    if from == |pages| || pages[from] == page then from else NextUse(pages, page, from + 1)
  }

  ghost predicate IsFarthest(pages: seq<Page>, from: nat, resident: set<Page>, victim: Page)
    requires from <= |pages|
  {
    victim in resident && forall x :: x in resident ==> NextUse(pages, x, from) <= NextUse(pages, victim, from)
  }

  /** One request under the farthest-in-future rule; ties are left open. */
  ghost predicate BeladyStep(pages: seq<Page>, i: nat, before: set<Page>, after: set<Page>, capacity: nat)
    requires i < |pages|
  {
    if pages[i] in before then after == before
    else if |before| < capacity then after == before + {pages[i]}
    else exists victim :: IsFarthest(pages, i + 1, before, victim) && after == before - {victim} + {pages[i]}
  }

  ghost predicate IsBeladyRun(run: seq<set<Page>>, pages: seq<Page>, capacity: nat) {
    && IsRun(run, pages, capacity)
    && forall i :: 0 <= i < |pages| ==> BeladyStep(pages, i, run[i], run[i + 1], capacity)
  }

  /** The resident pages that are requested again no later than position `t`. */
  ghost function Soon(pages: seq<Page>, from: nat, resident: set<Page>, t: nat): set<Page>
    requires from <= |pages|
  {
    set x | x in resident && NextUse(pages, x, from) <= t
  }

  /** 1 if the page of request i is requested again no later than `t`. */
  function Again(pages: seq<Page>, i: nat, t: nat): nat
    requires i < |pages|
  {
    if NextUse(pages, pages[i], i + 1) <= t then 1 else 0
  }

  lemma WithoutOne<T>(s: set<T>, x: T)
    ensures |s - {x}| == |s| - if x in s then 1 else 0
  {
    if x in s {
      assert s == s - {x} + {x};
    } else {
      assert s - {x} == s;
    }
  }

  /** Whatever a policy does on request i, its stock of soon-needed pages grows
      by no more than it pays for. */
  lemma AnyStepGains(pages: seq<Page>, i: nat, before: set<Page>, after: set<Page>, t: nat)
    requires i < |pages| && i < t && pages[i] in after
    ensures |Soon(pages, i + 1, after, t)|
         <= |Soon(pages, i, before, t)| + |after - before| - 1 + Again(pages, i, t)
  {
    var p := pages[i];
    var old', new', loaded := Soon(pages, i, before, t), Soon(pages, i + 1, after, t), after - before;
    assert new' - {p} <= (old' - {p}) + (loaded - {p});
    SubsetSize(new' - {p}, (old' - {p}) + (loaded - {p}));
    WithoutOne(old', p);
    WithoutOne(new', p);
    WithoutOne(loaded, p);
    assert p in old' <==> p in before;
    assert p in new' <==> Again(pages, i, t) == 1;
  }

  /** The farthest-in-future rule gains exactly that much, as long as it evicts
      no page needed by `t`. */
  lemma KeepingGains(pages: seq<Page>, i: nat, before: set<Page>, kept: set<Page>, t: nat)
    requires i < |pages| && i < t && kept <= before && (pages[i] in before ==> kept == before)
    requires Soon(pages, i, before, t) <= kept
    ensures |Soon(pages, i + 1, kept + {pages[i]}, t)|
         == |Soon(pages, i, before, t)| + (if pages[i] in before then 0 else 1) - 1 + Again(pages, i, t)
  {
    var p := pages[i];
    var old', new' := Soon(pages, i, before, t), Soon(pages, i + 1, kept + {p}, t);
    assert new' - {p} == old' - {p};
    WithoutOne(old', p);
    WithoutOne(new', p);
    assert p in old' <==> p in before;
    assert p in new' <==> Again(pages, i, t) == 1;
  }

  /** If it does evict one, all the pages it held were needed by `t`, and its
      frames stay full of such pages. */
  lemma EvictingSoonMeansFull(pages: seq<Page>, i: nat, before: set<Page>, victim: Page, t: nat)
    requires i < |pages| && i < t && pages[i] !in before
    requires IsFarthest(pages, i + 1, before, victim) && victim in Soon(pages, i, before, t)
    ensures |Soon(pages, i + 1, before - {victim} + {pages[i]}, t)| == |before| - 1 + Again(pages, i, t)
  {
    var p := pages[i];
    var new' := Soon(pages, i + 1, before - {victim} + {p}, t);
    assert new' - {p} == before - {victim};
    WithoutOne(before, victim);
    WithoutOne(new', p);
    assert p in new' <==> Again(pages, i, t) == 1;
  }

  lemma BeladyStepGains(pages: seq<Page>, i: nat, before: set<Page>, after: set<Page>, t: nat, capacity: nat)
    requires i < |pages| && i < t && 1 <= capacity && |before| <= capacity
    requires BeladyStep(pages, i, before, after, capacity)
    ensures || |Soon(pages, i + 1, after, t)|
              == |Soon(pages, i, before, t)| + |after - before| - 1 + Again(pages, i, t)
            || |Soon(pages, i + 1, after, t)| == capacity - 1 + Again(pages, i, t)
  {
    var p := pages[i];
    if p in before {
      assert after - before == {} && after == before + {p};
      KeepingGains(pages, i, before, before, t);
    } else if |before| < capacity {
      assert after - before == {p};
      KeepingGains(pages, i, before, before, t);
    } else {
      var victim :| IsFarthest(pages, i + 1, before, victim) && after == before - {victim} + {p};
      assert after - before == {p};
      if victim in Soon(pages, i, before, t) {
        EvictingSoonMeansFull(pages, i, before, victim, t);
      } else {
        KeepingGains(pages, i, before, before - {victim}, t);
      }
    }
  }

  /** Dominance: how far another run may be ahead in soon-needed pages is
      bounded by how much more it has paid. */
  ghost predicate Dominates(pages: seq<Page>, i: nat, mine: set<Page>, theirs: set<Page>, credit: int)
    requires i <= |pages|
  {
    && 0 <= credit
    && forall t :: i <= t < |pages| ==> |Soon(pages, i, theirs, t)| <= |Soon(pages, i, mine, t)| + credit
  }

  lemma CreditStaysNonNegative(pages: seq<Page>, i: nat, capacity: nat,
                               mine: set<Page>, mine': set<Page>, theirs: set<Page>, theirs': set<Page>, credit: int)
    requires i < |pages|
    requires Dominates(pages, i, mine, theirs, credit)
    requires BeladyStep(pages, i, mine, mine', capacity)
    requires Serves(pages[i], theirs', capacity)
    ensures 0 <= credit + |theirs' - theirs| - |mine' - mine|
  {
    var p := pages[i];
    if p in mine {
      assert mine' - mine == {};
    } else {
      assert mine' - mine == {p};
      if p in theirs {
        // Only the other run holds p now, so it has paid for that already.
        assert Soon(pages, i, theirs, i) == {p};
        assert Soon(pages, i, mine, i) == {};
      } else {
        assert p in theirs' - theirs;
      }
    }
  }

  lemma FullFramesSuffice(pages: seq<Page>, i: nat, theirs': set<Page>, t: nat, capacity: nat)
    requires i < |pages| && i < t && Serves(pages[i], theirs', capacity)
    ensures |Soon(pages, i + 1, theirs', t)| <= capacity - 1 + Again(pages, i, t)
  {
    var p, soon := pages[i], Soon(pages, i + 1, theirs', t);
    assert p in soon <==> Again(pages, i, t) == 1;
    if p in soon {
      SubsetSize(soon, theirs');
    } else {
      SubsetSize(soon + {p}, theirs');
      assert |soon + {p}| == |soon| + 1;
    }
  }

  lemma DominanceStep(pages: seq<Page>, i: nat, capacity: nat,
                      mine: set<Page>, mine': set<Page>, theirs: set<Page>, theirs': set<Page>, credit: int)
    requires i < |pages| && 1 <= capacity && |mine| <= capacity
    requires Dominates(pages, i, mine, theirs, credit)
    requires BeladyStep(pages, i, mine, mine', capacity)
    requires Serves(pages[i], theirs', capacity)
    ensures Dominates(pages, i + 1, mine', theirs', credit + |theirs' - theirs| - |mine' - mine|)
  {
    var next, credit' := i + 1, credit + |theirs' - theirs| - |mine' - mine|;
    CreditStaysNonNegative(pages, i, capacity, mine, mine', theirs, theirs', credit);
    forall t | next <= t < |pages|
      ensures |Soon(pages, next, theirs', t)| <= |Soon(pages, next, mine', t)| + credit'
    {
      AnyStepGains(pages, i, theirs, theirs', t);
      BeladyStepGains(pages, i, mine, mine', t, capacity);
      FullFramesSuffice(pages, i, theirs', t, capacity);
    }
  }

  lemma {:induction false} DominanceAlongRuns(pages: seq<Page>, capacity: nat, mine: seq<set<Page>>,
                                              theirs: seq<set<Page>>, i: nat)
    requires 1 <= capacity && i <= |pages|
    requires IsBeladyRun(mine, pages, capacity) && IsRun(theirs, pages, capacity)
    ensures Dominates(pages, i, mine[i], theirs[i], Loads(theirs[..i + 1]) - Loads(mine[..i + 1]))
  {
    if i > 0 {
      DominanceAlongRuns(pages, capacity, mine, theirs, i - 1);
      if i > 1 {
        assert Serves(pages[i - 2], mine[i - 1], capacity);
      }
      DominanceStep(pages, i - 1, capacity, mine[i - 1], mine[i], theirs[i - 1], theirs[i],
                    Loads(theirs[..i]) - Loads(mine[..i]));
      LoadsOfPrefix(theirs, i - 1);
      LoadsOfPrefix(mine, i - 1);
    }
  }

  /** Belady's theorem: evicting the page used farthest in the future loads no
      more pages than any run of the same reference string in as many frames,
      whether it evicts early, keeps frames free or fetches ahead of demand. */
  lemma BeladyOptimal(pages: seq<Page>, capacity: nat, mine: seq<set<Page>>, theirs: seq<set<Page>>)
    requires 1 <= capacity
    requires IsBeladyRun(mine, pages, capacity) && IsRun(theirs, pages, capacity)
    ensures Loads(mine) <= Loads(theirs)
  {
    DominanceAlongRuns(pages, capacity, mine, theirs, |pages|);
    assert mine[..|mine|] == mine && theirs[..|theirs|] == theirs;
  }

  // ----- the two loops of the program

  /** The first frame whose page has the latest next use from `current` on. */
  method FindFarthest(pages: seq<Page>, current: nat, frames: array<Page>) returns (index: int)
    requires current <= |pages| && 1 <= frames.Length
    ensures 0 <= index < frames.Length
    ensures forall i :: 0 <= i < frames.Length ==>
              NextUse(pages, frames[i], current) <= NextUse(pages, frames[index], current)
    ensures forall i :: 0 <= i < index ==>
              NextUse(pages, frames[i], current) < NextUse(pages, frames[index], current)
  {
    var farthest, farthestIndex := -1, -1;
    for i := 0 to frames.Length
      invariant -1 <= farthestIndex < i
      invariant farthestIndex == -1 <==> i == 0
      invariant i > 0 ==> farthest == NextUse(pages, frames[farthestIndex], current) < |pages|
      invariant farthest < |pages|
      invariant forall k :: 0 <= k < i ==> NextUse(pages, frames[k], current) <= farthest
      invariant forall k :: 0 <= k < farthestIndex ==> NextUse(pages, frames[k], current) < farthest
      invariant i == 0 ==> farthest == -1
    {
      var j := current;
      while j < |pages| && frames[i] != pages[j]
        invariant current <= j <= NextUse(pages, frames[i], current)
      {
        j := j + 1;
      }
      if j < |pages| && j > farthest {
        farthest, farthestIndex := j, i;
      }
      if j == |pages| {
        return i;
      }
    }
    return if farthestIndex == -1 then 0 else farthestIndex;
  }

  /** The first `i` requests have been served by the farthest-in-future rule. */
  ghost predicate BeladyUpTo(run: seq<set<Page>>, pages: seq<Page>, i: nat, capacity: nat)
    requires i <= |pages|
  {
    && |run| == i + 1 && run[0] == {}
    && forall k :: 0 <= k < i ==>
         && Serves(pages[k], run[k + 1], capacity)
         && BeladyStep(pages, k, run[k], run[k + 1], capacity)
  }

  lemma ExtendBelady(run: seq<set<Page>>, pages: seq<Page>, i: nat, after: set<Page>, capacity: nat)
    requires i < |pages| && BeladyUpTo(run, pages, i, capacity)
    requires Serves(pages[i], after, capacity) && BeladyStep(pages, i, run[i], after, capacity)
    ensures BeladyUpTo(run + [after], pages, i + 1, capacity)
  {
    var run' := run + [after];
    forall k | 0 <= k < i + 1
      ensures Serves(pages[k], run'[k + 1], capacity) && BeladyStep(pages, k, run'[k], run'[k + 1], capacity)
    {
      assert run'[k] == run[k] && run'[k + 1] == if k < i then run[k + 1] else after;
    }
  }

  lemma StepCost(run: seq<set<Page>>, pages: seq<Page>, i: nat, after: set<Page>, capacity: nat)
    requires i < |pages| && |run| == i + 1 && BeladyStep(pages, i, run[i], after, capacity)
    ensures Loads(run + [after]) == Loads(run) + if pages[i] in run[i] then 0 else 1
  {
    LoadsAppend(run, after);
    if pages[i] in run[i] {
      assert after - run[i] == {};
    } else {
      assert after - run[i] == {pages[i]};
    }
  }

  lemma BeladyIsDemand(run: seq<set<Page>>, pages: seq<Page>, capacity: nat)
    requires IsBeladyRun(run, pages, capacity)
    ensures IsDemandRun(run, pages, capacity)
  {
    forall i | 0 <= i < |pages|
      ensures if pages[i] in run[i] then run[i + 1] == run[i] else run[i + 1] <= run[i] + {pages[i]}
    {
      assert BeladyStep(pages, i, run[i], run[i + 1], capacity);
    }
  }

  /** What loading a page on a miss does to the set of resident pages. */
  lemma FillFreeFrame(pages: seq<Page>, i: nat, before: seq<Page>, capacity: nat)
    requires i < |pages| && Distinct(before) && pages[i] !in before && |before| < capacity
    ensures var after := before + [pages[i]];
            && Distinct(after) && Serves(pages[i], Elements(after), capacity)
            && BeladyStep(pages, i, Elements(before), Elements(after), capacity)
  {
    ElementsAppend(before, pages[i]);
    DistinctSize(before);
    DistinctSize(before + [pages[i]]);
  }

  lemma ReplaceFarthest(pages: seq<Page>, i: nat, before: seq<Page>, victim: nat, capacity: nat)
    requires i < |pages| && Distinct(before) && pages[i] !in before && victim < |before| == capacity
    requires forall j :: 0 <= j < |before| ==>
               NextUse(pages, before[j], i + 1) <= NextUse(pages, before[victim], i + 1)
    ensures var after := before[victim := pages[i]];
            && Distinct(after) && Serves(pages[i], Elements(after), capacity)
            && BeladyStep(pages, i, Elements(before), Elements(after), capacity)
  {
    ElementsReplace(before, victim, pages[i]);
    DistinctSize(before);
    DistinctSize(before[victim := pages[i]]);
    assert IsFarthest(pages, i + 1, Elements(before), before[victim]);
  }

  /** One iteration of the loop: serve request i from the frames held in `run[i]`. */
  method OptimalRequest(pages: seq<Page>, i: nat, frames: array<Page>, size: nat, ghost run: seq<set<Page>>)
    returns (size': nat, found: bool)
    requires i < |pages| && 1 <= frames.Length && size <= frames.Length && Distinct(frames[..size])
    requires BeladyUpTo(run, pages, i, frames.Length) && run[i] == Elements(frames[..size])
    modifies frames
    ensures size' <= frames.Length && Distinct(frames[..size'])
    ensures found <==> pages[i] in run[i]
    ensures Serves(pages[i], Elements(frames[..size']), frames.Length)
    ensures BeladyStep(pages, i, run[i], Elements(frames[..size']), frames.Length)
  {
    ghost var before := frames[..size];
    for j := 0 to size
      invariant forall k :: 0 <= k < j ==> frames[k] != pages[i]
    {
      if frames[j] == pages[i] {
        assert before[j] == pages[i];
        DistinctSize(before);
        return size, true;
      }
    }
    assert pages[i] !in before;
    if size < frames.Length {
      FillFreeFrame(pages, i, before, frames.Length);
      frames[size] := pages[i];
      assert frames[..size + 1] == before + [pages[i]];
      return size + 1, false;
    }
    var victim := FindFarthest(pages, i + 1, frames);
    assert forall j :: 0 <= j < size ==> before[j] == frames[j];
    ReplaceFarthest(pages, i, before, victim, frames.Length);
    frames[victim] := pages[i];
    assert frames[..size] == before[victim := pages[i]];
    return size, false;
  }

  /** Its fault count is the least number of page loads of any run. */
  method OptimalPageReplacement(pages: seq<Page>, capacity: nat) returns (pageFaults: nat)
    requires 1 <= capacity
    ensures exists run :: IsDemandRun(run, pages, capacity) && Loads(run) == pageFaults
    ensures forall run :: IsRun(run, pages, capacity) ==> pageFaults <= Loads(run)
  {
    var frames := new Page[capacity](_ => -1);
    var size: nat := 0;
    pageFaults := 0;
    ghost var run: seq<set<Page>> := [{}];
    for i := 0 to |pages|
      invariant 0 <= size <= capacity && Distinct(frames[..size])
      invariant BeladyUpTo(run, pages, i, capacity) && run[i] == Elements(frames[..size])
      invariant Loads(run) == pageFaults
    {
      var found;
      size, found := OptimalRequest(pages, i, frames, size, run);
      if !found {
        pageFaults := pageFaults + 1;
      }
      StepCost(run, pages, i, Elements(frames[..size]), capacity);
      ExtendBelady(run, pages, i, Elements(frames[..size]), capacity);
      run := run + [Elements(frames[..size])];
    }
    BeladyIsDemand(run, pages, capacity);
    forall other | IsRun(other, pages, capacity)
      ensures pageFaults <= Loads(other)
    {
      BeladyOptimal(pages, capacity, run, other);
    }
  }
}
