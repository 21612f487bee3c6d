/** What it means to serve a reference string from a bounded set of frames,
    whatever the replacement policy.  Everything proved about FIFO, LRU and the
    optimal policy is stated against these three definitions. */
module Paging {
  import opened Common

  type Page = int

  /** After a request is served its page is resident, and the frames suffice.
      Anything else may have been evicted or even brought in ahead of time. */
  ghost predicate Serves(page: Page, after: set<Page>, capacity: nat) {
    page in after && |after| <= capacity
  }

  /** `run[i]` is the resident set before request i; the frames start empty. */
  ghost predicate IsRun(run: seq<set<Page>>, pages: seq<Page>, capacity: nat) {
    && |run| == |pages| + 1
    && run[0] == {}
    && forall i :: 0 <= i < |pages| ==> Serves(pages[i], run[i + 1], capacity)
  }

  /** The number of pages a run brings in.  For a demand-paging run, which only
      ever loads the page just requested, this is the number of faults. */
  ghost function Loads(run: seq<set<Page>>): nat {
    if |run| <= 1 then 0 else Loads(run[..|run| - 1]) + |run[|run| - 1] - run[|run| - 2]|
  }

  ghost predicate IsDemandRun(run: seq<set<Page>>, pages: seq<Page>, capacity: nat) {
    && IsRun(run, pages, capacity)
    && forall i :: 0 <= i < |pages| ==>
         if pages[i] in run[i] then run[i + 1] == run[i] else run[i + 1] <= run[i] + {pages[i]}
  }

  ghost function Faults(run: seq<set<Page>>, pages: seq<Page>): nat
    requires |run| == |pages| + 1
  {
    if pages == [] then 0
    else
      var n := |pages| - 1;
      Faults(run[..n + 1], pages[..n]) + if pages[n] in run[n] then 0 else 1
  }

  lemma {:induction false} LoadsOfPrefix(run: seq<set<Page>>, i: nat)
    requires i + 1 < |run|
    ensures Loads(run[..i + 2]) == Loads(run[..i + 1]) + |run[i + 1] - run[i]|
  {
    assert run[..i + 2][..i + 1] == run[..i + 1];
  }

  lemma LoadsAppend(run: seq<set<Page>>, after: set<Page>)
    requires run != []
    ensures Loads(run + [after]) == Loads(run) + |after - run[|run| - 1]|
  {
    assert (run + [after])[..|run|] == run;
  }

  /** Demand paging pays exactly one load per fault. */
  lemma {:induction false} DemandLoadsAreFaults(run: seq<set<Page>>, pages: seq<Page>, capacity: nat)
    requires IsDemandRun(run, pages, capacity)
    ensures Loads(run) == Faults(run, pages)
    decreases |pages|
  {
    if pages != [] {
      var n := |pages| - 1;
      DemandLoadsAreFaults(run[..n + 1], pages[..n], capacity);
      if pages[n] in run[n] {
        assert run[n + 1] - run[n] == {};
      } else {
        assert run[n + 1] - run[n] == {pages[n]};
      }
    }
  }

  // ----- resident pages held in a sequence of frames

  lemma ElementsAppend<T>(s: seq<T>, x: T)
    ensures Elements(s + [x]) == Elements(s) + {x}
    ensures Distinct(s) && x !in s ==> Distinct(s + [x])
  {
  }

  lemma ElementsReplace<T>(s: seq<T>, i: nat, x: T)
    requires i < |s| && Distinct(s) && x !in s
    ensures Elements(s[i := x]) == Elements(s) - {s[i]} + {x}
    ensures Distinct(s[i := x])
  {
    var s' := s[i := x];
    forall y | y in Elements(s) - {s[i]} + {x} ensures y in s' {
      if y == x {
        assert s'[i] == x;
      } else {
        var j :| 0 <= j < |s| && s[j] == y;
        assert s'[j] == y;
      }
    }
  }
}
