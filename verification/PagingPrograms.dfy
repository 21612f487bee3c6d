/** FIFOPageReplacement and LRUPageReplacement as the program runs them: a
    circular frame array with a head index, and frames stamped with their last use. */
module PagingPrograms {
  import opened Common
  import opened Paging
  import opened OptimalPaging
  import opened QueuePaging
  import opened LruStack

  lemma NextIndex(i: nat, n: nat)
    requires i < n
    ensures (i + 1) % n == if i + 1 == n then 0 else i + 1
  {
  }

  /** Overwriting the head of a full ring and advancing it drops the oldest page
      and appends the new one. */
  lemma Rotated(ring: seq<Page>, head: nat, page: Page)
    requires head < |ring|
    ensures var ring', head' := ring[head := page], (head + 1) % |ring|;
            && head' < |ring|
            && ring'[head'..|ring|] + ring'[..head'] == (ring[head..|ring|] + ring[..head])[1..] + [page]
  {
    NextIndex(head, |ring|);
  }

  class FifoQueue {
    var frames: array<Page>
    var capacity: nat
    var size: nat
    var head: nat

    ghost predicate Valid()
      reads this
    {
      && frames.Length == capacity
      && head < capacity
      && size <= capacity
      && (size < capacity ==> head == 0)
    }

    /** The resident pages, earliest loaded first. */
    ghost function Contents(): seq<Page>
      requires Valid()
      reads this, frames
    {
      frames[head..size] + frames[..head]
    }

    constructor (capacity: nat)
      requires 1 <= capacity
      ensures Valid() && fresh(frames) && this.capacity == capacity && Contents() == []
    {
      this.frames := new Page[capacity];
      this.capacity := capacity;
      this.size := 0;
      this.head := 0;
    }

    method IsPagePresent(page: Page) returns (present: bool)
      requires Valid()
      ensures present <==> page in Contents()
    {
      for i := 0 to size
        invariant page !in frames[..i]
      {
        if frames[i] == page {
          assert page in frames[head..size] + frames[..head] by {
            if head <= i {
              assert frames[head..size][i - head] == page;
            } else {
              assert frames[..head][i] == page;
            }
          }
          return true;
        }
      }
      return false;
    }

    /** The miss branch: fill a free frame, else overwrite the head and advance it. */
    method Load(page: Page)
      requires Valid()
      modifies this, frames
      ensures Valid() && frames == old(frames) && capacity == old(capacity)
      ensures Contents() == if |old(Contents())| < capacity then old(Contents()) + [page]
                            else old(Contents())[1..] + [page]
    {
      if size < capacity {
        frames[size] := page;
        size := size + 1;
      } else {
        ghost var before := frames[..];
        frames[head] := page;
        assert frames[..] == before[head := page];
        Rotated(before, head, page);
        head := (head + 1) % capacity;
      }
    }
  }

  method FifoPageReplacement(pages: seq<Page>, capacity: nat) returns (pageFaults: nat)
    requires 1 <= capacity
    ensures pageFaults == QueueFaults(Fifo, pages, capacity)
    ensures forall run, fewer :: 1 <= fewer <= capacity && IsRun(run, pages, fewer) ==>
              (capacity - fewer + 1) * pageFaults <= capacity * Loads(run)
  {
    var queue := new FifoQueue(capacity);
    pageFaults := 0;
    for i := 0 to |pages|
      invariant fresh(queue) && fresh(queue.frames)
      invariant queue.Valid() && queue.capacity == capacity
      invariant queue.Contents() == Queue(Fifo, pages[..i], capacity)
      invariant pageFaults == QueueFaults(Fifo, pages[..i], capacity)
    {
      assert pages[..i + 1][..i] == pages[..i];
      var present := queue.IsPagePresent(pages[i]);
      if !present {
        pageFaults := pageFaults + 1;
        queue.Load(pages[i]);
      }
    }
    assert pages[..|pages|] == pages;
    forall run, fewer | 1 <= fewer <= capacity && IsRun(run, pages, fewer)
      ensures (capacity - fewer + 1) * pageFaults <= capacity * Loads(run)
    {
      QueueIsCompetitive(Fifo, pages, capacity, run, fewer);
    }
  }

  datatype PageFrame = PageFrame(page: Page, lastUsed: int)

  /** The frames hold the queue's pages, each stamped with its last use. */
  ghost predicate Stamped(frames: seq<PageFrame>, pages: seq<Page>, queue: seq<Page>) {
    && |frames| == |queue|
    && (forall j :: 0 <= j < |frames| ==> frames[j].page in queue && frames[j].lastUsed == LastUse(pages, frames[j].page))
    && (forall x :: x in queue ==> exists j :: 0 <= j < |frames| && frames[j].page == x)
    && (forall j, k :: 0 <= j < k < |frames| ==> frames[j].page != frames[k].page)
  }

  lemma LruQueueSorted(pages: seq<Page>, capacity: nat)
    requires 1 <= capacity
    ensures SortedByLastUse(pages, Queue(Lru, pages, capacity))
    ensures forall x :: x in Queue(Lru, pages, capacity) ==> x in pages
  {
    RecencySorted(pages);
    LruQueueIsTail(pages, capacity);
  }

  /** On a hit the resident pages stay the same, in a new order. */
  lemma HitKeepsPages(queue: seq<Page>, page: Page, capacity: nat)
    requires 1 <= capacity && QueueShape(queue, capacity) && page in queue
    ensures forall x :: x in QueueStep(Lru, queue, page, capacity) <==> x in queue
    ensures |QueueStep(Lru, queue, page, capacity)| == |queue|
  {
    var i :| 0 <= i < |queue| && queue[i] == page;
    WithoutAt(queue, i);
    assert forall x :: x in QueueStep(Lru, queue, page, capacity) <==> x in Without(queue, page) || x == page;
  }

  lemma TouchFrame(frames: seq<PageFrame>, pages: seq<Page>, queue: seq<Page>, j: nat, page: Page, capacity: nat)
    requires 1 <= capacity && QueueShape(queue, capacity) && Stamped(frames, pages, queue)
    requires j < |frames| && frames[j].page == page
    ensures Stamped(frames[j := PageFrame(page, |pages|)], pages + [page], QueueStep(Lru, queue, page, capacity))
  {
    var frames', queue' := frames[j := PageFrame(page, |pages|)], QueueStep(Lru, queue, page, capacity);
    HitKeepsPages(queue, page, capacity);
    forall k | 0 <= k < |frames'|
      ensures frames'[k].page == frames[k].page && frames'[k].lastUsed == LastUse(pages + [page], frames'[k].page)
    {
      LastUseAfter(pages, page, frames'[k].page);
    }
    forall x | x in queue' ensures exists k :: 0 <= k < |frames'| && frames'[k].page == x {
      var k :| 0 <= k < |frames| && frames[k].page == x;
      assert frames'[k].page == x;
    }
  }

  lemma AddFrame(frames: seq<PageFrame>, pages: seq<Page>, queue: seq<Page>, page: Page)
    requires Stamped(frames, pages, queue) && page !in queue
    ensures Stamped(frames + [PageFrame(page, |pages|)], pages + [page], queue + [page])
  {
    var frames' := frames + [PageFrame(page, |pages|)];
    forall k | 0 <= k < |frames'| ensures frames'[k].lastUsed == LastUse(pages + [page], frames'[k].page) {
      LastUseAfter(pages, page, frames'[k].page);
    }
    forall x | x in queue + [page] ensures exists k :: 0 <= k < |frames'| && frames'[k].page == x {
      if x in queue {
        var k :| 0 <= k < |frames| && frames[k].page == x;
        assert frames'[k].page == x;
      } else {
        assert frames'[|frames|].page == x;
      }
    }
  }

  /** The least stamp belongs to the head of the queue. */
  lemma VictimIsHead(frames: seq<PageFrame>, pages: seq<Page>, queue: seq<Page>, victim: nat)
    requires Stamped(frames, pages, queue) && SortedByLastUse(pages, queue) && victim < |frames|
    requires forall x :: x in queue ==> x in pages
    requires forall k :: 0 <= k < |frames| ==> frames[victim].lastUsed <= frames[k].lastUsed
    ensures frames[victim].page == queue[0]
  {
    assert queue[0] in queue;
    var k :| 0 <= k < |frames| && frames[k].page == queue[0];
    var i :| 0 <= i < |queue| && queue[i] == frames[victim].page;
  }

  lemma ReplaceFrame(frames: seq<PageFrame>, pages: seq<Page>, queue: seq<Page>, victim: nat, page: Page)
    requires Stamped(frames, pages, queue) && Distinct(queue) && page !in queue
    requires victim < |frames| && frames[victim].page == queue[0]
    ensures Stamped(frames[victim := PageFrame(page, |pages|)], pages + [page], queue[1..] + [page])
  {
    var frames', queue' := frames[victim := PageFrame(page, |pages|)], queue[1..] + [page];
    forall k | 0 <= k < |frames'|
      ensures frames'[k].page in queue' && frames'[k].lastUsed == LastUse(pages + [page], frames'[k].page)
    {
      LastUseAfter(pages, page, frames'[k].page);
    }
    forall x | x in queue' ensures exists k :: 0 <= k < |frames'| && frames'[k].page == x {
      if x == page {
        assert frames'[victim].page == x;
      } else {
        assert x in queue;
        var k :| 0 <= k < |frames| && frames[k].page == x;
        assert frames'[k].page == x;
      }
    }
  }

  method LeastRecentlyUsed(frames: array<PageFrame>) returns (lruIndex: int)
    requires 1 <= frames.Length
    requires forall k :: 0 <= k < frames.Length ==> frames[k].lastUsed < INT_MAX
    ensures 0 <= lruIndex < frames.Length
    ensures forall k :: 0 <= k < frames.Length ==> frames[lruIndex].lastUsed <= frames[k].lastUsed
    ensures forall k :: 0 <= k < lruIndex ==> frames[lruIndex].lastUsed < frames[k].lastUsed
  {
    lruIndex := 0;
    var minLastUsed := INT_MAX;
    for j := 0 to frames.Length
      invariant 0 <= lruIndex < frames.Length
      invariant minLastUsed == if j == 0 then INT_MAX else frames[lruIndex].lastUsed
      invariant forall k :: 0 <= k < j ==> minLastUsed <= frames[k].lastUsed
      invariant forall k :: 0 <= k < lruIndex ==> minLastUsed < frames[k].lastUsed
    {
      if frames[j].lastUsed < minLastUsed {
        minLastUsed := frames[j].lastUsed;
        lruIndex := j;
      }
    }
  }

  /** One iteration of the LRU loop, at time `now`. */
  method LruRequest(frames: array<PageFrame>, size: nat, page: Page, now: nat, ghost before: seq<Page>)
    returns (size': nat, found: bool)
    requires 1 <= frames.Length && size <= frames.Length && now == |before| < INT_MAX
    requires Stamped(frames[..size], before, Queue(Lru, before, frames.Length))
    modifies frames
    ensures size' <= frames.Length
    ensures found <==> page in Queue(Lru, before, frames.Length)
    ensures Stamped(frames[..size'], before + [page], QueueStep(Lru, Queue(Lru, before, frames.Length), page, frames.Length))
  {
    ghost var queue, held := Queue(Lru, before, frames.Length), frames[..size];
    QueueIsShaped(Lru, before, frames.Length);
    for j := 0 to size
      invariant frames[..size] == held
      invariant forall k :: 0 <= k < j ==> held[k].page != page
    {
      if frames[j].page == page {
        assert held[j].page == page;
        TouchFrame(held, before, queue, j, page, frames.Length);
        frames[j] := PageFrame(page, now);
        assert frames[..size] == held[j := PageFrame(page, now)];
        return size, true;
      }
    }
    assert page !in queue;
    if size < frames.Length {
      AddFrame(held, before, queue, page);
      frames[size] := PageFrame(page, now);
      assert frames[..size + 1] == held + [PageFrame(page, now)];
      return size + 1, false;
    }
    assert forall k :: 0 <= k < size ==> held[k] == frames[k];
    var lruIndex := LeastRecentlyUsed(frames);
    LruQueueSorted(before, frames.Length);
    VictimIsHead(held, before, queue, lruIndex);
    ReplaceFrame(held, before, queue, lruIndex, page);
    frames[lruIndex] := PageFrame(page, now);
    assert frames[..size] == held[lruIndex := PageFrame(page, now)];
    return size, false;
  }

  method LruPageReplacement(pages: seq<Page>, capacity: nat) returns (pageFaults: nat)
    requires 1 <= capacity && |pages| <= INT_MAX
    ensures pageFaults == QueueFaults(Lru, pages, capacity)
    ensures forall run, fewer :: 1 <= fewer <= capacity && IsRun(run, pages, fewer) ==>
              (capacity - fewer + 1) * pageFaults <= capacity * Loads(run)
  {
    var frames := new PageFrame[capacity](_ => PageFrame(-1, -1));
    var size: nat := 0;
    pageFaults := 0;
    for i := 0 to |pages|
      invariant 0 <= size <= capacity
      invariant Stamped(frames[..size], pages[..i], Queue(Lru, pages[..i], capacity))
      invariant pageFaults == QueueFaults(Lru, pages[..i], capacity)
    {
      assert pages[..i + 1] == pages[..i] + [pages[i]] && pages[..i + 1][..i] == pages[..i];
      var found;
      size, found := LruRequest(frames, size, pages[i], i, pages[..i]);
      if !found {
        pageFaults := pageFaults + 1;
      }
    }
    assert pages[..|pages|] == pages;
    forall run, fewer | 1 <= fewer <= capacity && IsRun(run, pages, fewer)
      ensures (capacity - fewer + 1) * pageFaults <= capacity * Loads(run)
    {
      QueueIsCompetitive(Lru, pages, capacity, run, fewer);
    }
  }

  /** The three programs side by side on one reference string. */
  lemma OptimalBoundsQueues(policy: Policy, pages: seq<Page>, capacity: nat, best: seq<set<Page>>)
    requires 1 <= capacity && IsBeladyRun(best, pages, capacity)
    ensures Loads(best) <= QueueFaults(policy, pages, capacity) <= capacity * Loads(best)
  {
    var run := ResidentRun(policy, pages, capacity);
    QueueRunIsDemand(policy, pages, capacity);
    DemandLoadsAreFaults(run, pages, capacity);
    BeladyOptimal(pages, capacity, best, run);
    QueueIsCompetitive(policy, pages, capacity, best, capacity);
  }
}
