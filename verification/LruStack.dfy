/** What the two queue policies keep, said without mentioning the queue: LRU keeps
    the most recently used pages, FIFO the most recently loaded ones. */
module LruStack {
  import opened Common
  import opened Paging
  import opened QueuePaging

  /** The last position that references `page`, or -1. */
  function LastUse(pages: seq<Page>, page: Page): (last: int)
    ensures -1 <= last < |pages|
    ensures last == -1 <==> page !in pages
    ensures last >= 0 ==> pages[last] == page
    ensures forall j :: last < j < |pages| ==> pages[j] != page
  {
    if pages == [] then -1
    else if pages[|pages| - 1] == page then |pages| - 1
    else LastUse(pages[..|pages| - 1], page)
  }

  /** The pages used after the last use of `page`. */
  ghost function UsedSince(pages: seq<Page>, page: Page): set<Page> {
    set x | x in pages && LastUse(pages, x) > LastUse(pages, page)
  }

  /** The (up to) `capacity` pages whose last use is latest. */
  ghost function MostRecent(pages: seq<Page>, capacity: nat): set<Page> {
    set x | x in pages && |UsedSince(pages, x)| < capacity
  }

  /** All pages so far, least recently used first. */
  function Recency(pages: seq<Page>): seq<Page> {
    if pages == [] then []
    else
      var n := |pages| - 1;
      Without(Recency(pages[..n]), pages[n]) + [pages[n]]
  }

  function Tail(s: seq<Page>, k: nat): seq<Page> {
    if |s| <= k then s else s[|s| - k..]
  }

  ghost predicate SortedByLastUse(pages: seq<Page>, order: seq<Page>) {
    forall a, b :: 0 <= a < b < |order| ==> LastUse(pages, order[a]) < LastUse(pages, order[b])
  }

  lemma LastUseAfter(pages: seq<Page>, page: Page, x: Page)
    ensures LastUse(pages + [page], x) == if x == page then |pages| else LastUse(pages, x)
  {
    assert (pages + [page])[..|pages|] == pages;
  }

  /** Moving a page to the tail keeps the others in order. */
  lemma WithoutKeepsOrder(pages: seq<Page>, order: seq<Page>, page: Page)
    requires Distinct(order) && SortedByLastUse(pages, order)
    ensures Distinct(Without(order, page)) && SortedByLastUse(pages, Without(order, page))
  {
    if page in order {
      var i :| 0 <= i < |order| && order[i] == page;
      WithoutAt(order, i);
      DropOneKeepsOrder(pages, order, i);
    } else {
      WithoutAbsent(order, page);
    }
  }

  lemma DropOneKeepsOrder(pages: seq<Page>, order: seq<Page>, i: nat)
    requires Distinct(order) && SortedByLastUse(pages, order) && i < |order|
    ensures Distinct(order[..i] + order[i + 1..]) && SortedByLastUse(pages, order[..i] + order[i + 1..])
  {
    var rest := order[..i] + order[i + 1..];
    assert forall a :: 0 <= a < |rest| ==> rest[a] == order[if a < i then a else a + 1];
  }

  lemma {:induction false} RecencySorted(pages: seq<Page>)
    ensures forall x :: x in Recency(pages) <==> x in pages
    ensures SortedByLastUse(pages, Recency(pages))
    ensures Distinct(Recency(pages))
  {
    if pages != [] {
      var n := |pages| - 1;
      var before, page := pages[..n], pages[n];
      var older := Recency(before);
      RecencySorted(before);
      assert pages == before + [page];
      WithoutKeepsOrder(before, older, page);
      var rest := Without(older, page);
      forall a | 0 <= a < |rest|
        ensures rest[a] != page && LastUse(pages, rest[a]) == LastUse(before, rest[a])
      {
        assert rest[a] in rest;
        LastUseAfter(before, page, rest[a]);
      }
    }
  }

  lemma MoveToTail(order: seq<Page>, i: nat, cut: nat)
    requires cut <= i < |order|
    ensures order[cut..][..i - cut] + order[cut..][i - cut + 1..] + [order[i]]
         == (order[..i] + order[i + 1..] + [order[i]])[cut..]
  {
  }

  lemma TailStepHit(order: seq<Page>, i: nat, capacity: nat)
    requires 1 <= capacity && Distinct(order) && |order| - capacity <= i < |order|
    ensures QueueStep(Lru, Tail(order, capacity), order[i], capacity)
         == Tail(order[..i] + order[i + 1..] + [order[i]], capacity)
  {
    var tail := Tail(order, capacity);
    var cut := |order| - |tail|;
    assert tail == order[cut..] && tail[i - cut] == order[i];
    WithoutAt(tail, i - cut);
    MoveToTail(order, i, cut);
  }

  lemma TailStepDeep(order: seq<Page>, i: nat, capacity: nat)
    requires 1 <= capacity && Distinct(order) && i < |order| - capacity
    ensures QueueStep(Lru, Tail(order, capacity), order[i], capacity)
         == Tail(order[..i] + order[i + 1..] + [order[i]], capacity)
  {
    var cut := |order| - capacity;
    assert Tail(order, capacity) == order[cut..] && order[i] !in order[cut..];
    assert order[cut..][1..] == order[cut + 1..];
    assert (order[..i] + order[i + 1..] + [order[i]])[cut..] == order[cut + 1..] + [order[i]];
  }

  lemma TailStep(order: seq<Page>, page: Page, capacity: nat)
    requires 1 <= capacity && Distinct(order)
    ensures QueueStep(Lru, Tail(order, capacity), page, capacity) == Tail(Without(order, page) + [page], capacity)
  {
    if page in order {
      var i :| 0 <= i < |order| && order[i] == page;
      WithoutAt(order, i);
      if |order| - capacity <= i {
        TailStepHit(order, i, capacity);
      } else {
        TailStepDeep(order, i, capacity);
      }
    } else {
      WithoutAbsent(order, page);
    }
  }

  lemma {:induction false} LruQueueIsTail(pages: seq<Page>, capacity: nat)
    requires 1 <= capacity
    ensures Queue(Lru, pages, capacity) == Tail(Recency(pages), capacity)
  {
    if pages != [] {
      var n := |pages| - 1;
      LruQueueIsTail(pages[..n], capacity);
      RecencySorted(pages[..n]);
      TailStep(Recency(pages[..n]), pages[n], capacity);
    }
  }

  lemma UsedSinceIsTail(pages: seq<Page>, a: nat)
    requires a < |Recency(pages)|
    ensures |UsedSince(pages, Recency(pages)[a])| == |Recency(pages)| - 1 - a
  {
    var order := Recency(pages);
    RecencySorted(pages);
    DistinctSize(order[a + 1..]);
    forall x | x in UsedSince(pages, order[a]) ensures x in order[a + 1..] {
      var b :| 0 <= b < |order| && order[b] == x;
      assert a < b;
    }
    assert UsedSince(pages, order[a]) == Elements(order[a + 1..]);
  }

  /** LRU holds exactly the most recently used pages. */
  lemma LruHoldsMostRecent(pages: seq<Page>, capacity: nat)
    requires 1 <= capacity
    ensures Elements(Queue(Lru, pages, capacity)) == MostRecent(pages, capacity)
  {
    var order, queue := Recency(pages), Queue(Lru, pages, capacity);
    RecencySorted(pages);
    LruQueueIsTail(pages, capacity);
    forall x
      ensures x in queue <==> x in MostRecent(pages, capacity)
    {
      if x in pages {
        var a :| 0 <= a < |order| && order[a] == x;
        UsedSinceIsTail(pages, a);
        if |order| - capacity <= a {
          assert queue[a - (|order| - |queue|)] == x;
        }
      }
    }
  }

  /** The stack property, and why LRU has no capacity anomaly. */
  lemma {:induction false} LruStackProperty(pages: seq<Page>, small: nat, large: nat)
    requires 1 <= small <= large
    ensures Elements(Queue(Lru, pages, small)) <= Elements(Queue(Lru, pages, large))
    ensures QueueFaults(Lru, pages, large) <= QueueFaults(Lru, pages, small)
  {
    LruHoldsMostRecent(pages, small);
    LruHoldsMostRecent(pages, large);
    if pages != [] {
      var n := |pages| - 1;
      LruStackProperty(pages[..n], small, large);
      assert pages[n] in Queue(Lru, pages[..n], small) ==> pages[n] in Elements(Queue(Lru, pages[..n], large));
    }
  }

  /** The pages FIFO loads, in order. */
  function LoadOrder(pages: seq<Page>, capacity: nat): seq<Page>
    requires 1 <= capacity
  {
    if pages == [] then []
    else
      var n := |pages| - 1;
      LoadOrder(pages[..n], capacity) + if pages[n] in Queue(Fifo, pages[..n], capacity) then [] else [pages[n]]
  }

  /** FIFO holds exactly the most recently loaded pages. */
  lemma {:induction false} FifoHoldsLatestLoads(pages: seq<Page>, capacity: nat)
    requires 1 <= capacity
    ensures Queue(Fifo, pages, capacity) == Tail(LoadOrder(pages, capacity), capacity)
    ensures |LoadOrder(pages, capacity)| == QueueFaults(Fifo, pages, capacity)
  {
    if pages != [] {
      FifoHoldsLatestLoads(pages[..|pages| - 1], capacity);
    }
  }
}
