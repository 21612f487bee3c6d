/** Belady's anomaly: between which two capacities FIFO can fault more with more frames. */
module FifoAnomaly {
  import opened Common
  import opened Paging
  import opened QueuePaging

  // ----- with 2 * small - 1 frames or more nothing goes wrong

  /** The i-th page of the small queue is at position a of the large one, and far from its
      head: the pages behind it there either were loaded later into the small queue too or
      are among the fewer than `capacity` pages of the margin. */
  ghost predicate Shielded(small: seq<Page>, i: nat, large: seq<Page>, a: nat, margin: set<Page>, capacity: nat)
    requires i < |small|
  {
    && a < |large| && large[a] == small[i]
    && |margin| < capacity
    && (forall j :: 0 <= j < i ==> small[j] in margin)
    && (forall b :: a < b < |large| ==> large[b] in margin || large[b] in small[i + 1..])
  }

  ghost predicate IsShielded(small: seq<Page>, i: nat, large: seq<Page>, capacity: nat)
    requires i < |small|
  {
    exists a, margin :: Shielded(small, i, large, a, margin, capacity)
  }

  /** The marked pages of the small queue are those it loaded while the large one had them;
      all its other pages are shielded. */
  ghost predicate Covered(small: seq<Page>, large: seq<Page>, marked: set<Page>, capacity: nat) {
    && Distinct(small) && Distinct(large) && |small| <= capacity
    && marked <= Elements(small)
    && forall i :: 0 <= i < |small| && small[i] !in marked ==> IsShielded(small, i, large, capacity)
  }

  /** How far from the tail of the large queue a shielded page can be. */
  lemma ShieldedDepth(small: seq<Page>, i: nat, large: seq<Page>, a: nat, margin: set<Page>, capacity: nat)
    requires i < |small| && Shielded(small, i, large, a, margin, capacity) && Distinct(small) && Distinct(large)
    ensures |large| - a <= |margin| + |small| - i
  {
    var behind, later := large[a + 1..], small[i + 1..];
    DistinctSize(behind);
    DistinctSize(later);
    SubsetSize(Elements(behind), margin + Elements(later));
  }

  /** The large queue loads a page that the shield allows behind the shielded page. */
  lemma ShieldHolds(small: seq<Page>, i: nat, large: seq<Page>, a: nat, margin: set<Page>, capacity: nat,
                    page: Page, room: nat)
    requires i < |small| && Shielded(small, i, large, a, margin, capacity)
    requires Distinct(large) && page !in large && (page in margin || page in small[i + 1..])
    requires |small| <= capacity && Distinct(small) && |large| <= room && 2 * capacity - 1 <= room
    ensures IsShielded(small, i, QueueStep(Fifo, large, page, room), capacity)
  {
    var grown := large + [page];
    assert Shielded(small, i, grown, a, margin, capacity);
    ShieldedDepth(small, i, grown, a, margin, capacity);
    if |large| < room {
      assert Shielded(small, i, QueueStep(Fifo, large, page, room), a, margin, capacity);
    } else {
      assert QueueStep(Fifo, large, page, room) == grown[1..];
      assert Shielded(small, i, grown[1..], a - 1, margin, capacity);
    }
  }

  /** A page just loaded into the large queue is shielded by what is before it in the small one. */
  lemma FreshIsShielded(small: seq<Page>, i: nat, large: seq<Page>, capacity: nat)
    requires i < |small| <= capacity && large != [] && large[|large| - 1] == small[i]
    requires Distinct(small)
    ensures IsShielded(small, i, large, capacity)
  {
    DistinctSize(small[..i]);
    assert Shielded(small, i, large, |large| - 1, Elements(small[..i]), capacity);
  }

  /** The marks after a request. */
  ghost function Remark(small: seq<Page>, large: seq<Page>, marked: set<Page>, page: Page, capacity: nat): set<Page>
    requires 1 <= capacity
  {
    if page in small then marked - if page in large then {} else {page}
    else
      (if |small| < capacity then marked else marked - {small[0]}) + if page in large then {page} else {}
  }

  lemma HitStaysCovered(small: seq<Page>, large: seq<Page>, marked: set<Page>, page: Page, capacity: nat, room: nat)
    requires Covered(small, large, marked, capacity) && 1 <= 2 * capacity - 1 <= room && |large| <= room
    requires page in small && page !in large
    ensures page in marked
    ensures Covered(small, QueueStep(Fifo, large, page, room), marked - {page}, capacity)
  {
    var large', marked' := QueueStep(Fifo, large, page, room), marked - {page};
    var k :| 0 <= k < |small| && small[k] == page;
    forall i | 0 <= i < |small| && small[i] !in marked'
      ensures IsShielded(small, i, large', capacity)
    {
      if i == k {
        FreshIsShielded(small, i, large', capacity);
      } else {
        var a, margin :| Shielded(small, i, large, a, margin, capacity);
        assert k > i ==> small[i + 1..][k - i - 1] == page;
        ShieldHolds(small, i, large, a, margin, capacity, page, room);
      }
    }
  }

  /** The small queue moves on and its pages stay shielded. */
  lemma ShieldShifts(small: seq<Page>, i: nat, large: seq<Page>, a: nat, margin: set<Page>, capacity: nat, page: Page)
    requires i < |small| && Shielded(small, i, large, a, margin, capacity)
    ensures Shielded(small + [page], i, large, a, margin, capacity)
    ensures 0 < i ==> Shielded(small[1..] + [page], i - 1, large, a, margin, capacity)
  {
    assert (small + [page])[i + 1..] == small[i + 1..] + [page];
    if 0 < i {
      assert (small[1..] + [page])[i..] == small[i + 1..] + [page];
    }
  }

  /** Both queues load the page, and this page of the small queue survives it. */
  lemma ShieldMovesOn(small: seq<Page>, i: nat, large: seq<Page>, capacity: nat, page: Page, room: nat)
    requires i < |small| <= capacity && 2 * capacity - 1 <= room && |large| <= room
    requires IsShielded(small, i, large, capacity)
    requires Distinct(small) && Distinct(large) && page !in small && page !in large
    requires |small| == capacity ==> 0 < i
    ensures IsShielded(QueueStep(Fifo, small, page, capacity), if |small| < capacity then i else i - 1,
                       QueueStep(Fifo, large, page, room), capacity)
  {
    var small', i' := QueueStep(Fifo, small, page, capacity), if |small| < capacity then i else i - 1;
    var a, margin :| Shielded(small, i, large, a, margin, capacity);
    ShieldShifts(small, i, large, a, margin, capacity, page);
    assert small'[i' + 1..][|small'| - i' - 2] == page;
    ShieldHolds(small', i', large, a, margin, capacity, page, room);
  }

  lemma MissStaysCovered(small: seq<Page>, large: seq<Page>, marked: set<Page>, page: Page, capacity: nat, room: nat)
    requires Covered(small, large, marked, capacity) && 1 <= 2 * capacity - 1 <= room && |large| <= room
    requires page !in small && page !in large
    ensures Covered(QueueStep(Fifo, small, page, capacity), QueueStep(Fifo, large, page, room),
                    Remark(small, large, marked, page, capacity), capacity)
  {
    var small', large' := QueueStep(Fifo, small, page, capacity), QueueStep(Fifo, large, page, room);
    var marked', shift := Remark(small, large, marked, page, capacity), if |small| < capacity then 0 else 1;
    StepShape(Fifo, small, page, capacity);
    StepShape(Fifo, large, page, room);
    forall i | 0 <= i < |small'| && small'[i] !in marked'
      ensures IsShielded(small', i, large', capacity)
    {
      if i == |small'| - 1 {
        FreshIsShielded(small', i, large', capacity);
      } else {
        assert small'[i] == small[i + shift];
        ShieldMovesOn(small, i + shift, large, capacity, page, room);
      }
    }
    MarksStayInQueue(small, large, marked, page, capacity);
  }

  lemma MarksStayInQueue(small: seq<Page>, large: seq<Page>, marked: set<Page>, page: Page, capacity: nat)
    requires 1 <= capacity && |small| <= capacity && marked <= Elements(small) && page !in small
    ensures Remark(small, large, marked, page, capacity) <= Elements(QueueStep(Fifo, small, page, capacity))
  {
    var small' := QueueStep(Fifo, small, page, capacity);
    forall x | x in Remark(small, large, marked, page, capacity) ensures x in small' {
      if x == page {
        assert small'[|small'| - 1] == page;
      } else {
        assert x in small;
        var k :| 0 <= k < |small| && small[k] == x;
        assert |small| < capacity ==> small'[k] == x;
        assert |small| == capacity ==> small'[k - 1] == x;
      }
    }
  }

  lemma LoadStaysCovered(small: seq<Page>, large: seq<Page>, marked: set<Page>, page: Page, capacity: nat)
    requires Covered(small, large, marked, capacity) && 1 <= capacity
    requires page !in small && page in large
    ensures Covered(QueueStep(Fifo, small, page, capacity), large, Remark(small, large, marked, page, capacity), capacity)
  {
    var small', marked' := QueueStep(Fifo, small, page, capacity), Remark(small, large, marked, page, capacity);
    var shift := if |small| < capacity then 0 else 1;
    StepShape(Fifo, small, page, capacity);
    forall i | 0 <= i < |small'| && small'[i] !in marked'
      ensures IsShielded(small', i, large, capacity)
    {
      assert i < |small'| - 1 && small'[i] == small[i + shift];
      var a, margin :| Shielded(small, i + shift, large, a, margin, capacity);
      ShieldShifts(small, i + shift, large, a, margin, capacity, page);
    }
    MarksStayInQueue(small, large, marked, page, capacity);
  }

  /** One request: the large queue faults alone only on a marked page, which loses its mark. */
  lemma RequestStaysCovered(small: seq<Page>, large: seq<Page>, marked: set<Page>, page: Page, capacity: nat, room: nat)
    requires Covered(small, large, marked, capacity) && 1 <= 2 * capacity - 1 <= room && |large| <= room
    ensures Covered(QueueStep(Fifo, small, page, capacity), QueueStep(Fifo, large, page, room),
                    Remark(small, large, marked, page, capacity), capacity)
    ensures |Remark(small, large, marked, page, capacity)| + (if page in large then 0 else 1)
         <= |marked| + if page in small then 0 else 1
  {
    var marked' := Remark(small, large, marked, page, capacity);
    if page in small {
      if page !in large {
        HitStaysCovered(small, large, marked, page, capacity, room);
      }
    } else {
      var kept := if |small| < capacity then marked else marked - {small[0]};
      SubsetSize(kept, marked);
      if page in large {
        LoadStaysCovered(small, large, marked, page, capacity);
        assert |kept + {page}| <= |kept| + 1;
      } else {
        MissStaysCovered(small, large, marked, page, capacity, room);
      }
    }
  }

  lemma {:induction false} CoveredAlongRun(pages: seq<Page>, small: nat, large: nat) returns (marked: set<Page>)
    requires 1 <= small && 2 * small - 1 <= large
    ensures Covered(Queue(Fifo, pages, small), Queue(Fifo, pages, large), marked, small)
    ensures QueueFaults(Fifo, pages, large) + |marked| <= QueueFaults(Fifo, pages, small)
  {
    if pages == [] {
      marked := {};
    } else {
      var n := |pages| - 1;
      var before := CoveredAlongRun(pages[..n], small, large);
      var smallQueue, largeQueue := Queue(Fifo, pages[..n], small), Queue(Fifo, pages[..n], large);
      QueueIsShaped(Fifo, pages[..n], large);
      RequestStaysCovered(smallQueue, largeQueue, before, pages[n], small, large);
      marked := Remark(smallQueue, largeQueue, before, pages[n], small);
    }
  }

  /** With 2 * small - 1 frames or more FIFO never faults more than with small frames. */
  lemma FifoMonotone(pages: seq<Page>, small: nat, large: nat)
    requires 1 <= small && (small == large || 2 * small - 1 <= large)
    ensures QueueFaults(Fifo, pages, large) <= QueueFaults(Fifo, pages, small)
  {
    if small != large {
      var marked := CoveredAlongRun(pages, small, large);
    }
  }

  // ----- with fewer it can

  datatype Side = Side(queue: seq<Page>, faults: nat)

  type Player = seq<Page> -> Side

  /** FIFO with `capacity` frames, as a function from strings to queue and faults. */
  ghost predicate Plays(play: Player, capacity: nat)
    requires 1 <= capacity
  {
    && play([]) == Side([], 0)
    && forall pages, page :: Follows(play, pages, page, capacity)
  }

  ghost predicate Follows(play: Player, pages: seq<Page>, page: Page, capacity: nat)
    requires 1 <= capacity
  {
    play(pages + [page]) == Serve(play(pages), page, capacity)
  }

  function Serve(side: Side, page: Page, capacity: nat): Side
    requires 1 <= capacity
  {
    Side(QueueStep(Fifo, side.queue, page, capacity), side.faults + if page in side.queue then 0 else 1)
  }

  function Fifos(capacity: nat): Player
    requires 1 <= capacity
  {
    pages => Side(Queue(Fifo, pages, capacity), QueueFaults(Fifo, pages, capacity))
  }

  lemma FifoPlays(capacity: nat)
    requires 1 <= capacity
    ensures Plays(Fifos(capacity), capacity)
  {
    forall pages: seq<Page>, page
      ensures Follows(Fifos(capacity), pages, page, capacity)
    {
      assert (pages + [page])[..|pages|] == pages;
    }
  }

  /** The pages from a up to but not including b. */
  function Span(a: nat, b: nat): (s: seq<Page>)
    requires a <= b
    ensures |s| == b - a && forall i :: 0 <= i < |s| ==> s[i] == a + i
  {
    seq(b - a, i => a + i)
  }

  lemma InSpan(a: nat, b: nat, x: Page)
    requires a <= b
    ensures x in Span(a, b) <==> a <= x < b
  {
    if a <= x < b {
      assert Span(a, b)[x - a] == x;
    }
  }

  lemma SpanGrows(s: seq<Page>, a: nat, b: nat)
    requires a <= b
    ensures s + Span(a, b + 1) == s + Span(a, b) + [b]
    ensures Span(a, b + 1) == Span(a, b) + [b]
    ensures s + Span(a, a) == s
  {
  }

  /** A span of old pages, then the pages 0 to `middle`, then a span of new pages. */
  function Shape(a: nat, b: nat, middle: nat, c: nat, d: nat): seq<Page>
    requires a <= b && c <= d
  {
    Span(a, b) + Span(0, middle) + Span(c, d)
  }

  lemma SameShape(a: nat, b: nat, middle: nat, c: nat, d: nat, e: nat)
    requires a <= b <= e && c <= d
    ensures Shape(a, b, 0, b, e) == Shape(a, e, 0, 0, 0) == Shape(a, e, 0, e, e) == Span(a, e)
    ensures Shape(a, b, 0, 0, middle) == Shape(a, b, middle, c, c)
    ensures Shape(a, a, middle, c, d) == Shape(0, middle, 0, c, d)
    ensures Span(a, e) == Span(a, b) + Span(b, e)
  {
  }

  lemma InShape(a: nat, b: nat, middle: nat, c: nat, d: nat, x: Page)
    requires a <= b && c <= d
    ensures x in Shape(a, b, middle, c, d) <==> a <= x < b || 0 <= x < middle || c <= x < d
  {
    InSpan(a, b, x);
    InSpan(0, middle, x);
    InSpan(c, d, x);
  }

  lemma ShapeMoves(a: nat, b: nat, middle: nat, c: nat, d: nat)
    requires a < b && c <= d
    ensures Shape(a, b, middle, c, d)[1..] + [d] == Shape(a + 1, b, middle, c, d + 1)
  {
    assert Span(a, b)[1..] == Span(a + 1, b);
    assert Span(c, d) + [d] == Span(c, d + 1);
  }

  ghost predicate Spread(play: Player, pages: seq<Page>, faults: nat, a: nat, b: nat, middle: nat, c: nat, d: nat)
    requires a <= b && c <= d
  {
    play(pages) == Side(Shape(a, b, middle, c, d), faults)
  }

  /** A page that is not resident pushes out the first old page and joins the new ones. */
  lemma Slide(play: Player, pages: seq<Page>, capacity: nat, faults: nat,
              a: nat, b: nat, middle: nat, c: nat, d: nat)
    requires a < b && c <= d && 1 <= capacity == b - a + middle + d - c
    requires middle <= d && (d < a || b <= d)
    requires Plays(play, capacity) && Spread(play, pages, faults, a, b, middle, c, d)
    ensures Spread(play, pages + [d], faults + 1, a + 1, b, middle, c, d + 1)
  {
    assert Follows(play, pages, d, capacity);
    InShape(a, b, middle, c, d, d);
    ShapeMoves(a, b, middle, c, d);
  }

  lemma {:induction false} SlideAll(play: Player, pages: seq<Page>, capacity: nat, faults: nat,
                                    a: nat, b: nat, middle: nat, c: nat, d: nat, n: nat)
    requires a + n <= b && c <= d && 1 <= capacity == b - a + middle + d - c
    requires middle <= d && (d < a || b <= d)
    requires Plays(play, capacity) && Spread(play, pages, faults, a, b, middle, c, d)
    ensures Spread(play, pages + Span(d, d + n), faults + n, a + n, b, middle, c, d + n)
  {
    if n == 0 {
      SpanGrows(pages, d, d);
    } else {
      var n' := n - 1;
      SlideAll(play, pages, capacity, faults, a, b, middle, c, d, n');
      Slide(play, pages + Span(d, d + n'), capacity, faults + n', a + n', b, middle, c, d + n');
      SpanGrows(pages, d, d + n');
    }
  }

  lemma {:induction false} HitAll(play: Player, pages: seq<Page>, capacity: nat, n: nat)
    requires 1 <= capacity && Plays(play, capacity) && forall x :: 0 <= x < n ==> x in play(pages).queue
    ensures play(pages + Span(0, n)) == play(pages)
  {
    if n == 0 {
      SpanGrows(pages, 0, 0);
    } else {
      HitAll(play, pages, capacity, n - 1);
      assert Follows(play, pages + Span(0, n - 1), n - 1, capacity);
      SpanGrows(pages, 0, n - 1);
    }
  }

  lemma {:induction false} FillAll(play: Player, capacity: nat, n: nat)
    requires 1 <= capacity && Plays(play, capacity) && n <= capacity
    ensures play(Span(0, n)) == Side(Span(0, n), n)
  {
    if n > 0 {
      FillAll(play, capacity, n - 1);
      assert Follows(play, Span(0, n - 1), n - 1, capacity);
      InSpan(0, n - 1, n - 1);
      SpanGrows([], 0, n - 1);
    }
  }

  // The string that goes wrong, part by part.

  /** Fill the large side, and let the small side reload what it dropped. */
  function Opening(small: nat, large: nat): seq<Page>
    requires 1 <= small
  {
    Span(0, large) + Span(0, small - 1)
  }

  /** A new page drops page 0 from both; now the large side reloads what the small side keeps. */
  function Swap(small: nat, large: nat): seq<Page>
    requires 1 <= small
  {
    Opening(small, large) + Span(large, large + 1) + Span(0, small - 1)
  }

  /** New pages push the page `large` out of the large side only; then it is requested again. */
  function AnomalyString(small: nat, large: nat): seq<Page>
    requires 1 <= small <= large
  {
    Swap(small, large) + Span(large + 1, 2 * large - small + 2) + [large]
  }

  lemma SmallOpening(play: Player, small: nat, large: nat)
    requires 1 <= small < large < 2 * small - 1 && Plays(play, small)
    ensures Spread(play, Opening(small, large), large + small - 1, large - 1, large, 0, 0, small - 1)
  {
    FillAll(play, small, small);
    SameShape(0, small, 0, 0, 0, small);
    SlideAll(play, Span(0, small), small, small, 0, small, 0, small, small, large - small);
    SameShape(0, small, 0, 0, 0, large);
    SameShape(large - small, small, 0, 0, 0, large);
    SlideAll(play, Span(0, large), small, large, large - small, large, 0, 0, 0, small - 1);
  }

  lemma SmallSwap(play: Player, small: nat, large: nat)
    requires 1 <= small < large < 2 * small - 1 && Plays(play, small)
    ensures Spread(play, Swap(small, large), large + small, 0, small - 1, 0, large, large + 1)
  {
    var s2 := Opening(small, large);
    SmallOpening(play, small, large);
    SameShape(large - 1, large, small - 1, large, large, large);
    SlideAll(play, s2, small, large + small - 1, large - 1, large, small - 1, large, large, 1);
    SameShape(large, large, small - 1, large, large + 1, large);
    var s3 := s2 + Span(large, large + 1);
    forall x | 0 <= x < small - 1 ensures x in play(s3).queue {
      InShape(0, small - 1, 0, large, large + 1, x);
    }
    HitAll(play, s3, small, small - 1);
  }

  lemma SmallSide(play: Player, small: nat, large: nat)
    requires 1 <= small < large < 2 * small - 1 && Plays(play, small)
    ensures play(AnomalyString(small, large)).faults == 2 * large + 1
  {
    var s4, n := Swap(small, large), large - small + 1;
    var s5 := s4 + Span(large + 1, large + 1 + n);
    SmallSwap(play, small, large);
    SlideAll(play, s4, small, large + small, 0, small - 1, 0, large, large + 1, n);
    InShape(n, small - 1, 0, large, large + 1 + n, large);
    assert Follows(play, s5, large, small);
  }

  lemma LargeOpening(play: Player, small: nat, large: nat)
    requires 1 <= small < large < 2 * small - 1 && Plays(play, large)
    ensures play(Opening(small, large)) == Side(Span(0, large), large)
  {
    FillAll(play, large, large);
    forall x | 0 <= x < small - 1 ensures x in play(Span(0, large)).queue {
      InSpan(0, large, x);
    }
    HitAll(play, Span(0, large), large, small - 1);
  }

  lemma LargeSwap(play: Player, small: nat, large: nat)
    requires 1 <= small < large < 2 * small - 1 && Plays(play, large)
    ensures Spread(play, Swap(small, large), large + small, small, large + 1, 0, 0, small - 1)
  {
    var s2 := Opening(small, large);
    LargeOpening(play, small, large);
    SameShape(0, large, 0, 0, 0, large);
    SlideAll(play, s2, large, large, 0, large, 0, large, large, 1);
    SameShape(1, large, 0, 0, 0, large + 1);
    SlideAll(play, s2 + Span(large, large + 1), large, large + 1, 1, large + 1, 0, 0, 0, small - 1);
  }

  lemma LargeSide(play: Player, small: nat, large: nat)
    requires 1 <= small < large < 2 * small - 1 && Plays(play, large)
    ensures play(AnomalyString(small, large)).faults == 2 * large + 2
  {
    var s4, n := Swap(small, large), large - small + 1;
    var s5 := s4 + Span(large + 1, large + 1 + n);
    LargeSwap(play, small, large);
    SameShape(small, large + 1, small - 1, large + 1, large + 1, large + 1);
    SlideAll(play, s4, large, large + small, small, large + 1, small - 1, large + 1, large + 1, n);
    InShape(large + 1, large + 1, small - 1, large + 1, large + 1 + n, large);
    assert Follows(play, s5, large, large);
  }

  lemma AnomalyBetween(small: nat, large: nat)
    requires 1 <= small < large < 2 * small - 1
    ensures QueueFaults(Fifo, AnomalyString(small, large), small) == 2 * large + 1
    ensures QueueFaults(Fifo, AnomalyString(small, large), large) == 2 * large + 2
  {
    FifoPlays(small);
    FifoPlays(large);
    SmallSide(Fifos(small), small, large);
    LargeSide(Fifos(large), small, large);
  }

  /** What LRU never does, FIFO does exactly between small and 2 * small - 1 frames:
      more frames, more faults. */
  lemma FifoAnomalyIff(small: nat, large: nat)
    requires 1 <= small <= large
    ensures (exists pages :: QueueFaults(Fifo, pages, small) < QueueFaults(Fifo, pages, large))
       <==> small < large < 2 * small - 1
  {
    if small < large < 2 * small - 1 {
      AnomalyBetween(small, large);
    } else {
      forall pages ensures QueueFaults(Fifo, pages, large) <= QueueFaults(Fifo, pages, small) {
        FifoMonotone(pages, small, large);
      }
    }
  }
}
