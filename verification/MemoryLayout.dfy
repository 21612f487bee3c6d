/** The layout a first-fit allocator keeps: chunks in address order, each a header
    followed by its payload, that tile one region. */
module MemoryLayout {
  const HEADER: nat := 32
  const MIN_BLOCK_SIZE: nat := 16

  datatype Chunk = Chunk(addr: int, size: nat, used: bool) {
    /** The address of the payload, which is what a client holds. */
    function Payload(): int { addr + HEADER }

    function End(): int { addr + HEADER + size }
  }

  /** The chunks cover [base, base + total) without gap or overlap. */
  ghost predicate Tiles(chunks: seq<Chunk>, base: int, total: int) {
    && chunks != []
    && chunks[0].addr == base
    && chunks[|chunks| - 1].End() == base + total
    && forall i :: 0 < i < |chunks| ==> chunks[i].addr == chunks[i - 1].End()
  }

  ghost predicate Coalesced(chunks: seq<Chunk>) {
    forall i :: 0 < i < |chunks| ==> chunks[i].used || chunks[i - 1].used
  }

  ghost predicate Layout(chunks: seq<Chunk>, base: int, total: int) {
    Tiles(chunks, base, total) && Coalesced(chunks)
  }

  function Initial(base: int, total: int): seq<Chunk>
    requires HEADER <= total
  {
    [Chunk(base, total - HEADER, false)]
  }

  /** What clients hold. */
  ghost function Live(chunks: seq<Chunk>): set<Chunk> {
    set c | c in chunks && c.used
  }

  function UsedSize(chunks: seq<Chunk>): nat {
    if chunks == [] then 0
    else
      var last := chunks[|chunks| - 1];
      UsedSize(chunks[..|chunks| - 1]) + if last.used then last.size + HEADER else 0
  }

  // ----- order

  lemma {:induction false} InOrder(chunks: seq<Chunk>, base: int, total: int, i: nat, j: nat)
    requires Tiles(chunks, base, total) && i < j < |chunks|
    ensures chunks[i].End() <= chunks[j].addr
  {
    if i < j - 1 {
      InOrder(chunks, base, total, i, j - 1);
    }
  }

  /** A live payload stays inside the region, is disjoint from every other block, and meets
      no header, be it of a live or a free block or its own. */
  lemma LivePayloadsDisjoint(chunks: seq<Chunk>, base: int, total: int, c: Chunk, d: Chunk)
    requires Tiles(chunks, base, total) && c in Live(chunks) && d in chunks
    ensures base + HEADER <= c.Payload() <= c.End() <= base + total
    ensures c != d ==> c.End() <= d.addr || d.End() <= c.addr
    ensures c.End() <= d.addr || d.addr + HEADER <= c.Payload()
  {
    var i :| 0 <= i < |chunks| && chunks[i] == c;
    var j :| 0 <= j < |chunks| && chunks[j] == d;
    if i < j {
      InOrder(chunks, base, total, i, j);
    } else if j < i {
      InOrder(chunks, base, total, j, i);
    }
    if 0 < i {
      InOrder(chunks, base, total, 0, i);
    }
    if i < |chunks| - 1 {
      InOrder(chunks, base, total, i, |chunks| - 1);
    }
  }

  // ----- the live chunks determine the layout

  /** Two layouts of one region agree up to chunk i if they have the same live chunks. */
  lemma {:induction false} SameUpTo(a: seq<Chunk>, b: seq<Chunk>, base: int, total: int, i: nat)
    requires Layout(a, base, total) && Layout(b, base, total) && Live(a) == Live(b)
    requires i < |a|
    ensures i < |b| && a[i] == b[i]
  {
    if i > 0 {
      SameUpTo(a, b, base, total, i - 1);
      if i == |b| {
        InOrderEnd(a, base, total, i);
        assert false;
      }
    }
    assert a[i].addr == b[i].addr;
    if a[i].used {
      LiveAt(a, b, base, total, i);
    } else if b[i].used {
      LiveAt(b, a, base, total, i);
    } else {
      FreeEndsAtNext(a, b, base, total, i);
      FreeEndsAtNext(b, a, base, total, i);
    }
  }

  lemma InOrderEnd(chunks: seq<Chunk>, base: int, total: int, i: nat)
    requires Tiles(chunks, base, total) && i < |chunks|
    ensures base <= chunks[i].addr && chunks[i].End() <= base + total
  {
    if i < |chunks| - 1 {
      InOrder(chunks, base, total, i, |chunks| - 1);
    }
    if 0 < i {
      InOrder(chunks, base, total, 0, i);
    }
  }

  /** Only one chunk starts at a given address. */
  lemma StartsOnce(chunks: seq<Chunk>, base: int, total: int, i: nat, j: nat)
    requires Tiles(chunks, base, total) && i < |chunks| && j < |chunks| && chunks[i].addr == chunks[j].addr
    ensures i == j
  {
    if i < j {
      InOrder(chunks, base, total, i, j);
    } else if j < i {
      InOrder(chunks, base, total, j, i);
    }
  }

  lemma LiveAt(a: seq<Chunk>, b: seq<Chunk>, base: int, total: int, i: nat)
    requires Layout(a, base, total) && Layout(b, base, total) && Live(a) == Live(b)
    requires i < |a| && i < |b| && a[i].addr == b[i].addr && a[i].used
    ensures a[i] == b[i]
  {
    assert a[i] in Live(b);
    var j :| 0 <= j < |b| && b[j] == a[i];
    StartsOnce(b, base, total, i, j);
  }

  /** A free chunk ends where the next live chunk, or the region, does; no chunk
      at the same address can be longer. */
  lemma FreeEndsAtNext(a: seq<Chunk>, b: seq<Chunk>, base: int, total: int, i: nat)
    requires Layout(a, base, total) && Layout(b, base, total) && Live(a) == Live(b)
    requires i < |a| && i < |b| && a[i].addr == b[i].addr && !a[i].used && !b[i].used
    ensures b[i].End() <= a[i].End()
  {
    InOrderEnd(b, base, total, i);
    if i < |a| - 1 {
      assert a[i + 1].used && a[i + 1] in Live(b);
      var j :| 0 <= j < |b| && b[j] == a[i + 1];
      if j < i {
        InOrder(b, base, total, j, i);
      } else if i < j {
        InOrder(b, base, total, i, j);
      }
    }
  }

  /** Freed space is always fully coalesced, so the layout is a function of the
      live chunks alone: how it came about leaves no trace. */
  lemma LiveChunksDetermineLayout(a: seq<Chunk>, b: seq<Chunk>, base: int, total: int)
    requires Layout(a, base, total) && Layout(b, base, total) && Live(a) == Live(b)
    ensures a == b
  {
    forall i | 0 <= i < |a| ensures i < |b| && a[i] == b[i] {
      SameUpTo(a, b, base, total, i);
    }
    forall i | 0 <= i < |b| ensures i < |a| && a[i] == b[i] {
      SameUpTo(b, a, base, total, i);
    }
  }

  /** With nothing live there is one free chunk, as at the start. */
  lemma NothingLiveIsInitial(chunks: seq<Chunk>, base: int, total: int)
    requires HEADER <= total && Layout(chunks, base, total) && Live(chunks) == {}
    ensures chunks == Initial(base, total)
  {
    assert Live(Initial(base, total)) == {};
    LiveChunksDetermineLayout(chunks, Initial(base, total), base, total);
  }
}
