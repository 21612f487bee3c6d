/** memoryAlloc and memoryFree as transformations of the layout, and whole runs of them. */
module FirstFit {
  import opened MemoryLayout

  ghost predicate Fits(chunk: Chunk, size: nat) {
    !chunk.used && size <= chunk.size
  }

  /** Chunk i is the free chunk of lowest address that is large enough. */
  ghost predicate IsFirstFit(chunks: seq<Chunk>, size: nat, i: nat) {
    i < |chunks| && Fits(chunks[i], size) && forall j :: 0 <= j < i ==> !Fits(chunks[j], size)
  }

  /** The tail of a large chunk is split off, a small one is handed out whole. */
  function Granted(chunk: Chunk, size: nat): Chunk {
    Chunk(chunk.addr, if chunk.size >= size + HEADER + MIN_BLOCK_SIZE then size else chunk.size, true)
  }

  function AllocAt(chunks: seq<Chunk>, i: nat, size: nat): seq<Chunk>
    requires i < |chunks| && size <= chunks[i].size
  {
    var c := chunks[i];
    if c.size >= size + HEADER + MIN_BLOCK_SIZE then
      chunks[..i] + [Granted(c, size), Chunk(c.addr + HEADER + size, c.size - size - HEADER, false)] + chunks[i + 1..]
    else
      chunks[i := Granted(c, size)]
  }

  /** Chunk i takes over the header and payload of chunk i + 1. */
  function Absorb(chunks: seq<Chunk>, i: nat): seq<Chunk>
    requires i + 1 < |chunks|
  {
    chunks[..i] + [Chunk(chunks[i].addr, chunks[i].size + chunks[i + 1].size + HEADER, chunks[i].used)] + chunks[i + 2..]
  }

  function Marked(chunks: seq<Chunk>, i: nat, used: bool): (marked: seq<Chunk>)
    requires i < |chunks|
  {
    chunks[i := chunks[i].(used := used)]
  }

  function MergedWithNext(chunks: seq<Chunk>, i: nat): seq<Chunk>
    requires i < |chunks|
  {
    if i + 1 < |chunks| && !chunks[i + 1].used then Absorb(chunks, i) else chunks
  }

  function MergedWithPrevious(chunks: seq<Chunk>, i: nat): seq<Chunk>
    requires i < |chunks|
  {
    if 0 < i && !chunks[i - 1].used then Absorb(chunks, i - 1) else chunks
  }

  function FreeAt(chunks: seq<Chunk>, i: nat): seq<Chunk>
    requires i < |chunks|
  {
    MergedWithPrevious(MergedWithNext(Marked(chunks, i, false), i), i)
  }

  // ----- each operation keeps the layout and moves exactly one live chunk

  lemma AllocKeepsTiles(chunks: seq<Chunk>, base: int, total: int, i: nat, size: nat)
    requires Tiles(chunks, base, total) && i < |chunks| && Fits(chunks[i], size)
    ensures Tiles(AllocAt(chunks, i, size), base, total)
  {
    var chunks' := AllocAt(chunks, i, size);
    if |chunks'| != |chunks| {
      assert forall j :: i + 2 <= j < |chunks'| ==> chunks'[j] == chunks[j - 1];
      assert forall j :: 0 <= j < i ==> chunks'[j] == chunks[j];
      forall j | 0 < j < |chunks'| ensures chunks'[j].addr == chunks'[j - 1].End() {
        if j > i + 1 {
          assert chunks[j - 1].addr == chunks[j - 2].End();
        }
      }
    }
  }

  lemma AllocKeepsCoalesced(chunks: seq<Chunk>, i: nat, size: nat)
    requires Coalesced(chunks) && i < |chunks| && Fits(chunks[i], size)
    ensures Coalesced(AllocAt(chunks, i, size))
  {
    var chunks' := AllocAt(chunks, i, size);
    if |chunks'| != |chunks| {
      assert forall j :: i + 2 <= j < |chunks'| ==> chunks'[j] == chunks[j - 1];
      forall j | 0 < j < |chunks'| ensures chunks'[j].used || chunks'[j - 1].used {
        if j > i + 1 {
          assert chunks[j - 1].used || chunks[j - 2].used;
        }
      }
    }
  }

  lemma AllocAddsOneLive(chunks: seq<Chunk>, base: int, total: int, i: nat, size: nat)
    requires Tiles(chunks, base, total) && i < |chunks| && Fits(chunks[i], size)
    ensures Live(AllocAt(chunks, i, size)) == Live(chunks) + {Granted(chunks[i], size)}
    ensures forall c :: c in Live(chunks) ==> c.addr != chunks[i].addr
  {
    var chunks' := AllocAt(chunks, i, size);
    var granted := Granted(chunks[i], size);
    assert chunks'[i] == granted;
    forall c | c in Live(chunks) ensures c in chunks' && c.addr != chunks[i].addr {
      var j :| 0 <= j < |chunks| && chunks[j] == c;
      if c.addr == chunks[i].addr {
        StartsOnce(chunks, base, total, i, j);
      }
      assert chunks'[if |chunks'| == |chunks| || j < i then j else j + 1] == c;
    }
    forall c | c in Live(chunks') ensures c in Live(chunks) + {granted} {
      var j :| 0 <= j < |chunks'| && chunks'[j] == c;
      if j != i {
        assert c == chunks[if |chunks'| == |chunks| || j < i then j else j - 1];
      }
    }
  }

  lemma AbsorbKeepsTiles(chunks: seq<Chunk>, base: int, total: int, i: nat)
    requires Tiles(chunks, base, total) && i + 1 < |chunks|
    ensures Tiles(Absorb(chunks, i), base, total)
  {
    var chunks' := Absorb(chunks, i);
    forall j | 0 < j < |chunks'| ensures chunks'[j].addr == chunks'[j - 1].End() {
      if j > i {
        assert chunks'[j] == chunks[j + 1] && chunks[j + 1].addr == chunks[j].End();
      }
    }
  }

  lemma AbsorbKeepsLive(chunks: seq<Chunk>, i: nat)
    requires i + 1 < |chunks| && !chunks[i].used && !chunks[i + 1].used
    ensures Live(Absorb(chunks, i)) == Live(chunks)
  {
    var chunks' := Absorb(chunks, i);
    forall c | c in Live(chunks) ensures c in chunks' {
      var j :| 0 <= j < |chunks| && chunks[j] == c;
      assert chunks'[if j < i then j else j - 1] == c;
    }
    forall c | c in Live(chunks') ensures c in chunks {
      var j :| 0 <= j < |chunks'| && chunks'[j] == c;
      assert c == chunks[if j < i then j else j + 1];
    }
  }

  lemma FreeKeepsTiles(chunks: seq<Chunk>, base: int, total: int, i: nat)
    requires Tiles(chunks, base, total) && i < |chunks|
    ensures Tiles(Marked(chunks, i, false), base, total)
    ensures Tiles(MergedWithNext(Marked(chunks, i, false), i), base, total)
    ensures Tiles(FreeAt(chunks, i), base, total)
  {
    var marked := Marked(chunks, i, false);
    assert Tiles(marked, base, total);
    var merged := MergedWithNext(marked, i);
    if i + 1 < |marked| && !marked[i + 1].used {
      AbsorbKeepsTiles(marked, base, total, i);
    }
    if 0 < i && !merged[i - 1].used {
      AbsorbKeepsTiles(merged, base, total, i - 1);
    }
  }

  /** No two neighbours are free, except perhaps the pair ending at `bad`. */
  ghost predicate CoalescedBut(chunks: seq<Chunk>, bad: nat) {
    forall j :: 0 < j < |chunks| && j != bad ==> chunks[j].used || chunks[j - 1].used
  }

  lemma AbsorbCoalesces(chunks: seq<Chunk>, i: nat, bad: nat)
    requires i + 1 < |chunks| && bad <= i && !chunks[i].used && !chunks[i + 1].used
    requires forall j :: 0 < j < |chunks| && j != bad && j != i + 1 ==> chunks[j].used || chunks[j - 1].used
    ensures CoalescedBut(Absorb(chunks, i), bad)
  {
    var chunks' := Absorb(chunks, i);
    assert forall j :: i < j < |chunks'| ==> chunks'[j] == chunks[j + 1];
    forall j | 0 < j < |chunks'| && j != bad ensures chunks'[j].used || chunks'[j - 1].used {
      if j > i {
        assert chunks[j + 1].used || chunks[j].used;
      }
    }
  }

  lemma FreeKeepsCoalesced(chunks: seq<Chunk>, i: nat)
    requires Coalesced(chunks) && i < |chunks| && chunks[i].used
    ensures Coalesced(FreeAt(chunks, i))
  {
    var marked := Marked(chunks, i, false);
    var merged := MergedWithNext(marked, i);
    if i + 1 < |marked| && !marked[i + 1].used {
      AbsorbCoalesces(marked, i, i);
    }
    assert CoalescedBut(merged, i);
    if 0 < i && !merged[i - 1].used {
      AbsorbCoalesces(merged, i - 1, 0);
    }
  }

  lemma FreeRemovesOneLive(chunks: seq<Chunk>, base: int, total: int, i: nat)
    requires Tiles(chunks, base, total) && i < |chunks| && chunks[i].used
    ensures Live(FreeAt(chunks, i)) == Live(chunks) - {chunks[i]}
  {
    var marked := Marked(chunks, i, false);
    forall c | c in Live(chunks) - {chunks[i]} ensures c in marked {
      var j :| 0 <= j < |chunks| && chunks[j] == c;
      assert marked[j] == c;
    }
    forall c | c in Live(marked) ensures c in chunks && c != chunks[i] {
      var j :| 0 <= j < |marked| && marked[j] == c;
      assert chunks[j] == c;
      if c == chunks[i] {
        StartsOnce(chunks, base, total, i, j);
      }
    }
    assert Live(marked) == Live(chunks) - {chunks[i]};
    var merged := MergedWithNext(marked, i);
    if i + 1 < |marked| && !marked[i + 1].used {
      AbsorbKeepsLive(marked, i);
    }
    if 0 < i && !merged[i - 1].used {
      AbsorbKeepsLive(merged, i - 1);
    }
  }

  // ----- the accumulated used size

  lemma {:induction false} UsedSizeSplit(a: seq<Chunk>, b: seq<Chunk>)
    ensures UsedSize(a + b) == UsedSize(a) + UsedSize(b)
  {
    if b == [] {
      assert a + b == a;
    } else {
      var m := |b| - 1;
      assert (a + b)[..|a + b| - 1] == a + b[..m];
      UsedSizeSplit(a, b[..m]);
    }
  }

  lemma UsedSizeAround(a: seq<Chunk>, c: Chunk, b: seq<Chunk>)
    ensures UsedSize(a + [c] + b) == UsedSize(a) + UsedSize(b) + if c.used then c.size + HEADER else 0
  {
    UsedSizeSplit(a + [c], b);
    assert (a + [c])[..|a|] == a;
  }

  lemma Regroup(a: seq<Chunk>, c: Chunk, d: Chunk, b: seq<Chunk>)
    ensures a + [c, d] + b == a + [c] + ([d] + b)
    ensures [] + [d] + b == [d] + b
  {
  }

  lemma UsedSizeAround2(a: seq<Chunk>, c: Chunk, d: Chunk, b: seq<Chunk>)
    ensures UsedSize(a + [c, d] + b) == UsedSize(a) + UsedSize(b)
              + (if c.used then c.size + HEADER else 0) + if d.used then d.size + HEADER else 0
  {
    Regroup(a, c, d, b);
    UsedSizeAround(a, c, [d] + b);
    UsedSizeAround([], d, b);
  }

  lemma UsedSizeUpdate(chunks: seq<Chunk>, i: nat, c: Chunk)
    requires i < |chunks|
    ensures UsedSize(chunks[i := c]) == UsedSize(chunks[..i]) + UsedSize(chunks[i + 1..])
              + if c.used then c.size + HEADER else 0
  {
    UsedSizeAround(chunks[..i], c, chunks[i + 1..]);
    assert chunks[i := c] == chunks[..i] + [c] + chunks[i + 1..];
  }

  lemma AllocUsedSize(chunks: seq<Chunk>, i: nat, size: nat)
    requires i < |chunks| && Fits(chunks[i], size)
    ensures UsedSize(AllocAt(chunks, i, size)) == UsedSize(chunks) + Granted(chunks[i], size).size + HEADER
  {
    var c, granted, chunks' := chunks[i], Granted(chunks[i], size), AllocAt(chunks, i, size);
    var split := c.size >= size + HEADER + MIN_BLOCK_SIZE;
    var rest := Chunk(c.addr + HEADER + size, if split then c.size - size - HEADER else 0, false);
    var before, after := chunks[..i], chunks[i + 1..];
    assert chunks' == if split then before + [granted, rest] + after else chunks[i := granted];
    assert chunks[i := c] == chunks;
    UsedSizeUpdate(chunks, i, c);
    if split {
      UsedSizeAround2(before, granted, rest, after);
    } else {
      UsedSizeUpdate(chunks, i, granted);
    }
  }

  lemma AbsorbUsedSize(chunks: seq<Chunk>, i: nat)
    requires i + 1 < |chunks| && !chunks[i].used && !chunks[i + 1].used
    ensures UsedSize(Absorb(chunks, i)) == UsedSize(chunks)
  {
    UsedSizeAround2(chunks[..i], chunks[i], chunks[i + 1], chunks[i + 2..]);
    assert chunks[..i] + [chunks[i], chunks[i + 1]] + chunks[i + 2..] == chunks;
    UsedSizeAround(chunks[..i], Chunk(chunks[i].addr, chunks[i].size + chunks[i + 1].size + HEADER, false), chunks[i + 2..]);
  }

  lemma FreeUsedSize(chunks: seq<Chunk>, i: nat)
    requires i < |chunks| && chunks[i].used
    ensures UsedSize(FreeAt(chunks, i)) == UsedSize(chunks) - chunks[i].size - HEADER
  {
    var marked := Marked(chunks, i, false);
    UsedSizeUpdate(chunks, i, chunks[i]);
    assert chunks[i := chunks[i]] == chunks;
    UsedSizeUpdate(chunks, i, marked[i]);
    var merged := MergedWithNext(marked, i);
    if i + 1 < |marked| && !marked[i + 1].used {
      AbsorbUsedSize(marked, i);
    }
    if 0 < i && !merged[i - 1].used {
      AbsorbUsedSize(merged, i - 1);
    }
  }

  // ----- whole runs

  datatype Op = Alloc(size: nat) | Free(chunk: Chunk)

  /** One operation as a client sees it: an allocation fails exactly when nothing fits,
      a free names a live chunk. */
  ghost predicate Step(before: seq<Chunk>, op: Op, after: seq<Chunk>) {
    match op
    case Alloc(size) =>
      if exists i :: 0 <= i < |before| && Fits(before[i], size)
      then exists i :: IsFirstFit(before, size, i) && after == AllocAt(before, i, size)
      else after == before
    case Free(chunk) =>
      exists i :: 0 <= i < |before| && before[i] == chunk && chunk.used && after == FreeAt(before, i)
  }

  ghost predicate IsRun(states: seq<seq<Chunk>>, ops: seq<Op>, base: int, total: int)
    requires HEADER <= total
  {
    && |states| == |ops| + 1
    && states[0] == Initial(base, total)
    && forall t :: 0 <= t < |ops| ==> Step(states[t], ops[t], states[t + 1])
  }

  lemma StepKeepsLayout(before: seq<Chunk>, op: Op, after: seq<Chunk>, base: int, total: int)
    requires Layout(before, base, total) && Step(before, op, after)
    ensures Layout(after, base, total)
    ensures op.Free? ==> Live(after) == Live(before) - {op.chunk}
    ensures op.Alloc? ==>
              if forall c :: c in before ==> c.used || c.size < op.size then after == before
              else exists c ::
                && Live(after) == Live(before) + {c} && op.size <= c.size < op.size + HEADER + MIN_BLOCK_SIZE
                && forall d :: d in Live(before) ==> d.addr != c.addr
  {
    match op
    case Alloc(size) =>
      if exists i :: 0 <= i < |before| && Fits(before[i], size) {
        var i :| IsFirstFit(before, size, i) && after == AllocAt(before, i, size);
        AllocKeepsTiles(before, base, total, i, size);
        AllocKeepsCoalesced(before, i, size);
        AllocAddsOneLive(before, base, total, i, size);
      }
    case Free(chunk) =>
      var i :| 0 <= i < |before| && before[i] == chunk && after == FreeAt(before, i);
      FreeKeepsTiles(before, base, total, i);
      FreeKeepsCoalesced(before, i);
      FreeRemovesOneLive(before, base, total, i);
  }

  /** After any run the chunks tile the region and no two neighbours are free. */
  lemma {:induction false} RunKeepsLayout(states: seq<seq<Chunk>>, ops: seq<Op>, base: int, total: int, t: nat)
    requires HEADER <= total && IsRun(states, ops, base, total) && t <= |ops|
    ensures Layout(states[t], base, total)
  {
    if t > 0 {
      RunKeepsLayout(states, ops, base, total, t - 1);
      StepKeepsLayout(states[t - 1], ops[t - 1], states[t], base, total);
    }
  }

  /** Runs that leave the same chunks live leave the same layout, whatever the order
      of their operations; in particular everything freed means the initial state. */
  lemma RunsConverge(states: seq<seq<Chunk>>, ops: seq<Op>, states': seq<seq<Chunk>>, ops': seq<Op>,
                     base: int, total: int)
    requires HEADER <= total && IsRun(states, ops, base, total) && IsRun(states', ops', base, total)
    requires Live(states[|ops|]) == Live(states'[|ops'|])
    ensures states[|ops|] == states'[|ops'|]
    ensures Live(states[|ops|]) == {} ==> states[|ops|] == Initial(base, total)
  {
    RunKeepsLayout(states, ops, base, total, |ops|);
    RunKeepsLayout(states', ops', base, total, |ops'|);
    LiveChunksDetermineLayout(states[|ops|], states'[|ops'|], base, total);
    if Live(states[|ops|]) == {} {
      NothingLiveIsInitial(states[|ops|], base, total);
    }
  }

  /** Freeing what was just allocated undoes the allocation, split and all. */
  lemma FreeUndoesAlloc(before: seq<Chunk>, size: nat, i: nat, base: int, total: int)
    requires Layout(before, base, total) && IsFirstFit(before, size, i)
    ensures FreeAt(AllocAt(before, i, size), i) == before
  {
    var during := AllocAt(before, i, size);
    AllocKeepsTiles(before, base, total, i, size);
    AllocKeepsCoalesced(before, i, size);
    AllocAddsOneLive(before, base, total, i, size);
    assert during[i] == Granted(before[i], size);
    FreeKeepsTiles(during, base, total, i);
    FreeKeepsCoalesced(during, i);
    FreeRemovesOneLive(during, base, total, i);
    assert Granted(before[i], size) !in Live(before);
    assert Live(FreeAt(during, i)) == Live(before);
    LiveChunksDetermineLayout(FreeAt(during, i), before, base, total);
  }
}
