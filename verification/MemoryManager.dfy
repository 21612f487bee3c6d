/** The allocator over its memory: block headers stored at their addresses and
    linked both ways, updated in place. */
module MemoryManagement {
  import opened MemoryLayout
  import opened FirstFit

  datatype Pointer = Null | At(addr: int)

  datatype MemoryBlock = MemoryBlock(size: int, isAllocated: bool, next: Pointer, prev: Pointer)

  function AddressOf(chunks: seq<Chunk>, i: int): Pointer {
    if 0 <= i < |chunks| then At(chunks[i].addr) else Null
  }

  /** The header that stands for chunk i, with its neighbours' addresses. */
  function HeaderOf(chunks: seq<Chunk>, i: int): MemoryBlock
    requires 0 <= i < |chunks|
  {
    MemoryBlock(chunks[i].size, chunks[i].used, AddressOf(chunks, i + 1), AddressOf(chunks, i - 1))
  }

  /** The headers in memory spell out the chunk list; other addresses do not matter. */
  ghost predicate Linked(memory: map<int, MemoryBlock>, chunks: seq<Chunk>) {
    forall i :: 0 <= i < |chunks| ==> HeaderAt(memory, chunks, i)
  }

  ghost predicate HeaderAt(memory: map<int, MemoryBlock>, chunks: seq<Chunk>, i: int)
    requires 0 <= i < |chunks|
  {
    chunks[i].addr in memory && memory[chunks[i].addr] == HeaderOf(chunks, i)
  }

  /** The list in memory mirrors address order both ways. */
  lemma LinkedMeans(memory: map<int, MemoryBlock>, chunks: seq<Chunk>, i: nat)
    requires Linked(memory, chunks) && i < |chunks|
    ensures chunks[i].addr in memory
    ensures var block := memory[chunks[i].addr];
            && block.size == chunks[i].size && block.isAllocated == chunks[i].used
            && block.next == (if i + 1 < |chunks| then At(chunks[i + 1].addr) else Null)
            && block.prev == if 0 < i then At(chunks[i - 1].addr) else Null
  {
    assert HeaderAt(memory, chunks, i);
  }

  /** All chunk addresses are distinct, so a write to one header leaves the others alone. */
  ghost predicate DistinctAddresses(chunks: seq<Chunk>) {
    forall i, j :: 0 <= i < j < |chunks| ==> chunks[i].addr != chunks[j].addr
  }

  lemma TilesAreDistinct(chunks: seq<Chunk>, base: int, total: int)
    requires Tiles(chunks, base, total)
    ensures DistinctAddresses(chunks)
  {
    forall i, j | 0 <= i < j < |chunks| ensures chunks[i].addr != chunks[j].addr {
      InOrder(chunks, base, total, i, j);
    }
  }

  function MarkHeader(memory: map<int, MemoryBlock>, curr: int, used: bool): map<int, MemoryBlock>
    requires curr in memory
  {
    memory[curr := memory[curr].(isAllocated := used)]
  }

  /** Marking a block, or handing it out whole, rewrites one header. */
  lemma LinkedAfterMark(memory: map<int, MemoryBlock>, chunks: seq<Chunk>, i: nat, used: bool)
    requires Linked(memory, chunks) && DistinctAddresses(chunks) && i < |chunks|
    ensures HeaderAt(memory, chunks, i)
    ensures Linked(MarkHeader(memory, chunks[i].addr, used), Marked(chunks, i, used))
  {
    assert HeaderAt(memory, chunks, i);
    forall j | 0 <= j < |chunks|
      ensures HeaderAt(MarkHeader(memory, chunks[i].addr, used), Marked(chunks, i, used), j)
    {
      assert HeaderAt(memory, chunks, j);
    }
  }

  /** Chunk i cut in two free chunks. */
  function SplitAt(chunks: seq<Chunk>, i: nat, size: nat): seq<Chunk>
    requires i < |chunks| && size + HEADER <= chunks[i].size
  {
    var c := chunks[i];
    chunks[..i] + [Chunk(c.addr, size, c.used), Chunk(c.addr + HEADER + size, c.size - size - HEADER, c.used)] + chunks[i + 1..]
  }

  lemma SplitThenMark(chunks: seq<Chunk>, i: nat, size: nat)
    requires i < |chunks| && Fits(chunks[i], size)
    ensures AllocAt(chunks, i, size) ==
            if chunks[i].size >= size + HEADER + MIN_BLOCK_SIZE
            then Marked(SplitAt(chunks, i, size), i, true)
            else Marked(chunks, i, true)
  {
  }

  lemma SplitShifts(chunks: seq<Chunk>, i: nat, size: nat, j: nat)
    requires i < |chunks| && size + HEADER <= chunks[i].size && j <= |chunks|
    ensures |SplitAt(chunks, i, size)| == |chunks| + 1
    ensures SplitAt(chunks, i, size)[j] ==
            if j < i then chunks[j]
            else if j == i then Chunk(chunks[i].addr, size, chunks[i].used)
            else if j == i + 1 then Chunk(chunks[i].addr + HEADER + size, chunks[i].size - size - HEADER, chunks[i].used)
            else chunks[j - 1]
  {
  }

  lemma SplitIsDistinct(chunks: seq<Chunk>, base: int, total: int, i: nat, size: nat)
    requires Tiles(chunks, base, total) && i < |chunks| && size + HEADER <= chunks[i].size
    ensures DistinctAddresses(SplitAt(chunks, i, size))
  {
    var chunks' := SplitAt(chunks, i, size);
    assert Tiles(chunks', base, total) by {
      assert forall j :: i + 2 <= j < |chunks'| ==> chunks'[j] == chunks[j - 1];
      forall j | 0 < j < |chunks'| ensures chunks'[j].addr == chunks'[j - 1].End() {
        if j > i + 1 {
          assert chunks[j - 1].addr == chunks[j - 2].End();
        }
      }
    }
    TilesAreDistinct(chunks', base, total);
  }

  /** The header writes of a split. */
  function SplitHeaders(memory: map<int, MemoryBlock>, curr: int, size: int): map<int, MemoryBlock>
    requires curr in memory
    requires memory[curr].next.At? ==> memory[curr].next.addr in memory
  {
    var block, split := memory[curr], curr + HEADER + size;
    var m1 := memory[split := MemoryBlock(block.size - size - HEADER, false, block.next, At(curr))];
    var m2 := if block.next.At? then m1[block.next.addr := m1[block.next.addr].(prev := At(split))] else m1;
    var m3 := m2[curr := m2[curr].(next := At(split))];
    m3[curr := m3[curr].(size := size)]
  }

  lemma SplitWrites(memory: map<int, MemoryBlock>, chunks: seq<Chunk>, i: nat, size: nat, j: nat)
    requires Linked(memory, chunks) && i < |chunks| && size + HEADER <= chunks[i].size && !chunks[i].used
    requires DistinctAddresses(SplitAt(chunks, i, size)) && j <= |chunks|
    ensures HeaderAt(memory, chunks, i)
    ensures i + 1 < |chunks| ==> chunks[i + 1].addr in memory
    ensures var chunks' := SplitAt(chunks, i, size);
            HeaderAt(SplitHeaders(memory, chunks[i].addr, size), chunks', j)
  {
    var chunks', curr := SplitAt(chunks, i, size), chunks[i].addr;
    assert HeaderAt(memory, chunks, i);
    SplitShifts(chunks, i, size, j);
    SplitShifts(chunks, i, size, i);
    SplitShifts(chunks, i, size, i + 1);
    if j > 0 {
      SplitShifts(chunks, i, size, j - 1);
    }
    if j < |chunks| {
      SplitShifts(chunks, i, size, j + 1);
    }
    if i + 1 < |chunks| {
      SplitShifts(chunks, i, size, i + 2);
      assert HeaderAt(memory, chunks, i + 1);
      assert chunks'[i + 1].addr != chunks'[i + 2].addr;
    }
    if j != i + 1 {
      var k := if j <= i then j else j - 1;
      assert HeaderAt(memory, chunks, k);
    }
  }

  lemma LinkedAfterSplit(memory: map<int, MemoryBlock>, chunks: seq<Chunk>, i: nat, size: nat)
    requires Linked(memory, chunks) && i < |chunks| && size + HEADER <= chunks[i].size && !chunks[i].used
    requires DistinctAddresses(SplitAt(chunks, i, size))
    ensures HeaderAt(memory, chunks, i)
    ensures i + 1 < |chunks| ==> chunks[i + 1].addr in memory
    ensures Linked(SplitHeaders(memory, chunks[i].addr, size), SplitAt(chunks, i, size))
  {
    var chunks' := SplitAt(chunks, i, size);
    SplitWrites(memory, chunks, i, size, i);
    var memory' := SplitHeaders(memory, chunks[i].addr, size);
    forall j | 0 <= j < |chunks'|
      ensures HeaderAt(memory', chunks', j)
    {
      SplitWrites(memory, chunks, i, size, j);
    }
  }

  /** The header writes of a merge with the next block. */
  function MergeHeaders(memory: map<int, MemoryBlock>, curr: int): map<int, MemoryBlock>
    requires curr in memory && memory[curr].next.At? && memory[curr].next.addr in memory
    requires memory[memory[curr].next.addr].next.At? ==> memory[memory[curr].next.addr].next.addr in memory
  {
    var next := memory[memory[curr].next.addr];
    var m1 := memory[curr := memory[curr].(size := memory[curr].size + next.size + HEADER, next := next.next)];
    if next.next.At? then m1[next.next.addr := m1[next.next.addr].(prev := At(curr))] else m1
  }

  lemma MergeWrites(memory: map<int, MemoryBlock>, chunks: seq<Chunk>, i: nat, k: nat)
    requires Linked(memory, chunks) && DistinctAddresses(chunks) && i + 1 < |chunks| && k < |chunks|
    ensures HeaderAt(memory, chunks, i) && HeaderAt(memory, chunks, i + 1)
    ensures i + 2 < |chunks| ==> chunks[i + 2].addr in memory
    ensures chunks[k].addr in MergeHeaders(memory, chunks[i].addr)
    ensures k != i + 1 ==>
              var whole := MemoryBlock(chunks[i].size + chunks[i + 1].size + HEADER, chunks[i].used,
                                       AddressOf(chunks, i + 2), AddressOf(chunks, i - 1));
              MergeHeaders(memory, chunks[i].addr)[chunks[k].addr]
                == if k == i then whole
                   else if k == i + 2 then HeaderOf(chunks, k).(prev := At(chunks[i].addr))
                   else HeaderOf(chunks, k)
  {
    assert HeaderAt(memory, chunks, i) && HeaderAt(memory, chunks, i + 1) && HeaderAt(memory, chunks, k);
    if i + 2 < |chunks| {
      assert HeaderAt(memory, chunks, i + 2);
    }
  }

  lemma MergeShifts(chunks: seq<Chunk>, i: nat, j: nat)
    requires i + 1 < |chunks| && j + 1 < |chunks|
    ensures var chunks' := Absorb(chunks, i);
            && |chunks'| == |chunks| - 1
            && chunks'[j] == if j < i then chunks[j]
                             else if j == i then Chunk(chunks[i].addr, chunks[i].size + chunks[i + 1].size + HEADER, chunks[i].used)
                             else chunks[j + 1]
  {
  }

  lemma LinkedAfterMerge(memory: map<int, MemoryBlock>, chunks: seq<Chunk>, i: nat)
    requires Linked(memory, chunks) && DistinctAddresses(chunks) && i + 1 < |chunks|
    ensures HeaderAt(memory, chunks, i) && HeaderAt(memory, chunks, i + 1)
    ensures i + 2 < |chunks| ==> chunks[i + 2].addr in memory
    ensures Linked(MergeHeaders(memory, chunks[i].addr), Absorb(chunks, i))
  {
    MergeWrites(memory, chunks, i, i);
    var chunks', memory' := Absorb(chunks, i), MergeHeaders(memory, chunks[i].addr);
    forall j | 0 <= j < |chunks'|
      ensures HeaderAt(memory', chunks', j)
    {
      MergeShifts(chunks, i, j);
      if j > 0 {
        MergeShifts(chunks, i, j - 1);
      }
      if j + 1 < |chunks'| {
        MergeShifts(chunks, i, j + 1);
      }
      MergeWrites(memory, chunks, i, if j <= i then j else j + 1);
    }
  }

  class MemoryManager {
    const base: int
    const totalSize: int
    var memory: map<int, MemoryBlock>
    var freeList: Pointer
    var usedSize: int
    ghost var chunks: seq<Chunk>

    ghost predicate Valid()
      reads this
    {
      && Layout(chunks, base, totalSize)
      && Linked(memory, chunks)
      && freeList == At(base)
      && usedSize == UsedSize(chunks)
    }

    constructor (base: int, size: int)
      requires HEADER <= size
      ensures Valid() && this.base == base && totalSize == size
      ensures chunks == Initial(base, size) == [Chunk(base, size - 32, false)] && usedSize == 0
    {
      this.base := base;
      this.totalSize := size;
      this.usedSize := 0;
      this.freeList := At(base);
      this.memory := map[base := MemoryBlock(size - HEADER, false, Null, Null)];
      this.chunks := Initial(base, size);
    }

    /** The address of a payload carved from the first block that fits, or Null if none does. */
    method MemoryAlloc(size: nat) returns (ptr: Pointer)
      requires Valid()
      modifies this
      ensures Valid()
      ensures Step(old(chunks), Alloc(size), chunks)
      ensures ptr == Null <==> forall c :: c in old(chunks) ==> c.used || c.size < size
      ensures ptr == Null ==> chunks == old(chunks) && usedSize == old(usedSize)
      ensures ptr.At? ==> exists c :: && c in old(chunks) && !c.used && size <= c.size
                                      && (forall d :: d in old(chunks) && !d.used && size <= d.size ==> c.addr <= d.addr)
                                      && var got := Chunk(c.addr, if c.size >= size + 48 then size else c.size, true);
                                         && ptr.addr == c.addr + 32 == got.Payload()
                                         && Live(chunks) == old(Live(chunks)) + {got}
                                         && usedSize == old(usedSize) + got.size + 32
    {
      ghost var before := chunks;
      ghost var i;
      ptr, i := FindFit(size);
      if ptr != Null {
        AllocMeans(before, base, totalSize, i, size);
        ptr := Carve(ptr.addr, size, i);
      }
    }

    /** The walk along the list to the first block that fits. */
    method FindFit(size: nat) returns (curr: Pointer, ghost i: nat)
      requires Valid()
      ensures curr == Null ==> forall c :: c in chunks ==> !Fits(c, size)
      ensures curr.At? ==> IsFirstFit(chunks, size, i) && curr.addr == chunks[i].addr
    {
      curr, i := freeList, 0;
      while curr != Null
        invariant 0 <= i <= |chunks| && curr == AddressOf(chunks, i)
        invariant forall j :: 0 <= j < i ==> !Fits(chunks[j], size)
        decreases |chunks| - i
      {
        assert HeaderAt(memory, chunks, i);
        if !memory[curr.addr].isAllocated && memory[curr.addr].size >= size {
          return;
        }
        curr := memory[curr.addr].next;
        i := i + 1;
      }
    }

    /** Releases a live payload and merges it with free neighbours; Null is ignored. */
    method MemoryFree(ptr: Pointer, ghost i: nat)
      requires Valid()
      requires ptr.At? ==> i < |chunks| && chunks[i].used && chunks[i].Payload() == ptr.addr
      modifies this
      ensures Valid()
      ensures ptr == Null ==> chunks == old(chunks)
      ensures ptr.At? ==> Live(chunks) == old(Live(chunks)) - {old(chunks)[i]}
                          && usedSize == old(usedSize) - (old(chunks)[i].size + 32)
      ensures ptr.At? ==> Step(old(chunks), Free(old(chunks)[i]), chunks)
    {
      if ptr == Null {
        return;
      }
      FreeRemovesOneLive(chunks, base, totalSize, i);
      Release(ptr.addr - HEADER, i);
    }

    method Release(block: int, ghost i: nat)
      requires Valid() && i < |chunks| && chunks[i].used && chunks[i].addr == block
      modifies this
      ensures Valid() && chunks == FreeAt(old(chunks), i)
      ensures usedSize == old(usedSize) - (old(chunks)[i].size + HEADER)
    {
      FreeFacts(memory, chunks, i, base, totalSize);
      memory := memory[block := memory[block].(isAllocated := false)];
      usedSize := usedSize - (memory[block].size + HEADER);
      Coalesce(block, Marked(chunks, i, false), i);
      chunks := FreeAt(chunks, i);
    }

    /** Merges a block just freed with its free neighbours. */
    method Coalesce(block: int, ghost marked: seq<Chunk>, ghost i: nat)
      requires Linked(memory, marked) && i < |marked| && marked[i].addr == block
      requires Tiles(marked, base, totalSize) && MergeReady(marked, i, base, totalSize)
      modifies this`memory
      ensures Linked(memory, MergedWithPrevious(MergedWithNext(marked, i), i))
    {
      MergeWithNextIfFree(block, marked, i);
      MergeWithPreviousIfFree(block, MergedWithNext(marked, i), i);
    }

    method MergeWithNextIfFree(block: int, ghost current: seq<Chunk>, ghost i: nat)
      requires Linked(memory, current) && Tiles(current, base, totalSize)
      requires i < |current| && current[i].addr == block
      modifies this`memory
      ensures Linked(memory, MergedWithNext(current, i))
    {
      HeaderFacts(memory, current, i);
      if memory[block].next != Null && !memory[memory[block].next.addr].isAllocated {
        MergeFacts(memory, current, i, base, totalSize);
        MergeNext(block);
      }
    }

    method MergeWithPreviousIfFree(block: int, ghost current: seq<Chunk>, ghost i: nat)
      requires Linked(memory, current) && Tiles(current, base, totalSize)
      requires i < |current| && current[i].addr == block
      modifies this`memory
      ensures Linked(memory, MergedWithPrevious(current, i))
    {
      HeaderFacts(memory, current, i);
      if memory[block].prev != Null && !memory[memory[block].prev.addr].isAllocated {
        MergeFacts(memory, current, i - 1, base, totalSize);
        MergeNext(memory[block].prev.addr);
      }
    }

    /** The header writes that let a block absorb the one after it. */
    method MergeNext(block: int)
      requires block in memory && memory[block].next.At? && memory[block].next.addr in memory
      requires memory[memory[block].next.addr].next.At? ==> memory[memory[block].next.addr].next.addr in memory
      modifies this`memory
      ensures memory == MergeHeaders(old(memory), block)
    {
      var next := memory[block].next.addr;
      memory := memory[block := memory[block].(size := memory[block].size + memory[next].size + HEADER)];
      memory := memory[block := memory[block].(next := memory[next].next)];
      if memory[block].next != Null {
        var after := memory[block].next.addr;
        memory := memory[after := memory[after].(prev := At(block))];
      }
    }

    /** The header writes that cut `size` bytes off the front of a block. */
    method Split(curr: int, size: nat)
      requires curr in memory
      requires memory[curr].next.At? ==> memory[curr].next.addr in memory
      modifies this`memory
      ensures memory == SplitHeaders(old(memory), curr, size)
    {
      var split := curr + HEADER + size;
      var next := memory[curr].next;
      memory := memory[split := MemoryBlock(memory[curr].size - size - HEADER, false, next, At(curr))];
      if next.At? {
        memory := memory[next.addr := memory[next.addr].(prev := At(split))];
      }
      memory := memory[curr := memory[curr].(next := At(split))];
      memory := memory[curr := memory[curr].(size := size)];
    }

    /** The body of the loop once a block fits: split it if that leaves a usable rest,
        mark it, and account for it. */
    method Carve(curr: int, size: nat, ghost i: nat) returns (ptr: Pointer)
      requires Valid() && IsFirstFit(chunks, size, i) && curr == chunks[i].addr
      modifies this
      ensures Valid() && chunks == AllocAt(old(chunks), i, size)
      ensures usedSize == old(usedSize) + Granted(old(chunks)[i], size).size + HEADER
      ensures ptr == At(curr + HEADER)
    {
      ghost var before := chunks;
      CarveFacts(memory, before, i, size, base, totalSize);
      if memory[curr].size >= size + HEADER + MIN_BLOCK_SIZE {
        Split(curr, size);
      }
      memory := memory[curr := memory[curr].(isAllocated := true)];
      chunks := AllocAt(before, i, size);
      usedSize := usedSize + memory[curr].size + HEADER;
      ptr := At(curr + HEADER);
    }
  }

  /** The first block that fits is the one of lowest address, and what is carved from it is live. */
  lemma AllocMeans(chunks: seq<Chunk>, base: int, total: int, i: nat, size: nat)
    requires Tiles(chunks, base, total) && IsFirstFit(chunks, size, i)
    ensures var c := chunks[i];
            var got := Chunk(c.addr, if c.size >= size + 48 then size else c.size, true);
            && c in chunks && !c.used && size <= c.size
            && (forall d :: d in chunks && !d.used && size <= d.size ==> c.addr <= d.addr)
            && got == Granted(c, size) && got.Payload() == c.addr + 32
            && Live(AllocAt(chunks, i, size)) == Live(chunks) + {got}
  {
    forall d | d in chunks && !d.used && size <= d.size ensures chunks[i].addr <= d.addr {
      var j :| 0 <= j < |chunks| && chunks[j] == d;
      if i < j {
        InOrder(chunks, base, total, i, j);
      }
    }
    AllocAddsOneLive(chunks, base, total, i, size);
  }

  /** What a block's header tells about its neighbours. */
  lemma HeaderFacts(memory: map<int, MemoryBlock>, chunks: seq<Chunk>, i: nat)
    requires Linked(memory, chunks) && i < |chunks|
    ensures HeaderAt(memory, chunks, i)
    ensures i + 1 < |chunks| ==> chunks[i + 1].addr in memory
                                 && memory[chunks[i + 1].addr].isAllocated == chunks[i + 1].used
    ensures 0 < i ==> chunks[i - 1].addr in memory && memory[chunks[i - 1].addr].isAllocated == chunks[i - 1].used
  {
    assert HeaderAt(memory, chunks, i);
    if i + 1 < |chunks| {
      assert HeaderAt(memory, chunks, i + 1);
    }
    if 0 < i {
      assert HeaderAt(memory, chunks, i - 1);
    }
  }

  lemma MergeFacts(memory: map<int, MemoryBlock>, chunks: seq<Chunk>, i: nat, base: int, total: int)
    requires Tiles(chunks, base, total) && Linked(memory, chunks) && i + 1 < |chunks|
    ensures chunks[i].addr in memory && chunks[i + 1].addr in memory
    ensures memory[chunks[i].addr].next == At(chunks[i + 1].addr)
    ensures memory[chunks[i + 1].addr].next.At? ==> memory[chunks[i + 1].addr].next.addr in memory
    ensures Linked(MergeHeaders(memory, chunks[i].addr), Absorb(chunks, i))
    ensures Tiles(Absorb(chunks, i), base, total)
    ensures |Absorb(chunks, i)| == |chunks| - 1 && Absorb(chunks, i)[i].addr == chunks[i].addr
  {
    TilesAreDistinct(chunks, base, total);
    LinkedAfterMerge(memory, chunks, i);
    AbsorbKeepsTiles(chunks, base, total, i);
  }

  /** After the first merge the block is still where it was. */
  ghost predicate MergeReady(chunks: seq<Chunk>, i: nat, base: int, total: int)
    requires i < |chunks|
  {
    var merged := MergedWithNext(chunks, i);
    Tiles(merged, base, total) && i < |merged| && merged[i].addr == chunks[i].addr
  }

  /** What a free starts from and what it is to establish. */
  lemma FreeFacts(memory: map<int, MemoryBlock>, chunks: seq<Chunk>, i: nat, base: int, total: int)
    requires Layout(chunks, base, total) && Linked(memory, chunks) && i < |chunks| && chunks[i].used
    ensures HeaderAt(memory, chunks, i)
    ensures Linked(MarkHeader(memory, chunks[i].addr, false), Marked(chunks, i, false))
    ensures Tiles(Marked(chunks, i, false), base, total)
    ensures MergeReady(Marked(chunks, i, false), i, base, total)
    ensures Layout(FreeAt(chunks, i), base, total)
    ensures UsedSize(FreeAt(chunks, i)) == UsedSize(chunks) - (chunks[i].size + HEADER)
  {
    TilesAreDistinct(chunks, base, total);
    LinkedAfterMark(memory, chunks, i, false);
    FreeKeepsTiles(chunks, base, total, i);
    FreeKeepsCoalesced(chunks, i);
    FreeUsedSize(chunks, i);
  }

  /** Everything the header writes of an allocation establish. */
  lemma CarveFacts(memory: map<int, MemoryBlock>, chunks: seq<Chunk>, i: nat, size: nat, base: int, total: int)
    requires Layout(chunks, base, total) && Linked(memory, chunks) && IsFirstFit(chunks, size, i)
    ensures HeaderAt(memory, chunks, i)
    ensures memory[chunks[i].addr].next.At? ==> memory[chunks[i].addr].next.addr in memory
    ensures var curr, chunks' := chunks[i].addr, AllocAt(chunks, i, size);
            var headers := if chunks[i].size >= size + HEADER + MIN_BLOCK_SIZE then SplitHeaders(memory, curr, size) else memory;
            && curr in headers
            && headers[curr].size == Granted(chunks[i], size).size
            && Linked(MarkHeader(headers, curr, true), chunks')
            && Layout(chunks', base, total)
            && UsedSize(chunks') == UsedSize(chunks) + Granted(chunks[i], size).size + HEADER
  {
    HeaderFacts(memory, chunks, i);
    AllocKeepsTiles(chunks, base, total, i, size);
    AllocKeepsCoalesced(chunks, i, size);
    AllocUsedSize(chunks, i, size);
    TilesAreDistinct(chunks, base, total);
    SplitThenMark(chunks, i, size);
    if chunks[i].size >= size + HEADER + MIN_BLOCK_SIZE {
      SplitIsDistinct(chunks, base, total, i, size);
      LinkedAfterSplit(memory, chunks, i, size);
      LinkedAfterMark(SplitHeaders(memory, chunks[i].addr, size), SplitAt(chunks, i, size), i, true);
      SplitShifts(chunks, i, size, i);
    } else {
      LinkedAfterMark(memory, chunks, i, true);
    }
  }
}
