/** Address translation with a TLB in front of a page table (Translation_mechanism.c).
    Addresses and frames are 32-bit words, page numbers the value of the upper bits; the clock
    wraps around like a word. */
module AddressTranslation {
  import opened Common

  datatype TlbEntry = TlbEntry(page: nat, frame: bv32, valid: bool, accessTime: int)

  datatype PageTableEntry = PageTableEntry(frame: bv32, valid: bool)

  /** What the program returns for an address it cannot translate: -1 as an unsigned word. */
  const ERROR: bv32 := 0xFFFF_FFFF

  function PageOf(address: bv32): nat {
    (address >> 12) as nat
  }

  function OffsetOf(address: bv32): bv32 {
    address & 0xFFF
  }

  function Physical(frame: bv32, offset: bv32): bv32 {
    (frame << 12) | offset
  }

  predicate Mapped(table: seq<PageTableEntry>, page: nat) {
    page < |table| && table[page].valid
  }

  /** Translation without a TLB. */
  function Direct(table: seq<PageTableEntry>, address: bv32): bv32 {
    var page := PageOf(address);
    if Mapped(table, page) then Physical(table[page].frame, OffsetOf(address)) else ERROR
  }

  /** Every valid entry agrees with the table. */
  ghost predicate Coherent(tlb: seq<TlbEntry>, table: seq<PageTableEntry>) {
    forall i :: 0 <= i < |tlb| && tlb[i].valid ==>
      Mapped(table, tlb[i].page) && table[tlb[i].page].frame == tlb[i].frame
  }

  /** No page is cached twice. */
  ghost predicate UniquePages(tlb: seq<TlbEntry>) {
    forall i, j :: 0 <= i < j < |tlb| && tlb[i].valid && tlb[j].valid ==> tlb[i].page != tlb[j].page
  }

  ghost predicate IsHit(tlb: seq<TlbEntry>, page: nat, i: nat) {
    i < |tlb| && tlb[i].valid && tlb[i].page == page
  }

  /** The entry replaced on a miss: the first with the least access time. */
  ghost predicate IsVictim(tlb: seq<TlbEntry>, i: nat) {
    && i < |tlb|
    && (forall j :: 0 <= j < |tlb| ==> tlb[i].accessTime <= tlb[j].accessTime)
    && (forall j :: 0 <= j < i ==> tlb[i].accessTime < tlb[j].accessTime)
  }

  ghost predicate IsRefresh(tlb: seq<TlbEntry>, page: nat, tlb': seq<TlbEntry>, i: nat) {
    IsHit(tlb, page, i) && |tlb'| == |tlb| && tlb' == tlb[i := tlb[i].(accessTime := tlb'[i].accessTime)]
  }

  ghost predicate IsReplacement(table: seq<PageTableEntry>, tlb: seq<TlbEntry>, page: nat, tlb': seq<TlbEntry>, i: nat) {
    && (forall j: nat :: !IsHit(tlb, page, j))
    && Mapped(table, page) && IsVictim(tlb, i) && |tlb'| == |tlb|
    && tlb' == tlb[i := TlbEntry(page, table[page].frame, true, tlb'[i].accessTime)]
  }

  /** What looking up a page may do to the TLB: nothing, refresh the entry it hit, or
      replace the victim by the entry it loaded. */
  ghost predicate TlbStep(table: seq<PageTableEntry>, page: nat, tlb: seq<TlbEntry>, tlb': seq<TlbEntry>) {
    || (tlb' == tlb && !Mapped(table, page))
    || (exists i :: IsRefresh(tlb, page, tlb', i))
    || (exists i :: IsReplacement(table, tlb, page, tlb', i))
  }

  lemma StepKeepsCoherent(table: seq<PageTableEntry>, page: nat, tlb: seq<TlbEntry>, tlb': seq<TlbEntry>)
    requires Coherent(tlb, table) && UniquePages(tlb) && TlbStep(table, page, tlb, tlb')
    ensures Coherent(tlb', table) && UniquePages(tlb') && |tlb'| == |tlb|
  {
    if k :| IsReplacement(table, tlb, page, tlb', k) {
      forall i, j | 0 <= i < j < |tlb'| && tlb'[i].valid && tlb'[j].valid ensures tlb'[i].page != tlb'[j].page {
        assert !IsHit(tlb, page, i) && !IsHit(tlb, page, j);
      }
    } else if k :| IsRefresh(tlb, page, tlb', k) {
      assert forall i :: 0 <= i < |tlb| ==> tlb'[i].page == tlb[i].page && tlb'[i].valid == tlb[i].valid;
    }
  }

  class AddressTranslator {
    const tlb: array<TlbEntry>
    const pageTable: array<PageTableEntry>
    var clock: int

    ghost predicate Valid()
      reads tlb, pageTable
    {
      && 1 <= tlb.Length
      && Coherent(tlb[..], pageTable[..])
      && UniquePages(tlb[..])
    }

    /** All entries invalid, the clock at zero. */
    constructor (tlbSize: nat, pageTableSize: nat)
      requires 1 <= tlbSize
      ensures Valid() && fresh(tlb) && fresh(pageTable) && clock == 0
      ensures tlb.Length == tlbSize && pageTable.Length == pageTableSize
      ensures forall i :: 0 <= i < tlbSize ==> tlb[i] == TlbEntry(0, 0, false, 0)
      ensures forall i :: 0 <= i < pageTableSize ==> !pageTable[i].valid
    {
      tlb := new TlbEntry[tlbSize](_ => TlbEntry(0, 0, false, 0));
      pageTable := new PageTableEntry[pageTableSize](_ => PageTableEntry(0, false));
      clock := 0;
    }

    method UpdateTlb(page: nat, frame: bv32) returns (ghost lru: nat)
      requires 1 <= tlb.Length
      modifies this, tlb
      ensures lru < tlb.Length && clock == (old(clock) + 1) % 0x1_0000_0000
      ensures forall j :: 0 <= j < tlb.Length ==> old(tlb[lru]).accessTime <= old(tlb[j]).accessTime
      ensures forall j :: 0 <= j < lru ==> old(tlb[lru]).accessTime < old(tlb[j]).accessTime
      ensures tlb[..] == old(tlb[..])[lru := TlbEntry(page, frame, true, old(clock))]
    {
      var lruIndex, minTime := 0, tlb[0].accessTime;
      for i := 1 to tlb.Length
        invariant 0 <= lruIndex < i && minTime == tlb[lruIndex].accessTime
        invariant forall j :: 0 <= j < i ==> minTime <= tlb[j].accessTime
        invariant forall j :: 0 <= j < lruIndex ==> minTime < tlb[j].accessTime
      {
        if tlb[i].accessTime < minTime {
          minTime := tlb[i].accessTime;
          lruIndex := i;
        }
      }
      lru := lruIndex;
      tlb[lruIndex] := TlbEntry(page, frame, true, clock);
      clock := (clock + 1) % 0x1_0000_0000;
    }

    /** The scan for a valid entry of the page; -1 if there is none. */
    method FindEntry(page: nat) returns (index: int)
      ensures -1 <= index < tlb.Length
      ensures index >= 0 ==> tlb[index].valid && tlb[index].page == page
      ensures index == -1 ==> forall i :: 0 <= i < tlb.Length && tlb[i].valid ==> tlb[i].page != page
    {
      for i := 0 to tlb.Length
        invariant forall j :: 0 <= j < i && tlb[j].valid ==> tlb[j].page != page
      {
        if tlb[i].valid && tlb[i].page == page {
          return i;
        }
      }
      return -1;
    }

    /** The frame of a page, from the TLB or else from the page table: the answer never depends on
        the TLB. The entry is stamped with the time of the access and the clock ticks; a page that
        is not mapped changes nothing. */
    method FrameOf(page: nat) returns (frame: Option<bv32>)
      requires Valid()
      modifies this, tlb
      ensures Valid()
      ensures if page < pageTable.Length && pageTable[page].valid then
                && frame == Some(pageTable[page].frame)
                && TlbEntry(page, pageTable[page].frame, true, old(clock)) in tlb[..]
                && clock == (old(clock) + 1) % 0x1_0000_0000
              else
                frame == None && tlb[..] == old(tlb[..]) && clock == old(clock)
      ensures TlbStep(pageTable[..], page, old(tlb[..]), tlb[..])
    {
      ghost var table, before, now := pageTable[..], tlb[..], clock;
      var hit := FindEntry(page);
      if hit >= 0 {
        HitKeeps(table, page, before, hit, now);
        frame := Some(tlb[hit].frame);
        tlb[hit] := tlb[hit].(accessTime := clock);
        clock := (clock + 1) % 0x1_0000_0000;
        assert tlb[..] == before[hit := before[hit].(accessTime := now)];
        return;
      }
      if page >= pageTable.Length {
        return None;
      }
      if !pageTable[page].valid {
        return None;
      }
      frame := Some(pageTable[page].frame);
      ghost var lru := UpdateTlb(page, pageTable[page].frame);
      MissKeeps(table, page, before, lru, now);
    }

    /** The frame of the page shifted into place, or'ed with the offset; -1 as an unsigned word
        if the page is not mapped. */
    method TranslateAddress(address: bv32) returns (physical: bv32)
      requires Valid()
      modifies this, tlb
      ensures Valid()
      ensures var page := PageOf(address);
              if page < pageTable.Length && pageTable[page].valid then
                && physical == Physical(pageTable[page].frame, OffsetOf(address))
                && clock == (old(clock) + 1) % 0x1_0000_0000
              else
                physical == ERROR && tlb[..] == old(tlb[..]) && clock == old(clock)
      ensures physical == Direct(pageTable[..], address)
      ensures TlbStep(pageTable[..], PageOf(address), old(tlb[..]), tlb[..])
    {
      var frame := FrameOf(PageOf(address));
      match frame
      case None => return ERROR;
      case Some(f) => return Physical(f, OffsetOf(address));
    }
  }

  /** What a hit gives: the page is mapped to the cached frame, and the refreshed entry is sound. */
  lemma HitKeeps(table: seq<PageTableEntry>, page: nat, tlb: seq<TlbEntry>, i: nat, now: int)
    requires Coherent(tlb, table) && UniquePages(tlb) && IsHit(tlb, page, i)
    ensures var tlb' := tlb[i := tlb[i].(accessTime := now)];
            && Mapped(table, page) && table[page].frame == tlb[i].frame
            && Coherent(tlb', table) && UniquePages(tlb') && TlbStep(table, page, tlb, tlb')
            && tlb'[i] == TlbEntry(page, table[page].frame, true, now) && tlb'[i] in tlb'
  {
    var tlb' := tlb[i := tlb[i].(accessTime := now)];
    assert IsRefresh(tlb, page, tlb', i);
    StepKeepsCoherent(table, page, tlb, tlb');
  }

  lemma MissKeeps(table: seq<PageTableEntry>, page: nat, tlb: seq<TlbEntry>, i: nat, now: int)
    requires Coherent(tlb, table) && UniquePages(tlb) && Mapped(table, page) && IsVictim(tlb, i)
    requires forall j :: 0 <= j < |tlb| && tlb[j].valid ==> tlb[j].page != page
    ensures var entry := TlbEntry(page, table[page].frame, true, now);
            var tlb' := tlb[i := entry];
            Coherent(tlb', table) && UniquePages(tlb') && TlbStep(table, page, tlb, tlb') && entry in tlb'
  {
    var tlb' := tlb[i := TlbEntry(page, table[page].frame, true, now)];
    assert tlb'[i] in tlb';
    assert IsReplacement(table, tlb, page, tlb', i);
    StepKeepsCoherent(table, page, tlb, tlb');
  }

  // ----- whole runs over a fixed page table

  ghost predicate IsRun(table: seq<PageTableEntry>, addresses: seq<bv32>, tlbs: seq<seq<TlbEntry>>) {
    && |tlbs| == |addresses| + 1
    && (forall i :: 0 <= i < |tlbs[0]| ==> !tlbs[0][i].valid)
    && forall t :: 0 <= t < |addresses| ==> TlbStep(table, PageOf(addresses[t]), tlbs[t], tlbs[t + 1])
  }

  /** The TLB never holds a stale or a duplicate entry, so a hit is always right. */
  lemma {:induction false} RunStaysCoherent(table: seq<PageTableEntry>, addresses: seq<bv32>, tlbs: seq<seq<TlbEntry>>, t: nat)
    requires IsRun(table, addresses, tlbs) && t <= |addresses|
    ensures Coherent(tlbs[t], table) && UniquePages(tlbs[t])
    ensures t < |addresses| ==> forall i: nat :: IsHit(tlbs[t], PageOf(addresses[t]), i) ==>
              Physical(tlbs[t][i].frame, OffsetOf(addresses[t])) == Direct(table, addresses[t])
  {
    if t > 0 {
      RunStaysCoherent(table, addresses, tlbs, t - 1);
      StepKeepsCoherent(table, PageOf(addresses[t - 1]), tlbs[t - 1], tlbs[t]);
    }
  }

  // ----- shifts and masks as arithmetic

  /** Page and offset lose nothing, and are what division by the page size gives. */
  lemma SplitIsExact(address: bv32)
    ensures Physical(address >> 12, OffsetOf(address)) == address
    ensures PageOf(address) == (address / 4096) as nat && OffsetOf(address) == address % 4096
  {
  }

  /** Page and offset determine the address. */
  lemma SplitIsInjective(address: bv32, address': bv32)
    requires PageOf(address) == PageOf(address') && OffsetOf(address) == OffsetOf(address')
    ensures address == address'
  {
    SamePage(address >> 12, address' >> 12);
    SplitIsExact(address);
    SplitIsExact(address');
  }

  lemma SamePage(page: bv32, page': bv32)
    requires page as nat == page' as nat
    ensures page == page'
  {
    assert (page as nat) as bv32 == page && (page' as nat) as bv32 == page';
  }

  /** Translation without a TLB, spelled out. */
  lemma DirectIs(table: seq<PageTableEntry>, address: bv32)
    ensures var page := (address / 4096) as nat;
            Direct(table, address)
              == if page < |table| && table[page].valid then (table[page].frame << 12) | (address % 4096)
                 else 0xFFFF_FFFF
  {
    SplitIsExact(address);
  }

  /** The physical address is frame * 4096 + offset, computed without overflow, exactly
      for frames below 2^20. */
  lemma PhysicalIsArithmeticIff(frame: bv32, address: bv32)
    ensures Physical(frame, OffsetOf(address)) as bv64 == (frame as bv64) * 4096 + (OffsetOf(address) as bv64)
            <==> frame < 0x10_0000
  {
  }

  /** Distinct frames and offsets give distinct physical addresses. */
  lemma PhysicalIsInjective(frame: bv32, address: bv32, frame': bv32, address': bv32)
    requires frame < 0x10_0000 && frame' < 0x10_0000
    requires Physical(frame, OffsetOf(address)) == Physical(frame', OffsetOf(address'))
    ensures frame == frame' && OffsetOf(address) == OffsetOf(address')
  {
  }

  /** With frames that are distinct and below 2^20, different mapped addresses have different
      translations. */
  lemma TranslationIsInjective(table: seq<PageTableEntry>, address: bv32, address': bv32)
    requires Mapped(table, PageOf(address)) && Mapped(table, PageOf(address'))
    requires forall p: nat :: Mapped(table, p) ==> table[p].frame < 0x10_0000
    requires forall p: nat, q: nat :: Mapped(table, p) && Mapped(table, q) && p != q ==> table[p].frame != table[q].frame
    ensures Direct(table, address) == Direct(table, address') <==> address == address'
  {
    if Direct(table, address) == Direct(table, address') {
      PhysicalIsInjective(table[PageOf(address)].frame, address, table[PageOf(address')].frame, address');
      SplitIsInjective(address, address');
    }
  }

  /** The error value is also the translation of one address: the last byte of a page
      whose frame ends in twenty ones. */
  lemma ErrorIsAmbiguousIff(table: seq<PageTableEntry>, address: bv32)
    ensures Direct(table, address) == ERROR <==>
              || !Mapped(table, PageOf(address))
              || (OffsetOf(address) == 0xFFF && table[PageOf(address)].frame & 0xF_FFFF == 0xF_FFFF)
  {
    if Mapped(table, PageOf(address)) {
      ErrorBits(table[PageOf(address)].frame, address);
    }
  }

  lemma ErrorBits(frame: bv32, address: bv32)
    ensures Physical(frame, OffsetOf(address)) == ERROR <==> OffsetOf(address) == 0xFFF && frame & 0xF_FFFF == 0xF_FFFF
  {
  }
}
