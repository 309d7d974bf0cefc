// The software TLB of cputlb.c: a direct-mapped table and a small victim table per MMU mode, and one
// flush region that stands for all large pages.

module SoftTlbs {
  const CPU_TLB_SIZE: nat := 256
  const CPU_VTLB_SIZE: nat := 8

  const PAGE_SIZE: bv64 := 0x1000
  const PAGE_MASK: bv64 := 0xffff_ffff_ffff_f000
  const TLB_INVALID: bv64 := 0x800
  const TLB_NOTDIRTY: bv64 := 0x400
  const TLB_MMIO: bv64 := 0x200
  const ONES: bv64 := 0xffff_ffff_ffff_ffff

  // ------------------------------------------------------------------------------------------
  // Mappings and regions

  function Cut(x: bv64, m: bv64): bv64 { x & m }

  function Shift(m: bv64): bv64 { m << 1 }

  predicate Within(m: bv64, outer: bv64) { m & outer == m }

  predicate Even(m: bv64) { m & 1 == 0 }

  /** Two addresses differ nowhere under a mask. */
  predicate Agree(a: bv64, b: bv64, mask: bv64) { (a ^ b) & mask == 0 }

  /** A mask of leading ones: every set bit has its left neighbour set. */
  predicate IsMask(m: bv64) {
    (m << 1) & m == m << 1
  }

  /** A power of two that is at least a page. */
  predicate SizeOk(size: bv64) {
    size & (size - 1) == 0 && size & PAGE_MASK == size && size != 0
  }

  function MaskOf(size: bv64): bv64 {
    !(size - 1)
  }

  /** The aligned block of the given size around vaddr contains addr. */
  predicate InMapping(vaddr: bv64, size: bv64, addr: bv64) {
    Cut(addr, MaskOf(size)) == Cut(vaddr, MaskOf(size))
  }

  predicate InRegion(flushAddr: bv64, flushMask: bv64, addr: bv64) {
    Cut(addr, flushMask) == flushAddr
  }

  /** The region is a whole number of such blocks and vaddr is in it. */
  predicate Covers(flushAddr: bv64, flushMask: bv64, vaddr: bv64, size: bv64) {
    Within(flushMask, MaskOf(size)) && InRegion(flushAddr, flushMask, vaddr)
  }

  lemma CutWithin(x: bv64, m: bv64, outer: bv64)
    requires Within(m, outer)
    ensures Cut(Cut(x, outer), m) == Cut(x, m)
  {
  }

  lemma CutEven(x: bv64, m: bv64)
    requires Even(m)
    ensures Cut(x, m) != ONES
  {
  }

  lemma WithinTrans(m: bv64, a: bv64, b: bv64)
    requires Within(m, a) && Within(a, b)
    ensures Within(m, b)
  {
  }

  lemma WithinEven(m: bv64, outer: bv64)
    requires Within(m, outer) && Even(outer)
    ensures Even(m)
  {
  }

  lemma SizeMask(size: bv64)
    requires SizeOk(size)
    ensures IsMask(MaskOf(size)) && Even(MaskOf(size)) && Within(MaskOf(size), MaskOf(size))
  {
  }

  lemma MaskMeet(a: bv64, b: bv64)
    requires IsMask(a) && IsMask(b)
    ensures IsMask(Cut(a, b)) && Within(Cut(a, b), a) && Within(Cut(a, b), b)
  {
  }

  lemma WithinMeet(m: bv64, a: bv64, b: bv64)
    requires Within(m, a) && Within(m, b)
    ensures Within(m, Cut(a, b))
  {
  }

  /** Shifting a mask left makes it smaller and keeps it inside itself. */
  lemma ShiftMask(m: bv64, x: bv64, y: bv64)
    requires IsMask(m) && !Agree(x, y, m)
    ensures IsMask(Shift(m)) && Shift(m) < m && Within(Shift(m), m)
  {
  }

  lemma AgreeCut(a: bv64, b: bv64, m: bv64)
    requires Agree(a, b, m)
    ensures Cut(b, m) == Cut(a, m)
  {
  }

  /** A mask under which two addresses agree lies properly inside one under which they differ. */
  lemma Finer(a: bv64, b: bv64, m: bv64, mask: bv64)
    requires IsMask(m) && IsMask(mask) && Within(m, mask) && Agree(a, b, m) && !Agree(a, b, mask)
    ensures Within(m, Shift(mask))
  {
  }

  lemma WithinSelf(m: bv64)
    ensures Within(m, m)
  {
  }

  /** A region contains every address of a mapping it covers. */
  lemma CoversAll(flushAddr: bv64, flushMask: bv64, vaddr: bv64, size: bv64, addr: bv64)
    requires Covers(flushAddr, flushMask, vaddr, size) && InMapping(vaddr, size, addr)
    ensures InRegion(flushAddr, flushMask, addr)
  {
    hide Cut, Within, MaskOf;
    CutWithin(vaddr, flushMask, MaskOf(size));
    CutWithin(addr, flushMask, MaskOf(size));
  }

  /** A region cut down to a coarser mask covers what it covered. */
  lemma CoversCoarser(flushAddr: bv64, flushMask: bv64, vaddr: bv64, size: bv64, mask: bv64)
    requires Covers(flushAddr, flushMask, vaddr, size) && Within(mask, flushMask)
    ensures Covers(Cut(flushAddr, mask), mask, vaddr, size)
  {
    hide Cut, Within, MaskOf;
    WithinTrans(mask, flushMask, MaskOf(size));
    CutWithin(vaddr, mask, flushMask);
  }

  /** A small mapping is just its page. */
  lemma PageMapping(vaddr: bv64, addr: bv64)
    requires Cut(vaddr, PAGE_MASK) == vaddr && InMapping(vaddr, PAGE_SIZE, addr)
    ensures vaddr == Cut(addr, PAGE_MASK)
  {
    hide MaskOf, Cut;
    PageMask();
  }

  lemma PageMask()
    ensures MaskOf(PAGE_SIZE) == PAGE_MASK
  {
    assert !(0x1000 - 1) == 0xffff_ffff_ffff_f000 as bv64;
  }

  // ------------------------------------------------------------------------------------------
  // Entries

  datatype Entry = Entry(addrRead: bv64, addrWrite: bv64, addrCode: bv64)

  const BLANK: Entry := Entry(ONES, ONES, ONES)

  /** A comparator is absent, or the page address with flag bits. */
  predicate FieldOk(x: bv64, vaddr: bv64) {
    x == ONES || x & !(TLB_NOTDIRTY | TLB_MMIO) == vaddr
  }

  predicate EntryOk(e: Entry, vaddr: bv64) {
    && Cut(vaddr, PAGE_MASK) == vaddr
    && FieldOk(e.addrRead, vaddr) && FieldOk(e.addrWrite, vaddr) && FieldOk(e.addrCode, vaddr)
  }

  /** tlb_flush_entry. */
  function FlushEntry(e: Entry, addr: bv64): Entry {
    if addr == Tag(e.addrRead) || addr == Tag(e.addrWrite) || addr == Tag(e.addrCode) then BLANK else e
  }

  /** What a comparator is compared by: the page address and the invalid bit. */
  function Tag(x: bv64): bv64 {
    x & (PAGE_MASK | TLB_INVALID)
  }

  lemma FieldPage(x: bv64, vaddr: bv64)
    requires FieldOk(x, vaddr) && x != ONES && Cut(vaddr, PAGE_MASK) == vaddr
    ensures Tag(x) == vaddr
  {
    FieldBits(x, vaddr);
  }

  lemma FieldBits(x: bv64, vaddr: bv64)
    requires x & !(TLB_NOTDIRTY | TLB_MMIO) == vaddr && Cut(vaddr, PAGE_MASK) == vaddr
    ensures x & (PAGE_MASK | TLB_INVALID) == vaddr
  {
  }

  /** An entry for a page does not survive the flush of that page. */
  lemma FlushEntryGone(e: Entry, vaddr: bv64)
    requires EntryOk(e, vaddr)
    ensures FlushEntry(e, vaddr) == BLANK
  {
    hide FieldOk, Tag;
    if e.addrRead != ONES { FieldPage(e.addrRead, vaddr); }
    if e.addrWrite != ONES { FieldPage(e.addrWrite, vaddr); }
    if e.addrCode != ONES { FieldPage(e.addrCode, vaddr); }
  }

  /** An entry for another page is left alone. */
  lemma FlushEntryOther(e: Entry, vaddr: bv64, page: bv64)
    requires EntryOk(e, vaddr) && vaddr != page && Cut(page, PAGE_MASK) == page
    ensures FlushEntry(e, page) == e
  {
    hide FieldOk, Tag, Cut;
    TagOfOnes(page);
    if e.addrRead != ONES { FieldPage(e.addrRead, vaddr); }
    if e.addrWrite != ONES { FieldPage(e.addrWrite, vaddr); }
    if e.addrCode != ONES { FieldPage(e.addrCode, vaddr); }
  }

  lemma TagOfOnes(page: bv64)
    requires Cut(page, PAGE_MASK) == page
    ensures Tag(ONES) != page
  {
  }

  /** The slot of the main table for a page. */
  function Index(vaddr: bv64): nat { Low(vaddr) as nat }

  function Low(vaddr: bv64): bv8 { ((vaddr >> 12) & 0xff) as bv8 }

  lemma IndexBound(vaddr: bv64)
    ensures Index(vaddr) < CPU_TLB_SIZE
  {
    hide Low;
    NumberBound(Low(vaddr));
  }

  lemma NumberBound(x: bv8)
    ensures x as nat < 256
  {
  }

  lemma Numbers(x: bv8, y: bv8)
    ensures x != y ==> x as nat != y as nat
  {
  }

  lemma LowSame(a: bv64, b: bv64)
    ensures Low(a) == Low(b) <==> (a ^ b) & 0xff000 == 0
  {
  }

  /** Two addresses share a slot exactly if the low eight bits of their page numbers agree. */
  lemma IndexSame(a: bv64, b: bv64)
    ensures Index(a) == Index(b) <==> (a ^ b) & 0xff000 == 0
  {
    hide Low;
    LowSame(a, b);
    Numbers(Low(a), Low(b));
  }

  // ------------------------------------------------------------------------------------------
  // The tables

  /** A call of tlb_set_page: the page, the size of the guest mapping around it and its I/O address. */
  datatype Mapping = Mapping(vaddr: bv64, size: bv64, iotlb: Word)

  /** A 64-bit number that is only added up. */
  type Word = x: int | 0 <= x < 0x1_0000_0000_0000_0000

  function Number(x: bv64): nat { x as nat }

  /** What the I/O slot stores: the I/O address relative to the page. */
  function IoOffset(p: Mapping): Word { (p.iotlb - Number(p.vaddr)) % 0x1_0000_0000_0000_0000 }

  /** Adding the page address to the slot's value gives the I/O address. */
  predicate IoAddress(io: Word, p: Mapping) { (io + Number(p.vaddr)) % 0x1_0000_0000_0000_0000 == p.iotlb }

  lemma IoIs(p: Mapping)
    ensures IoAddress(IoOffset(p), p)
  {
    hide Number;
  }

  type Slot = (nat, nat)

  /** The victim table's origins after the entry of a main slot has moved to a victim slot. */
  function Moved(from: map<Slot, Mapping>, slot: Slot, fromV: map<Slot, Mapping>, victim: Slot): map<Slot, Mapping> {
    if slot in from then fromV[victim := from[slot]] else fromV
  }

  /** An entry in use came from this mapping, with its I/O slot beside it. */
  ghost predicate Backed(e: Entry, io: Word, src: Mapping, large: set<Mapping>) {
    && EntryOk(e, src.vaddr) && SizeOk(src.size) && io == IoOffset(src)
    && (src.size != PAGE_SIZE ==> src in large)
  }

  /** The entry is in use and its page is that of the address. */
  ghost predicate Cleared(e: Entry, from: map<Slot, Mapping>, slot: Slot, addr: bv64) {
    e != BLANK && slot in from && from[slot].vaddr == Cut(addr, PAGE_MASK)
  }

  /** Flushing a page clears an entry exactly if it is of that page. */
  lemma FlushExact(e: Entry, io: Word, from: map<Slot, Mapping>, slot: Slot, large: set<Mapping>, addr: bv64)
    requires e == BLANK || (slot in from && Backed(e, io, from[slot], large))
    ensures FlushEntry(e, Cut(addr, PAGE_MASK)) == if Cleared(e, from, slot, addr) then BLANK else e
  {
    hide FlushEntry, Cut, SizeOk, FieldOk;
    if e == BLANK {
      BlankStays(Cut(addr, PAGE_MASK));
    } else if Cleared(e, from, slot, addr) {
      FlushEntryGone(e, from[slot].vaddr);
    } else {
      CutTwice(addr);
      FlushEntryOther(e, from[slot].vaddr, Cut(addr, PAGE_MASK));
    }
  }

  lemma BlankStays(page: bv64)
    ensures FlushEntry(BLANK, page) == BLANK
  {
  }

  lemma CutTwice(addr: bv64)
    ensures Cut(Cut(addr, PAGE_MASK), PAGE_MASK) == Cut(addr, PAGE_MASK)
  {
  }

  /** The flush region: unset, or an aligned region that covers every large page. */
  ghost predicate RegionOk(flushAddr: bv64, flushMask: bv64, large: set<Mapping>) {
    && (flushAddr == ONES ==> flushMask == 0 && large == {})
    && (flushAddr != ONES ==> IsMask(flushMask) && Even(flushMask))
    && (forall p :: p in large ==> Covers(flushAddr, flushMask, p.vaddr, p.size))
  }

  class SoftTlb {
    const modes: nat
    const table: array2<Entry>
    const vTable: array2<Entry>
    const iotlb: array2<Word>
    const iotlbV: array2<Word>
    var vtlbIndex: nat
    var flushAddr: bv64
    var flushMask: bv64
    ghost var from: map<Slot, Mapping>
    ghost var fromV: map<Slot, Mapping>
    ghost var large: set<Mapping>

    ghost predicate MainOk(m: nat, i: nat)
      requires m < table.Length0 == iotlb.Length0 && i < table.Length1 == iotlb.Length1
      reads this`from, this`large, table, iotlb
    {
      table[m, i] == BLANK
      || ((m, i) in from && Backed(table[m, i], iotlb[m, i], from[(m, i)], large) && Index(from[(m, i)].vaddr) == i)
    }

    ghost predicate VictimOk(m: nat, k: nat)
      requires m < vTable.Length0 == iotlbV.Length0 && k < vTable.Length1 == iotlbV.Length1
      reads this`fromV, this`large, vTable, iotlbV
    {
      vTable[m, k] == BLANK || ((m, k) in fromV && Backed(vTable[m, k], iotlbV[m, k], fromV[(m, k)], large))
    }

    ghost predicate Shape()
    {
      && table != vTable && iotlb != iotlbV && (table as object) != iotlb && (table as object) != iotlbV
      && (vTable as object) != iotlb && (vTable as object) != iotlbV
      && table.Length0 == vTable.Length0 == iotlb.Length0 == iotlbV.Length0 == modes
      && table.Length1 == iotlb.Length1 == CPU_TLB_SIZE && vTable.Length1 == iotlbV.Length1 == CPU_VTLB_SIZE
    }

    ghost predicate Valid()
      reads this`from, this`fromV, this`large, this`flushAddr, this`flushMask, table, vTable, iotlb, iotlbV
    {
      Shape() && RegionOk(flushAddr, flushMask, large) && MainsOk() && VictimsOk()
    }

    ghost predicate MainsOk()
      requires Shape()
      reads this`from, this`large, table, iotlb
    {
      forall m: nat, i: nat :: m < modes && i < CPU_TLB_SIZE ==> MainOk(m, i)
    }

    ghost predicate VictimsOk()
      requires Shape()
      reads this`fromV, this`large, vTable, iotlbV
    {
      forall m: nat, k: nat :: m < modes && k < CPU_VTLB_SIZE ==> VictimOk(m, k)
    }

    /** No entry, main or victim, comes from a mapping that contains addr. */
    ghost predicate Forgotten(addr: bv64)
      requires Shape()
      reads this`from, this`fromV, table, vTable
    {
      ForgottenMain(addr) && ForgottenVictims(addr)
    }

    ghost predicate ForgottenMain(addr: bv64)
      requires Shape()
      reads this`from, table
    {
      forall m: nat, i: nat :: m < modes && i < CPU_TLB_SIZE && table[m, i] != BLANK ==>
        (m, i) in from && !InMapping(from[(m, i)].vaddr, from[(m, i)].size, addr)
    }

    ghost predicate ForgottenVictims(addr: bv64)
      requires Shape()
      reads this`fromV, vTable
    {
      forall m: nat, k: nat :: m < modes && k < CPU_VTLB_SIZE && vTable[m, k] != BLANK ==>
        (m, k) in fromV && !InMapping(fromV[(m, k)].vaddr, fromV[(m, k)].size, addr)
    }

    constructor (modes: nat)
      ensures Valid() && this.modes == modes && large == {} && forall addr :: Forgotten(addr)
      ensures fresh(table) && fresh(vTable) && fresh(iotlb) && fresh(iotlbV)
    {
      this.modes := modes;
      table, vTable := new Entry[modes, CPU_TLB_SIZE], new Entry[modes, CPU_VTLB_SIZE];
      iotlb, iotlbV := new Word[modes, CPU_TLB_SIZE], new Word[modes, CPU_VTLB_SIZE];
      vtlbIndex, flushAddr, flushMask, from, fromV, large := 0, ONES, 0, map[], map[], {};
      new;
      Flush();
    }

    /** tlb_flush. */
    method Flush()
      requires Shape()
      modifies this`vtlbIndex, this`flushAddr, this`flushMask, this`large, table, vTable
      ensures Valid() && large == {} && flushAddr == ONES && vtlbIndex == 0
      ensures forall addr :: Forgotten(addr)
      ensures forall m, i :: 0 <= m < modes && 0 <= i < CPU_TLB_SIZE ==> table[m, i] == BLANK
      ensures forall m, k :: 0 <= m < modes && 0 <= k < CPU_VTLB_SIZE ==> vTable[m, k] == BLANK
    {
      forall m, i | 0 <= m < table.Length0 && 0 <= i < table.Length1 { table[m, i] := BLANK; }
      forall m, k | 0 <= m < vTable.Length0 && 0 <= k < vTable.Length1 { vTable[m, k] := BLANK; }
      vtlbIndex := 0;
      flushAddr, flushMask := ONES, 0;
      large := {};
    }

    /** tlb_add_large_page: the region grows until it covers the new page as well. */
    method AddLargePage(p: Mapping)
      requires RegionOk(flushAddr, flushMask, large) && SizeOk(p.size)
      modifies this`flushAddr, this`flushMask, this`large
      ensures RegionOk(flushAddr, flushMask, large) && large == old(large) + {p}
      ensures old(flushAddr) == ONES ==> flushMask == MaskOf(p.size)
      ensures old(flushAddr) != ONES ==>
        forall m | IsMask(m) && Within(m, old(flushMask)) && Within(m, MaskOf(p.size)) ::
          Agree(old(flushAddr), p.vaddr, m) ==> Within(m, flushMask)
    {
      hide Covers, Cut, Within, Even, IsMask, Agree, SizeOk, MaskOf;
      var mask := MaskOf(p.size);
      SizeMask(p.size);
      if flushAddr == ONES {
        CoversNew(p.vaddr, p.vaddr, p.size, mask);
        CutEven(p.vaddr, mask);
        flushAddr := Cut(p.vaddr, mask);
        flushMask := mask;
        large := large + {p};
        return;
      }
      var meet := Cut(mask, flushMask);
      MaskMeet(mask, flushMask);
      mask := GrowMask(flushAddr, p.vaddr, meet);
      WithinTrans(mask, meet, flushMask);
      WithinTrans(mask, meet, MaskOf(p.size));
      forall m | IsMask(m) && Within(m, flushMask) && Within(m, MaskOf(p.size)) && Agree(flushAddr, p.vaddr, m)
        ensures Within(m, mask)
      {
        WithinMeet(m, MaskOf(p.size), flushMask);
      }
      WithinEven(mask, flushMask);
      CutEven(flushAddr, mask);
      CoversNew(flushAddr, p.vaddr, p.size, mask);
      forall q | q in large ensures Covers(Cut(flushAddr, mask), mask, q.vaddr, q.size) {
        CoversCoarser(flushAddr, flushMask, q.vaddr, q.size, mask);
      }
      flushAddr := Cut(flushAddr, mask);
      flushMask := mask;
      large := large + {p};
    }

    /** tlb_flush_page. */
    method FlushPage(addr: bv64)
      requires Valid()
      modifies this`vtlbIndex, this`flushAddr, this`flushMask, this`large, table, vTable
      ensures Valid() && Forgotten(addr)
      ensures forall m, i :: 0 <= m < modes && 0 <= i < CPU_TLB_SIZE ==>
        table[m, i] == if old(InRegion(flushAddr, flushMask, addr)) || Cleared(old(table[m, i]), from, (m, i), addr)
                       then BLANK else old(table[m, i])
      ensures forall m, k :: 0 <= m < modes && 0 <= k < CPU_VTLB_SIZE ==>
        vTable[m, k] == if old(InRegion(flushAddr, flushMask, addr)) || Cleared(old(vTable[m, k]), fromV, (m, k), addr)
                        then BLANK else old(vTable[m, k])
      ensures if old(InRegion(flushAddr, flushMask, addr)) then flushAddr == ONES && vtlbIndex == 0
              else unchanged(this)
    {
      hide Cut, InRegion, InMapping, Index, Tag, EntryOk, SizeOk, Covers, IsMask, Even, RegionOk;
      if InRegion(flushAddr, flushMask, addr) {
        Flush();
        return;
      }
      FlushOnePage(addr);
    }

    /** The part of tlb_flush_page for an address outside the flush region. */
    method FlushOnePage(addr: bv64)
      requires Valid() && !InRegion(flushAddr, flushMask, addr)
      modifies table, vTable
      ensures Valid() && Forgotten(addr)
      ensures forall m, i :: 0 <= m < modes && 0 <= i < CPU_TLB_SIZE ==>
        table[m, i] == if Cleared(old(table[m, i]), from, (m, i), addr) then BLANK else old(table[m, i])
      ensures forall m, k :: 0 <= m < modes && 0 <= k < CPU_VTLB_SIZE ==>
        vTable[m, k] == if Cleared(old(vTable[m, k]), fromV, (m, k), addr) then BLANK else old(vTable[m, k])
    {
      hide Cut, InRegion, InMapping, Index, Tag, EntryOk, SizeOk, Covers, IsMask, Even, RegionOk;
      var page := Cut(addr, PAGE_MASK);
      var i := Index(page);
      IndexBound(page);
      FlushMain(page, i);
      FlushVictims(page);
      forall m: nat, j: nat | m < modes && j < CPU_TLB_SIZE
        ensures MainOk(m, j)
        ensures table[m, j] != BLANK ==> (m, j) in from && !InMapping(from[(m, j)].vaddr, from[(m, j)].size, addr)
        ensures table[m, j] == if Cleared(old(table[m, j]), from, (m, j), addr) then BLANK else old(table[m, j])
      {
        assert old(MainOk(m, j));
        FlushExact(old(table[m, j]), iotlb[m, j], from, (m, j), large, addr);
        if table[m, j] != BLANK {
          Survives(old(table[m, j]), iotlb[m, j], from[(m, j)], flushAddr, flushMask, large, addr);
        }
      }
      forall m: nat, k: nat | m < modes && k < CPU_VTLB_SIZE
        ensures VictimOk(m, k)
        ensures vTable[m, k] != BLANK ==> (m, k) in fromV && !InMapping(fromV[(m, k)].vaddr, fromV[(m, k)].size, addr)
        ensures vTable[m, k] == if Cleared(old(vTable[m, k]), fromV, (m, k), addr) then BLANK else old(vTable[m, k])
      {
        assert old(VictimOk(m, k));
        FlushExact(old(vTable[m, k]), iotlbV[m, k], fromV, (m, k), large, addr);
        if vTable[m, k] != BLANK {
          Survives(old(vTable[m, k]), iotlbV[m, k], fromV[(m, k)], flushAddr, flushMask, large, addr);
        }
      }
    }

    method FlushMain(page: bv64, i: nat)
      requires Shape() && i < CPU_TLB_SIZE
      modifies table
      ensures forall m, j :: 0 <= m < modes && 0 <= j < CPU_TLB_SIZE ==>
        table[m, j] == if j == i then FlushEntry(old(table[m, j]), page) else old(table[m, j])
    {
      hide FlushEntry;
      for mmuIdx := 0 to modes
        invariant forall m, j :: 0 <= m < modes && 0 <= j < CPU_TLB_SIZE ==>
          table[m, j] == if j == i && m < mmuIdx then FlushEntry(old(table[m, j]), page) else old(table[m, j])
      {
        table[mmuIdx, i] := FlushEntry(table[mmuIdx, i], page);
      }
    }

    method FlushVictims(page: bv64)
      requires Shape()
      modifies vTable
      ensures forall m, k :: 0 <= m < modes && 0 <= k < CPU_VTLB_SIZE ==>
          vTable[m, k] == FlushEntry(old(vTable[m, k]), page)
    {
      hide FlushEntry;
      for mmuIdx := 0 to modes
        invariant forall m, k :: 0 <= m < modes && 0 <= k < CPU_VTLB_SIZE ==>
          vTable[m, k] == if m < mmuIdx then FlushEntry(old(vTable[m, k]), page) else old(vTable[m, k])
      {
        for v := 0 to CPU_VTLB_SIZE
          invariant forall m, k :: 0 <= m < modes && 0 <= k < CPU_VTLB_SIZE ==>
            vTable[m, k] == if m < mmuIdx || (m == mmuIdx && k < v) then FlushEntry(old(vTable[m, k]), page)
                else old(vTable[m, k])
        {
          vTable[mmuIdx, v] := FlushEntry(vTable[mmuIdx, v], page);
        }
      }
    }

    /** tlb_set_page_with_attrs. The section the address translates to decides the flags: io (not RAM or
        ROM), watched, writeTrap (ROM) and clean (RAM without pending writes). */
    method SetPage(p: Mapping, mmuIdx: nat, prot: Prot, io: bool, watched: bool, writeTrap: bool, clean: bool)
      requires Valid() && mmuIdx < modes && Cut(p.vaddr, PAGE_MASK) == p.vaddr && SizeOk(p.size)
      modifies this`vtlbIndex, this`flushAddr, this`flushMask, this`large, this`from, this`fromV, table, vTable, iotlb,
          iotlbV
      ensures Valid()
      ensures forall addr :: old(Forgotten(addr)) && !InMapping(p.vaddr, p.size, addr) ==> Forgotten(addr)
      ensures vtlbIndex == old(vtlbIndex) + 1
      ensures large == if p.size != PAGE_SIZE then old(large) + {p} else old(large)
      ensures Index(p.vaddr) < CPU_TLB_SIZE
      ensures from == old(from)[(mmuIdx, Index(p.vaddr)) := p]
      ensures fromV == Moved(old(from), (mmuIdx, Index(p.vaddr)), old(fromV), (mmuIdx, old(vtlbIndex) % CPU_VTLB_SIZE))
      ensures Grants(table[mmuIdx, Index(p.vaddr)], p.vaddr, prot, io, watched, writeTrap, clean)
      ensures IoAddress(iotlb[mmuIdx, Index(p.vaddr)], p)
      ensures vTable[mmuIdx, old(vtlbIndex) % CPU_VTLB_SIZE] == old(table[mmuIdx, Index(p.vaddr)])
      ensures iotlbV[mmuIdx, old(vtlbIndex) % CPU_VTLB_SIZE] == old(iotlb[mmuIdx, Index(p.vaddr)])
      ensures forall m, i :: 0 <= m < modes && 0 <= i < CPU_TLB_SIZE && (m, i) != (mmuIdx, Index(p.vaddr)) ==>
        table[m, i] == old(table[m, i]) && iotlb[m, i] == old(iotlb[m, i])
      ensures forall m, k :: 0 <= m < modes && 0 <= k < CPU_VTLB_SIZE ==>
        || (m, k) == (mmuIdx, old(vtlbIndex) % CPU_VTLB_SIZE)
        || (vTable[m, k] == old(vTable[m, k]) && iotlbV[m, k] == old(iotlbV[m, k]))
    {
      hide Cut, Index, EntryOk, SizeOk, RegionOk, Fill, Backed, InMapping, Grants, IoAddress, IoOffset;
      var vidx := vtlbIndex % CPU_VTLB_SIZE;
      if p.size != PAGE_SIZE {
        NoteLargePage(p);
      }
      vtlbIndex := vtlbIndex + 1;
      IndexBound(p.vaddr);
      FillOk(p.vaddr, prot, io, watched, writeTrap, clean);
      BackedFill(Fill(p.vaddr, prot, io, watched, writeTrap, clean), p, large);
      Refill(p, mmuIdx, Index(p.vaddr), vidx, Fill(p.vaddr, prot, io, watched, writeTrap, clean), IoOffset(p));
      FillGrants(p.vaddr, prot, io, watched, writeTrap, clean);
      IoIs(p);
    }

    /** tlb_add_large_page leaves the entries alone. */
    method NoteLargePage(p: Mapping)
      requires Valid() && SizeOk(p.size)
      modifies this`flushAddr, this`flushMask, this`large
      ensures Valid() && large == old(large) + {p}
    {
      hide Index, SizeOk, RegionOk, Backed;
      AddLargePage(p);
      forall m: nat, i: nat | m < modes && i < CPU_TLB_SIZE ensures MainOk(m, i) {
        assert old(MainOk(m, i));
        if table[m, i] != BLANK { BackedMore(table[m, i], iotlb[m, i], from[(m, i)], old(large), large); }
      }
      forall m: nat, k: nat | m < modes && k < CPU_VTLB_SIZE ensures VictimOk(m, k) {
        assert old(VictimOk(m, k));
        if vTable[m, k] != BLANK { BackedMore(vTable[m, k], iotlbV[m, k], fromV[(m, k)], old(large), large); }
      }
    }

    /** The old entry goes to the victim table and the new one takes its slot. */
    method Refill(ghost p: Mapping, mmuIdx: nat, index: nat, vidx: nat, te: Entry, io: Word)
      requires Valid() && mmuIdx < modes && index == Index(p.vaddr) < CPU_TLB_SIZE && vidx < CPU_VTLB_SIZE
      requires Backed(te, io, p, large)
      modifies this`from, this`fromV, table, vTable, iotlb, iotlbV
      ensures Valid()
      ensures forall addr :: old(Forgotten(addr)) && !InMapping(p.vaddr, p.size, addr) ==> Forgotten(addr)
      ensures from == old(from)[(mmuIdx, index) := p] && table[mmuIdx, index] == te
      ensures vTable[mmuIdx, vidx] == old(table[mmuIdx, index]) && iotlbV[mmuIdx, vidx] == old(iotlb[mmuIdx, index])
      ensures iotlb[mmuIdx, index] == io && fromV == Moved(old(from), (mmuIdx, index), old(fromV), (mmuIdx, vidx))
      ensures forall m, i :: 0 <= m < modes && 0 <= i < CPU_TLB_SIZE && (m != mmuIdx || i != index) ==>
        table[m, i] == old(table[m, i]) && iotlb[m, i] == old(iotlb[m, i])
      ensures forall m, k :: 0 <= m < modes && 0 <= k < CPU_VTLB_SIZE && (m != mmuIdx || k != vidx) ==>
        vTable[m, k] == old(vTable[m, k]) && iotlbV[m, k] == old(iotlbV[m, k])
    {
      hide Index, RegionOk, Backed, InMapping, VictimsOk, ForgottenVictims;
      assert MainOk(mmuIdx, index);
      Evict(mmuIdx, index, vidx);
      Replace(p, mmuIdx, index, te, io);
    }

    method Replace(ghost p: Mapping, mmuIdx: nat, index: nat, te: Entry, io: Word)
      requires Shape() && MainsOk() && mmuIdx < modes && index == Index(p.vaddr) < CPU_TLB_SIZE
      requires Backed(te, io, p, large)
      modifies this`from, table, iotlb
      ensures MainsOk()
      ensures forall addr :: old(ForgottenMain(addr)) && !InMapping(p.vaddr, p.size, addr) ==> ForgottenMain(addr)
      ensures from == old(from)[(mmuIdx, index) := p] && table[mmuIdx, index] == te && iotlb[mmuIdx, index] == io
      ensures forall m, i :: 0 <= m < modes && 0 <= i < CPU_TLB_SIZE && (m != mmuIdx || i != index) ==>
        table[m, i] == old(table[m, i]) && iotlb[m, i] == old(iotlb[m, i])
    {
      hide Index, Backed, InMapping;
      iotlb[mmuIdx, index] := io;
      table[mmuIdx, index] := te;
      from := from[(mmuIdx, index) := p];
      forall m: nat, i: nat | m < modes && i < CPU_TLB_SIZE ensures MainOk(m, i) { assert old(MainOk(m, i)); }
    }

    method Evict(mmuIdx: nat, index: nat, vidx: nat)
      requires Shape() && VictimsOk() && mmuIdx < modes && index < CPU_TLB_SIZE && vidx < CPU_VTLB_SIZE
      requires MainOk(mmuIdx, index)
      modifies this`fromV, vTable, iotlbV
      ensures VictimsOk() && fromV == Moved(from, (mmuIdx, index), old(fromV), (mmuIdx, vidx))
      ensures forall addr :: ForgottenMain(addr) && old(ForgottenVictims(addr)) ==> ForgottenVictims(addr)
      ensures vTable[mmuIdx, vidx] == table[mmuIdx, index] && iotlbV[mmuIdx, vidx] == iotlb[mmuIdx, index]
      ensures forall m, k :: 0 <= m < modes && 0 <= k < CPU_VTLB_SIZE && (m != mmuIdx || k != vidx) ==>
        vTable[m, k] == old(vTable[m, k]) && iotlbV[m, k] == old(iotlbV[m, k])
    {
      hide Index, Backed, InMapping;
      vTable[mmuIdx, vidx] := table[mmuIdx, index];
      iotlbV[mmuIdx, vidx] := iotlb[mmuIdx, index];
      if (mmuIdx, index) in from { fromV := fromV[(mmuIdx, vidx) := from[(mmuIdx, index)]]; }
      forall m: nat, k: nat | m < modes && k < CPU_VTLB_SIZE ensures VictimOk(m, k) { assert old(VictimOk(m, k)); }
    }

    /** victim_tlb_hit, called with the slot of the page. */
    method VictimTlbHit(mmuIdx: nat, index: nat, access: Access, page: bv64) returns (hit: bool, ghost vidx: nat)
      requires Valid() && mmuIdx < modes && Cut(page, PAGE_MASK) == page && index == Index(page) < CPU_TLB_SIZE
      modifies this`from, this`fromV, table, vTable, iotlb, iotlbV
      ensures Valid() && forall addr :: old(Forgotten(addr)) ==> Forgotten(addr)
      ensures hit <==> exists k :: 0 <= k < CPU_VTLB_SIZE && Field(old(vTable[mmuIdx, k]), access) == page
      ensures !hit ==> unchanged(this, table, vTable, iotlb, iotlbV)
      ensures hit ==>
        && vidx < CPU_VTLB_SIZE && Field(table[mmuIdx, index], access) == page
        && table[mmuIdx, index] == old(vTable[mmuIdx, vidx]) && vTable[mmuIdx, vidx] == old(table[mmuIdx, index])
        && iotlb[mmuIdx, index] == old(iotlbV[mmuIdx, vidx]) && iotlbV[mmuIdx, vidx] == old(iotlb[mmuIdx, index])
        && (mmuIdx, vidx) in old(fromV) && from == old(from)[(mmuIdx, index) := old(fromV)[(mmuIdx, vidx)]]
        && fromV == Moved(old(from), (mmuIdx, index), old(fromV), (mmuIdx, vidx))
      ensures forall m, i :: 0 <= m < modes && 0 <= i < CPU_TLB_SIZE && (m != mmuIdx || i != index) ==>
        table[m, i] == old(table[m, i]) && iotlb[m, i] == old(iotlb[m, i])
      ensures forall m, k :: 0 <= m < modes && 0 <= k < CPU_VTLB_SIZE && (m != mmuIdx || k != vidx) ==>
        vTable[m, k] == old(vTable[m, k]) && iotlbV[m, k] == old(iotlbV[m, k])
    {
      hide Cut, Index, EntryOk, SizeOk, Covers, IsMask, Even, RegionOk, Field;
      vidx := 0;
      for v := 0 to CPU_VTLB_SIZE
        invariant unchanged(this, table, vTable, iotlb, iotlbV)
        invariant forall k :: 0 <= k < v ==> Field(vTable[mmuIdx, k], access) != page
      {
        if Field(vTable[mmuIdx, v], access) == page {
          Swap(mmuIdx, index, access, page, v);
          return true, v;
        }
      }
      hit := false;
    }

    /** The exchange of a main entry and a victim entry for the same slot. */
    method Swap(mmuIdx: nat, index: nat, access: Access, page: bv64, v: nat)
      requires Valid() && mmuIdx < modes && v < CPU_VTLB_SIZE && Cut(page, PAGE_MASK) == page
      requires index == Index(page) < CPU_TLB_SIZE
      requires Field(vTable[mmuIdx, v], access) == page
      modifies this`from, this`fromV, table, vTable, iotlb, iotlbV
      ensures Valid() && forall addr :: old(Forgotten(addr)) ==> Forgotten(addr)
      ensures table[mmuIdx, index] == old(vTable[mmuIdx, v]) && vTable[mmuIdx, v] == old(table[mmuIdx, index])
      ensures iotlb[mmuIdx, index] == old(iotlbV[mmuIdx, v]) && iotlbV[mmuIdx, v] == old(iotlb[mmuIdx, index])
      ensures (mmuIdx, v) in old(fromV) && from == old(from)[(mmuIdx, index) := old(fromV)[(mmuIdx, v)]]
      ensures fromV == Moved(old(from), (mmuIdx, index), old(fromV), (mmuIdx, v))
      ensures forall m, i :: 0 <= m < modes && 0 <= i < CPU_TLB_SIZE && (m != mmuIdx || i != index) ==>
        table[m, i] == old(table[m, i]) && iotlb[m, i] == old(iotlb[m, i])
      ensures forall m, k :: 0 <= m < modes && 0 <= k < CPU_VTLB_SIZE && (m != mmuIdx || k != v) ==>
        vTable[m, k] == old(vTable[m, k]) && iotlbV[m, k] == old(iotlbV[m, k])
    {
      hide Cut, Index, RegionOk, Field, Backed, InMapping;
      assert VictimOk(mmuIdx, v) && MainOk(mmuIdx, index);
      HitPage(vTable[mmuIdx, v], access, page);
      ghost var src := fromV[(mmuIdx, v)];
      BackedHit(vTable[mmuIdx, v], iotlbV[mmuIdx, v], src, large, access, page);
      Refill(src, mmuIdx, index, v, vTable[mmuIdx, v], iotlbV[mmuIdx, v]);
    }
  }

  /** An entry whose mapping contains the flushed address, outside the flush region, is for that very page
      and does not survive. */
  lemma Survives(e: Entry, io: Word, src: Mapping, flushAddr: bv64, flushMask: bv64, large: set<Mapping>, addr: bv64)
    requires Backed(e, io, src, large) && RegionOk(flushAddr, flushMask, large) && !InRegion(flushAddr, flushMask, addr)
    ensures InMapping(src.vaddr, src.size, addr) ==>
      src.vaddr == Cut(addr, PAGE_MASK) && FlushEntry(e, Cut(addr, PAGE_MASK)) == BLANK
  {
    hide InMapping, InRegion, Covers, Cut, FlushEntry, SizeOk, IsMask, Even, FieldOk;
    if InMapping(src.vaddr, src.size, addr) {
      if src in large { CoversAll(flushAddr, flushMask, src.vaddr, src.size, addr); }
      PageMapping(src.vaddr, addr);
      FlushEntryGone(e, src.vaddr);
    }
  }

  datatype Prot = Prot(read: bool, write: bool, exec: bool)

  datatype Access = Read | Write | Code

  function Field(e: Entry, access: Access): bv64 {
    match access
    case Read => e.addrRead
    case Write => e.addrWrite
    case Code => e.addrCode
  }

  function Flags(mmio: bool, notDirty: bool): bv64 {
    if mmio then (if notDirty then TLB_MMIO | TLB_NOTDIRTY else TLB_MMIO) else if notDirty then TLB_NOTDIRTY else 0
  }

  function Flagged(vaddr: bv64, mmio: bool, notDirty: bool): bv64 {
    vaddr | Flags(mmio, notDirty)
  }

  /** The three comparators of a new entry. */
  function Fill(vaddr: bv64, prot: Prot, io: bool, watched: bool, writeTrap: bool, clean: bool): Entry {
    Entry(
      if prot.read then Flagged(vaddr, io || watched, false) else ONES,
      if prot.write then Flagged(vaddr, io || watched || writeTrap, clean && !writeTrap) else ONES,
      if prot.exec then Flagged(vaddr, io, false) else ONES)
  }

  predicate Permits(prot: Prot, access: Access) {
    match access
    case Read => prot.read
    case Write => prot.write
    case Code => prot.exec
  }

  /** Which accesses go to the I/O callbacks: all to I/O memory, reads and writes to a watched page, and writes to
      ROM. */
  predicate Traps(access: Access, io: bool, watched: bool, writeTrap: bool) {
    io || (watched && access != Code) || (writeTrap && access == Write)
  }

  /** The comparator lets an access to this page through, perhaps to the slow path. */
  predicate Matches(x: bv64, vaddr: bv64) { x & (PAGE_MASK | TLB_INVALID) == vaddr }

  /** The page with these two flags and no other bit. */
  predicate Carries(x: bv64, vaddr: bv64, mmio: bool, notDirty: bool) {
    && (x & TLB_MMIO != 0 <==> mmio) && (x & TLB_NOTDIRTY != 0 <==> notDirty)
    && x & !(TLB_NOTDIRTY | TLB_MMIO) == vaddr
  }

  /** The comparator of an access matches the page if and only if the protection permits the access, and then
      carries exactly the flags the section asks for. */
  ghost predicate Grants(e: Entry, vaddr: bv64, prot: Prot, io: bool, watched: bool, writeTrap: bool, clean: bool) {
    forall access ::
      && (Matches(Field(e, access), vaddr) <==> Permits(prot, access))
      && (if Permits(prot, access)
          then Carries(Field(e, access), vaddr, Traps(access, io, watched, writeTrap),
                       access == Write && clean && !writeTrap)
          else Field(e, access) == ONES)
  }

  lemma FlaggedMeans(vaddr: bv64, mmio: bool, notDirty: bool)
    requires Cut(vaddr, PAGE_MASK) == vaddr
    ensures Matches(Flagged(vaddr, mmio, notDirty), vaddr)
    ensures Carries(Flagged(vaddr, mmio, notDirty), vaddr, mmio, notDirty)
  {
  }

  lemma AbsentMeans(vaddr: bv64)
    requires Cut(vaddr, PAGE_MASK) == vaddr
    ensures !Matches(ONES, vaddr)
  {
  }

  lemma FillMeans(vaddr: bv64, prot: Prot, io: bool, watched: bool, writeTrap: bool, clean: bool, access: Access)
    requires Cut(vaddr, PAGE_MASK) == vaddr
    ensures var x := Field(Fill(vaddr, prot, io, watched, writeTrap, clean), access);
      && (Matches(x, vaddr) <==> Permits(prot, access))
      && (Permits(prot, access) ==>
            Carries(x, vaddr, Traps(access, io, watched, writeTrap), access == Write && clean && !writeTrap))
      && (!Permits(prot, access) ==> x == ONES)
  {
    hide Cut, Flagged, Matches, Carries;
    FlaggedMeans(vaddr, Traps(access, io, watched, writeTrap), access == Write && clean && !writeTrap);
    AbsentMeans(vaddr);
  }

  lemma FillGrants(vaddr: bv64, prot: Prot, io: bool, watched: bool, writeTrap: bool, clean: bool)
    requires Cut(vaddr, PAGE_MASK) == vaddr
    ensures Grants(Fill(vaddr, prot, io, watched, writeTrap, clean), vaddr, prot, io, watched, writeTrap, clean)
  {
    hide Cut, Matches, Carries, Fill, Field, Permits, Traps;
    var e := Fill(vaddr, prot, io, watched, writeTrap, clean);
    forall access
      ensures Matches(Field(e, access), vaddr) <==> Permits(prot, access)
      ensures if Permits(prot, access)
        then Carries(Field(e, access), vaddr, Traps(access, io, watched, writeTrap),
                     access == Write && clean && !writeTrap)
        else Field(e, access) == ONES
    {
      FillMeans(vaddr, prot, io, watched, writeTrap, clean, access);
    }
  }

  lemma FlaggedOk(vaddr: bv64, mmio: bool, notDirty: bool)
    requires Cut(vaddr, PAGE_MASK) == vaddr
    ensures FieldOk(Flagged(vaddr, mmio, notDirty), vaddr)
  {
    hide Cut, Flags;
    FlagsOk(mmio, notDirty);
    FlagBits(vaddr, Flags(mmio, notDirty));
  }

  lemma FlagsOk(mmio: bool, notDirty: bool)
    ensures Flags(mmio, notDirty) & (TLB_NOTDIRTY | TLB_MMIO) == Flags(mmio, notDirty)
  {
  }

  lemma FlagBits(vaddr: bv64, flags: bv64)
    requires Cut(vaddr, PAGE_MASK) == vaddr && flags & (TLB_NOTDIRTY | TLB_MMIO) == flags
    ensures (vaddr | flags) & !(TLB_NOTDIRTY | TLB_MMIO) == vaddr
  {
  }

  lemma FillOk(vaddr: bv64, prot: Prot, io: bool, watched: bool, writeTrap: bool, clean: bool)
    requires Cut(vaddr, PAGE_MASK) == vaddr
    ensures EntryOk(Fill(vaddr, prot, io, watched, writeTrap, clean), vaddr)
  {
    hide Flagged, Cut;
    FlaggedOk(vaddr, io || watched, false);
    FlaggedOk(vaddr, io || watched || writeTrap, clean && !writeTrap);
    FlaggedOk(vaddr, io, false);
  }

  lemma HitSource(e: Entry, access: Access, page: bv64, vaddr: bv64)
    requires EntryOk(e, vaddr) && Field(e, access) == page && Cut(page, PAGE_MASK) == page
    ensures vaddr == page
  {
    hide FieldOk, Cut;
    FieldSource(page, vaddr);
  }

  lemma FieldSource(page: bv64, vaddr: bv64)
    requires FieldOk(page, vaddr) && Cut(page, PAGE_MASK) == page
    ensures vaddr == page
  {
  }

  lemma HitPage(e: Entry, access: Access, page: bv64)
    requires Field(e, access) == page && Cut(page, PAGE_MASK) == page
    ensures e != BLANK
  {
  }

  lemma BackedFill(e: Entry, src: Mapping, large: set<Mapping>)
    requires EntryOk(e, src.vaddr) && SizeOk(src.size) && (src.size != PAGE_SIZE ==> src in large)
    ensures Backed(e, IoOffset(src), src, large)
  {
    hide EntryOk, SizeOk, IoOffset;
  }

  lemma BackedHit(e: Entry, io: Word, src: Mapping, large: set<Mapping>, access: Access, page: bv64)
    requires Backed(e, io, src, large) && Field(e, access) == page && Cut(page, PAGE_MASK) == page
    ensures src.vaddr == page
  {
    hide EntryOk, SizeOk, Field, Cut;
    HitSource(e, access, page, src.vaddr);
  }

  lemma BackedMore(e: Entry, io: Word, src: Mapping, large: set<Mapping>, large': set<Mapping>)
    requires Backed(e, io, src, large) && large <= large'
    ensures Backed(e, io, src, large')
  {
    hide EntryOk, SizeOk, IoOffset;
  }

  /** The widening loop of tlb_add_large_page: the finest mask within the given one under which the two
      addresses agree. */
  method GrowMask(flushAddr: bv64, vaddr: bv64, mask0: bv64) returns (mask: bv64)
    requires IsMask(mask0)
    ensures IsMask(mask) && Within(mask, mask0) && Agree(flushAddr, vaddr, mask)
    ensures forall m :: IsMask(m) && Within(m, mask0) && Agree(flushAddr, vaddr, m) ==> Within(m, mask)
  {
    hide Within, IsMask, Agree, Shift;
    mask := mask0;
    WithinSelf(mask);
    while !Agree(flushAddr, vaddr, mask)
      invariant IsMask(mask) && Within(mask, mask0)
      invariant forall m :: IsMask(m) && Within(m, mask0) && Agree(flushAddr, vaddr, m) ==> Within(m, mask)
      decreases mask
    {
      ShiftMask(mask, flushAddr, vaddr);
      WithinTrans(Shift(mask), mask, mask0);
      forall m | IsMask(m) && Within(m, mask0) && Agree(flushAddr, vaddr, m) ensures Within(m, Shift(mask)) {
        Finer(flushAddr, vaddr, m, mask);
      }
      mask := Shift(mask);
    }
  }

  lemma CoversNew(flushAddr: bv64, vaddr: bv64, size: bv64, mask: bv64)
    requires Within(mask, MaskOf(size)) && (flushAddr == vaddr || Agree(flushAddr, vaddr, mask))
    ensures Covers(Cut(flushAddr, mask), mask, vaddr, size)
  {
    hide MaskOf, Cut, Within, Agree;
    if flushAddr != vaddr { AgreeCut(flushAddr, vaddr, mask); }
  }
}
