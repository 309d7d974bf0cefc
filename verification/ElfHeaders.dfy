// The program headers of a dump without paging (dump_init and write_elf_loads in dump.c): together they cover
// the memory image, each byte once.

module ElfHeaders {
  import opened Basics
  import opened GuestPages
  import opened DumpFilters
  import opened MemoryMappings
  import opened ElfFormat
  import opened ElfDumps

  /** The header says that the byte at this file position belongs to its segment. */
  predicate Reaches(l: Load, p: int) { l.offset <= p < l.offset + l.filesz }

  /** Every position from lo to hi is reached by a header, none outside is, and none by two. */
  ghost predicate Tiles(loads: seq<Load>, lo: int, hi: int) {
    (forall p :: lo <= p < hi ==> Reached(loads, p)) && Apart(loads, lo, hi)
  }

  predicate Reached(loads: seq<Load>, p: int) {
    exists j :: 0 <= j < |loads| && Reaches(loads[j], p)
  }

  ghost predicate Apart(loads: seq<Load>, lo: int, hi: int) {
    && (forall j, p :: 0 <= j < |loads| && Reaches(loads[j], p) ==> lo <= p < hi)
    && (forall j, k, p :: 0 <= j < |loads| && 0 <= k < |loads| && Reaches(loads[j], p) && Reaches(loads[k], p) ==>
          j == k)
  }

  /** What the header of a block's mapping says: all of the mapping is in the file, unless the filter runs
      backwards; then none is, and the segment's size is the negative length taken modulo 2^64. */
  predicate SizedFor(f: Filter, l: Load) {
    if Backwards(f) then l.offset == -1 && l.filesz == 0 && l.memsz == U64 + f.length
    else l.filesz == l.memsz
  }

  // ------------------------------------------------------------------------------------------
  // One header

  lemma OneBlock(f: Filter, blocks: seq<Block>, i: nat, k: nat, addr: int)
    requires Ascending(blocks) && i < |blocks| && k < |blocks|
    requires Wanted(f, blocks[i], addr) && Wanted(f, blocks[k], addr)
    ensures i == k
  {
    hide InFilter;
  }

  /** The header of block i holds the block's part of the image, where the image has it. */
  lemma HeaderOfBlock(f: Filter, blocks: seq<Block>, memoryOffset: nat, i: nat, l: Load)
    requires FilterOk(f) && RangesOk(blocks) && Ascending(blocks) && i < |blocks| && !Skipped(f, blocks[i])
    requires MappingOf(f, blocks[i]) == Mapping(l.paddr, l.vaddr, l.memsz)
    requires Located(f, blocks, memoryOffset, l.paddr, l.memsz, l.offset, l.filesz)
    ensures SizedFor(f, l)
    ensures l.filesz == |Part(f, blocks[i])|
    ensures l.filesz > 0 ==> l.offset == memoryOffset + |Image(f, blocks[..i])|
  {
    hide Image, MappingOf, Ends, Skipped, Wanted, Lo, Hi, Part;
    BlockMapping(f, blocks[i]);
    WantedIff(f, blocks[i], l.paddr);
    if Backwards(f) {
      forall k | 0 <= k < |blocks| ensures !Wanted(f, blocks[k], l.paddr) { NotWanted(f, blocks[k], l.paddr); }
    } else if l.offset != -1 {
      var k: nat :| FoundIn(f, blocks, memoryOffset, l.paddr, l.memsz, l.offset, l.filesz, k);
      WantedIff(f, blocks[k], l.paddr);
      if l.memsz > 0 { OneBlock(f, blocks, i, k, l.paddr); }
    }
  }

  lemma NotWanted(f: Filter, b: Block, addr: int)
    requires !InFilter(f, addr)
    ensures !Wanted(f, b, addr)
  {
  }

  // ------------------------------------------------------------------------------------------
  // All headers

  /** Load j is the header of block src[j], for the first headers of a list that describes the blocks. */
  ghost predicate Headers(f: Filter, blocks: seq<Block>, memoryOffset: nat, src: seq<nat>, loads: seq<Load>)
    requires RangesOk(blocks)
  {
    && |loads| <= |src|
    && (forall j :: 0 <= j < |src| ==> src[j] < |blocks|)
    && (forall j, k :: 0 <= j < k < |src| ==> src[j] != src[k])
    && (forall j :: 0 <= j < |loads| ==>
          && loads[j].filesz == |Part(f, blocks[src[j]])|
          && (loads[j].filesz > 0 ==> loads[j].offset == memoryOffset + |Image(f, blocks[..src[j]])|))
  }

  lemma {:induction false} ImageGrows(f: Filter, blocks: seq<Block>, i: nat, k: nat)
    requires RangesOk(blocks) && i < k <= |blocks|
    ensures |Image(f, blocks[..i])| + |Part(f, blocks[i])| <= |Image(f, blocks[..k])|
    decreases k
  {
    hide Part, Image;
    ImageNext(f, blocks, k - 1);
    if i < k - 1 { ImageGrows(f, blocks, i, k - 1); }
  }

  /** The block whose part holds a position of the image. */
  lemma {:induction false} FindPart(f: Filter, blocks: seq<Block>, n: nat, q: nat) returns (i: nat)
    requires RangesOk(blocks) && n <= |blocks| && q < |Image(f, blocks[..n])|
    ensures i < n && |Image(f, blocks[..i])| <= q < |Image(f, blocks[..i])| + |Part(f, blocks[i])|
  {
    hide Part, Image;
    ImageNone(f, blocks);
    ImageNext(f, blocks, n - 1);
    if q < |Image(f, blocks[..n - 1])| { i := FindPart(f, blocks, n - 1, q); } else { i := n - 1; }
  }

  lemma ReachesInside(f: Filter, blocks: seq<Block>, memoryOffset: nat, src: seq<nat>, loads: seq<Load>, j: nat, p: int)
    requires RangesOk(blocks) && Headers(f, blocks, memoryOffset, src, loads) && j < |loads| && Reaches(loads[j], p)
    ensures memoryOffset <= p < memoryOffset + |Image(f, blocks)|
  {
    hide Part, Image;
    ImageNone(f, blocks);
    ImageGrows(f, blocks, src[j], |blocks|);
  }

  lemma ReachesOnce(f: Filter, blocks: seq<Block>, memoryOffset: nat, src: seq<nat>, loads: seq<Load>,
                    j: nat, k: nat, p: int)
    requires RangesOk(blocks) && Headers(f, blocks, memoryOffset, src, loads)
    requires j < |loads| && k < |loads| && Reaches(loads[j], p) && src[j] < src[k]
    ensures !Reaches(loads[k], p)
  {
    hide Part, Image;
    ImageGrows(f, blocks, src[j], src[k]);
  }

  lemma HeadersApart(f: Filter, blocks: seq<Block>, memoryOffset: nat, src: seq<nat>, loads: seq<Load>)
    requires RangesOk(blocks) && Headers(f, blocks, memoryOffset, src, loads)
    ensures Apart(loads, memoryOffset, memoryOffset + |Image(f, blocks)|)
  {
    hide Part, Image, Reaches;
    forall j, p | 0 <= j < |loads| && Reaches(loads[j], p)
      ensures memoryOffset <= p < memoryOffset + |Image(f, blocks)|
    {
      ReachesInside(f, blocks, memoryOffset, src, loads, j, p);
    }
    forall j, k, p | 0 <= j < |loads| && 0 <= k < |loads| && Reaches(loads[j], p) && Reaches(loads[k], p)
      ensures j == k
    {
      if src[j] < src[k] {
        ReachesOnce(f, blocks, memoryOffset, src, loads, j, k, p);
      } else if src[k] < src[j] {
        ReachesOnce(f, blocks, memoryOffset, src, loads, k, j, p);
      }
    }
  }

  lemma PositionReached(f: Filter, blocks: seq<Block>, memoryOffset: nat, src: seq<nat>, loads: seq<Load>, p: int)
    requires RangesOk(blocks) && Headers(f, blocks, memoryOffset, src, loads) && |loads| == |src|
    requires forall i :: 0 <= i < |blocks| && !Skipped(f, blocks[i]) ==> i in src
    requires memoryOffset <= p < memoryOffset + |Image(f, blocks)|
    ensures Reached(loads, p)
  {
    hide Part, Image, Skipped;
    ImageNone(f, blocks);
    var i := FindPart(f, blocks, |blocks|, p - memoryOffset);
    SkippedPart(f, blocks[i]);
    var j :| 0 <= j < |src| && src[j] == i;
    assert Reaches(loads[j], p);
  }

  lemma HeadersTile(f: Filter, blocks: seq<Block>, memoryOffset: nat, src: seq<nat>, loads: seq<Load>)
    requires RangesOk(blocks) && Headers(f, blocks, memoryOffset, src, loads) && |loads| == |src|
    requires forall i :: 0 <= i < |blocks| && !Skipped(f, blocks[i]) ==> i in src
    ensures Tiles(loads, memoryOffset, memoryOffset + |Image(f, blocks)|)
  {
    hide Image, Skipped, Headers, Reached, Apart;
    HeadersApart(f, blocks, memoryOffset, src, loads);
    forall p | memoryOffset <= p < memoryOffset + |Image(f, blocks)| ensures Reached(loads, p) {
      PositionReached(f, blocks, memoryOffset, src, loads, p);
    }
  }

  lemma SkippedPart(f: Filter, b: Block)
    requires RangeOk(b) && 0 < |Part(f, b)|
    ensures !Skipped(f, b)
  {
  }

  /** The headers written for a list that describes the blocks. */
  lemma DescribedHeaders(f: Filter, blocks: seq<Block>, memoryOffset: nat, ms: seq<Mapping>, src: seq<nat>,
                         loads: seq<Load>)
    requires FilterOk(f) && RangesOk(blocks) && Ascending(blocks)
    requires Describes(f, blocks, ms, src) && LoadsOk(f, blocks, memoryOffset, ms, loads)
    ensures Headers(f, blocks, memoryOffset, src, loads)
    ensures forall j :: 0 <= j < |loads| ==> SizedFor(f, loads[j])
    ensures forall j :: 0 <= j < |ms| ==> Ends(f, ms[j])
  {
    hide Part, Image, Located, MappingOf, Ends, Skipped, SizedFor;
    forall j | 0 <= j < |ms| ensures Ends(f, ms[j]) { BlockMapping(f, blocks[src[j]]); }
    forall j | 0 <= j < |loads|
      ensures SizedFor(f, loads[j]) && loads[j].filesz == |Part(f, blocks[src[j]])|
      ensures loads[j].filesz > 0 ==> loads[j].offset == memoryOffset + |Image(f, blocks[..src[j]])|
    {
      HeaderOfBlock(f, blocks, memoryOffset, src[j], loads[j]);
    }
  }

  // ------------------------------------------------------------------------------------------
  // The reader

  predicate HoldsAddress(p: Phdr, a: nat) { p.kind == PT_LOAD && p.paddr <= a < p.paddr + p.filesz }

  /** The first segment that holds a guest-physical address decides its byte. */
  function Lookup(file: seq<Byte>, phdrs: seq<Phdr>, a: nat): Option<Byte> {
    if phdrs == [] then None
    else if !HoldsAddress(phdrs[0], a) then Lookup(file, phdrs[1..], a)
    else
      var at := phdrs[0].offset + (a - phdrs[0].paddr);
      if at < |file| then Some(file[at]) else None
  }

  /** A reader of the file that knows nothing but the file. */
  function ReadPhys(file: seq<Byte>, a: nat): Option<Byte> {
    var phdrs := ReadHeaders(file);
    if phdrs.None? then None else Lookup(file, phdrs.value, a)
  }

  /** The byte of the guest at an address that passes the filter, and nothing for any other. */
  ghost predicate GuestByte(f: Filter, blocks: seq<Block>, a: nat, r: Option<Byte>) {
    && (r.None? ==> forall i :: 0 <= i < |blocks| ==> !Wanted(f, blocks[i], a))
    && (r.Some? ==> exists i :: 0 <= i < |blocks| && IsByte(f, blocks[i], a, r.value))
  }

  predicate IsByte(f: Filter, b: Block, a: nat, byte: Byte) {
    Wanted(f, b, a) && a - b.start < |b.memory| && b.memory[a - b.start] == byte
  }

  /** The file and the blocks fit the class, and the reader reads the number of headers. */
  ghost predicate Legible(e: Format, num: nat, blocks: seq<Block>, file: seq<Byte>)
    requires FormatOk(e)
  {
    && |file| < WordLimit(e.class64) && num < UINT32_MAX && CountRead(e, num) == PhdrCount(num)
    && forall i :: 0 <= i < |blocks| ==> blocks[i].end <= WordLimit(e.class64)
  }

  /** A header that holds the address leads to its byte. */
  ghost predicate Leads(f: Filter, blocks: seq<Block>, file: seq<Byte>, p: Phdr, a: nat) {
    HoldsAddress(p, a) ==>
      && p.offset + (a - p.paddr) < |file|
      && GuestByte(f, blocks, a, Some(file[p.offset + (a - p.paddr)]))
  }

  lemma {:induction false} LookupOk(f: Filter, blocks: seq<Block>, file: seq<Byte>, phdrs: seq<Phdr>, a: nat)
    requires forall k :: 0 <= k < |phdrs| ==> Leads(f, blocks, file, phdrs[k], a)
    requires (exists k :: 0 <= k < |phdrs| && HoldsAddress(phdrs[k], a)) || GuestByte(f, blocks, a, None)
    ensures GuestByte(f, blocks, a, Lookup(file, phdrs, a))
  {
    hide GuestByte, HoldsAddress;
    if phdrs != [] && !HoldsAddress(phdrs[0], a) {
      if k :| 0 <= k < |phdrs| && HoldsAddress(phdrs[k], a) { assert phdrs[1..][k - 1] == phdrs[k]; }
      LookupOk(f, blocks, file, phdrs[1..], a);
    }
  }

  /** A header of the file range of its mapping leads to the right bytes. */
  lemma ServedLeads(f: Filter, blocks: seq<Block>, file: seq<Byte>, m: Mapping, l: Load, p: Phdr, a: nat)
    requires Served(f, blocks, file, m, l) && m.phys == l.paddr
    requires p.filesz == l.filesz && (l.filesz > 0 ==> p.paddr == l.paddr && p.offset == l.offset)
    ensures Leads(f, blocks, file, p, a)
  {
    hide Wanted, Hi, Lo;
    if HoldsAddress(p, a) {
      var i: nat :| ServedBy(f, blocks, file, m, l, i);
      var b, d := blocks[i], a - p.paddr;
      WantedIff(f, b, m.phys);
      WantedIff(f, b, a);
      WantedIff(f, b, m.phys + l.filesz - 1);
      WantedInside(f, b, m.phys);
      WantedInside(f, b, m.phys + l.filesz - 1);
      assert file[l.offset..l.offset + l.filesz][d] == file[p.offset + d];
      assert b.memory[m.phys - b.start..m.phys - b.start + l.filesz][d] == b.memory[a - b.start];
      assert IsByte(f, b, a, file[p.offset + d]);
    }
  }

  lemma WantedInside(f: Filter, b: Block, a: int)
    requires Wanted(f, b, a)
    ensures b.start <= a < b.end
  {
  }

  /** A header that fits its fields is not cut. */
  lemma CroppedLoad(class64: bool, l: Load)
    requires l.filesz < WordLimit(class64)
    requires l.filesz > 0 ==> 0 <= l.offset < WordLimit(class64) && l.paddr < WordLimit(class64)
    ensures var p := Cropped(class64, LoadPhdr(l));
      p.filesz == l.filesz && (l.filesz > 0 ==> p.kind == PT_LOAD && p.paddr == l.paddr && p.offset == l.offset)
  {
    hide Unsigned64;
    if l.filesz > 0 { UnsignedIs(l.offset); }
  }

  lemma NoteHoldsNothing(e: Format, num: nat, a: nat)
    ensures !HoldsAddress(Cropped(e.class64, NoteOf(e, num)), a)
  {
  }

  /** Everything about load j that the reader relies on. */
  lemma LoadFits(f: Filter, blocks: seq<Block>, file: seq<Byte>, m: Mapping, l: Load, limit: nat)
    requires Served(f, blocks, file, m, l) && m.phys == l.paddr && m.length == l.memsz && |file| < limit
    requires forall i :: 0 <= i < |blocks| ==> blocks[i].end <= limit
    ensures l.filesz < limit && (l.filesz > 0 ==> 0 <= l.offset < limit && l.paddr < limit)
  {
    hide Hi, Lo, Wanted;
    if l.filesz > 0 {
      var i: nat :| ServedBy(f, blocks, file, m, l, i);
      WantedInside(f, blocks[i], m.phys);
    }
  }

  /** Every header that the reader obtains leads to the guest's bytes. */
  lemma AllLead(f: Filter, blocks: seq<Block>, file: seq<Byte>, e: Format, ms: seq<Mapping>, loads: seq<Load>, k: nat,
                a: nat)
    requires FormatOk(e) && |file| < WordLimit(e.class64) && |loads| <= |ms|
    requires forall i :: 0 <= i < |blocks| ==> blocks[i].end <= WordLimit(e.class64)
    requires forall j :: 0 <= j < |loads| ==> ms[j] == Mapping(loads[j].paddr, loads[j].vaddr, loads[j].memsz)
    requires forall j :: 0 <= j < |loads| ==> Served(f, blocks, file, ms[j], loads[j])
    requires k < 1 + |loads|
    ensures Leads(f, blocks, file, Cropped(e.class64, AllPhdrs(e, |ms|, loads)[k]), a)
  {
    hide Served, Cropped, LoadPhdr, NoteOf;
    if k == 0 {
      NoteHoldsNothing(e, |ms|, a);
    } else {
      var m, l := ms[k - 1], loads[k - 1];
      LoadFits(f, blocks, file, m, l, WordLimit(e.class64));
      CroppedLoad(e.class64, l);
      ServedLeads(f, blocks, file, m, l, Cropped(e.class64, LoadPhdr(l)), a);
    }
  }

  /** An address that is dumped is held by the header of its block. */
  lemma WantedHeld(f: Filter, blocks: seq<Block>, memoryOffset: nat, ms: seq<Mapping>, src: seq<nat>,
                   loads: seq<Load>, i: nat, a: nat) returns (j: nat)
    requires FilterOk(f) && RangesOk(blocks) && Describes(f, blocks, ms, src)
    requires Headers(f, blocks, memoryOffset, src, loads) && |loads| == |ms|
    requires forall j :: 0 <= j < |loads| ==> ms[j] == Mapping(loads[j].paddr, loads[j].vaddr, loads[j].memsz)
    requires i < |blocks| && Wanted(f, blocks[i], a)
    ensures j < |loads| && loads[j].paddr <= a < loads[j].paddr + loads[j].filesz
  {
    hide MappingOf, Image, Ends, Lo, Hi;
    WantedIff(f, blocks[i], a);
    assert !Skipped(f, blocks[i]) by { WantedMatches(f, blocks[i], a); }
    j :| 0 <= j < |src| && src[j] == i;
    BlockMapping(f, blocks[i]);
  }

  lemma WantedMatches(f: Filter, b: Block, a: int)
    requires Wanted(f, b, a)
    ensures !Skipped(f, b)
  {
  }

  /** From the guest to the file and back. */
  lemma ReadsGuest(f: Filter, blocks: seq<Block>, file: seq<Byte>, e: Format, ms: seq<Mapping>, src: seq<nat>,
                   loads: seq<Load>, a: nat)
    requires FilterOk(f) && RangesOk(blocks) && FormatOk(e) && Describes(f, blocks, ms, src)
    requires Headers(f, blocks, MemoryOffset(e.class64, |ms|, |e.notes|), src, loads) && |loads| == |ms|
    requires forall j :: 0 <= j < |loads| ==> ms[j] == Mapping(loads[j].paddr, loads[j].vaddr, loads[j].memsz)
    requires forall j :: 0 <= j < |loads| ==> Served(f, blocks, file, ms[j], loads[j])
    requires HeadersBack(e, |ms|, loads, file) && Legible(e, |ms|, blocks, file)
    ensures GuestByte(f, blocks, a, ReadPhys(file, a))
  {
    hide Served, Cropped, LoadPhdr, NoteOf, Describes, Headers, ReadHeaders, CountRead, Lookup, Leads, Wanted;
    var phdrs := CroppedAll(e.class64, AllPhdrs(e, |ms|, loads));
    forall k | 0 <= k < |phdrs| ensures Leads(f, blocks, file, phdrs[k], a) {
      AllLead(f, blocks, file, e, ms, loads, k, a);
    }
    if i :| 0 <= i < |blocks| && Wanted(f, blocks[i], a) {
      var j := WantedHeld(f, blocks, MemoryOffset(e.class64, |ms|, |e.notes|), ms, src, loads, i, a);
      LoadFits(f, blocks, file, ms[j], loads[j], WordLimit(e.class64));
      CroppedLoad(e.class64, loads[j]);
      assert HoldsAddress(phdrs[1 + j], a);
    }
    LookupOk(f, blocks, file, phdrs, a);
  }

  // ------------------------------------------------------------------------------------------
  // The whole dump

  /** dump_init and create_vmcore without paging, for every filter. */
  method DumpWithoutPaging(d: ElfDump, e: Format)
    returns (outcome: Outcome, total: int, ghost mappings: seq<Mapping>, ghost src: seq<nat>, ghost loads: seq<Load>)
    requires d.Valid() && Ascending(d.blocks) && d.blocks != [] && FormatOk(e)
    requires d.out == [] && d.writtenSize == 0
    modifies d
    ensures Decided(d.f, d.blocks, d.page, outcome) && Announced(d.f, d.blocks, outcome, d.writtenSize, total)
    ensures Describes(d.f, d.blocks, mappings, src) && Sorted(mappings)
    ensures outcome != Refused ==>
      && |loads| == PhdrCount(|mappings|) - 1 <= |mappings|
      && forall j :: 0 <= j < |loads| ==>
           SizedFor(d.f, loads[j]) && mappings[j] == Mapping(loads[j].paddr, loads[j].vaddr, loads[j].memsz)
    ensures outcome == Complete ==>
      var memoryOffset := MemoryOffset(e.class64, |mappings|, |e.notes|);
      && d.out == Front(e, |mappings|, AllPhdrs(e, |mappings|, loads)) + Image(d.f, d.blocks)
      && |d.out| == memoryOffset + |Image(d.f, d.blocks)| && HeadersBack(e, |mappings|, loads, d.out)
      && (forall j :: 0 <= j < |loads| ==> Served(d.f, d.blocks, d.out, mappings[j], loads[j]))
      && Apart(loads, memoryOffset, |d.out|)
      && (|mappings| < UINT32_MAX ==> Tiles(loads, memoryOffset, |d.out|))
    ensures outcome == Complete && Legible(e, |mappings|, d.blocks, d.out) ==>
      forall a :: GuestByte(d.f, d.blocks, a, ReadPhys(d.out, a))
  {
    hide Describes, Image, Decided, Announced, LoadsOk, Served, Apart, Tiles, Headers, Ends, SizedFor;
    hide Front, AllPhdrs, HeadersBack, GuestByte, ReadPhys, Legible;
    var list := new MemoryMappingList();
    src := list.GetGuestSimpleMemoryMapping(d.blocks);
    if d.f.Range? {
      ghost var all := list.list;
      ghost var kept := list.Filter(d.f);
      src := DescribesCut(d.f, d.blocks, all, src, kept, list.list);
    }
    mappings := list.list;
    outcome, total, loads := CreateVmcore(d, e, list.list);
    if outcome != Refused {
      ghost var memoryOffset := MemoryOffset(e.class64, |mappings|, |e.notes|);
      DescribedHeaders(d.f, d.blocks, memoryOffset, mappings, src, loads);
      LoadsMatch(d.f, d.blocks, memoryOffset, mappings, loads);
      HeadersApart(d.f, d.blocks, memoryOffset, src, loads);
      if |mappings| < UINT32_MAX {
        DescribesAll(d.f, d.blocks, mappings, src);
        HeadersTile(d.f, d.blocks, memoryOffset, src, loads);
      }
      if outcome == Complete && Legible(e, |mappings|, d.blocks, d.out) {
        LegibleAll(e, |mappings|, d.blocks, d.out);
        forall a: nat ensures GuestByte(d.f, d.blocks, a, ReadPhys(d.out, a)) {
          ReadsGuest(d.f, d.blocks, d.out, e, mappings, src, loads, a);
        }
      }
    }
  }

  lemma LegibleAll(e: Format, num: nat, blocks: seq<Block>, file: seq<Byte>)
    requires FormatOk(e) && Legible(e, num, blocks, file)
    ensures num == PhdrCount(num) - 1
  {
  }

  lemma LoadsMatch(f: Filter, blocks: seq<Block>, memoryOffset: nat, ms: seq<Mapping>, loads: seq<Load>)
    requires RangesOk(blocks) && LoadsOk(f, blocks, memoryOffset, ms, loads)
    ensures |loads| <= |ms|
    ensures forall j :: 0 <= j < |loads| ==> ms[j] == Mapping(loads[j].paddr, loads[j].vaddr, loads[j].memsz)
  {
  }

  lemma DescribesAll(f: Filter, blocks: seq<Block>, ms: seq<Mapping>, src: seq<nat>)
    requires RangesOk(blocks) && Describes(f, blocks, ms, src)
    ensures |src| == |ms| && forall i :: 0 <= i < |blocks| && !Skipped(f, blocks[i]) ==> i in src
  {
  }
}
