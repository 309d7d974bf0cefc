// The ELF variant of the dump writer (dump.c): three computations that must agree on which bytes of
// guest memory are in the file and where.

module ElfDumps {
  import opened Basics
  import opened LittleEndian
  import opened VmcoreFiles
  import opened GuestPages
  import opened DumpFilters
  import opened MemoryMappings
  import opened ElfFormat

  // ------------------------------------------------------------------------------------------
  // What is to be dumped

  /** The part of a block that passes the filter. */
  function Part(f: Filter, b: Block): (r: seq<Byte>)
    requires RangeOk(b)
    ensures |r| == Max(0, Hi(f, b) - Lo(f, b))
  {
    if Lo(f, b) < Hi(f, b) then b.memory[Lo(f, b) - b.start..Hi(f, b) - b.start] else []
  }

  /** The memory image of the dump. */
  ghost function Image(f: Filter, blocks: seq<Block>): seq<Byte>
    requires RangesOk(blocks)
  {
    if blocks == [] then []
    else Image(f, blocks[..|blocks| - 1]) + Part(f, blocks[|blocks| - 1])
  }

  lemma ImageNone(f: Filter, blocks: seq<Block>)
    requires RangesOk(blocks)
    ensures Image(f, blocks[..0]) == [] && Image(f, blocks[..|blocks|]) == Image(f, blocks)
  {
    assert blocks[..|blocks|] == blocks;
  }

  lemma ImageNext(f: Filter, blocks: seq<Block>, i: nat)
    requires RangesOk(blocks) && i < |blocks|
    ensures Image(f, blocks[..i + 1]) == Image(f, blocks[..i]) + Part(f, blocks[i])
  {
    assert blocks[..i + 1][..i] == blocks[..i];
  }

  predicate Within(s: seq<Byte>, at: nat, part: seq<Byte>) {
    at + |part| <= |s| && s[at..at + |part|] == part
  }

  lemma WithinMore(s: seq<Byte>, at: nat, part: seq<Byte>, t: seq<Byte>)
    requires Within(s, at, part)
    ensures Within(s + t, at, part)
  {
    assert (s + t)[at..at + |part|] == s[at..at + |part|];
  }

  lemma WithinSlice(s: seq<Byte>, at: nat, part: seq<Byte>, d: nat, n: nat)
    requires Within(s, at, part) && d + n <= |part|
    ensures s[at + d..at + d + n] == part[d..d + n]
  {
    var x, y := s[at + d..at + d + n], part[d..d + n];
    forall k | 0 <= k < n ensures x[k] == y[k] {
      assert s[at..at + |part|][d + k] == s[at + d + k];
    }
  }

  /** The part of block i sits in the image right after the parts of the blocks before it. */
  lemma {:induction false} ImageAt(f: Filter, blocks: seq<Block>, i: nat)
    requires RangesOk(blocks) && i < |blocks|
    ensures Within(Image(f, blocks), |Image(f, blocks[..i])|, Part(f, blocks[i]))
  {
    hide Within, Part;
    var n := |blocks| - 1;
    if i < n {
      ImageAt(f, blocks[..n], i);
      assert blocks[..n][..i] == blocks[..i];
      WithinMore(Image(f, blocks[..n]), |Image(f, blocks[..i])|, Part(f, blocks[i]), Part(f, blocks[n]));
    } else {
      WithinLast(Image(f, blocks[..n]), Part(f, blocks[n]));
    }
  }

  lemma WithinLast(s: seq<Byte>, part: seq<Byte>)
    ensures Within(s + part, |s|, part)
  {
  }

  // ------------------------------------------------------------------------------------------
  // Where a mapping is found: get_offset_range

  /** The file range is the memory from phys on, cut at the mapping's length, the block and the filter. */
  ghost predicate FoundIn(f: Filter, blocks: seq<Block>, memoryOffset: nat, phys: nat, length: nat,
      offset: int, filesz: int, i: nat)
    requires RangesOk(blocks)
  {
    && i < |blocks| && Wanted(f, blocks[i], phys)
    && filesz == Min(length, Hi(f, blocks[i]) - phys)
    && offset == phys - Lo(f, blocks[i]) + memoryOffset + |Image(f, blocks[..i])|
    && memoryOffset <= offset && offset + filesz <= memoryOffset + |Image(f, blocks)|
    && Image(f, blocks)[offset - memoryOffset..offset - memoryOffset + filesz]
         == blocks[i].memory[phys - blocks[i].start..phys - blocks[i].start + filesz]
  }

  ghost predicate Located(f: Filter, blocks: seq<Block>, memoryOffset: nat, phys: nat, length: nat, offset: int,
      filesz: int)
    requires RangesOk(blocks)
  {
    && filesz >= 0 && offset >= -1
    && (offset == -1 <==> forall i :: 0 <= i < |blocks| ==> !Wanted(f, blocks[i], phys))
    && (offset == -1 ==> filesz == 0)
    && (offset != -1 ==> exists i: nat :: FoundIn(f, blocks, memoryOffset, phys, length, offset, filesz, i))
  }

  lemma FoundAt(f: Filter, blocks: seq<Block>, memoryOffset: nat, phys: nat, length: nat, i: nat)
    requires RangesOk(blocks) && i < |blocks| && Wanted(f, blocks[i], phys)
    ensures FoundIn(f, blocks, memoryOffset, phys, length,
                    phys - Lo(f, blocks[i]) + memoryOffset + |Image(f, blocks[..i])|,
                    Min(length, Hi(f, blocks[i]) - phys), i)
  {
    hide Image, Within, Part, Lo, Hi, Begin, End, Wanted;
    WantedIff(f, blocks[i], phys);
    ImageAt(f, blocks, i);
    var at, part := |Image(f, blocks[..i])|, Part(f, blocks[i]);
    var d, n := phys - Lo(f, blocks[i]), Min(length, Hi(f, blocks[i]) - phys);
    WithinSlice(Image(f, blocks), at, part, d, n);
    WithinEnd(Image(f, blocks), at, part);
    PartSlice(f, blocks[i], d, n);
  }

  lemma WithinEnd(s: seq<Byte>, at: nat, part: seq<Byte>)
    requires Within(s, at, part)
    ensures at + |part| <= |s|
  {
  }

  lemma PartSlice(f: Filter, b: Block, d: nat, n: nat)
    requires RangeOk(b) && d + n <= |Part(f, b)|
    ensures 0 < |Part(f, b)| ==> var lo := Lo(f, b) - b.start;
      && 0 <= lo && lo + d + n <= |b.memory|
      && Part(f, b)[d..d + n] == b.memory[lo + d..lo + d + n]
  {
    hide Part, Lo, Hi, Max;
    if 0 < |Part(f, b)| {
      PartRange(f, b);
      SliceSlice(b.memory, Lo(f, b) - b.start, Hi(f, b) - b.start, d, n);
    }
  }

  lemma PartRange(f: Filter, b: Block)
    requires RangeOk(b) && 0 < |Part(f, b)|
    ensures b.start <= Lo(f, b) < Hi(f, b) <= b.end && |Part(f, b)| == Hi(f, b) - Lo(f, b)
    ensures Part(f, b) == b.memory[Lo(f, b) - b.start..Hi(f, b) - b.start]
  {
    hide Begin, End;
  }

  lemma SliceSlice(m: seq<Byte>, lo: nat, hi: nat, d: nat, n: nat)
    requires lo <= hi <= |m| && lo + d + n <= hi
    ensures m[lo..hi][d..d + n] == m[lo + d..lo + d + n]
  {
    var x, y := m[lo..hi][d..d + n], m[lo + d..lo + d + n];
    forall k | 0 <= k < n ensures x[k] == y[k] {
    }
  }

  /** Only a mapping that starts at a dumped address and wraps around the address space can be given a wrong
      size. */
  method GetOffsetRange(f: Filter, blocks: seq<Block>, memoryOffset: nat, phys: Hwaddr, mappingLength: Hwaddr)
    returns (pOffset: int, pFilesz: int)
    requires FilterOk(f) && RangesOk(blocks)
    ensures (InFilter(f, phys) ==> phys + mappingLength < U64) ==>
      Located(f, blocks, memoryOffset, phys, mappingLength, pOffset, pFilesz)
    ensures pOffset == -1 <==> forall i :: 0 <= i < |blocks| ==> !Wanted(f, blocks[i], phys)
    ensures 0 <= pFilesz <= mappingLength
  {
    hide Image, Part, FoundIn, Unsigned64, Signed64;
    var offset := memoryOffset;
    pOffset, pFilesz := -1, 0;
    if f.Range? && (phys < Unsigned64(f.begin) || phys >= Unsigned64(f.begin + f.length)) {
      return;
    }
    ImageNone(f, blocks);
    for i := 0 to |blocks|
      invariant offset == memoryOffset + |Image(f, blocks[..i])|
      invariant forall j :: 0 <= j < i ==> !Wanted(f, blocks[j], phys)
    {
      var b := blocks[i];
      ImageNext(f, blocks, i);
      WantedIff(f, b, phys);
      if f.Range? && (b.start >= Unsigned64(f.begin + f.length) || b.end <= Unsigned64(f.begin)) {
        continue;
      }
      var start, sizeInBlock := SizeInBlock(f, b);
      if Unsigned64(start) <= phys < Unsigned64(start + sizeInBlock) {
        pOffset := phys - start + offset;
        pFilesz := if Unsigned64(phys + mappingLength) <= Unsigned64(start + sizeInBlock) then mappingLength
                   else sizeInBlock - (phys - start);
        SumIs(phys, mappingLength);
        FoundAt(f, blocks, memoryOffset, phys, mappingLength, i);
        return;
      }
      offset := offset + sizeInBlock;
    }
  }

  lemma SumIs(a: Hwaddr, b: Hwaddr)
    ensures Unsigned64(a + b) == if a + b < U64 then a + b else a + b - U64
  {
  }

  /** The part of get_offset_range that cuts a block to the filter, in 64-bit arithmetic. */
  method SizeInBlock(f: Filter, b: Block) returns (start: int, sizeInBlock: int)
    requires FilterOk(f) && RangeOk(b) && !Skipped(f, b)
    ensures start == Lo(f, b) && sizeInBlock == Hi(f, b) - Lo(f, b)
    ensures Unsigned64(start) == start && Unsigned64(start + sizeInBlock) == Hi(f, b)
  {
    hide Signed64, Unsigned64;
    start := b.start;
    sizeInBlock := b.end - b.start;
    UnsignedIs(b.start);
    UnsignedIs(b.end);
    if f.Range? {
      NotSkipped(f, b);
      BoundsAre(f);
      UnsignedIs(Lo(f, b));
      UnsignedIs(Hi(f, b));
      SignedSmall(b.end - Lo(f, b));
      SignedSmall(Hi(f, b) - Lo(f, b));
      start := if Unsigned64(f.begin) <= b.start then b.start else f.begin;
      sizeInBlock := Signed64(b.end - start);
      if Unsigned64(f.begin + f.length) < b.end {
        sizeInBlock := Signed64(sizeInBlock - (b.end - (f.begin + f.length)));
      }
    }
  }

  // ------------------------------------------------------------------------------------------
  // How much there is: dump_calculate_size

  /** What dump_calculate_size adds for a block. */
  function Counted(f: Filter, b: Block): int {
    if f.All? then b.end - b.start
    else Max(0, Signed64(Signed64(Min(End(f), b.end)) - Signed64(Max(Begin(f), b.start))))
  }

  function CountedAll(f: Filter, blocks: seq<Block>): int {
    if blocks == [] then 0 else CountedAll(f, blocks[..|blocks| - 1]) + Counted(f, blocks[|blocks| - 1])
  }

  method DumpCalculateSize(f: Filter, blocks: seq<Block>) returns (total: int)
    requires FilterOk(f) && RangesOk(blocks)
    ensures total == Signed64(CountedAll(f, blocks))
  {
    hide Signed64, Unsigned64;
    total := 0;
    SignedSmall(0);
    for i := 0 to |blocks|
      invariant total == Signed64(CountedAll(f, blocks[..i]))
    {
      assert RangeOk(blocks[i]);
      assert blocks[..i + 1][..i] == blocks[..i];
      var size;
      if f.Range? {
        var left := Signed64(Max(Unsigned64(f.begin), blocks[i].start));
        var right := Signed64(Min(Unsigned64(f.begin + f.length), blocks[i].end));
        size := Signed64(right - left);
        size := if size > 0 then size else 0;
      } else {
        size := blocks[i].end - blocks[i].start;
      }
      SignedSum(CountedAll(f, blocks[..i]), size);
      total := Signed64(total + size);
    }
    assert blocks[..|blocks|] == blocks;
  }

  lemma SignedSum(a: int, b: int)
    ensures Signed64(Signed64(a) + b) == Signed64(a + b)
  {
  }

  /** A filter that begins below the sign bit is counted as it is cut. */
  lemma CountedPart(f: Filter, b: Block)
    requires FilterOk(f) && RangeOk(b) && (f.Range? ==> f.begin >= 0)
    ensures Counted(f, b) == |Part(f, b)|
  {
    hide Signed64, Begin, End;
    if f.Range? {
      BoundsAre(f);
      SignedSmall(Min(End(f), b.end));
      SignedSmall(Max(Begin(f), b.start));
      SignedSmall(Min(End(f), b.end) - Max(Begin(f), b.start));
    }
  }

  lemma {:induction false} CountedImage(f: Filter, blocks: seq<Block>)
    requires FilterOk(f) && RangesOk(blocks) && (f.Range? ==> f.begin >= 0)
    ensures CountedAll(f, blocks) == |Image(f, blocks)|
  {
    if blocks != [] {
      CountedImage(f, blocks[..|blocks| - 1]);
      CountedPart(f, blocks[|blocks| - 1]);
    }
  }

  lemma {:induction false} ImageBound(f: Filter, blocks: seq<Block>)
    requires RangesOk(blocks) && Ascending(blocks)
    ensures |Image(f, blocks)| <= if blocks == [] then 0 else blocks[|blocks| - 1].end
    ensures |Image(f, blocks)| < I63
  {
    if blocks != [] {
      var n := |blocks| - 1;
      ImageBound(f, blocks[..n]);
      assert RangeOk(blocks[n]) && (n > 0 ==> blocks[n - 1].end <= blocks[n].start);
    }
  }

  /** The distance from a negative begin to the end of the filter in a block. */
  function Width(f: Filter, b: Block): int
    requires f.Range?
  {
    Min(End(f), b.end) - f.begin
  }

  ghost predicate SmallWidths(f: Filter, blocks: seq<Block>)
    requires f.Range?
  {
    forall i :: 0 <= i < |blocks| ==> Width(f, blocks[i]) < I63
  }

  /** The widths that an int64_t can hold, added up as plain numbers. */
  function Spread(f: Filter, blocks: seq<Block>): int
    requires f.Range?
  {
    if blocks == [] then 0
    else
      var w := Width(f, blocks[|blocks| - 1]);
      Spread(f, blocks[..|blocks| - 1]) + if w < I63 then w else 0
  }

  /** A filter with a negative begin matches no block, and yet every block of a small width is counted. */
  lemma {:induction false} NegativeBeginCounts(f: Filter, blocks: seq<Block>)
    requires FilterOk(f) && RangesOk(blocks) && f.Range? && f.begin < 0
    ensures CountedAll(f, blocks) == Spread(f, blocks) >= 0
    ensures forall i :: 0 <= i < |blocks| ==> Skipped(f, blocks[i])
    ensures SmallWidths(f, blocks) ==> Spread(f, blocks) >= |blocks|
  {
    hide Counted, Width, Skipped;
    if blocks != [] {
      var n := |blocks| - 1;
      assert RangeOk(blocks[n]);
      NegativeBeginCounts(f, blocks[..n]);
      CountedNegative(f, blocks[n]);
      assert forall i :: 0 <= i < n ==> blocks[..n][i] == blocks[i];
    }
  }

  lemma CountedNegative(f: Filter, b: Block)
    requires FilterOk(f) && RangeOk(b) && f.Range? && f.begin < 0
    ensures Width(f, b) >= 1 && Skipped(f, b)
    ensures Counted(f, b) == if Width(f, b) < I63 then Width(f, b) else 0
  {
    hide Signed64, Begin, End;
    BoundsAre(f);
    SignedSmall(Min(End(f), b.end));
    SignedIs(Begin(f));
    SignedIs(Width(f, b));
  }

  // ------------------------------------------------------------------------------------------
  // What is written: get_start_block, get_next_block, dump_iterate, write_memory

  /** The sizes asked for are not negative, or a negative multiple of the page size. */
  predicate Writable(f: Filter, page: nat)
    requires page > 0
  {
    Backwards(f) ==> f.length % page == 0
  }

  /** For a block that is not skipped, the size dump_iterate asks for is the size counted if and only if
      the filter does not run backwards; if it does, the size asked for is the negative length. */
  lemma SizesAgree(f: Filter, b: Block)
    requires FilterOk(f) && RangeOk(b) && !Skipped(f, b)
    ensures Hi(f, b) - Lo(f, b) == Counted(f, b) <==> (f.Range? ==> f.length >= 0 || f.begin + f.length < 0)
    ensures Backwards(f) ==> Hi(f, b) - Lo(f, b) == f.length && Counted(f, b) == 0 && Part(f, b) == []
    ensures !Backwards(f) ==> Hi(f, b) >= Lo(f, b)
  {
    hide Counted, Begin, End;
    if f.Range? {
      NotSkipped(f, b);
      BoundsAre(f);
    }
    CountedPart(f, b);
  }

  /** Which dumps are accepted. */
  lemma AcceptedIff(f: Filter, blocks: seq<Block>)
    requires FilterOk(f) && RangesOk(blocks) && blocks != []
    ensures (exists i :: 0 <= i < |blocks| && !Skipped(f, blocks[i]))
      <==> (f.Range? ==>
        && f.begin >= 0
        && exists i :: 0 <= i < |blocks| && blocks[i].start < End(f) && f.begin < blocks[i].end)
  {
    hide Begin, End;
    if f.All? {
      assert !Skipped(f, blocks[0]);
    } else {
      BoundsAre(f);
      forall i | 0 <= i < |blocks|
        ensures !Skipped(f, blocks[i]) <==> f.begin >= 0 && blocks[i].start < End(f) && f.begin < blocks[i].end
      {
        assert RangeOk(blocks[i]);
      }
    }
  }

  /** Four filters on one block: a negative begin is refused but counted as 50; a length that takes the end
      below 0 is no limit at all; two that run backwards ask for -50 and for -4096 bytes. */
  lemma OddFilters()
    ensures var b := Block(0, 0x10000, seq(0x10000, i => 0));
      && RangeOk(b)
      && Skipped(Range(-10, 50), b) && Counted(Range(-10, 50), b) == 50
      && !Skipped(Range(10, -50), b) && Hi(Range(10, -50), b) - Lo(Range(10, -50), b) == 0xfff6
      && Counted(Range(10, -50), b) == 0xfff6
      && !Skipped(Range(100, -50), b) && Hi(Range(100, -50), b) - Lo(Range(100, -50), b) == -50
      && Counted(Range(100, -50), b) == 0
      && !Skipped(Range(8192, -4096), b) && Hi(Range(8192, -4096), b) - Lo(Range(8192, -4096), b) == -4096
      && Counted(Range(8192, -4096), b) == 0
      && !Writable(Range(100, -50), 4096) && Writable(Range(8192, -4096), 4096)
  {
  }

  /** Two filters with a negative begin whose count can be 0 all the same: one whose width overflows in every
      block, and one of 2^62 bytes that end at address 0, which add up to a multiple of 2^64 over four blocks. */
  lemma {:induction false} NegativeBeginZero(blocks: seq<Block>)
    requires RangesOk(blocks)
    ensures Spread(Range(-I63, 0), blocks) == 0
    ensures Spread(Range(-I63 / 2, I63 / 2), blocks) == I63 / 2 * |blocks|
  {
    BoundsAre(Range(-I63, 0));
    BoundsAre(Range(-I63 / 2, I63 / 2));
    if blocks != [] {
      assert RangeOk(blocks[|blocks| - 1]);
      NegativeBeginZero(blocks[..|blocks| - 1]);
    }
  }

  lemma {:induction false} ImageSkip(f: Filter, blocks: seq<Block>, i: nat, j: nat)
    requires RangesOk(blocks) && i <= j <= |blocks|
    requires forall k :: i <= k < j ==> Skipped(f, blocks[k])
    ensures Image(f, blocks[..i]) == Image(f, blocks[..j])
    decreases j
  {
    if i < j {
      ImageSkip(f, blocks, i, j - 1);
      ImageNext(f, blocks, j - 1);
      assert Part(f, blocks[j - 1]) == [];
    }
  }

  class ElfDump {
    const f: Filter
    const blocks: seq<Block>
    const page: nat
    var nextBlock: int
    var start: int
    var out: seq<Byte>
    var writtenSize: nat

    ghost predicate Valid()
      reads this
    {
      FilterOk(f) && RangesOk(blocks) && page > 0
    }

    /** The next block is inside the filter, and start is where its part begins. */
    ghost predicate Selected()
      reads this
    {
      && Valid() && 0 <= nextBlock < |blocks| && !Skipped(f, blocks[nextBlock])
      && start == Lo(f, blocks[nextBlock]) - blocks[nextBlock].start
    }

    constructor (f: Filter, blocks: seq<Block>, page: nat)
      requires FilterOk(f) && RangesOk(blocks) && page > 0
      ensures this.f == f && this.blocks == blocks && this.page == page && out == [] && writtenSize == 0 && Valid()
    {
      this.f, this.blocks, this.page := f, blocks, page;
      nextBlock, start, out, writtenSize := 0, 0, [], 0;
    }

    /** get_start_block and the assignment of its result in dump_init. */
    method GetStartBlock()
      requires Valid() && blocks != []
      modifies this`nextBlock, this`start
      ensures start == -1 <==> forall i :: 0 <= i < |blocks| ==> Skipped(f, blocks[i])
      ensures start != -1 ==> Selected() && forall i :: 0 <= i < nextBlock ==> Skipped(f, blocks[i])
    {
      if f.All? {
        nextBlock, start := 0, 0;
        return;
      }
      for i := 0 to |blocks|
        invariant forall j :: 0 <= j < i ==> Skipped(f, blocks[j])
      {
        var b := blocks[i];
        if b.start >= Unsigned64(f.begin + f.length) || b.end <= Unsigned64(f.begin) {
          continue;
        }
        NotSkipped(f, b);
        nextBlock := i;
        start := if Unsigned64(f.begin) > b.start then f.begin - b.start else 0;
        return;
      }
      start := -1;
    }

    method GetNextBlock(block: nat) returns (end: bool)
      requires Valid() && block < |blocks|
      modifies this`nextBlock, this`start
      ensures end ==> forall i :: block < i < |blocks| ==> Skipped(f, blocks[i])
      ensures !end ==> Selected() && block < nextBlock && forall i :: block < i < nextBlock ==> Skipped(f, blocks[i])
    {
      var i := block;
      while true
        invariant block <= i < |blocks|
        invariant forall j :: block < j <= i ==> Skipped(f, blocks[j])
        decreases |blocks| - i
      {
        i := i + 1;
        if i == |blocks| {
          return true;
        }
        start := 0;
        nextBlock := i;
        if f.Range? {
          if blocks[i].start >= Unsigned64(f.begin + f.length) || blocks[i].end <= Unsigned64(f.begin) {
            continue;
          }
          NotSkipped(f, blocks[i]);
          if Unsigned64(f.begin) > blocks[i].start {
            start := f.begin - blocks[i].start;
          }
        }
        return false;
      }
    }

    /** write_data, for a write that succeeds. */
    method WriteData(bytes: seq<Byte>)
      modifies this`out, this`writtenSize
      ensures out == old(out) + bytes && writtenSize == old(writtenSize) + |bytes|
    {
      out := out + bytes;
      writtenSize := writtenSize + |bytes|;
    }

    /** write_memory: one page at a time, then the rest. A negative rest is handed on as a huge count, and that
        write fails; a negative size that is a multiple of the page size leaves nothing to write. */
    method WriteMemory(b: Block, from: nat, size: int) returns (ok: bool)
      requires RangeOk(b) && page > 0 && (size >= 0 ==> from + size <= |b.memory|)
      modifies this`out, this`writtenSize
      ensures ok <==> size >= 0 || size % page == 0
      ensures size >= 0 ==> out == old(out) + b.memory[from..from + size] && writtenSize == old(writtenSize) + size
      ensures size < 0 ==> writtenSize == old(writtenSize) && (ok ==> out == old(out))
    {
      var quotient, rest := TruncatedDiv(size, page);
      if size < 0 {
        NegativeDiv(size, page);
      } else {
        WholePages(size, page);
      }
      var at := WritePages(b, from, size, quotient);
      if rest < 0 {
        return false;
      }
      if rest != 0 {
        assert b.memory[from..at] + b.memory[at..from + size] == b.memory[from..from + size];
        WriteData(b.memory[at..at + rest]);
      }
      ok := true;
    }

    /** The loop of write_memory. */
    method WritePages(b: Block, from: nat, size: int, quotient: int) returns (at: nat)
      requires RangeOk(b) && page > 0
      requires if size < 0 then quotient <= 0 else from + size <= |b.memory| && quotient == size / page
      modifies this`out, this`writtenSize
      ensures size < 0 ==> unchanged(this)
      ensures size >= 0 ==>
        && at == from + quotient * page <= from + size
        && out == old(out) + b.memory[from..at]
        && writtenSize == old(writtenSize) + (at - from)
    {
      var i := 0;
      at := from;
      if size >= 0 { WholePages(size, page); }
      while i < quotient
        invariant 0 <= i && (size < 0 ==> unchanged(this))
        invariant size >= 0 ==> i <= quotient && at == from + i * page <= from + size
        invariant size >= 0 ==> out == old(out) + b.memory[from..at] && writtenSize == old(writtenSize) + (at - from)
      {
        NextPage(i, size, page);
        assert b.memory[from..at] + b.memory[at..at + page] == b.memory[from..at + page];
        WriteData(b.memory[at..at + page]);
        i := i + 1;
        at := at + page;
      }
    }

    method DumpIterate() returns (ok: bool)
      requires Selected()
      requires forall i :: 0 <= i < nextBlock ==> Skipped(f, blocks[i])
      modifies this`nextBlock, this`start, this`out, this`writtenSize
      ensures ok <==> Writable(f, page)
      ensures ok ==> out == old(out) + Image(f, blocks) && writtenSize == old(writtenSize) + |Image(f, blocks)|
      ensures !ok ==> writtenSize == old(writtenSize) && Image(f, blocks) == []
    {
      hide Image, Part, Skipped, Unsigned64, Backwards, Writable, Lo, Hi;
      if Backwards(f) { BackwardsImage(f, blocks); }
      ImageNone(f, blocks);
      ImageSkip(f, blocks, 0, nextBlock);
      var more := true;
      while more
        invariant Valid() && (more ==> Selected())
        invariant more ==> out == old(out) + Image(f, blocks[..nextBlock])
        invariant !more ==> out == old(out) + Image(f, blocks) && Writable(f, page)
        invariant writtenSize == old(writtenSize) + |out| - |old(out)|
        invariant Backwards(f) ==> out == old(out)
        decreases if more then |blocks| - nextBlock else -1
      {
        var i := nextBlock;
        var b := blocks[i];
        var size := IterateSize(b, start);
        SizeSigns(f, b, page);
        PartOf(f, b);
        ImageNext(f, blocks, i);
        ok := WriteMemory(b, start, size);
        if !ok {
          return;
        }
        assert out == old(out) + Image(f, blocks[..i + 1]);
        var end := GetNextBlock(i);
        more := !end;
        ImageSkip(f, blocks, i + 1, if more then nextBlock else |blocks|);
      }
      ok := true;
    }

    /** The size that dump_iterate computes, in 64-bit arithmetic. */
    method IterateSize(b: Block, start: int) returns (size: int)
      requires FilterOk(f) && RangeOk(b) && !Skipped(f, b) && start == Lo(f, b) - b.start
      ensures size == Hi(f, b) - Lo(f, b)
    {
      hide Signed64, Unsigned64;
      size := b.end - b.start;
      if f.Range? {
        NotSkipped(f, b);
        SignedSmall(b.end - Lo(f, b));
        SignedSmall(Hi(f, b) - Lo(f, b));
        size := Signed64(size - start);
        if Unsigned64(f.begin + f.length) < b.end {
          size := Signed64(size - (b.end - (f.begin + f.length)));
        }
      }
    }
  }

  /** C division and remainder, which truncate toward zero. */
  function TruncatedQuotient(x: int, d: nat): int
    requires d > 0
  {
    if x >= 0 then x / d else -((-x) / d)
  }

  method TruncatedDiv(x: int, d: nat) returns (quotient: int, rest: int)
    requires d > 0
    ensures quotient == TruncatedQuotient(x, d)
    ensures rest == if x >= 0 then x % d else -((-x) % d)
  {
    quotient := TruncatedQuotient(x, d);
    rest := if x >= 0 then x % d else -((-x) % d);
  }

  /** A negative size gives no whole page, and a rest of 0 exactly for a multiple. */
  lemma NegativeDiv(x: int, d: nat)
    requires d > 0 && x < 0
    ensures TruncatedQuotient(x, d) <= 0
    ensures -((-x) % d) <= 0 && ((-x) % d == 0 <==> x % d == 0)
  {
    var q, r := (-x) / d, (-x) % d;
    assert -x == d * q + r;
    WholePages(-x, d);
    if r == 0 {
      RemainderZero(x, d, -q);
    } else {
      assert x == d * (-q - 1) + (d - r);
      RemainderIs(x, d, -q - 1, d - r);
    }
  }

  lemma RemainderZero(x: int, d: nat, q: int)
    requires d > 0 && x == d * q
    ensures x % d == 0
  {
    RemainderIs(x, d, q, 0);
  }

  /** What the selected size is taken from. */
  lemma PartOf(f: Filter, b: Block)
    requires FilterOk(f) && RangeOk(b) && !Skipped(f, b)
    ensures var start, size := Lo(f, b) - b.start, Hi(f, b) - Lo(f, b);
      && 0 <= start
      && (size >= 0 ==> start + size <= |b.memory| && b.memory[start..start + size] == Part(f, b))
      && (size < 0 ==> Part(f, b) == [])
  {
    hide Begin, End;
    if f.Range? { NotSkipped(f, b); }
  }

  lemma SizeSigns(f: Filter, b: Block, page: nat)
    requires FilterOk(f) && RangeOk(b) && !Skipped(f, b) && page > 0
    ensures var size := Hi(f, b) - Lo(f, b);
      && (size >= 0 || size % page == 0 <==> Writable(f, page))
      && (Backwards(f) <==> size < 0)
  {
    SizesAgree(f, b);
  }

  /** A filter that runs backwards selects no byte. */
  lemma {:induction false} BackwardsImage(f: Filter, blocks: seq<Block>)
    requires FilterOk(f) && RangesOk(blocks) && Backwards(f)
    ensures Image(f, blocks) == []
  {
    hide Begin, End;
    BoundsAre(f);
    if blocks != [] { BackwardsImage(f, blocks[..|blocks| - 1]); }
  }

  lemma WholePages(size: nat, page: nat)
    requires page > 0
    ensures size == (size / page) * page + size % page && size / page >= 0 && size % page < page
  {
  }

  lemma NextPage(i: nat, size: nat, page: nat)
    requires page > 0 && i < size / page
    ensures (i + 1) * page == i * page + page <= size
  {
    WholePages(size, page);
    MulStep(i, size / page, page);
  }

  // ------------------------------------------------------------------------------------------
  // The headers in front: dump_init, write_elf_loads, dump_begin, create_vmcore

  ghost predicate LoadsOk(f: Filter, blocks: seq<Block>, memoryOffset: nat, mappings: seq<Mapping>, loads: seq<Load>)
    requires RangesOk(blocks)
  {
    && |loads| <= |mappings|
    && (forall j :: 0 <= j < |loads| ==>
          && mappings[j] == Mapping(loads[j].paddr, loads[j].vaddr, loads[j].memsz) && loads[j].filesz <= loads[j].memsz
          && (Ends(f, mappings[j]) ==>
                Located(f, blocks, memoryOffset, loads[j].paddr, loads[j].memsz, loads[j].offset, loads[j].filesz)))
  }

  lemma NoLoads(f: Filter, blocks: seq<Block>, memoryOffset: nat, mappings: seq<Mapping>, class64: bool)
    requires RangesOk(blocks)
    ensures LoadsOk(f, blocks, memoryOffset, mappings, []) && PhdrBytes(class64, LoadPhdrs([])) == []
  {
  }

  lemma LoadsNext(f: Filter, blocks: seq<Block>, memoryOffset: nat, mappings: seq<Mapping>, loads: seq<Load>,
                  load: Load, class64: bool)
    requires RangesOk(blocks) && LoadsOk(f, blocks, memoryOffset, mappings, loads) && |loads| < |mappings|
    requires mappings[|loads|] == Mapping(load.paddr, load.vaddr, load.memsz) && load.filesz <= load.memsz
    requires Ends(f, mappings[|loads|]) ==>
      Located(f, blocks, memoryOffset, load.paddr, load.memsz, load.offset, load.filesz)
    ensures LoadsOk(f, blocks, memoryOffset, mappings, loads + [load])
    ensures PhdrBytes(class64, LoadPhdrs(loads + [load]))
         == PhdrBytes(class64, LoadPhdrs(loads)) + EncodePhdr(class64, LoadPhdr(load))
  {
    hide Located, RangesOk, EncodePhdr, LoadPhdr, PhdrBytes;
    PhdrBytesNext(class64, LoadPhdrs(loads), LoadPhdr(load));
    assert LoadPhdrs(loads + [load]) == LoadPhdrs(loads) + [LoadPhdr(load)];
  }

  /** Every mapping gets its program header, up to the largest count the section header can express. */
  method WriteElfLoads(d: ElfDump, e: Format, mappings: seq<Mapping>,
      memoryOffset: nat) returns (ghost loads: seq<Load>)
    requires d.Valid()
    modifies d`out
    ensures LoadsOk(d.f, d.blocks, memoryOffset, mappings, loads)
    ensures |loads| == PhdrCount(|mappings|) - 1
    ensures d.out == old(d.out) + PhdrBytes(e.class64, LoadPhdrs(loads))
  {
    hide Located, RangesOk, EncodePhdr, LoadPhdr, LoadPhdrs, PhdrBytes, LoadsOk;
    NoLoads(d.f, d.blocks, memoryOffset, mappings, e.class64);
    var phdrIndex, maxIndex := 1, PhdrCount(|mappings|);
    loads := [];
    var i := 0;
    while i < |mappings|
      invariant i == |loads| == phdrIndex - 1 && i <= |mappings|
      invariant mappings != [] ==> phdrIndex < maxIndex
      invariant LoadsOk(d.f, d.blocks, memoryOffset, mappings, loads)
      invariant d.out == old(d.out) + PhdrBytes(e.class64, LoadPhdrs(loads))
    {
      var offset, filesz := GetOffsetRange(d.f, d.blocks, memoryOffset, mappings[i].phys, mappings[i].length);
      var load := Load(offset, mappings[i].virt, mappings[i].phys, filesz, mappings[i].length);
      d.out := d.out + EncodePhdr(e.class64, LoadPhdr(load));
      LoadsNext(d.f, d.blocks, memoryOffset, mappings, loads, load, e.class64);
      loads := loads + [load];
      phdrIndex := phdrIndex + 1;
      i := i + 1;
      if phdrIndex >= maxIndex {
        break;
      }
    }
  }

  /** All headers of the file. */
  function AllPhdrs(e: Format, num: nat, loads: seq<Load>): seq<Phdr> { [NoteOf(e, num)] + LoadPhdrs(loads) }

  /** The headers are written in order, and memory starts where memory_offset said it would. */
  method DumpBegin(d: ElfDump, e: Format, mappings: seq<Mapping>) returns (ghost loads: seq<Load>)
    requires d.Valid() && FormatOk(e) && d.out == []
    modifies d`out
    ensures d.out == Front(e, |mappings|, AllPhdrs(e, |mappings|, loads))
    ensures |d.out| == MemoryOffset(e.class64, |mappings|, |e.notes|)
    ensures |loads| == PhdrCount(|mappings|) - 1
    ensures LoadsOk(d.f, d.blocks, MemoryOffset(e.class64, |mappings|, |e.notes|), mappings, loads)
  {
    hide RangesOk, LoadsOk, EncodeEhdr, EncodePhdr, NoteOf, LoadPhdrs, PhdrBytes, Front, HeaderOf, AllPhdrs;
    var num := |mappings|;
    var memoryOffset := MemoryOffset(e.class64, num, |e.notes|);
    d.out := d.out + EncodeEhdr(HeaderOf(e, num));
    d.out := d.out + EncodePhdr(e.class64, NoteOf(e, num));
    loads := WriteElfLoads(d, e, mappings, memoryOffset);
    FrontIs(e, num, loads);
    if HaveSection(num) {
      d.out := d.out + e.stack;
    }
    d.out := d.out + e.notes;
  }

  lemma FrontIs(e: Format, num: nat, loads: seq<Load>)
    requires FormatOk(e) && |loads| == PhdrCount(num) - 1
    ensures Front(e, num, AllPhdrs(e, num, loads))
         == EncodeEhdr(HeaderOf(e, num)) + EncodePhdr(e.class64, NoteOf(e, num))
            + PhdrBytes(e.class64, LoadPhdrs(loads)) + (if HaveSection(num) then e.stack else []) + e.notes
    ensures |Front(e, num, AllPhdrs(e, num, loads))| == MemoryOffset(e.class64, num, |e.notes|)
  {
    hide EncodeEhdr, EncodePhdr, NoteOf, LoadPhdr, PhdrBytes, HeaderOf;
    PhdrBytesOne(e.class64, NoteOf(e, num));
    PhdrBytesJoin(e.class64, [NoteOf(e, num)], LoadPhdrs(loads));
    FrontSize(e, num, AllPhdrs(e, num, loads));
  }

  /** A program header with a file range points at the memory of its mapping. */
  ghost predicate Served(f: Filter, blocks: seq<Block>, file: seq<Byte>, m: Mapping, l: Load) {
    && (l.offset == -1 <==> forall i :: 0 <= i < |blocks| ==> !Wanted(f, blocks[i], m.phys))
    && (l.offset == -1 ==> l.filesz == 0)
    && (l.offset != -1 ==> exists i: nat :: ServedBy(f, blocks, file, m, l, i))
  }

  ghost predicate ServedBy(f: Filter, blocks: seq<Block>, file: seq<Byte>, m: Mapping, l: Load, i: nat) {
    && i < |blocks| && RangeOk(blocks[i]) && Wanted(f, blocks[i], m.phys)
    && l.filesz == Min(m.length, Hi(f, blocks[i]) - m.phys)
    && 0 <= l.offset && l.offset + l.filesz <= |file|
    && file[l.offset..l.offset + l.filesz]
         == blocks[i].memory[m.phys - blocks[i].start..m.phys - blocks[i].start + l.filesz]
  }

  lemma LocatedServes(f: Filter, blocks: seq<Block>, front: seq<Byte>, m: Mapping, l: Load)
    requires RangesOk(blocks) && Located(f, blocks, |front|, m.phys, m.length, l.offset, l.filesz)
    ensures Served(f, blocks, front + Image(f, blocks), m, l)
  {
    hide Image, Wanted, Hi, Lo;
    if l.offset != -1 {
      var i: nat :| FoundIn(f, blocks, |front|, m.phys, m.length, l.offset, l.filesz, i);
      SliceSuffix(front, Image(f, blocks), l.offset - |front|, l.filesz);
      assert ServedBy(f, blocks, front + Image(f, blocks), m, l, i);
    }
  }

  /** A reader of the file obtains PT_NOTE and the headers of the loads, cut to the width of the class, if and
      only if it reads their number, which is certain below 65533 mappings; PT_NOTE points at the notes. */
  ghost predicate HeadersBack(e: Format, num: nat, loads: seq<Load>, file: seq<Byte>)
    requires FormatOk(e)
  {
    && (e.class64 || |file| < WordLimit(e.class64) ==>
          (ReadHeaders(file) == Some(CroppedAll(e.class64, AllPhdrs(e, num, loads))) <==>
           CountRead(e, num) == PhdrCount(num)))
    && (!HaveSection(num) ==> CountRead(e, num) == PhdrCount(num))
    && NoteOf(e, num).offset + |e.notes| <= |file|
    && file[NoteOf(e, num).offset..NoteOf(e, num).offset + |e.notes|] == e.notes
  }

  lemma FileHeaders(e: Format, num: nat, loads: seq<Load>, image: seq<Byte>)
    requires FormatOk(e) && |loads| == PhdrCount(num) - 1
    ensures HeadersBack(e, num, loads, Front(e, num, AllPhdrs(e, num, loads)) + image)
  {
    hide Front, ReadHeaders, CroppedAll, CountRead;
    var phdrs := AllPhdrs(e, num, loads);
    NotesAt(e, num, phdrs, image);
    if !HaveSection(num) { NoSection(e, num); }
    if e.class64 || |Front(e, num, phdrs) + image| < WordLimit(e.class64) {
      FrontPieces(e, num, phdrs, image);
      ReadFront(e, num, phdrs, image);
    }
  }

  /** The dump is refused before anything is written, fails while memory is written, or is complete. */
  datatype Outcome = Refused | Failed | Complete

  /** Refused exactly if no block matches; failed exactly if one does and the filter runs backwards by a length
      that is no multiple of the page size. */
  ghost predicate Decided(f: Filter, blocks: seq<Block>, page: nat, outcome: Outcome)
    requires page > 0
  {
    && (outcome == Refused <==> forall i :: 0 <= i < |blocks| ==> Skipped(f, blocks[i]))
    && (outcome == Failed <==> (exists i :: 0 <= i < |blocks| && !Skipped(f, blocks[i])) && !Writable(f, page))
  }

  /** The bytes written against the total of dump_calculate_size: they are equal if and only if begin is not
      negative, or the widths counted add up to a multiple of 2^64. */
  ghost predicate Announced(f: Filter, blocks: seq<Block>, outcome: Outcome, written: nat, total: int)
    requires RangesOk(blocks)
  {
    && ((f.Range? ==> f.begin >= 0) ==> written == total == |Image(f, blocks)|)
    && (f.Range? && f.begin < 0 ==> outcome == Refused && written == 0 && total == Signed64(Spread(f, blocks)))
    && (f.Range? && f.begin < 0 && SmallWidths(f, blocks) && Spread(f, blocks) < I63 ==> written < |blocks| <= total)
    && (written == total <==> (f.Range? && f.begin < 0 ==> Spread(f, blocks) % U64 == 0))
  }

  /** dump_init's size and block search, and create_vmcore, for any list of mappings. */
  method CreateVmcore(d: ElfDump, e: Format, mappings: seq<Mapping>)
    returns (outcome: Outcome, total: int, ghost loads: seq<Load>)
    requires d.Valid() && Ascending(d.blocks) && d.blocks != [] && FormatOk(e)
    requires d.out == [] && d.writtenSize == 0
    modifies d
    ensures Decided(d.f, d.blocks, d.page, outcome)
    ensures outcome != Refused ==>
      && |loads| == PhdrCount(|mappings|) - 1 <= |mappings|
      && LoadsOk(d.f, d.blocks, MemoryOffset(e.class64, |mappings|, |e.notes|), mappings, loads)
    ensures outcome == Complete ==>
      && d.out == Front(e, |mappings|, AllPhdrs(e, |mappings|, loads)) + Image(d.f, d.blocks)
      && HeadersBack(e, |mappings|, loads, d.out)
      && |d.out| == MemoryOffset(e.class64, |mappings|, |e.notes|) + |Image(d.f, d.blocks)|
      && forall j :: 0 <= j < |loads| && Ends(d.f, mappings[j]) ==> Served(d.f, d.blocks, d.out, mappings[j], loads[j])
    ensures Announced(d.f, d.blocks, outcome, d.writtenSize, total)
  {
    hide Image, Skipped, Located, Served, Front, AllPhdrs, HeadersBack, Writable, Counted, Signed64, Unsigned64, Spread;
    total := DumpCalculateSize(d.f, d.blocks);
    TotalIs(d.f, d.blocks);
    loads := [];
    d.GetStartBlock();
    if d.start == -1 {
      RefusedImage(d.f, d.blocks);
      return Refused, total, [];
    }
    loads := DumpBegin(d, e, mappings);
    ghost var front := d.out;
    var ok := d.DumpIterate();
    if !ok {
      return Failed, total, loads;
    }
    FileHeaders(e, |mappings|, loads, Image(d.f, d.blocks));
    forall j | 0 <= j < |loads| && Ends(d.f, mappings[j]) ensures Served(d.f, d.blocks, d.out, mappings[j], loads[j]) {
      LocatedServes(d.f, d.blocks, front, mappings[j], loads[j]);
    }
    outcome := Complete;
  }

  lemma SignedZero(x: int)
    ensures Signed64(x) == 0 <==> x % U64 == 0
  {
  }

  /** What dump_calculate_size returns, by the sign of the filter's begin. */
  lemma TotalIs(f: Filter, blocks: seq<Block>)
    requires FilterOk(f) && RangesOk(blocks) && Ascending(blocks) && blocks != []
    ensures (f.Range? ==> f.begin >= 0) ==> Signed64(CountedAll(f, blocks)) == |Image(f, blocks)|
    ensures f.Range? && f.begin < 0 ==> forall i :: 0 <= i < |blocks| ==> Skipped(f, blocks[i])
    ensures f.Range? && f.begin < 0 ==>
      var spread := Spread(f, blocks);
      && Signed64(CountedAll(f, blocks)) == Signed64(spread) && (Signed64(spread) == 0 <==> spread % U64 == 0)
      && (SmallWidths(f, blocks) && spread < I63 ==> |blocks| <= Signed64(spread))
  {
    hide Image, CountedAll, Spread, Signed64, Begin, End;
    if f.Range? && f.begin < 0 {
      NegativeBeginCounts(f, blocks);
      SignedZero(Spread(f, blocks));
      if Spread(f, blocks) < I63 { SignedSmall(Spread(f, blocks)); }
    } else {
      CountedImage(f, blocks);
      ImageBound(f, blocks);
      SignedSmall(|Image(f, blocks)|);
    }
  }

  lemma RefusedImage(f: Filter, blocks: seq<Block>)
    requires RangesOk(blocks) && forall i :: 0 <= i < |blocks| ==> Skipped(f, blocks[i])
    ensures Image(f, blocks) == []
  {
    ImageNone(f, blocks);
    ImageSkip(f, blocks, 0, |blocks|);
  }
}
