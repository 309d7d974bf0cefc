// The RAM block list of exec.c: best-fit allocation of RAM offsets, sorted insertion, removal and the
// most-recently-used block cache.

module RamLists {
  import opened Basics

  const RAM_ADDR_MAX: nat := 0xffff_ffff_ffff_ffff
  const U64: nat := 0x1_0000_0000_0000_0000

  /** A RAMBlock; name stands for the pointer. */
  datatype RamBlock = RamBlock(name: nat, offset: nat, maxLength: nat)

  function End(b: RamBlock): nat { b.offset + b.maxLength }

  predicate Contains(b: RamBlock, addr: nat) { b.offset <= addr < End(b) }

  /** The test of the lookup, with unsigned 64-bit wrap-around. */
  predicate Hit(b: RamBlock, addr: nat) { (addr - b.offset) % U64 < b.maxLength }

  predicate Apart(a: RamBlock, b: RamBlock) { End(a) <= b.offset || End(b) <= a.offset }

  predicate InRange(b: RamBlock) { b.maxLength > 0 && End(b) <= RAM_ADDR_MAX }

  ghost predicate BlocksOk(blocks: seq<RamBlock>) {
    && (forall i :: 0 <= i < |blocks| ==> InRange(blocks[i]))
    && (forall i, j :: 0 <= i < j < |blocks| ==> Ordered(blocks[i], blocks[j]))
  }

  /** Two blocks of the list, the first before the second. */
  predicate Ordered(a: RamBlock, b: RamBlock) {
    Apart(a, b) && a.maxLength >= b.maxLength
  }

  lemma HitIff(b: RamBlock, addr: nat)
    requires InRange(b) && addr <= RAM_ADDR_MAX
    ensures Hit(b, addr) <==> Contains(b, addr)
  {
  }

  // ------------------------------------------------------------------------------------------
  // Gaps

  /** Where the free space that starts at an offset ends: the next block's start, or the top. */
  function NextStart(blocks: seq<RamBlock>, at: nat): (r: nat)
    ensures forall b :: b in blocks && b.offset >= at ==> r <= b.offset
    ensures r == RAM_ADDR_MAX || exists b :: b in blocks && b.offset >= at && r == b.offset
    ensures r <= RAM_ADDR_MAX
  {
    if blocks == [] then RAM_ADDR_MAX
    else
      var b := blocks[|blocks| - 1];
      var next := NextStart(blocks[..|blocks| - 1], at);
      if b.offset >= at && b.offset < next then b.offset else next
  }

  lemma NextStartOne(blocks: seq<RamBlock>, i: nat, at: nat)
    requires i < |blocks|
    ensures var next := NextStart(blocks[..i], at);
      NextStart(blocks[..i + 1], at) == if blocks[i].offset >= at && blocks[i].offset < next then blocks[i].offset
          else next
  {
    assert blocks[..i + 1][..i] == blocks[..i];
  }

  /** The size of the gap right after block i. */
  function Gap(blocks: seq<RamBlock>, i: nat): int
    requires i < |blocks|
  {
    NextStart(blocks, End(blocks[i])) - End(blocks[i])
  }

  /** In a valid list no gap is negative, and none is RAM_ADDR_MAX. */
  lemma GapBounds(blocks: seq<RamBlock>, i: nat)
    requires BlocksOk(blocks) && i < |blocks|
    ensures 0 <= Gap(blocks, i) < RAM_ADDR_MAX
  {
    assert InRange(blocks[i]);
  }

  /** The first of the smallest gaps of at least the given size, among those that follow a block. */
  ghost predicate BestFit(blocks: seq<RamBlock>, size: nat, offset: nat) {
    exists i: nat :: BestAt(blocks, size, offset, i)
  }

  ghost predicate BestAt(blocks: seq<RamBlock>, size: nat, offset: nat, i: nat) {
    && i < |blocks| && offset == End(blocks[i]) && Gap(blocks, i) >= size
    && (forall j: nat :: j < |blocks| && Gap(blocks, j) >= size ==>
          Gap(blocks, i) <= Gap(blocks, j) && (Gap(blocks, i) == Gap(blocks, j) ==> i <= j))
  }

  /** A block placed at a best fit overlaps none of the others. */
  lemma BestFitApart(blocks: seq<RamBlock>, b: RamBlock, k: nat)
    requires BlocksOk(blocks) && BestFit(blocks, b.maxLength, b.offset) && b.maxLength > 0 && k < |blocks|
    ensures Apart(b, blocks[k]) && InRange(b)
  {
    var i: nat :| BestAt(blocks, b.maxLength, b.offset, i);
    assert blocks[k] in blocks;
    if k < i { assert Ordered(blocks[k], blocks[i]); }
    if i < k { assert Ordered(blocks[i], blocks[k]); }
  }

  /** Space below every block is never handed out: here half of the address space is free and no gap
      fits a single byte. */
  lemma LowHoleUnused()
    ensures var half := 0x8000_0000_0000_0000;
      var blocks := [RamBlock(1, half, half - 1)];
      && BlocksOk(blocks) && Gap(blocks, 0) == 0
      && forall addr: nat :: addr < half ==> !Contains(blocks[0], addr)
  {
  }

  // ------------------------------------------------------------------------------------------
  // Lookup without the cache

  function Search(blocks: seq<RamBlock>, addr: nat): Option<RamBlock> {
    if blocks == [] then None
    else if Contains(blocks[0], addr) then Some(blocks[0])
    else Search(blocks[1..], addr)
  }

  lemma {:induction false} SearchFinds(blocks: seq<RamBlock>, addr: nat, i: nat)
    requires BlocksOk(blocks) && i < |blocks| && Contains(blocks[i], addr)
    ensures Search(blocks, addr) == Some(blocks[i])
  {
    if i > 0 {
      assert Ordered(blocks[0], blocks[i]);
      SearchFinds(blocks[1..], addr, i - 1);
    }
  }

  lemma {:induction false} SearchMisses(blocks: seq<RamBlock>, addr: nat)
    requires forall i :: 0 <= i < |blocks| ==> !Contains(blocks[i], addr)
    ensures Search(blocks, addr) == None
  {
    if blocks != [] { SearchMisses(blocks[1..], addr); }
  }

  // ------------------------------------------------------------------------------------------
  // Sorted insertion

  function Insert(blocks: seq<RamBlock>, at: nat, b: RamBlock): seq<RamBlock>
    requires at <= |blocks|
  {
    blocks[..at] + [b] + blocks[at..]
  }

  lemma InsertOk(blocks: seq<RamBlock>, at: nat, b: RamBlock)
    requires BlocksOk(blocks) && at <= |blocks| && InRange(b)
    requires forall k: nat :: k < |blocks| ==> Apart(b, blocks[k])
    requires forall k: nat :: k < at ==> blocks[k].maxLength >= b.maxLength
    requires at < |blocks| ==> blocks[at].maxLength < b.maxLength
    ensures BlocksOk(Insert(blocks, at, b))
  {
    hide InRange, Ordered;
    var r := Insert(blocks, at, b);
    forall i, j | 0 <= i < j < |r| ensures Ordered(r[i], r[j]) {
      if j == at { OrderedBy(blocks[i], b); }
      if i == at {
        OrderedBy(b, blocks[j - 1]) by {
          if j - 1 > at { OrderedLength(blocks[at], blocks[j - 1]); }
        }
      }
    }
  }

  lemma OrderedBy(a: RamBlock, b: RamBlock)
    requires (Apart(a, b) || Apart(b, a)) && a.maxLength >= b.maxLength
    ensures Ordered(a, b)
  {
  }

  lemma OrderedLength(a: RamBlock, b: RamBlock)
    requires Ordered(a, b)
    ensures a.maxLength >= b.maxLength
  {
  }

  lemma InsertContents(blocks: seq<RamBlock>, at: nat, b: RamBlock)
    requires at <= |blocks|
    ensures multiset(Insert(blocks, at, b)) == multiset(blocks) + multiset{b}
  {
    assert blocks == blocks[..at] + blocks[at..];
  }

  function Remove(blocks: seq<RamBlock>, i: nat): seq<RamBlock>
    requires i < |blocks|
  {
    blocks[..i] + blocks[i + 1..]
  }

  lemma RemoveOk(blocks: seq<RamBlock>, i: nat)
    requires BlocksOk(blocks) && i < |blocks|
    ensures BlocksOk(Remove(blocks, i))
  {
    hide InRange, Ordered;
    var r := Remove(blocks, i);
    forall j, k | 0 <= j < k < |r| ensures Ordered(r[j], r[k]) {
      var j', k' := if j < i then j else j + 1, if k < i then k else k + 1;
      assert Ordered(blocks[j'], blocks[k']);
    }
  }

  lemma RemoveContents(blocks: seq<RamBlock>, i: nat)
    requires i < |blocks|
    ensures multiset(Remove(blocks, i)) == multiset(blocks) - multiset{blocks[i]}
  {
    assert blocks == blocks[..i] + [blocks[i]] + blocks[i + 1..];
  }

  class RamList {
    var blocks: seq<RamBlock>
    var mruBlock: Option<RamBlock>

    ghost predicate Valid()
      reads this
    {
      BlocksOk(blocks) && (mruBlock.Some? ==> mruBlock.value in blocks)
    }

    constructor ()
      ensures Valid() && blocks == []
    {
      blocks, mruBlock := [], None;
    }

    /** find_ram_offset; None where it aborts. */
    method FindRamOffset(size: nat) returns (r: Option<nat>)
      requires Valid() && size > 0
      ensures blocks == [] ==> r == Some(0)
      ensures blocks != [] && r.Some? ==> BestFit(blocks, size, r.value)
      ensures r.None? <==> blocks != [] && forall i: nat :: i < |blocks| ==> Gap(blocks, i) < size
    {
      hide BlocksOk, NextStart, Gap;
      if blocks == [] {
        return Some(0);
      }
      var offset, minGap := RAM_ADDR_MAX, RAM_ADDR_MAX;
      ghost var best: nat := 0;
      for i := 0 to |blocks|
        invariant offset == RAM_ADDR_MAX ==> minGap == RAM_ADDR_MAX && forall j: nat :: j < i ==> Gap(blocks, j) < size
        invariant offset != RAM_ADDR_MAX ==>
          && best < i && offset == End(blocks[best]) && minGap == Gap(blocks, best) >= size
          && forall j: nat :: j < i && Gap(blocks, j) >= size ==>
               minGap <= Gap(blocks, j) && (minGap == Gap(blocks, j) ==> best <= j)
      {
        var end, gap := GapAfter(i);
        if gap >= size && gap < minGap {
          offset, minGap := end, gap;
          best := i;
        }
      }
      if offset == RAM_ADDR_MAX {
        return None;
      }
      assert BestAt(blocks, size, offset, best);
      r := Some(offset);
    }

    /** The inner loop of find_ram_offset. */
    method GapAfter(i: nat) returns (end: nat, gap: int)
      requires Valid() && i < |blocks|
      ensures end == End(blocks[i]) && gap == Gap(blocks, i) && 0 <= gap < RAM_ADDR_MAX
      ensures gap > 0 ==> end < RAM_ADDR_MAX
    {
      end := blocks[i].offset + blocks[i].maxLength;
      var next := RAM_ADDR_MAX;
      for j := 0 to |blocks|
        invariant next == NextStart(blocks[..j], end)
      {
        NextStartOne(blocks, j, end);
        if blocks[j].offset >= end {
          next := if next < blocks[j].offset then next else blocks[j].offset;
        }
      }
      assert blocks[..|blocks|] == blocks;
      GapBounds(blocks, i);
      gap := next - end;
    }

    /** ram_block_add; gotHost says whether host memory was obtained. Ok is false where it gives up,
        with the list as it was. */
    method Add(name: nat, maxLength: nat, gotHost: bool) returns (ok: bool, offset: nat)
      requires Valid() && 0 < maxLength <= RAM_ADDR_MAX
      modifies this
      ensures Valid()
      ensures ok <==>
          gotHost && (old(blocks) == [] || exists i: nat :: i < |old(blocks)| && Gap(old(blocks), i) >= maxLength)
      ensures !ok ==> blocks == old(blocks) && mruBlock == old(mruBlock)
      ensures ok ==>
          multiset(blocks) == multiset(old(blocks)) + multiset{RamBlock(name, offset, maxLength)} && mruBlock == None
      ensures ok ==> if old(blocks) == [] then offset == 0 else BestFit(old(blocks), maxLength, offset)
    {
      hide NextStart, Gap, BestFit, BlocksOk;
      var r := FindRamOffset(maxLength);
      if r.None? || !gotHost {
        return false, 0;
      }
      offset := r.value;
      var b := RamBlock(name, offset, maxLength);
      forall k: nat | k < |blocks| ensures Apart(b, blocks[k]) && InRange(b) { BestFitApart(blocks, b, k); }
      var i := 0;
      while i < |blocks| && blocks[i].maxLength >= maxLength
        invariant i <= |blocks| && forall k: nat :: k < i ==> blocks[k].maxLength >= maxLength
      {
        i := i + 1;
      }
      InsertOk(blocks, i, b);
      InsertContents(blocks, i, b);
      blocks := Insert(blocks, i, b);
      mruBlock := None;
      ok := true;
    }

    /** qemu_ram_free of the block at a position of the list. */
    method Free(i: nat)
      requires Valid() && i < |blocks|
      modifies this
      ensures Valid() && mruBlock == None
      ensures multiset(blocks) == multiset(old(blocks)) - multiset{old(blocks)[i]}
    {
      RemoveOk(blocks, i);
      RemoveContents(blocks, i);
      blocks := Remove(blocks, i);
      mruBlock := None;
    }

    /** qemu_get_ram_block; None where it aborts. The cache never changes the answer. */
    method GetRamBlock(addr: nat) returns (r: Option<RamBlock>)
      requires Valid() && addr <= RAM_ADDR_MAX
      modifies this`mruBlock
      ensures Valid() && r == Search(blocks, addr)
      ensures mruBlock == if r.Some? then r else old(mruBlock)
    {
      hide Hit, Contains, Search;
      if mruBlock.Some? {
        var b := mruBlock.value;
        ghost var k :| 0 <= k < |blocks| && blocks[k] == b;
        HitIff(b, addr);
        if Hit(b, addr) {
          SearchFinds(blocks, addr, k);
          return Some(b);
        }
      }
      for i := 0 to |blocks|
        invariant mruBlock == old(mruBlock)
        invariant forall j :: 0 <= j < i ==> !Contains(blocks[j], addr)
      {
        HitIff(blocks[i], addr);
        if Hit(blocks[i], addr) {
          SearchFinds(blocks, addr, i);
          mruBlock := Some(blocks[i]);
          return mruBlock;
        }
      }
      SearchMisses(blocks, addr);
      r := None;
    }
  }

  /** The list of LowHoleUnused is reached by two allocations and a release, and then no allocation succeeds. */
  method ReachLowHole() returns (l: RamList)
    ensures fresh(l) && l.Valid() && l.blocks == [RamBlock(1, 0x8000_0000_0000_0000, 0x7fff_ffff_ffff_ffff)]
    ensures Gap(l.blocks, 0) == 0
  {
    hide BestFit, BlocksOk;
    var half := 0x8000_0000_0000_0000;
    l := new RamList();
    var ok, offset := l.Add(0, half, true);
    var first := RamBlock(0, 0, half);
    OnlyOne(l.blocks, first);
    GapAbove(first);
    ok, offset := l.Add(1, half - 1, true);
    assert ok;
    OnlyEnd(first, half - 1, offset);
    var i := if l.blocks[0] == first then 0 else 1;
    TwoBlocks(l.blocks, first, RamBlock(1, half, half - 1));
    l.Free(i);
    OnlyOne(l.blocks, RamBlock(1, half, half - 1));
    LowHoleUnused();
  }

  lemma OnlyOne(blocks: seq<RamBlock>, b: RamBlock)
    requires multiset(blocks) == multiset{b}
    ensures blocks == [b]
  {
    assert |multiset(blocks)| == 1;
    assert blocks[0] in multiset(blocks);
  }

  lemma TwoBlocks(blocks: seq<RamBlock>, a: RamBlock, b: RamBlock)
    requires multiset(blocks) == multiset{a, b} && a != b
    ensures |blocks| == 2 && (blocks == [a, b] || blocks == [b, a])
  {
    assert |multiset(blocks)| == 2;
    assert blocks[0] in multiset(blocks) && blocks[1] in multiset(blocks);
    assert blocks == [blocks[0], blocks[1]];
  }

  lemma GapAbove(b: RamBlock)
    requires InRange(b)
    ensures Gap([b], 0) == RAM_ADDR_MAX - End(b)
  {
  }

  lemma OnlyEnd(b: RamBlock, size: nat, offset: nat)
    requires BestFit([b], size, offset)
    ensures offset == End(b)
  {
  }
}
