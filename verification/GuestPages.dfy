// The guest-physical blocks of a dump and the page iterator over them (get_next_page in dump.c).

module GuestPages {
  import opened Basics
  import opened VmcoreFiles

  /** GuestPhysBlock: the guest addresses [start, end) and the host memory behind them. */
  datatype Block = Block(start: nat, end: nat, memory: seq<Byte>)

  datatype Frame = Frame(pfn: nat, bytes: seq<Byte>)

  predicate BlockOk(b: Block, page: nat) {
    page > 0 && b.start < b.end && b.start % page == 0 && b.end % page == 0 && |b.memory| == b.end - b.start
  }

  ghost predicate BlocksOk(blocks: seq<Block>, page: nat) {
    && page > 0
    && (forall i :: 0 <= i < |blocks| ==> BlockOk(blocks[i], page))
    && (forall i, j :: 0 <= i < j < |blocks| ==> blocks[i].end <= blocks[j].start)
  }

  function First(b: Block, page: nat): nat
    requires page > 0
  {
    b.start / page
  }

  function Count(b: Block, page: nat): nat
    requires BlockOk(b, page)
  {
    CountLemma(b, page);
    b.end / page - b.start / page
  }

  /** Page arithmetic. */
  lemma DivExact(x: nat, page: nat)
    requires page > 0 && x % page == 0
    ensures x == (x / page) * page
  {
  }

  lemma MulStep(a: nat, b: nat, page: nat)
    requires a < b
    ensures a * page + page <= b * page
  {
    assert b * page == (a + 1) * page + (b - a - 1) * page;
    assert (b - a - 1) * page >= 0;
  }

  lemma MulLess(a: nat, b: nat, page: nat)
    requires page > 0
    ensures a < b <==> a * page < b * page
    ensures a <= b <==> a * page <= b * page
  {
    if a < b { MulStep(a, b, page); } else if b < a { MulStep(b, a, page); }
  }

  lemma CountLemma(b: Block, page: nat)
    requires BlockOk(b, page)
    ensures b.start / page < b.end / page
    ensures (b.end / page - b.start / page) * page == b.end - b.start
  {
    DivExact(b.start, page);
    DivExact(b.end, page);
    MulLess(b.start / page, b.end / page, page);
  }

  lemma Slice(b: Block, page: nat, j: nat)
    requires BlockOk(b, page) && j < Count(b, page)
    ensures 0 <= j * page <= (j + 1) * page <= |b.memory|
    ensures (j + 1) * page == j * page + page
  {
    CountLemma(b, page);
    MulLess(j, Count(b, page), page);
    MulLess(j + 1, Count(b, page), page);
  }

  /** The j-th page of a block. */
  function FrameOf(b: Block, page: nat, j: nat): Frame
    requires BlockOk(b, page) && j < Count(b, page)
  {
    Slice(b, page, j);
    Frame(First(b, page) + j, b.memory[j * page..(j + 1) * page])
  }

  function BlockFrames(b: Block, page: nat): seq<Frame>
    requires BlockOk(b, page)
  {
    seq(Count(b, page), (j: nat) requires j < Count(b, page) => FrameOf(b, page, j))
  }

  /** All the pages of the guest, in order. */
  ghost function Frames(blocks: seq<Block>, page: nat): seq<Frame>
    requires BlocksOk(blocks, page)
  {
    if blocks == [] then []
    else Frames(blocks[..|blocks| - 1], page) + BlockFrames(blocks[|blocks| - 1], page)
  }

  /** How many frames precede block i. */
  ghost function Before(blocks: seq<Block>, page: nat, i: nat): nat
    requires BlocksOk(blocks, page) && i <= |blocks|
  {
    |Frames(blocks[..i], page)|
  }

  lemma {:induction false} FrameAt(blocks: seq<Block>, page: nat, i: nat, j: nat)
    requires BlocksOk(blocks, page) && i < |blocks| && j < Count(blocks[i], page)
    ensures Before(blocks, page, i) + j < |Frames(blocks, page)|
    ensures Frames(blocks, page)[Before(blocks, page, i) + j] == FrameOf(blocks[i], page, j)
  {
    var front := blocks[..|blocks| - 1];
    if i < |blocks| - 1 {
      FrameAt(front, page, i, j);
      assert front[..i] == blocks[..i];
    }
  }

  lemma BeforeNext(blocks: seq<Block>, page: nat, i: nat)
    requires BlocksOk(blocks, page) && i < |blocks|
    ensures Before(blocks, page, i + 1) == Before(blocks, page, i) + Count(blocks[i], page)
    ensures Before(blocks, page, |blocks|) == |Frames(blocks, page)|
  {
    assert blocks[..i + 1][..i] == blocks[..i];
    assert blocks[..|blocks|] == blocks;
  }

  // ------------------------------------------------------------------------------------------
  // The iterator

  /** A cursor is before the first page (block -1) or at a page of a block. */
  predicate CursorOk(blocks: seq<Block>, page: nat, block: int, pfn: nat) {
    -1 <= block < |blocks| && page > 0 &&
    (block >= 0 ==> BlockOk(blocks[block], page) && First(blocks[block], page) <= pfn < blocks[block].end / page)
  }

  /** How many pages the cursor has delivered. */
  ghost function Delivered(blocks: seq<Block>, page: nat, block: int, pfn: nat): nat
    requires BlocksOk(blocks, page) && CursorOk(blocks, page, block, pfn)
  {
    if block < 0 then 0 else Before(blocks, page, block) + (pfn - First(blocks[block], page)) + 1
  }

  /** The address test of get_next_page says whether the next page is in the same block. */
  lemma InBlock(b: Block, page: nat, pfn: nat)
    requires BlockOk(b, page) && First(b, page) <= pfn < b.end / page
    ensures var addr := (pfn + 1) * page;
      (addr >= b.start && addr + page <= b.end) <==> pfn + 1 < b.end / page
    ensures (pfn + 1) * page - b.start == (pfn + 1 - First(b, page)) * page
  {
    DivExact(b.start, page);
    DivExact(b.end, page);
    MulLess(b.start / page, pfn + 1, page);
    MulLess(pfn + 2, b.end / page, page);
    assert (pfn + 2) * page == (pfn + 1) * page + page;
  }

  method GetNextPage(blocks: seq<Block>, page: nat, block: int, pfn: nat)
    returns (more: bool, block': int, pfn': nat, bytes: seq<Byte>)
    requires BlocksOk(blocks, page) && blocks != [] && CursorOk(blocks, page, block, pfn)
    ensures more <==> Delivered(blocks, page, block, pfn) < |Frames(blocks, page)|
    ensures more ==>
      && CursorOk(blocks, page, block', pfn')
      && Delivered(blocks, page, block', pfn') == Delivered(blocks, page, block, pfn) + 1
      && Frame(pfn', bytes) == Frames(blocks, page)[Delivered(blocks, page, block, pfn)]
  {
    block', pfn', bytes := block, pfn, [];
    if block == -1 {
      StartOf(blocks, page, 0);
      block' := 0;
      pfn' := blocks[0].start / page;
      bytes := blocks[0].memory[..page];
      return true, block', pfn', bytes;
    }
    var b := blocks[block];
    InBlock(b, page, pfn);
    hide Frames, Before, Delivered, CursorOk;
    pfn' := pfn + 1;
    var addr := pfn' * page;
    if addr >= b.start && addr + page <= b.end {
      SameBlock(blocks, page, block, pfn);
      bytes := b.memory[addr - b.start..addr - b.start + page];
      more := true;
    } else {
      LastInBlock(blocks, page, block, pfn);
      block' := block + 1;
      if block' == |blocks| {
        return false, block', pfn', bytes;
      }
      StartOf(blocks, page, block');
      pfn' := blocks[block'].start / page;
      bytes := blocks[block'].memory[..page];
      more := true;
    }
  }

  /** Moving on inside a block. */
  lemma SameBlock(blocks: seq<Block>, page: nat, i: nat, pfn: nat)
    requires BlocksOk(blocks, page) && i < |blocks| && CursorOk(blocks, page, i, pfn)
    requires pfn + 1 < blocks[i].end / page
    ensures Delivered(blocks, page, i, pfn) < |Frames(blocks, page)|
    ensures var lo := (pfn + 1) * page - blocks[i].start;
      && CursorOk(blocks, page, i, pfn + 1)
      && Delivered(blocks, page, i, pfn + 1) == Delivered(blocks, page, i, pfn) + 1
      && 0 <= lo && lo + page <= |blocks[i].memory|
      && Frames(blocks, page)[Delivered(blocks, page, i, pfn)] == Frame(pfn + 1, blocks[i].memory[lo..lo + page])
  {
    var j := pfn + 1 - First(blocks[i], page);
    InBlock(blocks[i], page, pfn);
    FrameAt(blocks, page, i, j);
    Slice(blocks[i], page, j);
  }

  /** The last page of a block. */
  lemma LastInBlock(blocks: seq<Block>, page: nat, i: nat, pfn: nat)
    requires BlocksOk(blocks, page) && i < |blocks| && CursorOk(blocks, page, i, pfn)
    requires pfn + 1 == blocks[i].end / page
    ensures Delivered(blocks, page, i, pfn) == Before(blocks, page, i + 1)
    ensures i + 1 == |blocks| ==> Delivered(blocks, page, i, pfn) == |Frames(blocks, page)|
  {
    BeforeNext(blocks, page, i);
  }

  lemma StartOf(blocks: seq<Block>, page: nat, i: nat)
    requires BlocksOk(blocks, page) && i < |blocks|
    ensures Before(blocks, page, i) < |Frames(blocks, page)|
    ensures page <= |blocks[i].memory|
    ensures Frames(blocks, page)[Before(blocks, page, i)] == Frame(First(blocks[i], page), blocks[i].memory[..page])
    ensures CursorOk(blocks, page, i, First(blocks[i], page))
    ensures Delivered(blocks, page, i, First(blocks[i], page)) == Before(blocks, page, i) + 1
  {
    CountLemma(blocks[i], page);
    FrameAt(blocks, page, i, 0);
    Slice(blocks[i], page, 0);
  }

  // ------------------------------------------------------------------------------------------
  // Page frame numbers

  predicate Contains(b: Block, page: nat, pfn: nat) {
    b.start <= pfn * page < b.end
  }

  lemma ContainsIff(b: Block, page: nat, pfn: nat)
    requires BlockOk(b, page)
    ensures Contains(b, page, pfn) <==> First(b, page) <= pfn < First(b, page) + Count(b, page)
  {
    DivExact(b.start, page);
    DivExact(b.end, page);
    MulLess(b.start / page, pfn, page);
    MulLess(pfn, b.end / page, page);
  }

  /** Every frame belongs to a block. */
  lemma {:induction false} FrameHome(blocks: seq<Block>, page: nat, k: nat) returns (i: nat)
    requires BlocksOk(blocks, page) && k < |Frames(blocks, page)|
    ensures i < |blocks| && Contains(blocks[i], page, Frames(blocks, page)[k].pfn)
    ensures |Frames(blocks, page)[k].bytes| == page
  {
    var n := |blocks| - 1;
    var front := Frames(blocks[..n], page);
    if k < |front| {
      i := FrameHome(blocks[..n], page, k);
    } else {
      i := n;
      ContainsIff(blocks[n], page, First(blocks[n], page) + (k - |front|));
      Slice(blocks[n], page, k - |front|);
    }
  }

  /** And every page of a block is a frame. */
  lemma FrameFor(blocks: seq<Block>, page: nat, i: nat, pfn: nat) returns (k: nat)
    requires BlocksOk(blocks, page) && i < |blocks| && Contains(blocks[i], page, pfn)
    ensures k < |Frames(blocks, page)| && Frames(blocks, page)[k].pfn == pfn
  {
    ContainsIff(blocks[i], page, pfn);
    k := Before(blocks, page, i) + (pfn - First(blocks[i], page));
    FrameAt(blocks, page, i, pfn - First(blocks[i], page));
  }

  /** Page frame numbers strictly increase and stay below the end of the last block. */
  lemma {:induction false} FramesIncrease(blocks: seq<Block>, page: nat, k: nat)
    requires BlocksOk(blocks, page) && k < |Frames(blocks, page)|
    ensures blocks != [] && Frames(blocks, page)[k].pfn < blocks[|blocks| - 1].end / page
    ensures k + 1 < |Frames(blocks, page)| ==> Frames(blocks, page)[k].pfn < Frames(blocks, page)[k + 1].pfn
    ensures k + 1 == |Frames(blocks, page)| ==> Frames(blocks, page)[k].pfn + 1 == blocks[|blocks| - 1].end / page
  {
    var n := |blocks| - 1;
    var front := Frames(blocks[..n], page);
    CountLemma(blocks[n], page);
    if k < |front| {
      FramesIncrease(blocks[..n], page, k);
      DivMonotone(blocks[n - 1].end, blocks[n].start, page);
    }
  }

  lemma DivMonotone(a: nat, b: nat, page: nat)
    requires page > 0 && a <= b
    ensures a / page <= b / page
  {
    if b / page < a / page {
      MulLess(b / page + 1, a / page, page);
    }
  }
}
