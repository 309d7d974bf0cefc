// The incremental page bitmap writer of dump.c: set_dump_bitmap and write_dump_bitmap.

module DumpBitmaps {
  import opened Basics
  import opened VmcoreFiles
  import opened GuestPages

  // ------------------------------------------------------------------------------------------
  // Bits of a byte

  predicate TestBit(x: nat, bit: nat) {
    if bit == 0 then x % 2 == 1 else TestBit(x / 2, bit - 1)
  }

  /** x | 1 << bit, or x & ~(1 << bit). */
  function PutBit(x: nat, bit: nat, value: bool): nat {
    if bit == 0 then 2 * (x / 2) + (if value then 1 else 0)
    else 2 * PutBit(x / 2, bit - 1, value) + x % 2
  }

  lemma {:induction false} TestPut(x: nat, bit: nat, value: bool, other: nat)
    ensures TestBit(PutBit(x, bit, value), other) == if other == bit then value else TestBit(x, other)
  {
    if bit > 0 && other > 0 { TestPut(x / 2, bit - 1, value, other - 1); }
  }

  lemma {:induction false} PutBelow(x: nat, bit: nat, value: bool, width: nat)
    requires bit < width && x < Pow2(width)
    ensures PutBit(x, bit, value) < Pow2(width)
  {
    if bit > 0 { PutBelow(x / 2, bit - 1, value, width - 1); }
  }

  lemma PutByte(x: Byte, bit: nat, value: bool)
    requires bit < 8
    ensures PutBit(x, bit, value) < 256
  {
    assert Pow2(8) == 256 by { assert Pow2(4) == 16; assert Pow2(6) == 64; }
    PutBelow(x, bit, value, 8);
  }

  lemma {:induction false} TestZero(bit: nat)
    ensures !TestBit(0, bit)
  {
    if bit > 0 { TestZero(bit - 1); }
  }

  // ------------------------------------------------------------------------------------------
  // Bitmaps

  /** The bits of these bytes are exactly the numbers of a set. */
  ghost predicate Marks(bytes: seq<Byte>, marked: set<nat>) {
    && (forall x :: x in marked ==> x < 8 * |bytes|)
    && (forall i: nat, bit: nat :: i < |bytes| && bit < 8 ==> (TestBit(bytes[i], bit) <==> 8 * i + bit in marked))
  }

  lemma MarksPut(bytes: seq<Byte>, marked: set<nat>, i: nat, bit: nat, value: bool, byte: Byte)
    requires Marks(bytes, marked) && i < |bytes| && bit < 8 && byte == PutBit(bytes[i], bit, value)
    ensures Marks(bytes[i := byte], if value then marked + {8 * i + bit} else marked - {8 * i + bit})
  {
    var bytes' := bytes[i := byte];
    forall i': nat, bit': nat | i' < |bytes| && bit' < 8
      ensures TestBit(bytes'[i'], bit') <==> (if i' == i && bit' == bit then value else 8 * i' + bit' in marked)
    {
      TestPut(bytes[i], bit, value, bit');
      assert TestBit(bytes[i'], bit') <==> 8 * i' + bit' in marked;
    }
  }

  function Zeros(n: nat): (z: seq<Byte>)
    ensures |z| == n && forall i :: 0 <= i < n ==> z[i] == 0
  {
    seq(n, i => 0)
  }

  lemma MarksZeros(bytes: seq<Byte>, marked: set<nat>, n: nat)
    requires Marks(bytes, marked)
    ensures Marks(bytes + Zeros(n), marked)
  {
    forall i: nat, bit: nat | i < |bytes + Zeros(n)| && bit < 8
      ensures TestBit((bytes + Zeros(n))[i], bit) <==> 8 * i + bit in marked
    {
      TestZero(bit);
      if i < |bytes| { assert TestBit(bytes[i], bit) <==> 8 * i + bit in marked; }
    }
  }

  // ------------------------------------------------------------------------------------------
  // Offsets

  /** Which buffer, which byte of it and which bit hold a page frame number. */
  lemma PlaceOf(pfn: nat, page: nat)
    requires page > 0
    ensures var bits := page * 8;
      && (pfn % bits) / 8 < page
      && 8 * (page * (pfn / bits) + (pfn % bits) / 8) + (pfn % bits) % 8 == pfn
  {
    var bits := page * 8;
    assert pfn == bits * (pfn / bits) + pfn % bits;
    assert bits * (pfn / bits) == 8 * (page * (pfn / bits));
  }

  function DivRoundUp(n: nat, d: nat): nat
    requires d > 0
  {
    (n + d - 1) / d
  }

  /** len_dump_bitmap, as dump_init computes it. */
  function BitmapLength(maxMapnr: nat, page: nat): nat
    requires page > 0
  {
    DivRoundUp(DivRoundUp(maxMapnr, 8), page) * page
  }

  /** The offset in the bitmap of the buffer that holds a page frame number. */
  function BufferOffset(pfn: nat, page: nat): nat
    requires page > 0
  {
    Product(page, BufferIndex(pfn, page));
    page * BufferIndex(pfn, page)
  }

  function BufferIndex(pfn: nat, page: nat): nat
    requires page > 0
  {
    Quotient(pfn, page * 8);
    pfn / (page * 8)
  }

  lemma Product(a: nat, b: nat)
    ensures a * b >= 0
  {
  }

  lemma Quotient(x: nat, d: nat)
    requires d > 0
    ensures x / d >= 0
  {
  }

  lemma DivDiv(x: nat, page: nat)
    requires page > 0
    ensures x / 8 / page == x / (page * 8)
  {
    var q := x / 8 / page;
    var r := (x / 8) % page;
    assert x / 8 == page * q + r;
    assert x == (page * 8) * q + (8 * r + x % 8) by { assert (page * 8) * q == 8 * (page * q); }
    QuotientIs(x, page * 8, q, 8 * r + x % 8);
  }

  lemma QuotientIs(x: nat, d: nat, q: nat, r: nat)
    requires d > 0 && x == d * q + r && r < d
    ensures x / d == q
  {
    var p := x / d;
    assert x == d * p + x % d;
    if p < q { MulStep(p, q, d); }
    if q < p { MulStep(q, p, d); }
  }

  lemma AddOnce(x: nat, page: nat)
    requires page > 0
    ensures (x + page) / page == x / page + 1
  {
    assert x == page * (x / page) + x % page;
    QuotientIs(x + page, page, x / page + 1, x % page);
  }

  /** The bitmap ends with the buffer of the last page frame. */
  lemma LengthExact(last: nat, page: nat)
    requires page > 0
    ensures BitmapLength(last + 1, page) == page * (last / (page * 8) + 1)
  {
    assert DivRoundUp(last + 1, 8) == last / 8 + 1;
    AddOnce(last / 8, page);
    DivDiv(last, page);
  }

  // ------------------------------------------------------------------------------------------
  // DumpState

  class DumpState {
    const page: nat
    const blocks: seq<Block>
    var log: seq<Record>
    var offsetDumpBitmap: nat
    var lenDumpBitmap: nat
    var offsetPage: nat
    var numDumpable: nat

    constructor (page: nat, blocks: seq<Block>)
      requires page > 0 && BlocksOk(blocks, page) && blocks != []
      ensures this.page == page && this.blocks == blocks && log == []
      ensures lenDumpBitmap == BitmapLength(blocks[|blocks| - 1].end / page, page)
    {
      this.page := page;
      this.blocks := blocks;
      log := [];
      var maxMapnr := blocks[|blocks| - 1].end / page;
      lenDumpBitmap := BitmapLength(maxMapnr, page);
      offsetDumpBitmap, offsetPage, numDumpable := 0, 0, 0;
    }

    /** write_buffer, for a write that succeeds. */
    method WriteBuffer(offset: nat, data: seq<Byte>)
      modifies this`log
      ensures log == old(log) + [Record(offset, data)]
    {
      log := log + [Record(offset, data)];
    }

    /** Both bitmaps hold these leading bytes. */
    ghost predicate Synced(done: seq<Byte>)
      reads this
    {
      && |done| <= lenDumpBitmap
      && Holds(log, offsetDumpBitmap, done) && Holds(log, offsetDumpBitmap + lenDumpBitmap, done)
    }

    /** Writes one full buffer to both bitmaps and clears it. */
    method Flush(buf: array<Byte>, oldOffset: nat, ghost done: seq<Byte>)
      requires |done| == oldOffset && oldOffset + buf.Length <= lenDumpBitmap && Synced(done)
      modifies this`log, buf
      ensures Synced(done + old(buf[..])) && buf[..] == Zeros(buf.Length)
      ensures Touches(old(log), log, offsetDumpBitmap, offsetDumpBitmap + 2 * lenDumpBitmap)
    {
      hide Holds;
      ghost var log0, bytes := log, buf[..];
      ghost var lo, hi := offsetDumpBitmap, offsetDumpBitmap + 2 * lenDumpBitmap;
      WriteBuffer(offsetDumpBitmap + oldOffset, buf[..]);
      ghost var log1 := log;
      HoldsMore(log0, Record(lo + oldOffset, bytes), lo, done);
      HoldsElsewhere(log0, Record(lo + oldOffset, bytes), lo + lenDumpBitmap, done);
      TouchesOne(log0, Record(lo + oldOffset, bytes), lo, hi);
      WriteBuffer(offsetDumpBitmap + lenDumpBitmap + oldOffset, buf[..]);
      HoldsMore(log1, Record(lo + lenDumpBitmap + oldOffset, bytes), lo + lenDumpBitmap, done);
      HoldsElsewhere(log1, Record(lo + lenDumpBitmap + oldOffset, bytes), lo, done + bytes);
      TouchesOne(log1, Record(lo + lenDumpBitmap + oldOffset, bytes), lo, hi);
      forall i | 0 <= i < buf.Length { buf[i] := 0; }
    }

    method SetDumpBitmap(lastPfn: nat, pfn: nat, value: bool, buf: array<Byte>, ghost done: seq<Byte>,
        ghost marked: set<nat>)
      returns (ghost done': seq<Byte>)
      requires page > 0 && lastPfn <= pfn && buf.Length == page
      requires |done| == BufferOffset(lastPfn, page) && Synced(done) && Marks(done + buf[..], marked)
      requires BufferOffset(pfn, page) <= lenDumpBitmap
      modifies this`log, buf
      ensures |done'| == BufferOffset(pfn, page) && Synced(done')
      ensures Marks(done' + buf[..], if value then marked + {pfn} else marked - {pfn})
      ensures Touches(old(log), log, offsetDumpBitmap, offsetDumpBitmap + 2 * lenDumpBitmap)
    {
      var bits: nat := page * 8;
      var oldOffset := BufferOffset(lastPfn, page);
      var newOffset := BufferOffset(pfn, page);
      ghost var c, end := BufferIndex(lastPfn, page), BufferIndex(pfn, page);
      DivMonotone(lastPfn, pfn, bits);
      MulLess(c, end, page);
      hide BufferOffset, BufferIndex, Holds, Marks, Touches;
      done' := done;
      while oldOffset < newOffset
        invariant oldOffset == page * c == |done'| && oldOffset <= newOffset
        invariant Synced(done') && Marks(done' + buf[..], marked)
        invariant Touches(old(log), log, offsetDumpBitmap, offsetDumpBitmap + 2 * lenDumpBitmap)
      {
        NextBuffer(c, end, page);
        MarksZeros(done' + buf[..], marked, page);
        ghost var bytes := buf[..];
        Flush(buf, oldOffset, done');
        done' := done' + bytes;
        oldOffset := oldOffset + page;
        c := c + 1;
      }
      assert oldOffset == newOffset;
      PlaceOf(pfn, page);
      var byte := (pfn % bits) / 8;
      var bit := (pfn % bits) % 8;
      PutByte(buf[byte], bit, value);
      MarksPut(done' + buf[..], marked, newOffset + byte, bit, value, PutBit(buf[byte], bit, value));
      ghost var was := buf[..];
      buf[byte] := PutBit(buf[byte], bit, value);
      assert done' + buf[..] == (done' + was)[newOffset + byte := PutBit(was[byte], bit, value)];
    }
  }

  lemma NextBuffer(c: nat, end: nat, page: nat)
    requires page > 0 && page * c < page * end
    ensures c < end && page * (c + 1) == page * c + page <= page * end
  {
    MulLess(c, end, page);
    MulStep(c, end, page);
  }

  // ------------------------------------------------------------------------------------------
  // The whole bitmap

  /** The page frame numbers of the first k frames. */
  ghost function Numbers(frames: seq<Frame>, k: nat): set<nat>
    requires k <= |frames|
  {
    set j: nat | j < k :: frames[j].pfn
  }

  /** The two bitmaps: the same len_dump_bitmap bytes at both places, one bit for each page of a block. */
  ghost predicate BitmapsWritten(log: seq<Record>, offset: nat, length: nat, blocks: seq<Block>, page: nat,
      bitmap: seq<Byte>, marked: set<nat>)
  {
    && |bitmap| == length && Holds(log, offset, bitmap) && Holds(log, offset + length, bitmap)
    && Marks(bitmap, marked)
    && (forall pfn: nat :: pfn in marked <==> exists i: nat :: i < |blocks| && Contains(blocks[i], page, pfn))
  }

  lemma NumbersNext(frames: seq<Frame>, k: nat)
    requires k < |frames|
    ensures Numbers(frames, k + 1) == Numbers(frames, k) + {frames[k].pfn}
  {
  }

  /** There are as many numbers as frames. */
  lemma {:induction false} NumbersCount(blocks: seq<Block>, page: nat, k: nat)
    requires BlocksOk(blocks, page) && k <= |Frames(blocks, page)|
    ensures |Numbers(Frames(blocks, page), k)| == k
    ensures forall x :: x in Numbers(Frames(blocks, page), k) ==> k > 0 && x <= Frames(blocks, page)[k - 1].pfn
  {
    hide BlocksOk, Frames;
    var frames := Frames(blocks, page);
    if k > 0 {
      NumbersCount(blocks, page, k - 1);
      NumbersNext(frames, k - 1);
      if k > 1 { FramesIncrease(blocks, page, k - 2); }
    }
  }

  lemma NumbersAll(blocks: seq<Block>, page: nat)
    requires BlocksOk(blocks, page)
    ensures var frames := Frames(blocks, page);
      forall pfn: nat :: pfn in Numbers(frames, |frames|) <==>
          exists i: nat :: i < |blocks| && Contains(blocks[i], page, pfn)
  {
    var frames := Frames(blocks, page);
    forall j: nat | j < |frames|
      ensures exists i: nat :: i < |blocks| && Contains(blocks[i], page, frames[j].pfn)
    {
      var i := FrameHome(blocks, page, j);
    }
    forall i: nat, pfn: nat | i < |blocks| && Contains(blocks[i], page, pfn)
      ensures pfn in Numbers(frames, |frames|)
    {
      var k := FrameFor(blocks, page, i, pfn);
    }
  }

  /** The buffer of a page frame lies inside the bitmap. */
  lemma RoomFor(pfn: nat, last: nat, page: nat)
    requires page > 0 && pfn <= last
    ensures BufferOffset(pfn, page) <= BitmapLength(last + 1, page)
  {
    LengthExact(last, page);
    hide BitmapLength;
    DivMonotone(pfn, last, page * 8);
    MulLess(pfn / (page * 8), last / (page * 8) + 1, page);
  }

  /** The final call ends the bitmap, and the last page frame is in it. */
  lemma LastRoom(last: nat, page: nat)
    requires page > 0
    ensures BufferOffset(last + page * 8, page) == BitmapLength(last + 1, page)
    ensures last < 8 * BitmapLength(last + 1, page)
  {
    LengthExact(last, page);
    hide BitmapLength;
    AddOnce(last, page * 8);
    PlaceOf(last, page);
    var q := last / (page * 8);
    assert page * (q + 1) == page * q + page;
  }

  lemma MarksPrefix(bytes: seq<Byte>, rest: seq<Byte>, marked: set<nat>)
    requires Marks(bytes + rest, marked) && forall x :: x in marked ==> x < 8 * |bytes|
    ensures Marks(bytes, marked)
  {
    forall i: nat, bit: nat | i < |bytes| && bit < 8 ensures TestBit(bytes[i], bit) <==> 8 * i + bit in marked {
      assert TestBit((bytes + rest)[i], bit) <==> 8 * i + bit in marked;
    }
  }

  /** The state of write_dump_bitmap after k pages. */
  ghost predicate Progress(s: DumpState, frames: seq<Frame>, k: nat, lastPfn: nat, buf: array<Byte>, bitmap: seq<Byte>)
    requires k <= |frames|
    reads s, buf
  {
    && s.page > 0 && buf.Length == s.page
    && lastPfn == (if k == 0 then 0 else frames[k - 1].pfn)
    && |bitmap| == BufferOffset(lastPfn, s.page) && s.Synced(bitmap)
    && Marks(bitmap + buf[..], Numbers(frames, k))
  }

  /** One round of the loop of write_dump_bitmap. */
  method MarkPage(s: DumpState, k: nat, lastPfn: nat, pfn: nat, buf: array<Byte>, ghost bitmap: seq<Byte>)
    returns (ghost bitmap': seq<Byte>)
    requires BlocksOk(s.blocks, s.page) && s.blocks != []
    requires s.lenDumpBitmap == BitmapLength(s.blocks[|s.blocks| - 1].end / s.page, s.page)
    requires k < |Frames(s.blocks, s.page)| && Progress(s, Frames(s.blocks, s.page), k, lastPfn, buf, bitmap)
    requires pfn == Frames(s.blocks, s.page)[k].pfn
    modifies s`log, buf
    ensures Progress(s, Frames(s.blocks, s.page), k + 1, pfn, buf, bitmap')
    ensures Touches(old(s.log), s.log, s.offsetDumpBitmap, s.offsetDumpBitmap + 2 * s.lenDumpBitmap)
  {
    ghost var frames := Frames(s.blocks, s.page);
    FramesIncrease(s.blocks, s.page, k);
    RoomFor(pfn, s.blocks[|s.blocks| - 1].end / s.page - 1, s.page);
    if k > 0 { FramesIncrease(s.blocks, s.page, k - 1); }
    NumbersNext(frames, k);
    hide BufferOffset, BufferIndex, Frames, BlocksOk, Marks, Numbers, BitmapLength, Holds, Touches;
    bitmap' := s.SetDumpBitmap(lastPfn, pfn, true, buf, bitmap, Numbers(frames, k));
  }

  /** The final call that pushes out the last buffer. */
  method SyncLast(s: DumpState, lastPfn: nat, buf: array<Byte>, ghost bitmap: seq<Byte>)
    returns (ghost bitmap': seq<Byte>, ghost marked: set<nat>)
    requires BlocksOk(s.blocks, s.page) && s.blocks != []
    requires s.lenDumpBitmap == BitmapLength(s.blocks[|s.blocks| - 1].end / s.page, s.page)
    requires Progress(s, Frames(s.blocks, s.page), |Frames(s.blocks, s.page)|, lastPfn, buf, bitmap)
    modifies s`log, buf
    ensures BitmapsWritten(s.log, s.offsetDumpBitmap, s.lenDumpBitmap, s.blocks, s.page, bitmap', marked)
    ensures |marked| == |Frames(s.blocks, s.page)|
    ensures Touches(old(s.log), s.log, s.offsetDumpBitmap, s.offsetDumpBitmap + 2 * s.lenDumpBitmap)
  {
    ghost var frames := Frames(s.blocks, s.page);
    LastMarks(s.blocks, s.page);
    marked := Numbers(frames, |frames|);
    hide BufferOffset, BufferIndex, Frames, BlocksOk, Marks, Numbers, BitmapLength, Holds, Touches, Contains,
        BitmapsWritten;
    bitmap' := s.SetDumpBitmap(lastPfn, lastPfn + s.page * 8, false, buf, bitmap, marked);
    Finished(s, bitmap', buf[..], marked, lastPfn + s.page * 8);
  }

  lemma Finished(s: DumpState, bitmap: seq<Byte>, rest: seq<Byte>, marked: set<nat>, beyond: nat)
    requires s.Synced(bitmap) && |bitmap| == s.lenDumpBitmap && Marks(bitmap + rest, marked - {beyond})
    requires forall x :: x in marked ==> x < beyond && x < 8 * |bitmap|
    requires forall pfn: nat :: pfn in marked <==> exists i: nat :: i < |s.blocks| && Contains(s.blocks[i], s.page, pfn)
    ensures BitmapsWritten(s.log, s.offsetDumpBitmap, s.lenDumpBitmap, s.blocks, s.page, bitmap, marked)
  {
    assert marked - {beyond} == marked;
    MarksPrefix(bitmap, rest, marked);
  }

  lemma LastMarks(blocks: seq<Block>, page: nat)
    requires BlocksOk(blocks, page) && blocks != []
    ensures var frames := Frames(blocks, page);
      && |frames| > 0
      && var last := frames[|frames| - 1].pfn;
      && last + 1 == blocks[|blocks| - 1].end / page
      && BufferOffset(last + page * 8, page) == BitmapLength(last + 1, page)
      && |Numbers(frames, |frames|)| == |frames|
      && (forall x :: x in Numbers(frames, |frames|) ==> x <= last && x < 8 * BitmapLength(last + 1, page))
      && (forall pfn: nat ::
            pfn in Numbers(frames, |frames|) <==> exists i: nat :: i < |blocks| && Contains(blocks[i], page, pfn))
  {
    hide BufferOffset, BufferIndex, Frames, BlocksOk, Numbers, BitmapLength, Contains;
    var frames := Frames(blocks, page);
    StartOf(blocks, page, 0);
    FramesIncrease(blocks, page, |frames| - 1);
    NumbersCount(blocks, page, |frames|);
    NumbersAll(blocks, page);
    LastRoom(frames[|frames| - 1].pfn, page);
  }

  /** A cleared buffer and nothing written. */
  method EmptyBuffer(s: DumpState, ghost frames: seq<Frame>) returns (buf: array<Byte>, ghost bitmap: seq<Byte>)
    requires BlocksOk(s.blocks, s.page)
    ensures fresh(buf) && Progress(s, frames, 0, 0, buf, bitmap)
  {
    buf := new Byte[s.page](i => 0);
    bitmap := [];
    MarksZeros([], {}, s.page);
    assert [] + buf[..] == [] + Zeros(s.page);
    assert Numbers(frames, 0) == {};
    QuotientIs(0, s.page * 8, 0, 0);
  }

  method WriteDumpBitmap(s: DumpState) returns (ghost bitmap: seq<Byte>, ghost marked: set<nat>)
    requires BlocksOk(s.blocks, s.page) && s.blocks != []
    requires s.lenDumpBitmap == BitmapLength(s.blocks[|s.blocks| - 1].end / s.page, s.page)
    modifies s`log, s`numDumpable
    ensures BitmapsWritten(s.log, s.offsetDumpBitmap, s.lenDumpBitmap, s.blocks, s.page, bitmap, marked)
    ensures s.numDumpable == |marked| == |Frames(s.blocks, s.page)|
    ensures Touches(old(s.log), s.log, s.offsetDumpBitmap, s.offsetDumpBitmap + 2 * s.lenDumpBitmap)
  {
    hide BufferOffset, BufferIndex, Frames, BlocksOk, Marks, Numbers, BitmapLength, Holds, BitmapsWritten, Progress;
    ghost var frames := Frames(s.blocks, s.page);
    var buf;
    buf, bitmap := EmptyBuffer(s, frames);
    var numDumpable, lastPfn := 0, 0;
    var more, block, pfn, bytes := GetNextPage(s.blocks, s.page, -1, 0);
    while more
      invariant numDumpable <= |frames| && (more <==> numDumpable < |frames|)
      invariant more ==> CursorOk(s.blocks, s.page, block, pfn)
      invariant more ==> Delivered(s.blocks, s.page, block, pfn) == numDumpable + 1 && pfn == frames[numDumpable].pfn
      invariant Progress(s, frames, numDumpable, lastPfn, buf, bitmap)
      invariant Touches(old(s.log), s.log, s.offsetDumpBitmap, s.offsetDumpBitmap + 2 * s.lenDumpBitmap)
      decreases |frames| - numDumpable
    {
      bitmap := MarkPage(s, numDumpable, lastPfn, pfn, buf, bitmap);
      lastPfn := pfn;
      numDumpable := numDumpable + 1;
      more, block, pfn, bytes := GetNextPage(s.blocks, s.page, block, pfn);
    }
    bitmap, marked := SyncLast(s, lastPfn, buf, bitmap);
    s.numDumpable := numDumpable;
  }
}
