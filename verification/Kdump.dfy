// A whole kdump-compressed file: create_kdump_vmcore in dump.c, and the reader that finds a guest page
// by its page frame number.

module Kdump {
  import opened Basics
  import opened VmcoreFiles
  import opened GuestPages
  import opened DumpBitmaps
  import opened KdumpPages
  import opened KdumpLayout
  import opened KdumpHeaders

  /** The fixed-size structures at the front of the file and the notes, as bytes. */
  datatype Front = Front(class64: bool, header: seq<Byte>, subHeader: seq<Byte>, notes: seq<Byte>)

  predicate FrontOk(f: Front) {
    |f.header| == HeaderSize(f.class64) && |f.subHeader| == SubHeaderSize(f.class64)
  }

  function SizesOf(page: nat, f: Front, length: nat): Sizes {
    Sizes(page, f.class64, |f.notes|, length)
  }

  ghost predicate FrontWritten(log: seq<Record>, page: nat, f: Front) {
    && Holds(log, 0, f.header) && Holds(log, page, f.subHeader)
    && Holds(log, page + |f.subHeader|, f.notes)
  }

  /** create_header32 or create_header64. */
  method CreateHeader(s: DumpState, f: Front)
    requires FrontOk(f) && SizesOk(SizesOf(s.page, f, s.lenDumpBitmap))
    modifies s`log, s`offsetDumpBitmap, s`offsetPage
    ensures FrontWritten(s.log, s.page, f)
    ensures s.offsetDumpBitmap == OffsetDumpBitmap(SizesOf(s.page, f, s.lenDumpBitmap))
    ensures s.offsetPage == OffsetPage(SizesOf(s.page, f, s.lenDumpBitmap))
  {
    hide Holds;
    var offsetNote := s.page + |f.subHeader|;
    Alone(s.log, Record(0, f.header));
    s.WriteBuffer(0, f.header);
    Alone(s.log, Record(s.page, f.subHeader));
    HoldsElsewhere(s.log, Record(s.page, f.subHeader), 0, f.header);
    s.WriteBuffer(s.page, f.subHeader);
    Alone(s.log, Record(offsetNote, f.notes));
    HoldsElsewhere(s.log, Record(offsetNote, f.notes), 0, f.header);
    HoldsElsewhere(s.log, Record(offsetNote, f.notes), s.page, f.subHeader);
    s.WriteBuffer(offsetNote, f.notes);
    s.offsetDumpBitmap := OffsetDumpBitmap(SizesOf(s.page, f, s.lenDumpBitmap));
    s.offsetPage := OffsetPage(SizesOf(s.page, f, s.lenDumpBitmap));
  }

  lemma Alone(log: seq<Record>, r: Record)
    ensures Holds(log + [r], r.offset, r.data)
  {
    HoldsMore(log, r, r.offset, []);
    assert [] + r.data == r.data;
  }

  lemma FrontKept(log: seq<Record>, log': seq<Record>, page: nat, f: Front, lo: nat, hi: nat)
    requires FrontWritten(log, page, f) && Touches(log, log', lo, hi)
    requires |f.header| <= lo && page + |f.subHeader| + |f.notes| <= lo
    ensures FrontWritten(log', page, f)
  {
    hide Holds, Touches;
    TouchesHolds(log, log', lo, hi, 0, f.header);
    TouchesHolds(log, log', lo, hi, page, f.subHeader);
    TouchesHolds(log, log', lo, hi, page + |f.subHeader|, f.notes);
  }

  lemma BitmapsKept(log: seq<Record>, log': seq<Record>, offset: nat, length: nat, blocks: seq<Block>, page: nat,
      bitmap: seq<Byte>, marked: set<nat>, lo: nat, hi: nat)
    requires BitmapsWritten(log, offset, length, blocks, page, bitmap, marked)
    requires Touches(log, log', lo, hi) && offset + 2 * length <= lo
    ensures BitmapsWritten(log', offset, length, blocks, page, bitmap, marked)
  {
    hide Holds, Touches, Marks, Contains;
    TouchesHolds(log, log', lo, hi, offset, bitmap);
    TouchesHolds(log, log', lo, hi, offset + length, bitmap);
  }

  /** Everything the file is to hold, at the same time. */
  ghost predicate Complete(s: DumpState, f: Front, c: Codec, bitmap: seq<Byte>, marked: set<nat>, ds: seq<Descriptor>,
      stored: seq<Byte>)
    reads s
  {
    && BlocksOk(s.blocks, s.page)
    && FrontWritten(s.log, s.page, f)
    && BitmapsWritten(s.log, s.offsetDumpBitmap, s.lenDumpBitmap, s.blocks, s.page, bitmap, marked)
    && PagesWritten(s.log, s.offsetPage, c, Frames(s.blocks, s.page), s.page, ds, stored)
  }

  /** create_kdump_vmcore, where the page section starts below 4 GiB. */
  method CreateKdumpVmcore(s: DumpState, f: Front, c: Codec)
    returns (ghost bitmap: seq<Byte>, ghost marked: set<nat>, ghost ds: seq<Descriptor>, ghost stored: seq<Byte>)
    requires BlocksOk(s.blocks, s.page) && s.blocks != [] && CodecOk(c) && FrontOk(f)
    requires s.lenDumpBitmap == BitmapLength(s.blocks[|s.blocks| - 1].end / s.page, s.page)
    requires SizesOk(SizesOf(s.page, f, s.lenDumpBitmap)) && IdealPage(SizesOf(s.page, f, s.lenDumpBitmap)) < U32
    modifies s`log, s`offsetDumpBitmap, s`offsetPage, s`numDumpable
    ensures Complete(s, f, c, bitmap, marked, ds, stored)
    ensures s.numDumpable == |Frames(s.blocks, s.page)| && s.offsetPage < U32
    ensures s.offsetDumpBitmap == OffsetDumpBitmap(SizesOf(s.page, f, s.lenDumpBitmap))
    ensures s.offsetPage == OffsetPage(SizesOf(s.page, f, s.lenDumpBitmap))
  {
    hide Holds, Touches, BitmapLength, BlocksOk, CodecOk, Frames, FrontWritten, BitmapsWritten, PagesWritten;
    ghost var z := SizesOf(s.page, f, s.lenDumpBitmap);
    PageExact(z);
    IdealBounds(z);
    CreateHeader(s, f);
    ghost var log := s.log;
    hide OffsetDumpBitmap, OffsetPage, IdealBitmap;
    bitmap, marked := WriteDumpBitmap(s);
    FrontKept(log, s.log, s.page, f, s.offsetDumpBitmap, s.offsetDumpBitmap + 2 * s.lenDumpBitmap);
    log := s.log;
    ds, stored := WriteDumpPages(s, c);
    ghost var end := s.offsetPage + DESCRIPTOR_SIZE * s.numDumpable + |stored|;
    FrontKept(log, s.log, s.page, f, s.offsetPage, end);
    BitmapsKept(log, s.log, s.offsetDumpBitmap, s.lenDumpBitmap, s.blocks, s.page, bitmap, marked, s.offsetPage, end);
  }

  // ------------------------------------------------------------------------------------------
  // Reading a page by its number

  predicate BitAt(log: seq<Record>, offset: nat, pfn: nat) {
    var byte := ByteAt(log, offset + pfn / 8);
    byte.Some? && TestBit(byte.value, pfn % 8)
  }

  /** The number of set bits below a position. */
  function Rank(log: seq<Record>, offset: nat, pfn: nat): nat {
    if pfn == 0 then 0 else Rank(log, offset, pfn - 1) + if BitAt(log, offset, pfn - 1) then 1 else 0
  }

  /** A reader of the format: the page's bit in the second bitmap, then the descriptor its rank selects. */
  function ReadPfn(log: seq<Record>, c: Codec, bitmap2: nat, offsetPage: nat, pfn: nat): Option<seq<Byte>> {
    if BitAt(log, bitmap2, pfn) then ReadPage(log, c, offsetPage, Rank(log, bitmap2, pfn)) else None
  }

  lemma BitAtMarked(log: seq<Record>, offset: nat, bitmap: seq<Byte>, marked: set<nat>, pfn: nat)
    requires Holds(log, offset, bitmap) && Marks(bitmap, marked) && pfn < 8 * |bitmap|
    ensures BitAt(log, offset, pfn) <==> pfn in marked
  {
    assert ByteAt(log, offset + pfn / 8) == Some(bitmap[pfn / 8]);
    assert TestBit(bitmap[pfn / 8], pfn % 8) <==> 8 * (pfn / 8) + pfn % 8 in marked;
  }

  ghost function Below(marked: set<nat>, pfn: nat): set<nat> {
    set x | x in marked && x < pfn
  }

  lemma {:induction false} RankBelow(log: seq<Record>, offset: nat, bitmap: seq<Byte>, marked: set<nat>, pfn: nat)
    requires Holds(log, offset, bitmap) && Marks(bitmap, marked) && pfn <= 8 * |bitmap|
    ensures Rank(log, offset, pfn) == |Below(marked, pfn)|
  {
    if pfn > 0 {
      RankBelow(log, offset, bitmap, marked, pfn - 1);
      BitAtMarked(log, offset, bitmap, marked, pfn - 1);
      assert Below(marked, pfn) == if pfn - 1 in marked then Below(marked, pfn - 1) + {pfn - 1}
          else Below(marked, pfn - 1);
    } else {
      assert Below(marked, pfn) == {};
    }
  }

  /** Ordered frames: the numbers below the k-th are those of the first k. */
  lemma {:induction false} FramesOrdered(blocks: seq<Block>, page: nat, j: nat, k: nat)
    requires BlocksOk(blocks, page) && j < k < |Frames(blocks, page)|
    ensures Frames(blocks, page)[j].pfn < Frames(blocks, page)[k].pfn
    decreases k
  {
    FramesIncrease(blocks, page, k - 1);
    if j < k - 1 { FramesOrdered(blocks, page, j, k - 1); }
  }

  lemma RankOfFrame(blocks: seq<Block>, page: nat, k: nat)
    requires BlocksOk(blocks, page) && k < |Frames(blocks, page)|
    ensures var frames := Frames(blocks, page);
      |Below(Numbers(frames, |frames|), frames[k].pfn)| == k
  {
    var frames := Frames(blocks, page);
    forall j: nat | j < |frames| ensures frames[j].pfn < frames[k].pfn <==> j < k {
      if j < k { FramesOrdered(blocks, page, j, k); }
      if k < j { FramesOrdered(blocks, page, k, j); }
    }
    assert Below(Numbers(frames, |frames|), frames[k].pfn) == Numbers(frames, k);
    NumbersCount(blocks, page, k);
  }

  /** The k-th frame's number leads back to its bytes. */
  lemma ReadFrame(s: DumpState, f: Front, c: Codec, bitmap: seq<Byte>, marked: set<nat>, ds: seq<Descriptor>,
      stored: seq<Byte>, k: nat)
    requires Complete(s, f, c, bitmap, marked, ds, stored) && k < |Frames(s.blocks, s.page)|
    requires s.page < U32
    requires var n := |Frames(s.blocks, s.page)|;
      s.offsetPage + DESCRIPTOR_SIZE * n + s.page + s.page * n < 0x1_0000_0000_0000_0000
    ensures var frame := Frames(s.blocks, s.page)[k];
      ReadPfn(s.log, c, s.offsetDumpBitmap + s.lenDumpBitmap, s.offsetPage, frame.pfn) == Some(frame.bytes)
  {
    hide Frames, Holds, Marks, Numbers, BlocksOk, FrontWritten, PagesWritten, Contains, Rank, ReadPage, BitAt;
    var frames := Frames(s.blocks, s.page);
    MarkedFrame(s.blocks, s.page, bitmap, marked, k);
    FindFrame(s.log, s.offsetDumpBitmap + s.lenDumpBitmap, s.blocks, s.page, bitmap, marked, k);
    ReadBack(s.log, s.offsetPage, c, frames, s.page, ds, stored, k);
  }

  lemma MarkedFrame(blocks: seq<Block>, page: nat, bitmap: seq<Byte>, marked: set<nat>, k: nat)
    requires BlocksOk(blocks, page) && k < |Frames(blocks, page)| && Marks(bitmap, marked)
    requires forall pfn: nat :: pfn in marked <==> exists i: nat :: i < |blocks| && Contains(blocks[i], page, pfn)
    ensures var frames := Frames(blocks, page);
      && |frames[k].bytes| == page && frames[k].pfn in marked && frames[k].pfn < 8 * |bitmap|
      && marked == Numbers(frames, |frames|)
  {
    hide Frames, BlocksOk, Contains;
    var home := FrameHome(blocks, page, k);
    NumbersAll(blocks, page);
  }

  /** The bitmap leads from a frame's number to its index. */
  lemma FindFrame(log: seq<Record>, bitmap2: nat, blocks: seq<Block>, page: nat, bitmap: seq<Byte>, marked: set<nat>,
      k: nat)
    requires BlocksOk(blocks, page) && k < |Frames(blocks, page)|
    requires Holds(log, bitmap2, bitmap) && Marks(bitmap, marked)
    requires var frames := Frames(blocks, page);
      frames[k].pfn in marked && frames[k].pfn < 8 * |bitmap| && marked == Numbers(frames, |frames|)
    ensures BitAt(log, bitmap2, Frames(blocks, page)[k].pfn) && Rank(log, bitmap2, Frames(blocks, page)[k].pfn) == k
  {
    hide Frames, Holds, Marks, Numbers, BlocksOk, Rank, BitAt, Below;
    var pfn := Frames(blocks, page)[k].pfn;
    BitAtMarked(log, bitmap2, bitmap, marked, pfn);
    RankBelow(log, bitmap2, bitmap, marked, pfn);
    RankOfFrame(blocks, page, k);
  }

  /** What a reader must return for a page: the guest's bytes if a block contains it, otherwise nothing. */
  ghost predicate GuestPage(blocks: seq<Block>, page: nat, pfn: nat, r: Option<seq<Byte>>) {
    && (forall i: nat :: i < |blocks| && Contains(blocks[i], page, pfn) ==>
          var lo := pfn * page - blocks[i].start;
          0 <= lo <= lo + page <= |blocks[i].memory| && r == Some(blocks[i].memory[lo..lo + page]))
    && ((forall i: nat :: i < |blocks| ==> !Contains(blocks[i], page, pfn)) ==> r == None)
  }

  ghost predicate ReadsBack(log: seq<Record>, c: Codec, bitmap2: nat, offsetPage: nat, blocks: seq<Block>, page: nat,
      pfn: nat) {
    GuestPage(blocks, page, pfn, ReadPfn(log, c, bitmap2, offsetPage, pfn))
  }

  /** The round trip: reading back a page of guest memory gives its bytes, and a page that is in no block
      reads as absent. */
  lemma RoundTrip(s: DumpState, f: Front, c: Codec, bitmap: seq<Byte>, marked: set<nat>, ds: seq<Descriptor>,
      stored: seq<Byte>, pfn: nat)
    requires Complete(s, f, c, bitmap, marked, ds, stored) && pfn < 8 * s.lenDumpBitmap && s.page < U32
    requires var n := |Frames(s.blocks, s.page)|;
      s.offsetPage + DESCRIPTOR_SIZE * n + s.page + s.page * n < 0x1_0000_0000_0000_0000
    ensures ReadsBack(s.log, c, s.offsetDumpBitmap + s.lenDumpBitmap, s.offsetPage, s.blocks, s.page, pfn)
  {
    hide Frames, Holds, Marks, BlocksOk, PagesWritten, ReadPage, BitAt, Contains;
    forall i: nat | i < |s.blocks| && Contains(s.blocks[i], s.page, pfn)
      ensures var lo := pfn * s.page - s.blocks[i].start;
        && 0 <= lo <= lo + s.page <= |s.blocks[i].memory|
        && ReadPfn(s.log, c, s.offsetDumpBitmap + s.lenDumpBitmap, s.offsetPage, pfn)
           == Some(s.blocks[i].memory[lo..lo + s.page])
    {
      var k := PageFrame(s.blocks, s.page, i, pfn);
      ReadFrame(s, f, c, bitmap, marked, ds, stored, k);
    }
    BitAtMarked(s.log, s.offsetDumpBitmap + s.lenDumpBitmap, bitmap, marked, pfn);
  }

  /** The frame of a page of a block, with its bytes. */
  lemma PageFrame(blocks: seq<Block>, page: nat, i: nat, pfn: nat) returns (k: nat)
    requires BlocksOk(blocks, page) && i < |blocks| && Contains(blocks[i], page, pfn)
    ensures var lo := pfn * page - blocks[i].start;
      && 0 <= lo <= lo + page <= |blocks[i].memory|
      && k < |Frames(blocks, page)| && Frames(blocks, page)[k] == Frame(pfn, blocks[i].memory[lo..lo + page])
  {
    ContainsIff(blocks[i], page, pfn);
    var j := pfn - First(blocks[i], page);
    DivExact(blocks[i].start, page);
    assert pfn * page - blocks[i].start == j * page;
    Slice(blocks[i], page, j);
    FrameAt(blocks, page, i, j);
    k := Before(blocks, page, i) + j;
  }

  // ------------------------------------------------------------------------------------------
  // From guest memory to file and back

  lemma LengthOk(last: nat, page: nat)
    requires page > 0
    ensures BitmapLength(last + 1, page) > 0 && BitmapLength(last + 1, page) % page == 0
  {
    hide BitmapLength;
    LengthExact(last, page);
    var n := last / (page * 8) + 1;
    Quotient(last, page * 8);
    MulLess(0, n, page);
    MultipleOf(n, page);
  }

  lemma MultipleOf(n: nat, page: nat)
    requires page > 0
    ensures (page * n) % page == 0
  {
    QuotientIs(page * n, page, n, 0);
    assert page * n == page * ((page * n) / page) + (page * n) % page;
  }

  /** len_dump_bitmap of a guest. */
  ghost function GuestLength(blocks: seq<Block>, page: nat): (r: nat)
    requires BlocksOk(blocks, page) && blocks != []
    ensures r > 0 && r % page == 0
  {
    var b := blocks[|blocks| - 1];
    CountLemma(b, page);
    LengthOk(b.end / page - 1, page);
    BitmapLength(b.end / page, page)
  }

  /** The front of the file, as create_header32 and create_header64 fill it in. */
  function FrontOf(g: Info, flag: nat, z: Sizes, maxMapnr: nat): Front
    requires InfoOk(g) && SizesOk(z)
  {
    Front(g.class64, HeaderBytes(g, flag, z, maxMapnr), SubHeaderBytes(g, z.page, maxMapnr), g.notes)
  }

  /** A reader that knows the class of the target, the codec and nothing else but the file. */
  function ReadGuest(log: seq<Record>, class64: bool, c: Codec, pfn: nat): Option<seq<Byte>> {
    var layout := ReadLayout(log, class64);
    if layout.None? || pfn >= layout.value.maxMapnr then None
    else ReadPfn(log, c, layout.value.bitmap2, layout.value.pages, pfn)
  }

  /** max_mapnr is small enough for its field and within the bitmap, and no block reaches beyond it. */
  lemma MapnrBound(blocks: seq<Block>, page: nat, z: Sizes)
    requires BlocksOk(blocks, page) && blocks != [] && z.length == GuestLength(blocks, page)
    requires SizesOk(z) && IdealPage(z) < U32
    ensures blocks[|blocks| - 1].end / page <= 8 * z.length && 8 * z.length < 0x1_0000_0000_0000_0000
  {
    hide IdealBitmap, BitmapLength;
    var b := blocks[|blocks| - 1];
    CountLemma(b, page);
    LengthExact(b.end / page - 1, page);
    BufferCovers(b.end / page - 1, page);
  }

  lemma BufferCovers(last: nat, page: nat)
    requires page > 0
    ensures last < 8 * (page * (last / (page * 8) + 1))
  {
    var d := page * 8;
    assert last == d * (last / d) + last % d;
    assert 8 * (page * (last / d + 1)) == d * (last / d) + d;
  }

  lemma BeyondLast(blocks: seq<Block>, page: nat, i: nat, pfn: nat)
    requires BlocksOk(blocks, page) && i < |blocks| && blocks[|blocks| - 1].end / page <= pfn
    ensures !Contains(blocks[i], page, pfn)
  {
    var b, last := blocks[i], blocks[|blocks| - 1];
    DivExact(last.end, page);
    assert b.end <= last.end by { if i < |blocks| - 1 { assert b.end <= last.start; } }
    MulLessEq(last.end / page, pfn, page);
    ContainsIff(b, page, pfn);
    DivExact(b.end, page);
    DivExact(b.start, page);
  }

  lemma MulLessEq(a: nat, b: nat, c: nat)
    requires a <= b
    ensures a * c <= b * c
  {
    assert (b - a) * c >= 0;
  }

  /** A dump from start to finish: a reader that starts from the headers of the replayed file obtains, for every page
      number, the guest's bytes if a block contains the page and nothing otherwise, and finds the notes, the name, the
      compression and the number of CPUs. */
  method DumpGuest(page: nat, blocks: seq<Block>, g: Info, c: Codec) returns (s: DumpState)
    requires 512 <= page < U32 && U32 % page == 0 && BlocksOk(blocks, page) && blocks != []
    requires CodecOk(c) && InfoOk(g)
    requires IdealPage(Sizes(page, g.class64, |g.notes|, GuestLength(blocks, page))) < U32
    requires var n := |Frames(blocks, page)|;
      U32 + DESCRIPTOR_SIZE * n + page + page * n < 0x1_0000_0000_0000_0000
    ensures fresh(s) && ReadNotes(s.log, g.class64, page) == Some(g.notes)
    ensures var header := ReadHeader(s.log, g.class64);
      header.Some? && header.value.stamp == g.stamp && header.value.status == c.flag && header.value.cpus == g.nrCpus
    ensures forall pfn: nat :: GuestPage(blocks, page, pfn, ReadGuest(s.log, g.class64, c, pfn))
  {
    hide BlocksOk, CodecOk, Frames, BitmapLength, GuestPage, ReadGuest, Complete, FrontOf;
    hide ReadNotes, ReadHeader, IdealPage, OffsetDumpBitmap, OffsetPage;
    s := new DumpState(page, blocks);
    var maxMapnr := blocks[|blocks| - 1].end / page;
    var z := Sizes(page, g.class64, |g.notes|, s.lenDumpBitmap);
    FrontIs(g, c.flag, z, maxMapnr);
    ghost var bitmap, marked, ds, stored;
    bitmap, marked, ds, stored := CreateKdumpVmcore(s, FrontOf(g, c.flag, z, maxMapnr), c);
    HeadersRead(s, g, z, c, bitmap, marked, ds, stored);
    StatusRead(s, g, z, c, bitmap, marked, ds, stored);
    forall pfn: nat ensures GuestPage(blocks, page, pfn, ReadGuest(s.log, g.class64, c, pfn)) {
      FileReads(s, g, z, c, bitmap, marked, ds, stored, pfn);
    }
  }

  lemma FrontIs(g: Info, flag: nat, z: Sizes, maxMapnr: nat)
    requires InfoOk(g) && SizesOk(z)
    ensures var f := FrontOf(g, flag, z, maxMapnr);
      && FrontOk(f) && f.class64 == g.class64 && f.notes == g.notes && f.header == HeaderBytes(g, flag, z, maxMapnr)
      && f.subHeader == SubHeaderBytes(g, z.page, maxMapnr)
  {
    hide HeaderBytes, SubHeaderBytes;
  }

  /** The file of a complete dump: the layout and the notes are found from its headers. */
  lemma HeadersRead(s: DumpState, g: Info, z: Sizes, c: Codec, bitmap: seq<Byte>, marked: set<nat>,
      ds: seq<Descriptor>, stored: seq<Byte>)
    requires s.blocks != [] && BlocksOk(s.blocks, s.page) && InfoOk(g) && SizesOk(z) && IdealPage(z) < U32
    requires z == Sizes(s.page, g.class64, |g.notes|, s.lenDumpBitmap) && z.length == GuestLength(s.blocks, s.page)
    requires Complete(s, FrontOf(g, c.flag, z, s.blocks[|s.blocks| - 1].end / s.page), c, bitmap, marked, ds, stored)
    requires s.offsetDumpBitmap == OffsetDumpBitmap(z) && s.offsetPage == OffsetPage(z)
    ensures ReadNotes(s.log, g.class64, s.page) == Some(g.notes)
    ensures ReadLayout(s.log, g.class64)
         == Some(Layout(s.page, s.offsetDumpBitmap + s.lenDumpBitmap, s.offsetPage,
                        s.blocks[|s.blocks| - 1].end / s.page))
  {
    hide BlocksOk, Holds, ReadLayout, ReadNotes, IdealPage, OffsetDumpBitmap, OffsetPage, FrontOf, BitmapsWritten;
    hide PagesWritten, GuestLength, HeaderBytes, SubHeaderBytes, InfoOk, BitmapLength;
    var maxMapnr := s.blocks[|s.blocks| - 1].end / s.page;
    FrontIs(g, c.flag, z, maxMapnr);
    MapnrBound(s.blocks, s.page, z);
    LayoutRead(s.log, g, c.flag, z, maxMapnr);
    NotesRead(s.log, g, z, maxMapnr);
  }

  lemma StatusRead(s: DumpState, g: Info, z: Sizes, c: Codec, bitmap: seq<Byte>, marked: set<nat>,
      ds: seq<Descriptor>, stored: seq<Byte>)
    requires s.blocks != [] && s.page > 0 && InfoOk(g) && SizesOk(z) && CodecOk(c)
    requires Complete(s, FrontOf(g, c.flag, z, s.blocks[|s.blocks| - 1].end / s.page), c, bitmap, marked, ds, stored)
    ensures var header := ReadHeader(s.log, g.class64);
      header.Some? && header.value.stamp == g.stamp && header.value.status == c.flag && header.value.cpus == g.nrCpus
  {
    hide BlocksOk, Holds, ReadHeader, FrontOf, BitmapsWritten, PagesWritten, InfoOk, SizesOk;
    var maxMapnr := s.blocks[|s.blocks| - 1].end / s.page;
    FrontIs(g, c.flag, z, maxMapnr);
    HeaderRead(s.log, g, c.flag, z, maxMapnr);
  }

  lemma FileReads(s: DumpState, g: Info, z: Sizes, c: Codec, bitmap: seq<Byte>, marked: set<nat>,
      ds: seq<Descriptor>, stored: seq<Byte>, pfn: nat)
    requires s.blocks != [] && BlocksOk(s.blocks, s.page) && InfoOk(g) && SizesOk(z) && IdealPage(z) < U32
    requires z == Sizes(s.page, g.class64, |g.notes|, s.lenDumpBitmap) && z.length == GuestLength(s.blocks, s.page)
    requires Complete(s, FrontOf(g, c.flag, z, s.blocks[|s.blocks| - 1].end / s.page), c, bitmap, marked, ds, stored)
    requires s.offsetDumpBitmap == OffsetDumpBitmap(z) && s.offsetPage == OffsetPage(z) < U32 && s.page < U32
    requires var n := |Frames(s.blocks, s.page)|;
      U32 + DESCRIPTOR_SIZE * n + s.page + s.page * n < 0x1_0000_0000_0000_0000
    ensures GuestPage(s.blocks, s.page, pfn, ReadGuest(s.log, g.class64, c, pfn))
  {
    hide BlocksOk, ReadLayout, IdealPage, OffsetDumpBitmap, OffsetPage, FrontOf, Complete, GuestLength, GuestPage;
    hide ReadPfn, Frames;
    var maxMapnr := s.blocks[|s.blocks| - 1].end / s.page;
    HeadersRead(s, g, z, c, bitmap, marked, ds, stored);
    if pfn < maxMapnr {
      MapnrBound(s.blocks, s.page, z);
      RoundTrip(s, FrontOf(g, c.flag, z, maxMapnr), c, bitmap, marked, ds, stored, pfn);
    } else {
      AbsentBeyond(s.blocks, s.page, pfn);
    }
  }

  lemma AbsentBeyond(blocks: seq<Block>, page: nat, pfn: nat)
    requires BlocksOk(blocks, page) && blocks != [] && blocks[|blocks| - 1].end / page <= pfn
    ensures GuestPage(blocks, page, pfn, None)
  {
    forall i: nat | i < |blocks| ensures !Contains(blocks[i], page, pfn) { BeyondLast(blocks, page, i, pfn); }
  }
}
