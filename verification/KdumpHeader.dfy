// The headers of a kdump-compressed file (create_header32 and create_header64 in dump.c) as bytes, and how a
// reader finds the bitmaps, the page section and the notes from them. Targets are little-endian.

module KdumpHeaders {
  import opened Basics
  import opened LittleEndian
  import opened VmcoreFiles
  import opened GuestPages
  import opened DumpBitmaps
  import opened KdumpPages
  import opened KdumpLayout

  const UINT32_MAX: nat := 0xffff_ffff

  /** "KDUMP   " */
  const SIGNATURE: seq<Byte> := [0x4b, 0x44, 0x55, 0x4d, 0x50, 0x20, 0x20, 0x20]

  /** What the dump is told of the guest: the name and the time stamp as bytes, the number of CPUs, the base of the
      kernel and the notes. */
  datatype Info = Info(class64: bool, stamp: seq<Byte>, nrCpus: nat, physBase: nat, notes: seq<Byte>)

  /** Six names of 65 bytes and the time stamp. */
  function StampSize(class64: bool): nat { if class64 then 412 else 400 }

  predicate InfoOk(g: Info) { |g.stamp| == StampSize(g.class64) && g.nrCpus <= UINT32_MAX }

  // ------------------------------------------------------------------------------------------
  // The headers

  /** The fields of DiskDumpHeader32 and 64 after the time stamp. */
  function PlaceFields(status: nat, block: nat, sub: nat, bitmaps: nat): (r: seq<Byte>)
    ensures |r| == 16
  {
    Le(status, 4) + Le(block, 4) + Le(sub, 4) + Le(bitmaps, 4)
  }

  /** Four of the other fields stay 0. */
  function CountFields(mapnr: nat, cpus: nat): (r: seq<Byte>)
    ensures |r| == 24
  {
    Le(mapnr, 4) + Le(0, 4) + Le(0, 4) + Le(0, 4) + Le(0, 4) + Le(cpus, 4)
  }

  /** The status is the flag of the compression in use. */
  function HeaderBytes(g: Info, flag: nat, z: Sizes, maxMapnr: nat): (r: seq<Byte>)
    requires InfoOk(g) && SizesOk(z)
    ensures |r| == HeaderSize(g.class64)
  {
    hide PlaceFields, CountFields;
    SIGNATURE + Le(6, 4) + g.stamp + PlaceFields(flag, z.page, SubHeaderBlocks(z), BitmapBlocks(z))
    + CountFields(if maxMapnr < UINT32_MAX then maxMapnr else UINT32_MAX, g.nrCpus)
  }

  /** KdumpSubHeader32 and 64: the fields before the notes' place that are not set, split to size_vmcoreinfo. */
  function Unset(class64: bool): (r: seq<Byte>)
    ensures |r| == if class64 then 36 else 24
  {
    if class64 then Le(0, 4) + Le(0, 8) + Le(0, 8) + Le(0, 8) + Le(0, 8)
    else Le(0, 4) + Le(0, 4) + Le(0, 4) + Le(0, 8) + Le(0, 4)
  }

  /** All before the notes' place; the dump level is 1. */
  function SubHead(g: Info): (r: seq<Byte>)
    ensures |r| == if g.class64 then 48 else 32
  {
    Le(g.physBase, if g.class64 then 8 else 4) + Le(1, 4) + Unset(g.class64)
  }

  /** All after it, of which only the number of pages is set. */
  function SubTail(g: Info, maxMapnr: nat): (r: seq<Byte>)
    ensures |r| == if g.class64 then 40 else 36
  {
    if g.class64 then Le(0, 8) + Le(0, 8) + Le(0, 8) + Le(0, 8) + Le(maxMapnr, 8)
    else Le(0, 8) + Le(0, 4) + Le(0, 8) + Le(0, 8) + Le(maxMapnr, 8)
  }

  function NoteFields(g: Info, page: nat): (r: seq<Byte>)
    ensures |r| == if g.class64 then 16 else 12
  {
    Le(page + SubHeaderSize(g.class64), 8) + Le(|g.notes|, if g.class64 then 8 else 4)
  }

  function SubHeaderBytes(g: Info, page: nat, maxMapnr: nat): (r: seq<Byte>)
    ensures |r| == SubHeaderSize(g.class64)
  {
    hide SubHead, NoteFields, SubTail;
    SubHead(g) + NoteFields(g, page) + SubTail(g, maxMapnr)
  }

  // ------------------------------------------------------------------------------------------
  // The reader

  /** Where the second bitmap and the page section are, and how many page numbers there are. */
  datatype Layout = Layout(block: nat, bitmap2: nat, pages: nat, maxMapnr: nat)

  function ReadNumber(log: seq<Record>, at: nat, width: nat): Option<nat> {
    var bytes := Fetch(log, at, width);
    if bytes.None? then None else Some(UnLe(bytes.value))
  }

  /** One block for the header, the sub-header's blocks, then two bitmaps of half the bitmap blocks each. */
  function LayoutFrom(block: nat, sub: nat, bitmaps: nat, mapnr: nat): Layout {
    Product(1 + sub, block);
    Product(bitmaps / 2, block);
    Product(bitmaps, block);
    var bitmap := (1 + sub) * block;
    Layout(block, bitmap + bitmaps / 2 * block, bitmap + bitmaps * block, mapnr)
  }

  function ReadLayout(log: seq<Record>, class64: bool): Option<Layout> {
    var at := 12 + StampSize(class64);
    var block, sub, bitmaps := ReadNumber(log, at + 4, 4), ReadNumber(log, at + 8, 4), ReadNumber(log, at + 12, 4);
    if block.None? || sub.None? || bitmaps.None? || Fetch(log, 0, 8) != Some(SIGNATURE) then None
    else
      var mapnr := ReadNumber(log, block.value + if class64 then 96 else 72, 8);
      if mapnr.None? then None
      else
        Some(LayoutFrom(block.value, sub.value, bitmaps.value, mapnr.value))
  }

  /** The notes, by their offset and size in the sub-header. */
  function ReadNotes(log: seq<Record>, class64: bool, block: nat): Option<seq<Byte>> {
    var at := block + if class64 then 48 else 32;
    var offset, size := ReadNumber(log, at, 8), ReadNumber(log, at + 8, if class64 then 8 else 4);
    if offset.None? || size.None? then None else Fetch(log, offset.value, size.value)
  }

  // ------------------------------------------------------------------------------------------
  // They agree

  lemma NumberHeld(log: seq<Record>, base: nat, bytes: seq<Byte>, k: nat, n: nat, width: nat)
    requires Holds(log, base, bytes) && k + width <= |bytes| && bytes[k..k + width] == Le(n, width)
    requires n < Pow256(width)
    ensures ReadNumber(log, base + k, width) == Some(n)
  {
    hide Le, UnLe, Fetch, Pow256, Holds;
    var part := FetchPart(log, base, bytes, k, base + k, width);
    LeRoundTrip(n, width);
  }

  lemma PlaceSlices(status: nat, block: nat, sub: nat, bitmaps: nat)
    ensures var r := PlaceFields(status, block, sub, bitmaps);
      r[0..4] == Le(status, 4) && r[4..8] == Le(block, 4) && r[8..12] == Le(sub, 4) && r[12..16] == Le(bitmaps, 4)
  {
    hide Le;
  }

  lemma HeaderSlices(g: Info, flag: nat, z: Sizes, maxMapnr: nat)
    requires InfoOk(g) && SizesOk(z)
    ensures var at, r := 12 + StampSize(g.class64), HeaderBytes(g, flag, z, maxMapnr);
      && r[0..8] == SIGNATURE && r[at..at + 4] == Le(flag, 4) && r[at + 4..at + 8] == Le(z.page, 4)
      && r[at + 8..at + 12] == Le(SubHeaderBlocks(z), 4) && r[at + 12..at + 16] == Le(BitmapBlocks(z), 4)
  {
    hide Le, PlaceFields, CountFields, SubHeaderBlocks, BitmapBlocks, SizesOk;
    var counts := CountFields(if maxMapnr < UINT32_MAX then maxMapnr else UINT32_MAX, g.nrCpus);
    var place := PlaceFields(flag, z.page, SubHeaderBlocks(z), BitmapBlocks(z));
    var at, r := 12 + StampSize(g.class64), HeaderBytes(g, flag, z, maxMapnr);
    PlaceSlices(flag, z.page, SubHeaderBlocks(z), BitmapBlocks(z));
    assert r == [] + SIGNATURE + (Le(6, 4) + g.stamp + place + counts);
    Middle([], SIGNATURE, Le(6, 4) + g.stamp + place + counts);
    Middle(SIGNATURE + Le(6, 4) + g.stamp, place, counts);
    SubSlice(r, at, 16, 0, 4);
    SubSlice(r, at, 16, 4, 4);
    SubSlice(r, at, 16, 8, 4);
    SubSlice(r, at, 16, 12, 4);
  }

  lemma SubTailSlice(g: Info, maxMapnr: nat)
    ensures var n, r := if g.class64 then 40 else 36, SubTail(g, maxMapnr); r[n - 8..n] == Le(maxMapnr, 8)
  {
    hide Le;
  }

  lemma SubSlices(g: Info, page: nat, maxMapnr: nat)
    ensures var at, w, r := if g.class64 then 48 else 32, if g.class64 then 8 else 4, SubHeaderBytes(g, page, maxMapnr);
      && r[at..at + 8] == Le(page + SubHeaderSize(g.class64), 8) && r[at + 8..at + 8 + w] == Le(|g.notes|, w)
      && r[|r| - 8..|r|] == Le(maxMapnr, 8)
  {
    hide Le, SubHead, SubTail;
    var head, mid, tail := SubHead(g), NoteFields(g, page), SubTail(g, maxMapnr);
    var at, w, r := if g.class64 then 48 else 32, if g.class64 then 8 else 4, SubHeaderBytes(g, page, maxMapnr);
    SubTailSlice(g, maxMapnr);
    Middle(head, mid, tail);
    assert r == (head + mid) + tail + [];
    Middle(head + mid, tail, []);
    SubSlice(r, at, |mid|, 0, 8);
    SubSlice(r, at, |mid|, 8, w);
    SubSlice(r, at + |mid|, |tail|, |tail| - 8, 8);
  }

  /** Below 4 GiB the block counts are the exact ones. */
  lemma LayoutIs(z: Sizes)
    requires SizesOk(z) && IdealPage(z) < U32
    ensures z.page < U32 && SubHeaderBlocks(z) < U32 && BitmapBlocks(z) < U32 && z.note < U32
    ensures (1 + SubHeaderBlocks(z)) * z.page == OffsetDumpBitmap(z)
    ensures BitmapBlocks(z) / 2 * z.page == z.length
    ensures OffsetDumpBitmap(z) + BitmapBlocks(z) * z.page == OffsetPage(z)
  {
    hide DivRoundUp, SubHeaderBlocks, BitmapBlocks, OffsetDumpBitmap, OffsetPage;
    PageExact(z);
    BitmapExact(z);
    IdealBounds(z);
    LengthBlocks(z);
    var n := DivRoundUp(z.length, z.page);
    FewerBlocks(SubHeaderBlocks(z), z.page);
    FewerBlocks(2 * n, z.page);
    assert 2 * n * z.page == 2 * (n * z.page);
  }

  lemma FewerBlocks(n: nat, page: nat)
    requires page > 0
    ensures n <= n * page && (1 + n) * page == page + n * page
  {
  }

  lemma LayoutFromIs(z: Sizes, mapnr: nat)
    requires SizesOk(z) && IdealPage(z) < U32
    ensures LayoutFrom(z.page, SubHeaderBlocks(z), BitmapBlocks(z), mapnr)
         == Layout(z.page, OffsetDumpBitmap(z) + z.length, OffsetPage(z), mapnr)
  {
    hide SubHeaderBlocks, BitmapBlocks, OffsetDumpBitmap, OffsetPage, IdealPage, SizesOk;
    LayoutIs(z);
  }

  /** From the headers alone a reader finds the block size, the second bitmap, the page section and the number of
      pages. */
  lemma LayoutRead(log: seq<Record>, g: Info, flag: nat, z: Sizes, maxMapnr: nat)
    requires InfoOk(g) && SizesOk(z) && IdealPage(z) < U32 && z.class64 == g.class64 && z.note == |g.notes|
    requires maxMapnr < 0x1_0000_0000_0000_0000
    requires Holds(log, 0, HeaderBytes(g, flag, z, maxMapnr)) && Holds(log, z.page, SubHeaderBytes(g, z.page, maxMapnr))
    ensures ReadLayout(log, g.class64)
         == Some(Layout(z.page, OffsetDumpBitmap(z) + z.length, OffsetPage(z), maxMapnr))
  {
    hide Le, Holds, HeaderBytes, SubHeaderBytes, SubHeaderBlocks, BitmapBlocks, OffsetDumpBitmap, OffsetPage, Fetch;
    hide ReadNumber, IdealPage, LayoutFrom, SizesOk, InfoOk;
    Widths();
    HeaderSlices(g, flag, z, maxMapnr);
    SubSlices(g, z.page, maxMapnr);
    LayoutIs(z);
    LayoutFromIs(z, maxMapnr);
    var at, head := 12 + StampSize(g.class64), HeaderBytes(g, flag, z, maxMapnr);
    var sub := SubHeaderBytes(g, z.page, maxMapnr);
    NumberHeld(log, 0, head, at + 4, z.page, 4);
    NumberHeld(log, 0, head, at + 8, SubHeaderBlocks(z), 4);
    NumberHeld(log, 0, head, at + 12, BitmapBlocks(z), 4);
    NumberHeld(log, z.page, sub, |sub| - 8, maxMapnr, 8);
    var sig := FetchPart(log, 0, head, 0, 0, 8);
  }

  /** And the notes. */
  lemma NotesRead(log: seq<Record>, g: Info, z: Sizes, maxMapnr: nat)
    requires InfoOk(g) && SizesOk(z) && IdealPage(z) < U32 && z.class64 == g.class64 && z.note == |g.notes|
    requires Holds(log, z.page, SubHeaderBytes(g, z.page, maxMapnr))
    requires Holds(log, z.page + SubHeaderSize(g.class64), g.notes)
    ensures ReadNotes(log, g.class64, z.page) == Some(g.notes)
  {
    hide Le, Holds, SubHeaderBytes, Fetch, ReadNumber, IdealPage;
    Widths();
    SubSlices(g, z.page, maxMapnr);
    LayoutIs(z);
    var at, w, sub := if g.class64 then 48 else 32, if g.class64 then 8 else 4, SubHeaderBytes(g, z.page, maxMapnr);
    NumberHeld(log, z.page, sub, at, z.page + SubHeaderSize(g.class64), 8);
    NumberHeld(log, z.page, sub, at + 8, |g.notes|, w);
    FetchHeld(log, z.page + SubHeaderSize(g.class64), g.notes);
  }

  // ------------------------------------------------------------------------------------------
  // The other fields

  ghost predicate Zeroed(bytes: seq<Byte>, from: nat, to: nat) {
    to <= |bytes| && forall i :: from <= i < to ==> bytes[i] == 0
  }

  lemma {:induction false} LeZero(width: nat)
    ensures Zeroed(Le(0, width), 0, width)
  {
    if width > 0 { LeZero(width - 1); }
  }

  /** What else a reader needs from the header: the version, the name, the compression, the number of CPUs, and the
      old field for the number of pages, which holds as much of it as it can. */
  datatype Header = Header(version: nat, stamp: seq<Byte>, status: nat, mapnr: nat, cpus: nat)

  function ReadHeader(log: seq<Record>, class64: bool): Option<Header> {
    var at := 12 + StampSize(class64);
    var version, stamp, status := ReadNumber(log, 8, 4), Fetch(log, 12, StampSize(class64)), ReadNumber(log, at, 4);
    var mapnr, cpus := ReadNumber(log, at + 16, 4), ReadNumber(log, at + 36, 4);
    if version.None? || stamp.None? || status.None? || mapnr.None? || cpus.None? then None
    else Some(Header(version.value, stamp.value, status.value, mapnr.value, cpus.value))
  }

  lemma CountSlices(mapnr: nat, cpus: nat)
    ensures var r := CountFields(mapnr, cpus);
      r[0..4] == Le(mapnr, 4) && Zeroed(r, 4, 20) && r[20..24] == Le(cpus, 4)
  {
    LeZero(4);
    hide Le;
  }

  lemma HeaderTail(g: Info, flag: nat, z: Sizes, maxMapnr: nat)
    requires InfoOk(g) && SizesOk(z)
    ensures var at, r := 28 + StampSize(g.class64), HeaderBytes(g, flag, z, maxMapnr);
      && r[8..12] == Le(6, 4) && r[12..at - 16] == g.stamp
      && r[at..at + 4] == Le(if maxMapnr < UINT32_MAX then maxMapnr else UINT32_MAX, 4)
      && Zeroed(r, at + 4, at + 20) && r[at + 20..at + 24] == Le(g.nrCpus, 4)
  {
    hide Le, PlaceFields, CountFields, SubHeaderBlocks, BitmapBlocks, SizesOk;
    var mapnr := if maxMapnr < UINT32_MAX then maxMapnr else UINT32_MAX;
    var counts, place := CountFields(mapnr, g.nrCpus), PlaceFields(flag, z.page, SubHeaderBlocks(z), BitmapBlocks(z));
    var at, r := 28 + StampSize(g.class64), HeaderBytes(g, flag, z, maxMapnr);
    CountSlices(mapnr, g.nrCpus);
    assert r == SIGNATURE + Le(6, 4) + (g.stamp + place + counts);
    Middle(SIGNATURE, Le(6, 4), g.stamp + place + counts);
    assert r == (SIGNATURE + Le(6, 4)) + g.stamp + (place + counts);
    Middle(SIGNATURE + Le(6, 4), g.stamp, place + counts);
    var front := SIGNATURE + Le(6, 4) + g.stamp + place;
    SliceSuffix(front, counts, 0, 4);
    SliceSuffix(front, counts, 20, 4);
    forall i | at + 4 <= i < at + 20 ensures r[i] == 0 { assert r[i] == counts[i - at]; }
  }

  /** The header reads back. */
  lemma HeaderRead(log: seq<Record>, g: Info, flag: nat, z: Sizes, maxMapnr: nat)
    requires InfoOk(g) && SizesOk(z) && flag < U32 && Holds(log, 0, HeaderBytes(g, flag, z, maxMapnr))
    ensures var mapnr := if maxMapnr < UINT32_MAX then maxMapnr else UINT32_MAX;
      ReadHeader(log, g.class64) == Some(Header(6, g.stamp, flag, mapnr, g.nrCpus))
  {
    hide Le, Holds, HeaderBytes, Fetch, ReadNumber, SizesOk;
    Widths();
    HeaderSlices(g, flag, z, maxMapnr);
    HeaderTail(g, flag, z, maxMapnr);
    var at, head := 28 + StampSize(g.class64), HeaderBytes(g, flag, z, maxMapnr);
    NumberHeld(log, 0, head, 8, 6, 4);
    NumberHeld(log, 0, head, at - 16, flag, 4);
    NumberHeld(log, 0, head, at, if maxMapnr < UINT32_MAX then maxMapnr else UINT32_MAX, 4);
    NumberHeld(log, 0, head, at + 20, g.nrCpus, 4);
    var stamp := FetchPart(log, 0, head, 12, 12, StampSize(g.class64));
  }

  lemma UnsetZero(class64: bool)
    ensures Zeroed(Unset(class64), 0, |Unset(class64)|)
  {
    LeZero(4);
    LeZero(8);
    hide Le;
  }

  lemma SubHeadSlices(g: Info)
    ensures var w, r := if g.class64 then 8 else 4, SubHead(g);
      r[0..w] == Le(g.physBase, w) && r[w..w + 4] == Le(1, 4) && Zeroed(r, w + 4, |r|)
  {
    hide Le, Unset;
    UnsetZero(g.class64);
  }

  lemma SubTailZero(g: Info, maxMapnr: nat)
    ensures Zeroed(SubTail(g, maxMapnr), 0, |SubTail(g, maxMapnr)| - 8)
  {
    LeZero(4);
    LeZero(8);
    hide Le;
  }

  /** Apart from the notes and the number of pages the sub-header holds the base of the kernel, cut to its field, and
      the dump level 1. */
  lemma SubHeaderHolds(g: Info, page: nat, maxMapnr: nat)
    ensures var w, at, r := if g.class64 then 8 else 4, if g.class64 then 48 else 32, SubHeaderBytes(g, page, maxMapnr);
      && UnLe(r[0..w]) == g.physBase % Pow256(w) && UnLe(r[w..w + 4]) == 1
      && Zeroed(r, w + 4, at) && Zeroed(r, at + 8 + w, |r| - 8)
  {
    hide Le, UnLe, SubHead, SubTail, NoteFields;
    var w, at, r := if g.class64 then 8 else 4, if g.class64 then 48 else 32, SubHeaderBytes(g, page, maxMapnr);
    var head, mid, tail := SubHead(g), NoteFields(g, page), SubTail(g, maxMapnr);
    SubHeadSlices(g);
    SubTailZero(g, maxMapnr);
    Rebracket(head, mid, tail);
    SlicePrefix(head, mid + tail, 0, w);
    SlicePrefix(head, mid + tail, w, 4);
    LeTruncates(g.physBase, w);
    Widths();
    LeRoundTrip(1, 4);
    forall i | w + 4 <= i < at ensures r[i] == 0 { assert r[i] == head[i]; }
    forall i | at + 8 + w <= i < |r| - 8 ensures r[i] == 0 { assert r[i] == tail[i - |head + mid|]; }
  }
}
