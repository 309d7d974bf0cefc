// The layout of a kdump-compressed file (create_header32 and create_header64 in dump.c), whose
// offsets are computed in 32-bit arithmetic.

module KdumpLayout {
  import opened Basics
  import opened VmcoreFiles
  import opened GuestPages
  import opened DumpBitmaps

  const U32: nat := 0x1_0000_0000

  /** sizeof DiskDumpHeader32/64 and KdumpSubHeader32/64. */
  function HeaderSize(class64: bool): nat { if class64 then 464 else 452 }

  function SubHeaderSize(class64: bool): nat { if class64 then 104 else 80 }

  /** The sizes a layout depends on; note is note_size, length is len_dump_bitmap. */
  datatype Sizes = Sizes(page: nat, class64: bool, note: nat, length: nat)

  predicate SizesOk(z: Sizes) {
    && z.page >= 512 && U32 % z.page == 0
    && z.length > 0 && z.length % z.page == 0
  }

  // ------------------------------------------------------------------------------------------
  // What the code computes, with uint32_t wrap-around

  function SubHeaderBlocks(z: Sizes): nat
    requires SizesOk(z)
  {
    var bytes := (SubHeaderSize(z.class64) + z.note) % U32;
    ((bytes + z.page - 1) % U32) / z.page
  }

  function BitmapBlocks(z: Sizes): nat
    requires SizesOk(z)
  {
    (DivRoundUp(z.length, z.page) * 2) % U32
  }

  function OffsetDumpBitmap(z: Sizes): nat
    requires SizesOk(z)
  {
    Product(1 + SubHeaderBlocks(z), z.page);
    ((1 + SubHeaderBlocks(z)) * z.page) % U32
  }

  function OffsetPage(z: Sizes): nat
    requires SizesOk(z)
  {
    Product(1 + SubHeaderBlocks(z) + BitmapBlocks(z), z.page);
    ((1 + SubHeaderBlocks(z) + BitmapBlocks(z)) * z.page) % U32
  }

  // ------------------------------------------------------------------------------------------
  // What the format asks for

  function NotesEnd(z: Sizes): nat {
    z.page + SubHeaderSize(z.class64) + z.note
  }

  /** The first block boundary after the notes. */
  function IdealBitmap(z: Sizes): nat
    requires SizesOk(z)
  {
    Product(1 + DivRoundUp(SubHeaderSize(z.class64) + z.note, z.page), z.page);
    (1 + DivRoundUp(SubHeaderSize(z.class64) + z.note, z.page)) * z.page
  }

  function IdealPage(z: Sizes): nat
    requires SizesOk(z)
  {
    IdealBitmap(z) + 2 * z.length
  }

  /** No two of header, sub-header, notes, first bitmap, second bitmap and page section (of a given size)
      share a byte. */
  predicate Disjoint(z: Sizes, bitmap: nat, pages: nat, pagesSize: nat) {
    var head, sub := HeaderSize(z.class64), SubHeaderSize(z.class64);
    && Apart(0, head, z.page, sub) && Apart(0, head, z.page + sub, z.note)
    && Apart(0, head, bitmap, z.length) && Apart(0, head, bitmap + z.length, z.length)
    && Apart(0, head, pages, pagesSize)
    && Apart(z.page, sub, z.page + sub, z.note)
    && Apart(z.page, sub, bitmap, z.length) && Apart(z.page, sub, bitmap + z.length, z.length)
    && Apart(z.page, sub, pages, pagesSize)
    && Apart(z.page + sub, z.note, bitmap, z.length) && Apart(z.page + sub, z.note, bitmap + z.length, z.length)
    && Apart(z.page + sub, z.note, pages, pagesSize)
    && Apart(bitmap, z.length, bitmap + z.length, z.length)
    && Apart(bitmap, z.length, pages, pagesSize) && Apart(bitmap + z.length, z.length, pages, pagesSize)
  }

  // ------------------------------------------------------------------------------------------
  // Arithmetic

  lemma RoundUpTight(n: nat, d: nat)
    requires d > 0
    ensures n <= DivRoundUp(n, d) * d < n + d
  {
    var m := n + d - 1;
    assert m == d * (m / d) + m % d;
  }

  lemma RoundUpExact(n: nat, d: nat)
    requires d > 0 && n % d == 0
    ensures DivRoundUp(n, d) * d == n
  {
    DivExact(n, d);
    QuotientIs(n + d - 1, d, n / d, d - 1);
  }

  /** A product reduced modulo a multiple of the page size is still a multiple, and so a page below it. */
  lemma ReducedMultiple(x: nat, page: nat) returns (m: nat)
    requires page > 0 && U32 % page == 0 && x * page >= 0
    ensures (x * page) % U32 == m * page && m * page + page <= U32
  {
    var q := U32 / page;
    DivExact(U32, page);
    var p := x % q;
    assert x == q * (x / q) + p;
    assert x * page == (x / q) * U32 + p * page by {
      assert x * page == (q * (x / q)) * page + p * page;
      assert (q * (x / q)) * page == (x / q) * (q * page);
    }
    Product(p, page);
    MulStep(p, q, page);
    RemainderIs(x * page, x / q, p * page);
    m := p;
  }

  lemma RemainderIs(x: nat, a: nat, r: nat)
    requires x == a * U32 + r && r < U32
    ensures x % U32 == r
  {
  }

  lemma IdealBounds(z: Sizes)
    requires SizesOk(z)
    ensures NotesEnd(z) <= IdealBitmap(z) < NotesEnd(z) + z.page
  {
    RoundUpTight(SubHeaderSize(z.class64) + z.note, z.page);
  }

  /** Below 4 GiB nothing wraps. */
  lemma BitmapExact(z: Sizes)
    requires SizesOk(z) && IdealBitmap(z) < U32
    ensures SubHeaderBlocks(z) == DivRoundUp(SubHeaderSize(z.class64) + z.note, z.page)
    ensures OffsetDumpBitmap(z) == IdealBitmap(z)
  {
    hide DivRoundUp;
    IdealBounds(z);
    var bytes := SubHeaderSize(z.class64) + z.note;
    NoWrap(bytes);
    NoWrap(bytes + z.page - 1);
    SameBlocks(bytes, z.page);
    NoWrap(IdealBitmap(z));
  }

  lemma NoWrap(x: nat)
    requires x < U32
    ensures x % U32 == x
  {
  }

  lemma SameBlocks(bytes: nat, page: nat)
    requires page > 0
    ensures (bytes + page - 1) / page == DivRoundUp(bytes, page)
  {
  }

  lemma LengthBlocks(z: Sizes)
    requires SizesOk(z)
    ensures DivRoundUp(z.length, z.page) * z.page == z.length
    ensures 2 * z.length < U32 ==> BitmapBlocks(z) == 2 * DivRoundUp(z.length, z.page)
  {
    RoundUpExact(z.length, z.page);
    var n := DivRoundUp(z.length, z.page);
    assert n <= n * z.page;
  }

  lemma PageExact(z: Sizes)
    requires SizesOk(z) && IdealPage(z) < U32
    ensures OffsetDumpBitmap(z) == IdealBitmap(z) && OffsetPage(z) == IdealPage(z)
  {
    hide DivRoundUp, SubHeaderBlocks, BitmapBlocks;
    BitmapExact(z);
    LengthBlocks(z);
    Distribute(SubHeaderBlocks(z), DivRoundUp(z.length, z.page), z.page);
  }

  lemma Distribute(s: nat, n: nat, b: nat)
    ensures (1 + s + 2 * n) * b == (1 + s) * b + 2 * (n * b)
  {
  }

  // ------------------------------------------------------------------------------------------
  // The layout is sound exactly below 4 GiB

  /** An offset on a block boundary before the bitmaps' proper place falls on the header, the sub-header
      or the notes. */
  lemma Clash(z: Sizes, m: nat, size: nat)
    requires SizesOk(z) && size > 0 && m * z.page + z.page <= IdealBitmap(z) && m * z.page >= 0
    ensures var off := m * z.page;
      !(Apart(0, HeaderSize(z.class64), off, size) && Apart(z.page, SubHeaderSize(z.class64), off, size)
        && Apart(z.page + SubHeaderSize(z.class64), z.note, off, size))
  {
    IdealBounds(z);
    if m > 0 { MulLess(1, m, z.page); }
  }

  lemma DisjointBelow(z: Sizes, pagesSize: nat)
    requires SizesOk(z) && IdealPage(z) < U32
    ensures Disjoint(z, OffsetDumpBitmap(z), OffsetPage(z), pagesSize)
  {
    IdealBounds(z);
    PageExact(z);
  }

  lemma ClashAbove(z: Sizes, pagesSize: nat)
    requires SizesOk(z) && pagesSize > 0 && IdealPage(z) >= U32
    ensures !Disjoint(z, OffsetDumpBitmap(z), OffsetPage(z), pagesSize)
  {
    var mb := ReducedMultiple(1 + SubHeaderBlocks(z), z.page);
    var mp := ReducedMultiple(1 + SubHeaderBlocks(z) + BitmapBlocks(z), z.page);
    hide OffsetDumpBitmap, OffsetPage, IdealBitmap, SubHeaderBlocks, BitmapBlocks;
    if IdealBitmap(z) >= U32 {
      Clash(z, mb, z.length);
    } else {
      BitmapExact(z);
      if OffsetPage(z) < IdealBitmap(z) {
        MultipleBelow(z, mp);
        Clash(z, mp, pagesSize);
      }
    }
  }

  lemma MultipleBelow(z: Sizes, m: nat)
    requires SizesOk(z) && m * z.page < IdealBitmap(z)
    ensures m * z.page + z.page <= IdealBitmap(z)
  {
    var n := 1 + DivRoundUp(SubHeaderSize(z.class64) + z.note, z.page);
    MulLess(m, n, z.page);
    MulStep(m, n, z.page);
  }

  /** The regions of the file are disjoint if and only if the page section starts below 4 GiB. */
  lemma LayoutSound(z: Sizes, pagesSize: nat)
    requires SizesOk(z) && pagesSize > 0
    ensures Disjoint(z, OffsetDumpBitmap(z), OffsetPage(z), pagesSize) <==> IdealPage(z) < U32
  {
    hide Disjoint, OffsetDumpBitmap, OffsetPage, IdealPage;
    if IdealPage(z) < U32 { DisjointBelow(z, pagesSize); } else { ClashAbove(z, pagesSize); }
  }

  /** The notes of one x86-64 CPU: two headers of 12 bytes, two names of 8, 336 bytes of status and 432 of
      further state. */
  const NOTE_SIZE_PER_CPU: nat := 808

  /** A guest with 64 TiB of memory, 4 KiB pages and up to four CPUs: two bitmaps of 2 GiB, and a page section
      that is written over the first bitmap. */
  lemma SixtyFourTebibytes(cpus: nat)
    requires 1 <= cpus <= 4
    ensures var z := Sizes(4096, true, NOTE_SIZE_PER_CPU * cpus, BitmapLength(0x4_0000_0000, 4096));
      && SizesOk(z)
      && OffsetDumpBitmap(z) == 8192 && OffsetPage(z) == 8192
      && !Disjoint(z, OffsetDumpBitmap(z), OffsetPage(z), 4096)
  {
    assert BitmapLength(0x4_0000_0000, 4096) == 0x8000_0000;
  }
}
