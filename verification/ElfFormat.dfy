// The bytes of the headers in front of an ELF dump (dump.c), and the reader such a file is for. Targets are
// little-endian.

module ElfFormat {
  import opened Basics
  import opened LittleEndian
  import opened DumpFilters

  const UINT16_MAX: nat := 0xffff
  const UINT32_MAX: nat := 0xffff_ffff
  const PN_XNUM: nat := 0xffff
  const PT_LOAD: nat := 1
  const PT_NOTE: nat := 4

  function EhdrSize(class64: bool): nat { if class64 then 64 else 52 }

  function PhdrSize(class64: bool): nat { if class64 then 56 else 32 }

  function ShdrSize(class64: bool): nat { if class64 then 64 else 40 }

  /** The width of addresses and offsets. */
  function WordSize(class64: bool): nat { if class64 then 8 else 4 }

  function WordLimit(class64: bool): nat { if class64 then U64 else 0x1_0000_0000 }

  // ------------------------------------------------------------------------------------------
  // Program headers

  datatype Phdr = Phdr(kind: nat, offset: nat, vaddr: nat, paddr: nat, filesz: nat, memsz: nat)

  /** A PT_LOAD header as the dump computes it; the offset is -1 for memory that is not in the file. */
  datatype Load = Load(offset: int, vaddr: Hwaddr, paddr: Hwaddr, filesz: Hwaddr, memsz: Hwaddr)

  function LoadPhdr(l: Load): Phdr { Phdr(PT_LOAD, Unsigned64(l.offset), l.vaddr, l.paddr, l.filesz, l.memsz) }

  function LoadPhdrs(loads: seq<Load>): seq<Phdr> {
    seq(|loads|, j requires 0 <= j < |loads| => LoadPhdr(loads[j]))
  }

  /** Elf64_Phdr and Elf32_Phdr, with the flags at different places. */
  function EncodePhdr(class64: bool, p: Phdr): (r: seq<Byte>)
    ensures |r| == PhdrSize(class64)
  {
    if class64 then
      Le(p.kind, 4) + Le(0, 4) + Le(p.offset, 8) + Le(p.vaddr, 8) + Le(p.paddr, 8) + Le(p.filesz, 8) + Le(p.memsz, 8)
      + Le(0, 8)
    else
      Le(p.kind, 4) + Le(p.offset, 4) + Le(p.vaddr, 4) + Le(p.paddr, 4) + Le(p.filesz, 4) + Le(p.memsz, 4)
      + Le(0, 4) + Le(0, 4)
  }

  function DecodePhdr(class64: bool, bytes: seq<Byte>): Phdr
    requires |bytes| == PhdrSize(class64)
  {
    if class64 then
      Phdr(UnLe(bytes[..4]), UnLe(bytes[8..16]), UnLe(bytes[16..24]), UnLe(bytes[24..32]), UnLe(bytes[32..40]),
           UnLe(bytes[40..48]))
    else
      Phdr(UnLe(bytes[..4]), UnLe(bytes[4..8]), UnLe(bytes[8..12]), UnLe(bytes[12..16]), UnLe(bytes[16..20]),
           UnLe(bytes[20..24]))
  }

  /** What is left of a header when its numbers are cut to the width of their fields. */
  function Cropped(class64: bool, p: Phdr): Phdr {
    var w := WordLimit(class64);
    Phdr(p.kind % 0x1_0000_0000, p.offset % w, p.vaddr % w, p.paddr % w, p.filesz % w, p.memsz % w)
  }

  function CroppedAll(class64: bool, ps: seq<Phdr>): seq<Phdr> {
    seq(|ps|, k requires 0 <= k < |ps| => Cropped(class64, ps[k]))
  }

  lemma PhdrRoundTrip(class64: bool, p: Phdr)
    ensures DecodePhdr(class64, EncodePhdr(class64, p)) == Cropped(class64, p)
  {
    Widths();
    var w := WordSize(class64);
    LeTruncates(p.kind, 4);
    LeTruncates(p.offset, w);
    LeTruncates(p.vaddr, w);
    LeTruncates(p.paddr, w);
    LeTruncates(p.filesz, w);
    LeTruncates(p.memsz, w);
    if class64 { Slices64(p); } else { Slices32(p); }
  }

  lemma Slices64(p: Phdr)
    ensures var r := EncodePhdr(true, p);
      && r[..4] == Le(p.kind, 4) && r[8..16] == Le(p.offset, 8) && r[16..24] == Le(p.vaddr, 8)
      && r[24..32] == Le(p.paddr, 8) && r[32..40] == Le(p.filesz, 8) && r[40..48] == Le(p.memsz, 8)
      && r[4..8] == Le(0, 4) && r[48..56] == Le(0, 8)
  {
    hide Le;
  }

  lemma Slices32(p: Phdr)
    ensures var r := EncodePhdr(false, p);
      && r[..4] == Le(p.kind, 4) && r[4..8] == Le(p.offset, 4) && r[8..12] == Le(p.vaddr, 4)
      && r[12..16] == Le(p.paddr, 4) && r[16..20] == Le(p.filesz, 4) && r[20..24] == Le(p.memsz, 4)
      && r[24..28] == Le(0, 4) && r[28..32] == Le(0, 4)
  {
    hide Le;
  }

  /** Flags and alignment are not set. */
  lemma PhdrUnset(class64: bool, p: Phdr)
    ensures var r, w := EncodePhdr(class64, p), WordSize(class64);
      && UnLe(if class64 then r[4..8] else r[24..28]) == 0 && UnLe(r[|r| - w..]) == 0
  {
    hide Le, UnLe, EncodePhdr;
    Widths();
    LeRoundTrip(0, 4);
    LeRoundTrip(0, 8);
    var r := EncodePhdr(class64, p);
    if class64 { Slices64(p); assert r[48..] == r[48..56]; } else { Slices32(p); assert r[28..] == r[28..32]; }
  }

  /** The program header table. */
  function PhdrBytes(class64: bool, ps: seq<Phdr>): (r: seq<Byte>)
    ensures |r| == PhdrSize(class64) * |ps|
  {
    hide EncodePhdr;
    if ps == [] then [] else PhdrBytes(class64, ps[..|ps| - 1]) + EncodePhdr(class64, ps[|ps| - 1])
  }

  lemma PhdrBytesNext(class64: bool, ps: seq<Phdr>, p: Phdr)
    ensures PhdrBytes(class64, ps + [p]) == PhdrBytes(class64, ps) + EncodePhdr(class64, p)
  {
    assert (ps + [p])[..|ps|] == ps;
  }

  lemma PhdrBytesOne(class64: bool, p: Phdr)
    ensures PhdrBytes(class64, [p]) == EncodePhdr(class64, p)
  {
    hide EncodePhdr;
    assert PhdrBytes(class64, []) == [];
  }

  lemma {:induction false} PhdrBytesJoin(class64: bool, ps: seq<Phdr>, qs: seq<Phdr>)
    ensures PhdrBytes(class64, ps + qs) == PhdrBytes(class64, ps) + PhdrBytes(class64, qs)
  {
    hide EncodePhdr;
    if qs == [] {
      assert ps + qs == ps;
    } else {
      hide PhdrBytes, PhdrSize;
      var n := |qs| - 1;
      var front, last := qs[..n], qs[n];
      PhdrBytesJoin(class64, ps, front);
      PhdrBytesNext(class64, ps + front, last);
      PhdrBytesNext(class64, front, last);
      Rebracket(ps, front, [last]);
      assert front + [last] == qs;
      Rebracket(PhdrBytes(class64, ps), PhdrBytes(class64, front), EncodePhdr(class64, last));
    }
  }

  /** The table holds the k-th header at the k-th place. */
  lemma {:induction false} PhdrBytesAt(class64: bool, ps: seq<Phdr>, k: nat)
    requires k < |ps|
    ensures PhdrSize(class64) * k + PhdrSize(class64) <= |PhdrBytes(class64, ps)|
    ensures PhdrBytes(class64, ps)[PhdrSize(class64) * k..PhdrSize(class64) * k + PhdrSize(class64)]
         == EncodePhdr(class64, ps[k])
  {
    hide EncodePhdr;
    var n, size := |ps| - 1, PhdrSize(class64);
    if k < n {
      PhdrBytesAt(class64, ps[..n], k);
      SlicePrefix(PhdrBytes(class64, ps[..n]), EncodePhdr(class64, ps[n]), size * k, size);
    }
  }

  // ------------------------------------------------------------------------------------------
  // The ELF header

  datatype Ehdr = Ehdr(class64: bool, machine: nat, phoff: nat, shoff: nat, phentsize: nat, phnum: nat,
      shentsize: nat, shnum: nat)

  predicate EhdrFits(h: Ehdr) {
    && h.machine <= UINT16_MAX && h.phoff < WordLimit(h.class64) && h.shoff < WordLimit(h.class64)
    && h.phentsize <= UINT16_MAX && h.phnum <= UINT16_MAX && h.shentsize <= UINT16_MAX && h.shnum <= UINT16_MAX
  }

  /** The magic number, the class, the byte order and the version. */
  function Ident(class64: bool): (r: seq<Byte>)
    ensures |r| == 16
  {
    [0x7f, 0x45, 0x4c, 0x46, if class64 then 2 else 1, 1, 1, 0, 0, 0, 0, 0, 0, 0, 0, 0]
  }

  /** A core file (type 4) of version 1. */
  function EhdrKind(h: Ehdr): (r: seq<Byte>)
    ensures |r| == 24
  {
    Ident(h.class64) + Le(4, 2) + Le(h.machine, 2) + Le(1, 4)
  }

  /** There is no entry point. */
  function EhdrOffsets(h: Ehdr): (r: seq<Byte>)
    ensures |r| == 3 * WordSize(h.class64)
  {
    var w := WordSize(h.class64);
    Le(0, w) + Le(h.phoff, w) + Le(h.shoff, w)
  }

  /** Flags and string table are 0. */
  function EhdrCounts(h: Ehdr): (r: seq<Byte>)
    ensures |r| == 16
  {
    Le(0, 4) + Le(EhdrSize(h.class64), 2) + Le(h.phentsize, 2) + Le(h.phnum, 2) + Le(h.shentsize, 2) + Le(h.shnum, 2)
    + Le(0, 2)
  }

  function EncodeEhdr(h: Ehdr): (r: seq<Byte>)
    ensures |r| == EhdrSize(h.class64)
  {
    hide EhdrKind, EhdrOffsets, EhdrCounts;
    EhdrKind(h) + EhdrOffsets(h) + EhdrCounts(h)
  }

  /** What a reader sees of a file that starts with an ELF header. */
  function ReadEhdr(file: seq<Byte>): Option<Ehdr> {
    if |file| < 5 || file[..4] != [0x7f, 0x45, 0x4c, 0x46] then None
    else
      var class64 := file[4] == 2;
      var w := WordSize(class64);
      if |file| < EhdrSize(class64) then None
      else
        Some(Ehdr(class64, UnLe(file[18..20]), UnLe(file[24 + w..24 + 2 * w]), UnLe(file[24 + 2 * w..24 + 3 * w]),
                  UnLe(file[30 + 3 * w..32 + 3 * w]), UnLe(file[32 + 3 * w..34 + 3 * w]),
                  UnLe(file[34 + 3 * w..36 + 3 * w]), UnLe(file[36 + 3 * w..38 + 3 * w])))
  }

  lemma KindSlices(h: Ehdr)
    ensures var r := EhdrKind(h);
      && r[..4] == [0x7f, 0x45, 0x4c, 0x46] && r[4] == (if h.class64 then 2 else 1) && r[18..20] == Le(h.machine, 2)
      && r[5] == r[6] == 1 && (forall i :: 7 <= i < 16 ==> r[i] == 0) && r[16..18] == Le(4, 2) && r[20..24] == Le(1, 4)
  {
    hide Le;
  }

  lemma OffsetSlices(h: Ehdr)
    ensures var w, r := WordSize(h.class64), EhdrOffsets(h);
      r[0..w] == Le(0, w) && r[w..w + w] == Le(h.phoff, w) && r[2 * w..2 * w + w] == Le(h.shoff, w)
  {
    hide Le;
  }

  lemma CountSlices(h: Ehdr)
    ensures var r := EhdrCounts(h);
      && r[6..8] == Le(h.phentsize, 2) && r[8..10] == Le(h.phnum, 2) && r[10..12] == Le(h.shentsize, 2)
      && r[12..14] == Le(h.shnum, 2)
      && r[0..4] == Le(0, 4) && r[4..6] == Le(EhdrSize(h.class64), 2) && r[14..16] == Le(0, 2)
  {
    hide Le;
  }

  /** The three parts in a file. */
  lemma EhdrParts(h: Ehdr, rest: seq<Byte>)
    ensures var w, file := WordSize(h.class64), EncodeEhdr(h) + rest;
      && |file| >= 40 + 3 * w && file[0..24] == EhdrKind(h) && file[24..24 + 3 * w] == EhdrOffsets(h)
      && file[24 + 3 * w..40 + 3 * w] == EhdrCounts(h)
  {
    hide EhdrKind, EhdrOffsets, EhdrCounts;
    var a, b, c, file := EhdrKind(h), EhdrOffsets(h), EhdrCounts(h), EncodeEhdr(h) + rest;
    assert file == [] + a + (b + c + rest);
    Middle([], a, b + c + rest);
    assert file == a + b + (c + rest);
    Middle(a, b, c + rest);
    assert file == (a + b) + c + rest;
    Middle(a + b, c, rest);
  }

  lemma EhdrFields(h: Ehdr, rest: seq<Byte>)
    ensures var w, file := WordSize(h.class64), EncodeEhdr(h) + rest;
      && |file| >= 40 + 3 * w
      && file[..4] == [0x7f, 0x45, 0x4c, 0x46] && file[4] == (if h.class64 then 2 else 1)
      && file[18..20] == Le(h.machine, 2) && file[24 + w..24 + 2 * w] == Le(h.phoff, w)
      && file[24 + 2 * w..24 + 3 * w] == Le(h.shoff, w)
  {
    hide EhdrKind, EhdrOffsets, EhdrCounts, EncodeEhdr, Le;
    var w, file := WordSize(h.class64), EncodeEhdr(h) + rest;
    EhdrParts(h, rest);
    KindSlices(h);
    OffsetSlices(h);
    SubSlice(file, 0, 24, 0, 4);
    assert file[4] == file[0..24][4];
    SubSlice(file, 0, 24, 18, 2);
    SubSlice(file, 24, 3 * w, w, w);
    SubSlice(file, 24, 3 * w, 2 * w, w);
  }

  lemma EhdrCountFields(h: Ehdr, rest: seq<Byte>)
    ensures var at, file := 24 + 3 * WordSize(h.class64), EncodeEhdr(h) + rest;
      && |file| >= at + 16 && file[at + 6..at + 8] == Le(h.phentsize, 2) && file[at + 8..at + 10] == Le(h.phnum, 2)
      && file[at + 10..at + 12] == Le(h.shentsize, 2) && file[at + 12..at + 14] == Le(h.shnum, 2)
  {
    hide EhdrKind, EhdrOffsets, EhdrCounts, EncodeEhdr, Le;
    var at, file := 24 + 3 * WordSize(h.class64), EncodeEhdr(h) + rest;
    EhdrParts(h, rest);
    CountSlices(h);
    SubSlice(file, at, 16, 6, 2);
    SubSlice(file, at, 16, 8, 2);
    SubSlice(file, at, 16, 10, 2);
    SubSlice(file, at, 16, 12, 2);
  }

  lemma EhdrRoundTrip(h: Ehdr, rest: seq<Byte>)
    requires EhdrFits(h)
    ensures ReadEhdr(EncodeEhdr(h) + rest) == Some(h)
  {
    hide Le, UnLe, EncodeEhdr;
    Widths();
    NarrowWidth();
    var w := WordSize(h.class64);
    LeRoundTrip(h.machine, 2);
    LeRoundTrip(h.phoff, w);
    LeRoundTrip(h.shoff, w);
    LeRoundTrip(h.phentsize, 2);
    LeRoundTrip(h.phnum, 2);
    LeRoundTrip(h.shentsize, 2);
    LeRoundTrip(h.shnum, 2);
    EhdrFields(h, rest);
    EhdrCountFields(h, rest);
  }

  /** A little-endian core file of version 1 without entry point, flags or string table, whose header has the size
      it says. */
  ghost predicate IsCore(file: seq<Byte>, class64: bool) {
    var at := if class64 then 48 else 36;
    && |file| >= at + 16 && file[5] == file[6] == 1 && (forall i :: 7 <= i < 16 ==> file[i] == 0)
    && UnLe(file[16..18]) == 4 && UnLe(file[20..24]) == 1 && UnLe(file[24..24 + WordSize(class64)]) == 0
    && UnLe(file[at..at + 4]) == 0 && UnLe(file[at + 4..at + 6]) == at + 16 && UnLe(file[at + 14..at + 16]) == 0
  }

  lemma EhdrIsCore(h: Ehdr, rest: seq<Byte>)
    ensures IsCore(EncodeEhdr(h) + rest, h.class64)
  {
    hide EhdrKind, EhdrOffsets, EhdrCounts, EncodeEhdr, Le, UnLe;
    var w, at, file := WordSize(h.class64), 24 + 3 * WordSize(h.class64), EncodeEhdr(h) + rest;
    EhdrParts(h, rest);
    KindSlices(h);
    OffsetSlices(h);
    CountSlices(h);
    forall i | 0 <= i < 24 ensures file[i] == EhdrKind(h)[i] { assert file[i] == file[0..24][i]; }
    SubSlice(file, 0, 24, 16, 2);
    SubSlice(file, 0, 24, 20, 4);
    SubSlice(file, 24, 3 * w, 0, w);
    SubSlice(file, at, 16, 0, 4);
    SubSlice(file, at, 16, 4, 2);
    SubSlice(file, at, 16, 14, 2);
    Constants(w);
  }

  lemma Constants(w: nat)
    requires w == 4 || w == 8
    ensures UnLe(Le(0, 2)) == 0 && UnLe(Le(0, 4)) == 0 && UnLe(Le(0, w)) == 0 && UnLe(Le(4, 2)) == 4
    ensures UnLe(Le(1, 4)) == 1 && UnLe(Le(64, 2)) == 64 && UnLe(Le(52, 2)) == 52
  {
    hide Le, UnLe;
    Widths();
    NarrowWidth();
    LeRoundTrip(0, 2);
    LeRoundTrip(0, 4);
    LeRoundTrip(0, w);
    LeRoundTrip(4, 2);
    LeRoundTrip(1, 4);
    LeRoundTrip(64, 2);
    LeRoundTrip(52, 2);
  }

  lemma NarrowWidth()
    ensures Pow256(2) == 0x1_0000
  {
  }

  // ------------------------------------------------------------------------------------------
  // The reader

  /** e_phnum, or the field sh_info of the first section header when e_phnum says PN_XNUM. */
  function ReadCount(file: seq<Byte>, h: Ehdr): Option<nat> {
    var at := h.shoff + if h.class64 then 44 else 28;
    if h.phnum != PN_XNUM then Some(h.phnum)
    else if h.shentsize != (if h.class64 then 64 else 40) || h.shoff + h.shentsize > |file| then None
    else Some(UnLe(file[at..at + 4]))
  }

  /** The program headers of a file. */
  function ReadHeaders(file: seq<Byte>): Option<seq<Phdr>> {
    var h := ReadEhdr(file);
    if h.None? then None else ReadTable(file, h.value, ReadCount(file, h.value))
  }

  function ReadTable(file: seq<Byte>, h: Ehdr, count: Option<nat>): Option<seq<Phdr>> {
    if count.None? || h.phentsize != PhdrSize(h.class64) || h.phoff + h.phentsize * count.value > |file| then None
    else Some(seq(count.value, k requires 0 <= k < count.value =>
      TableInside(h.phoff, h.phentsize, k, count.value);
      DecodePhdr(h.class64, file[h.phoff + h.phentsize * k..h.phoff + h.phentsize * k + h.phentsize])))
  }

  lemma TableInside(at: nat, size: nat, k: nat, count: nat)
    requires k < count
    ensures at + size * k + size <= at + size * count
  {
    var d := count - k - 1;
    assert size * count == size * k + size + size * d;
    assert size * d >= 0;
  }

  // ------------------------------------------------------------------------------------------
  // What is in front of the memory

  /** What the dump is told of the guest. `stack` stands for the bytes that write_elf_section writes: it passes
      the address of its pointer to the section header, not the section header. */
  datatype Format = Format(class64: bool, machine: nat, notes: seq<Byte>, stack: seq<Byte>)

  predicate FormatOk(e: Format) {
    |e.stack| == ShdrSize(e.class64) && e.machine <= UINT16_MAX
  }

  predicate HaveSection(num: nat) { num >= UINT16_MAX - 2 }

  /** The number of program headers: phdr_num, or sh_info when there is a section header. */
  function PhdrCount(num: nat): nat {
    if !HaveSection(num) then 1 + num else if num <= UINT32_MAX - 1 then 1 + num else UINT32_MAX
  }

  /** memory_offset, as dump_init computes it before anything is written. */
  function MemoryOffset(class64: bool, num: nat, noteSize: nat): nat {
    EhdrSize(class64) + PhdrSize(class64) * PhdrCount(num)
    + (if HaveSection(num) then ShdrSize(class64) else 0) + noteSize
  }

  /** The position of the section header, in as many bits as the class has. */
  function SectionOffset(class64: bool, num: nat): nat {
    (EhdrSize(class64) + PhdrSize(class64) * PhdrCount(num)) % WordLimit(class64)
  }

  /** The ELF header that write_elf64_header and write_elf32_header fill in. */
  function HeaderOf(e: Format, num: nat): Ehdr {
    if HaveSection(num) then
      Ehdr(e.class64, e.machine, EhdrSize(e.class64), SectionOffset(e.class64, num), PhdrSize(e.class64), PN_XNUM,
           ShdrSize(e.class64), 1)
    else
      Ehdr(e.class64, e.machine, EhdrSize(e.class64), 0, PhdrSize(e.class64), 1 + num, 0, 0)
  }

  /** PT_NOTE. */
  function NoteOf(e: Format, num: nat): Phdr {
    Phdr(PT_NOTE, MemoryOffset(e.class64, num, |e.notes|) - |e.notes|, 0, 0, |e.notes|, |e.notes|)
  }

  /** ELF header, program headers, the place of the section header and the notes. */
  function Front(e: Format, num: nat, phdrs: seq<Phdr>): seq<Byte> {
    EncodeEhdr(HeaderOf(e, num)) + PhdrBytes(e.class64, phdrs) + (if HaveSection(num) then e.stack else []) + e.notes
  }

  /** The number that a reader takes for the number of program headers of a file that starts with Front. */
  function CountRead(e: Format, num: nat): nat
    requires FormatOk(e)
  {
    if !HaveSection(num) then 1 + num else UnLe(if e.class64 then e.stack[44..48] else e.stack[28..32])
  }

  lemma FrontSize(e: Format, num: nat, phdrs: seq<Phdr>)
    requires FormatOk(e) && |phdrs| == PhdrCount(num)
    ensures |Front(e, num, phdrs)| == MemoryOffset(e.class64, num, |e.notes|)
  {
    hide EncodeEhdr, PhdrBytes;
  }

  lemma HeaderFits(e: Format, num: nat)
    requires FormatOk(e)
    ensures EhdrFits(HeaderOf(e, num))
  {
  }

  /** The section header is announced from 65533 mappings on, and the number of headers never exceeds its field. */
  lemma SectionAnnounced(e: Format, num: nat)
    ensures var h := HeaderOf(e, num);
      && h.shnum == (if num < 65533 then 0 else 1)
      && (num < 65533 ==> h.phnum == 1 + num && h.shoff == 0 && h.shentsize == 0)
    ensures PhdrCount(num) == if num < 0xffff_ffff then 1 + num else 0xffff_ffff
  {
  }

  /** PT_NOTE points at the notes, and the memory follows them. */
  lemma NotesAt(e: Format, num: nat, phdrs: seq<Phdr>, rest: seq<Byte>)
    requires FormatOk(e) && |phdrs| == PhdrCount(num)
    ensures var file, note := Front(e, num, phdrs) + rest, NoteOf(e, num);
      && note.offset + note.filesz == MemoryOffset(e.class64, num, |e.notes|) <= |file|
      && note.memsz == note.filesz && note.vaddr == note.paddr == 0
      && file[note.offset..note.offset + note.filesz] == e.notes
      && file[MemoryOffset(e.class64, num, |e.notes|)..] == rest
  {
    hide EncodeEhdr, PhdrBytes;
    FrontSize(e, num, phdrs);
    var file, at := Front(e, num, phdrs) + rest, NoteOf(e, num).offset;
    assert Front(e, num, phdrs)[at..] == e.notes;
    assert file[at..at + |e.notes|] == e.notes;
  }

  /** Where the pieces are. */
  lemma FrontPieces(e: Format, num: nat, phdrs: seq<Phdr>, rest: seq<Byte>)
    requires FormatOk(e) && |phdrs| == PhdrCount(num)
    ensures var file := Front(e, num, phdrs) + rest;
      var table, end := EhdrSize(e.class64), EhdrSize(e.class64) + PhdrSize(e.class64) * |phdrs|;
      && end <= |file|
      && file == EncodeEhdr(HeaderOf(e, num)) + file[table..] && file[table..end] == PhdrBytes(e.class64, phdrs)
      && (HaveSection(num) ==> end + |e.stack| <= |file| && file[end..end + |e.stack|] == e.stack)
  {
    hide EncodeEhdr, PhdrBytes;
    var head, phs := EncodeEhdr(HeaderOf(e, num)), PhdrBytes(e.class64, phdrs);
    var section := if HaveSection(num) then e.stack else [];
    var file := Front(e, num, phdrs) + rest;
    assert file == head + phs + (section + e.notes + rest);
    Middle(head, phs, section + e.notes + rest);
    assert file == (head + phs) + section + (e.notes + rest);
    Middle(head + phs, section, e.notes + rest);
  }

  lemma CountOf(e: Format, num: nat, phdrs: seq<Phdr>, rest: seq<Byte>)
    requires FormatOk(e) && |phdrs| == PhdrCount(num)
    requires e.class64 || EhdrSize(e.class64) + PhdrSize(e.class64) * |phdrs| < WordLimit(e.class64)
    ensures ReadCount(Front(e, num, phdrs) + rest, HeaderOf(e, num)) == Some(CountRead(e, num))
  {
    hide Front, EncodeEhdr, PhdrBytes, UnLe, SectionOffset;
    FrontPieces(e, num, phdrs, rest);
    if HaveSection(num) {
      var file, end := Front(e, num, phdrs) + rest, EhdrSize(e.class64) + PhdrSize(e.class64) * |phdrs|;
      SectionAt(e.class64, num);
      SubSlice(file, end, |e.stack|, if e.class64 then 44 else 28, 4);
    }
  }

  lemma SectionAt(class64: bool, num: nat)
    requires class64 || EhdrSize(class64) + PhdrSize(class64) * PhdrCount(num) < WordLimit(class64)
    ensures SectionOffset(class64, num) == EhdrSize(class64) + PhdrSize(class64) * PhdrCount(num)
  {
  }

  lemma TableOf(e: Format, num: nat, phdrs: seq<Phdr>, rest: seq<Byte>, k: nat)
    requires FormatOk(e) && |phdrs| == PhdrCount(num) && k < |phdrs|
    ensures var file, at := Front(e, num, phdrs) + rest, EhdrSize(e.class64) + PhdrSize(e.class64) * k;
      && at + PhdrSize(e.class64) <= |file|
      && file[at..at + PhdrSize(e.class64)] == EncodePhdr(e.class64, phdrs[k])
  {
    hide Front, EncodeEhdr, PhdrBytes, EncodePhdr;
    FrontPieces(e, num, phdrs, rest);
    PhdrBytesAt(e.class64, phdrs, k);
    var file, size, table := Front(e, num, phdrs) + rest, PhdrSize(e.class64), EhdrSize(e.class64);
    TableInside(table, size, k, |phdrs|);
    SubSlice(file, table, size * |phdrs|, size * k, size);
  }

  /** A reader obtains exactly the headers that were written, with numbers cut to their width, if and only if it
      reads their number. That is certain without a section header, and otherwise left to the stack. */
  lemma ReadFront(e: Format, num: nat, phdrs: seq<Phdr>, rest: seq<Byte>)
    requires FormatOk(e) && |phdrs| == PhdrCount(num)
    requires e.class64 || EhdrSize(e.class64) + PhdrSize(e.class64) * |phdrs| < WordLimit(e.class64)
    ensures ReadHeaders(Front(e, num, phdrs) + rest) == Some(CroppedAll(e.class64, phdrs)) <==>
      CountRead(e, num) == PhdrCount(num)
    ensures num < 65533 ==> CountRead(e, num) == PhdrCount(num)
  {
    hide Front, EncodeEhdr, PhdrBytes, EncodePhdr, DecodePhdr, Cropped, ReadEhdr, ReadCount, CountRead, UnLe;
    var file, h := Front(e, num, phdrs) + rest, HeaderOf(e, num);
    FrontPieces(e, num, phdrs, rest);
    HeaderFits(e, num);
    EhdrRoundTrip(h, file[EhdrSize(e.class64)..]);
    CountOf(e, num, phdrs, rest);
    if !HaveSection(num) { NoSection(e, num); }
    var all := CroppedAll(e.class64, phdrs);
    if CountRead(e, num) == |phdrs| {
      forall k | 0 <= k < |phdrs| ensures ReadHeaders(file).value[k] == all[k] {
        TableOf(e, num, phdrs, rest, k);
        PhdrRoundTrip(e.class64, phdrs[k]);
      }
      assert ReadHeaders(file).value == all;
    }
  }

  /** 65533 mappings, the fewest for which the number is left to the section header: with zeros on the stack the
      reader is told of no program header at all. */
  lemma SectionNotWritten(machine: nat, notes: seq<Byte>, phdrs: seq<Phdr>, rest: seq<Byte>)
    requires machine <= UINT16_MAX && |phdrs| == 65534
    ensures var e := Format(true, machine, notes, seq(64, i => 0));
      && PhdrCount(65533) == 65534 && CountRead(e, 65533) == 0
      && ReadHeaders(Front(e, 65533, phdrs) + rest) != Some(CroppedAll(true, phdrs))
  {
    hide ReadHeaders, Front, CroppedAll;
    var e := Format(true, machine, notes, seq(64, i => 0));
    assert e.stack[44..48] == [0, 0, 0, 0];
    assert [0, 0, 0, 0][1..] == [0, 0, 0] && [0, 0, 0][1..] == [0, 0] && [0, 0][1..] == [0];
    assert UnLe([0]) == 0 && UnLe([0, 0]) == 0 && UnLe([0, 0, 0]) == 0;
    ReadFront(e, 65533, phdrs, rest);
  }

  lemma NoSection(e: Format, num: nat)
    requires FormatOk(e) && !HaveSection(num)
    ensures CountRead(e, num) == PhdrCount(num)
  {
  }
}
