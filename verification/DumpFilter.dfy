// The filter of the dump command and the guest blocks it is applied to (dump.c): signed bounds in unsigned
// comparisons.

module DumpFilters {
  import opened Basics
  import opened GuestPages

  const U64: int := 0x1_0000_0000_0000_0000
  const I63: int := 0x8000_0000_0000_0000

  type Hwaddr = x: int | 0 <= x < U64

  /** A value as uint64_t and as int64_t; signed overflow wraps. */
  function Unsigned64(x: int): Hwaddr { x % U64 }

  function Signed64(x: int): int { if x % U64 < I63 then x % U64 else x % U64 - U64 }

  lemma UnsignedIs(x: int)
    requires -U64 <= x < U64
    ensures Unsigned64(x) == if x >= 0 then x else x + U64
  {
  }

  lemma SignedIs(x: int)
    requires 0 <= x < U64
    ensures Signed64(x) == if x < I63 then x else x - U64
  {
  }

  lemma SignedSmall(x: int)
    requires -I63 <= x < I63
    ensures Signed64(x) == x
  {
  }

  /** The optional filter of the dump command, two numbers of type int64_t whose sign nothing checks. */
  datatype Filter = All | Range(begin: int, length: int)

  predicate FilterOk(f: Filter) {
    f.Range? ==> -I63 <= f.begin < I63 && -I63 <= f.length < I63
  }

  lemma BoundsAre(f: Filter)
    requires FilterOk(f) && f.Range?
    ensures Begin(f) == if f.begin >= 0 then f.begin else f.begin + U64
    ensures var end := f.begin + f.length; End(f) == if end >= 0 then end else end + U64
    ensures Begin(f) < U64 && End(f) < U64
  {
    hide Unsigned64;
    UnsignedIs(f.begin);
    UnsignedIs(f.begin + f.length);
  }

  /** The bounds of the filter as a comparison with an unsigned address sees them. */
  function Begin(f: Filter): Hwaddr
    requires f.Range?
  {
    Unsigned64(f.begin)
  }

  function End(f: Filter): Hwaddr
    requires f.Range?
  {
    Unsigned64(f.begin + f.length)
  }

  predicate RangeOk(b: Block) {
    b.start <= b.end < I63 && |b.memory| == b.end - b.start
  }

  ghost predicate RangesOk(blocks: seq<Block>) {
    forall i :: 0 <= i < |blocks| ==> RangeOk(blocks[i])
  }

  /** Guest blocks are added in ascending order. */
  ghost predicate Ascending(blocks: seq<Block>) {
    forall i, j :: 0 <= i < j < |blocks| ==> blocks[i].end <= blocks[j].start
  }

  predicate InFilter(f: Filter, addr: int) {
    f.Range? ==> Begin(f) <= addr < End(f)
  }

  predicate Wanted(f: Filter, b: Block, addr: int) {
    b.start <= addr < b.end && InFilter(f, addr)
  }

  function Max(a: int, b: int): int { if a < b then b else a }

  function Min(a: int, b: int): int { if a < b then a else b }

  function Lo(f: Filter, b: Block): int { if f.All? then b.start else Max(Begin(f), b.start) }

  function Hi(f: Filter, b: Block): int { if f.All? then b.end else Min(End(f), b.end) }

  lemma WantedIff(f: Filter, b: Block, addr: int)
    ensures Wanted(f, b, addr) <==> Lo(f, b) <= addr < Hi(f, b)
  {
    hide Begin, End;
  }

  /** The test that passes over a block that lies outside the filter. */
  predicate Skipped(f: Filter, b: Block) {
    f.Range? && (b.start >= End(f) || b.end <= Begin(f))
  }

  /** A block that is not skipped lies below the sign bit, so the filter begins below it, and what is taken
      off at its end is what the filter cuts. */
  lemma NotSkipped(f: Filter, b: Block)
    requires FilterOk(f) && RangeOk(b) && f.Range? && !Skipped(f, b)
    ensures 0 <= f.begin == Begin(f) < b.end && b.start < End(f)
    ensures End(f) < b.end ==> End(f) == f.begin + f.length
  {
    hide Begin, End;
    BoundsAre(f);
  }

  /** A filter whose end comes before its begin although both are addresses. */
  predicate Backwards(f: Filter) {
    f.Range? && f.length < 0 && f.begin + f.length >= 0
  }
}
