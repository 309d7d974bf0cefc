// The list of memory mappings that become the program headers of an ELF dump (memory_mapping.c): built from
// the guest blocks, then cut to the filter in place, in unsigned 64-bit arithmetic.

module MemoryMappings {
  import opened Basics
  import opened GuestPages
  import opened DumpFilters

  datatype Mapping = Mapping(phys: Hwaddr, virt: Hwaddr, length: Hwaddr)

  lemma UnsignedSum(a: int, b: int)
    ensures Unsigned64(Unsigned64(a) + b) == Unsigned64(a + b) && Unsigned64(a - Unsigned64(b)) == Unsigned64(a - b)
  {
    hide Unsigned64;
    Reduced(a);
    Reduced(b);
    Shifted(a + b, -(a / U64));
    Shifted(a - b, b / U64);
  }

  lemma Reduced(x: int)
    ensures Unsigned64(x) == x - x / U64 * U64
  {
  }

  lemma Shifted(x: int, k: int)
    ensures Unsigned64(x + k * U64) == Unsigned64(x)
  {
    var y := x + k * U64;
    var q, r, p := x / U64, x % U64, y / U64;
    assert x == q * U64 + r && y == p * U64 + y % U64;
    assert (p - q - k) * U64 == r - y % U64;
  }

  // ------------------------------------------------------------------------------------------
  // What the filter makes of a mapping

  predicate Passes(f: Filter, m: Mapping)
    requires f.Range?
  {
    m.phys < End(f) && Begin(f) < Unsigned64(m.phys + m.length)
  }

  /** Cut at both ends. The difference is taken modulo 2^64. */
  function Cut(f: Filter, m: Mapping): Mapping
    requires f.Range?
  {
    var phys := Max(Begin(f), m.phys);
    var virt := if m.virt == 0 then 0 else Unsigned64(m.virt + (phys - m.phys));
    Mapping(phys, virt, Unsigned64(Min(End(f), Unsigned64(m.phys + m.length)) - phys))
  }

  /** The mapping ends inside the 64-bit address space, or starts at an address that is not dumped. */
  predicate Ends(f: Filter, m: Mapping) {
    InFilter(f, m.phys) ==> m.phys + m.length < U64
  }

  /** A mapping that passes is cut to what it shares with the filter, unless the filter's end lies before its
      begin: then the mapping starts at begin, where nothing is dumped, and wraps around the address space. */
  lemma CutIs(f: Filter, m: Mapping)
    requires f.Range? && m.phys + m.length < U64 && Passes(f, m)
    ensures Ends(f, Cut(f, m))
    ensures Begin(f) <= End(f) ==>
      && Cut(f, m).phys + Cut(f, m).length == Min(End(f), m.phys + m.length)
      && forall a :: Cut(f, m).phys <= a < Cut(f, m).phys + Cut(f, m).length <==>
           InFilter(f, a) && m.phys <= a < m.phys + m.length
    ensures End(f) < Begin(f) ==>
      && Cut(f, m).phys == Begin(f) && Cut(f, m).length == U64 + End(f) - Begin(f)
      && Cut(f, m).phys + Cut(f, m).length >= U64 && !InFilter(f, Cut(f, m).phys)
  {
    hide Begin, End, Unsigned64;
    UnsignedIs(m.phys + m.length);
    UnsignedIs(Min(End(f), m.phys + m.length) - Max(Begin(f), m.phys));
  }

  /** What get_start_block and get_offset_range think of a block, memory_mapping_filter thinks of its mapping. */
  function MappingOf(f: Filter, b: Block): Mapping
    requires RangeOk(b)
  {
    if f.All? then Mapping(b.start, 0, b.end - b.start) else Cut(f, Mapping(b.start, 0, b.end - b.start))
  }

  lemma BlockMapping(f: Filter, b: Block)
    requires FilterOk(f) && RangeOk(b)
    ensures f.Range? ==> (Passes(f, MappingOf(All, b)) <==> !Skipped(f, b))
    ensures !Skipped(f, b) ==>
      && MappingOf(f, b).phys == Lo(f, b) && MappingOf(f, b).virt == 0 && Ends(f, MappingOf(f, b))
      && MappingOf(f, b).length == (if Backwards(f) then U64 + f.length else Hi(f, b) - Lo(f, b))
      && (Backwards(f) ==> forall a :: !InFilter(f, a))
      && (!Backwards(f) ==> Lo(f, b) <= Hi(f, b))
  {
    hide Begin, End, Unsigned64;
    if f.Range? {
      UnsignedIs(b.end);
      BoundsAre(f);
      if !Skipped(f, b) { CutIs(f, MappingOf(All, b)); }
    }
  }

  /** The two filters that run backwards, on the mapping of a block [0, 65536). */
  lemma WrappedMappings()
    ensures var m := Mapping(0, 0, 0x10000);
      && Passes(Range(100, -50), m) && Cut(Range(100, -50), m) == Mapping(100, 0, U64 - 50)
      && Passes(Range(8192, -4096), m) && Cut(Range(8192, -4096), m) == Mapping(8192, 0, U64 - 4096)
  {
  }

  // ------------------------------------------------------------------------------------------
  // The list

  ghost predicate Sorted(ms: seq<Mapping>) {
    forall i, j :: 0 <= i < j < |ms| ==> ms[i].phys <= ms[j].phys
  }

  /** The mappings are those of the blocks that match the filter, one for each; src says of which block. */
  ghost predicate Describes(f: Filter, blocks: seq<Block>, ms: seq<Mapping>, src: seq<nat>)
    requires RangesOk(blocks)
  {
    Matching(f, blocks, ms, src) && Distinct(src) && Exhaustive(f, blocks, src)
  }

  ghost predicate Matching(f: Filter, blocks: seq<Block>, ms: seq<Mapping>, src: seq<nat>)
    requires RangesOk(blocks)
  {
    && |src| == |ms|
    && (forall j :: 0 <= j < |src| ==>
          src[j] < |blocks| && !Skipped(f, blocks[src[j]]) && ms[j] == MappingOf(f, blocks[src[j]]))
  }

  ghost predicate Distinct(src: seq<nat>) {
    forall j, k :: 0 <= j < k < |src| ==> src[j] != src[k]
  }

  ghost predicate Exhaustive(f: Filter, blocks: seq<Block>, src: seq<nat>) {
    forall i :: 0 <= i < |blocks| && !Skipped(f, blocks[i]) ==> i in src
  }

  /** The indices of the mappings that pass, in order. */
  ghost predicate Kept(f: Filter, ms: seq<Mapping>, kept: seq<nat>)
    requires f.Range?
  {
    && (forall j :: 0 <= j < |kept| ==> kept[j] < |ms| && Passes(f, ms[kept[j]]))
    && (forall j, k :: 0 <= j < k < |kept| ==> kept[j] < kept[k])
    && (forall i :: 0 <= i < |ms| && Passes(f, ms[i]) ==> i in kept)
  }

  ghost predicate AreCut(f: Filter, ms: seq<Mapping>, kept: seq<nat>, cut: seq<Mapping>)
    requires f.Range?
  {
    |cut| == |kept| && forall j :: 0 <= j < |kept| ==> kept[j] < |ms| && cut[j] == Cut(f, ms[kept[j]])
  }

  lemma KeptNext(f: Filter, ms: seq<Mapping>, n: nat, kept: seq<nat>, cut: seq<Mapping>)
    requires f.Range? && n < |ms| && Kept(f, ms[..n], kept) && AreCut(f, ms[..n], kept, cut)
    ensures !Passes(f, ms[n]) ==> Kept(f, ms[..n + 1], kept) && AreCut(f, ms[..n + 1], kept, cut)
    ensures Passes(f, ms[n]) ==>
      Kept(f, ms[..n + 1], kept + [n]) && AreCut(f, ms[..n + 1], kept + [n], cut + [Cut(f, ms[n])])
  {
    hide Passes, Cut;
    if Passes(f, ms[n]) {
      forall i | 0 <= i <= n && Passes(f, ms[i]) ensures i in kept + [n] {
        if i < n { assert ms[..n][i] == ms[i]; } else { assert (kept + [n])[|kept|] == i; }
      }
    } else {
      forall i | 0 <= i <= n && Passes(f, ms[i]) ensures i in kept { assert ms[..n][i] == ms[i]; }
    }
  }

  lemma NothingKept(f: Filter, ms: seq<Mapping>)
    requires f.Range?
    ensures Kept(f, ms[..0], []) && AreCut(f, ms[..0], [], ms[..0])
  {
  }

  /** Cutting keeps the order. */
  lemma CutSorted(f: Filter, ms: seq<Mapping>, kept: seq<nat>, cut: seq<Mapping>)
    requires f.Range? && Sorted(ms) && Kept(f, ms, kept) && AreCut(f, ms, kept, cut)
    ensures Sorted(cut)
  {
    hide Passes;
    forall i, j | 0 <= i < j < |cut| ensures cut[i].phys <= cut[j].phys {
      assert ms[kept[i]].phys <= ms[kept[j]].phys;
    }
  }

  lemma InsertMatching(blocks: seq<Block>, i: nat, ms: seq<Mapping>, src: seq<nat>, k: nat)
    requires RangesOk(blocks) && i < |blocks| && Matching(All, blocks[..i], ms, src) && k <= |ms|
    ensures Matching(All, blocks[..i + 1], ms[..k] + [MappingOf(All, blocks[i])] + ms[k..], src[..k] + [i] + src[k..])
  {
    hide MappingOf;
    assert forall x :: 0 <= x < i ==> blocks[..i][x] == blocks[x] == blocks[..i + 1][x];
  }

  lemma InsertDistinct(src: seq<nat>, i: nat, k: nat)
    requires Distinct(src) && i !in src && k <= |src|
    ensures Distinct(src[..k] + [i] + src[k..])
  {
  }

  lemma InsertExhaustive(blocks: seq<Block>, i: nat, src: seq<nat>, k: nat)
    requires i < |blocks| && Exhaustive(All, blocks[..i], src) && k <= |src|
    ensures Exhaustive(All, blocks[..i + 1], src[..k] + [i] + src[k..])
  {
    var src' := src[..k] + [i] + src[k..];
    forall x | 0 <= x <= i ensures x in src' {
      if x == i {
        assert src'[k] == i;
      } else {
        assert !Skipped(All, blocks[..i][x]);
        assert src == src[..k] + src[k..];
      }
    }
  }

  lemma DescribesInsert(blocks: seq<Block>, i: nat, ms: seq<Mapping>, src: seq<nat>, k: nat)
    requires RangesOk(blocks) && i < |blocks| && Describes(All, blocks[..i], ms, src) && k <= |ms|
    ensures Describes(All, blocks[..i + 1], ms[..k] + [MappingOf(All, blocks[i])] + ms[k..],
                      src[..k] + [i] + src[k..])
  {
    hide MappingOf, Distinct, Exhaustive;
    assert i !in src;
    InsertMatching(blocks, i, ms, src, k);
    InsertDistinct(src, i, k);
    InsertExhaustive(blocks, i, src, k);
  }

  /** Cutting the list of all blocks gives the list of the blocks that match. */
  lemma DescribesCut(f: Filter, blocks: seq<Block>, ms: seq<Mapping>, src: seq<nat>, kept: seq<nat>,
                     cut: seq<Mapping>) returns (src': seq<nat>)
    requires FilterOk(f) && f.Range? && RangesOk(blocks) && Describes(All, blocks, ms, src)
    requires Kept(f, ms, kept) && AreCut(f, ms, kept, cut)
    ensures Describes(f, blocks, cut, src')
  {
    hide Passes, Cut, Skipped;
    src' := seq(|kept|, j requires 0 <= j < |kept| => src[kept[j]]);
    forall i | 0 <= i < |blocks| ensures Passes(f, MappingOf(All, blocks[i])) <==> !Skipped(f, blocks[i]) {
      BlockMapping(f, blocks[i]);
    }
    forall i | 0 <= i < |blocks| && !Skipped(f, blocks[i]) ensures i in src' {
      assert i in src by { NoneSkipped(blocks[i]); }
      var n :| 0 <= n < |src| && src[n] == i;
      var j :| 0 <= j < |kept| && kept[j] == n;
      assert src'[j] == i;
    }
  }

  lemma NoneSkipped(b: Block)
    ensures !Skipped(All, b)
  {
  }

  lemma PassesIff(f: Filter, m: Mapping)
    requires f.Range?
    ensures Passes(f, m) <==>
      !(m.phys >= Unsigned64(f.begin + f.length) || Unsigned64(m.phys + m.length) <= Unsigned64(f.begin))
  {
    hide Unsigned64;
  }

  /** What the loop of memory_mapping_filter does to a mapping that passes. */
  method FilterMapping(f: Filter, m: Mapping) returns (cur: Mapping)
    requires f.Range?
    ensures cur == Cut(f, m)
  {
    hide Unsigned64;
    cur := m;
    UnsignedSum(m.phys + m.length, 0 - m.phys);
    UnsignedIs(m.length);
    UnsignedIs(m.virt);
    if cur.phys < Unsigned64(f.begin) {
      UnsignedSum(m.phys + m.length, f.begin);
      UnsignedSum(m.phys + m.length, 0 - Unsigned64(f.begin));
      UnsignedSum(m.phys + m.length - f.begin, Unsigned64(f.begin));
      UnsignedSum(f.begin, m.phys + m.length - f.begin);
      UnsignedSum(f.begin, m.virt - m.phys);
      cur := cur.(length := Unsigned64(cur.length - (f.begin - cur.phys)));
      if cur.virt != 0 {
        cur := cur.(virt := Unsigned64(cur.virt + (f.begin - cur.phys)));
      }
      cur := cur.(phys := Unsigned64(f.begin));
    }
    UnsignedSum(f.begin + f.length, 0 - cur.phys);
    if Unsigned64(cur.phys + cur.length) > Unsigned64(f.begin + f.length) {
      cur := cur.(length := Unsigned64(cur.length - (cur.phys + cur.length - f.begin - f.length)));
    }
  }

  class MemoryMappingList {
    var list: seq<Mapping>

    constructor ()
      ensures list == []
    {
      list := [];
    }

    /** create_new_memory_mapping: before the first mapping that does not start below it. */
    method CreateNewMemoryMapping(m: Mapping) returns (ghost k: nat)
      modifies this
      ensures k <= |old(list)| && list == old(list)[..k] + [m] + old(list)[k..]
      ensures old(Sorted(list)) ==> Sorted(list)
    {
      var i := 0;
      while i < |list| && list[i].phys < m.phys
        invariant i <= |list| && list == old(list)
        invariant forall j :: 0 <= j < i ==> list[j].phys < m.phys
      {
        i := i + 1;
      }
      k := i;
      list := list[..i] + [m] + list[i..];
    }

    /** qemu_get_guest_simple_memory_mapping. */
    method GetGuestSimpleMemoryMapping(blocks: seq<Block>) returns (ghost src: seq<nat>)
      requires RangesOk(blocks) && list == []
      modifies this
      ensures Describes(All, blocks, list, src) && Sorted(list)
    {
      src := [];
      for i := 0 to |blocks|
        invariant Describes(All, blocks[..i], list, src) && Sorted(list)
      {
        assert RangeOk(blocks[i]);
        ghost var before := list;
        var k := CreateNewMemoryMapping(Mapping(blocks[i].start, 0, blocks[i].end - blocks[i].start));
        DescribesInsert(blocks, i, before, src, k);
        src := src[..k] + [i] + src[k..];
      }
      assert blocks[..|blocks|] == blocks;
    }

    /** memory_mapping_filter. */
    method Filter(f: Filter) returns (ghost kept: seq<nat>)
      requires FilterOk(f) && f.Range?
      modifies this
      ensures Kept(f, old(list), kept) && AreCut(f, old(list), kept, list)
      ensures old(Sorted(list)) ==> Sorted(list)
    {
      hide Cut, Passes, Unsigned64, Kept, AreCut, Sorted;
      kept := [];
      var cur := 0;
      ghost var n := 0;
      NothingKept(f, list);
      while cur < |list|
        invariant cur == |kept| <= n <= |old(list)| && cur <= |list|
        invariant list[cur..] == old(list)[n..]
        invariant Kept(f, old(list)[..n], kept) && AreCut(f, old(list)[..n], kept, list[..cur])
      {
        var m := list[cur];
        ghost var done, rest := list[..cur], old(list)[n + 1..];
        assert m == list[cur..][0] == old(list)[n] && list[cur + 1..] == rest;
        PassesIff(f, m);
        KeptNext(f, old(list), n, kept, done);
        if m.phys >= Unsigned64(f.begin + f.length) || Unsigned64(m.phys + m.length) <= Unsigned64(f.begin) {
          list := list[..cur] + list[cur + 1..];
          assert list[..cur] == done && list[cur..] == rest;
        } else {
          m := FilterMapping(f, m);
          list := list[cur := m];
          kept := kept + [n];
          cur := cur + 1;
          assert list[..cur] == done + [m] && list[cur..] == rest;
        }
        n := n + 1;
      }
      assert old(list)[..n] == old(list) && list[..cur] == list;
      if old(Sorted(list)) { CutSorted(f, old(list), kept, list); }
    }
  }
}
