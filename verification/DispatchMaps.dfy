/** Section table, sub-page tables and flat page map of an AddressSpaceDispatch (exec.c), and what
    registering one piece of a memory section does to them. */
module DispatchMaps {
  import opened RadixGeometry
  import opened PhysPageTree

  const PAGE_SIZE: nat := 4096
  const PAGES: nat := 0x10_0000_0000_0000
  const SPACE: nat := 0x1_0000_0000_0000_0000

  datatype Region = Unassigned | NotDirty | Rom | Watch | Subpage(id: nat) | Mem(id: nat)

  /** MemoryRegionSection: `size` may be 2^64, `offset` is offset_within_region. */
  datatype Section = Section(mr: Region, addr: nat, size: nat, offset: nat)

  /** section_covers_addr, with the 64-bit wrap of range_get_last. */
  predicate Covers(s: Section, a: nat) {
    s.size >= SPACE || (s.addr <= a && a <= (s.addr + s.size - 1) % SPACE)
  }

  predicate SectionOk(s: Section) {
    0 < s.size && s.addr + s.size <= SPACE
  }

  lemma CoversRange(s: Section, a: nat)
    requires SectionOk(s) && a < SPACE
    ensures Covers(s, a) <==> s.addr <= a < s.addr + s.size
  {
  }

  datatype SubTable = SubTable(base: nat, table: seq<nat>)

  /** The tables of a dispatch; `flat` is what its radix tree stands for. */
  datatype Maps = Maps(sections: seq<Section>, subs: seq<SubTable>, flat: Flat)

  predicate Dummies(ss: seq<Section>) {
    && 4 <= |ss| <= PAGE_SIZE
    && ss[0] == Section(Unassigned, 0, SPACE, 0)
    && ss[1] == Section(NotDirty, 0, SPACE, 0)
    && ss[2] == Section(Rom, 0, SPACE, 0)
    && ss[3] == Section(Watch, 0, SPACE, 0)
  }

  /** Every range put into the flat map is exactly the range of its section, and was free before. */
  ghost predicate FlatOk(f: Flat, ss: seq<Section>) {
    match f
    case Empty => true
    case Assign(rest, start, count, leaf) =>
      && FlatOk(rest, ss) && 0 < count && start + count <= PAGES && 4 <= leaf < |ss|
      && !Assigned(rest, leaf) && PhysPageTree.Unassigned(rest, start, start + count)
      && ss[leaf].addr == start * PAGE_SIZE && ss[leaf].size == count * PAGE_SIZE
  }

  lemma AtAssigned(f: Flat, page: int)
    ensures At(f, page) == UNASSIGNED || Assigned(f, At(f, page))
  {
  }

  lemma FlatRange(f: Flat, ss: seq<Section>, s: nat)
    requires FlatOk(f, ss) && Assigned(f, s)
    ensures 4 <= s < |ss| && SectionOk(ss[s]) && ss[s].addr % PAGE_SIZE == 0
  {
  }

  /** A section in the flat map covers an address exactly when the map holds it for that page. */
  lemma {:induction false} FlatCover(f: Flat, ss: seq<Section>, s: nat, a: nat)
    requires FlatOk(f, ss) && Assigned(f, s) && a < SPACE
    ensures s < |ss| && (Covers(ss[s], a) <==> At(f, a / PAGE_SIZE) == s)
  {
    FlatRange(f, ss, s);
    CoversRange(ss[s], a);
    AtAssigned(f.rest, a / PAGE_SIZE);
    if s != f.leaf {
      FlatCover(f.rest, ss, s, a);
    }
  }

  lemma {:induction false} FlatOkMore(f: Flat, ss: seq<Section>, more: seq<Section>)
    requires FlatOk(f, ss)
    ensures FlatOk(f, ss + more)
  {
    if f.Assign? { FlatOkMore(f.rest, ss, more); }
  }

  predicate WellFormed(d: Maps) {
    && Dummies(d.sections)
    && (forall s :: 4 <= s < |d.sections| ==>
        SectionOk(d.sections[s]) && (d.sections[s].mr.Mem? || d.sections[s].mr.Subpage?))
    && (forall s :: 4 <= s < |d.sections| && d.sections[s].mr.Subpage? ==>
          var k := d.sections[s].mr.id;
          && k < |d.subs| && d.sections[s].addr == d.subs[k].base && d.sections[s].size == PAGE_SIZE
          && d.subs[k].base % PAGE_SIZE == 0 && At(d.flat, d.subs[k].base / PAGE_SIZE) == s)
    && (forall k :: 0 <= k < |d.subs| ==> |d.subs[k].table| == PAGE_SIZE)
    && (forall k, j :: 0 <= k < |d.subs| && 0 <= j < PAGE_SIZE ==>
          var t := d.subs[k].table[j]; t == UNASSIGNED || (4 <= t < |d.sections| && d.sections[t].mr.Mem?))
  }

  /** The section an address resolves to: the page's section, or its sub-page table's entry. */
  function Resolve(d: Maps, a: nat): nat
    requires WellFormed(d)
  {
    var s := At(d.flat, a / PAGE_SIZE);
    if 4 <= s < |d.sections| && d.sections[s].mr.Subpage? then d.subs[d.sections[s].mr.id].table[a % PAGE_SIZE] else s
  }

  predicate InUse(sub: SubTable) {
    exists j :: 0 <= j < |sub.table| && sub.table[j] != UNASSIGNED
  }

  /** Memory sections are found at exactly the addresses they cover, and every sub-page is in use. */
  ghost predicate Sound(d: Maps)
    requires WellFormed(d)
  {
    && (forall a :: 0 <= a < SPACE ==>
          var t := Resolve(d, a);
          t == UNASSIGNED || (4 <= t < |d.sections| && d.sections[t].mr.Mem? && Covers(d.sections[t], a)))
    && (forall t, a :: 4 <= t < |d.sections| && d.sections[t].mr.Mem? && 0 <= a < SPACE && Covers(d.sections[t], a) ==>
        Resolve(d, a) == t)
    && (forall k :: 0 <= k < |d.subs| ==> InUse(d.subs[k]))
  }

  ghost predicate Exact(d: Maps) {
    WellFormed(d) && FlatOk(d.flat, d.sections) && Sound(d)
  }

  /** No registered section covers any address of `piece`. */
  ghost predicate Free(d: Maps, piece: Section)
    requires WellFormed(d)
  {
    forall a :: piece.addr <= a < piece.addr + piece.size ==> Resolve(d, a) == UNASSIGNED
  }

  /** Registering `piece` as the newest section changes the resolution at its addresses only. */
  ghost predicate Registers(d: Maps, d': Maps, piece: Section)
    requires WellFormed(d) && WellFormed(d')
  {
    && |d.sections| < |d'.sections| && d.sections == d'.sections[..|d.sections|]
    && d'.sections[|d'.sections| - 1] == piece
    && (forall s :: |d.sections| <= s < |d'.sections| - 1 ==> d'.sections[s].mr.Subpage?)
    && forall a :: 0 <= a < SPACE ==>
         Resolve(d', a) == if piece.addr <= a < piece.addr + piece.size then |d'.sections| - 1 else Resolve(d, a)
  }

  lemma RegistersExact(d: Maps, d': Maps, piece: Section)
    requires Exact(d) && WellFormed(d') && FlatOk(d'.flat, d'.sections) && Registers(d, d', piece)
    requires SectionOk(piece) && piece.mr.Mem? && Free(d, piece)
    requires forall k :: 0 <= k < |d'.subs| ==> InUse(d'.subs[k])
    ensures Exact(d')
  {
    forall a | 0 <= a < SPACE
      ensures var t := Resolve(d', a);
        t == UNASSIGNED || (4 <= t < |d'.sections| && d'.sections[t].mr.Mem? && Covers(d'.sections[t], a))
    {
      CoversRange(piece, a);
      assert Resolve(d, a) != UNASSIGNED ==> d'.sections[Resolve(d, a)] == d.sections[Resolve(d, a)];
    }
    forall t, a | 4 <= t < |d'.sections| && d'.sections[t].mr.Mem? && 0 <= a < SPACE && Covers(d'.sections[t], a)
      ensures Resolve(d', a) == t
    {
      CoversRange(piece, a);
      if t < |d.sections| {
        assert d'.sections[t] == d.sections[t];
        assert Resolve(d, a) == t;
      }
    }
  }

  /** A page that has a section in the flat map has an address that resolves. */
  lemma PageUsed(d: Maps, page: nat) returns (a: nat)
    requires Exact(d) && page < PAGES && At(d.flat, page) != UNASSIGNED
    ensures page * PAGE_SIZE <= a < page * PAGE_SIZE + PAGE_SIZE && Resolve(d, a) != UNASSIGNED
  {
    var s := At(d.flat, page);
    AtAssigned(d.flat, page);
    FlatRange(d.flat, d.sections, s);
    a := page * PAGE_SIZE;
    if d.sections[s].mr.Subpage? {
      var k := d.sections[s].mr.id;
      assert InUse(d.subs[k]);
      var j :| 0 <= j < PAGE_SIZE && d.subs[k].table[j] != UNASSIGNED;
      a := a + j;
      assert a / PAGE_SIZE == page && a % PAGE_SIZE == j;
    }
  }

  // ------------------------------------------------------------------------------------------
  // register_multipage

  predicate WholePages(piece: Section) {
    SectionOk(piece) && piece.mr.Mem? && piece.addr % PAGE_SIZE == 0 && piece.size % PAGE_SIZE == 0
  }

  function RegMulti(d: Maps, piece: Section): Maps {
    Maps(d.sections + [piece], d.subs, Assign(d.flat, piece.addr / PAGE_SIZE, piece.size / PAGE_SIZE, |d.sections|))
  }

  lemma MultiFree(d: Maps, piece: Section)
    requires Exact(d) && WholePages(piece) && Free(d, piece)
    ensures PhysPageTree.Unassigned(d.flat, piece.addr / PAGE_SIZE, piece.addr / PAGE_SIZE + piece.size / PAGE_SIZE)
  {
    forall page | piece.addr / PAGE_SIZE <= page < piece.addr / PAGE_SIZE + piece.size / PAGE_SIZE
      ensures At(d.flat, page) == UNASSIGNED
    {
      assert piece.addr <= page * PAGE_SIZE && page * PAGE_SIZE + PAGE_SIZE <= piece.addr + piece.size;
      if At(d.flat, page) != UNASSIGNED {
        var a := PageUsed(d, page);
      }
    }
  }

  lemma NotYetAssigned(f: Flat, ss: seq<Section>, s: nat)
    requires FlatOk(f, ss) && s >= |ss|
    ensures !Assigned(f, s)
  {
  }

  lemma MultiWellFormed(d: Maps, piece: Section)
    requires Exact(d) && WholePages(piece) && Free(d, piece) && |d.sections| < PAGE_SIZE
    ensures WellFormed(RegMulti(d, piece)) && FlatOk(RegMulti(d, piece).flat, RegMulti(d, piece).sections)
  {
    var d' := RegMulti(d, piece);
    MultiFree(d, piece);
    FlatOkMore(d.flat, d.sections, [piece]);
    NotYetAssigned(d.flat, d.sections, |d.sections|);
    forall s | 4 <= s < |d'.sections| && d'.sections[s].mr.Subpage?
      ensures At(d'.flat, d'.subs[d'.sections[s].mr.id].base / PAGE_SIZE) == s
    {
      assert d'.sections[s] == d.sections[s];
      assert At(d.flat, d.subs[d.sections[s].mr.id].base / PAGE_SIZE) == s;
    }
  }

  lemma MultiResolve(d: Maps, piece: Section, a: nat)
    requires Exact(d) && WholePages(piece) && WellFormed(RegMulti(d, piece)) && a < SPACE
    ensures Resolve(RegMulti(d, piece), a) == if piece.addr <= a < piece.addr + piece.size then |d.sections|
        else Resolve(d, a)
  {
    var page := a / PAGE_SIZE;
    AtAssigned(d.flat, page);
    if At(d.flat, page) != UNASSIGNED {
      FlatRange(d.flat, d.sections, At(d.flat, page));
    }
    assert piece.addr <= a < piece.addr + piece.size <==>
        piece.addr / PAGE_SIZE <= page < piece.addr / PAGE_SIZE + piece.size / PAGE_SIZE;
  }

  lemma MultiExact(d: Maps, piece: Section)
    requires Exact(d) && WholePages(piece) && Free(d, piece) && |d.sections| < PAGE_SIZE
    ensures Exact(RegMulti(d, piece)) && Registers(d, RegMulti(d, piece), piece)
  {
    MultiWellFormed(d, piece);
    forall a | 0 <= a < SPACE
      ensures Resolve(RegMulti(d, piece), a) == if piece.addr <= a < piece.addr + piece.size then |d.sections|
          else Resolve(d, a)
    {
      MultiResolve(d, piece, a);
    }
    RegistersExact(d, RegMulti(d, piece), piece);
  }

  // ------------------------------------------------------------------------------------------
  // register_subpage

  /** A piece that fits in one page. */
  predicate InOnePage(piece: Section) {
    SectionOk(piece) && piece.mr.Mem? && piece.addr % PAGE_SIZE + piece.size <= PAGE_SIZE
  }

  function Base(piece: Section): nat {
    piece.addr / PAGE_SIZE * PAGE_SIZE
  }

  function Fill(table: seq<nat>, start: nat, size: nat, t: nat): (r: seq<nat>)
    ensures |r| == |table|
  {
    seq(|table|, j requires 0 <= j < |table| => if start <= j < start + size then t else table[j])
  }

  function EmptyTable(): seq<nat> {
    seq(PAGE_SIZE, j => UNASSIGNED)
  }

  /** The page has no sub-page yet: a container section and its table are added, then the piece. */
  function RegNewSub(d: Maps, piece: Section): Maps {
    var n, k := |d.sections|, |d.subs|;
    Maps(d.sections + [Section(Subpage(k), Base(piece), PAGE_SIZE, 0)] + [piece],
         d.subs + [SubTable(Base(piece), Fill(EmptyTable(), piece.addr % PAGE_SIZE, piece.size, n + 1))],
         Assign(d.flat, piece.addr / PAGE_SIZE, 1, n))
  }

  function RegOldSub(d: Maps, piece: Section, k: nat): Maps
    requires k < |d.subs|
  {
    var table := Fill(d.subs[k].table, piece.addr % PAGE_SIZE, piece.size, |d.sections|);
    Maps(d.sections + [piece], d.subs[k := SubTable(d.subs[k].base, table)], d.flat)
  }

  lemma NewSubFlat(d: Maps, piece: Section)
    requires Exact(d) && InOnePage(piece) && At(d.flat, piece.addr / PAGE_SIZE) == UNASSIGNED
    ensures FlatOk(RegNewSub(d, piece).flat, RegNewSub(d, piece).sections)
  {
    hide Sound;
    var d' := RegNewSub(d, piece);
    var n := |d.sections|;
    FlatOkMore(d.flat, d.sections, [d'.sections[n], piece]);
    assert d'.sections == d.sections + [d'.sections[n], piece];
    NotYetAssigned(d.flat, d.sections, n);
  }

  lemma NewSubContainers(d: Maps, piece: Section, s: nat)
    requires Exact(d) && InOnePage(piece) && At(d.flat, piece.addr / PAGE_SIZE) == UNASSIGNED
    requires 4 <= s < |RegNewSub(d, piece).sections| && RegNewSub(d, piece).sections[s].mr.Subpage?
    ensures var d' := RegNewSub(d, piece);
      var k := d'.sections[s].mr.id;
      && k < |d'.subs| && d'.sections[s].addr == d'.subs[k].base && d'.sections[s].size == PAGE_SIZE
      && d'.subs[k].base % PAGE_SIZE == 0 && At(d'.flat, d'.subs[k].base / PAGE_SIZE) == s
  {
    hide FlatOk, Sound;
    var d' := RegNewSub(d, piece);
    if s < |d.sections| {
      assert d'.sections[s] == d.sections[s];
      assert At(d.flat, d.subs[d.sections[s].mr.id].base / PAGE_SIZE) == s;
    }
  }

  lemma NewSubWellFormed(d: Maps, piece: Section)
    requires Exact(d) && InOnePage(piece) && |d.sections| + 1 < PAGE_SIZE
    requires At(d.flat, piece.addr / PAGE_SIZE) == UNASSIGNED
    ensures WellFormed(RegNewSub(d, piece))
  {
    hide FlatOk, Sound;
    var d' := RegNewSub(d, piece);
    forall s | 4 <= s < |d'.sections| && d'.sections[s].mr.Subpage?
      ensures var k := d'.sections[s].mr.id;
        && k < |d'.subs| && d'.sections[s].addr == d'.subs[k].base && d'.sections[s].size == PAGE_SIZE
        && d'.subs[k].base % PAGE_SIZE == 0 && At(d'.flat, d'.subs[k].base / PAGE_SIZE) == s
    {
      NewSubContainers(d, piece, s);
    }
    hide At;
  }

  lemma NewSubResolve(d: Maps, piece: Section, a: nat)
    requires Exact(d) && InOnePage(piece) && WellFormed(RegNewSub(d, piece)) && a < SPACE
    requires At(d.flat, piece.addr / PAGE_SIZE) == UNASSIGNED
    ensures Resolve(RegNewSub(d, piece), a) == if piece.addr <= a < piece.addr + piece.size then |d.sections| + 1
        else Resolve(d, a)
  {
    var d' := RegNewSub(d, piece);
    var page := a / PAGE_SIZE;
    AtAssigned(d.flat, page);
    if At(d.flat, page) != UNASSIGNED {
      FlatRange(d.flat, d.sections, At(d.flat, page));
    }
    if page == piece.addr / PAGE_SIZE {
      assert d'.sections[|d.sections|].mr == Subpage(|d.subs|);
    } else if At(d.flat, page) != UNASSIGNED {
      assert d'.sections[At(d.flat, page)] == d.sections[At(d.flat, page)];
    }
  }

  lemma NewSubExact(d: Maps, piece: Section)
    requires Exact(d) && InOnePage(piece) && Free(d, piece) && |d.sections| + 1 < PAGE_SIZE
    requires At(d.flat, piece.addr / PAGE_SIZE) == UNASSIGNED
    ensures Exact(RegNewSub(d, piece)) && Registers(d, RegNewSub(d, piece), piece)
  {
    var d' := RegNewSub(d, piece);
    NewSubWellFormed(d, piece);
    NewSubFlat(d, piece);
    forall a | 0 <= a < SPACE
      ensures Resolve(d', a) == if piece.addr <= a < piece.addr + piece.size then |d.sections| + 1 else Resolve(d, a)
    {
      NewSubResolve(d, piece, a);
    }
    assert d'.sections[..|d.sections|] == d.sections;
    forall k | 0 <= k < |d'.subs| ensures InUse(d'.subs[k]) {
      if k == |d.subs| {
        assert d'.subs[k].table[piece.addr % PAGE_SIZE] == |d.sections| + 1;
      } else {
        assert d'.subs[k] == d.subs[k];
      }
    }
    RegistersExact(d, d', piece);
  }

  /** The page of a free piece holds no memory section, so its section is a sub-page container. */
  lemma SubpageThere(d: Maps, piece: Section)
    requires Exact(d) && InOnePage(piece) && Free(d, piece) && At(d.flat, piece.addr / PAGE_SIZE) != UNASSIGNED
    ensures var s := At(d.flat, piece.addr / PAGE_SIZE);
      && 4 <= s < |d.sections| && d.sections[s].mr.Subpage? && d.sections[s].mr.id < |d.subs|
      && d.subs[d.sections[s].mr.id].base == Base(piece)
  {
    var page := piece.addr / PAGE_SIZE;
    var s := At(d.flat, page);
    AtAssigned(d.flat, page);
    FlatRange(d.flat, d.sections, s);
    assert Resolve(d, piece.addr) == UNASSIGNED;
    FlatCover(d.flat, d.sections, s, piece.addr);
    CoversRange(d.sections[s], piece.addr);
  }

  lemma OldSubWellFormed(d: Maps, piece: Section, k: nat)
    requires Exact(d) && InOnePage(piece) && |d.sections| < PAGE_SIZE && k < |d.subs|
    ensures WellFormed(RegOldSub(d, piece, k)) && FlatOk(RegOldSub(d, piece, k).flat, RegOldSub(d, piece, k).sections)
  {
    var d' := RegOldSub(d, piece, k);
    FlatOkMore(d.flat, d.sections, [piece]);
    forall s | 4 <= s < |d'.sections| && d'.sections[s].mr.Subpage?
      ensures d'.sections[s].mr.id < |d'.subs| && At(d'.flat, d'.subs[d'.sections[s].mr.id].base / PAGE_SIZE) == s
    {
      assert d'.sections[s] == d.sections[s];
    }
  }

  lemma OldSubResolve(d: Maps, piece: Section, a: nat)
    requires Exact(d) && InOnePage(piece) && a < SPACE
    requires var s := At(d.flat, piece.addr / PAGE_SIZE);
      4 <= s < |d.sections| && d.sections[s].mr.Subpage? && WellFormed(RegOldSub(d, piece, d.sections[s].mr.id))
    ensures var k := d.sections[At(d.flat, piece.addr / PAGE_SIZE)].mr.id;
      Resolve(RegOldSub(d, piece, k), a) == if piece.addr <= a < piece.addr + piece.size then |d.sections|
          else Resolve(d, a)
  {
    var s := At(d.flat, piece.addr / PAGE_SIZE);
    var k := d.sections[s].mr.id;
    var d' := RegOldSub(d, piece, k);
    var page := a / PAGE_SIZE;
    AtAssigned(d.flat, page);
    if At(d.flat, page) != UNASSIGNED {
      FlatRange(d.flat, d.sections, At(d.flat, page));
      assert d'.sections[At(d.flat, page)] == d.sections[At(d.flat, page)];
    }
    AtAssigned(d.flat, piece.addr / PAGE_SIZE);
    FlatCover(d.flat, d.sections, s, a);
    FlatCover(d.flat, d.sections, s, piece.addr);
    CoversRange(d.sections[s], a);
    CoversRange(d.sections[s], piece.addr);
    assert At(d.flat, page) == s <==> page == piece.addr / PAGE_SIZE;
  }

  lemma OldSubExact(d: Maps, piece: Section)
    requires Exact(d) && InOnePage(piece) && Free(d, piece) && |d.sections| < PAGE_SIZE
    requires At(d.flat, piece.addr / PAGE_SIZE) != UNASSIGNED
    ensures var s := At(d.flat, piece.addr / PAGE_SIZE);
      && 4 <= s < |d.sections| && d.sections[s].mr.Subpage? && d.sections[s].mr.id < |d.subs|
      && |d.subs[d.sections[s].mr.id].table| == PAGE_SIZE
      && Exact(RegOldSub(d, piece, d.sections[s].mr.id))
      && Registers(d, RegOldSub(d, piece, d.sections[s].mr.id), piece)
  {
    SubpageThere(d, piece);
    var k := d.sections[At(d.flat, piece.addr / PAGE_SIZE)].mr.id;
    var d' := RegOldSub(d, piece, k);
    OldSubWellFormed(d, piece, k);
    forall a | 0 <= a < SPACE
      ensures Resolve(d', a) == if piece.addr <= a < piece.addr + piece.size then |d.sections| else Resolve(d, a)
    {
      OldSubResolve(d, piece, a);
    }
    forall j | 0 <= j < |d'.subs| ensures InUse(d'.subs[j]) {
      if j == k {
        assert d'.subs[j].table[piece.addr % PAGE_SIZE] == |d.sections|;
      } else {
        assert d'.subs[j] == d.subs[j];
      }
    }
    RegistersExact(d, d', piece);
  }

  // ------------------------------------------------------------------------------------------
  // mem_add: a section is cut into pieces, registered from low to high addresses

  /** `p` is a part of `u` that translates addresses the way `u` does. */
  predicate Piece(p: Section, u: Section) {
    && p.mr == u.mr && u.addr <= p.addr && p.addr + p.size <= u.addr + u.size
    && p.offset - p.addr == u.offset - u.addr
  }

  /** The addresses of `u` below `upto` resolve to new pieces of `u`; all others as before. */
  ghost predicate Added(d0: Maps, d: Maps, u: Section, upto: nat)
    requires WellFormed(d0) && WellFormed(d)
  {
    && |d0.sections| <= |d.sections| && d0.sections == d.sections[..|d0.sections|]
    && forall a :: 0 <= a < SPACE ==>
         if u.addr <= a < upto
         then |d0.sections| <= Resolve(d, a) < |d.sections| && Piece(d.sections[Resolve(d, a)], u)
         else Resolve(d, a) == Resolve(d0, a)
  }

  /** TARGET_PAGE_ALIGN(addr) - addr in 64-bit arithmetic: the rest of the page. */
  lemma PageRest(addr: nat)
    requires addr < SPACE && addr % PAGE_SIZE != 0
    ensures ((addr + PAGE_SIZE - 1) % SPACE / PAGE_SIZE * PAGE_SIZE - addr) % SPACE == PAGE_SIZE - addr % PAGE_SIZE
  {
  }

  /** The head is one piece within its page, and ends at a page boundary unless it is all. */
  lemma HeadPiece(u: Section)
    requires SectionOk(u) && u.mr.Mem? && u.addr % PAGE_SIZE != 0
    ensures var now := u.(size := Head(u));
      InOnePage(now) && Piece(now, u) && (now.size != u.size ==> (now.addr + now.size) % PAGE_SIZE == 0)
  {
  }

  lemma AddedNone(d: Maps, u: Section)
    requires Exact(d)
    ensures Added(d, d, u, u.addr)
  {
  }

  lemma AddedStep(d0: Maps, d: Maps, d': Maps, u: Section, piece: Section)
    requires Exact(d0) && Exact(d) && Exact(d') && u.addr <= piece.addr
    requires Added(d0, d, u, piece.addr) && Registers(d, d', piece) && Piece(piece, u)
    ensures Added(d0, d', u, piece.addr + piece.size)
  {
    forall a | 0 <= a < SPACE && u.addr <= a < piece.addr + piece.size
      ensures |d0.sections| <= Resolve(d', a) < |d'.sections| && Piece(d'.sections[Resolve(d', a)], u)
    {
      if a < piece.addr {
        assert d'.sections[Resolve(d, a)] == d.sections[Resolve(d, a)];
      }
    }
  }

  lemma AddedFree(d0: Maps, d: Maps, u: Section, upto: nat, piece: Section)
    requires Exact(d0) && Exact(d) && Added(d0, d, u, upto) && Free(d0, u) && SectionOk(u)
    requires upto <= piece.addr && u.addr <= piece.addr && piece.addr + piece.size <= u.addr + u.size
    ensures Free(d, piece)
  {
  }

  // ------------------------------------------------------------------------------------------
  // How many entries of the section table a section needs

  /** The page has a sub-page container. */
  predicate HasSub(d: Maps, page: nat) {
    var s := At(d.flat, page);
    4 <= s < |d.sections| && d.sections[s].mr.Subpage?
  }

  ghost predicate SubsAre(d: Maps, pages: set<nat>) {
    forall page: nat :: page in pages <==> HasSub(d, page)
  }

  /** Entries for a piece inside one page: the piece itself, and a container if the page has none. */
  function SubCost(d: Maps, piece: Section): nat {
    if HasSub(d, piece.addr / PAGE_SIZE) then 1 else 2
  }

  lemma MultiSubs(d: Maps, piece: Section, pages: set<nat>)
    requires Exact(d) && WholePages(piece) && Free(d, piece) && SubsAre(d, pages)
    ensures SubsAre(RegMulti(d, piece), pages)
  {
    var d' := RegMulti(d, piece);
    MultiFree(d, piece);
    forall page: nat ensures HasSub(d', page) <==> HasSub(d, page) {
      SectionAt(d, page);
    }
  }

  lemma SectionAt(d: Maps, page: nat)
    requires Exact(d)
    ensures At(d.flat, page) < |d.sections|
  {
    AtAssigned(d.flat, page);
    if At(d.flat, page) != UNASSIGNED { FlatRange(d.flat, d.sections, At(d.flat, page)); }
  }

  lemma NewSubSubs(d: Maps, piece: Section, pages: set<nat>)
    requires Exact(d) && InOnePage(piece) && At(d.flat, piece.addr / PAGE_SIZE) == UNASSIGNED && SubsAre(d, pages)
    ensures SubsAre(RegNewSub(d, piece), pages + {piece.addr / PAGE_SIZE})
  {
    var d' := RegNewSub(d, piece);
    forall page: nat ensures HasSub(d', page) <==> HasSub(d, page) || page == piece.addr / PAGE_SIZE {
      SectionAt(d, page);
      assert d'.sections[|d.sections|].mr == Subpage(|d.subs|);
      assert page != piece.addr / PAGE_SIZE ==> d'.sections[At(d.flat, page)] == d.sections[At(d.flat, page)];
    }
  }

  lemma OldSubSubs(d: Maps, piece: Section, pages: set<nat>)
    requires Exact(d) && InOnePage(piece) && Free(d, piece) && SubsAre(d, pages)
    requires At(d.flat, piece.addr / PAGE_SIZE) != UNASSIGNED
    ensures HasSub(d, piece.addr / PAGE_SIZE) && d.sections[At(d.flat, piece.addr / PAGE_SIZE)].mr.id < |d.subs|
    ensures SubsAre(RegOldSub(d, piece, d.sections[At(d.flat, piece.addr / PAGE_SIZE)].mr.id),
                    pages + {piece.addr / PAGE_SIZE})
  {
    SubpageThere(d, piece);
    var d' := RegOldSub(d, piece, d.sections[At(d.flat, piece.addr / PAGE_SIZE)].mr.id);
    forall page: nat ensures HasSub(d', page) <==> HasSub(d, page) {
      SectionAt(d, page);
    }
  }

  /** The part of a section before the first page boundary, if it does not start on one. */
  function Head(u: Section): (r: nat)
    ensures r <= u.size
  {
    if u.addr % PAGE_SIZE == 0 then 0
    else if PAGE_SIZE - u.addr % PAGE_SIZE < u.size then PAGE_SIZE - u.addr % PAGE_SIZE else u.size
  }

  function HeadPages(u: Section): set<nat> {
    if u.addr % PAGE_SIZE == 0 then {} else {u.addr / PAGE_SIZE}
  }

  /** The entries for the head when these pages already have containers. */
  ghost function HeadNeed(u: Section, pages: set<nat>): nat {
    (if u.addr % PAGE_SIZE == 0 then 0 else 1) + |HeadPages(u) - pages|
  }

  /** From a page boundary to the end: one piece of whole pages and one of what is left. */
  function RestPieces(from: nat, end: nat): nat
    requires from <= end
  {
    (if end - from >= PAGE_SIZE then 1 else 0) + if (end - from) % PAGE_SIZE != 0 then 1 else 0
  }

  function RestPages(from: nat, end: nat): set<nat>
    requires from <= end
  {
    if (end - from) % PAGE_SIZE != 0 then {end / PAGE_SIZE} else {}
  }

  /** The entries for the rest when these pages already have containers. */
  ghost function RestNeed(from: nat, end: nat, pages: set<nat>): nat
    requires from <= end
  {
    RestPieces(from, end) + |RestPages(from, end) - pages|
  }

  /** The pieces a section is cut into, and the pages it covers in part. */
  function Pieces(u: Section): nat {
    (if u.addr % PAGE_SIZE == 0 then 0 else 1) + RestPieces(u.addr + Head(u), u.addr + u.size)
  }

  function PartialPages(u: Section): set<nat> {
    HeadPages(u) + RestPages(u.addr + Head(u), u.addr + u.size)
  }

  /** The entries mem_add needs when these pages already have containers. */
  ghost function Need(u: Section, pages: set<nat>): nat {
    Pieces(u) + |PartialPages(u) - pages|
  }

  /** Head and rest lie in different pages. */
  lemma PagesApart(u: Section)
    requires SectionOk(u)
    ensures HeadPages(u) * RestPages(u.addr + Head(u), u.addr + u.size) == {}
  {
    if u.addr % PAGE_SIZE != 0 && Head(u) < u.size {
      assert (u.addr + Head(u)) / PAGE_SIZE == u.addr / PAGE_SIZE + 1;
    }
  }

  lemma SplitCount(a: set<nat>, b: set<nat>, s: set<nat>)
    requires a * b == {}
    ensures |(a + b) - s| == |a - s| + |b - (s + a)|
  {
    var x, y := a - s, b - (s + a);
    assert (a + b) - s == x + y && x * y == {};
  }

  lemma NeedSplit(u: Section, pages: set<nat>)
    requires SectionOk(u)
    ensures var from, end, head := u.addr + Head(u), u.addr + u.size, HeadPages(u);
      Need(u, pages) == HeadNeed(u, pages) + RestNeed(from, end, pages + head)
  {
    hide HeadPages, RestPages, RestPieces, Head;
    PagesApart(u);
    SplitCount(HeadPages(u), RestPages(u.addr + Head(u), u.addr + u.size), pages);
  }

  lemma PartialSplit(u: Section, pages: set<nat>)
    ensures pages + HeadPages(u) + RestPages(u.addr + Head(u), u.addr + u.size) == pages + PartialPages(u)
  {
  }

  lemma RestDone(end: nat, pages: set<nat>)
    ensures RestNeed(end, end, pages) == 0 && RestPages(end, end) == {}
  {
  }

  lemma CostIs(d: Maps, piece: Section, pages: set<nat>)
    requires SubsAre(d, pages)
    ensures SubCost(d, piece) == 1 + |{piece.addr / PAGE_SIZE} - pages|
  {
    var page := piece.addr / PAGE_SIZE;
    assert {page} - pages == if page in pages then {} else {page};
  }

  /** The last piece, less than a page. */
  lemma TailCost(d: Maps, remain: Section, end: nat, pages: set<nat>)
    requires SubsAre(d, pages) && 0 < remain.size < PAGE_SIZE && remain.addr % PAGE_SIZE == 0
    requires end == remain.addr + remain.size
    ensures RestNeed(remain.addr, end, pages) == SubCost(d, remain)
    ensures RestNeed(end, end, pages + {remain.addr / PAGE_SIZE}) == 0
    ensures pages + {remain.addr / PAGE_SIZE} + RestPages(end, end) == pages + RestPages(remain.addr, end)
  {
    CostIs(d, remain, pages);
    hide SubCost, SubsAre;
    TailPage(remain.addr, remain.size);
  }

  lemma TailPage(addr: nat, size: nat)
    requires addr % PAGE_SIZE == 0 && 0 < size < PAGE_SIZE
    ensures RestPages(addr, addr + size) == {addr / PAGE_SIZE} && RestPieces(addr, addr + size) == 1
    ensures RestPages(addr + size, addr + size) == {} && RestPieces(addr + size, addr + size) == 0
  {
    assert (addr + size) / PAGE_SIZE == addr / PAGE_SIZE;
  }

  /** The whole pages in the middle. */
  lemma MiddleCost(from: nat, to: nat, end: nat, pages: set<nat>)
    requires from % PAGE_SIZE == 0 && to % PAGE_SIZE == 0 && from < to <= end < to + PAGE_SIZE
    ensures RestNeed(from, end, pages) == RestNeed(to, end, pages) + 1 && RestPages(from, end) == RestPages(to, end)
  {
  }

  // ------------------------------------------------------------------------------------------
  // address_space_lookup_region

  /** A cached section that covers the address resolves it like a fresh lookup. */
  lemma CachedResolve(d: Maps, m: nat, a: nat)
    requires Exact(d) && 4 <= m < |d.sections| && a < SPACE && Covers(d.sections[m], a)
    ensures d.sections[m].mr.Subpage? ==>
              d.sections[m].mr.id < |d.subs| && d.subs[d.sections[m].mr.id].table[a % PAGE_SIZE] == Resolve(d, a)
    ensures d.sections[m].mr.Mem? ==> m == Resolve(d, a)
  {
    CoversRange(d.sections[m], a);
  }

  /** What the radix walk finds, checked against the address, is the flat map's section. */
  lemma FoundSection(d: Maps, w: nat, a: nat)
    requires Exact(d) && a < SPACE && (w == UNASSIGNED || Assigned(d.flat, w))
    requires At(d.flat, a / PAGE_SIZE) != UNASSIGNED ==> w == At(d.flat, a / PAGE_SIZE)
    ensures w < |d.sections| && (if Covers(d.sections[w], a) then w else UNASSIGNED) == At(d.flat, a / PAGE_SIZE)
  {
    if w != UNASSIGNED {
      FlatCover(d.flat, d.sections, w, a);
    }
  }

  lemma FoundCovers(d: Maps, a: nat)
    requires Exact(d) && a < SPACE
    ensures var s := At(d.flat, a / PAGE_SIZE);
      s < |d.sections| && Covers(d.sections[s], a) && (s == UNASSIGNED || 4 <= s)
  {
    AtAssigned(d.flat, a / PAGE_SIZE);
    if At(d.flat, a / PAGE_SIZE) != UNASSIGNED {
      FlatCover(d.flat, d.sections, At(d.flat, a / PAGE_SIZE), a);
      FlatRange(d.flat, d.sections, At(d.flat, a / PAGE_SIZE));
    }
  }
}
