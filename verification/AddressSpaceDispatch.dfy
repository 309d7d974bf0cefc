/** mem_begin, mem_add, mem_commit and address_space_lookup_region of exec.c. */
module AddressSpaceDispatches {
  import opened RadixGeometry
  import opened PhysPageTree
  import opened PhysPageCompact
  import opened PhysPageMaps
  import opened DispatchMaps

  datatype Mru = NoSection | Cached(section: nat)

  class AddressSpaceDispatch {
    const pages: PhysPageMap
    var sections: seq<Section>
    var subs: seq<SubTable>
    var mru: Mru
    ghost var flat: Flat

    ghost function D(): Maps
      reads this
    {
      Maps(sections, subs, flat)
    }

    /** The dispatch is being filled: the radix tree is uncompressed. */
    ghost predicate Building()
      reads this, pages
    {
      && 4 <= |sections| <= PAGE_SIZE && Exact(D()) && mru == NoSection
      && Shape(pages.tree, pages.lay, flat, -1, 0) && |pages.tree.nodes| <= 11 * (|sections| - 4)
    }

    /** The dispatch is published: the tree may be compressed and lookups may have filled the cache. */
    ghost predicate Ready()
      reads this, pages
    {
      && Exact(D()) && Weak(pages.tree, pages.lay, flat)
      && (mru.Cached? ==> mru.section == UNASSIGNED || 4 <= mru.section < |sections|)
    }

    /** mem_begin */
    constructor ()
      ensures fresh(pages) && Building() && |sections| == 4
      ensures flat == Empty && forall a :: 0 <= a < SPACE ==> Resolve(D(), a) == UNASSIGNED
    {
      pages := new PhysPageMap();
      sections := [Section(Unassigned, 0, SPACE, 0), Section(NotDirty, 0, SPACE, 0),
                   Section(Rom, 0, SPACE, 0), Section(Watch, 0, SPACE, 0)];
      subs := [];
      mru := NoSection;
      flat := Empty;
    }

    /** phys_section_add; not ok where the source's assertion that the table is not full fails. */
    method SectionAdd(s: Section) returns (ok: bool, index: nat)
      modifies this`sections
      ensures ok <==> |old(sections)| < PAGE_SIZE
      ensures ok ==> index == |old(sections)| && sections == old(sections) + [s]
      ensures !ok ==> sections == old(sections)
    {
      index := |sections|;
      if index >= PAGE_SIZE {
        return false, index;
      }
      sections := sections + [s];
      ok := true;
    }

    /** phys_page_find, as a function of the tables: the walk, then the check that skipped bits matched. */
    ghost function Find(a: nat): nat
      requires a < SPACE && Exact(D()) && Weak(pages.tree, pages.lay, flat)
      reads this, pages
    {
      WalkFlat(pages.tree, pages.lay, flat, pages.tree.root, LEVELS, 0, a / PAGE_SIZE);
      var w := Walk(pages.tree, pages.tree.root, LEVELS, a / PAGE_SIZE);
      FoundSection(D(), w, a);
      if Covers(sections[w], a) then w else UNASSIGNED
    }

    /** phys_page_find */
    method PhysPageFind(a: nat) returns (s: nat)
      requires a < SPACE && Exact(D()) && Weak(pages.tree, pages.lay, flat)
      ensures s == Find(a) == At(flat, a / PAGE_SIZE)
    {
      var w := pages.Find(a / PAGE_SIZE, flat);
      WalkFlat(pages.tree, pages.lay, flat, pages.tree.root, LEVELS, 0, a / PAGE_SIZE);
      FoundSection(D(), w, a);
      s := if Covers(sections[w], a) then w else UNASSIGNED;
    }

    /** subpage_register */
    method SubpageRegister(k: nat, start: nat, end: nat, section: nat)
      requires k < |subs| && |subs[k].table| == PAGE_SIZE && start <= end < PAGE_SIZE
      modifies this`subs
      ensures var sub := old(subs)[k];
        subs == old(subs)[k := SubTable(sub.base, Fill(sub.table, start, end - start + 1, section))]
    {
      var table := subs[k].table;
      var idx := start;
      while idx <= end
        invariant start <= idx <= end + 1 && |table| == PAGE_SIZE
        invariant table == Fill(subs[k].table, start, idx - start, section)
      {
        table := table[idx := section];
        idx := idx + 1;
      }
      subs := subs[k := SubTable(subs[k].base, table)];
    }

    /** register_multipage; not ok if the section table is full. */
    method RegisterMultipage(piece: Section, ghost subPages: set<nat>) returns (ok: bool)
      requires Building() && WholePages(piece) && Free(D(), piece) && SubsAre(D(), subPages)
      modifies this, pages
      ensures ok <==> |old(sections)| < PAGE_SIZE
      ensures ok ==> Building() && Registers(old(D()), D(), piece)
      ensures ok ==> |sections| == |old(sections)| + 1 && SubsAre(D(), subPages)
    {
      hide WellFormed, FlatOk, Sound, Shape, Registers, Free, SubsAre;
      ghost var d := D();
      if |sections| < PAGE_SIZE {
        MultiExact(d, piece);
        MultiFree(d, piece);
        MultiSubs(d, piece, subPages);
      }
      var index;
      ok, index := SectionAdd(piece);
      if !ok {
        return;
      }
      pages.PageSet(piece.addr / PAGE_SIZE, piece.size / PAGE_SIZE, index, flat);
      flat := Assign(flat, piece.addr / PAGE_SIZE, piece.size / PAGE_SIZE, index);
      assert D() == RegMulti(d, piece);
    }

    /** The part of register_subpage that creates the sub-page of a page without one. */
    method AddContainer(base: nat) returns (ok: bool, k: nat)
      requires base % PAGE_SIZE == 0 && base < SPACE && 4 <= |sections| <= PAGE_SIZE
      requires Shape(pages.tree, pages.lay, flat, -1, 0) && |pages.tree.nodes| <= 11 * (|sections| - 4)
      requires At(flat, base / PAGE_SIZE) == UNASSIGNED
      modifies this, pages
      ensures ok <==> |old(sections)| < PAGE_SIZE
      ensures ok ==> k == |old(subs)| && mru == old(mru)
      ensures ok ==>
        D() == Maps(old(sections) + [Section(Subpage(k), base, PAGE_SIZE, 0)],
                    old(subs) + [SubTable(base, EmptyTable())],
                    Assign(old(flat), base / PAGE_SIZE, 1, |old(sections)|))
      ensures ok ==> Shape(pages.tree, pages.lay, flat, -1, 0) && |pages.tree.nodes| <= 11 * (|sections| - 4)
    {
      hide Shape;
      k := |subs|;
      subs := subs + [SubTable(base, EmptyTable())];
      var container;
      ok, container := SectionAdd(Section(Subpage(k), base, PAGE_SIZE, 0));
      if !ok {
        return;
      }
      pages.PageSet(base / PAGE_SIZE, 1, container, flat);
      flat := Assign(flat, base / PAGE_SIZE, 1, container);
    }

    /** What a successful register_subpage makes of the tables. */
    ghost function SubRegistered(piece: Section): Maps
      requires Exact(D()) && InOnePage(piece) && Free(D(), piece)
      reads this
    {
      if At(flat, piece.addr / PAGE_SIZE) == UNASSIGNED then RegNewSub(D(), piece)
      else
        SubpageThere(D(), piece);
        RegOldSub(D(), piece, sections[At(flat, piece.addr / PAGE_SIZE)].mr.id)
    }

    lemma SubRegisteredOk(piece: Section, subPages: set<nat>)
      requires Exact(D()) && InOnePage(piece) && Free(D(), piece) && SubsAre(D(), subPages)
      ensures HasSub(D(), piece.addr / PAGE_SIZE) <==> At(flat, piece.addr / PAGE_SIZE) != UNASSIGNED
      ensures At(flat, piece.addr / PAGE_SIZE) != UNASSIGNED ==>
        var k := sections[At(flat, piece.addr / PAGE_SIZE)].mr.id; k < |subs| && |subs[k].table| == PAGE_SIZE
      ensures |sections| + SubCost(D(), piece) <= PAGE_SIZE ==>
        && Exact(SubRegistered(piece)) && Registers(D(), SubRegistered(piece), piece)
        && SubsAre(SubRegistered(piece), subPages + {piece.addr / PAGE_SIZE})
    {
      hide FlatOk, Sound, Registers, Free, SubsAre;
      if At(flat, piece.addr / PAGE_SIZE) != UNASSIGNED {
        OldSubSubs(D(), piece, subPages);
        if |sections| < PAGE_SIZE { OldSubExact(D(), piece); }
      } else if |sections| + 1 < PAGE_SIZE {
        NewSubExact(D(), piece);
        NewSubSubs(D(), piece, subPages);
      }
    }

    /** register_subpage; the source's assertion that the page is unassigned or a sub-page is proved. Not ok if
        the section table cannot take the piece and, for a page without one, its container. */
    method RegisterSubpage(piece: Section, ghost subPages: set<nat>) returns (ok: bool)
      requires Building() && InOnePage(piece) && Free(D(), piece) && SubsAre(D(), subPages)
      modifies this, pages
      ensures ok <==> |old(sections)| + SubCost(old(D()), piece) <= PAGE_SIZE
      ensures ok ==> Building() && Registers(old(D()), D(), piece)
      ensures ok ==> |sections| == |old(sections)| + SubCost(old(D()), piece)
      ensures ok ==> SubsAre(D(), subPages + {piece.addr / PAGE_SIZE})
    {
      hide WellFormed, FlatOk, Sound, Shape, Weak, Registers, Free, SubsAre;
      var base := piece.addr / PAGE_SIZE * PAGE_SIZE;
      ShapeIsWeak(pages.tree, pages.lay, flat);
      SubRegisteredOk(piece, subPages);
      ghost var d' := SubRegistered(piece);
      var existing := PhysPageFind(base);
      var k: nat;
      if existing == UNASSIGNED {
        ok, k := AddContainer(base);
        if !ok {
          return;
        }
      } else {
        assert sections[existing].mr.Subpage?;
        k := sections[existing].mr.id;
      }
      var index;
      ok, index := SectionAdd(piece);
      if !ok {
        return;
      }
      SubpageRegister(k, piece.addr % PAGE_SIZE, piece.addr % PAGE_SIZE + piece.size - 1, index);
      assert D() == d';
    }

    /** Register the next piece of `u`, which has been registered up to the piece. */
    method AddPiece(now: Section, wholePages: bool, ghost d0: Maps, ghost u: Section, ghost subPages: set<nat>)
      returns (ok: bool)
      requires Building() && Exact(d0) && Free(d0, u) && SectionOk(u) && Added(d0, D(), u, now.addr) && Piece(now, u)
      requires SubsAre(D(), subPages) && if wholePages then WholePages(now) else InOnePage(now)
      modifies this, pages
      ensures ok <==> |old(sections)| + (if wholePages then 1 else SubCost(old(D()), now)) <= PAGE_SIZE
      ensures ok ==> Building() && Added(d0, D(), u, now.addr + now.size)
      ensures ok ==> |sections| == |old(sections)| + if wholePages then 1 else SubCost(old(D()), now)
      ensures ok ==> SubsAre(D(), if wholePages then subPages else subPages + {now.addr / PAGE_SIZE})
    {
      hide WellFormed, FlatOk, Sound, Shape, Registers, Free, Added, SubsAre;
      ghost var d := D();
      AddedFree(d0, d, u, now.addr, now);
      if wholePages {
        ok := RegisterMultipage(now, subPages);
      } else {
        ok := RegisterSubpage(now, subPages);
      }
      if ok { AddedStep(d0, d, D(), u, now); }
    }

    /** One round of the loop of mem_add: the whole pages that remain, or the rest of the last page. */
    method AddNext(remain: Section, ghost d0: Maps, ghost u: Section, ghost subPages: set<nat>)
      returns (ok: bool, now: Section, ghost subPages': set<nat>)
      requires Building() && Exact(d0) && Free(d0, u) && SectionOk(u) && u.mr.Mem? && SubsAre(D(), subPages)
      requires Added(d0, D(), u, remain.addr) && Piece(remain, u) && remain.addr + remain.size == u.addr + u.size
      requires remain.size > 0 && remain.addr % PAGE_SIZE == 0
      modifies this, pages
      ensures var end := u.addr + u.size;
        && (!ok ==> |old(sections)| + RestNeed(remain.addr, end, subPages) > PAGE_SIZE)
        && (ok ==>
              && Building() && SubsAre(D(), subPages') && Added(d0, D(), u, now.addr + now.size)
              && now.addr == remain.addr && 0 < now.size <= remain.size
              && (now.size != remain.size ==> (now.addr + now.size) % PAGE_SIZE == 0)
              && |sections| + RestNeed(now.addr + now.size, end, subPages')
                 == |old(sections)| + RestNeed(remain.addr, end, subPages)
              && subPages' + RestPages(now.addr + now.size, end) == subPages + RestPages(remain.addr, end))
    {
      hide WellFormed, FlatOk, Sound, Shape, Free, Added, SubsAre, SubCost, RestNeed, RestPages;
      now, subPages' := remain, subPages;
      if remain.size < PAGE_SIZE {
        TailCost(D(), remain, u.addr + u.size, subPages);
        ok := AddPiece(now, false, d0, u, subPages);
        subPages' := subPages + {now.addr / PAGE_SIZE};
      } else if remain.addr % PAGE_SIZE != 0 {
        // only the first piece, which mem_add has already registered, can be unaligned
        assert false;
      } else {
        now := now.(size := now.size - now.size % PAGE_SIZE);
        MiddleCost(remain.addr, now.addr + now.size, u.addr + u.size, subPages);
        ok := AddPiece(now, true, d0, u, subPages);
      }
    }

    /** The first lines of mem_add: the part of the section up to the next page boundary. */
    method AddHead(u: Section, ghost subPages: set<nat>) returns (ok: bool, now: Section)
      requires Building() && SectionOk(u) && u.mr.Mem? && Free(D(), u) && SubsAre(D(), subPages)
      modifies this, pages
      ensures now == u.(size := Head(u)) && (now.size != u.size ==> (now.addr + now.size) % PAGE_SIZE == 0)
      ensures ok <==> |old(sections)| + HeadNeed(u, subPages) <= PAGE_SIZE
      ensures ok ==> |sections| == |old(sections)| + HeadNeed(u, subPages)
      ensures ok ==>
        && Building() && Added(old(D()), D(), u, now.addr + now.size)
        && SubsAre(D(), subPages + HeadPages(u))
    {
      hide WellFormed, FlatOk, Sound, Shape, Free, Added, SubsAre, SubCost, InOnePage, Piece;
      ghost var d0 := D();
      AddedNone(d0, u);
      now := u;
      if now.addr % PAGE_SIZE != 0 {
        HeadPiece(u);
        PageRest(now.addr);
        var left := ((now.addr + PAGE_SIZE - 1) % SPACE / PAGE_SIZE * PAGE_SIZE - now.addr) % SPACE;
        now := now.(size := if left < now.size then left else now.size);
        CostIs(d0, now, subPages);
        ok := AddPiece(now, false, d0, u, subPages);
      } else {
        now := now.(size := 0);
        assert subPages + {} == subPages;
        ok := true;
      }
    }

    /** mem_add: aborts exactly when the entries that the section needs do not fit in the table. */
    method MemAdd(u: Section, ghost subPages: set<nat>) returns (ok: bool)
      requires Building() && SectionOk(u) && u.mr.Mem? && Free(D(), u) && SubsAre(D(), subPages)
      modifies this, pages
      ensures ok <==> |old(sections)| + Need(u, subPages) <= PAGE_SIZE
      ensures ok ==> Building() && Added(old(D()), D(), u, u.addr + u.size)
      ensures ok ==> |sections| == |old(sections)| + Need(u, subPages) && SubsAre(D(), subPages + PartialPages(u))
    {
      hide WellFormed, FlatOk, Sound, Shape, Free, Added, SubsAre;
      hide Need, RestNeed, HeadNeed, RestPages, HeadPages, PartialPages, Head;
      ghost var d0, end := D(), u.addr + u.size;
      NeedSplit(u, subPages);
      var remain, now := u, u;
      ok, now := AddHead(u, subPages);
      if !ok {
        return;
      }
      ghost var s := subPages + HeadPages(u);
      PartialSplit(u, subPages);
      while remain.size != now.size
        invariant Building() && Added(d0, D(), u, now.addr + now.size) && SubsAre(D(), s)
        invariant remain.addr == now.addr && now.size <= remain.size && Piece(remain, u)
        invariant remain.addr + remain.size == end
        invariant remain.size != now.size ==> (now.addr + now.size) % PAGE_SIZE == 0
        invariant |sections| + RestNeed(now.addr + now.size, end, s) == |old(sections)| + Need(u, subPages)
        invariant s + RestPages(now.addr + now.size, end) == subPages + PartialPages(u)
        decreases remain.size - now.size
      {
        remain := Section(remain.mr, remain.addr + now.size, remain.size - now.size, remain.offset + now.size);
        ok, now, s := AddNext(remain, d0, u, s);
        if !ok {
          return;
        }
      }
      RestDone(end, s);
      assert s + {} == s;
    }

    /** mem_commit: compressing the tree changes the result of phys_page_find for no address, and leaves no node that
        could still be bypassed. */
    method MemCommit()
      requires Building()
      modifies pages
      ensures Ready() && Weak(old(pages.tree), old(pages.lay), flat)
      ensures forall a :: 0 <= a < SPACE ==> Find(a) == old(Find(a))
      ensures Slim(pages.tree, pages.tree.root, LEVELS)
    {
      ShapeIsWeak(pages.tree, pages.lay, flat);
      hide WellFormed, FlatOk, Sound, Shape, Weak, Slim;
      FindFlatAll();
      pages.CompactAll(flat);
      FindFlatAll();
    }

    lemma FindFlatAll()
      requires Exact(D()) && Weak(pages.tree, pages.lay, flat)
      ensures forall a :: 0 <= a < SPACE ==> Find(a) == At(flat, a / PAGE_SIZE)
    {
      forall a | 0 <= a < SPACE ensures Find(a) == At(flat, a / PAGE_SIZE) {
        WalkFlat(pages.tree, pages.lay, flat, pages.tree.root, LEVELS, 0, a / PAGE_SIZE);
        FoundSection(D(), Walk(pages.tree, pages.tree.root, LEVELS, a / PAGE_SIZE), a);
      }
    }

    /** The cached section serves the address. */
    predicate Hits(m: Mru, a: nat)
      reads this
    {
      m.Cached? && m.section != UNASSIGNED && m.section < |sections| && Covers(sections[m.section], a)
    }

    /** address_space_lookup_region: with resolve_subpage the answer does not depend on the cache. */
    method LookupRegion(a: nat, resolveSubpage: bool) returns (t: nat)
      requires Ready() && a < SPACE
      modifies this`mru
      ensures Ready()
      ensures resolveSubpage ==> t == Resolve(D(), a)
      ensures !resolveSubpage ==> t == if Hits(old(mru), a) then old(mru).section else Find(a)
      ensures t == UNASSIGNED || (4 <= t < |sections| && Covers(sections[t], a))
      ensures mru == if Hits(old(mru), a) then old(mru) else Cached(t)
    {
      hide Weak;
      var update: bool;
      if mru.Cached? && mru.section != UNASSIGNED && Covers(sections[mru.section], a) {
        t := mru.section;
        update := false;
        CachedResolve(D(), t, a);
      } else {
        t := PhysPageFind(a);
        update := true;
        FoundCovers(D(), a);
      }
      if resolveSubpage && sections[t].mr.Subpage? {
        t := subs[sections[t].mr.id].table[a % PAGE_SIZE];
      }
      if update {
        mru := Cached(t);
      }
    }
  }

  /** Pairwise disjoint memory sections. */
  ghost predicate Disjoint(us: seq<Section>) {
    && (forall i :: 0 <= i < |us| ==> SectionOk(us[i]) && us[i].mr.Mem?)
    && forall i, j :: 0 <= i < j < |us| ==>
        us[i].addr + us[i].size <= us[j].addr || us[j].addr + us[j].size <= us[i].addr
  }

  /** The flat specification: an address resolves to a piece of the section covering it, or to nothing. */
  ghost predicate Serves(d: Maps, us: seq<Section>)
    requires WellFormed(d)
  {
    forall a :: 0 <= a < SPACE ==>
      || (Resolve(d, a) == UNASSIGNED && forall i :: 0 <= i < |us| ==> !Covers(us[i], a))
      || (4 <= Resolve(d, a) < |d.sections| && Covers(d.sections[Resolve(d, a)], a)
          && exists i :: 0 <= i < |us| && Covers(us[i], a) && Piece(d.sections[Resolve(d, a)], us[i]))
  }

  lemma ServesFree(d: Maps, us: seq<Section>, u: Section)
    requires Exact(d) && Serves(d, us) && Disjoint(us + [u])
    ensures Free(d, u)
  {
    assert (us + [u])[|us|] == u;
    forall a | u.addr <= a < u.addr + u.size
      ensures Resolve(d, a) == UNASSIGNED
    {
      forall i | 0 <= i < |us| ensures !Covers(us[i], a) {
        assert (us + [u])[i] == us[i] && (us + [u])[|us|] == u;
        CoversRange(us[i], a);
      }
    }
  }

  lemma ServesAdd(d: Maps, d': Maps, us: seq<Section>, u: Section)
    requires Exact(d) && Exact(d') && Serves(d, us) && Disjoint(us + [u])
    requires Added(d, d', u, u.addr + u.size)
    ensures Serves(d', us + [u])
  {
    var us' := us + [u];
    assert us'[|us|] == u;
    forall a | 0 <= a < SPACE
      ensures || (Resolve(d', a) == UNASSIGNED && forall i :: 0 <= i < |us'| ==> !Covers(us'[i], a))
              || (4 <= Resolve(d', a) < |d'.sections| && Covers(d'.sections[Resolve(d', a)], a)
                  && exists i :: 0 <= i < |us'| && Covers(us'[i], a) && Piece(d'.sections[Resolve(d', a)], us'[i]))
    {
      CoversRange(u, a);
      if !Covers(u, a) && Resolve(d, a) != UNASSIGNED {
        var i :| 0 <= i < |us| && Covers(us[i], a) && Piece(d.sections[Resolve(d, a)], us[i]);
        assert us'[i] == us[i];
      }
    }
  }

  /** The pieces of all sections, and the pages that some section covers in part. */
  function AllPieces(us: seq<Section>): nat {
    if us == [] then 0 else AllPieces(us[..|us| - 1]) + Pieces(us[|us| - 1])
  }

  function AllPartial(us: seq<Section>): set<nat> {
    if us == [] then {} else AllPartial(us[..|us| - 1]) + PartialPages(us[|us| - 1])
  }

  /** The entries of the section table that disjoint sections need: one for each piece, and one container for
      each page covered in part. */
  ghost function Entries(us: seq<Section>): nat {
    AllPieces(us) + |AllPartial(us)|
  }

  lemma EntriesNext(us: seq<Section>, n: nat)
    requires n < |us|
    ensures AllPartial(us[..n + 1]) == AllPartial(us[..n]) + PartialPages(us[n])
    ensures Entries(us[..n + 1]) == Entries(us[..n]) + Need(us[n], AllPartial(us[..n]))
  {
    hide Pieces, PartialPages;
    assert us[..n + 1][..n] == us[..n];
    var a, b := AllPartial(us[..n]), PartialPages(us[n]);
    assert a + b == a + (b - a);
  }

  lemma {:induction false} EntriesGrow(us: seq<Section>, n: nat)
    requires n <= |us|
    ensures Entries(us[..n]) <= Entries(us)
    decreases |us| - n
  {
    hide Entries;
    if n < |us| {
      EntriesNext(us, n);
      EntriesGrow(us, n + 1);
    } else {
      assert us[..n] == us;
    }
  }

  /** mem_begin, mem_add on each of any pairwise disjoint sections, mem_commit. Aborts exactly when the sections
      need more entries than the table has. */
  method Publish(us: seq<Section>) returns (ok: bool, d: AddressSpaceDispatch)
    requires Disjoint(us)
    ensures ok <==> 4 + Entries(us) <= PAGE_SIZE
    ensures fresh(d) && fresh(d.pages) && (ok ==> d.Ready() && Serves(d.D(), us))
  {
    hide Shape, Weak, Added, Free, FlatOk, Sound, SubsAre, Need, Entries, AllPartial;
    d := new AddressSpaceDispatch();
    NothingYet(d.D(), us);
    var n := 0;
    while n < |us|
      invariant n <= |us| && fresh(d) && fresh(d.pages) && d.Building()
      invariant |d.sections| == 4 + Entries(us[..n]) && SubsAre(d.D(), AllPartial(us[..n]))
      invariant Serves(d.D(), us[..n])
    {
      assert us[..n + 1] == us[..n] + [us[n]];
      ServesFree(d.D(), us[..n], us[n]);
      EntriesNext(us, n);
      EntriesGrow(us, n + 1);
      ghost var m := d.D();
      ok := d.MemAdd(us[n], AllPartial(us[..n]));
      if !ok {
        return;
      }
      ServesAdd(m, d.D(), us[..n], us[n]);
      n := n + 1;
    }
    assert us[..n] == us;
    d.MemCommit();
    ok := true;
  }

  lemma NothingYet(d: Maps, us: seq<Section>)
    requires d.flat == Empty
    ensures Entries(us[..0]) == 0 && SubsAre(d, AllPartial(us[..0]))
  {
  }
}
