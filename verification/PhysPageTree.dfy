/** The physical page map of exec.c as values: entries, nodes and the invariants that tie them
    to a flat map from page numbers to section numbers. */
module PhysPageTree {
  import opened RadixGeometry

  const NIL: nat := 0x3ffffff
  const UNASSIGNED: nat := 0

  /** PhysPageEntry: `skip` levels to the next node (0 for a leaf), `ptr` a node or a section. */
  datatype Entry = Entry(skip: nat, ptr: nat)
  type Node = n: seq<Entry> | |n| == L2_SIZE witness seq(L2_SIZE, i => Entry(0, 0))

  datatype Tree = Tree(root: Entry, nodes: seq<Node>)

  /** The address of an entry: the dispatch's own phys_map, or one slot of a node. */
  datatype Ref = Root | Slot(node: nat, i: nat)

  predicate RefIn(t: Tree, r: Ref) {
    r.Slot? ==> r.node < |t.nodes| && r.i < L2_SIZE
  }

  function Get(t: Tree, r: Ref): Entry
    requires RefIn(t, r)
  {
    if r.Root? then t.root else t.nodes[r.node][r.i]
  }

  function Put(t: Tree, r: Ref, e: Entry): (t': Tree)
    requires RefIn(t, r)
    ensures |t'.nodes| == |t.nodes|
  {
    if r.Root? then t.(root := e) else t.(nodes := t.nodes[r.node := t.nodes[r.node][r.i := e]])
  }

  /** The flat page map, as the history of the ranges that were assigned. */
  datatype Flat = Empty | Assign(rest: Flat, start: nat, count: nat, leaf: nat)

  function At(f: Flat, page: int): nat {
    match f
    case Empty => UNASSIGNED
    case Assign(rest, start, count, leaf) => if start <= page < start + count then leaf else At(rest, page)
  }

  ghost predicate Unassigned(f: Flat, lo: int, hi: int) {
    forall page :: lo <= page < hi ==> At(f, page) == UNASSIGNED
  }

  /** `s` is a section number that some assignment put into the map. */
  predicate Assigned(f: Flat, s: nat) {
    f.Assign? && (f.leaf == s || Assigned(f.rest, s))
  }

  /** Where a node sits: it maps the pages base .. base + Span(level + 1). */
  datatype Place = Place(level: nat, base: nat)

  predicate PlaceOk(p: Place) {
    p.level < LEVELS && Aligned(p.base, p.level + 1) && p.base + Span(p.level + 1) <= Span(LEVELS)
  }

  /** Ghost layout of the node array: the place of each node and a page that caused its allocation. */
  datatype Layout = Layout(place: seq<Place>, used: seq<nat>)

  predicate RefAt(lay: Layout, r: Ref, level: nat, lo: nat) {
    match r
    case Root => level == LEVELS && lo == 0
    case Slot(n, i) =>
      && n < |lay.place| && i < L2_SIZE && lay.place[n].level == level
      && lo == SlotLo(lay.place[n].base, level, i)
  }

  /** Build-time meaning of the entry of the slot at `level` that starts at page `lo`. */
  ghost predicate SlotOk(e: Entry, lay: Layout, f: Flat, lo: nat, level: nat) {
    && e.skip <= 1
    && (e.skip == 0 ==>
          && (level == 0 || e.ptr != UNASSIGNED)
          && e.ptr != NIL
          && (e.ptr == UNASSIGNED || Assigned(f, e.ptr))
          && forall page :: InSlot(page, lo, level) ==> At(f, page) == e.ptr)
    && (e.skip == 1 ==>
          && level >= 1
          && (e.ptr == NIL ==> forall page :: InSlot(page, lo, level) ==> At(f, page) == UNASSIGNED)
          && (e.ptr != NIL ==> e.ptr < |lay.place| && lay.place[e.ptr] == Place(level - 1, lo)))
  }

  predicate IsPointer(e: Entry) {
    e.skip == 1 && e.ptr != NIL
  }

  /** Every node has its place, and a page in it is assigned or is about to be (`pend`). */
  ghost predicate Places(t: Tree, lay: Layout, f: Flat, pend: int, plevel: nat) {
    && |lay.place| == |lay.used| == |t.nodes| <= NIL
    && forall n :: 0 <= n < |lay.place| ==>
         && PlaceOk(lay.place[n])
         && InSlot(lay.used[n], lay.place[n].base, lay.place[n].level + 1)
         && (At(f, lay.used[n]) != UNASSIGNED || (lay.used[n] == pend && lay.place[n].level >= plevel))
  }

  ghost predicate Distinct(lay: Layout) {
    forall m, n :: 0 <= m < n < |lay.place| ==> lay.place[m] != lay.place[n]
  }

  ghost predicate Slots(t: Tree, lay: Layout, f: Flat) {
    && |lay.place| == |t.nodes|
    && SlotOk(t.root, lay, f, 0, LEVELS)
    && forall n, i :: 0 <= n < |t.nodes| && 0 <= i < L2_SIZE ==>
         SlotOk(t.nodes[n][i], lay, f, SlotLo(lay.place[n].base, lay.place[n].level, i), lay.place[n].level)
  }

  ghost predicate Shape(t: Tree, lay: Layout, f: Flat, pend: int, plevel: nat) {
    Places(t, lay, f, pend, plevel) && Distinct(lay) && Slots(t, lay, f)
  }

  /** The slots above `level` that hold `page` lead to nodes: the path to the page is built. */
  ghost predicate Open(t: Tree, lay: Layout, page: nat, level: nat) {
    && |lay.place| == |t.nodes|
    && (level < LEVELS ==> IsPointer(t.root))
    && forall n, i :: 0 <= n < |t.nodes| && 0 <= i < L2_SIZE && lay.place[n].level > level
                      && InSlot(page, SlotLo(lay.place[n].base, lay.place[n].level, i), lay.place[n].level) ==>
         IsPointer(t.nodes[n][i])
  }

  // ------------------------------------------------------------------------------------------
  // Allocating a node below an empty slot

  function FreshNode(leaf: bool): Node {
    seq(L2_SIZE, i => if leaf then Entry(0, UNASSIGNED) else Entry(1, NIL))
  }

  function AllocTree(t: Tree, r: Ref, level: nat): (t': Tree)
    requires RefIn(t, r)
  {
    Put(t.(nodes := t.nodes + [FreshNode(level == 0)]), r, Get(t, r).(ptr := |t.nodes|))
  }

  function AllocLayout(lay: Layout, level: nat, lo: nat, page: nat): Layout {
    Layout(lay.place + [Place(level, lo)], lay.used + [page])
  }

  lemma SlotOkExtends(e: Entry, lay: Layout, lay': Layout, f: Flat, lo: nat, level: nat)
    requires SlotOk(e, lay, f, lo, level) && lay.place <= lay'.place
    ensures SlotOk(e, lay', f, lo, level)
  {
  }

  lemma AllocSlots(t: Tree, lay: Layout, f: Flat, r: Ref, level: nat, lo: nat, page: nat)
    requires Slots(t, lay, f) && RefIn(t, r) && RefAt(lay, r, level + 1, lo) && level < LEVELS
    requires Get(t, r).skip == 1 && Get(t, r).ptr == NIL && |t.nodes| < NIL
    requires Aligned(lo, level + 1)
    ensures Slots(AllocTree(t, r, level), AllocLayout(lay, level, lo, page), f)
  {
    var t', lay' := AllocTree(t, r, level), AllocLayout(lay, level, lo, page);
    var m := |t.nodes|;
    assert lay.place <= lay'.place;
    SlotOkExtends(t.root, lay, lay', f, 0, LEVELS);
    forall n, i | 0 <= n < |t'.nodes| && 0 <= i < L2_SIZE
      ensures SlotOk(t'.nodes[n][i], lay', f, SlotLo(lay'.place[n].base, lay'.place[n].level, i), lay'.place[n].level)
    {
      if n == m {
        SlotAligned(lo, level, i);
        assert t'.nodes[n][i] == if level == 0 then Entry(0, UNASSIGNED) else Entry(1, NIL);
      } else if r == Slot(n, i) {
        assert t'.nodes[n][i] == Entry(1, m);
      } else {
        assert t'.nodes[n][i] == t.nodes[n][i];
        SlotOkExtends(t.nodes[n][i], lay, lay', f, SlotLo(lay.place[n].base, lay.place[n].level, i),
            lay.place[n].level);
      }
    }
  }

  /** A node inside a block without assigned pages is on the pending path. */
  lemma NodeInside(t: Tree, lay: Layout, f: Flat, pend: int, plevel: nat, n: nat, lo: nat, level: nat)
    requires Places(t, lay, f, pend, plevel) && n < |lay.place|
    requires forall page :: InSlot(page, lo, level) ==> At(f, page) == UNASSIGNED
    ensures lo <= lay.place[n].base && lay.place[n].base + Span(lay.place[n].level + 1) <= lo + Span(level) ==>
              lay.place[n].level >= plevel
  {
    assert At(f, lay.used[n]) != UNASSIGNED ==> !InSlot(lay.used[n], lo, level);
  }

  lemma AllocDistinct(t: Tree, lay: Layout, f: Flat, level: nat, lo: nat, page: nat)
    requires Places(t, lay, f, page, level + 1) && Distinct(lay)
    requires forall p :: InSlot(p, lo, level + 1) ==> At(f, p) == UNASSIGNED
    ensures Distinct(AllocLayout(lay, level, lo, page))
  {
    forall n | 0 <= n < |lay.place|
      ensures lay.place[n] != Place(level, lo)
    {
      NodeInside(t, lay, f, page, level + 1, n, lo, level + 1);
    }
  }

  lemma AllocShape(t: Tree, lay: Layout, f: Flat, r: Ref, level: nat, lo: nat, page: nat)
    requires Shape(t, lay, f, page, level + 1) && RefIn(t, r) && RefAt(lay, r, level + 1, lo) && level < LEVELS
    requires Get(t, r) == Entry(1, NIL) && |t.nodes| < NIL && InSlot(page, lo, level + 1)
    ensures Aligned(lo, level + 1) && lo + Span(level + 1) <= Span(LEVELS)
    ensures Shape(AllocTree(t, r, level), AllocLayout(lay, level, lo, page), f, page, level)
  {
    RefBlock(t, lay, f, page, level + 1, r, level + 1, lo);
    AllocSlots(t, lay, f, r, level, lo, page);
    assert SlotOk(Get(t, r), lay, f, lo, level + 1);
    AllocDistinct(t, lay, f, level, lo, page);
  }

  lemma RefBlock(t: Tree, lay: Layout, f: Flat, pend: int, plevel: nat, r: Ref, level: nat, lo: nat)
    requires Places(t, lay, f, pend, plevel) && RefAt(lay, r, level, lo)
    ensures Aligned(lo, level) && lo + Span(level) <= Span(LEVELS)
  {
    if r.Slot? {
      SlotAligned(lay.place[r.node].base, level, r.i);
    }
  }

  /** Two slots of one level that hold the same page are the same slot. */
  lemma SameSlot(lay: Layout, m: nat, j: nat, n: nat, i: nat, page: nat)
    requires Distinct(lay) && m < |lay.place| && n < |lay.place| && j < L2_SIZE && i < L2_SIZE
    requires PlaceOk(lay.place[m]) && PlaceOk(lay.place[n]) && lay.place[m].level == lay.place[n].level
    requires InSlot(page, SlotLo(lay.place[m].base, lay.place[m].level, j), lay.place[m].level)
    requires InSlot(page, SlotLo(lay.place[n].base, lay.place[n].level, i), lay.place[n].level)
    ensures m == n && j == i
  {
    var level := lay.place[m].level;
    SlotAligned(lay.place[m].base, level, j);
    SlotAligned(lay.place[n].base, level, i);
    Nest(lay.place[m].base, level + 1, lay.place[n].base, level + 1);
    assert lay.place[m] == lay.place[n];
    assert m == n;
    if j < i { SlotsDisjoint(lay.place[m].base, level, j, i); }
    if i < j { SlotsDisjoint(lay.place[m].base, level, i, j); }
  }

  /** The allocation keeps the path to `page` open one level further down. */
  lemma OpenBelow(t: Tree, lay: Layout, r: Ref, level: nat, lo: nat, page: nat)
    requires Open(t, lay, page, level + 1) && RefIn(t, r) && RefAt(lay, r, level + 1, lo) && level < LEVELS
    requires Distinct(lay) && forall n :: 0 <= n < |lay.place| ==> PlaceOk(lay.place[n])
    requires IsPointer(Get(t, r)) && InSlot(page, lo, level + 1)
    ensures Open(t, lay, page, level)
  {
    forall n, i | 0 <= n < |t.nodes| && 0 <= i < L2_SIZE && lay.place[n].level > level
                  && InSlot(page, SlotLo(lay.place[n].base, lay.place[n].level, i), lay.place[n].level)
      ensures IsPointer(t.nodes[n][i])
    {
      if lay.place[n].level == level + 1 {
        if r.Slot? {
          SameSlot(lay, r.node, r.i, n, i, page);
        }
      }
    }
  }

  // ------------------------------------------------------------------------------------------
  // Making one slot a leaf

  /** `g'` is `g` with the pages lo .. hi assigned to `leaf`. */
  ghost predicate Extends(g: Flat, g': Flat, lo: int, hi: int, leaf: nat) {
    && (forall page {:trigger At(g', page)} {:trigger At(g, page)} :: At(g', page) == if lo <= page < hi then leaf
        else At(g, page))
    && (forall s {:trigger Assigned(g', s)} {:trigger Assigned(g, s)} :: Assigned(g, s) ==> Assigned(g', s))
    && (lo < hi ==> Assigned(g', leaf))
  }

  /** What the entry of a slot must look like for the slot not to care about the pages lo .. hi. */
  lemma SlotOkOutside(e: Entry, lay: Layout, g: Flat, g': Flat, lo: int, hi: int, leaf: nat, slotLo: nat, level: nat)
    requires SlotOk(e, lay, g, slotLo, level) && Extends(g, g', lo, hi, leaf)
    requires IsPointer(e) || slotLo + Span(level) <= lo || hi <= slotLo
    ensures SlotOk(e, lay, g', slotLo, level)
  {
  }

  /** Every slot other than the one being set is a pointer on the open path or lies outside it. */
  lemma OtherSlot(t: Tree, lay: Layout, g: Flat, p: nat, k: nat, cur: nat, n: nat, i: nat)
    requires p < |lay.place| && k < L2_SIZE && Shape(t, lay, g, cur, lay.place[p].level)
    requires cur == SlotLo(lay.place[p].base, lay.place[p].level, k)
    requires Open(t, lay, cur, lay.place[p].level)
    requires forall page :: InSlot(page, cur, lay.place[p].level) ==> At(g, page) == UNASSIGNED
    requires n < |lay.place| && i < L2_SIZE && !(n == p && i == k)
    ensures var lo := SlotLo(lay.place[n].base, lay.place[n].level, i);
      || IsPointer(t.nodes[n][i])
      || lo + Span(lay.place[n].level) <= cur
      || cur + Span(lay.place[p].level) <= lo
  {
    var level, level' := lay.place[p].level, lay.place[n].level;
    var lo := SlotLo(lay.place[n].base, level', i);
    SlotAligned(lay.place[p].base, level, k);
    SlotAligned(lay.place[n].base, level', i);
    if level' > level {
      Nest(cur, level, lo, level');
    } else if level' == level {
      Nest(cur, level, lo, level);
      if lo == cur {
        SameSlot(lay, p, k, n, i, cur);
      }
    } else {
      Nest(lay.place[n].base, level' + 1, cur, level);
      NodeInside(t, lay, g, cur, level, n, cur, level);
    }
  }

  lemma SetLeafSlots(t: Tree, lay: Layout, g: Flat, g': Flat, p: nat, k: nat, cur: nat, leaf: nat)
    requires p < |lay.place| && k < L2_SIZE && Shape(t, lay, g, cur, lay.place[p].level)
    requires cur == SlotLo(lay.place[p].base, lay.place[p].level, k)
    requires Open(t, lay, cur, lay.place[p].level)
    requires Extends(g, g', cur, cur + Span(lay.place[p].level), leaf)
    requires forall page :: InSlot(page, cur, lay.place[p].level) ==> At(g, page) == UNASSIGNED
    requires leaf != UNASSIGNED && leaf != NIL
    ensures Slots(Put(t, Slot(p, k), Entry(0, leaf)), lay, g')
  {
    var level := lay.place[p].level;
    var t' := Put(t, Slot(p, k), Entry(0, leaf));
    SlotOkOutside(t.root, lay, g, g', cur, cur + Span(level), leaf, 0, LEVELS);
    forall n, i | 0 <= n < |t'.nodes| && 0 <= i < L2_SIZE
      ensures SlotOk(t'.nodes[n][i], lay, g', SlotLo(lay.place[n].base, lay.place[n].level, i), lay.place[n].level)
    {
      if n == p && i == k {
        assert t'.nodes[n][i] == Entry(0, leaf);
      } else {
        OtherSlot(t, lay, g, p, k, cur, n, i);
        assert t'.nodes[n][i] == t.nodes[n][i];
        SlotOkOutside(t.nodes[n][i], lay, g, g', cur, cur + Span(level), leaf,
                      SlotLo(lay.place[n].base, lay.place[n].level, i), lay.place[n].level);
      }
    }
  }

  /** Once the pending page is assigned, nothing is pending any more. */
  lemma PlacesSettled(t: Tree, lay: Layout, g: Flat, g': Flat, pend: nat, plevel: nat, hi: int, leaf: nat, t': Tree,
      pend': int, plevel': nat)
    requires Places(t, lay, g, pend, plevel) && Extends(g, g', pend, hi, leaf) && pend < hi && leaf != UNASSIGNED
    requires |t'.nodes| == |t.nodes|
    ensures Places(t', lay, g', pend', plevel')
  {
  }

  lemma SetLeafShape(t: Tree, lay: Layout, g: Flat, g': Flat, p: nat, k: nat, cur: nat, leaf: nat, pend': int,
      plevel': nat)
    requires p < |lay.place| && k < L2_SIZE && Shape(t, lay, g, cur, lay.place[p].level)
    requires cur == SlotLo(lay.place[p].base, lay.place[p].level, k)
    requires Open(t, lay, cur, lay.place[p].level)
    requires Extends(g, g', cur, cur + Span(lay.place[p].level), leaf)
    requires forall page :: InSlot(page, cur, lay.place[p].level) ==> At(g, page) == UNASSIGNED
    requires leaf != UNASSIGNED && leaf != NIL
    ensures Shape(Put(t, Slot(p, k), Entry(0, leaf)), lay, g', pend', plevel')
  {
    SetLeafSlots(t, lay, g, g', p, k, cur, leaf);
    PlacesSettled(t, lay, g, g', cur, lay.place[p].level, cur + Span(lay.place[p].level), leaf,
                  Put(t, Slot(p, k), Entry(0, leaf)), pend', plevel');
  }

  /** The invariant only looks at the values of the flat map. */
  lemma ShapeSame(t: Tree, lay: Layout, g: Flat, g': Flat, pend: int, plevel: nat)
    requires Shape(t, lay, g, pend, plevel) && Extends(g, g', 0, 0, UNASSIGNED)
    ensures Shape(t, lay, g', pend, plevel)
  {
    SlotOkOutside(t.root, lay, g, g', 0, 0, UNASSIGNED, 0, LEVELS);
    forall n, i | 0 <= n < |t.nodes| && 0 <= i < L2_SIZE
      ensures SlotOk(t.nodes[n][i], lay, g', SlotLo(lay.place[n].base, lay.place[n].level, i), lay.place[n].level)
    {
      SlotOkOutside(t.nodes[n][i], lay, g, g', 0, 0, UNASSIGNED, SlotLo(lay.place[n].base, lay.place[n].level, i),
          lay.place[n].level);
    }
  }

  // ------------------------------------------------------------------------------------------
  // One call of phys_page_set_level

  /** Only the slot `lp` and nodes at or below `level` have changed; nodes have only been added. */
  ghost predicate Keeps(t: Tree, lay: Layout, t': Tree, lay': Layout, level: nat, lp: Ref) {
    && |lay.place| == |t.nodes| <= |t'.nodes| == |lay'.place|
    && lay.place <= lay'.place
    && (lp.Slot? ==> t'.root == t.root)
    && (forall n :: |lay.place| <= n < |lay'.place| ==> lay'.place[n].level <= level)
    && forall n, i {:trigger t'.nodes[n][i]} {:trigger t.nodes[n][i]} ::
         (0 <= n < |t.nodes| && 0 <= i < L2_SIZE && lay.place[n].level > level && lp != Slot(n, i)) ==>
           t'.nodes[n][i] == t.nodes[n][i]
  }

  lemma OpenAlloc(t: Tree, lay: Layout, r: Ref, level: nat, lo: nat, page: nat)
    requires Open(t, lay, page, level + 1) && RefIn(t, r) && RefAt(lay, r, level + 1, lo) && level < LEVELS
    requires Get(t, r) == Entry(1, NIL) && |t.nodes| < NIL && |lay.place| == |t.nodes|
    ensures Open(AllocTree(t, r, level), AllocLayout(lay, level, lo, page), page, level + 1)
    ensures Keeps(t, lay, AllocTree(t, r, level), AllocLayout(lay, level, lo, page), level, r)
  {
  }

  /** Descending through an empty slot: the new node is part of an open, well-shaped tree. */
  lemma DescendAlloc(t: Tree, lay: Layout, f: Flat, r: Ref, level: nat, lo: nat, page: nat)
    requires Shape(t, lay, f, page, level + 1) && Open(t, lay, page, level + 1)
    requires RefIn(t, r) && RefAt(lay, r, level + 1, lo) && level < LEVELS
    requires Get(t, r) == Entry(1, NIL) && |t.nodes| < NIL && InSlot(page, lo, level + 1)
    ensures var t', lay' := AllocTree(t, r, level), AllocLayout(lay, level, lo, page);
      Shape(t', lay', f, page, level) && Open(t', lay', page, level) && Keeps(t, lay, t', lay', level, r)
  {
    AllocShape(t, lay, f, r, level, lo, page);
    OpenAlloc(t, lay, r, level, lo, page);
    OpenBelow(AllocTree(t, r, level), AllocLayout(lay, level, lo, page), r, level, lo, page);
  }

  /** Descending through a slot that already leads to a node: a page to be assigned never meets a leaf. */
  lemma DescendPointer(t: Tree, lay: Layout, f: Flat, r: Ref, level: nat, lo: nat, page: nat)
    requires Shape(t, lay, f, page, level + 1) && Open(t, lay, page, level + 1)
    requires RefIn(t, r) && RefAt(lay, r, level + 1, lo) && level < LEVELS
    requires At(f, page) == UNASSIGNED && InSlot(page, lo, level + 1)
    ensures Get(t, r).skip == 1
    ensures Get(t, r).ptr != NIL ==>
              && Shape(t, lay, f, page, level) && Open(t, lay, page, level) && Keeps(t, lay, t, lay, level, r)
              && Get(t, r).ptr < |t.nodes| && lay.place[Get(t, r).ptr] == Place(level, lo)
  {
    hide Keeps, Open, Slots, Span;
    SlotOkAt(t, lay, f, r, level + 1, lo);
    if Get(t, r).ptr != NIL {
      OpenBelow(t, lay, r, level, lo, page);
      KeepsSame(t, lay, level, r);
    }
  }

  lemma SlotOkAt(t: Tree, lay: Layout, f: Flat, r: Ref, level: nat, lo: nat)
    requires Slots(t, lay, f) && RefIn(t, r) && RefAt(lay, r, level, lo)
    ensures SlotOk(Get(t, r), lay, f, lo, level)
  {
  }

  lemma KeepsSame(t: Tree, lay: Layout, level: nat, lp: Ref)
    requires |lay.place| == |t.nodes|
    ensures Keeps(t, lay, t, lay, level, lp)
  {
  }

  /** The path to one page of a block is the path to every page of it. */
  lemma OpenSame(t: Tree, lay: Layout, lo: nat, level: nat, page: nat, page': nat)
    requires Open(t, lay, page, level) && Aligned(lo, level + 1)
    requires forall n :: 0 <= n < |lay.place| ==> PlaceOk(lay.place[n])
    requires InSlot(page, lo, level + 1) && InSlot(page', lo, level + 1)
    ensures Open(t, lay, page', level)
  {
    forall n, i | 0 <= n < |t.nodes| && 0 <= i < L2_SIZE && lay.place[n].level > level
                  && InSlot(page', SlotLo(lay.place[n].base, lay.place[n].level, i), lay.place[n].level)
      ensures IsPointer(t.nodes[n][i])
    {
      SlotAligned(lay.place[n].base, lay.place[n].level, i);
      Nest(lo, level + 1, SlotLo(lay.place[n].base, lay.place[n].level, i), lay.place[n].level);
    }
  }

  lemma KeepsOpen(t: Tree, lay: Layout, t': Tree, lay': Layout, level: nat, lp: Ref, page: nat)
    requires Keeps(t, lay, t', lay', level, lp) && Open(t, lay, page, level + 1)
    requires lp.Slot? && lp.node < |lay.place| && lay.place[lp.node].level <= level + 1
    ensures Open(t', lay', page, level + 1)
  {
  }

  lemma KeepsTrans(t: Tree, lay: Layout, t1: Tree, lay1: Layout, t2: Tree, lay2: Layout, level: nat, lp: Ref,
      level': nat, lp': Ref)
    requires Keeps(t, lay, t1, lay1, level, lp) && Keeps(t1, lay1, t2, lay2, level', lp')
    requires level' <= level && lp'.Slot? && lp'.node < |lay1.place| && lay1.place[lp'.node].level <= level
    ensures Keeps(t, lay, t2, lay2, level, lp)
  {
  }

  /** A range assigned in two adjacent parts is assigned as a whole. */
  lemma AssignJoin(f: Flat, start: nat, mid: nat, end: nat, leaf: nat)
    requires start <= mid <= end
    ensures Extends(Assign(Assign(f, start, mid - start, leaf), mid, end - mid, leaf),
                    Assign(f, start, end - start, leaf), 0, 0, UNASSIGNED)
    ensures Extends(Assign(f, start, mid - start, leaf), Assign(f, start, end - start, leaf), mid, end, leaf)
  {
    var part, whole := Assign(f, start, mid - start, leaf), Assign(f, start, end - start, leaf);
    var parts := Assign(part, mid, end - mid, leaf);
    forall page ensures At(parts, page) == At(whole, page) {}
    forall s ensures Assigned(parts, s) ==> Assigned(whole, s) {
      assert Assigned(parts, s) ==> s == leaf || Assigned(part, s);
    }
  }

  ghost predicate LoopPos(t: Tree, lay: Layout, p: nat, level: nat, lo: nat, index0: nat, nb0: nat, index: nat,
      nb: nat, i: nat) {
    && i <= L2_SIZE && level < LEVELS && InSlot(index0, lo, level + 1)
    && index0 <= index <= lo + Span(level + 1) && index + nb == index0 + nb0
    && p < |t.nodes| && p < |lay.place| && lay.place[p] == Place(level, lo)
  }

  /** The loop of phys_page_set_level over the slots of node `p`: the pages index0 .. index are done. */
  ghost predicate LoopInv(t: Tree, lay: Layout, f: Flat, leaf: nat, p: nat, level: nat, lo: nat, index0: nat, nb0: nat,
                          index: nat, nb: nat, i: nat)
  {
    && LoopPos(t, lay, p, level, lo, index0, nb0, index, nb, i)
    && Shape(t, lay, Assign(f, index0, index - index0, leaf), if index == index0 then index0 else -1, level)
    && Open(t, lay, lo, level)
    && Unassigned(f, index0, index0 + nb0)
    && (index0 < index && nb != 0 ==> index == SlotLo(lo, level, i))
    && (index == index0 ==> i < L2_SIZE && InSlot(index, SlotLo(lo, level, i), level))
  }

  lemma NodePlace(t: Tree, lay: Layout, f: Flat, pend: int, plevel: nat, p: nat)
    requires Places(t, lay, f, pend, plevel) && p < |lay.place|
    ensures PlaceOk(lay.place[p])
  {
  }

  lemma PutKeeps(t: Tree, lay: Layout, p: nat, i: nat, e: Entry)
    requires |lay.place| == |t.nodes| && p < |t.nodes| && i < L2_SIZE
    ensures Keeps(t, lay, Put(t, Slot(p, i), e), lay, lay.place[p].level, Slot(p, i))
  {
  }

  lemma LeafOpen(t: Tree, lay: Layout, p: nat, i: nat, e: Entry, page: nat)
    requires |lay.place| == |t.nodes| && p < |t.nodes| && i < L2_SIZE && Open(t, lay, page, lay.place[p].level)
    ensures Open(Put(t, Slot(p, i), e), lay, page, lay.place[p].level)
  {
  }

  /** Entering the loop. */
  lemma LoopStart(t: Tree, lay: Layout, f: Flat, leaf: nat, p: nat, level: nat, lo: nat, index: nat, nb: nat)
    requires Shape(t, lay, f, index, level) && Open(t, lay, index, level) && level < LEVELS
    requires InSlot(index, lo, level + 1) && Unassigned(f, index, index + nb)
    requires p < |t.nodes| && p < |lay.place| && lay.place[p] == Place(level, lo)
    ensures LoopInv(t, lay, f, leaf, p, level, lo, index, nb, index, nb, SlotIndex(index, level))
    ensures LoopPos(t, lay, p, level, lo, index, nb, index, nb, SlotIndex(index, level))
  {
    NodePlace(t, lay, f, index, level, p);
    SlotOfPage(index, lo, level);
    OpenSame(t, lay, lo, level, index, lo);
    ShapeSame(t, lay, f, Assign(f, index, 0, leaf), index, level);
  }

  /** At most one slot boundary lies in a slot. */
  lemma AlignedInSlot(index: nat, lo: nat, level: nat, i: nat)
    requires Aligned(index, level) && Aligned(lo, level + 1) && i < L2_SIZE
    requires InSlot(index, SlotLo(lo, level, i), level)
    ensures index == SlotLo(lo, level, i)
  {
    SlotAligned(lo, level, i);
    Nest(index, level, SlotLo(lo, level, i), level);
  }

  lemma NextSlot(lo: nat, level: nat, i: nat)
    ensures SlotLo(lo, level, i) + Span(level) == SlotLo(lo, level, i + 1)
    ensures SlotLo(lo, level, L2_SIZE) == lo + Span(level + 1)
  {
    assert (i + 1) * Span(level) == i * Span(level) + Span(level);
  }

  /** The pages still to be assigned are free. */
  lemma StillFree(f: Flat, index0: nat, nb0: nat, index: nat, leaf: nat, level: nat)
    requires Unassigned(f, index0, index0 + nb0) && index0 <= index && index + Span(level) <= index0 + nb0
    ensures forall page: nat :: InSlot(page, index, level) ==>
        At(Assign(f, index0, index - index0, leaf), page) == UNASSIGNED
  {
  }

  /** A whole slot becomes a leaf. */
  lemma LoopLeaf(t: Tree, lay: Layout, f: Flat, leaf: nat, p: nat, level: nat, lo: nat, index0: nat, nb0: nat,
                 index: nat, nb: nat, i: nat)
    requires LoopInv(t, lay, f, leaf, p, level, lo, index0, nb0, index, nb, i) && i < L2_SIZE
    requires Aligned(index, level) && nb >= Span(level) && leaf != UNASSIGNED && leaf != NIL
    ensures index == SlotLo(lo, level, i)
    ensures LoopInv(Put(t, Slot(p, i), Entry(0, leaf)), lay, f, leaf, p, level, lo, index0, nb0, index + Span(level),
        nb - Span(level), i + 1)
    ensures LoopPos(Put(t, Slot(p, i), Entry(0, leaf)), lay, p, level, lo, index0, nb0, index + Span(level),
        nb - Span(level), i + 1)
    ensures Keeps(t, lay, Put(t, Slot(p, i), Entry(0, leaf)), lay, level, Slot(p, i))
  {
    hide Slots, Distinct, Keeps, Open, Unassigned, Span, SlotLo;
    var g, g' := Assign(f, index0, index - index0, leaf), Assign(f, index0, index + Span(level) - index0, leaf);
    assert Shape(t, lay, g, index, level);
    NodePlace(t, lay, g, index, level, p);
    if index == index0 { AlignedInSlot(index, lo, level, i); }
    SlotAligned(lo, level, i);
    OpenSame(t, lay, lo, level, lo, index);
    AssignJoin(f, index0, index, index + Span(level), leaf);
    StillFree(f, index0, nb0, index, leaf, level);
    SetLeafShape(t, lay, g, g', p, i, index, leaf, -1, level);
    PutKeeps(t, lay, p, i, Entry(0, leaf));
    LeafOpen(t, lay, p, i, Entry(0, leaf), lo);
    NextSlot(lo, level, i);
  }

  /** The state in which the recursive call for a partly covered slot is made. */
  lemma LoopChildReady(t: Tree, lay: Layout, f: Flat, leaf: nat, p: nat, level: nat, lo: nat, index0: nat, nb0: nat,
                       index: nat, nb: nat, i: nat)
    requires LoopInv(t, lay, f, leaf, p, level, lo, index0, nb0, index, nb, i) && i < L2_SIZE && nb > 0
    requires !(Aligned(index, level) && nb >= Span(level))
    ensures level >= 1 && Aligned(lo, level + 1) && InSlot(index, SlotLo(lo, level, i), level)
    ensures lo <= SlotLo(lo, level, i) && SlotLo(lo, level, i) + Span(level) <= lo + Span(level + 1)
    ensures index0 < index ==> index == SlotLo(lo, level, i)
    ensures Aligned(index, level) <==> index == SlotLo(lo, level, i)
    ensures index0 == lo ==> Aligned(index0, level)
    ensures RefIn(t, Slot(p, i)) && RefAt(lay, Slot(p, i), level, SlotLo(lo, level, i))
    ensures Shape(t, lay, Assign(f, index0, index - index0, leaf), index, level) && Open(t, lay, index, level)
    ensures Unassigned(Assign(f, index0, index - index0, leaf), index, index + nb)
  {
    hide Slots, Distinct;
    var g := Assign(f, index0, index - index0, leaf);
    assert Shape(t, lay, g, index, level);
    NodePlace(t, lay, g, index, level, p);
    SlotAligned(lo, level, i);
    SlotAligned(lo, level, 0);
    if Aligned(index, level) { AlignedInSlot(index, lo, level, i); }
    OpenSame(t, lay, lo, level, lo, index);
    forall page | index <= page < index + nb ensures At(g, page) == UNASSIGNED {
      assert At(g, page) == At(f, page);
    }
  }

  /** A partly covered slot has been filled by the recursive call. */
  lemma LoopChild(t: Tree, lay: Layout, t': Tree, lay': Layout, f: Flat, leaf: nat, p: nat, level: nat, lo: nat,
                  index0: nat, nb0: nat, index: nat, nb: nat, i: nat, index': nat, nb': nat)
    requires LoopInv(t, lay, f, leaf, p, level, lo, index0, nb0, index, nb, i) && i < L2_SIZE && level >= 1 && nb > 0
    requires index < index' && index + nb == index' + nb' && InSlot(index, SlotLo(lo, level, i), level)
    requires index' == if nb' == 0 then index + nb else SlotLo(lo, level, i) + Span(level)
    requires index' <= SlotLo(lo, level, i) + Span(level)
    requires Shape(t', lay', Assign(Assign(f, index0, index - index0, leaf), index, index' - index, leaf), -1, 0)
    requires Keeps(t, lay, t', lay', level - 1, Slot(p, i))
    ensures LoopInv(t', lay', f, leaf, p, level, lo, index0, nb0, index', nb', i + 1)
    ensures LoopPos(t', lay', p, level, lo, index0, nb0, index', nb', i + 1)
  {
    NodePlace(t, lay, Assign(f, index0, index - index0, leaf), if index == index0 then index0 else -1, level, p);
    SlotAligned(lo, level, i);
    AssignJoin(f, index0, index, index', leaf);
    ShapeSame(t', lay', Assign(Assign(f, index0, index - index0, leaf), index, index' - index, leaf),
              Assign(f, index0, index' - index0, leaf), -1, 0);
    assert Shape(t', lay', Assign(f, index0, index' - index0, leaf), -1, level);
    KeepsOpen(t, lay, t', lay', level - 1, Slot(p, i), lo);
    NextSlot(lo, level, i);
  }

  /** The loop ends with the range exhausted or at the end of the block. */
  lemma LoopEnd(t: Tree, lay: Layout, f: Flat, leaf: nat, p: nat, level: nat, lo: nat, index0: nat, nb0: nat,
                index: nat, nb: nat, i: nat)
    requires LoopInv(t, lay, f, leaf, p, level, lo, index0, nb0, index, nb, i) && nb0 > 0
    requires nb == 0 || i == L2_SIZE
    ensures index == if index0 + nb0 <= lo + Span(level + 1) then index0 + nb0 else lo + Span(level + 1)
    ensures Shape(t, lay, Assign(f, index0, index - index0, leaf), -1, 0)
  {
    NextSlot(lo, level, i);
  }
}
