/** Path compression and lookup on the physical page map (phys_page_compact and phys_page_find of
    exec.c): the weaker meaning that entries keep once skipped index bits are no longer compared. */
module PhysPageCompact {
  import opened RadixGeometry
  import opened PhysPageTree

  /** Meaning of an entry in a compacted tree: it is right about every assigned page of its slot
      and promises nothing about the others. */
  ghost predicate WeakSlot(e: Entry, lay: Layout, f: Flat, lo: nat, level: nat) {
    && e.skip <= level
    && (e.skip == 0 ==>
          && e.ptr != NIL
          && (e.ptr == UNASSIGNED || Assigned(f, e.ptr))
          && forall page :: InSlot(page, lo, level) && At(f, page) != UNASSIGNED ==> At(f, page) == e.ptr)
    && (e.skip > 0 && e.ptr == NIL ==> forall page :: InSlot(page, lo, level) ==> At(f, page) == UNASSIGNED)
    && (e.skip > 0 && e.ptr != NIL ==>
          && e.ptr < |lay.place|
          && lay.place[e.ptr].level == level - e.skip
          && lo <= lay.place[e.ptr].base
          && lay.place[e.ptr].base + Span(level - e.skip + 1) <= lo + Span(level)
          && forall page :: InSlot(page, lo, level) && At(f, page) != UNASSIGNED ==>
               InSlot(page, lay.place[e.ptr].base, level - e.skip + 1))
  }

  ghost predicate Weak(t: Tree, lay: Layout, f: Flat) {
    && |lay.place| == |t.nodes| <= NIL
    && (forall n :: 0 <= n < |lay.place| ==> PlaceOk(lay.place[n]))
    && WeakSlot(t.root, lay, f, 0, LEVELS)
    && forall n, i :: 0 <= n < |t.nodes| && 0 <= i < L2_SIZE ==>
         WeakSlot(t.nodes[n][i], lay, f, SlotLo(lay.place[n].base, lay.place[n].level, i), lay.place[n].level)
  }

  lemma ShapeIsWeak(t: Tree, lay: Layout, f: Flat)
    requires Shape(t, lay, f, -1, 0)
    ensures Weak(t, lay, f)
  {
    SlotIsWeak(t.root, lay, f, 0, LEVELS);
    forall n, i | 0 <= n < |t.nodes| && 0 <= i < L2_SIZE
      ensures WeakSlot(t.nodes[n][i], lay, f, SlotLo(lay.place[n].base, lay.place[n].level, i), lay.place[n].level)
    {
      SlotIsWeak(t.nodes[n][i], lay, f, SlotLo(lay.place[n].base, lay.place[n].level, i), lay.place[n].level);
    }
  }

  lemma SlotIsWeak(e: Entry, lay: Layout, f: Flat, lo: nat, level: nat)
    requires SlotOk(e, lay, f, lo, level)
    ensures WeakSlot(e, lay, f, lo, level)
  {
  }

  lemma WeakAt(t: Tree, lay: Layout, f: Flat, r: Ref, level: nat, lo: nat)
    requires Weak(t, lay, f) && RefIn(t, r) && RefAt(lay, r, level, lo)
    ensures WeakSlot(Get(t, r), lay, f, lo, level)
  {
  }

  lemma WeakPut(t: Tree, lay: Layout, f: Flat, r: Ref, level: nat, lo: nat, e: Entry)
    requires Weak(t, lay, f) && RefIn(t, r) && RefAt(lay, r, level, lo) && WeakSlot(e, lay, f, lo, level)
    ensures Weak(Put(t, r, e), lay, f)
  {
  }

  lemma KeepsRefl(t: Tree, lay: Layout, f: Flat, level: nat, lp: Ref)
    requires Weak(t, lay, f)
    ensures |lay.place| == |t.nodes| && Keeps(t, lay, t, lay, level, lp)
  {
  }

  lemma KeepsPut(t: Tree, lay: Layout, t': Tree, level: nat, lp: Ref, e: Entry)
    requires Keeps(t, lay, t', lay, level, lp) && RefIn(t', lp)
    ensures Keeps(t, lay, Put(t', lp, e), lay, level, lp)
  {
  }

  /** The recursive call on slot `i` of node `n` leaves the other slots of `n` and the slots above alone. */
  lemma KeepsSlot(t: Tree, lay: Layout, t': Tree, n: nat, i: nat, level: nat, lp: Ref)
    requires n < |lay.place| && lay.place[n].level == level + 1 && Keeps(t, lay, t', lay, level, Slot(n, i))
    requires RefIn(t, lp) && (lp.Slot? ==> lp.node < |lay.place| && lay.place[lp.node].level > level + 1)
    ensures RefIn(t', lp) && Get(t', lp) == Get(t, lp) && |t'.nodes| == |t.nodes|
    ensures forall j :: 0 <= j < L2_SIZE && j != i ==> t'.nodes[n][j] == t.nodes[n][j]
  {
  }

  /** The entry that bypasses a node whose only non-empty slot holds `child`. */
  function Bypass(e: Entry, child: Entry): Entry {
    if child.skip == 0 then Entry(0, child.ptr) else Entry(e.skip + child.skip, child.ptr)
  }

  /** Bypassing a node with one non-empty slot loses no assigned page. */
  lemma BypassWeak(t: Tree, lay: Layout, f: Flat, e: Entry, level: nat, lo: nat, v: nat)
    requires Weak(t, lay, f) && WeakSlot(e, lay, f, lo, level) && e.skip > 0 && e.ptr != NIL && v < L2_SIZE
    requires forall j :: 0 <= j < L2_SIZE && j != v ==> t.nodes[e.ptr][j].ptr == NIL
    requires t.nodes[e.ptr][v].ptr != NIL
    ensures WeakSlot(Bypass(e, t.nodes[e.ptr][v]), lay, f, lo, level)
  {
    var base, below := lay.place[e.ptr].base, level - e.skip;
    var child := t.nodes[e.ptr][v];
    SlotAligned(base, below, v);
    assert WeakSlot(child, lay, f, SlotLo(base, below, v), below);
    forall page | InSlot(page, lo, level) && At(f, page) != UNASSIGNED
      ensures InSlot(page, SlotLo(base, below, v), below)
    {
      OnlySlot(t, lay, f, e.ptr, v, page);
    }
  }

  lemma OnlySlot(t: Tree, lay: Layout, f: Flat, n: nat, v: nat, page: nat)
    requires Weak(t, lay, f) && n < |t.nodes| && v < L2_SIZE
    requires forall j :: 0 <= j < L2_SIZE && j != v ==> t.nodes[n][j].ptr == NIL
    requires At(f, page) != UNASSIGNED && InSlot(page, lay.place[n].base, lay.place[n].level + 1)
    ensures InSlot(page, SlotLo(lay.place[n].base, lay.place[n].level, v), lay.place[n].level)
  {
    SlotOfPage(page, lay.place[n].base, lay.place[n].level);
    var j := SlotIndex(page, lay.place[n].level);
    assert WeakSlot(t.nodes[n][j], lay, f, SlotLo(lay.place[n].base, lay.place[n].level, j), lay.place[n].level);
  }

  // ------------------------------------------------------------------------------------------
  // What is left to compress

  /** Slot `v` is the only non-empty one of a node. */
  ghost predicate Only(n: Node, v: nat) {
    v < L2_SIZE && n[v].ptr != NIL && forall j :: 0 <= j < L2_SIZE && j != v ==> n[j].ptr == NIL
  }

  /** The entry leads to a node that could be bypassed. */
  ghost predicate Lone(t: Tree, e: Entry)
    requires e.ptr < |t.nodes|
  {
    exists v: nat :: Only(t.nodes[e.ptr], v) && e.skip + t.nodes[e.ptr][v].skip < 8
  }

  /** No entry reached from this one leads to a node that could be bypassed. */
  ghost predicate Slim(t: Tree, e: Entry, level: nat)
    decreases level
  {
    e.skip > 0 && e.ptr != NIL ==>
      && e.skip <= level && e.ptr < |t.nodes| && !Lone(t, e)
      && forall i :: 0 <= i < L2_SIZE ==> Slim(t, t.nodes[e.ptr][i], level - e.skip)
  }

  /** A node lies in the slot at `level` that starts at page `lo`. */
  predicate Inside(p: Place, lo: nat, level: nat) {
    lo <= p.base && p.base + Span(p.level + 1) <= lo + Span(level)
  }

  /** Only `lp` and nodes inside its slot have changed. */
  ghost predicate Untouched(t: Tree, t': Tree, lay: Layout, lo: nat, level: nat, lp: Ref) {
    && |t'.nodes| == |t.nodes| == |lay.place|
    && forall n, i :: 0 <= n < |t.nodes| && 0 <= i < L2_SIZE && !Inside(lay.place[n], lo, level) && lp != Slot(n, i) ==>
         t'.nodes[n][i] == t.nodes[n][i]
  }

  /** The limit of the skip field is never reached: six levels are all there are. */
  lemma SkipsFit(t: Tree, lay: Layout, f: Flat, e: Entry, lo: nat, level: nat, v: nat)
    requires Weak(t, lay, f) && WeakSlot(e, lay, f, lo, level) && e.skip > 0 && e.ptr != NIL && v < L2_SIZE
    requires level <= LEVELS
    ensures e.skip + t.nodes[e.ptr][v].skip <= LEVELS < 8
  {
    var below := level - e.skip;
    assert WeakSlot(t.nodes[e.ptr][v], lay, f, SlotLo(lay.place[e.ptr].base, below, v), below);
  }

  lemma InsideSlot(p: Place, q: Place, i: nat, lo: nat, level: nat)
    requires PlaceOk(q) && i < L2_SIZE && Inside(q, lo, level) && Inside(p, SlotLo(q.base, q.level, i), q.level)
    ensures Inside(p, lo, level)
  {
    SlotAligned(q.base, q.level, i);
  }

  /** What is reached from an entry lies inside its slot. */
  lemma {:induction false} SlimFrame(t: Tree, lay: Layout, f: Flat, t': Tree, e: Entry, lo: nat, level: nat)
    requires Weak(t, lay, f) && WeakSlot(e, lay, f, lo, level) && Slim(t, e, level) && |t'.nodes| == |t.nodes|
    requires forall n :: 0 <= n < |t.nodes| && Inside(lay.place[n], lo, level) ==> t'.nodes[n] == t.nodes[n]
    ensures Slim(t', e, level)
    decreases level
  {
    if e.skip > 0 && e.ptr != NIL {
      var q, below := lay.place[e.ptr], level - e.skip;
      assert Inside(q, lo, level);
      forall i | 0 <= i < L2_SIZE ensures Slim(t', t'.nodes[e.ptr][i], below) {
        assert WeakSlot(t.nodes[e.ptr][i], lay, f, SlotLo(q.base, below, i), below);
        forall n | 0 <= n < |t.nodes| && Inside(lay.place[n], SlotLo(q.base, below, i), below)
          ensures t'.nodes[n] == t.nodes[n]
        {
          InsideSlot(lay.place[n], q, i, lo, level);
        }
        SlimFrame(t, lay, f, t', t.nodes[e.ptr][i], SlotLo(q.base, below, i), below);
      }
    }
  }

  lemma UntouchedRefl(t: Tree, lay: Layout, lo: nat, level: nat, lp: Ref)
    requires |lay.place| == |t.nodes|
    ensures Untouched(t, t, lay, lo, level, lp)
  {
  }

  lemma SlimEmpty(t: Tree, e: Entry, level: nat)
    ensures e.skip == 0 || e.ptr == NIL ==> Slim(t, e, level)
  {
  }

  lemma NotLone(t: Tree, e: Entry, v: nat, valid: nat)
    requires e.ptr < |t.nodes|
    requires valid == 0 ==> forall j :: 0 <= j < L2_SIZE ==> t.nodes[e.ptr][j].ptr == NIL
    requires valid >= 1 ==> v < L2_SIZE && t.nodes[e.ptr][v].ptr != NIL
    requires valid >= 2 ==> exists j :: 0 <= j < v && t.nodes[e.ptr][j].ptr != NIL
    requires valid == 1 ==> forall j :: 0 <= j < L2_SIZE && j != v ==> t.nodes[e.ptr][j].ptr == NIL
    ensures valid != 1 || e.skip + t.nodes[e.ptr][v].skip >= 8 ==> !Lone(t, e)
  {
  }

  lemma NodeIn(t: Tree, lay: Layout, f: Flat, e: Entry, lo: nat, level: nat)
    requires Weak(t, lay, f) && WeakSlot(e, lay, f, lo, level) && e.skip > 0 && e.ptr != NIL
    ensures e.ptr < |lay.place| && PlaceOk(lay.place[e.ptr]) && Inside(lay.place[e.ptr], lo, level)
  {
  }

  lemma UntouchedPut(t: Tree, t': Tree, lay: Layout, lo: nat, level: nat, lp: Ref, e: Entry)
    requires Untouched(t, t', lay, lo, level, lp) && RefIn(t', lp)
    ensures Untouched(t, Put(t', lp, e), lay, lo, level, lp)
  {
  }

  /** A slot of a node inside the slot. */
  lemma UntouchedSlot(t: Tree, t1: Tree, t2: Tree, lay: Layout, lo: nat, level: nat, lp: Ref, n: nat, i: nat)
    requires Untouched(t, t1, lay, lo, level, lp) && n < |lay.place| && i < L2_SIZE
    requires PlaceOk(lay.place[n]) && Inside(lay.place[n], lo, level)
    requires var p := lay.place[n]; Untouched(t1, t2, lay, SlotLo(p.base, p.level, i), p.level, Slot(n, i))
    ensures Untouched(t, t2, lay, lo, level, lp)
  {
    var p := lay.place[n];
    forall m, j | 0 <= m < |t.nodes| && 0 <= j < L2_SIZE && !Inside(lay.place[m], lo, level) && lp != Slot(m, j)
      ensures t2.nodes[m][j] == t.nodes[m][j]
    {
      if Inside(lay.place[m], SlotLo(p.base, p.level, i), p.level) { InsideSlot(lay.place[m], p, i, lo, level); }
    }
  }

  /** An entry that leads to a node whose slots have been dealt with and of which not exactly one is in use. */
  lemma SlimNode(t: Tree, e: Entry, level: nat)
    requires 0 < e.skip <= level && e.ptr < |t.nodes| && !Lone(t, e)
    requires forall i :: 0 <= i < L2_SIZE ==> Slim(t, t.nodes[e.ptr][i], level - e.skip)
    ensures Slim(t, e, level)
  {
  }

  /** Compressing one slot of a node leaves what is reached from another alone. */
  lemma SlimOther(t: Tree, lay: Layout, f: Flat, t': Tree, n: nat, i: nat, j: nat)
    requires Weak(t, lay, f) && n < |t.nodes| && i < L2_SIZE && j < L2_SIZE && i != j
    requires var p := lay.place[n]; Untouched(t, t', lay, SlotLo(p.base, p.level, i), p.level, Slot(n, i))
    requires Slim(t, t.nodes[n][j], lay.place[n].level) && t'.nodes[n][j] == t.nodes[n][j]
    ensures Slim(t', t'.nodes[n][j], lay.place[n].level)
  {
    var p := lay.place[n];
    assert WeakSlot(t.nodes[n][j], lay, f, SlotLo(p.base, p.level, j), p.level);
    forall m | 0 <= m < |t.nodes| && Inside(lay.place[m], SlotLo(p.base, p.level, j), p.level)
      ensures t'.nodes[m] == t.nodes[m]
    {
      ApartSlots(lay.place[m], p, i, j);
    }
    SlimFrame(t, lay, f, t', t.nodes[n][j], SlotLo(p.base, p.level, j), p.level);
  }

  lemma ApartSlots(q: Place, p: Place, i: nat, j: nat)
    requires PlaceOk(p) && i < L2_SIZE && j < L2_SIZE && i != j && Inside(q, SlotLo(p.base, p.level, j), p.level)
    ensures q != p && !Inside(q, SlotLo(p.base, p.level, i), p.level)
  {
    if i < j { SlotsDisjoint(p.base, p.level, i, j); } else { SlotsDisjoint(p.base, p.level, j, i); }
  }

  lemma SlimLonger(t: Tree, e: Entry, child: Entry, level: nat)
    requires 0 < e.skip <= level && Slim(t, child, level - e.skip)
    ensures Slim(t, Bypass(e, child), level)
  {
  }

  lemma PutInside(t: Tree, lay: Layout, lp: Ref, e: Entry, lo: nat, level: nat)
    requires RefIn(t, lp) && RefAt(lay, lp, level, lo) && |lay.place| == |t.nodes|
    ensures forall n :: 0 <= n < |t.nodes| && Inside(lay.place[n], lo, level) ==> Put(t, lp, e).nodes[n] == t.nodes[n]
  {
  }

  /** The bypassing entry: its node, reached from the bypassed one, has been dealt with. */
  lemma SlimBypass(t: Tree, lay: Layout, f: Flat, e: Entry, level: nat, lo: nat, v: nat, lp: Ref)
    requires Weak(t, lay, f) && WeakSlot(e, lay, f, lo, level) && e.skip > 0 && e.ptr != NIL && v < L2_SIZE
    requires RefIn(t, lp) && RefAt(lay, lp, level, lo) && Slim(t, t.nodes[e.ptr][v], level - e.skip)
    requires e.ptr < |t.nodes| == |lay.place| && e.skip <= level
    requires WeakSlot(Bypass(e, t.nodes[e.ptr][v]), lay, f, lo, level)
    ensures var e' := Bypass(e, t.nodes[e.ptr][v]); Slim(Put(t, lp, e'), e', level)
  {
    hide Slim, Weak, WeakSlot;
    var child := t.nodes[e.ptr][v];
    var e' := Bypass(e, child);
    SlimLonger(t, e, child, level);
    PutInside(t, lay, lp, e', lo, level);
    SlimFrame(t, lay, f, Put(t, lp, e'), e', lo, level);
  }

  // ------------------------------------------------------------------------------------------
  // Lookup

  /** The section number phys_page_find reaches, before the final check that it covers the address. */
  function Walk(t: Tree, e: Entry, i: int, page: nat): nat
    decreases i
  {
    if e.skip == 0 then e.ptr
    else if i - e.skip < 0 then e.ptr
    else if e.ptr == NIL || e.ptr >= |t.nodes| then UNASSIGNED
    else Walk(t, t.nodes[e.ptr][SlotIndex(page, i - e.skip)], i - e.skip, page)
  }

  /** One step of the walk. */
  lemma WeakStep(t: Tree, lay: Layout, f: Flat, e: Entry, lo: nat, level: nat, page: nat)
    requires Weak(t, lay, f) && WeakSlot(e, lay, f, lo, level) && e.skip > 0 && e.ptr != NIL
    ensures e.skip <= level && e.ptr < |t.nodes| == |lay.place| && SlotIndex(page, level - e.skip) < L2_SIZE
    ensures WeakSlot(t.nodes[e.ptr][SlotIndex(page, level - e.skip)], lay, f,
                     SlotLo(lay.place[e.ptr].base, level - e.skip, SlotIndex(page, level - e.skip)), level - e.skip)
  {
  }

  /** The walk ends at the flat map's section for an assigned page; for any other page it still ends
      at some section of the map. */
  lemma WalkFlat(t: Tree, lay: Layout, f: Flat, e: Entry, level: nat, lo: nat, page: nat)
    requires Weak(t, lay, f) && WeakSlot(e, lay, f, lo, level)
    requires At(f, page) != UNASSIGNED ==> InSlot(page, lo, level)
    ensures At(f, page) != UNASSIGNED ==> Walk(t, e, level, page) == At(f, page)
    ensures Walk(t, e, level, page) == UNASSIGNED || Assigned(f, Walk(t, e, level, page))
    decreases level
  {
    if e.skip > 0 && e.ptr != NIL {
      var base, below := lay.place[e.ptr].base, level - e.skip;
      var i := SlotIndex(page, below);
      SlotOfPage(page, base, below);
      assert WeakSlot(t.nodes[e.ptr][i], lay, f, SlotLo(base, below, i), below);
      WalkFlat(t, lay, f, t.nodes[e.ptr][i], below, SlotLo(base, below, i), page);
    }
  }
}
