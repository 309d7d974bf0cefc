/** phys_map_node_reserve, phys_map_node_alloc and phys_page_set of exec.c, updating the node
    array in place. */
module PhysPageMaps {
  import opened RadixGeometry
  import opened PhysPageTree
  import opened PhysPageCompact

  function Max(a: nat, b: nat): nat { if a >= b then a else b }

  /** How many nodes a call at `level` may allocate: one path when the range touches an end of the
      block, two paths otherwise. */
  function Cost(level: nat, lo: nat, index: nat, nb: nat): nat {
    if index == lo || index + nb >= lo + Span(level + 1) then level + 1 else 2 * level + 1
  }

  function Reached(level: nat, lo: nat, index: nat, nb: nat): nat {
    if index + nb <= lo + Span(level + 1) then index + nb else lo + Span(level + 1)
  }

  /** Nodes spent so far by the loop over the slots of one node: the node itself, and one path
      below the first slot if the range does not start on a slot boundary (`ragged`). */
  predicate Within(level: nat, lo: nat, index0: nat, nb0: nat, ragged: bool, index: nat, nb: nat, spent: int) {
    && (nb != 0 ==> spent <= 1 + if index > index0 && ragged then level else 0)
    && (nb == 0 ==> spent <= Cost(level, lo, index0, nb0))
  }

  lemma WithinLeaf(level: nat, lo: nat, index0: nat, nb0: nat, ragged: bool, index: nat, nb: nat, step: nat, spent: int)
    requires Within(level, lo, index0, nb0, ragged, index, nb, spent) && index0 <= index && nb >= step > 0
    ensures Within(level, lo, index0, nb0, ragged, index + step, nb - step, spent)
  {
  }

  /** A partly covered slot costs one path at either end of the range, or the range lies inside it. */
  lemma WithinChild(level: nat, lo: nat, index0: nat, nb0: nat, ragged: bool, index: nat, nb: nat, slot: nat,
      spent: int, spent': int)
    requires Within(level, lo, index0, nb0, ragged, index, nb, spent) && index0 <= index && index + nb == index0 + nb0
    requires nb > 0
    requires level >= 1 && lo <= slot && slot + Span(level) <= lo + Span(level + 1) && InSlot(index, slot, level)
    requires (index0 < index ==> index == slot) && (index0 == index ==> (ragged <==> index != slot))
    requires (index == slot ==> nb < Span(level)) && (index0 == lo ==> !ragged)
    ensures spent + Cost(level - 1, slot, index, nb) <= Cost(level, lo, index0, nb0)
    ensures var index' := Reached(level - 1, slot, index, nb);
      spent' <= spent + Cost(level - 1, slot, index, nb) ==>
          Within(level, lo, index0, nb0, ragged, index', index + nb - index', spent')
  {
  }

  class PhysPageMap {
    var tree: Tree
    var nodesNbAlloc: nat
    var allocHint: nat
    ghost var lay: Layout

    constructor ()
      ensures tree == Tree(Entry(1, NIL), []) && lay == Layout([], [])
    {
      tree := Tree(Entry(1, NIL), []);
      nodesNbAlloc, allocHint := 0, 16;
      lay := Layout([], []);
    }

    /** phys_map_node_reserve */
    method NodeReserve(count: nat)
      modifies this`nodesNbAlloc, this`allocHint
      ensures |tree.nodes| + count <= nodesNbAlloc && old(nodesNbAlloc) <= nodesNbAlloc
      ensures if |tree.nodes| + count <= old(nodesNbAlloc) then unchanged(this)
        else nodesNbAlloc == allocHint == Max(|tree.nodes| + count, Max(old(nodesNbAlloc), old(allocHint)))
    {
      if |tree.nodes| + count > nodesNbAlloc {
        nodesNbAlloc := Max(nodesNbAlloc, allocHint);
        nodesNbAlloc := Max(nodesNbAlloc, |tree.nodes| + count);
        allocHint := nodesNbAlloc;
      }
    }

    /** phys_map_node_alloc: both asserts of the source are preconditions proved by every caller. */
    method NodeAlloc(leaf: bool) returns (ret: nat)
      requires |tree.nodes| < NIL && |tree.nodes| < nodesNbAlloc
      modifies this`tree
      ensures ret == |old(tree.nodes)| && tree == old(tree).(nodes := old(tree.nodes) + [FreshNode(leaf)])
    {
      ret := |tree.nodes|;
      var p := seq(L2_SIZE, i => Entry(0, 0));
      var e := Entry(if leaf then 0 else 1, if leaf then UNASSIGNED else NIL);
      var i := 0;
      while i < L2_SIZE
        invariant 0 <= i <= L2_SIZE == |p|
        invariant forall j :: 0 <= j < i ==> p[j] == e
      {
        p := p[i := e];
        i := i + 1;
      }
      assert p == FreshNode(leaf);
      tree := tree.(nodes := tree.nodes + [p]);
    }

    /** The first lines of phys_page_set_level: make sure that the slot `lp` leads to a node. */
    method Descend(lp: Ref, index: nat, level: nat, ghost lo: nat, ghost f: Flat) returns (p: nat)
      requires level < LEVELS && RefIn(tree, lp) && RefAt(lay, lp, level + 1, lo) && InSlot(index, lo, level + 1)
      requires Shape(tree, lay, f, index, level + 1) && Open(tree, lay, index, level + 1)
      requires At(f, index) == UNASSIGNED
      requires |tree.nodes| < NIL && |tree.nodes| < nodesNbAlloc
      modifies this`tree, this`lay
      ensures Aligned(lo, level + 1) && lo + Span(level + 1) <= Span(LEVELS)
      ensures Shape(tree, lay, f, index, level) && Open(tree, lay, index, level)
      ensures p < |tree.nodes| && p < |lay.place| && lay.place[p] == Place(level, lo)
      ensures |tree.nodes| <= |old(tree.nodes)| + 1 && Keeps(old(tree), old(lay), tree, lay, level, lp)
    {
      hide Open, Slots, Distinct, Keeps;
      RefBlock(tree, lay, f, index, level + 1, lp, level + 1, lo);
      DescendPointer(tree, lay, f, lp, level, lo, index);
      var e := Get(tree, lp);
      if e.skip != 0 && e.ptr == NIL {
        DescendAlloc(tree, lay, f, lp, level, lo, index);
        ghost var t0 := tree;
        p := NodeAlloc(level == 0);
        tree := Put(tree, lp, e.(ptr := p));
        assert tree == AllocTree(t0, lp, level);
        lay := AllocLayout(lay, level, lo, index);
      } else {
        p := e.ptr;
      }
    }
  
    /** phys_page_set_level: assign the pages index0 .. index0 + nb0 that lie in the slot `lp`. */
    method SetLevel(lp: Ref, index0: nat, nb0: nat, leaf: nat, level: nat, ghost lo: nat,
        ghost f: Flat) returns (index: nat, nb: nat)
      requires level < LEVELS && RefIn(tree, lp) && RefAt(lay, lp, level + 1, lo) && InSlot(index0, lo, level + 1)
      requires nb0 > 0
      requires Shape(tree, lay, f, index0, level + 1) && Open(tree, lay, index0, level + 1)
      requires Unassigned(f, index0, index0 + nb0) && leaf != UNASSIGNED && leaf != NIL
      requires |tree.nodes| + Cost(level, lo, index0, nb0) <= nodesNbAlloc
      requires |tree.nodes| + Cost(level, lo, index0, nb0) <= NIL
      modifies this`tree, this`lay
      ensures index == Reached(level, lo, index0, nb0) && index + nb == index0 + nb0
      ensures Shape(tree, lay, Assign(f, index0, index - index0, leaf), -1, 0)
      ensures Keeps(old(tree), old(lay), tree, lay, level, lp)
      ensures |tree.nodes| <= |old(tree.nodes)| + Cost(level, lo, index0, nb0)
      decreases level, 1
    {
      hide Open, Slots, Distinct, Keeps, Shape, LoopInv, Span, SlotLo, Aligned;
      var p := Descend(lp, index0, level, lo, f);
      index, nb := index0, nb0;
      LoopStart(tree, lay, f, leaf, p, level, lo, index, nb);
      assert Within(level, lo, index0, nb0, !Aligned(index0, level), index0, nb0, |tree.nodes| - |old(tree.nodes)|);
      var i := SlotIndex(index, level);
      while nb != 0 && i < L2_SIZE
        invariant LoopInv(tree, lay, f, leaf, p, level, lo, index0, nb0, index, nb, i)
        invariant LoopPos(tree, lay, p, level, lo, index0, nb0, index, nb, i)
        invariant Keeps(old(tree), old(lay), tree, lay, level, lp)
        invariant Within(level, lo, index0, nb0, !Aligned(index0, level), index, nb, |tree.nodes| - |old(tree.nodes)|)
        decreases L2_SIZE - i
      {
        ghost var t, l := tree, lay;
        if Aligned(index, level) && nb >= Span(level) {
          FillLeaf(p, i, index, nb, leaf, level, lo, f, index0, nb0, |tree.nodes| - |old(tree.nodes)|);
          KeepsTrans(old(tree), old(lay), t, l, tree, lay, level, lp, level, Slot(p, i));
          index := index + Span(level);
          nb := nb - Span(level);
        } else {
          index, nb := FillSlot(p, i, index, nb, leaf, level, lo, f, index0, nb0, |tree.nodes| - |old(tree.nodes)|);
          KeepsTrans(old(tree), old(lay), t, l, tree, lay, level, lp, level - 1, Slot(p, i));
        }
        i := i + 1;
      }
      LoopEnd(tree, lay, f, leaf, p, level, lo, index0, nb0, index, nb, i);
    }

    /** The loop's other case, a slot that is covered as a whole. */
    method FillLeaf(p: nat, i: nat, ghost index: nat, ghost nb: nat, leaf: nat, ghost level: nat, ghost lo: nat,
                    ghost f: Flat, ghost index0: nat, ghost nb0: nat, ghost spent: int)
      requires LoopInv(tree, lay, f, leaf, p, level, lo, index0, nb0, index, nb, i)
      requires i < L2_SIZE && Aligned(index, level) && nb >= Span(level) && leaf != UNASSIGNED && leaf != NIL
      requires Within(level, lo, index0, nb0, !Aligned(index0, level), index, nb, spent)
      modifies this`tree
      ensures Keeps(old(tree), lay, tree, lay, level, Slot(p, i)) && |tree.nodes| == |old(tree.nodes)|
      ensures LoopInv(tree, lay, f, leaf, p, level, lo, index0, nb0, index + Span(level), nb - Span(level), i + 1)
      ensures LoopPos(tree, lay, p, level, lo, index0, nb0, index + Span(level), nb - Span(level), i + 1)
      ensures Within(level, lo, index0, nb0, !Aligned(index0, level), index + Span(level), nb - Span(level), spent)
    {
      hide Open, Slots, Distinct, Keeps, Shape;
      LoopLeaf(tree, lay, f, leaf, p, level, lo, index0, nb0, index, nb, i);
      WithinLeaf(level, lo, index0, nb0, !Aligned(index0, level), index, nb, Span(level), spent);
      tree := Put(tree, Slot(p, i), Entry(0, leaf));
    }

    /** The recursive call of the loop, for a slot that is covered in part. */
    method FillSlot(p: nat, i: nat, index: nat, nb: nat, leaf: nat, level: nat, ghost lo: nat, ghost f: Flat,
                    ghost index0: nat, ghost nb0: nat, ghost spent: int)
      returns (index': nat, nb': nat)
      requires LoopInv(tree, lay, f, leaf, p, level, lo, index0, nb0, index, nb, i)
      requires i < L2_SIZE && nb > 0 && !(Aligned(index, level) && nb >= Span(level)) && leaf != UNASSIGNED
      requires leaf != NIL
      requires Within(level, lo, index0, nb0, !Aligned(index0, level), index, nb, spent)
      requires |tree.nodes| - spent + Cost(level, lo, index0, nb0) <= nodesNbAlloc
      requires |tree.nodes| - spent + Cost(level, lo, index0, nb0) <= NIL
      modifies this`tree, this`lay
      ensures level >= 1 && Keeps(old(tree), old(lay), tree, lay, level - 1, Slot(p, i))
      ensures LoopInv(tree, lay, f, leaf, p, level, lo, index0, nb0, index', nb', i + 1)
      ensures LoopPos(tree, lay, p, level, lo, index0, nb0, index', nb', i + 1)
      ensures Within(level, lo, index0, nb0, !Aligned(index0, level), index', nb',
          spent + |tree.nodes| - |old(tree.nodes)|)
      decreases level, 0
    {
      hide Open, Slots, Distinct, Keeps;
      ghost var t, l, g := tree, lay, Assign(f, index0, index - index0, leaf);
      LoopChildReady(t, l, f, leaf, p, level, lo, index0, nb0, index, nb, i);
      WithinChild(level, lo, index0, nb0, !Aligned(index0, level), index, nb, SlotLo(lo, level, i), spent, spent);
      index', nb' := SetLevel(Slot(p, i), index, nb, leaf, level - 1, SlotLo(lo, level, i), g);
      WithinChild(level, lo, index0, nb0, !Aligned(index0, level), index, nb, SlotLo(lo, level, i), spent,
          spent + |tree.nodes| - |t.nodes|);
      LoopChild(t, l, tree, lay, f, leaf, p, level, lo, index0, nb0, index, nb, i, index', nb');
    }
  
    /** phys_page_set: the reservation covers every allocation of the recursion, which makes at most
        2 * P_L2_LEVELS - 1 of them. */
    method PageSet(index: nat, nb: nat, leaf: nat, ghost f: Flat)
      requires Shape(tree, lay, f, -1, 0) && nb > 0 && index + nb <= Span(LEVELS)
      requires Unassigned(f, index, index + nb) && leaf != UNASSIGNED && leaf != NIL
      requires |tree.nodes| + 2 * LEVELS - 1 <= NIL
      modifies this
      ensures Shape(tree, lay, Assign(f, index, nb, leaf), -1, 0)
      ensures |old(tree.nodes)| <= |tree.nodes| <= |old(tree.nodes)| + 2 * LEVELS - 1
      ensures nodesNbAlloc <= Max(|old(tree.nodes)| + 3 * LEVELS, Max(old(nodesNbAlloc), old(allocHint)))
    {
      hide Slots, Distinct;
      NodeReserve(3 * LEVELS);
      var index', nb' := SetLevel(Root, index, nb, leaf, LEVELS - 1, 0, f);
    }

    /** phys_page_compact on the entry `lp`, whose slot starts at page `lo`. */
    method Compact(lp: Ref, ghost level: nat, ghost lo: nat, ghost f: Flat)
      requires Weak(tree, lay, f) && RefIn(tree, lp) && RefAt(lay, lp, level, lo) && Get(tree, lp).skip > 0
      modifies this`tree
      ensures Weak(tree, lay, f) && level >= 1 && Keeps(old(tree), lay, tree, lay, level - 1, lp)
      ensures Get(tree, lp).ptr == NIL <==> Get(old(tree), lp).ptr == NIL
      ensures Slim(tree, Get(tree, lp), level) && Untouched(old(tree), tree, lay, lo, level, lp)
      decreases level, 1
    {
      hide Weak, Keeps, Span, SlotLo, Slim, Untouched, Lone;
      WeakAt(tree, lay, f, lp, level, lo);
      KeepsRefl(tree, lay, f, level - 1, lp);
      UntouchedRefl(tree, lay, lo, level, lp);
      var e := Get(tree, lp);
      SlimEmpty(tree, e, level);
      if e.ptr == NIL {
        return;
      }
      var validPtr: nat, valid: nat := L2_SIZE, 0;
      var i: nat := 0;
      while i < L2_SIZE
        invariant i <= L2_SIZE && Weak(tree, lay, f) && RefIn(tree, lp) && Get(tree, lp) == e
        invariant |tree.nodes| == |old(tree.nodes)| && Keeps(old(tree), lay, tree, lay, level - 1, lp)
        invariant Untouched(old(tree), tree, lay, lo, level, lp)
        invariant forall j :: 0 <= j < i ==> Slim(tree, tree.nodes[e.ptr][j], level - e.skip)
        invariant valid == 0 ==> forall j :: 0 <= j < i ==> tree.nodes[e.ptr][j].ptr == NIL
        invariant valid >= 1 ==> validPtr < i && tree.nodes[e.ptr][validPtr].ptr != NIL
        invariant valid == 1 ==> forall j :: 0 <= j < i && j != validPtr ==> tree.nodes[e.ptr][j].ptr == NIL
        invariant valid >= 2 ==> exists j :: 0 <= j < validPtr && tree.nodes[e.ptr][j].ptr != NIL
      {
        SlimEmpty(tree, tree.nodes[e.ptr][i], level - e.skip);
        if tree.nodes[e.ptr][i].ptr != NIL {
          validPtr := i;
          valid := valid + 1;
          if tree.nodes[e.ptr][i].skip != 0 {
            CompactChild(lp, e, i, level, lo, f, old(tree));
          }
        }
        i := i + 1;
      }
      NotLone(tree, e, validPtr, valid);
      if valid != 1 {
        SlimNode(tree, e, level);
        return;
      }
      if e.skip + tree.nodes[e.ptr][validPtr].skip >= 8 {
        SlimNode(tree, e, level);
        return;
      }
      BypassWeak(tree, lay, f, e, level, lo, validPtr);
      WeakPut(tree, lay, f, lp, level, lo, Bypass(e, tree.nodes[e.ptr][validPtr]));
      KeepsPut(old(tree), lay, tree, level - 1, lp, Bypass(e, tree.nodes[e.ptr][validPtr]));
      UntouchedPut(old(tree), tree, lay, lo, level, lp, Bypass(e, tree.nodes[e.ptr][validPtr]));
      SlimBypass(tree, lay, f, e, level, lo, validPtr, lp);
      if tree.nodes[e.ptr][validPtr].skip == 0 {
        tree := Put(tree, lp, Entry(0, tree.nodes[e.ptr][validPtr].ptr));
      } else {
        tree := Put(tree, lp, Entry(e.skip + tree.nodes[e.ptr][validPtr].skip, tree.nodes[e.ptr][validPtr].ptr));
      }
    }

    /** The recursive call of phys_page_compact on slot `i` of the node that `lp` leads to. */
    method CompactChild(ghost lp: Ref, e: Entry, i: nat, ghost level: nat, ghost lo: nat, ghost f: Flat, ghost t0: Tree)
      requires Weak(tree, lay, f) && RefIn(tree, lp) && RefAt(lay, lp, level, lo) && Get(tree, lp) == e
      requires e.skip > 0 && e.ptr != NIL && WeakSlot(e, lay, f, lo, level) && i < L2_SIZE
      requires |lay.place| == |tree.nodes|
      requires tree.nodes[e.ptr][i].skip > 0 && Keeps(t0, lay, tree, lay, level - 1, lp)
      requires Untouched(t0, tree, lay, lo, level, lp)
      modifies this`tree
      ensures Weak(tree, lay, f) && RefIn(tree, lp) && Get(tree, lp) == e && Keeps(t0, lay, tree, lay, level - 1, lp)
      ensures |tree.nodes| == |old(tree.nodes)|
      ensures forall j :: 0 <= j < L2_SIZE && j != i ==> tree.nodes[e.ptr][j] == old(tree).nodes[e.ptr][j]
      ensures tree.nodes[e.ptr][i].ptr == NIL <==> old(tree).nodes[e.ptr][i].ptr == NIL
      ensures Slim(tree, tree.nodes[e.ptr][i], level - e.skip) && Untouched(t0, tree, lay, lo, level, lp)
      ensures forall j :: 0 <= j < i && old(Slim(tree, tree.nodes[e.ptr][j], level - e.skip)) ==>
        Slim(tree, tree.nodes[e.ptr][j], level - e.skip)
      decreases level, 0
    {
      hide Weak, Keeps, Slim, Untouched;
      ghost var below := level - e.skip;
      ghost var t := tree;
      Compact(Slot(e.ptr, i), below, SlotLo(lay.place[e.ptr].base, below, i), f);
      KeepsSlot(t, lay, tree, e.ptr, i, below - 1, lp);
      KeepsTrans(t0, lay, t, lay, tree, lay, level - 1, lp, below - 1, Slot(e.ptr, i));
      NodeIn(t, lay, f, e, lo, level);
      UntouchedSlot(t0, t, tree, lay, lo, level, lp, e.ptr, i);
      forall j | 0 <= j < i && Slim(t, t.nodes[e.ptr][j], below) ensures Slim(tree, tree.nodes[e.ptr][j], below) {
        SlimOther(t, lay, f, tree, e.ptr, i, j);
      }
    }

    /** phys_page_compact_all */
    method CompactAll(ghost f: Flat)
      requires Weak(tree, lay, f)
      modifies this`tree
      ensures Weak(tree, lay, f) && Slim(tree, tree.root, LEVELS)
    {
      if tree.root.skip != 0 {
        Compact(Root, LEVELS, 0, f);
      }
    }

    /** The loop of phys_page_find: the section number the map holds for `page`. */
    method Find(page: nat, ghost f: Flat) returns (s: nat)
      requires Weak(tree, lay, f)
      ensures s == Walk(tree, tree.root, LEVELS, page)
    {
      hide Weak, WeakSlot, Span, SlotLo, SlotIndex;
      var lp, i: nat := tree.root, LEVELS;
      ghost var lo := 0;
      WeakAt(tree, lay, f, Root, LEVELS, 0);
      while lp.skip != 0
        invariant WeakSlot(lp, lay, f, lo, i)
        invariant Walk(tree, lp, i, page) == Walk(tree, tree.root, LEVELS, page)
        decreases i, if lp.skip != 0 then 1 else 0
      {
        if i - lp.skip < 0 {
          break;
        }
        i := i - lp.skip;
        if lp.ptr == NIL {
          return UNASSIGNED;
        }
        WeakStep(tree, lay, f, lp, lo, i + lp.skip, page);
        lo := SlotLo(lay.place[lp.ptr].base, i, SlotIndex(page, i));
        lp := tree.nodes[lp.ptr][SlotIndex(page, i)];
      }
      s := lp.ptr;
    }
  }
}
