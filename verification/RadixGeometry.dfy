/** Page ranges covered by the nodes and slots of the 512-way physical page map
    (exec.c, P_L2_BITS = 9), and the flat page map the tree stands for. */
module RadixGeometry {
  const L2_SIZE: nat := 512
  const LEVELS: nat := 6

  /** Pages covered by one slot of a node at `level`. */
  function Span(level: nat): (r: nat)
    ensures r >= 1
  {
    if level == 0 then 1 else 512 * Span(level - 1)
  }

  predicate Aligned(page: nat, level: nat) {
    page % Span(level) == 0
  }

  /** First page of slot `i` in a node at `level` whose first page is `base`. */
  function SlotLo(base: nat, level: nat, i: nat): nat {
    base + i * Span(level)
  }

  predicate InSlot(page: int, lo: nat, level: nat) {
    lo <= page < lo + Span(level)
  }

  /** The slot index of `page` in a node at `level`: (index >> (level * 9)) & 511. */
  function SlotIndex(page: nat, level: nat): nat {
    (page / Span(level)) % L2_SIZE
  }

  lemma SpanMultiple(low: nat, high: nat) returns (k: nat)
    requires low <= high
    ensures k >= 1 && Span(high) == k * Span(low)
    decreases high
  {
    if low == high {
      k := 1;
    } else {
      var k0 := SpanMultiple(low, high - 1);
      k := 512 * k0;
      assert 512 * (k0 * Span(low)) == (512 * k0) * Span(low);
    }
  }

  lemma ModZero(q: nat, s: nat)
    requires s >= 1
    ensures (q * s) % s == 0 && (q * s) / s == q
  {
    DivUnique(q * s, s, q, 0);
  }

  lemma DivUnique(x: nat, s: nat, q: nat, r: nat)
    requires s >= 1 && x == q * s + r && r < s
    ensures x / s == q && x % s == r
  {
    var q' := x / s;
    assert q' * s <= x < q' * s + s;
    assert (q' + 1) * s == q' * s + s && (q + 1) * s == q * s + s;
    if q' < q {
      MulMono(q' + 1, q, s);
    } else if q < q' {
      MulMono(q + 1, q', s);
    }
  }

  /** Aligned multiples of a common step are equal or a whole step apart. */
  lemma Steps(qa: nat, qb: nat, s: nat)
    requires qa * s < qb * s
    ensures qa * s + s <= qb * s
  {
    if qb <= qa {
      MulMono(qb, qa, s);
    } else {
      MulMono(qa + 1, qb, s);
      assert (qa + 1) * s == qa * s + s;
    }
  }

  lemma MulMono(a: nat, b: nat, s: nat)
    requires a <= b
    ensures a * s <= b * s
  {
    assert b * s == a * s + (b - a) * s;
  }

  /** An aligned block and an aligned, larger block are nested or disjoint. */
  lemma Nest(lo: nat, level: nat, lo': nat, level': nat)
    requires level <= level' && Aligned(lo, level) && Aligned(lo', level')
    ensures || (lo' <= lo && lo + Span(level) <= lo' + Span(level'))
            || lo + Span(level) <= lo'
            || lo' + Span(level') <= lo
  {
    var k := SpanMultiple(level, level');
    var q := Quotient(lo, Span(level));
    var q' := Quotient(lo', Span(level'));
    NestMultiples(q, Span(level), q', k);
  }

  lemma Quotient(x: nat, s: nat) returns (q: nat)
    requires s >= 1 && x % s == 0
    ensures x == q * s
  {
    q := x / s;
  }

  lemma NestMultiples(q: nat, s: nat, q': nat, k: nat)
    ensures || (q' * (k * s) <= q * s && q * s + s <= q' * (k * s) + k * s)
            || q * s + s <= q' * (k * s)
            || q' * (k * s) + k * s <= q * s
  {
    Assoc(q', k, s);
    NestSteps(q, q' * k, q' * k + k, s);
    assert (q' * k + k) * s == (q' * k) * s + k * s;
  }

  lemma NestSteps(q: nat, b: nat, e: nat, s: nat)
    ensures (b * s <= q * s && q * s + s <= e * s) || q * s + s <= b * s || e * s <= q * s
  {
    if q * s < b * s { Steps(q, b, s); }
    if q * s < e * s { Steps(q, e, s); }
  }

  lemma Assoc(a: nat, b: nat, c: nat)
    ensures a * (b * c) == (a * b) * c
  {
  }

  /** The slots of a node are aligned and lie inside the node. */
  lemma SlotAligned(base: nat, level: nat, i: nat)
    requires Aligned(base, level + 1) && i < L2_SIZE
    ensures Aligned(SlotLo(base, level, i), level)
    ensures base <= SlotLo(base, level, i)
    ensures SlotLo(base, level, i) + Span(level) <= base + Span(level + 1)
  {
    var s := Span(level);
    var q := base / (512 * s);
    assert base == q * (512 * s);
    assert base + i * s == (q * 512 + i) * s by {
      assert q * (512 * s) == (q * 512) * s;
      assert (q * 512 + i) * s == (q * 512) * s + i * s;
    }
    ModZero(q * 512 + i, s);
    MulMono(i + 1, 512, s);
    assert (i + 1) * s == i * s + s;
  }

  /** The d-th page of the q-th block of 512 steps. */
  lemma PageInBlock(d: nat, s: nat, q: nat)
    requires s >= 1 && d < 512 * s
    ensures var page := q * (512 * s) + d;
      var i := (page / s) % 512;
      q * (512 * s) + i * s <= page < q * (512 * s) + i * s + s
  {
    var i, r := d / s, d % s;
    assert d == i * s + r;
    if i >= 512 { MulMono(512, i, s); }
    Regroup(q, i, s);
    DivUnique(q * (512 * s) + d, s, q * 512 + i, r);
    DivUnique(q * 512 + i, 512, q, i);
  }

  lemma Regroup(q: nat, i: nat, s: nat)
    ensures (q * 512 + i) * s == q * (512 * s) + i * s
  {
    assert q * (512 * s) == (q * 512) * s;
  }

  /** The slot index computed by shifting and masking finds the slot holding `page`. */
  lemma SlotOfPage(page: nat, base: nat, level: nat)
    requires Aligned(base, level + 1)
    ensures SlotIndex(page, level) < L2_SIZE
    ensures InSlot(page, base, level + 1) ==> InSlot(page, SlotLo(base, level, SlotIndex(page, level)), level)
  {
    if InSlot(page, base, level + 1) {
      var s := Span(level);
      var q := base / (512 * s);
      assert base == q * (512 * s);
      PageInBlock(page - base, s, q);
    }
  }

  /** Distinct slots of one node are disjoint. */
  lemma SlotsDisjoint(base: nat, level: nat, i: nat, j: nat)
    requires i < j
    ensures SlotLo(base, level, i) + Span(level) <= SlotLo(base, level, j)
  {
    MulMono(i + 1, j, Span(level));
    assert (i + 1) * Span(level) == i * Span(level) + Span(level);
  }
}
