/** The heap's memory: a table of whole pages that doubles when full and halves when nearly
    empty.  A page holds E entries. */
module HeapPages {

  /** Active entries, mapped pages, and the pages it never shrinks below. */
  datatype Pages = Pages(active: nat, mapped: nat, minimum: nat)

  /** The pages n entries occupy. */
  function Used(n: nat, E: nat): nat
    requires 1 <= E
  {
    n / E + if n % E > 0 then 1 else 0
  }

  lemma MulMonotone(a: int, b: int, E: nat)
    requires a <= b
    ensures a * E <= b * E
  {}

  /** Used pages are the least number of pages that hold n entries. */
  lemma UsedIsCeiling(n: nat, E: nat, k: int)
    requires 1 <= E
    ensures Used(n, E) <= k <==> n <= k * E
  {
    var q, r := n / E, n % E;
    assert n == q * E + r;
    if Used(n, E) <= k {
      MulMonotone(Used(n, E), k, E);
      assert (q + 1) * E == q * E + E;
    } else {
      if k <= q {
        MulMonotone(k, q, E);
        if k < q { MulMonotone(k + 1, q, E); assert (k + 1) * E == k * E + E; }
      }
    }
  }

  /** An empty heap for an initial size; a size that is not positive means one page. */
  function Created(initialSize: int, E: nat): Pages
    requires 1 <= E
  {
    var size := if initialSize <= 0 then E else initialSize;
    Pages(0, Used(size, E), Used(size, E))
  }

  datatype Op = InsertOp | DelMinOp

  predicate Grows(p: Pages, op: Op, E: nat) {
    op == InsertOp && p.active + 1 > p.mapped * E
  }

  predicate Shrinks(p: Pages, op: Op, E: nat)
    requires 1 <= E
  {
    op == DelMinOp && p.active > 0 && p.mapped / 2 > Used(p.active - 1, E) + 1 && p.mapped / 2 >= p.minimum
  }

  /** The memory after one operation; delmin on an empty heap does nothing. */
  function After(p: Pages, op: Op, E: nat): Pages
    requires 1 <= E
  {
    if op == InsertOp then
      Pages(p.active + 1, if Grows(p, op, E) then p.mapped * 2 else p.mapped, p.minimum)
    else if p.active == 0 then p
    else
      Pages(p.active - 1, if Shrinks(p, op, E) then p.mapped / 2 else p.mapped, p.minimum)
  }

  function AfterAll(p: Pages, ops: seq<Op>, E: nat): Pages
    requires 1 <= E
  {
    if ops == [] then p else After(AfterAll(p, ops[..|ops|-1], E), ops[|ops|-1], E)
  }

  function Max(a: int, b: int): int { if a < b then b else a }

  /** What holds of the memory in every reachable state: room for every entry, and never more than
      about twice what is used or asked for at creation. */
  ghost predicate Bounded(p: Pages, E: nat)
    requires 1 <= E
  {
    && 1 <= p.minimum <= p.mapped
    && p.active <= p.mapped * E
    && p.mapped <= Max(2 * Used(p.active, E) + 3, 2 * p.minimum - 1)
  }

  lemma CreatedIsBounded(initialSize: int, E: nat)
    requires 1 <= E
    ensures Bounded(Created(initialSize, E), E)
  {
    var size := if initialSize <= 0 then E else initialSize;
    UsedIsCeiling(size, E, 0);
  }

  lemma UsedStep(n: nat, E: nat)
    requires 1 <= E
    ensures Used(n, E) <= Used(n + 1, E) <= Used(n, E) + 1
  {
    UsedIsCeiling(n, E, Used(n, E));
    UsedIsCeiling(n, E, Used(n + 1, E));
    UsedIsCeiling(n + 1, E, Used(n + 1, E));
    UsedIsCeiling(n + 1, E, Used(n, E) + 1);
    assert (Used(n, E) + 1) * E == Used(n, E) * E + E;
  }

  lemma InsertBounded(p: Pages, E: nat)
    requires 1 <= E && Bounded(p, E)
    ensures Bounded(After(p, InsertOp, E), E)
  {
    UsedStep(p.active, E);
    if Grows(p, InsertOp, E) {
      DoublingHasRoom(p, E);
      UsedIsCeiling(p.active + 1, E, p.mapped);
    }
  }

  lemma DoublingHasRoom(p: Pages, E: nat)
    requires 1 <= E && 1 <= p.mapped && p.active <= p.mapped * E
    ensures p.active + 1 <= p.mapped * 2 * E
  {
    MulMonotone(1, p.mapped, E);
    assert p.mapped * 2 * E == p.mapped * E + p.mapped * E;
  }

  lemma DelMinBounded(p: Pages, E: nat)
    requires 1 <= E && Bounded(p, E)
    ensures Bounded(After(p, DelMinOp, E), E)
  {
    if p.active > 0 {
      UsedStep(p.active - 1, E);
      if Shrinks(p, DelMinOp, E) {
        UsedIsCeiling(p.active - 1, E, p.mapped / 2);
      }
    }
  }

  /** Every state reachable by create, insert and delmin is bounded. */
  lemma {:induction false} MemoryStaysBounded(initialSize: int, ops: seq<Op>, E: nat)
    requires 1 <= E
    ensures Bounded(AfterAll(Created(initialSize, E), ops, E), E)
  {
    if ops == [] {
      CreatedIsBounded(initialSize, E);
    } else {
      MemoryStaysBounded(initialSize, ops[..|ops|-1], E);
      InsertBounded(AfterAll(Created(initialSize, E), ops[..|ops|-1], E), E);
      DelMinBounded(AfterAll(Created(initialSize, E), ops[..|ops|-1], E), E);
    }
  }

  /** What create maps: one page for a size that is not positive, and otherwise the least number of
      pages that hold the size; no entries, and this is the minimum. */
  lemma CreatedPages(initialSize: int, E: nat)
    requires 1 <= E
    ensures var p := Created(initialSize, E);
      && p.active == 0 && p.minimum == p.mapped
      && (initialSize <= 0 ==> p.mapped == 1)
      && (initialSize > 0 ==> initialSize <= p.mapped * E < initialSize + E)
  {
    var p := Created(initialSize, E);
    if initialSize <= 0 {
      UsedIsCeiling(E, E, 1);
      UsedIsCeiling(E, E, 0);
    } else {
      UsedIsCeiling(initialSize, E, p.mapped);
      UsedIsCeiling(initialSize, E, p.mapped - 1);
      assert (p.mapped - 1) * E == p.mapped * E - E;
    }
  }

  function Pow2(j: nat): nat { if j == 0 then 1 else 2 * Pow2(j - 1) }

  /** The table only ever doubles and halves: in every reachable state it is the minimum times a
      power of two. */
  lemma {:induction false} MappedIsPowerOfTwo(initialSize: int, ops: seq<Op>, E: nat) returns (j: nat)
    requires 1 <= E
    ensures var p := AfterAll(Created(initialSize, E), ops, E);
      1 <= p.minimum == Created(initialSize, E).minimum && p.mapped == p.minimum * Pow2(j)
  {
    if ops == [] {
      CreatedIsBounded(initialSize, E);
      j := 0;
    } else {
      var init, op := ops[..|ops|-1], ops[|ops|-1];
      j := MappedIsPowerOfTwo(initialSize, init, E);
      j := ResizeByTwo(AfterAll(Created(initialSize, E), init, E), op, E, j);
    }
  }

  lemma ResizeByTwo(p: Pages, op: Op, E: nat, j: nat) returns (k: nat)
    requires 1 <= E && 1 <= p.minimum && p.mapped == p.minimum * Pow2(j)
    ensures After(p, op, E).minimum == p.minimum && After(p, op, E).mapped == p.minimum * Pow2(k)
  {
    if Grows(p, op, E) {
      k := j + 1;
      assert p.minimum * (2 * Pow2(j)) == 2 * (p.minimum * Pow2(j));
    } else if Shrinks(p, op, E) {
      assert j > 0;
      k := j - 1;
      assert p.minimum * (2 * Pow2(k)) == 2 * (p.minimum * Pow2(k));
    } else {
      k := j;
    }
  }

  // ----- hysteresis -----

  predicate Resizes(p: Pages, op: Op, E: nat)
    requires 1 <= E
  {
    Grows(p, op, E) || Shrinks(p, op, E)
  }

  predicate NoResize(p: Pages, ops: seq<Op>, E: nat)
    requires 1 <= E
  {
    forall i :: 0 <= i < |ops| ==> !Resizes(AfterAll(p, ops[..i], E), ops[i], E)
  }

  /** Without a resize, the table stays and each operation moves the entry count by at most one. */
  lemma {:induction false} Drift(p: Pages, ops: seq<Op>, E: nat)
    requires 1 <= E && NoResize(p, ops, E)
    ensures var q := AfterAll(p, ops, E);
      && q.mapped == p.mapped && q.minimum == p.minimum
      && p.active - |ops| <= q.active <= p.active + |ops|
  {
    if ops != [] {
      var init := ops[..|ops|-1];
      forall i | 0 <= i < |init| ensures !Resizes(AfterAll(p, init[..i], E), init[i], E) {
        assert init[..i] == ops[..i];
      }
      Drift(p, init, E);
      assert !Resizes(AfterAll(p, ops[..|init|], E), ops[|init|], E);
    }
  }

  /** A shrink leaves two free pages in the halved table. */
  lemma ShrinkLeavesRoom(p: Pages, E: nat)
    requires 1 <= E && Shrinks(p, DelMinOp, E)
    ensures p.active - 1 <= (p.mapped / 2) * E - 2 * E
  {
    UsedIsCeiling(p.active - 1, E, p.mapped / 2 - 2);
    assert (p.mapped / 2 - 2) * E == (p.mapped / 2) * E - 2 * E;
  }

  lemma GrowThenShrink(p: Pages, between: seq<Op>, E: nat)
    requires 1 <= E && Bounded(p, E) && Grows(p, InsertOp, E)
    requires NoResize(After(p, InsertOp, E), between, E)
    requires Shrinks(AfterAll(After(p, InsertOp, E), between, E), DelMinOp, E)
    ensures |between| >= 2 * E
  {
    var q := After(p, InsertOp, E);
    Drift(q, between, E);
    ShrinkLeavesRoom(AfterAll(q, between, E), E);
    assert (p.mapped * 2) / 2 == p.mapped;
  }

  lemma ShrinkThenGrow(p: Pages, between: seq<Op>, E: nat)
    requires 1 <= E && Shrinks(p, DelMinOp, E)
    requires NoResize(After(p, DelMinOp, E), between, E)
    requires Grows(AfterAll(After(p, DelMinOp, E), between, E), InsertOp, E)
    ensures |between| >= 2 * E
  {
    var q := After(p, DelMinOp, E);
    Drift(q, between, E);
    ShrinkLeavesRoom(p, E);
  }

  /** Between a grow and the next shrink, or a shrink and the next grow, lie at least two pages of
      operations when no other resize comes between, from any reachable state. */
  lemma Hysteresis(initialSize: int, before: seq<Op>, first: Op, between: seq<Op>, last: Op, E: nat)
    requires 1 <= E
    requires var p := AfterAll(Created(initialSize, E), before, E);
      var q := After(p, first, E);
      var r := AfterAll(q, between, E);
      && NoResize(q, between, E)
      && ((Grows(p, first, E) && Shrinks(r, last, E)) || (Shrinks(p, first, E) && Grows(r, last, E)))
    ensures |between| >= 2 * E
  {
    var p := AfterAll(Created(initialSize, E), before, E);
    MemoryStaysBounded(initialSize, before, E);
    if Grows(p, first, E) {
      GrowThenShrink(p, between, E);
    } else {
      ShrinkThenGrow(p, between, E);
    }
  }

  function Repeat(op: Op, n: nat): seq<Op> { seq(n, _ => op) }

  lemma {:induction false} FillTwoPages(n: nat, E: nat)
    requires 1 <= E && n <= 2 * E
    ensures AfterAll(Created(1, E), Repeat(InsertOp, n), E) == Pages(n, if n <= E then 1 else 2, 1)
  {
    if n == 0 {
      UsedIsCeiling(1, E, 1);
      UsedIsCeiling(1, E, 0);
    } else {
      FillTwoPages(n - 1, E);
      assert Repeat(InsertOp, n)[..n - 1] == Repeat(InsertOp, n - 1);
    }
  }

  lemma {:induction false} EmptyTwoPages(k: nat, E: nat)
    requires 1 <= E && k <= 2 * E
    ensures AfterAll(Pages(2 * E + 1, 4, 1), Repeat(DelMinOp, k), E) == Pages(2 * E + 1 - k, 4, 1)
    ensures k < 2 * E <==> !Shrinks(Pages(2 * E + 1 - k, 4, 1), DelMinOp, E)
  {
    UsedIsCeiling(2 * E - k, E, 0);
    if k > 0 {
      EmptyTwoPages(k - 1, E);
      assert Repeat(DelMinOp, k)[..k - 1] == Repeat(DelMinOp, k - 1);
    }
  }

  lemma {:induction false} RefillTwoPages(k: nat, E: nat)
    requires 1 <= E && k <= 2 * E
    ensures AfterAll(Pages(0, 2, 1), Repeat(InsertOp, k), E) == Pages(k, 2, 1)
    ensures k < 2 * E <==> !Grows(Pages(k, 2, 1), InsertOp, E)
  {
    if k > 0 {
      RefillTwoPages(k - 1, E);
      assert Repeat(InsertOp, k)[..k - 1] == Repeat(InsertOp, k - 1);
    }
  }

  /** The bound is attained in both directions, for every page size: a heap that has just grown to
      four pages shrinks again after exactly two pages of delmins, and then grows again after
      exactly two pages of inserts. */
  lemma HysteresisIsTight(E: nat) returns (before: seq<Op>, down: seq<Op>, up: seq<Op>)
    requires 1 <= E
    ensures |down| == |up| == 2 * E
    ensures var p := AfterAll(Created(1, E), before, E);
      var q := After(p, InsertOp, E);
      var r := AfterAll(q, down, E);
      var t := After(r, DelMinOp, E);
      && Grows(p, InsertOp, E) && NoResize(q, down, E) && Shrinks(r, DelMinOp, E)
      && NoResize(t, up, E) && Grows(AfterAll(t, up, E), InsertOp, E)
  {
    before, down, up := Repeat(InsertOp, 2 * E), Repeat(DelMinOp, 2 * E), Repeat(InsertOp, 2 * E);
    FillTwoPages(2 * E, E);
    EmptyTwoPages(2 * E, E);
    RefillTwoPages(2 * E, E);
    hide AfterAll;
    DeletesResizeNothing(E);
    InsertsResizeNothing(E);
  }

  lemma InsertsResizeNothing(E: nat)
    requires 1 <= E
    ensures NoResize(Pages(0, 2, 1), Repeat(InsertOp, 2 * E), E)
  {
    hide AfterAll, Grows;
    var q, ops := Pages(0, 2, 1), Repeat(InsertOp, 2 * E);
    forall i | 0 <= i < |ops| ensures !Resizes(AfterAll(q, ops[..i], E), ops[i], E) {
      assert ops[..i] == Repeat(InsertOp, i);
      RefillTwoPages(i, E);
    }
  }

  lemma DeletesResizeNothing(E: nat)
    requires 1 <= E
    ensures NoResize(Pages(2 * E + 1, 4, 1), Repeat(DelMinOp, 2 * E), E)
  {
    hide AfterAll, Shrinks;
    var q, ops := Pages(2 * E + 1, 4, 1), Repeat(DelMinOp, 2 * E);
    forall i | 0 <= i < |ops| ensures !Resizes(AfterAll(q, ops[..i], E), ops[i], E) {
      assert ops[..i] == Repeat(DelMinOp, i);
      EmptyTwoPages(i, E);
    }
  }
}
