/** How `bs` cuts a range and shares its thread budget, and when it runs
    work in parallel regions.

    The split point of a range of at least three indices is a parameter
    (any function that lands strictly inside the range); the thread budget
    is halved with C's truncating integer division; two OpenMP regions are
    entered only for ranges of at least 1000 indices with a budget of at
    least 2 (the two halves) or 3 (the three products of the merge). The
    decisions of a whole call tree are collected in a Plan, whose Peak is
    the largest number of threads the plan keeps busy at once. */
module Schedule {

  /** Width from which a range is worth running in parallel regions. */
  const ParallelWidth: int := 1000

  /** A split rule is valid when it cuts every range of width >= 3 into two
      non-empty halves. */
  ghost predicate ValidSplit(split: (int, int) -> int)
  {
    forall lo: int, hi: int :: lo + 3 <= hi ==> lo < split(lo, hi) < hi
  }

  /** Integer stand-in for `a + (b - a) * 0.5224` converted to an unsigned
      index (calls always have b > a, so the product is non-negative). */
  function SkewedMid(a: int, b: int): (mid: int)
  {
    a + (b - a) * 5224 / 10000
  }

  lemma SkewedMidValid()
    ensures ValidSplit(SkewedMid)
  {
    forall lo: int, hi: int | lo + 3 <= hi
      ensures lo < SkewedMid(lo, hi) < hi
    {
      var w := hi - lo;
      assert w * 5224 >= 10000;
      assert w * 5224 < w * 10000;
      assert w * 5224 / 10000 >= 1;
      assert w * 5224 / 10000 < w;
    }
  }

  /** The budget of the left half: `tds / 2` with C's truncation toward zero.
      The right half gets `tds - t0`, so the budget is shared exactly; for a non-negative
      budget the left half gets the smaller share, and from 2 threads on
      both halves get at least one. */
  function LeftBudget(tds: int): (t0: int)
    ensures tds >= 0 ==> 0 <= tds - 2 * t0 <= 1
    ensures tds < 0 ==> -1 <= tds - 2 * t0 <= 0
    ensures tds >= 0 ==> 0 <= t0 <= tds - t0
    ensures tds >= 2 ==> t0 >= 1 && tds - t0 >= 1
    ensures tds < 0 ==> tds - t0 <= t0 <= 0
    ensures tds <= 1 ==> t0 <= 1 && tds - t0 <= 1
  {
    if tds >= 0 then tds / 2 else -((-tds) / 2)
  }

  function RightBudget(tds: int): (t1: int)
  {
    tds - LeftBudget(tds)
  }

  /** The two halves are run in a parallel region of two threads. */
  predicate ForkHalves(width: int, tds: int)
  {
    !(width < ParallelWidth || tds < 2)
  }

  /** The three products of the merge are run in a parallel region of three threads. */
  predicate ForkProducts(width: int, tds: int)
  {
    !(width < ParallelWidth || tds < 3)
  }

  /** The call tree of `bs` with the decisions taken at each call. A range of
      one or two indices is built directly and merged sequentially. */
  datatype Plan =
    | Direct(lo: int, hi: int)
    | Cut(lo: int, mid: int, hi: int, budget: int,
          forkHalves: bool, forkProducts: bool, left: Plan, right: Plan)

  function PlanOf(a: int, b: int, tds: int, split: (int, int) -> int): (plan: Plan)
    requires a < b
    requires ValidSplit(split)
    decreases b - a
  {
    if b - a <= 2 then Direct(a, b)
    else
      var mid := split(a, b);
      Cut(a, mid, b, tds, ForkHalves(b - a, tds), ForkProducts(b - a, tds),
          PlanOf(a, mid, LeftBudget(tds), split), PlanOf(mid, b, RightBudget(tds), split))
  }

  function Max(x: int, y: int): (m: int)
  {
    if x < y then y else x
  }

  /** Most threads the plan keeps busy at one moment: halves run in parallel
      add up, halves run one after the other do not; the merge runs after
      both halves have finished. */
  function Peak(plan: Plan): (threads: int)
  {
    match plan
    case Direct(_, _) => 1
    case Cut(_, _, _, _, forkHalves, forkProducts, left, right) =>
      Max(if forkHalves then Peak(left) + Peak(right) else Max(Peak(left), Peak(right)),
          if forkProducts then 3 else 1)
  }

  /** No parallel region anywhere in the plan. */
  predicate Sequential(plan: Plan)
  {
    match plan
    case Direct(_, _) => true
    case Cut(_, _, _, _, forkHalves, forkProducts, left, right) =>
      !forkHalves && !forkProducts && Sequential(left) && Sequential(right)
  }

  /** The threads in use never exceed the budget given to the root call
      (or one thread, when that budget is below one). */
  lemma {:induction false} PeakWithinBudget(a: int, b: int, tds: int, split: (int, int) -> int)
    requires a < b
    requires ValidSplit(split)
    ensures 1 <= Peak(PlanOf(a, b, tds, split)) <= Max(tds, 1)
    decreases b - a
  {
    if b - a > 2 {
      var mid := split(a, b);
      PeakWithinBudget(a, mid, LeftBudget(tds), split);
      PeakWithinBudget(mid, b, RightBudget(tds), split);
    }
  }

  /** A budget of one thread or a range narrower than 1000 indices runs
      sequentially at that call and at every call below it. */
  lemma {:induction false} SequentialBelowThreshold(a: int, b: int, tds: int, split: (int, int) -> int)
    requires a < b
    requires ValidSplit(split)
    requires tds <= 1 || b - a < ParallelWidth
    ensures Sequential(PlanOf(a, b, tds, split))
    decreases b - a
  {
    if b - a > 2 {
      var mid := split(a, b);
      SequentialBelowThreshold(a, mid, LeftBudget(tds), split);
      SequentialBelowThreshold(mid, b, RightBudget(tds), split);
    }
  }

  /** The ranges of a call tree, without the scheduling decisions. */
  datatype Shape = Piece(lo: int, hi: int) | Halves(lo: int, mid: int, hi: int, left: Shape, right: Shape)

  function ShapeOf(plan: Plan): (shape: Shape)
  {
    match plan
    case Direct(lo, hi) => Piece(lo, hi)
    case Cut(lo, mid, hi, _, _, _, left, right) => Halves(lo, mid, hi, ShapeOf(left), ShapeOf(right))
  }

  /** Which calls exist and which ranges they cover depend on the range and
      the split rule only, never on the thread budget. */
  lemma {:induction false} ShapeIgnoresBudget(a: int, b: int, t1: int, t2: int, split: (int, int) -> int)
    requires a < b
    requires ValidSplit(split)
    ensures ShapeOf(PlanOf(a, b, t1, split)) == ShapeOf(PlanOf(a, b, t2, split))
    decreases b - a
  {
    if b - a > 2 {
      var mid := split(a, b);
      ShapeIgnoresBudget(a, mid, LeftBudget(t1), LeftBudget(t2), split);
      ShapeIgnoresBudget(mid, b, RightBudget(t1), RightBudget(t2), split);
    }
  }
}
