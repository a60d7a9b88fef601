# Chudnovsky binary splitting, modelled in Dafny

The program computes digits of π with the Chudnovsky series:

    π = P · (C/D) · √C / (Q + A·P)

with the constants A = 13591409, B = 545140134, C = 640320 and D = 12. The
exact integers P and Q come from binary splitting over the series indices.
Each range `[a, b)` carries a triple (P, Q, G). A single index `k` has a
closed-form triple. Two adjacent ranges merge as

    P = P1·P2,   Q = Q1·P2 + Q2·G1,   G = G1·G2

The recursive function `bs` cuts its range near 52% of its width and halves
its thread budget between the halves. It runs the halves, and then the three
products of the merge, in OpenMP parallel regions only when the range has at
least 1000 indices and the budget allows it. It skips the G product when
`b >= terms`, because the root of the tree never needs its G. `main` takes
the root triple (the identity triple when `terms <= 0`) and rewrites it as
`Q + A·P` and `P·(C/D)` before switching to floating point.

This model has four modules:

- `series.dfy` (module `Series`): the algebra of the series.
  - `Term(k)` is the per-index triple, written as the formulas in the code's comment read.
  - `Combine` is the merge.
  - `Fold(t, a, b)` merges the term triples `t(a+1) .. t(b)` from left to right.
  - `ProdP`, `ProdG` and `SeriesNumerator` give the same numbers as plain products and a plain sum. So `Q/P` is the partial sum of the series.
  - `FullSeries(t, n)` also includes the `k = 0` term.
  - The merge algebra holds for any term function `t`, so it is stated for any `t`. The program's series is the instance `t = Term`.
- `schedule.dfy` (module `Schedule`): the split rule, the thread budget and the fork decisions.
  - `PlanOf` collects a whole call tree's decisions in a `Plan`.
  - `Peak` is the largest number of threads a plan keeps busy at once.
- `splitting.dfy` (module `Splitting`): `bs` itself.
  - `Merge` is the merge as `bs` performs it: `Combine`, except that G stays that of the left half when the G product is skipped.
  - `RangeTriple` is the value a call returns.
  - `BinarySplit` is the call. It writes three out-parameters and updates them step by step, as the `mpz` calls do.
  - `SingleTerm` builds one index's triple in the code's own order of operations.
  - `MergeHalves` performs the merge's in-place products and addition in the code's order.
- `driver.dfy` (module `Driver`): the integer half of `main`.

The split point is a parameter `split`. Any rule that lands strictly inside
every range of width at least 3 is accepted (`ValidSplit`). The driver uses
`SkewedMid`, the integer stand-in for `a + (b-a)*0.5224`.

## Model

| member | source | states |
|---|---|---|
| Series.CubeOverTwentyFour | raspberry-pi2-openmp.c:104-114 | C and C^3 are multiples of 24, and C^3/24 equals (C/24)^2 · (24·C). So the code's constant factors give the comment's `b^3 C^3 / 24` exactly. |
| Series.TermPositive | raspberry-pi2-openmp.c:104-118 | For every index k >= 1, the term's P and G are strictly positive. |
| Series.TermSign | raspberry-pi2-openmp.c:104-125 | A term's Q is `G·(A + B·k)`, negated exactly when k is odd. So Q < 0 iff k is odd. |
| Series.CombineIdentity | raspberry-pi2-openmp.c:280-286 | The triple (1, 0, 1) of the empty series is a two-sided unit of the merge. |
| Series.CombineAssociative | raspberry-pi2-openmp.c:170-173 | The merge recurrence is associative, on all three components. |
| Series.FoldSplit | raspberry-pi2-openmp.c:170-173 | For every cut point a <= m <= b, the triple of [a, b) is the merge of the triples of [a, m) and [m, b). |
| Series.TermsPositive | raspberry-pi2-openmp.c:104-118 | Every term of every range has positive p and g. |
| Series.ProdPositive | raspberry-pi2-openmp.c:170-173 | If every term of a range has positive p and g, then the products of the p values and of the g values are strictly positive. By FoldIsProducts these are the P and G of the range. |
| Series.FoldIsProducts | raspberry-pi2-openmp.c:170-173 | The P of a range is the product of its terms' p values, and its G is the product of their g values. |
| Series.FoldIsSeries | raspberry-pi2-openmp.c:170-173 | The Q of a range equals an independent closed form: the sum over k of `g_(a+1)..g_(k-1) · q_k · p_(k+1)..p_b`. So Q/P is the partial series sum. |
| Series.FullSeriesIsSum | raspberry-pi2-openmp.c:300-310 | Putting the k = 0 term (1, A, 1) in front of the terms 1..n gives P = ∏p and Q = A·∏p + the series numerator. |
| Schedule.SkewedMidValid | raspberry-pi2-openmp.c:178 | The skewed split point a + (b-a)·5224/10000 lies strictly inside every range of width >= 3. |
| Schedule.LeftBudget | raspberry-pi2-openmp.c:176-177 | `tds/2` truncates toward zero. For tds >= 0, the left budget is at most the right budget `tds - tds/2`. From 2 threads on, both halves get at least one. A budget <= 1 gives both halves at most 1. |
| Schedule.PeakWithinBudget | raspberry-pi2-openmp.c:176-213 | The threads a call tree keeps busy at once never exceed max(tds, 1). Parallel halves add their peaks, and the 3-way merge region needs 3. |
| Schedule.SequentialBelowThreshold | raspberry-pi2-openmp.c:176-213 | With a budget <= 1, or fewer than 1000 indices, no parallel region is entered at that call or below it. |
| Schedule.ShapeIgnoresBudget | raspberry-pi2-openmp.c:176-194 | The calls of the tree and the ranges they cover depend only on the range and the split rule, not on the thread budget. |
| Splitting.CutPoint | raspberry-pi2-openmp.c:133-182 | Every call of width >= 2 cuts its range strictly inside. The two-term case cuts at b-1. |
| Splitting.SingleTerm | raspberry-pi2-openmp.c:102-125 | The in-place sequence of multiplications, the addition and the conditional negation yields exactly the single-index triple `Term(b)`. |
| Splitting.MergeHalves | raspberry-pi2-openmp.c:196-221 | The three products, the addition and the G product (done only when asked) give `Merge` of the two halves. With the G product this is exactly `Combine`. Without it, P and Q are still those of `Combine`, and G is that of the left half. |
| Splitting.BinarySplit | raspberry-pi2-openmp.c:96-224 | The out-parameters are the triple `RangeTriple` of [a, b). When b <= terms, P and Q are those of the whole range. When b < terms, G is too. |
| Splitting.RangeIsFold | raspberry-pi2-openmp.c:168-221 | Under a root with b <= terms, every call returns the P and Q of its range. Below the last index, it also returns the exact G. At the last index, G is that of the left half only. |
| Splitting.PairShortcut | raspberry-pi2-openmp.c:133-166 | The two-term case returns what two single-term calls and one merge return. Below the last index, that is `Combine(Term(b-1), Term(b))`. |
| Splitting.BudgetIndependent | raspberry-pi2-openmp.c:176-194 | Any two thread budgets give the same triple. |
| Splitting.SplitIndependent | raspberry-pi2-openmp.c:176-182 | Any two valid split rules give the same P and Q. Below the last index, they also give the same G. |
| Driver.ScaleIsExact | raspberry-pi2-openmp.c:309-310 | C/D divides exactly and is 53360. |
| Driver.RootTriple | raspberry-pi2-openmp.c:280-286 | For terms <= 0 the root triple is (1, 0, 1). Otherwise its P and Q are those of the range [0, terms). |
| Driver.Finish | raspberry-pi2-openmp.c:309-310 | For any series of positive terms, rewriting the root P and Q as `P·(C/D)` and `Q + P·A` gives the P of the full series times 53360 and the Q of the full series. That Q is A·∏p plus the series numerator, and `P·(C/D)` is positive. |
| Driver.SeriesIntegers | raspberry-pi2-openmp.c:274-310 | The two integers handed to the floating-point stage are P·53360 and Q + A·P. Together they are the series including its k = 0 term, and P·53360 is positive. |

## Left out

- The floating-point stage is not modelled: the working precision, the conversions to `mpf`, the division, √C, the final product and the decimal output (raspberry-pi2-openmp.c:298-384). It is floating-point numerics and I/O.
- The number of terms `d / 14.18...` is computed in double precision (raspberry-pi2-openmp.c:263). It is an input here.
- The `depth` loop only feeds a diagnostic message, so it is left out.
- Timing (`wall_clock`, `cpu_time`) and all messages on stderr are left out. So are argument parsing, the usage text and the OpenMP runtime settings (raspberry-pi2-openmp.c:75-91, 237-261, 269, 288-292, 346-374). They are OS calls and I/O.
- The split point `a + (b-a)*0.5224` is computed in double precision. The model takes the split rule as a parameter and proves every result for every rule strictly inside the range. `SkewedMid` uses the exact fraction 5224/10000, so it may differ from the double result by one index for some widths.
- OpenMP regions run sequentially in the model: both halves, then the three products. The model assumes the region gets its full team. With a smaller team, the `i == 0` branch shadows the `j < 2` and `j < 3` fallbacks. A team of one in the two-way region would skip the right half. A team smaller than three in the three-way region would skip `Q1·P2` and/or `Q2·G1` (raspberry-pi2-openmp.c:206-211). That dispatch on thread numbers is not modelled. `Peak` counts the threads the regions request.
- `mpz_init`, `mpz_clear` and `mpz_sizeinbase` are memory bookkeeping and statistics, so they are left out.
- Machine words are not modelled. Indices, `6*b-1` and the like are unbounded integers, so `unsigned long` overflow for huge indices is not captured. Neither is the conversion of the `long` thread count to the `int` budget.
- Splitting.RangeIsFold: P and Q are stated only under `b <= terms`. Every call made from `main` meets this. A call with `b > terms` would skip G in a left half whose G its parent still needs.
