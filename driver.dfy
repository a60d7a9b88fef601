/** The integer part of the driver: evaluate the series over [0, terms) and
    rewrite the root triple into the numerator and denominator of the final
    quotient

        pi = P (C/D) sqrt(C) / (Q + A P).

    Adding A P to Q puts the k = 0 term of the series, which the splitting
    never produces, in front of the terms 1 .. terms. */
module Driver {
  import opened Series
  import opened Schedule
  import opened Splitting

  /** C / D is exact: the scale factor is 53360. */
  lemma ScaleIsExact()
    ensures C % D == 0 && C / D == 53360
  {
  }

  /** The root triple: the identity for `terms <= 0`, otherwise the call on
      [0, terms) with the whole thread budget. */
  method RootTriple(terms: int, threads: int) returns (p: int, q: int, g: int)
    ensures terms <= 0 ==> Triple(p, q, g) == Identity
    ensures p == Fold(Term, 0, Max(terms, 0)).p && q == Fold(Term, 0, Max(terms, 0)).q
  {
    if terms <= 0 {
      p, q, g := 1, 0, 1;
    } else {
      SkewedMidValid();
      p, q, g := BinarySplit(0, terms, terms, threads, SkewedMid);
    }
  }

  /** The rewrite of the root triple of any positive series: P * (C/D) is
      the full series' P scaled by 53360, and Q + P * A is the full series' Q,
      that is A times the product of the p values plus the series numerator. */
  lemma Finish(t: nat -> Triple, n: nat, p: int, q: int)
    requires PositiveTerms(t, 0, n)
    requires p == Fold(t, 0, n).p && q == Fold(t, 0, n).q
    ensures p * (C / D) == FullSeries(t, n).p * 53360 == ProdP(t, 0, n) * 53360
    ensures q + p * A == FullSeries(t, n).q == A * ProdP(t, 0, n) + SeriesNumerator(t, 0, n)
    ensures p * (C / D) > 0
  {
    FoldIsProducts(t, 0, n);
    FoldIsSeries(t, 0, n);
    ProdPositive(t, 0, n);
    FullSeriesIsSum(t, n);
  }

  /** The two exact integers handed to the floating-point stage: the
      denominator side P * (C/D) and the numerator side Q + A * P. They are the
      series with its k = 0 term included. */
  method SeriesIntegers(terms: int, threads: int) returns (p: int, q: int)
    ensures p == FullSeries(Term, Max(terms, 0)).p * 53360
    ensures q == FullSeries(Term, Max(terms, 0)).q
    ensures p == ProdP(Term, 0, Max(terms, 0)) * 53360
    ensures q == A * ProdP(Term, 0, Max(terms, 0)) + SeriesNumerator(Term, 0, Max(terms, 0))
    ensures p > 0
  {
    var pstack, qstack, gstack := RootTriple(terms, threads);
    ghost var n := Max(terms, 0);
    TermsPositive(0, n);
    Finish(Term, n, pstack, qstack);

    qstack := qstack + pstack * A;
    pstack := pstack * (C / D);
    p, q := pstack, qstack;
  }
}
