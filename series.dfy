/** The algebra of the Chudnovsky series as used by binary splitting.

    Every range [a, b) of series indices carries a triple (P, Q, G) of
    exact integers. A single index k (the range [k-1, k)) has the closed-form
    triple Term(k); two adjacent ranges are merged with Combine. The merge
    algebra holds for any sequence of term triples `t`, so Fold(t, a, b), the
    reference value of a range that merges t(a+1) .. t(b) from left to right,
    and its closed forms ProdP, ProdG and SeriesNumerator are stated for any
    `t`; the program's series is the instance t = Term. Q/P is then the
    partial series sum. */
module Series {

  /** The Chudnovsky constants. */
  const A: int := 13591409
  const B: int := 545140134
  const C: int := 640320
  const D: int := 12

  datatype Triple = Triple(p: int, q: int, g: int)

  /** The triple of the empty range: the unit of Combine. */
  const Identity: Triple := Triple(1, 0, 1)

  function Cube(x: int): (c: int) { x * x * x }

  /** (-1)^k */
  function Sign(k: nat): (s: int)
  {
    if k % 2 == 0 then 1 else -1
  }

  /** The triple of the single index k, as the formulas read:
        g = (6k-5)(2k-1)(6k-1)
        p = k^3 * C^3 / 24
        q = (-1)^k * g * (A + B k) */
  function Term(k: nat): (t: Triple)
  {
    var g := (6 * k - 5) * (2 * k - 1) * (6 * k - 1);
    Triple(Cube(k) * (Cube(C) / 24), Sign(k) * g * (A + B * k), g)
  }

  /** C^3 is a multiple of 24, so C^3 / 24 is exact and equals (C/24)^2 * (24 C). */
  lemma CubeOverTwentyFour()
    ensures C % 24 == 0 && Cube(C) % 24 == 0
    ensures Cube(C) / 24 == (C / 24) * (C / 24) * (C * 24)
  {
  }

  lemma PositiveProduct(x: int, y: int)
    requires x > 0 && y > 0
    ensures x * y > 0
  {
  }

  lemma TermPositive(k: nat)
    requires k >= 1
    ensures Term(k).p > 0 && Term(k).g > 0
  {
    PositiveProduct(k, k);
    PositiveProduct(k * k, k);
    PositiveProduct(Cube(k), Cube(C) / 24);
    PositiveProduct(6 * k - 5, 2 * k - 1);
    PositiveProduct((6 * k - 5) * (2 * k - 1), 6 * k - 1);
  }

  /** q is g * (A + B k) with its sign flipped exactly for odd k, and it is
      negative exactly for odd k. */
  lemma TermSign(k: nat)
    requires k >= 1
    ensures Term(k).q == if k % 2 == 1 then -(Term(k).g * (A + B * k)) else Term(k).g * (A + B * k)
    ensures Term(k).q < 0 <==> k % 2 == 1
  {
    var t := Term(k);
    TermPositive(k);
    assert A + B * k > 0;
    assert t.g * (A + B * k) > 0;
    assert t.q == Sign(k) * (t.g * (A + B * k));
  }

  /** Merging the triples of [a, m) and [m, b) into that of [a, b). */
  function Combine(l: Triple, r: Triple): (m: Triple)
  {
    Triple(l.p * r.p, l.q * r.p + r.q * l.g, l.g * r.g)
  }

  lemma CombineIdentity(t: Triple)
    ensures Combine(Identity, t) == t
    ensures Combine(t, Identity) == t
  {
  }

  lemma CombineAssociative(x: Triple, y: Triple, z: Triple)
    ensures Combine(Combine(x, y), z) == Combine(x, Combine(y, z))
  {
    var xy := Combine(x, y);
    var yz := Combine(y, z);
    calc {
      Combine(xy, z).q;
      (x.q * y.p + y.q * x.g) * z.p + z.q * (x.g * y.g);
      x.q * (y.p * z.p) + y.q * x.g * z.p + z.q * x.g * y.g;
      x.q * (y.p * z.p) + (y.q * z.p + z.q * y.g) * x.g;
      Combine(x, yz).q;
    }
    assert Combine(xy, z).p == Combine(x, yz).p;
    assert Combine(xy, z).g == Combine(x, yz).g;
  }

  /** The reference triple of [a, b): the terms t(a+1) .. t(b) merged left to right. */
  function Fold(t: nat -> Triple, a: nat, b: nat): (r: Triple)
    decreases b - a
  {
    if b <= a then Identity else Combine(Fold(t, a, b - 1), t(b))
  }

  /** Splitting a range anywhere does not change its triple. */
  lemma {:induction false} FoldSplit(t: nat -> Triple, a: nat, m: nat, b: nat)
    requires a <= m <= b
    ensures Fold(t, a, b) == Combine(Fold(t, a, m), Fold(t, m, b))
    decreases b - m
  {
    if b == m {
      CombineIdentity(Fold(t, a, b));
    } else {
      FoldSplit(t, a, m, b - 1);
      CombineAssociative(Fold(t, a, m), Fold(t, m, b - 1), t(b));
    }
  }

  /** Product of the p values of t(a+1) .. t(b). */
  function ProdP(t: nat -> Triple, a: nat, b: nat): (prod: int)
    decreases b - a
  {
    if b <= a then 1 else ProdP(t, a, b - 1) * t(b).p
  }

  /** Product of the g values of t(a+1) .. t(b). */
  function ProdG(t: nat -> Triple, a: nat, b: nat): (prod: int)
    decreases b - a
  {
    if b <= a then 1 else ProdG(t, a, b - 1) * t(b).g
  }

  ghost predicate PositiveTerms(t: nat -> Triple, a: nat, b: nat)
  {
    forall k: nat :: a < k <= b ==> t(k).p > 0 && t(k).g > 0
  }

  lemma TermsPositive(a: nat, b: nat)
    ensures PositiveTerms(Term, a, b)
  {
    forall k: nat | a < k <= b
      ensures Term(k).p > 0 && Term(k).g > 0
    {
      TermPositive(k);
    }
  }

  /** A range of terms with positive p and g has positive products. */
  lemma {:induction false} ProdPositive(t: nat -> Triple, a: nat, b: nat)
    requires PositiveTerms(t, a, b)
    ensures ProdP(t, a, b) > 0 && ProdG(t, a, b) > 0
    decreases b - a
  {
    if b > a {
      ProdPositive(t, a, b - 1);
      PositiveProduct(ProdP(t, a, b - 1), t(b).p);
      PositiveProduct(ProdG(t, a, b - 1), t(b).g);
    }
  }

  /** Contribution of term k to the numerator of the sum over [a, b), written
      over the common denominator ProdP(t, a, b):
        Q(a, b) / P(a, b) = sum of q_k * g_{a+1}..g_{k-1} / (p_{a+1}..p_k). */
  function Summand(t: nat -> Triple, a: nat, k: nat, b: nat): (s: int)
    requires a < k <= b
  {
    ProdG(t, a, k - 1) * t(k).q * ProdP(t, k, b)
  }

  /** Sum of Summand(t, a, k, b) for k = a+1 .. hi. */
  function PartialSum(t: nat -> Triple, a: nat, hi: nat, b: nat): (s: int)
    requires hi <= b
    decreases hi - a
  {
    if hi <= a then 0 else PartialSum(t, a, hi - 1, b) + Summand(t, a, hi, b)
  }

  function SeriesNumerator(t: nat -> Triple, a: nat, b: nat): (s: int)
  {
    PartialSum(t, a, b, b)
  }

  /** Extending the range by the term b multiplies every earlier summand by p_b. */
  lemma {:induction false} PartialSumExtend(t: nat -> Triple, a: nat, hi: nat, b: nat)
    requires hi < b
    ensures PartialSum(t, a, hi, b) == PartialSum(t, a, hi, b - 1) * t(b).p
    decreases hi - a
  {
    if hi > a {
      PartialSumExtend(t, a, hi - 1, b);
      var pb := t(b).p;
      assert ProdP(t, hi, b) == ProdP(t, hi, b - 1) * pb;
      MulAssociative(ProdG(t, a, hi - 1) * t(hi).q, ProdP(t, hi, b - 1), pb);
      assert Summand(t, a, hi, b) == Summand(t, a, hi, b - 1) * pb;
      MulDistributive(PartialSum(t, a, hi - 1, b - 1), Summand(t, a, hi, b - 1), pb);
    }
  }

  lemma MulAssociative(x: int, y: int, z: int)
    ensures x * (y * z) == (x * y) * z
  {
  }

  lemma MulDistributive(x: int, y: int, z: int)
    ensures x * z + y * z == (x + y) * z
  {
  }

  /** The left-to-right fold computes the products of the p and of the g values. */
  lemma {:induction false} FoldIsProducts(t: nat -> Triple, a: nat, b: nat)
    ensures Fold(t, a, b).p == ProdP(t, a, b)
    ensures Fold(t, a, b).g == ProdG(t, a, b)
    decreases b - a
  {
    if b > a {
      FoldIsProducts(t, a, b - 1);
    }
  }

  /** The left-to-right fold computes the numerator of the partial series sum. */
  lemma {:induction false} FoldIsSeries(t: nat -> Triple, a: nat, b: nat)
    ensures Fold(t, a, b).q == SeriesNumerator(t, a, b)
    decreases b - a
  {
    if b > a {
      FoldIsSeries(t, a, b - 1);
      FoldIsProducts(t, a, b - 1);
      PartialSumExtend(t, a, b - 1, b);
      var l, r := Fold(t, a, b - 1), t(b);
      assert Fold(t, a, b) == Combine(l, r);
      assert Summand(t, a, b, b) == ProdG(t, a, b - 1) * r.q by {
        assert ProdP(t, b, b) == 1;
      }
      assert SeriesNumerator(t, a, b) == PartialSum(t, a, b - 1, b) + Summand(t, a, b, b);
      assert PartialSum(t, a, b - 1, b) == l.q * r.p;
      assert SeriesNumerator(t, a, b) == l.q * r.p + r.q * l.g;
    }
  }

  /** The k = 0 term of the series, whose triple has p = g = 1 and q = A;
      the closed-form Term does not give it (Term(0).p is 0). */
  const ZerothTerm: Triple := Triple(1, A, 1)

  /** The triple of the series with its k = 0 term put in front of the
      terms t(1) .. t(n). */
  function FullSeries(t: nat -> Triple, n: nat): (r: Triple)
  {
    Combine(ZerothTerm, Fold(t, 0, n))
  }

  /** The k = 0 term leaves the denominator unchanged and adds A times it
      to the numerator. */
  lemma FullSeriesIsSum(t: nat -> Triple, n: nat)
    ensures FullSeries(t, n).p == ProdP(t, 0, n)
    ensures FullSeries(t, n).q == A * ProdP(t, 0, n) + SeriesNumerator(t, 0, n)
  {
    FoldIsProducts(t, 0, n);
    FoldIsSeries(t, 0, n);
  }
}
