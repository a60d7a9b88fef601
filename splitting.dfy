/** Binary splitting: `bs(a, b, ...)` computes the triple of the range [a, b).

    RangeTriple is the value a call returns, following the same three cases
    as the C function; BinarySplit is the call itself, writing its result
    into its three out-parameters and updating them step by step as the
    `mpz` calls do. The merge skips the G product when b >= terms, the total
    number of terms, because the root of the tree never needs its G. */
module Splitting {
  import opened Series
  import opened Schedule

  /** The merge of two halves as `bs` performs it: Combine, except that when
      `withG` is false the G product is skipped and G stays that of the left
      half. */
  function Merge(l: Triple, r: Triple, withG: bool): (m: Triple)
  {
    if withG then Combine(l, r) else Combine(l, r).(g := l.g)
  }

  /** What the call on [a, b) returns, with the thread budget `tds` halved
      between the two recursive calls of a range of three or more. */
  function RangeTriple(a: nat, b: nat, terms: int, tds: int, split: (int, int) -> int): (r: Triple)
    requires a < b
    requires ValidSplit(split)
    decreases b - a
  {
    if b - a == 1 then Term(b)
    else if b - a == 2 then Merge(Term(b - 1), Term(b), b < terms)
    else
      var mid := split(a, b);
      Merge(RangeTriple(a, mid, terms, LeftBudget(tds), split),
            RangeTriple(mid, b, terms, RightBudget(tds), split), b < terms)
  }

  /** Where the call on [a, b) cuts its range: the two-term case takes its
      two terms separately. */
  function CutPoint(a: nat, b: nat, split: (int, int) -> int): (m: nat)
    requires a + 2 <= b
    requires ValidSplit(split)
    ensures a < m < b
  {
    if b - a == 2 then b - 1 else split(a, b)
  }

  /** The triple of a single index k, built up the way the C code does:
      p = k * k * k * (C/24)^2 * (24 C), g = (2k-1)(6k-1)(6k-5),
      q = (k B + A) g, negated for odd k. */
  method SingleTerm(k: nat) returns (p: int, q: int, g: int)
    requires k >= 1
    ensures Triple(p, q, g) == Term(k)
  {
    p := k;
    p := p * k;
    p := p * k;
    p := p * ((C / 24) * (C / 24));
    p := p * (C * 24);

    g := 2 * k - 1;
    g := g * (6 * k - 1);
    g := g * (6 * k - 5);

    q := k;
    q := q * B;
    q := q + A;
    q := q * g;
    if k % 2 == 1 {
      q := -q;
    }

    CubeOverTwentyFour();
    assert p == Cube(k) * (Cube(C) / 24);
    assert g == (6 * k - 5) * (2 * k - 1) * (6 * k - 1);
    assert q == Sign(k) * g * (A + B * k);
  }

  /** The merge at the end of `bs`, updating the left half's triple in place:
      P1 *= P2, Q1 *= P2, Q2 *= G1, Q1 += Q2 and, unless the G product is
      skipped, G1 *= G2. It computes Combine of the two halves, with G left
      as G1 when `withG` is false. */
  method MergeHalves(p1: int, q1: int, g1: int, p2: int, q2: int, g2: int, withG: bool)
      returns (p: int, q: int, g: int)
    ensures Triple(p, q, g) == Merge(Triple(p1, q1, g1), Triple(p2, q2, g2), withG)
    ensures withG ==> Triple(p, q, g) == Combine(Triple(p1, q1, g1), Triple(p2, q2, g2))
    ensures !withG ==>
              p == Combine(Triple(p1, q1, g1), Triple(p2, q2, g2)).p &&
              q == Combine(Triple(p1, q1, g1), Triple(p2, q2, g2)).q && g == g1
  {
    p, q, g := p1, q1, g1;
    var r := q2;
    p := p * p2;
    q := q * p2;
    r := r * g;
    q := q + r;
    if withG {
      g := g * g2;
    }
  }

  /** The call `bs(a, b, p, q, g, tds)`. The OpenMP regions only decide which
      thread runs each step; here both halves and then the three products
      run one after the other. */
  method BinarySplit(a: nat, b: nat, terms: int, tds: int, split: (int, int) -> int)
      returns (p: int, q: int, g: int)
    requires a < b
    requires ValidSplit(split)
    ensures Triple(p, q, g) == RangeTriple(a, b, terms, tds, split)
    ensures b <= terms ==> p == Fold(Term, a, b).p && q == Fold(Term, a, b).q
    ensures b < terms ==> g == Fold(Term, a, b).g
    decreases b - a
  {
    if b - a == 1 {
      p, q, g := SingleTerm(b);
    } else {
      var p2, q2, g2;
      if b - a == 2 {
        p, q, g := SingleTerm(b - 1);
        p2, q2, g2 := SingleTerm(b);
        assert RangeTriple(a, b, terms, tds, split) == Merge(Term(b - 1), Term(b), b < terms);
      } else {
        var tds0 := LeftBudget(tds);
        var tds1 := tds - tds0;
        var mid := split(a, b);
        p, q, g := BinarySplit(a, mid, terms, tds0, split);
        p2, q2, g2 := BinarySplit(mid, b, terms, tds1, split);
        assert RangeTriple(a, b, terms, tds, split)
          == Merge(RangeTriple(a, mid, terms, tds0, split), RangeTriple(mid, b, terms, tds1, split), b < terms);
      }
      p, q, g := MergeHalves(p, q, g, p2, q2, g2, b < terms);
    }
    assert b <= terms ==> p == Fold(Term, a, b).p && q == Fold(Term, a, b).q by {
      if b <= terms {
        RangeIsFold(a, b, terms, tds, split);
      }
    }
    assert b < terms ==> g == Fold(Term, a, b).g by {
      if b < terms {
        RangeIsFold(a, b, terms, tds, split);
      }
    }
  }

  /** Every call under a root whose range ends at or before `terms` returns
      the P and Q of its range; G is exact below the last index, and at the
      last index it is the G of the left half. */
  lemma {:induction false} RangeIsFold(a: nat, b: nat, terms: int, tds: int, split: (int, int) -> int)
    requires a < b <= terms
    requires ValidSplit(split)
    ensures RangeTriple(a, b, terms, tds, split).p == Fold(Term, a, b).p
    ensures RangeTriple(a, b, terms, tds, split).q == Fold(Term, a, b).q
    ensures b < terms || b - a == 1 ==> RangeTriple(a, b, terms, tds, split) == Fold(Term, a, b)
    ensures b == terms && b - a >= 2 ==>
      RangeTriple(a, b, terms, tds, split).g == Fold(Term, a, CutPoint(a, b, split)).g
    decreases b - a
  {
    var r := RangeTriple(a, b, terms, tds, split);
    if b - a == 1 {
      CombineIdentity(Term(b));
    } else {
      var m := CutPoint(a, b, split);
      var left, right;
      if b - a == 2 {
        left, right := Term(b - 1), Term(b);
        CombineIdentity(Term(b - 1));
        CombineIdentity(Term(b));
        assert Fold(Term, a, m) == left;
        assert Fold(Term, m, b) == right;
      } else {
        RangeIsFold(a, m, terms, LeftBudget(tds), split);
        RangeIsFold(m, b, terms, RightBudget(tds), split);
        left := RangeTriple(a, m, terms, LeftBudget(tds), split);
        right := RangeTriple(m, b, terms, RightBudget(tds), split);
      }
      assert r == Merge(left, right, b < terms);
      assert left == Fold(Term, a, m);
      FoldSplit(Term, a, m, b);
    }
  }

  /** The two-term shortcut returns what two single-term calls and one merge
      would return. */
  lemma PairShortcut(a: nat, b: nat, terms: int, tds: int, split: (int, int) -> int)
    requires a + 2 == b
    requires ValidSplit(split)
    ensures RangeTriple(a, b, terms, tds, split)
      == Merge(RangeTriple(a, b - 1, terms, LeftBudget(tds), split),
               RangeTriple(b - 1, b, terms, RightBudget(tds), split), b < terms)
    ensures b < terms ==> RangeTriple(a, b, terms, tds, split) == Combine(Term(b - 1), Term(b))
  {
  }

  /** The thread budget never changes the result. */
  lemma {:induction false} BudgetIndependent(a: nat, b: nat, terms: int, t1: int, t2: int, split: (int, int) -> int)
    requires a < b
    requires ValidSplit(split)
    ensures RangeTriple(a, b, terms, t1, split) == RangeTriple(a, b, terms, t2, split)
    decreases b - a
  {
    if b - a > 2 {
      var mid := split(a, b);
      BudgetIndependent(a, mid, terms, LeftBudget(t1), LeftBudget(t2), split);
      BudgetIndependent(mid, b, terms, RightBudget(t1), RightBudget(t2), split);
    }
  }

  /** Any two split rules give the same P and Q, and the same G below the
      last index. */
  lemma SplitIndependent(a: nat, b: nat, terms: int, tds: int,
                         s1: (int, int) -> int, s2: (int, int) -> int)
    requires a < b <= terms
    requires ValidSplit(s1) && ValidSplit(s2)
    ensures RangeTriple(a, b, terms, tds, s1).p == RangeTriple(a, b, terms, tds, s2).p
    ensures RangeTriple(a, b, terms, tds, s1).q == RangeTriple(a, b, terms, tds, s2).q
    ensures b < terms ==> RangeTriple(a, b, terms, tds, s1) == RangeTriple(a, b, terms, tds, s2)
  {
    RangeIsFold(a, b, terms, tds, s1);
    RangeIsFold(a, b, terms, tds, s2);
  }
}
