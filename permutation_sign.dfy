/** The sign of a row order: the parity of its inversions. The sign of the
    permutation matrix P of an order is its determinant, and exchanging two
    entries of the order flips it. */
module PermutationSign {

  /** s with its entries i and j exchanged. */
  function Exchange(s: seq<nat>, i: nat, j: nat): seq<nat>
    requires i < |s| && j < |s|
  {
    s[i := s[j]][j := s[i]]
  }

  /** 1 when the condition holds, else 0. */
  function Indicator(b: bool): int
  {
    if b then 1 else 0
  }

  /** The number of positions k in [lo, hi) with s[k] < x. */
  function Below(s: seq<nat>, x: nat, lo: nat, hi: nat): nat
    requires lo <= hi <= |s|
    decreases hi - lo
  {
    if lo == hi then 0 else Below(s, x, lo, hi - 1) + Indicator(s[hi - 1] < x)
  }

  /** The inversions that start at position p: the later positions holding a smaller entry. */
  function Term(s: seq<nat>, p: nat): nat
    requires p < |s|
  {
    Below(s, s[p], p + 1, |s|)
  }

  /** The inversions that start in [lo, hi). */
  function InversionsFrom(s: seq<nat>, lo: nat, hi: nat): nat
    requires lo <= hi <= |s|
    decreases hi - lo
  {
    if lo == hi then 0 else InversionsFrom(s, lo, hi - 1) + Term(s, hi - 1)
  }

  /** The number of pairs p < q with s[q] < s[p]. */
  function Inversions(s: seq<nat>): nat
  {
    InversionsFrom(s, 0, |s|)
  }

  /** +1 for an even number of inversions, -1 for an odd one. */
  function Sign(s: seq<nat>): (r: int)
    ensures r == 1 || r == -1
  {
    if Inversions(s) % 2 == 0 then 1 else -1
  }

  /** +1 after an even number of exchanges, -1 after an odd one. */
  function Alternating(k: nat): (r: int)
    ensures r == 1 || r == -1
  {
    if k % 2 == 0 then 1 else -1
  }

  /** s has no repeated entry. */
  predicate Distinct(s: seq<nat>)
  {
    forall p, q :: 0 <= p < q < |s| ==> s[p] != s[q]
  }

  /** The order 0, 1, ..., n-1 has no inversion. */
  lemma {:induction false} IncreasingNoInversions(s: seq<nat>, lo: nat, hi: nat)
    requires lo <= hi <= |s|
    requires forall p, q :: 0 <= p < q < |s| ==> s[p] < s[q]
    ensures InversionsFrom(s, lo, hi) == 0
    decreases hi - lo
  {
    if lo < hi {
      IncreasingNoInversions(s, lo, hi - 1);
      NoneBelow(s, s[hi - 1], hi, |s|);
    }
  }

  lemma {:induction false} NoneBelow(s: seq<nat>, x: nat, lo: nat, hi: nat)
    requires lo <= hi <= |s|
    requires forall k :: lo <= k < hi ==> x <= s[k]
    ensures Below(s, x, lo, hi) == 0
    decreases hi - lo
  {
    if lo < hi {
      NoneBelow(s, x, lo, hi - 1);
    }
  }

  /** Counting over [lo, hi) is counting over [lo, mid) and then [mid, hi). */
  lemma {:induction false} BelowSplit(s: seq<nat>, x: nat, lo: nat, mid: nat, hi: nat)
    requires lo <= mid <= hi <= |s|
    ensures Below(s, x, lo, hi) == Below(s, x, lo, mid) + Below(s, x, mid, hi)
    decreases hi - mid
  {
    if mid < hi {
      BelowSplit(s, x, lo, mid, hi - 1);
    }
  }

  /** The count only looks at the positions in the range. */
  lemma {:induction false} BelowAgree(s: seq<nat>, t: seq<nat>, x: nat, lo: nat, hi: nat)
    requires lo <= hi <= |s| && hi <= |t|
    requires forall k :: lo <= k < hi ==> s[k] == t[k]
    ensures Below(s, x, lo, hi) == Below(t, x, lo, hi)
    decreases hi - lo
  {
    if lo < hi {
      BelowAgree(s, t, x, lo, hi - 1);
    }
  }

  /** The sum over [lo, hi) is the sum over [lo, mid) and then [mid, hi). */
  lemma {:induction false} InversionsSplit(s: seq<nat>, lo: nat, mid: nat, hi: nat)
    requires lo <= mid <= hi <= |s|
    ensures InversionsFrom(s, lo, hi) == InversionsFrom(s, lo, mid) + InversionsFrom(s, mid, hi)
    decreases hi - mid
  {
    if mid < hi {
      InversionsSplit(s, lo, mid, hi - 1);
    }
  }

  /** Sums of equal terms are equal. */
  lemma {:induction false} InversionsAgree(s: seq<nat>, t: seq<nat>, lo: nat, hi: nat)
    requires lo <= hi <= |s| == |t|
    requires forall p :: lo <= p < hi ==> Term(s, p) == Term(t, p)
    ensures InversionsFrom(s, lo, hi) == InversionsFrom(t, lo, hi)
    decreases hi - lo
  {
    if lo < hi {
      InversionsAgree(s, t, lo, hi - 1);
    }
  }

  /** A count over a range holding both exchanged positions is not changed by the exchange. */
  lemma BelowAcross(s: seq<nat>, x: nat, lo: nat, i: nat, j: nat)
    requires lo <= i < j < |s|
    ensures Below(Exchange(s, i, j), x, lo, |s|) == Below(s, x, lo, |s|)
  {
    var t, n := Exchange(s, i, j), |s|;
    BelowSplit(s, x, lo, i, n); BelowSplit(s, x, i, i + 1, n);
    BelowSplit(s, x, i + 1, j, n); BelowSplit(s, x, j, j + 1, n);
    BelowSplit(t, x, lo, i, n); BelowSplit(t, x, i, i + 1, n);
    BelowSplit(t, x, i + 1, j, n); BelowSplit(t, x, j, j + 1, n);
    BelowAgree(s, t, x, lo, i);
    BelowAgree(s, t, x, i + 1, j);
    BelowAgree(s, t, x, j + 1, n);
  }

  /** The count from past i: position j holds s[i] after the exchange. */
  lemma BelowPastFirst(s: seq<nat>, x: nat, lo: nat, i: nat, j: nat)
    requires i < lo <= j < |s|
    ensures Below(Exchange(s, i, j), x, lo, |s|)
         == Below(s, x, lo, j) + Indicator(s[i] < x) + Below(s, x, j + 1, |s|)
  {
    var t, n := Exchange(s, i, j), |s|;
    BelowSplit(t, x, lo, j, n);
    BelowSplit(t, x, j, j + 1, n);
    BelowAgree(s, t, x, lo, j);
    BelowAgree(s, t, x, j + 1, n);
  }

  /** A term that starts between the exchanged positions changes by
      [s[i] < s[p]] - [s[j] < s[p]]. */
  lemma MiddleTerm(s: seq<nat>, i: nat, j: nat, p: nat)
    requires i < p < j < |s|
    ensures Term(Exchange(s, i, j), p) + Indicator(s[j] < s[p]) == Term(s, p) + Indicator(s[i] < s[p])
  {
    var n := |s|;
    BelowPastFirst(s, s[p], p + 1, i, j);
    BelowSplit(s, s[p], p + 1, j, n);
    BelowSplit(s, s[p], j, j + 1, n);
  }

  /** Over the positions strictly between i and j, the change of the terms and
      the change of the counts below s[j] and s[i] add up to an even number. */
  lemma {:induction false} MiddleEven(s: seq<nat>, i: nat, j: nat, hi: nat)
    requires i < j < |s| && i + 1 <= hi <= j && Distinct(s)
    ensures (InversionsFrom(Exchange(s, i, j), i + 1, hi) + Below(s, s[j], i + 1, hi)
             - InversionsFrom(s, i + 1, hi) - Below(s, s[i], i + 1, hi)) % 2 == 0
    decreases hi
  {
    if i + 1 < hi {
      var t, p := Exchange(s, i, j), hi - 1;
      MiddleEven(s, i, j, p);
      MiddleTerm(s, i, j, p);
      assert s[p] != s[i] && s[p] != s[j];
      EvenStep(InversionsFrom(t, i + 1, p), Below(s, s[j], i + 1, p), InversionsFrom(s, i + 1, p),
               Below(s, s[i], i + 1, p), Term(t, p), Term(s, p), s[i], s[j], s[p]);
    }
  }

  /** One step of MiddleEven, over plain numbers. */
  lemma EvenStep(it: int, bj: int, si: int, bi: int, tt: int, ts: int, a: nat, b: nat, c: nat)
    requires (it + bj - si - bi) % 2 == 0
    requires tt + Indicator(b < c) == ts + Indicator(a < c)
    requires c != a && c != b
    ensures ((it + tt) + (bj + Indicator(c < b)) - (si + ts) - (bi + Indicator(c < a))) % 2 == 0
  {
  }

  /** Exchanging two different entries of a sequence without repeats flips its sign. */
  lemma ExchangeFlips(s: seq<nat>, i: nat, j: nat)
    requires i < |s| && j < |s| && i != j && Distinct(s)
    ensures Sign(Exchange(s, i, j)) == -Sign(s)
  {
    if i < j {
      ExchangeOrdered(s, i, j);
    } else {
      assert Exchange(s, i, j) == Exchange(s, j, i);
      ExchangeOrdered(s, j, i);
    }
  }

  /** ExchangeFlips for i < j: the number of inversions changes by an odd amount. */
  lemma ExchangeOrdered(s: seq<nat>, i: nat, j: nat)
    requires i < j < |s| && Distinct(s)
    ensures Sign(Exchange(s, i, j)) == -Sign(s)
  {
    var t, n, a, b := Exchange(s, i, j), |s|, s[i], s[j];
    Cut(s, i, j);
    Cut(t, i, j);
    OuterAgree(s, i, j);
    EndTerms(s, i, j);
    MiddleEven(s, i, j, j);
    assert a != b;
    var middle := InversionsFrom(t, i + 1, j) + Below(s, b, i + 1, j)
                  - InversionsFrom(s, i + 1, j) - Below(s, a, i + 1, j);
    OddChange(Inversions(t), Inversions(s), middle, Indicator(a < b) - Indicator(b < a));
  }

  /** The inversions of s, cut into those starting before i, at i, between
      i and j, at j and after j. */
  lemma Cut(s: seq<nat>, i: nat, j: nat)
    requires i < j < |s|
    ensures Inversions(s) == InversionsFrom(s, 0, i) + Term(s, i) + InversionsFrom(s, i + 1, j)
                             + Term(s, j) + InversionsFrom(s, j + 1, |s|)
  {
    var n := |s|;
    InversionsSplit(s, 0, i, n);
    InversionsSplit(s, i, i + 1, n);
    InversionsSplit(s, i + 1, j, n);
    InversionsSplit(s, j, j + 1, n);
  }

  /** The inversions starting before i or after j are not changed by the exchange. */
  lemma OuterAgree(s: seq<nat>, i: nat, j: nat)
    requires i < j < |s|
    ensures InversionsFrom(Exchange(s, i, j), 0, i) == InversionsFrom(s, 0, i)
    ensures InversionsFrom(Exchange(s, i, j), j + 1, |s|) == InversionsFrom(s, j + 1, |s|)
  {
    var t, n := Exchange(s, i, j), |s|;
    forall p | 0 <= p < i
      ensures Term(s, p) == Term(t, p)
    {
      BelowAcross(s, s[p], p + 1, i, j);
    }
    InversionsAgree(s, t, 0, i);
    forall p | j + 1 <= p < n
      ensures Term(s, p) == Term(t, p)
    {
      BelowAgree(s, t, s[p], p + 1, n);
    }
    InversionsAgree(s, t, j + 1, n);
  }

  /** The terms at the exchanged positions i and j, before and after. */
  lemma EndTerms(s: seq<nat>, i: nat, j: nat)
    requires i < j < |s|
    ensures Term(Exchange(s, i, j), i) + Term(Exchange(s, i, j), j) + Below(s, s[i], i + 1, j) + Indicator(s[j] < s[i])
         == Term(s, i) + Term(s, j) + Below(s, s[j], i + 1, j) + Indicator(s[i] < s[j])
  {
    FirstAfter(s, i, j);
    FirstBefore(s, i, j);
    SecondAfter(s, i, j);
  }

  /** After the exchange, position i holds s[j] and position j holds s[i]. */
  lemma FirstAfter(s: seq<nat>, i: nat, j: nat)
    requires i < j < |s|
    ensures Term(Exchange(s, i, j), i) == Below(s, s[j], i + 1, j) + Indicator(s[i] < s[j]) + Below(s, s[j], j + 1, |s|)
  {
    assert Exchange(s, i, j)[i] == s[j];
    BelowPastFirst(s, s[j], i + 1, i, j);
  }

  lemma FirstBefore(s: seq<nat>, i: nat, j: nat)
    requires i < j < |s|
    ensures Term(s, i) == Below(s, s[i], i + 1, j) + Indicator(s[j] < s[i]) + Below(s, s[i], j + 1, |s|)
  {
    BelowSplit(s, s[i], i + 1, j, |s|);
    BelowSplit(s, s[i], j, j + 1, |s|);
    BelowOne(s, s[i], j);
  }

  lemma SecondAfter(s: seq<nat>, i: nat, j: nat)
    requires i < j < |s|
    ensures Term(Exchange(s, i, j), j) == Below(s, s[i], j + 1, |s|)
  {
    assert Exchange(s, i, j)[j] == s[i];
    BelowAgree(s, Exchange(s, i, j), s[i], j + 1, |s|);
  }

  /** A count over a single position. */
  lemma BelowOne(s: seq<nat>, x: nat, k: nat)
    requires k < |s|
    ensures Below(s, x, k, k + 1) == Indicator(s[k] < x)
  {
  }

  /** A change by an even number plus or minus one changes the parity. */
  lemma OddChange(x: nat, y: nat, e: int, d: int)
    requires x - y == e + d && e % 2 == 0 && (d == 1 || d == -1)
    ensures (if x % 2 == 0 then 1 else -1) == -(if y % 2 == 0 then 1 else -1)
  {
  }
}
