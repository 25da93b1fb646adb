/** Vectors of reals: the dot product shared by every routine, its algebra,
    and the square root the norms need. */
module Vectors {

  type Vec = seq<real>

  /** The sum of u[i] * v[i] over i < k, accumulated from the left. */
  function SumProd(u: Vec, v: Vec, k: nat): real
    requires k <= |u| && k <= |v|
  {
    if k == 0 then 0.0 else SumProd(u, v, k - 1) + u[k - 1] * v[k - 1]
  }

  /** One more term of a prefix sum. */
  lemma SumProdNext(u: Vec, v: Vec, k: nat)
    requires k < |u| && k < |v|
    ensures SumProd(u, v, k + 1) == SumProd(u, v, k) + u[k] * v[k]
  {
  }

  /** The dot product of two vectors of the same length. */
  function Dot(u: Vec, v: Vec): real
    requires |u| == |v|
  {
    SumProd(u, v, |u|)
  }

  /** The dot product of two vectors of length three, written out. */
  lemma Dot3(u: Vec, v: Vec)
    requires |u| == 3 && |v| == 3
    ensures Dot(u, v) == u[0] * v[0] + u[1] * v[1] + u[2] * v[2]
  {
    assert SumProd(u, v, 1) == u[0] * v[0];
    assert SumProd(u, v, 2) == u[0] * v[0] + u[1] * v[1];
    assert SumProd(u, v, 3) == SumProd(u, v, 2) + u[2] * v[2];
  }

  /** The vector a * v + b * w. */
  function LinComb(a: real, v: Vec, b: real, w: Vec): (r: Vec)
    requires |v| == |w|
    ensures |r| == |v|
    ensures forall i :: 0 <= i < |r| ==> r[i] == a * v[i] + b * w[i]
  {
    seq(|v|, i requires 0 <= i < |v| => a * v[i] + b * w[i])
  }

  /** The zero vector of length n. */
  function Zeros(n: nat): (r: Vec)
    ensures |r| == n
    ensures forall i :: 0 <= i < n ==> r[i] == 0.0
  {
    seq(n, i => 0.0)
  }

  function Abs(x: real): real
  {
    if x < 0.0 then -x else x
  }

  /** `sqrt` is a square root on the non-negative reals. */
  ghost predicate IsSqrt(sqrt: real -> real)
  {
    forall x: real :: 0.0 <= x ==> 0.0 <= sqrt(x) && sqrt(x) * sqrt(x) == x
  }

  lemma {:induction false} SumProdSymmetric(u: Vec, v: Vec, k: nat)
    requires k <= |u| && k <= |v|
    ensures SumProd(u, v, k) == SumProd(v, u, k)
  {
    if k > 0 {
      SumProdSymmetric(u, v, k - 1);
    }
  }

  /** The dot product is symmetric. */
  lemma DotSymmetric(u: Vec, v: Vec)
    requires |u| == |v|
    ensures Dot(u, v) == Dot(v, u)
  {
    SumProdSymmetric(u, v, |u|);
  }

  /** A prefix sum only looks at the first k entries of its operands. */
  lemma {:induction false} SumProdAgree(u: Vec, v: Vec, u': Vec, v': Vec, k: nat)
    requires k <= |u| && k <= |v| && k <= |u'| && k <= |v'|
    requires forall i :: 0 <= i < k ==> u[i] == u'[i] && v[i] == v'[i]
    ensures SumProd(u, v, k) == SumProd(u', v', k)
  {
    if k > 0 {
      SumProdAgree(u, v, u', v', k - 1);
    }
  }

  /** A prefix sum is linear in its second operand. */
  lemma {:induction false} SumProdCombination(u: Vec, a: real, v: Vec, b: real, w: Vec, c: Vec, k: nat)
    requires k <= |u| && k <= |v| && k <= |w| && k <= |c|
    requires forall i :: 0 <= i < k ==> c[i] == a * v[i] + b * w[i]
    ensures SumProd(u, c, k) == a * SumProd(u, v, k) + b * SumProd(u, w, k)
  {
    if k > 0 {
      SumProdCombination(u, a, v, b, w, c, k - 1);
      var s, sv, sw := SumProd(u, c, k - 1), SumProd(u, v, k - 1), SumProd(u, w, k - 1);
      var x, y, z, cy := u[k - 1], v[k - 1], w[k - 1], c[k - 1];
      LinearStep(s, sv, sw, x, y, z, cy, a, b);
    }
  }

  /** One term of SumProdCombination, over plain numbers. */
  lemma LinearStep(s: real, sv: real, sw: real, x: real, y: real, z: real, cy: real, a: real, b: real)
    requires s == a * sv + b * sw && cy == a * y + b * z
    ensures s + x * cy == a * (sv + x * y) + b * (sw + x * z)
  {
  }

  /** The dot product is linear in its second argument. */
  lemma DotLinear(u: Vec, a: real, v: Vec, b: real, w: Vec)
    requires |u| == |v| == |w|
    ensures Dot(u, LinComb(a, v, b, w)) == a * Dot(u, v) + b * Dot(u, w)
  {
    SumProdCombination(u, a, v, b, w, LinComb(a, v, b, w), |u|);
  }

  /** The dot product is linear in its first argument. */
  lemma DotLinearLeft(a: real, v: Vec, b: real, w: Vec, u: Vec)
    requires |u| == |v| == |w|
    ensures Dot(LinComb(a, v, b, w), u) == a * Dot(v, u) + b * Dot(w, u)
  {
    DotLinear(u, a, v, b, w);
    DotSymmetric(u, LinComb(a, v, b, w));
    DotSymmetric(u, v);
    DotSymmetric(u, w);
  }

  lemma {:induction false} SumProdSquares(v: Vec, k: nat)
    requires k <= |v|
    ensures SumProd(v, v, k) >= 0.0
    ensures SumProd(v, v, k) == 0.0 ==> forall i :: 0 <= i < k ==> v[i] == 0.0
  {
    if k > 0 {
      SumProdSquares(v, k - 1);
      assert v[k - 1] * v[k - 1] >= 0.0;
      if SumProd(v, v, k) == 0.0 {
        assert SumProd(v, v, k - 1) == 0.0 && v[k - 1] * v[k - 1] == 0.0;
        SquareZero(v[k - 1]);
        forall i | 0 <= i < k
          ensures v[i] == 0.0
        {
          if i < k - 1 {
            assert v[i] == 0.0;
          }
        }
      }
    }
  }

  /** The squared length of a vector is non-negative, and zero only for the zero vector. */
  lemma DotSelf(v: Vec)
    ensures Dot(v, v) >= 0.0
    ensures Dot(v, v) == 0.0 <==> forall i :: 0 <= i < |v| ==> v[i] == 0.0
  {
    SumProdSquares(v, |v|);
    if forall i :: 0 <= i < |v| ==> v[i] == 0.0 {
      SumProdAgree(v, v, Zeros(|v|), Zeros(|v|), |v|);
      ZerosDot(Zeros(|v|), |v|);
    }
  }

  lemma {:induction false} ZerosDot(u: Vec, k: nat)
    requires k <= |u|
    ensures SumProd(u, Zeros(|u|), k) == 0.0
  {
    if k > 0 {
      ZerosDot(u, k - 1);
    }
  }

  /** A vector whose entries are all zero is orthogonal to every vector. */
  lemma DotZeroRight(u: Vec, v: Vec)
    requires |u| == |v|
    requires forall i :: 0 <= i < |v| ==> v[i] == 0.0
    ensures Dot(u, v) == 0.0
  {
    SumProdAgree(u, v, u, Zeros(|u|), |u|);
    ZerosDot(u, |u|);
  }

  /** The Cauchy-Schwarz inequality: (u . v)^2 <= (u . u) (v . v). */
  lemma CauchySchwarz(u: Vec, v: Vec)
    requires |u| == |v|
    ensures Dot(u, v) * Dot(u, v) <= Dot(u, u) * Dot(v, v)
  {
    DotSelf(v);
    if Dot(v, v) == 0.0 {
      DotZeroRight(u, v);
    } else {
      CauchySchwarzPositive(u, v);
    }
  }

  /** CauchySchwarz when v is not zero, through w = (v . v) u - (u . v) v. */
  lemma CauchySchwarzPositive(u: Vec, v: Vec)
    requires |u| == |v| && Dot(v, v) > 0.0
    ensures Dot(u, v) * Dot(u, v) <= Dot(u, u) * Dot(v, v)
  {
    var a, b, c := Dot(u, u), Dot(v, v), Dot(u, v);
    var w := LinComb(b, u, -c, v);
    var wu, wv, ww := Dot(w, u), Dot(w, v), Dot(w, w);
    assert ww == b * wu + (-c) * wv by { DotLinear(w, b, u, -c, v); }
    assert wu == b * a + (-c) * c by {
      DotLinearLeft(b, u, -c, v, u);
      DotSymmetric(v, u);
    }
    assert wv == b * c + (-c) * b by { DotLinearLeft(b, u, -c, v, v); }
    assert ww >= 0.0 by { DotSelf(w); }
    CauchySchwarzAlgebra(a, b, c, wu, wv, ww);
  }

  /** The arithmetic step of CauchySchwarz, with w = b u - c v. */
  lemma CauchySchwarzAlgebra(a: real, b: real, c: real, wu: real, wv: real, ww: real)
    requires b > 0.0 && ww >= 0.0
    requires ww == b * wu + (-c) * wv
    requires wu == b * a + (-c) * c
    requires wv == b * c + (-c) * b
    ensures c * c <= a * b
  {
    assert wv == 0.0;
    assert ww == b * (b * a - c * c);
    PositiveFactor(b, b * a - c * c);
  }

  lemma PositiveFactor(k: real, x: real)
    requires k > 0.0 && k * x >= 0.0
    ensures x >= 0.0
  {
  }

  lemma ProductZero(x: real, y: real)
    requires x * y == 0.0 && x != 0.0
    ensures y == 0.0
  {
  }

  lemma SquareZero(x: real)
    requires x * x == 0.0
    ensures x == 0.0
  {
    if x != 0.0 {
      ProductZero(x, x);
    }
  }

  /** A square root is determined by its square. */
  lemma SqrtUnique(s: real, t: real)
    requires 0.0 <= s && 0.0 <= t && s * s == t * t
    ensures s == t
  {
    assert (s + t) * (s - t) == s * s - t * t == 0.0;
    if s + t == 0.0 {
      assert s == 0.0 && t == 0.0;
    } else {
      ProductZero(s + t, s - t);
    }
  }
}
