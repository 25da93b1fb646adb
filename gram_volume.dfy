/** The volume of the tetrahedron spanned by three vectors of any dimension and
    the origin, through the determinant of their Gram matrix (alc_p2q5_taua.py). */
module GramVolume {
  import opened Vectors
  import opened Matrices
  import opened Outcomes

  /** produto_escalar: the dot product, accumulated left to right; vectors of
      different lengths are rejected. */
  method DotProduct(v1: Vec, v2: Vec) returns (r: Result<real>)
    ensures |v1| != |v2| ==> r == Failure(DimensionMismatch)
    ensures |v1| == |v2| ==> r == Success(Dot(v1, v2))
  {
    if |v1| != |v2| {
      return Failure(DimensionMismatch);
    }
    var sum := 0.0;
    for i := 0 to |v1|
      invariant sum == SumProd(v1, v2, i)
    {
      sum := sum + v1[i] * v2[i];
    }
    return Success(sum);
  }

  /** determinante_3x3: cofactor expansion along the first row. */
  function Det3(M: Matrix): real
    requires IsSquare(M, 3)
  {
    var a, b, c := M[0][0], M[0][1], M[0][2];
    var d, e, f := M[1][0], M[1][1], M[1][2];
    var g, h, i := M[2][0], M[2][1], M[2][2];
    a * (e * i - f * h) - b * (d * i - f * g) + c * (d * h - e * g)
  }

  /** The cofactor expansion agrees with the rule of Sarrus: three products
      along the diagonals minus three along the anti-diagonals. */
  lemma Det3Sarrus(M: Matrix)
    requires IsSquare(M, 3)
    ensures Det3(M) == M[0][0] * M[1][1] * M[2][2] + M[0][1] * M[1][2] * M[2][0]
                     + M[0][2] * M[1][0] * M[2][1] - M[0][2] * M[1][1] * M[2][0]
                     - M[0][1] * M[1][0] * M[2][2] - M[0][0] * M[1][2] * M[2][1]
  {
  }

  /** A matrix whose third row is the sum of the first two has determinant zero. */
  lemma Det3DependentRows(M: Matrix)
    requires IsSquare(M, 3)
    requires forall c :: 0 <= c < 3 ==> M[2][c] == M[0][c] + M[1][c]
    ensures Det3(M) == 0.0
  {
  }

  /** The Gram matrix G[i][j] = v_i . v_j of three vectors of one length. */
  function Gram(v1: Vec, v2: Vec, v3: Vec): (G: Matrix)
    requires |v1| == |v2| == |v3|
    ensures IsSquare(G, 3)
  {
    [[Dot(v1, v1), Dot(v1, v2), Dot(v1, v3)],
     [Dot(v2, v1), Dot(v2, v2), Dot(v2, v3)],
     [Dot(v3, v1), Dot(v3, v2), Dot(v3, v3)]]
  }

  /** The Gram matrix is symmetric. */
  lemma GramSymmetric(v1: Vec, v2: Vec, v3: Vec)
    requires |v1| == |v2| == |v3|
    ensures forall i, j :: 0 <= i < 3 && 0 <= j < 3 ==> Gram(v1, v2, v3)[i][j] == Gram(v1, v2, v3)[j][i]
  {
    DotSymmetric(v1, v2);
    DotSymmetric(v1, v3);
    DotSymmetric(v2, v3);
  }

  /** The Gram determinant: the squared volume of the parallelepiped the three vectors span. */
  function GramDet(v1: Vec, v2: Vec, v3: Vec): real
    requires |v1| == |v2| == |v3|
  {
    Det3(Gram(v1, v2, v3))
  }

  /** The Gram determinant of three vectors of any dimension is never negative,
      so under exact arithmetic the clamp in volume_vetores never fires. */
  lemma GramDetNonNegative(v1: Vec, v2: Vec, v3: Vec)
    requires |v1| == |v2| == |v3|
    ensures GramDet(v1, v2, v3) >= 0.0
  {
    var a, g12, g13 := Dot(v1, v1), Dot(v1, v2), Dot(v1, v3);
    var g22, g23, g33 := Dot(v2, v2), Dot(v2, v3), Dot(v3, v3);
    assert GramDet(v1, v2, v3) == SymmetricDet3(a, g12, g13, g22, g23, g33) by {
      DotSymmetric(v1, v2);
      DotSymmetric(v1, v3);
      DotSymmetric(v2, v3);
    }
    DotSelf(v1);
    if a == 0.0 {
      DotZeroRight(v2, v1);
      DotZeroRight(v3, v1);
      DotSymmetric(v1, v2);
      DotSymmetric(v1, v3);
    } else {
      SymmetricDetNonNegative(v1, v2, v3);
    }
  }

  /** The case v1 != 0 of GramDetNonNegative: project v2 and v3 away from v1
      (scaled by a = v1 . v1) and apply Cauchy-Schwarz to the projections. */
  lemma SymmetricDetNonNegative(v1: Vec, v2: Vec, v3: Vec)
    requires |v1| == |v2| == |v3| && Dot(v1, v1) > 0.0
    ensures SymmetricDet3(Dot(v1, v1), Dot(v1, v2), Dot(v1, v3), Dot(v2, v2), Dot(v2, v3), Dot(v3, v3)) >= 0.0
  {
    var a, g12, g13 := Dot(v1, v1), Dot(v1, v2), Dot(v1, v3);
    var g22, g23, g33 := Dot(v2, v2), Dot(v2, v3), Dot(v3, v3);
    var u2 := LinComb(a, v2, -g12, v1);
    var u3 := LinComb(a, v3, -g13, v1);
    ProjectionDot(v1, v2, v2);
    ProjectionDot(v1, v2, v3);
    ProjectionDot(v1, v3, v3);
    CauchySchwarz(u2, u3);
    SchurStep(a, g12, g13, g22, g23, g33, Dot(u2, u2), Dot(u2, u3), Dot(u3, u3));
  }

  /** With a = v1 . v1, the projections u = a x - (v1 . x) v1 and
      w = a y - (v1 . y) v1 are orthogonal to v1, and u . w is a times the
      corresponding entry of the Schur complement of a in the Gram matrix. */
  lemma ProjectionDot(v1: Vec, x: Vec, y: Vec)
    requires |v1| == |x| == |y|
    ensures Dot(LinComb(Dot(v1, v1), x, -Dot(v1, x), v1), LinComb(Dot(v1, v1), y, -Dot(v1, y), v1))
         == Dot(v1, v1) * (Dot(v1, v1) * Dot(x, y) + (-Dot(v1, x)) * Dot(v1, y))
  {
    var a, gx, gy := Dot(v1, v1), Dot(v1, x), Dot(v1, y);
    var u := LinComb(a, x, -gx, v1);
    ProjectionOrthogonal(v1, x);
    DotLinearLeft(a, x, -gx, v1, y);
    DotLinear(u, a, y, -gy, v1);
    DropZeroTerm(a, Dot(u, y), -gy, Dot(u, v1), Dot(u, LinComb(a, y, -gy, v1)));
  }

  /** The projection a x - (v1 . x) v1, with a = v1 . v1, is orthogonal to v1. */
  lemma ProjectionOrthogonal(v1: Vec, x: Vec)
    requires |v1| == |x|
    ensures Dot(LinComb(Dot(v1, v1), x, -Dot(v1, x), v1), v1) == 0.0
  {
    var a, gx := Dot(v1, v1), Dot(v1, x);
    DotLinearLeft(a, x, -gx, v1, v1);
    DotSymmetric(x, v1);
  }

  lemma DropZeroTerm(a: real, x: real, b: real, y: real, s: real)
    requires y == 0.0 && s == a * x + b * y
    ensures s == a * x
  {
  }

  /** The determinant of the symmetric matrix [[a, b, c], [b, d, e], [c, e, f]]. */
  function SymmetricDet3(a: real, b: real, c: real, d: real, e: real, f: real): real
  {
    a * (d * f - e * e) - b * (b * f - e * c) + c * (b * e - d * c)
  }

  /** The arithmetic of GramDetNonNegative: with u2 = a v2 - g12 v1 and
      u3 = a v3 - g13 v1, Cauchy-Schwarz for u2, u3 bounds a * det below by 0. */
  lemma SchurStep(a: real, g12: real, g13: real, g22: real, g23: real, g33: real,
                  q22: real, q23: real, q33: real)
    requires a > 0.0
    requires q22 == a * (a * g22 + (-g12) * g12)
    requires q23 == a * (a * g23 + (-g12) * g13)
    requires q33 == a * (a * g33 + (-g13) * g13)
    requires q23 * q23 <= q22 * q33
    ensures SymmetricDet3(a, g12, g13, g22, g23, g33) >= 0.0
  {
    var p22, p23, p33 := a * g22 + (-g12) * g12, a * g23 + (-g12) * g13, a * g33 + (-g13) * g13;
    assert Gap(q22, q23, q33) >= 0.0;
    GapScale(a, p22, p23, p33);
    ScaledNonNegative(a, Gap(p22, p23, p33));
    SchurIdentity(a, g12, g13, g22, g23, g33);
    PositiveFactor(a, SymmetricDet3(a, g12, g13, g22, g23, g33));
  }

  /** The determinant x z - y^2 of the symmetric matrix [[x, y], [y, z]]. */
  function Gap(x: real, y: real, z: real): real
  {
    x * z - y * y
  }

  lemma GapScale(a: real, x: real, y: real, z: real)
    ensures Gap(a * x, a * y, a * z) == (a * a) * Gap(x, y, z)
  {
  }

  lemma ScaledNonNegative(a: real, g: real)
    requires a > 0.0 && (a * a) * g >= 0.0
    ensures g >= 0.0
  {
    var ag := a * g;
    assert a * ag >= 0.0;
    PositiveFactor(a, ag);
    PositiveFactor(a, g);
  }

  /** a times the symmetric determinant is the determinant of the scaled
      2-by-2 Schur complement of a. */
  lemma SchurIdentity(a: real, g12: real, g13: real, g22: real, g23: real, g33: real)
    ensures a * SymmetricDet3(a, g12, g13, g22, g23, g33)
         == Gap(a * g22 + (-g12) * g12, a * g23 + (-g12) * g13, a * g33 + (-g13) * g13)
  {
  }

  /** Three orthonormal vectors: the Gram matrix is the identity, its determinant 1. */
  lemma GramDetStandardBasis()
    ensures GramDet([1.0, 0.0, 0.0], [0.0, 1.0, 0.0], [0.0, 0.0, 1.0]) == 1.0
  {
    var e1, e2, e3 := [1.0, 0.0, 0.0], [0.0, 1.0, 0.0], [0.0, 0.0, 1.0];
    Dot3(e1, e1); Dot3(e1, e2); Dot3(e1, e3);
    Dot3(e2, e1); Dot3(e2, e2); Dot3(e2, e3);
    Dot3(e3, e1); Dot3(e3, e2); Dot3(e3, e3);
  }

  /** Linearly dependent vectors, v3 = v1 + v2, have Gram determinant 0. */
  lemma GramDetDependent(v1: Vec, v2: Vec)
    requires |v1| == |v2|
    ensures GramDet(v1, v2, LinComb(1.0, v1, 1.0, v2)) == 0.0
  {
    var v3 := LinComb(1.0, v1, 1.0, v2);
    DotLinearLeft(1.0, v1, 1.0, v2, v1);
    DotLinearLeft(1.0, v1, 1.0, v2, v2);
    DotLinearLeft(1.0, v1, 1.0, v2, v3);
    Det3DependentRows(Gram(v1, v2, v3));
  }

  /** volume_vetores: exactly three vectors of one length, else an error;
      otherwise (1/6) * sqrt(det G), with a negative determinant replaced by 0.
      The result is never negative and its square is det G / 36. */
  method TetrahedronVolume(vectors: seq<Vec>, sqrt: real -> real) returns (r: Result<real>)
    requires IsSqrt(sqrt)
    ensures |vectors| != 3 ==> r == Failure(DimensionMismatch)
    ensures |vectors| == 3 && !(|vectors[0]| == |vectors[1]| == |vectors[2]|) ==>
              r == Failure(DimensionMismatch)
    ensures |vectors| == 3 && |vectors[0]| == |vectors[1]| == |vectors[2]| ==>
              r.Success? && r.value >= 0.0 &&
              r.value == sqrt(GramDet(vectors[0], vectors[1], vectors[2])) / 6.0 &&
              36.0 * (r.value * r.value) == GramDet(vectors[0], vectors[1], vectors[2])
  {
    if |vectors| != 3 {
      return Failure(DimensionMismatch);
    }
    var v1, v2, v3 := vectors[0], vectors[1], vectors[2];
    if !(|v1| == |v2| == |v3|) {
      return Failure(DimensionMismatch);
    }
    // The lengths agree, so none of these products fails.
    var g11 := DotProduct(v1, v1);
    var g12 := DotProduct(v1, v2);
    var g13 := DotProduct(v1, v3);
    var g21 := DotProduct(v2, v1);
    var g22 := DotProduct(v2, v2);
    var g23 := DotProduct(v2, v3);
    var g31 := DotProduct(v3, v1);
    var g32 := DotProduct(v3, v2);
    var g33 := DotProduct(v3, v3);
    var gram := [[g11.value, g12.value, g13.value],
                 [g21.value, g22.value, g23.value],
                 [g31.value, g32.value, g33.value]];
    assert gram == Gram(v1, v2, v3);
    var det := Det3(gram);
    if det < 0.0 {
      det := 0.0;
    }
    GramDetNonNegative(v1, v2, v3);
    var s := sqrt(det);
    var volume := (1.0 / 6.0) * s;
    assert 36.0 * (volume * volume) == s * s;
    return Success(volume);
  }

  /** The demonstration's dependent vectors (1, 2, 3), (4, 5, 6), (5, 7, 9) give 0. */
  lemma GramDetDependentExample()
    ensures GramDet([1.0, 2.0, 3.0], [4.0, 5.0, 6.0], [5.0, 7.0, 9.0]) == 0.0
  {
    var v1, v2 := [1.0, 2.0, 3.0], [4.0, 5.0, 6.0];
    assert LinComb(1.0, v1, 1.0, v2) == [5.0, 7.0, 9.0];
    GramDetDependent(v1, v2);
  }

  /** Three orthonormal vectors of any dimension have the identity as Gram
      matrix, so their Gram determinant is 1 and their volume 1/6, whatever
      square root is used. */
  lemma OrthonormalVolume(v1: Vec, v2: Vec, v3: Vec, sqrt: real -> real)
    requires IsSqrt(sqrt) && |v1| == |v2| == |v3|
    requires Dot(v1, v1) == 1.0 && Dot(v2, v2) == 1.0 && Dot(v3, v3) == 1.0
    requires Dot(v1, v2) == 0.0 && Dot(v1, v3) == 0.0 && Dot(v2, v3) == 0.0
    ensures GramDet(v1, v2, v3) == 1.0
    ensures sqrt(GramDet(v1, v2, v3)) / 6.0 == 1.0 / 6.0
  {
    DotSymmetric(v1, v2);
    DotSymmetric(v1, v3);
    DotSymmetric(v2, v3);
    SqrtUnique(sqrt(1.0), 1.0);
  }

  /** Vectors v1, v2 and v1 + v2 lie in one plane, so the tetrahedron they span
      is flat: its volume is 0, whatever square root is used. */
  lemma DependentVolume(v1: Vec, v2: Vec, sqrt: real -> real)
    requires IsSqrt(sqrt) && |v1| == |v2|
    ensures sqrt(GramDet(v1, v2, LinComb(1.0, v1, 1.0, v2))) / 6.0 == 0.0
  {
    GramDetDependent(v1, v2);
    SqrtUnique(sqrt(0.0), 0.0);
  }
}
