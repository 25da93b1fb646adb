/** The rank-m spectral approximation A' = P D' P^-1 of a diagonalisable
    matrix, keeping the m eigenvalues of largest magnitude (alc_p2q6_taua.py).
    The eigen-decomposition, the inverse of the eigenvector matrix and the
    sorting permutation come from numerical library calls; here they are
    inputs. The decomposition and the inverse are constrained only in shape;
    the sorting permutation must sort the magnitudes. */
module SpectralTruncation {
  import opened Vectors
  import opened Matrices
  import opened Outcomes

  /** What the eigen-decomposition call returns: the real and imaginary parts
      of the eigenvalues, the matrix P whose columns are eigenvectors (real
      parts), and P's inverse. */
  datatype Eigen = Eigen(re: Vec, im: Vec, vectors: Matrix, inverse: Matrix)

  /** The decomposition of an n-by-n matrix has n eigenvalues and n-by-n factors. */
  predicate EigenShape(eig: Eigen, n: nat)
  {
    |eig.re| == n && |eig.im| == n && IsSquare(eig.vectors, n) && IsSquare(eig.inverse, n)
  }

  /** The imaginary part im is close to 0 in the sense of the library's default
      closeness test: |im - 0| <= 1e-8 + 1e-5 * |0|. */
  predicate Negligible(im: real)
  {
    Abs(im) <= 0.00000001
  }

  /** Every eigenvalue is real up to the closeness tolerance. */
  predicate RealSpectrum(im: Vec)
  {
    forall i :: 0 <= i < |im| ==> Negligible(im[i])
  }

  /** order is an argsort of the magnitudes of re: a permutation along which
      |re| does not decrease. Ties may come in either order. */
  predicate IsArgsort(order: seq<nat>, re: Vec)
  {
    && IsPermutation(order, |re|)
    && forall p, q :: 0 <= p < q < |order| ==> Abs(re[order[p]]) <= Abs(re[order[q]])
  }

  /** The indices the slice `[-m:]` of the argsort keeps: the last m for
      m >= 1, but every index for m == 0, since `-0` is `0`. */
  function Kept(order: seq<nat>, m: nat): (kept: seq<nat>)
    requires m <= |order|
    ensures m == 0 ==> kept == order
    ensures 1 <= m ==> kept == order[|order| - m..]
  {
    if m == 0 then order else order[|order| - m..]
  }

  /** The eigenvalues re with every position outside `kept` set to zero. */
  function Truncated(re: Vec, kept: seq<nat>): (d: Vec)
    ensures |d| == |re|
    ensures forall i :: 0 <= i < |re| ==> d[i] == if i in kept then re[i] else 0.0
  {
    seq(|re|, i requires 0 <= i < |re| => if i in kept then re[i] else 0.0)
  }

  /** P diag(d) P^-1 for an n-by-n decomposition. */
  function Reconstruct(eig: Eigen, d: Vec): (M: Matrix)
    requires EigenShape(eig, |d|)
    ensures IsSquare(M, |d|)
  {
    var n := |d|;
    MatMul(MatMul(eig.vectors, Diag(d), n, n, n), eig.inverse, n, n, n)
  }

  /** When P^-1 P == I, the columns of P are eigenvectors of the approximation
      P D' P^-1, column c with eigenvalue d[c]: A' P == P D'. A kept column
      keeps its eigenvalue and a dropped one is sent to zero. */
  lemma EigenvectorsKept(eig: Eigen, d: Vec)
    requires EigenShape(eig, |d|)
    requires MatMul(eig.inverse, eig.vectors, |d|, |d|, |d|) == Identity(|d|)
    ensures MatMul(Reconstruct(eig, d), eig.vectors, |d|, |d|, |d|) == MatMul(eig.vectors, Diag(d), |d|, |d|, |d|)
    ensures forall r, c :: 0 <= r < |d| && 0 <= c < |d| ==>
              MatMul(Reconstruct(eig, d), eig.vectors, |d|, |d|, |d|)[r][c] == d[c] * eig.vectors[r][c]
  {
    var n, P := |d|, eig.vectors;
    var PD := MatMul(P, Diag(d), n, n, n);
    MatMulAssociative(PD, eig.inverse, P, n, n, n, n);
    MatMulIdentityRight(PD, n, n);
    ScaledColumns(P, d);
  }

  /** P diag(d) scales column c of P by d[c]. */
  lemma ScaledColumns(P: Matrix, d: Vec)
    requires IsSquare(P, |d|)
    ensures forall r, c :: 0 <= r < |d| && 0 <= c < |d| ==>
              MatMul(P, Diag(d), |d|, |d|, |d|)[r][c] == d[c] * P[r][c]
  {
    forall r, c | 0 <= r < |d| && 0 <= c < |d|
      ensures MatMul(P, Diag(d), |d|, |d|, |d|)[r][c] == d[c] * P[r][c]
    {
      MatMulDiag(P, d, |d|, r, c);
    }
  }

  /** D' built in place: a zero array whose kept positions receive their
      eigenvalue. */
  method TruncatedSpectrum(re: Vec, kept: seq<nat>) returns (d: Vec)
    requires forall k :: 0 <= k < |kept| ==> kept[k] < |re|
    ensures d == Truncated(re, kept)
  {
    var a := new real[|re|](i => 0.0);
    for k := 0 to |kept|
      invariant forall i :: 0 <= i < a.Length ==> a[i] == if i in kept[..k] then re[i] else 0.0
    {
      a[kept[k]] := re[kept[k]];
      assert kept[..k + 1] == kept[..k] + [kept[k]];
    }
    assert kept[..|kept|] == kept;
    d := a[..];
  }

  /** aproximacao_truncada. The checks come in the source's order: the matrix
      must be square, then 0 <= m < n, then the spectrum must be real; on
      success the result is P D' P^-1 with D' the truncated eigenvalues. */
  method TruncatedApproximation(A: Matrix, m: int, eig: Eigen, order: seq<nat>) returns (r: Result<Matrix>)
    requires IsSquare(A, |A|) ==> EigenShape(eig, |A|) && IsArgsort(order, eig.re)
    ensures !IsSquare(A, |A|) ==> r == Failure(NotSquare)
    ensures IsSquare(A, |A|) && !(0 <= m < |A|) ==> r == Failure(InvalidRank)
    ensures IsSquare(A, |A|) && 0 <= m < |A| && !RealSpectrum(eig.im) ==> r == Failure(ComplexSpectrum)
    ensures IsSquare(A, |A|) && 0 <= m < |A| && RealSpectrum(eig.im) ==>
              r.Success? && r.value == Reconstruct(eig, Truncated(eig.re, Kept(order, m)))
    ensures r.Success? && m == 0 && A == Reconstruct(eig, eig.re) ==> r.value == A
  {
    if !IsSquare(A, |A|) {
      return Failure(NotSquare);
    }
    var n := |A|;
    if !(0 <= m < n) {
      return Failure(InvalidRank);
    }
    if exists i :: 0 <= i < n && !Negligible(eig.im[i]) {
      return Failure(ComplexSpectrum);
    }
    var kept := Kept(order, m);
    var d := TruncatedSpectrum(eig.re, kept);
    if m == 0 {
      TruncateNothing(eig.re, order);
    }
    return Success(Reconstruct(eig, d));
  }

  /** With m == 0 every eigenvalue is kept and D' == D. */
  lemma TruncateNothing(re: Vec, order: seq<nat>)
    requires IsPermutation(order, |re|)
    ensures Truncated(re, Kept(order, 0)) == re
  {
  }

  /** The set of entries of s. */
  function Elements(s: seq<nat>): set<nat>
  {
    set x | x in s
  }

  /** A sequence without repeated elements has as many distinct elements as entries. */
  lemma {:induction false} DistinctCard(s: seq<nat>)
    requires forall p, q :: 0 <= p < q < |s| ==> s[p] != s[q]
    ensures |Elements(s)| == |s|
  {
    if |s| > 0 {
      DistinctCard(s[1..]);
      assert Elements(s) == {s[0]} + Elements(s[1..]);
    }
  }

  /** For 1 <= m < n exactly m positions of D' keep their eigenvalue, and for
      m == 0 all n of them do. */
  lemma KeptCount(re: Vec, order: seq<nat>, m: nat)
    requires IsArgsort(order, re) && m < |re|
    ensures |Elements(Kept(order, m))| == if m == 0 then |re| else m
    ensures forall i :: i in Kept(order, m) ==> i < |re|
  {
    DistinctCard(Kept(order, m));
  }

  /** Every kept eigenvalue is at least as large in magnitude as every dropped one. */
  lemma KeptDominates(re: Vec, order: seq<nat>, m: nat, i: nat, j: nat)
    requires IsArgsort(order, re) && m < |re|
    requires i in Kept(order, m) && j < |re| && j !in Kept(order, m)
    ensures i < |re| && Abs(re[i]) >= Abs(re[j])
  {
    var n := |re|;
    var p :| n - m <= p < n && order[p] == i;
    assert j in order;
    var q :| 0 <= q < n && order[q] == j;
  }
}
