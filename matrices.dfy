/** Dense matrices of reals as sequences of rows, their product, and the
    view of a two-dimensional array as such a matrix. */
module Matrices {
  import opened Vectors

  type Matrix = seq<seq<real>>

  /** M has `rows` rows of `cols` entries each. */
  predicate IsMatrix(M: Matrix, rows: nat, cols: nat)
  {
    |M| == rows && forall r :: 0 <= r < |M| ==> |M[r]| == cols
  }

  /** M is an n-by-n matrix. */
  predicate IsSquare(M: Matrix, n: nat)
  {
    IsMatrix(M, n, n)
  }

  /** Column c of M. */
  function Col(M: Matrix, c: nat): (v: Vec)
    requires forall r :: 0 <= r < |M| ==> c < |M[r]|
    ensures |v| == |M|
    ensures forall r :: 0 <= r < |M| ==> v[r] == M[r][c]
  {
    seq(|M|, r requires 0 <= r < |M| && c < |M[r]| => M[r][c])
  }

  /** The product of an m-by-k matrix and a k-by-p matrix. */
  function MatMul(A: Matrix, B: Matrix, m: nat, k: nat, p: nat): (C: Matrix)
    requires IsMatrix(A, m, k) && IsMatrix(B, k, p)
    ensures IsMatrix(C, m, p)
    ensures forall r, c :: 0 <= r < m && 0 <= c < p ==> C[r][c] == Dot(A[r], Col(B, c))
  {
    seq(m, r requires 0 <= r < m => seq(p, c requires 0 <= c < p => Dot(A[r], Col(B, c))))
  }

  /** The n-by-n identity matrix. */
  function Identity(n: nat): (I: Matrix)
    ensures IsSquare(I, n)
    ensures forall r, c :: 0 <= r < n && 0 <= c < n ==> I[r][c] == if r == c then 1.0 else 0.0
  {
    seq(n, r => seq(n, c => if r == c then 1.0 else 0.0))
  }

  /** The diagonal matrix whose diagonal is d. */
  function Diag(d: Vec): (D: Matrix)
    ensures IsSquare(D, |d|)
    ensures forall r, c :: 0 <= r < |d| && 0 <= c < |d| ==> D[r][c] == if r == c then d[r] else 0.0
  {
    seq(|d|, r requires 0 <= r < |d| => seq(|d|, c => if r == c then d[r] else 0.0))
  }

  /** perm lists each of 0 .. n-1 exactly once. */
  predicate IsPermutation(perm: seq<nat>, n: nat)
  {
    && |perm| == n
    && (forall k :: 0 <= k < n ==> perm[k] < n)
    && (forall p, q :: 0 <= p < q < n ==> perm[p] != perm[q])
    && (forall i :: 0 <= i < n ==> i in perm)
  }

  /** The permutation matrix whose row r is the unit row vector e_perm[r], so
      that (PermMatrix(perm) A)[r] == A[perm[r]]. */
  function PermMatrix(perm: seq<nat>): (P: Matrix)
    ensures IsSquare(P, |perm|)
    ensures forall r, c :: 0 <= r < |perm| && 0 <= c < |perm| ==> P[r][c] == if c == perm[r] then 1.0 else 0.0
  {
    seq(|perm|, r requires 0 <= r < |perm| => seq(|perm|, c => if c == perm[r] then 1.0 else 0.0))
  }

  /** The entries of the array a are those of the matrix M. */
  ghost predicate Holds(a: array2<real>, M: Matrix)
    reads a
  {
    IsMatrix(M, a.Length0, a.Length1) &&
    forall r, c :: 0 <= r < a.Length0 && 0 <= c < a.Length1 ==> a[r, c] == M[r][c]
  }

  /** The rows of a two-dimensional array. */
  ghost function Rows(a: array2<real>): (M: Matrix)
    reads a
    ensures IsMatrix(M, a.Length0, a.Length1)
    ensures forall r, c :: 0 <= r < a.Length0 && 0 <= c < a.Length1 ==> M[r][c] == a[r, c]
  {
    seq(a.Length0, r requires 0 <= r < a.Length0 reads a =>
      seq(a.Length1, c requires 0 <= c < a.Length1 reads a => a[r, c]))
  }

  /** Matrices of one shape with the same entries are equal. */
  lemma MatrixEqual(M: Matrix, N: Matrix, rows: nat, cols: nat)
    requires IsMatrix(M, rows, cols) && IsMatrix(N, rows, cols)
    requires forall r, c :: 0 <= r < rows && 0 <= c < cols ==> M[r][c] == N[r][c]
    ensures M == N
  {
    forall r | 0 <= r < rows
      ensures M[r] == N[r]
    {
      assert forall c :: 0 <= c < cols ==> M[r][c] == N[r][c];
    }
  }

  /** A sum of products with a single non-zero factor on the left picks out one term. */
  lemma {:induction false} SumProdUnit(u: Vec, v: Vec, j: nat, k: nat)
    requires k <= |u| && k <= |v| && j < |u|
    requires forall i :: 0 <= i < |u| ==> u[i] == if i == j then 1.0 else 0.0
    ensures SumProd(u, v, k) == if j < k then v[j] else 0.0
  {
    if k > 0 {
      SumProdUnit(u, v, j, k - 1);
    }
  }

  /** The matrix-vector product M v: entry i is row i of M dotted with v. */
  function MatVec(M: Matrix, v: Vec): (w: Vec)
    requires IsMatrix(M, |M|, |v|)
    ensures |w| == |M|
    ensures forall i :: 0 <= i < |M| ==> w[i] == Dot(M[i], v)
  {
    seq(|M|, i requires 0 <= i < |M| => Dot(M[i], v))
  }

  /** The sum of x[i] times row i of M over i < k, a vector of length p. */
  function RowComb(x: Vec, M: Matrix, p: nat, k: nat): (y: Vec)
    requires IsMatrix(M, |x|, p) && k <= |x|
    ensures |y| == p
  {
    if k == 0 then Zeros(p) else LinComb(1.0, RowComb(x, M, p, k - 1), x[k - 1], M[k - 1])
  }

  /** Entry j of the combination of rows is x dotted with column j, up to k. */
  lemma {:induction false} RowCombEntry(x: Vec, M: Matrix, p: nat, k: nat, j: nat)
    requires IsMatrix(M, |x|, p) && k <= |x| && j < p
    ensures RowComb(x, M, p, k)[j] == SumProd(x, Col(M, j), k)
  {
    if k > 0 {
      RowCombEntry(x, M, p, k - 1, j);
    }
  }

  /** Dotting the combination of rows with v combines the entries of M v. */
  lemma {:induction false} RowCombDot(x: Vec, M: Matrix, v: Vec, k: nat)
    requires IsMatrix(M, |x|, |v|) && k <= |x|
    ensures Dot(RowComb(x, M, |v|, k), v) == SumProd(x, MatVec(M, v), k)
  {
    var p := |v|;
    if k == 0 {
      DotZeroRight(v, Zeros(p));
      DotSymmetric(v, Zeros(p));
    } else {
      RowCombDot(x, M, v, k - 1);
      DotLinearLeft(1.0, RowComb(x, M, p, k - 1), x[k - 1], M[k - 1], v);
    }
  }

  /** (x M) . v == x . (M v): the two ways of summing x[i] M[i][j] v[j]. */
  lemma SwapSums(x: Vec, M: Matrix, v: Vec, y: Vec)
    requires IsMatrix(M, |x|, |v|) && |y| == |v|
    requires forall j :: 0 <= j < |v| ==> y[j] == Dot(x, Col(M, j))
    ensures Dot(y, v) == Dot(x, MatVec(M, v))
  {
    var p := |v|;
    forall j | 0 <= j < p
      ensures RowComb(x, M, p, |x|)[j] == y[j]
    {
      RowCombEntry(x, M, p, |x|, j);
    }
    assert RowComb(x, M, p, |x|) == y;
    RowCombDot(x, M, v, |x|);
  }

  /** The matrix product is associative: (X Y) Z == X (Y Z). */
  lemma MatMulAssociative(X: Matrix, Y: Matrix, Z: Matrix, m: nat, k: nat, l: nat, p: nat)
    requires IsMatrix(X, m, k) && IsMatrix(Y, k, l) && IsMatrix(Z, l, p)
    ensures MatMul(MatMul(X, Y, m, k, l), Z, m, l, p) == MatMul(X, MatMul(Y, Z, k, l, p), m, k, p)
  {
    var XY, YZ := MatMul(X, Y, m, k, l), MatMul(Y, Z, k, l, p);
    var left, right := MatMul(XY, Z, m, l, p), MatMul(X, YZ, m, k, p);
    forall r, c | 0 <= r < m && 0 <= c < p
      ensures left[r][c] == right[r][c]
    {
      var z := Col(Z, c);
      assert Col(YZ, c) == MatVec(Y, z);
      SwapSums(X[r], Y, z, XY[r]);
    }
    MatrixEqual(left, right, m, p);
  }

  /** Multiplying by the identity on the right changes nothing. */
  lemma MatMulIdentityRight(M: Matrix, m: nat, n: nat)
    requires IsMatrix(M, m, n)
    ensures MatMul(M, Identity(n), m, n, n) == M
  {
    var MI := MatMul(M, Identity(n), m, n, n);
    forall r, c | 0 <= r < m && 0 <= c < n
      ensures MI[r][c] == M[r][c]
    {
      var e := Col(Identity(n), c);
      DotSymmetric(M[r], e);
      SumProdUnit(e, M[r], c, n);
    }
    MatrixEqual(MI, M, m, n);
  }

  /** Column c of M diag(d) is d[c] times column c of M. */
  lemma MatMulDiag(M: Matrix, d: Vec, m: nat, r: nat, c: nat)
    requires IsMatrix(M, m, |d|) && r < m && c < |d|
    ensures MatMul(M, Diag(d), m, |d|, |d|)[r][c] == d[c] * M[r][c]
  {
    var n := |d|;
    var e, dc := Col(Identity(n), c), Col(Diag(d), c);
    SumProdCombination(M[r], d[c], e, 0.0, e, dc, n);
    DotSymmetric(M[r], e);
    SumProdUnit(e, M[r], c, n);
  }
}
