/** QR decomposition by modified Gram-Schmidt (lista_de_exercicio_4_questao_5.py).
    Column i of Q starts as column i of A; the projection on each earlier
    column of Q is subtracted from it as soon as its coefficient is known, and
    the result is divided by its norm. In exact arithmetic, for an input whose
    columns are linearly independent, A == Q R with Q^T Q == I and R upper
    triangular with a positive diagonal. */
module GramSchmidtQr {
  import opened Vectors
  import opened Matrices

  /** Every vector of qs has length m. */
  predicate Columns(qs: seq<Vec>, m: nat)
  {
    forall j :: 0 <= j < |qs| ==> |qs[j]| == m
  }

  /** Entry r of each vector of qs: row r of the matrix whose columns are qs. */
  function RowOf(qs: seq<Vec>, r: nat): (v: Vec)
    requires forall j :: 0 <= j < |qs| ==> r < |qs[j]|
    ensures |v| == |qs|
    ensures forall j :: 0 <= j < |qs| ==> v[j] == qs[j][r]
  {
    seq(|qs|, j requires 0 <= j < |qs| => qs[j][r])
  }

  /** The combination cs[0] qs[0] + ... + cs[t-1] qs[t-1] of m-vectors. */
  function Combo(qs: seq<Vec>, cs: Vec, t: nat, m: nat): (v: Vec)
    requires Columns(qs, m) && t <= |qs| && t <= |cs|
    ensures |v| == m
    ensures forall r :: 0 <= r < m ==> v[r] == SumProd(RowOf(qs, r), cs, t)
  {
    seq(m, r requires 0 <= r < m => SumProd(RowOf(qs, r), cs, t))
  }

  /** A c: the combination of the columns of the m-by-n matrix A with coefficients c. */
  function MatVec(A: Matrix, c: Vec, m: nat): (v: Vec)
    requires IsMatrix(A, m, |c|)
    ensures |v| == m
    ensures forall r :: 0 <= r < m ==> v[r] == Dot(A[r], c)
  {
    seq(m, r requires 0 <= r < m => Dot(A[r], c))
  }

  /** Every entry of v is zero. */
  predicate AllZero(v: Vec)
  {
    forall k :: 0 <= k < |v| ==> v[k] == 0.0
  }

  /** The columns of the m-by-n matrix A are linearly independent: only the
      zero combination of them is the zero vector. */
  ghost predicate IndependentColumns(A: Matrix, m: nat, n: nat)
  {
    IsMatrix(A, m, n) &&
    forall c: Vec :: |c| == n && AllZero(MatVec(A, c, m)) ==> AllZero(c)
  }

  /** The unit vector e_i of length n. */
  function UnitVec(n: nat, i: nat): (e: Vec)
    ensures |e| == n
    ensures forall k :: 0 <= k < n ==> e[k] == if k == i then 1.0 else 0.0
  {
    seq(n, k => if k == i then 1.0 else 0.0)
  }

  /** The transpose of an m-by-n matrix. */
  function Transpose(M: Matrix, m: nat, n: nat): (T: Matrix)
    requires IsMatrix(M, m, n)
    ensures IsMatrix(T, n, m)
    ensures forall j, r :: 0 <= j < n && 0 <= r < m ==> T[j][r] == M[r][j]
  {
    seq(n, j requires 0 <= j < n => Col(M, j))
  }

  /** The vectors qs are m-vectors of unit length, mutually orthogonal. */
  ghost predicate Orthonormal(qs: seq<Vec>, m: nat)
  {
    Columns(qs, m) &&
    forall j, k :: 0 <= j < |qs| && 0 <= k < |qs| ==> Dot(qs[j], qs[k]) == if j == k then 1.0 else 0.0
  }

  // ---------------------------------------------------------------------
  // Algebra of combinations

  /** A combination grows by one term at a time. */
  lemma ComboNext(qs: seq<Vec>, cs: Vec, t: nat, m: nat)
    requires Columns(qs, m) && t < |qs| && t < |cs|
    ensures Combo(qs, cs, t + 1, m) == LinComb(1.0, Combo(qs, cs, t, m), cs[t], qs[t])
  {
    forall r | 0 <= r < m
      ensures Combo(qs, cs, t + 1, m)[r] == LinComb(1.0, Combo(qs, cs, t, m), cs[t], qs[t])[r]
    {
      SumProdNext(RowOf(qs, r), cs, t);
    }
  }

  /** A combination of the first t vectors only depends on those vectors and
      on the first t coefficients. */
  lemma ComboAgree(qs: seq<Vec>, cs: Vec, qs': seq<Vec>, cs': Vec, t: nat, m: nat)
    requires Columns(qs, m) && Columns(qs', m)
    requires t <= |qs| && t <= |cs| && t <= |qs'| && t <= |cs'|
    requires forall j :: 0 <= j < t ==> qs[j] == qs'[j] && cs[j] == cs'[j]
    ensures Combo(qs, cs, t, m) == Combo(qs', cs', t, m)
  {
    forall r | 0 <= r < m
      ensures Combo(qs, cs, t, m)[r] == Combo(qs', cs', t, m)[r]
    {
      SumProdAgree(RowOf(qs, r), cs, RowOf(qs', r), cs', t);
    }
  }

  /** A vector orthogonal to qs[0 .. t-1] is orthogonal to every combination of them. */
  lemma {:induction false} ComboOrthogonal(qs: seq<Vec>, cs: Vec, t: nat, m: nat, v: Vec)
    requires Columns(qs, m) && t <= |qs| && t <= |cs| && |v| == m
    requires forall j :: 0 <= j < t ==> Dot(v, qs[j]) == 0.0
    ensures Dot(v, Combo(qs, cs, t, m)) == 0.0
  {
    if t == 0 {
      DotZeroRight(v, Combo(qs, cs, 0, m));
    } else {
      ComboOrthogonal(qs, cs, t - 1, m, v);
      ComboNext(qs, cs, t - 1, m);
      DotLinear(v, 1.0, Combo(qs, cs, t - 1, m), cs[t - 1], qs[t - 1]);
    }
  }

  /** The modified and the classical coefficient agree: once the projections
      on q_0 .. q_{j-1} are subtracted from a, the dot product of q_j with
      what is left equals its dot product with a itself. */
  lemma ModifiedEqualsClassical(qs: seq<Vec>, cs: Vec, j: nat, m: nat, a: Vec)
    requires Orthonormal(qs, m) && j < |qs| && j <= |cs| && |a| == m
    ensures Dot(qs[j], LinComb(1.0, a, -1.0, Combo(qs, cs, j, m))) == Dot(qs[j], a)
  {
    ComboOrthogonal(qs, cs, j, m, qs[j]);
    DotLinear(qs[j], 1.0, a, -1.0, Combo(qs, cs, j, m));
  }

  /** A sum of products whose right factors vanish from t on stops at t. */
  lemma {:induction false} SumProdZeroTail(u: Vec, v: Vec, t: nat, k: nat)
    requires t <= k <= |u| && k <= |v|
    requires forall j :: t <= j < k ==> v[j] == 0.0
    ensures SumProd(u, v, k) == SumProd(u, v, t)
  {
    if k > t {
      SumProdZeroTail(u, v, t, k - 1);
    }
  }

  /** The combination of the columns of A with the coefficients of e_i is column i. */
  lemma MatVecUnit(A: Matrix, m: nat, n: nat, i: nat)
    requires IsMatrix(A, m, n) && i < n
    ensures MatVec(A, UnitVec(n, i), m) == Col(A, i)
  {
    forall r | 0 <= r < m
      ensures MatVec(A, UnitVec(n, i), m)[r] == Col(A, i)[r]
    {
      SumProdSymmetric(A[r], UnitVec(n, i), n);
      SumProdUnit(UnitVec(n, i), A[r], i, n);
    }
  }

  /** Combining the columns of A is linear in the coefficients. */
  lemma MatVecLinear(A: Matrix, m: nat, a: real, c: Vec, b: real, d: Vec)
    requires IsMatrix(A, m, |c|) && |d| == |c|
    ensures MatVec(A, LinComb(a, c, b, d), m) == LinComb(a, MatVec(A, c, m), b, MatVec(A, d, m))
  {
    forall r | 0 <= r < m
      ensures MatVec(A, LinComb(a, c, b, d), m)[r] == LinComb(a, MatVec(A, c, m), b, MatVec(A, d, m))[r]
    {
      DotLinear(A[r], a, c, b, d);
    }
  }

  /** Orthonormal columns make Q^T Q the identity. */
  lemma OrthonormalGram(Q: Matrix, m: nat, n: nat)
    requires IsMatrix(Q, m, n)
    requires forall j, k :: 0 <= j < n && 0 <= k < n ==> Dot(Col(Q, j), Col(Q, k)) == if j == k then 1.0 else 0.0
    ensures MatMul(Transpose(Q, m, n), Q, n, m, n) == Identity(n)
  {
    var T := Transpose(Q, m, n);
    forall j, k | 0 <= j < n && 0 <= k < n
      ensures MatMul(T, Q, n, m, n)[j][k] == Identity(n)[j][k]
    {
      assert T[j] == Col(Q, j);
    }
    MatrixEqual(MatMul(T, Q, n, m, n), Identity(n), n, n);
  }

  // ---------------------------------------------------------------------
  // The state of the factorisation between steps

  /** Each finished column qs[j] is A ts[j], a combination of the columns
      0 .. j of A only. */
  ghost predicate Spanned(A: Matrix, m: nat, n: nat, qs: seq<Vec>, ts: seq<Vec>)
  {
    IsMatrix(A, m, n) && |ts| == |qs| &&
    forall j :: 0 <= j < |ts| ==>
      && |ts[j]| == n
      && (forall k :: j < k < n ==> ts[j][k] == 0.0)
      && qs[j] == MatVec(A, ts[j], m)
  }

  /** The state after i columns of the m-by-n matrix A: qs are the finished
      columns of Q and rc the columns of R. R is upper triangular, its first
      i diagonal entries are positive, its entries above them are the
      coefficients q_j . a_k, and a_k == R[0][k] q_0 + ... + R[k][k] q_k. */
  ghost predicate Done(A: Matrix, m: nat, n: nat, i: nat, qs: seq<Vec>, ts: seq<Vec>, rc: seq<Vec>)
  {
    && IsMatrix(A, m, n) && i <= n
    && |qs| == i && Orthonormal(qs, m) && Spanned(A, m, n, qs, ts)
    && |rc| == n && (forall k :: 0 <= k < n ==> |rc[k]| == n)
    && (forall k, j :: 0 <= k < j < n ==> rc[k][j] == 0.0)
    && (forall k :: 0 <= k < i ==> rc[k][k] > 0.0)
    && (forall j, k :: 0 <= j < k < i ==> rc[k][j] == Dot(qs[j], Col(A, k)))
    && (forall k :: 0 <= k < i ==> Col(A, k) == Combo(qs, rc[k], k + 1, m))
  }

  /** The state inside step i once the projections on q_0 .. q_{j-1} are
      subtracted: the working column w is a_i minus those projections, it is
      A c for coefficients c with c[i] == 1 and no later column, it is
      orthogonal to q_0 .. q_{j-1}, and the coefficients stored so far in
      column i of R are q_l . a_i. */
  ghost predicate Projected(A: Matrix, m: nat, n: nat, i: nat, j: nat, qs: seq<Vec>, ts: seq<Vec>, rc: seq<Vec>, w: Vec, c: Vec)
  {
    && Done(A, m, n, i, qs, ts, rc) && i < n && j <= i
    && |c| == n && c[i] == 1.0 && (forall k :: i < k < n ==> c[k] == 0.0)
    && w == MatVec(A, c, m)
    && w == LinComb(1.0, Col(A, i), -1.0, Combo(qs, rc[i], j, m))
    && (forall l :: 0 <= l < j ==> Dot(qs[l], w) == 0.0)
    && (forall l :: 0 <= l < j ==> rc[i][l] == Dot(qs[l], Col(A, i)))
  }

  /** Nothing is finished before the first step. */
  lemma DoneInit(A: Matrix, m: nat, n: nat)
    requires IsMatrix(A, m, n)
    ensures Done(A, m, n, 0, [], [], seq(n, k => Zeros(n)))
  {
  }

  /** Step i starts from w == a_i == A e_i. */
  lemma ProjectStart(A: Matrix, m: nat, n: nat, i: nat, qs: seq<Vec>, ts: seq<Vec>, rc: seq<Vec>)
    requires Done(A, m, n, i, qs, ts, rc) && i < n
    ensures Projected(A, m, n, i, 0, qs, ts, rc, Col(A, i), UnitVec(n, i))
  {
    MatVecUnit(A, m, n, i);
    var a := Col(A, i);
    var z := Combo(qs, rc[i], 0, m);
    forall r | 0 <= r < m
      ensures a[r] == LinComb(1.0, a, -1.0, z)[r]
    {
      assert z[r] == 0.0;
    }
  }

  /** Subtracting the projection on q_j: its coefficient q_j . w is also
      q_j . a_i, and the state moves on to j + 1. */
  lemma ProjectStep(A: Matrix, m: nat, n: nat, i: nat, j: nat, qs: seq<Vec>, ts: seq<Vec>, rc: seq<Vec>, w: Vec, c: Vec, rji: real)
    requires Projected(A, m, n, i, j, qs, ts, rc, w, c) && j < i
    requires rji == Dot(qs[j], w)
    ensures rji == Dot(qs[j], Col(A, i))
    ensures Projected(A, m, n, i, j + 1, qs, ts, rc[i := rc[i][j := rji]],
                      LinComb(1.0, w, -rji, qs[j]), LinComb(1.0, c, -rji, ts[j]))
  {
    var a := Col(A, i);
    ModifiedEqualsClassical(qs, rc[i], j, m, a);
    var rc' := rc[i := rc[i][j := rji]];
    DoneWrite(A, m, n, i, qs, ts, rc, j, rji);
    ProjectCoefficients(A, m, n, i, j, qs, ts, w, c, rji);
    ProjectOrthogonal(qs, m, j, w, rji);
    ProjectWorking(qs, m, rc[i], rc'[i], j, a, w, rji);
  }

  /** Writing an entry on or above the diagonal of an unfinished column of R
      keeps the state after i columns. */
  lemma DoneWrite(A: Matrix, m: nat, n: nat, i: nat, qs: seq<Vec>, ts: seq<Vec>, rc: seq<Vec>, j: nat, x: real)
    requires Done(A, m, n, i, qs, ts, rc) && j <= i < n
    ensures Done(A, m, n, i, qs, ts, rc[i := rc[i][j := x]])
  {
  }

  /** The coefficients follow the working column: A (c - r t_j) == w - r q_j,
      with a 1 in position i and nothing after it. */
  lemma ProjectCoefficients(A: Matrix, m: nat, n: nat, i: nat, j: nat, qs: seq<Vec>, ts: seq<Vec>, w: Vec, c: Vec, rji: real)
    requires Spanned(A, m, n, qs, ts) && j < i < n && j < |qs|
    requires |c| == n && c[i] == 1.0 && (forall k :: i < k < n ==> c[k] == 0.0)
    requires w == MatVec(A, c, m)
    ensures var c' := LinComb(1.0, c, -rji, ts[j]);
      && c'[i] == 1.0 && (forall k :: i < k < n ==> c'[k] == 0.0)
      && LinComb(1.0, w, -rji, qs[j]) == MatVec(A, c', m)
  {
    MatVecLinear(A, m, 1.0, c, -rji, ts[j]);
  }

  /** Once w is orthogonal to q_0 .. q_{j-1}, w - (q_j . w) q_j is orthogonal
      to q_0 .. q_j. */
  lemma ProjectOrthogonal(qs: seq<Vec>, m: nat, j: nat, w: Vec, rji: real)
    requires Orthonormal(qs, m) && j < |qs| && |w| == m
    requires forall l :: 0 <= l < j ==> Dot(qs[l], w) == 0.0
    requires rji == Dot(qs[j], w)
    ensures forall l :: 0 <= l <= j ==> Dot(qs[l], LinComb(1.0, w, -rji, qs[j])) == 0.0
  {
    forall l | 0 <= l <= j
      ensures Dot(qs[l], LinComb(1.0, w, -rji, qs[j])) == 0.0
    {
      DotLinear(qs[l], 1.0, w, -rji, qs[j]);
    }
  }

  /** w - r q_j is a minus the projections on q_0 .. q_j once r is recorded
      as coefficient j. */
  lemma ProjectWorking(qs: seq<Vec>, m: nat, cs: Vec, cs': Vec, j: nat, a: Vec, w: Vec, rji: real)
    requires Columns(qs, m) && j < |qs| && j < |cs| && |cs'| == |cs| && |a| == m
    requires forall l :: 0 <= l < j ==> cs'[l] == cs[l]
    requires cs'[j] == rji
    requires w == LinComb(1.0, a, -1.0, Combo(qs, cs, j, m))
    ensures LinComb(1.0, w, -rji, qs[j]) == LinComb(1.0, a, -1.0, Combo(qs, cs', j + 1, m))
  {
    ComboAgree(qs, cs, qs, cs', j, m);
    ComboNext(qs, cs', j, m);
    var K := Combo(qs, cs, j, m);
    var K' := Combo(qs, cs', j + 1, m);
    forall r | 0 <= r < m
      ensures LinComb(1.0, w, -rji, qs[j])[r] == LinComb(1.0, a, -1.0, K')[r]
    {
      assert K'[r] == 1.0 * K[r] + rji * qs[j][r];
    }
  }

  /** For linearly independent columns the working column is never zero:
      it is A c with c[i] == 1. */
  lemma WorkingNonZero(A: Matrix, m: nat, n: nat, i: nat, w: Vec, c: Vec)
    requires IndependentColumns(A, m, n) && i < n
    requires |c| == n && c[i] == 1.0 && w == MatVec(A, c, m)
    ensures Dot(w, w) > 0.0
  {
    assert !AllZero(c);
    assert !AllZero(w);
    DotSelf(w);
  }

  /** A non-zero norm is positive. */
  lemma NormPositive(rii: real, ww: real)
    requires rii >= 0.0 && rii * rii == ww && ww > 0.0
    ensures rii > 0.0
  {
    if rii == 0.0 {
      assert false;
    }
  }

  /** Dividing w by its norm gives a vector of unit length. */
  lemma UnitColumn(w: Vec, rii: real)
    requires rii > 0.0 && rii * rii == Dot(w, w)
    ensures Dot(LinComb(1.0 / rii, w, 0.0, w), LinComb(1.0 / rii, w, 0.0, w)) == 1.0
  {
    var s := 1.0 / rii;
    var q := LinComb(s, w, 0.0, w);
    DotLinear(q, s, w, 0.0, w);
    DotLinearLeft(s, w, 0.0, w, w);
    InverseSquare(rii, s, Dot(w, w), Dot(q, w), Dot(q, q));
  }

  lemma InverseSquare(rii: real, s: real, ww: real, qw: real, qq: real)
    requires rii > 0.0 && s == 1.0 / rii && rii * rii == ww
    requires qw == s * ww + 0.0 * ww && qq == s * qw + 0.0 * qw
    ensures qq == 1.0
  {
    assert s * rii == 1.0;
    assert qq == (s * rii) * (s * rii);
  }

  /** Scaling keeps orthogonality. */
  lemma ScaledOrthogonal(u: Vec, w: Vec, s: real)
    requires |u| == |w| && Dot(u, w) == 0.0
    ensures Dot(u, LinComb(s, w, 0.0, w)) == 0.0
  {
    DotLinear(u, s, w, 0.0, w);
  }

  /** Multiplying back by the norm recovers the working column. */
  lemma ScaleBack(rii: real, s: real, x: real)
    requires rii > 0.0 && s == 1.0 / rii
    ensures rii * (s * x + 0.0 * x) == x
  {
    assert rii * s == 1.0;
  }

  /** Appending a unit vector orthogonal to every vector of an orthonormal
      family keeps it orthonormal. */
  lemma OrthonormalExtend(qs: seq<Vec>, m: nat, q: Vec)
    requires Orthonormal(qs, m) && |q| == m && Dot(q, q) == 1.0
    requires forall l :: 0 <= l < |qs| ==> Dot(qs[l], q) == 0.0
    ensures Orthonormal(qs + [q], m)
  {
    var qs' := qs + [q];
    forall j, k | 0 <= j < |qs'| && 0 <= k < |qs'|
      ensures Dot(qs'[j], qs'[k]) == if j == k then 1.0 else 0.0
    {
      if j == |qs| && k < |qs| {
        DotSymmetric(q, qs[k]);
      }
    }
  }

  /** Normalising the working column finishes step i: R[i][i] is the norm of
      the working column, which is positive, and q_i is the working column
      divided by it. */
  lemma Normalise(A: Matrix, m: nat, n: nat, i: nat, qs: seq<Vec>, ts: seq<Vec>, rc: seq<Vec>, w: Vec, c: Vec, rii: real)
    requires Projected(A, m, n, i, i, qs, ts, rc, w, c)
    requires IndependentColumns(A, m, n)
    requires rii >= 0.0 && rii * rii == Dot(w, w)
    ensures rii > 0.0
    ensures Done(A, m, n, i + 1, qs + [LinComb(1.0 / rii, w, 0.0, w)], ts + [LinComb(1.0 / rii, c, 0.0, c)],
                 rc[i := rc[i][i := rii]])
  {
    WorkingNonZero(A, m, n, i, w, c);
    NormPositive(rii, Dot(w, w));
    var s := 1.0 / rii;
    var q := LinComb(s, w, 0.0, w);
    var t := LinComb(s, c, 0.0, c);
    NormaliseOrthonormal(qs, m, w, rii, s);
    MatVecLinear(A, m, s, c, 0.0, c);
    SpannedExtend(A, m, n, qs, ts, q, t, i);
    NormaliseReconstructs(A, m, n, i, qs, rc, w, rii, s);
    DoneExtend(A, m, n, i, qs, ts, rc, q, t, rii);
  }

  /** q_i == w / R[i][i] extends the orthonormal family q_0 .. q_{i-1}. */
  lemma NormaliseOrthonormal(qs: seq<Vec>, m: nat, w: Vec, rii: real, s: real)
    requires Orthonormal(qs, m) && |w| == m
    requires forall l :: 0 <= l < |qs| ==> Dot(qs[l], w) == 0.0
    requires rii > 0.0 && rii * rii == Dot(w, w) && s == 1.0 / rii
    ensures Orthonormal(qs + [LinComb(s, w, 0.0, w)], m)
  {
    var q := LinComb(s, w, 0.0, w);
    UnitColumn(w, rii);
    forall l | 0 <= l < |qs|
      ensures Dot(qs[l], q) == 0.0
    {
      ScaledOrthogonal(qs[l], w, s);
    }
    OrthonormalExtend(qs, m, q);
  }

  /** Every column up to i is reconstructed once q_i and R[i][i] are in place. */
  lemma NormaliseReconstructs(A: Matrix, m: nat, n: nat, i: nat, qs: seq<Vec>, rc: seq<Vec>, w: Vec, rii: real, s: real)
    requires IsMatrix(A, m, n) && i < n && |qs| == i && Columns(qs, m)
    requires |rc| == n && forall k :: 0 <= k < n ==> |rc[k]| == n
    requires forall k :: 0 <= k < i ==> Col(A, k) == Combo(qs, rc[k], k + 1, m)
    requires w == LinComb(1.0, Col(A, i), -1.0, Combo(qs, rc[i], i, m))
    requires rii > 0.0 && s == 1.0 / rii
    ensures forall k :: 0 <= k <= i ==>
      Col(A, k) == Combo(qs + [LinComb(s, w, 0.0, w)], rc[i := rc[i][i := rii]][k], k + 1, m)
  {
    var qs', rc' := qs + [LinComb(s, w, 0.0, w)], rc[i := rc[i][i := rii]];
    ReconstructColumn(qs, m, rc[i], rc'[i], i, Col(A, i), w, rii, s);
    forall k | 0 <= k < i
      ensures Col(A, k) == Combo(qs', rc'[k], k + 1, m)
    {
      ComboAgree(qs, rc[k], qs', rc'[k], k + 1, m);
    }
  }

  lemma SpannedExtend(A: Matrix, m: nat, n: nat, qs: seq<Vec>, ts: seq<Vec>, q: Vec, t: Vec, i: nat)
    requires Spanned(A, m, n, qs, ts) && |qs| == i
    requires |t| == n && (forall k :: i < k < n ==> t[k] == 0.0) && q == MatVec(A, t, m)
    ensures Spanned(A, m, n, qs + [q], ts + [t])
  {
  }

  /** a_i == R[0][i] q_0 + ... + R[i][i] q_i once w == a_i minus the first i
      projections and q_i == w / R[i][i]. */
  lemma ReconstructColumn(qs: seq<Vec>, m: nat, cs: Vec, cs': Vec, i: nat, a: Vec, w: Vec, rii: real, s: real)
    requires Columns(qs, m) && |qs| == i && i < |cs| && |cs'| == |cs| && |a| == m
    requires forall l :: 0 <= l < i ==> cs'[l] == cs[l]
    requires cs'[i] == rii && rii > 0.0 && s == 1.0 / rii
    requires w == LinComb(1.0, a, -1.0, Combo(qs, cs, i, m))
    ensures a == Combo(qs + [LinComb(s, w, 0.0, w)], cs', i + 1, m)
  {
    var q := LinComb(s, w, 0.0, w);
    var qs' := qs + [q];
    ComboAgree(qs, cs, qs', cs', i, m);
    ComboNext(qs', cs', i, m);
    var K := Combo(qs, cs, i, m);
    var K' := Combo(qs', cs', i + 1, m);
    forall r | 0 <= r < m
      ensures a[r] == K'[r]
    {
      assert K'[r] == 1.0 * K[r] + rii * q[r];
      ScaleBack(rii, s, w[r]);
    }
  }

  /** The bookkeeping of Normalise: with q_i and R[i][i] in place the state
      after i + 1 columns holds. */
  lemma DoneExtend(A: Matrix, m: nat, n: nat, i: nat, qs: seq<Vec>, ts: seq<Vec>, rc: seq<Vec>, q: Vec, t: Vec, rii: real)
    requires Done(A, m, n, i, qs, ts, rc) && i < n && rii > 0.0
    requires forall l :: 0 <= l < i ==> rc[i][l] == Dot(qs[l], Col(A, i))
    requires Orthonormal(qs + [q], m) && Spanned(A, m, n, qs + [q], ts + [t])
    requires forall k :: 0 <= k <= i ==> Col(A, k) == Combo(qs + [q], rc[i := rc[i][i := rii]][k], k + 1, m)
    ensures Done(A, m, n, i + 1, qs + [q], ts + [t], rc[i := rc[i][i := rii]])
  {
  }

  /** After all n columns: Q^T Q == I, R is upper triangular with a positive
      diagonal, R[j][k] == q_j . a_k above the diagonal, and A == Q R. */
  lemma Finished(A: Matrix, m: nat, n: nat, qs: seq<Vec>, ts: seq<Vec>, rc: seq<Vec>, Qm: Matrix, Rm: Matrix)
    requires Done(A, m, n, n, qs, ts, rc)
    requires IsMatrix(Qm, m, n) && forall r, j :: 0 <= r < m && 0 <= j < n ==> Qm[r][j] == qs[j][r]
    requires IsSquare(Rm, n) && forall j, k :: 0 <= j < n && 0 <= k < n ==> Rm[j][k] == rc[k][j]
    ensures MatMul(Transpose(Qm, m, n), Qm, n, m, n) == Identity(n)
    ensures forall j, k :: 0 <= k < j < n ==> Rm[j][k] == 0.0
    ensures forall k :: 0 <= k < n ==> Rm[k][k] > 0.0
    ensures forall j, k :: 0 <= j < k < n ==> Rm[j][k] == Dot(Col(Qm, j), Col(A, k))
    ensures MatMul(Qm, Rm, m, n, n) == A
  {
    forall j | 0 <= j < n
      ensures Col(Qm, j) == qs[j]
    {
    }
    OrthonormalGram(Qm, m, n);
    forall j, k | 0 <= k < j < n
      ensures Rm[j][k] == 0.0
    {
      assert rc[k][j] == 0.0;
    }
    forall k | 0 <= k < n
      ensures Rm[k][k] > 0.0
    {
      assert rc[k][k] > 0.0;
    }
    forall r, k | 0 <= r < m && 0 <= k < n
      ensures MatMul(Qm, Rm, m, n, n)[r][k] == A[r][k]
    {
      FinishedEntry(A, m, n, qs, rc, Qm, Rm, r, k);
    }
    MatrixEqual(MatMul(Qm, Rm, m, n, n), A, m, n);
  }

  /** Entry (r, k) of Q R: the terms past the diagonal vanish and the rest
      sum to a_k[r]. */
  lemma FinishedEntry(A: Matrix, m: nat, n: nat, qs: seq<Vec>, rc: seq<Vec>, Qm: Matrix, Rm: Matrix, r: nat, k: nat)
    requires IsMatrix(A, m, n) && |qs| == n && Columns(qs, m) && r < m && k < n
    requires |rc| == n && (forall l :: 0 <= l < n ==> |rc[l]| == n)
    requires forall j :: k < j < n ==> rc[k][j] == 0.0
    requires Col(A, k) == Combo(qs, rc[k], k + 1, m)
    requires IsMatrix(Qm, m, n) && forall r, j :: 0 <= r < m && 0 <= j < n ==> Qm[r][j] == qs[j][r]
    requires IsSquare(Rm, n) && forall j, k :: 0 <= j < n && 0 <= k < n ==> Rm[j][k] == rc[k][j]
    ensures MatMul(Qm, Rm, m, n, n)[r][k] == A[r][k]
  {
    assert Qm[r] == RowOf(qs, r);
    assert Col(Rm, k) == rc[k];
    SumProdZeroTail(RowOf(qs, r), rc[k], k + 1, n);
    assert Combo(qs, rc[k], k + 1, m)[r] == A[r][k];
  }

  // ---------------------------------------------------------------------
  // The algorithm on arrays

  /** Column c of a two-dimensional array, the slice a[:, c]. */
  function ColumnOf(a: array2<real>, c: nat): (v: Vec)
    requires c < a.Length1
    reads a
    ensures |v| == a.Length0
    ensures forall r :: 0 <= r < a.Length0 ==> v[r] == a[r, c]
  {
    seq(a.Length0, r requires 0 <= r < a.Length0 reads a => a[r, c])
  }

  /** The first |qs| columns of Q are qs. */
  ghost predicate StoresQ(Q: array2<real>, qs: seq<Vec>)
    reads Q
  {
    |qs| <= Q.Length1 && forall j :: 0 <= j < |qs| ==> ColumnOf(Q, j) == qs[j]
  }

  /** The columns of R are rc. */
  ghost predicate StoresR(R: array2<real>, rc: seq<Vec>)
    reads R
  {
    && R.Length0 == |rc| && R.Length1 == |rc|
    && (forall k :: 0 <= k < |rc| ==> |rc[k]| == |rc|)
    && (forall j, k :: 0 <= j < |rc| && 0 <= k < |rc| ==> R[j, k] == rc[k][j])
  }

  /** Q[:, i] = A[:, i]. */
  method CopyColumn(Q: array2<real>, A: array2<real>, i: nat)
    requires Q != A && Q.Length0 == A.Length0 && i < Q.Length1 && i < A.Length1
    modifies Q
    ensures ColumnOf(Q, i) == ColumnOf(A, i)
    ensures forall c :: 0 <= c < Q.Length1 && c != i ==> ColumnOf(Q, c) == old(ColumnOf(Q, c))
  {
    for r := 0 to Q.Length0
      invariant forall r', c :: 0 <= r' < Q.Length0 && 0 <= c < Q.Length1 ==>
        Q[r', c] == if c == i && r' < r then A[r', c] else old(Q[r', c])
    {
      Q[r, i] := A[r, i];
    }
  }

  /** Q[:, i] -= a * Q[:, j]. */
  method SubtractProjection(Q: array2<real>, i: nat, j: nat, a: real)
    requires i < Q.Length1 && j < Q.Length1 && i != j
    modifies Q
    ensures ColumnOf(Q, i) == LinComb(1.0, old(ColumnOf(Q, i)), -a, old(ColumnOf(Q, j)))
    ensures forall c :: 0 <= c < Q.Length1 && c != i ==> ColumnOf(Q, c) == old(ColumnOf(Q, c))
  {
    ghost var u, v := ColumnOf(Q, i), ColumnOf(Q, j);
    for r := 0 to Q.Length0
      invariant forall r', c :: 0 <= r' < Q.Length0 && 0 <= c < Q.Length1 ==>
        Q[r', c] == if c == i && r' < r then old(Q[r', i]) - a * old(Q[r', j]) else old(Q[r', c])
    {
      Q[r, i] := Q[r, i] - a * Q[r, j];
    }
    forall r | 0 <= r < Q.Length0
      ensures ColumnOf(Q, i)[r] == LinComb(1.0, u, -a, v)[r]
    {
    }
  }

  /** Q[:, i] /= d. */
  method ScaleColumn(Q: array2<real>, i: nat, d: real)
    requires i < Q.Length1 && d != 0.0
    modifies Q
    ensures ColumnOf(Q, i) == LinComb(1.0 / d, old(ColumnOf(Q, i)), 0.0, old(ColumnOf(Q, i)))
    ensures forall c :: 0 <= c < Q.Length1 && c != i ==> ColumnOf(Q, c) == old(ColumnOf(Q, c))
  {
    for r := 0 to Q.Length0
      invariant forall r', c :: 0 <= r' < Q.Length0 && 0 <= c < Q.Length1 ==>
        Q[r', c] == if c == i && r' < r then old(Q[r', i]) / d else old(Q[r', c])
    {
      Q[r, i] := Q[r, i] / d;
    }
    ghost var u := old(ColumnOf(Q, i));
    forall r | 0 <= r < Q.Length0
      ensures ColumnOf(Q, i)[r] == LinComb(1.0 / d, u, 0.0, u)[r]
    {
      DivideAsScale(u[r], d);
    }
  }

  lemma DivideAsScale(x: real, d: real)
    requires d != 0.0
    ensures x / d == 1.0 / d * x + 0.0 * x
  {
  }

  /** Step i of the outer loop: column i of Q is copied from A, the
      projections on the finished columns are subtracted one after the other,
      each coefficient going to R[j, i], and the result is divided by its
      norm R[i, i]. */
  method Orthogonalise(A: array2<real>, Q: array2<real>, R: array2<real>, i: nat, sqrt: real -> real,
                       ghost qs: seq<Vec>, ghost ts: seq<Vec>, ghost rc: seq<Vec>)
      returns (ghost qs': seq<Vec>, ghost ts': seq<Vec>, ghost rc': seq<Vec>)
    requires IsSqrt(sqrt) && IndependentColumns(Rows(A), A.Length0, A.Length1)
    requires Q != A && R != A && Q != R
    requires Q.Length0 == A.Length0 && Q.Length1 == A.Length1 && i < A.Length1
    requires Done(Rows(A), A.Length0, A.Length1, i, qs, ts, rc) && StoresQ(Q, qs) && StoresR(R, rc)
    modifies Q, R
    ensures Done(Rows(A), A.Length0, A.Length1, i + 1, qs', ts', rc') && StoresQ(Q, qs') && StoresR(R, rc')
  {
    var m, n := A.Length0, A.Length1;
    ghost var M := Rows(A);
    CopyColumn(Q, A, i);
    assert ColumnOf(A, i) == Col(M, i);
    ProjectStart(M, m, n, i, qs, ts, rc);
    ghost var w, c, rcs := ProjectAll(M, Q, R, i, qs, ts, rc);
    qs', ts', rc' := NormaliseColumn(M, Q, R, i, sqrt, qs, ts, rcs, w, c);
  }

  /** The end of step i: R[i, i] = norm(Q[:, i]) and Q[:, i] /= R[i, i]. */
  method NormaliseColumn(ghost M: Matrix, Q: array2<real>, R: array2<real>, i: nat, sqrt: real -> real,
                         ghost qs: seq<Vec>, ghost ts: seq<Vec>, ghost rc: seq<Vec>, ghost w: Vec, ghost c: Vec)
      returns (ghost qs': seq<Vec>, ghost ts': seq<Vec>, ghost rc': seq<Vec>)
    requires IsSqrt(sqrt) && IndependentColumns(M, Q.Length0, Q.Length1) && i < Q.Length1 && Q != R
    requires Projected(M, Q.Length0, Q.Length1, i, i, qs, ts, rc, w, c)
    requires StoresQ(Q, qs) && StoresR(R, rc) && ColumnOf(Q, i) == w
    modifies Q, R
    ensures Done(M, Q.Length0, Q.Length1, i + 1, qs', ts', rc') && StoresQ(Q, qs') && StoresR(R, rc')
  {
    var col := ColumnOf(Q, i);
    var rii := sqrt(Dot(col, col));
    DotSelf(col);
    SqrtFacts(sqrt, Dot(col, col), rii);
    Normalise(M, Q.Length0, Q.Length1, i, qs, ts, rc, w, c, rii);
    R[i, i] := rii;
    ScaleColumn(Q, i, rii);
    qs', ts', rc' := qs + [LinComb(1.0 / rii, w, 0.0, w)], ts + [LinComb(1.0 / rii, c, 0.0, c)], rc[i := rc[i][i := rii]];
  }

  /** The inner loop of step i: for j < i, R[j, i] = q_j . Q[:, i] and then
      Q[:, i] -= R[j, i] q_j. */
  method ProjectAll(ghost M: Matrix, Q: array2<real>, R: array2<real>, i: nat,
                    ghost qs: seq<Vec>, ghost ts: seq<Vec>, ghost rc: seq<Vec>)
      returns (ghost w: Vec, ghost c: Vec, ghost rc': seq<Vec>)
    requires IsMatrix(M, Q.Length0, Q.Length1) && i < Q.Length1 && Q != R
    requires Projected(M, Q.Length0, Q.Length1, i, 0, qs, ts, rc, Col(M, i), UnitVec(Q.Length1, i))
    requires StoresQ(Q, qs) && StoresR(R, rc) && ColumnOf(Q, i) == Col(M, i)
    modifies Q, R
    ensures Projected(M, Q.Length0, Q.Length1, i, i, qs, ts, rc', w, c)
    ensures StoresQ(Q, qs) && StoresR(R, rc') && ColumnOf(Q, i) == w
  {
    var m, n := Q.Length0, Q.Length1;
    w, c, rc' := Col(M, i), UnitVec(n, i), rc;
    for j := 0 to i
      invariant Projected(M, m, n, i, j, qs, ts, rc', w, c)
      invariant StoresQ(Q, qs) && StoresR(R, rc') && ColumnOf(Q, i) == w
    {
      w, c, rc' := ProjectOnce(M, Q, R, i, j, qs, ts, rc', w, c);
    }
  }

  /** One pass of the inner loop: R[j, i] = q_j . Q[:, i], then
      Q[:, i] -= R[j, i] q_j. */
  method ProjectOnce(ghost M: Matrix, Q: array2<real>, R: array2<real>, i: nat, j: nat,
                     ghost qs: seq<Vec>, ghost ts: seq<Vec>, ghost rc: seq<Vec>, ghost w: Vec, ghost c: Vec)
      returns (ghost w': Vec, ghost c': Vec, ghost rc': seq<Vec>)
    requires IsMatrix(M, Q.Length0, Q.Length1) && j < i < Q.Length1 && Q != R
    requires Projected(M, Q.Length0, Q.Length1, i, j, qs, ts, rc, w, c)
    requires StoresQ(Q, qs) && StoresR(R, rc) && ColumnOf(Q, i) == w
    modifies Q, R
    ensures Projected(M, Q.Length0, Q.Length1, i, j + 1, qs, ts, rc', w', c')
    ensures StoresQ(Q, qs) && StoresR(R, rc') && ColumnOf(Q, i) == w'
  {
    var rji := Dot(ColumnOf(Q, j), ColumnOf(Q, i));
    ProjectStep(M, Q.Length0, Q.Length1, i, j, qs, ts, rc, w, c, rji);
    R[j, i] := rji;
    SubtractProjection(Q, i, j, rji);
    rc' := rc[i := rc[i][j := rji]];
    w', c' := LinComb(1.0, w, -rji, qs[j]), LinComb(1.0, c, -rji, ts[j]);
  }

  lemma SqrtFacts(sqrt: real -> real, x: real, y: real)
    requires IsSqrt(sqrt) && x >= 0.0 && y == sqrt(x)
    ensures y >= 0.0 && y * y == x
  {
  }

  /** Once every column is done, the arrays hold the promised factors. */
  lemma StoredResult(A: array2<real>, Q: array2<real>, R: array2<real>, qs: seq<Vec>, ts: seq<Vec>, rc: seq<Vec>)
    requires Q.Length0 == A.Length0 && Q.Length1 == A.Length1 && R.Length0 == A.Length1 && R.Length1 == A.Length1
    requires Done(Rows(A), A.Length0, A.Length1, A.Length1, qs, ts, rc) && StoresQ(Q, qs) && StoresR(R, rc)
    ensures MatMul(Transpose(Rows(Q), A.Length0, A.Length1), Rows(Q), A.Length1, A.Length0, A.Length1) == Identity(A.Length1)
    ensures forall j, k :: 0 <= k < j < A.Length1 ==> R[j, k] == 0.0
    ensures forall k :: 0 <= k < A.Length1 ==> R[k, k] > 0.0
    ensures forall j, k :: 0 <= j < k < A.Length1 ==> R[j, k] == Dot(Col(Rows(Q), j), Col(Rows(A), k))
    ensures MatMul(Rows(Q), Rows(R), A.Length0, A.Length1, A.Length1) == Rows(A)
  {
    forall r, j | 0 <= r < Q.Length0 && 0 <= j < Q.Length1
      ensures Rows(Q)[r][j] == qs[j][r]
    {
      assert ColumnOf(Q, j)[r] == Q[r, j];
    }
    Finished(Rows(A), A.Length0, A.Length1, qs, ts, rc, Rows(Q), Rows(R));
  }

  /** modified_gram_schmidt: Q (m-by-n) and R (n-by-n) start as zero arrays
      and are filled column by column. For linearly independent columns the
      result has orthonormal columns (Q^T Q == I), R is upper triangular with
      a positive diagonal, each coefficient above the diagonal is q_j . a_k,
      and A == Q R. A itself is not modified. */
  method ModifiedGramSchmidt(A: array2<real>, sqrt: real -> real) returns (Q: array2<real>, R: array2<real>)
    requires IsSqrt(sqrt)
    requires IndependentColumns(Rows(A), A.Length0, A.Length1)
    ensures fresh(Q) && fresh(R)
    ensures Q.Length0 == A.Length0 && Q.Length1 == A.Length1 && R.Length0 == A.Length1 && R.Length1 == A.Length1
    ensures MatMul(Transpose(Rows(Q), A.Length0, A.Length1), Rows(Q), A.Length1, A.Length0, A.Length1) == Identity(A.Length1)
    ensures forall j, k :: 0 <= k < j < A.Length1 ==> R[j, k] == 0.0
    ensures forall k :: 0 <= k < A.Length1 ==> R[k, k] > 0.0
    ensures forall j, k :: 0 <= j < k < A.Length1 ==> R[j, k] == Dot(Col(Rows(Q), j), Col(Rows(A), k))
    ensures MatMul(Rows(Q), Rows(R), A.Length0, A.Length1, A.Length1) == Rows(A)
  {
    var m, n := A.Length0, A.Length1;
    Q := ZeroArray(m, n);
    R := ZeroArray(n, n);
    ghost var qs, ts, rc := Fill(A, Q, R, sqrt);
    StoredResult(A, Q, R, qs, ts, rc);
  }

  /** A fresh rows-by-cols array of zeros, as np.zeros allocates it. */
  method ZeroArray(rows: nat, cols: nat) returns (a: array2<real>)
    ensures fresh(a) && a.Length0 == rows && a.Length1 == cols
    ensures forall r, c :: 0 <= r < rows && 0 <= c < cols ==> a[r, c] == 0.0
  {
    a := new real[rows, cols]((r, c) => 0.0);
  }

  /** The outer loop of modified_gram_schmidt over zero arrays Q and R:
      step i finishes column i of Q and of R. */
  method Fill(A: array2<real>, Q: array2<real>, R: array2<real>, sqrt: real -> real)
      returns (ghost qs: seq<Vec>, ghost ts: seq<Vec>, ghost rc: seq<Vec>)
    requires IsSqrt(sqrt) && IndependentColumns(Rows(A), A.Length0, A.Length1)
    requires Q != A && R != A && Q != R
    requires Q.Length0 == A.Length0 && Q.Length1 == A.Length1 && R.Length0 == A.Length1 && R.Length1 == A.Length1
    requires forall j, k :: 0 <= j < R.Length0 && 0 <= k < R.Length1 ==> R[j, k] == 0.0
    modifies Q, R
    ensures Done(Rows(A), A.Length0, A.Length1, A.Length1, qs, ts, rc) && StoresQ(Q, qs) && StoresR(R, rc)
  {
    var m, n := A.Length0, A.Length1;
    qs, ts, rc := [], [], seq(n, k => Zeros(n));
    DoneInit(Rows(A), m, n);
    for i := 0 to n
      invariant Done(Rows(A), m, n, i, qs, ts, rc) && StoresQ(Q, qs) && StoresR(R, rc)
    {
      qs, ts, rc := Orthogonalise(A, Q, R, i, sqrt, qs, ts, rc);
    }
  }
}
