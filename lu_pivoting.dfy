/** LU factorisation with partial pivoting, P A = L U
    (lista_de_exercicio_4_questao_2.py). The elimination is first given as a
    sequence of steps on values, whose invariant yields the factorisation;
    the routine itself updates arrays in place and is proved to follow those
    steps exactly. */
module LuPivoting {
  import opened Vectors
  import opened Matrices
  import opened Outcomes
  import opened PermutationSign

  /** The working matrices after some steps: L, U, the row order perm that
      stands for P (row r of P is e_perm[r]), and the number of interchanges. */
  datatype LuState = LuState(L: Matrix, U: Matrix, perm: seq<nat>, swaps: nat)

  /** Either still running with a state, or stopped at a zero pivot in column `step`. */
  datatype LuOutcome = Running(state: LuState) | Singular(step: nat)

  /** L and U are n-by-n and perm has n entries. */
  predicate Shaped(s: LuState, n: nat)
  {
    IsSquare(s.L, n) && IsSquare(s.U, n) && |s.perm| == n
  }

  /** The index that row r moves to when rows i and j are swapped. */
  function Swapped(r: nat, i: nat, j: nat): nat
  {
    if r == i then j else if r == j then i else r
  }

  /** perm with its entries i and j exchanged. */
  function SwapSeq(perm: seq<nat>, i: nat, j: nat): (q: seq<nat>)
    requires i < |perm| && j < |perm|
    ensures |q| == |perm|
    ensures forall r :: 0 <= r < |q| ==> q[r] == perm[Swapped(r, i, j)]
  {
    perm[i := perm[j]][j := perm[i]]
  }

  /** M with rows i and j exchanged in the columns below `cols`. */
  function SwapRows(M: Matrix, i: nat, j: nat, cols: nat): (M': Matrix)
    requires IsSquare(M, |M|) && i < |M| && j < |M|
    ensures IsSquare(M', |M|)
    ensures forall r, c :: 0 <= r < |M| && 0 <= c < |M| ==>
              M'[r][c] == if c < cols then M[Swapped(r, i, j)][c] else M[r][c]
  {
    var c := if cols <= |M| then cols else |M|;
    M[i := M[j][..c] + M[i][c..]][j := M[i][..c] + M[j][c..]]
  }

  /** The identity order 0, 1, ..., n-1. */
  function Range(n: nat): (perm: seq<nat>)
    ensures IsPermutation(perm, n)
    ensures forall r :: 0 <= r < n ==> perm[r] == r
  {
    var perm := seq(n, r => r);
    forall i | 0 <= i < n
      ensures i in perm
    {
      assert perm[i] == i;
    }
    perm
  }

  /** Before the first step: U is a copy of A, L and P are the identity. */
  function Init(A: Matrix): (s: LuState)
    requires IsSquare(A, |A|)
    ensures Shaped(s, |A|)
  {
    LuState(Identity(|A|), A, Range(|A|), 0)
  }

  /** The scan behind the pivot search: best is the row in [i, k) chosen so
      far; the rows from k on are still to be compared, and a row replaces
      best only when its magnitude is strictly larger. */
  function PivotFrom(M: Matrix, i: nat, k: nat, best: nat): (p: nat)
    requires IsSquare(M, |M|) && i <= best < k <= |M|
    ensures best <= p < |M|
    decreases |M| - k
  {
    if k == |M| then best
    else if Abs(M[k][i]) > Abs(M[best][i]) then PivotFrom(M, i, k + 1, k)
    else PivotFrom(M, i, k + 1, best)
  }

  /** The pivot row of column i, scanning from row i down. */
  function Pivot(M: Matrix, i: nat): (p: nat)
    requires IsSquare(M, |M|) && i < |M|
    ensures i <= p < |M|
  {
    PivotFrom(M, i, i + 1, i)
  }

  /** If best is the first row of [i, k) with the largest magnitude in column
      i, the scan ends at the first row of [i, n) with the largest magnitude. */
  lemma {:induction false} PivotFromMaximal(M: Matrix, i: nat, k: nat, best: nat)
    requires IsSquare(M, |M|) && i <= best < k <= |M|
    requires forall j :: i <= j < k ==> Abs(M[j][i]) <= Abs(M[best][i])
    requires forall j :: i <= j < best ==> Abs(M[j][i]) < Abs(M[best][i])
    ensures var p := PivotFrom(M, i, k, best);
      && (forall j :: i <= j < |M| ==> Abs(M[j][i]) <= Abs(M[p][i]))
      && (forall j :: i <= j < p ==> Abs(M[j][i]) < Abs(M[p][i]))
    decreases |M| - k
  {
    if k < |M| {
      if Abs(M[k][i]) > Abs(M[best][i]) {
        PivotFromMaximal(M, i, k + 1, k);
      } else {
        PivotFromMaximal(M, i, k + 1, best);
      }
    }
  }

  /** The pivot has the largest magnitude in column i from row i down, and
      is the first row that does. */
  lemma PivotMaximal(M: Matrix, i: nat)
    requires IsSquare(M, |M|) && i < |M|
    ensures var p := Pivot(M, i);
      && (forall j :: i <= j < |M| ==> Abs(M[j][i]) <= Abs(M[p][i]))
      && (forall j :: i <= j < p ==> Abs(M[j][i]) < Abs(M[p][i]))
  {
    PivotFromMaximal(M, i, i + 1, i);
  }

  /** Rows i and p exchanged in U, in P and in the columns of L left of i,
      with one more interchange. */
  function Interchange(s: LuState, i: nat, p: nat): (t: LuState)
    requires Shaped(s, |s.U|) && i < |s.U| && p < |s.U|
    ensures Shaped(t, |s.U|)
  {
    LuState(SwapRows(s.L, i, p, i), SwapRows(s.U, i, p, |s.U|), SwapSeq(s.perm, i, p), s.swaps + 1)
  }

  /** The multiplier that clears U[r][i] with the pivot row i. */
  function Multiplier(U: Matrix, r: nat, i: nat): real
    requires IsSquare(U, |U|) && r < |U| && i < |U| && U[i][i] != 0.0
  {
    U[r][i] / U[i][i]
  }

  /** x less m times y: an entry of row r after subtracting m times the
      entry of the pivot row in the same column. */
  function Reduce(x: real, m: real, y: real): real
  {
    x - m * y
  }

  /** One elimination step below the pivot U[i][i]: every row r > i loses
      Multiplier(r) times row i in the columns right of i, its entry in column
      i becomes 0, and the multiplier is stored in L[r][i]. */
  function Eliminate(s: LuState, i: nat): (t: LuState)
    requires Shaped(s, |s.U|) && i < |s.U| && s.U[i][i] != 0.0
    ensures Shaped(t, |s.U|) && t.perm == s.perm && t.swaps == s.swaps
  {
    var n := |s.U|;
    var U := seq(n, r requires 0 <= r < n => seq(n, c requires 0 <= c < n =>
               if r > i && c > i then Reduce(s.U[r][c], Multiplier(s.U, r, i), s.U[i][c])
               else if r > i && c == i then 0.0
               else s.U[r][c]));
    var L := seq(n, r requires 0 <= r < n => seq(n, c requires 0 <= c < n =>
               if r > i && c == i then Multiplier(s.U, r, i) else s.L[r][c]));
    LuState(L, U, s.perm, s.swaps)
  }

  /** The entries after elimination below U[i][i]. */
  lemma EliminateEntries(s: LuState, i: nat)
    requires Shaped(s, |s.U|) && i < |s.U| && s.U[i][i] != 0.0
    ensures var t := Eliminate(s, i);
      forall r, c :: 0 <= r < |s.U| && 0 <= c < |s.U| ==>
        && t.U[r][c] == (if r > i && c > i then Reduce(s.U[r][c], Multiplier(s.U, r, i), s.U[i][c])
                         else if r > i && c == i then 0.0
                         else s.U[r][c])
        && t.L[r][c] == if r > i && c == i then Multiplier(s.U, r, i) else s.L[r][c]
  {
  }

  /** One entry after elimination below U[i][i]. */
  lemma EliminateEntry(s: LuState, i: nat, r: nat, c: nat)
    requires Shaped(s, |s.U|) && i < |s.U| && s.U[i][i] != 0.0 && r < |s.U| && c < |s.U|
    ensures var t := Eliminate(s, i);
      && t.U[r][c] == (if r > i && c > i then Reduce(s.U[r][c], Multiplier(s.U, r, i), s.U[i][c])
                       else if r > i && c == i then 0.0
                       else s.U[r][c])
      && t.L[r][c] == if r > i && c == i then Multiplier(s.U, r, i) else s.L[r][c]
  {
  }

  /** Iteration i of the loop: choose the pivot, interchange if it is not
      row i already, stop if the pivot is exactly zero, otherwise eliminate. */
  function Step(s: LuState, i: nat): (o: LuOutcome)
    requires Shaped(s, |s.U|) && i < |s.U|
    ensures o.Running? ==> Shaped(o.state, |s.U|)
  {
    var p := Pivot(s.U, i);
    var t := if p == i then s else Interchange(s, i, p);
    if t.U[i][i] == 0.0 then Singular(i) else Running(Eliminate(t, i))
  }

  /** The outcome after the iterations 0 .. k-1. */
  function Steps(A: Matrix, k: nat): (o: LuOutcome)
    requires IsSquare(A, |A|) && (k == 0 || k < |A|)
    ensures o.Running? ==> Shaped(o.state, |A|)
    ensures o.Singular? ==> o.step < k
  {
    if k == 0 then Running(Init(A))
    else match Steps(A, k - 1)
      case Singular(j) => Singular(j)
      case Running(s) => Step(s, k - 1)
  }

  /** The number of iterations: n - 1 for n >= 1, none for the empty matrix. */
  function Iterations(n: nat): nat
  {
    if n == 0 then 0 else n - 1
  }

  /** The whole factorisation of A: the n - 1 iterations. A stop is reported
      at one of the columns 0 .. n-2. */
  function Lu(A: Matrix): (o: LuOutcome)
    requires IsSquare(A, |A|)
    ensures o.Running? ==> Shaped(o.state, |A|)
    ensures o.Singular? ==> o.step + 1 < |A|
  {
    Steps(A, Iterations(|A|))
  }

  /** L has ones on its diagonal and zeros above it. */
  predicate UnitLower(L: Matrix)
    requires IsSquare(L, |L|)
  {
    forall r, c :: 0 <= r < |L| && 0 <= c < |L| ==>
      (r == c ==> L[r][c] == 1.0) && (r < c ==> L[r][c] == 0.0)
  }

  /** U has zeros below its diagonal. */
  predicate UpperTriangular(U: Matrix)
    requires IsSquare(U, |U|)
  {
    forall r, c :: 0 <= r < |U| && 0 <= c < r ==> U[r][c] == 0.0
  }

  /** Column k of U is zero from row k down: no usable pivot. */
  predicate ZeroBelow(U: Matrix, k: nat)
    requires IsSquare(U, |U|) && k < |U|
  {
    forall j :: k <= j < |U| ==> U[j][k] == 0.0
  }

  /** L is unit lower triangular and still the identity from column i on. */
  predicate LowerPart(L: Matrix, i: nat)
    requires IsSquare(L, |L|)
  {
    && UnitLower(L)
    && forall r, c :: 0 <= r < |L| && i <= c < |L| ==> L[r][c] == if r == c then 1.0 else 0.0
  }

  /** U is zero below the diagonal in its first i columns. */
  predicate UpperPart(U: Matrix, i: nat)
    requires IsSquare(U, |U|)
  {
    forall r, c :: 0 <= r < |U| && 0 <= c < i && c < r ==> U[r][c] == 0.0
  }

  /** Row perm[r] of A is row r of L U, of whose terms the first i are final:
      L is the identity from column i on, so the rest is U[r][c] itself. */
  predicate Reconstructs(A: Matrix, s: LuState, i: nat)
    requires IsSquare(A, |A|) && Shaped(s, |A|) && IsPermutation(s.perm, |A|) && i <= |A|
  {
    forall r, c :: 0 <= r < |A| && 0 <= c < |A| ==> ReconstructsEntry(A, s, i, r, c)
  }

  /** Entry (perm[r], c) of A is entry (r, c) of L U, of which the first i terms are final. */
  predicate ReconstructsEntry(A: Matrix, s: LuState, i: nat, r: nat, c: nat)
    requires IsSquare(A, |A|) && Shaped(s, |A|) && i <= |A|
    requires r < |A| && c < |A| && s.perm[r] < |A|
  {
    A[s.perm[r]][c] == SumProd(s.L[r], Col(s.U, c), i) + (if r >= i then s.U[r][c] else 0.0)
  }

  /** What holds after i iterations on A. */
  predicate Inv(A: Matrix, s: LuState, i: nat)
  {
    && IsSquare(A, |A|) && Shaped(s, |A|) && i <= |A|
    && IsPermutation(s.perm, |A|)
    && LowerPart(s.L, i)
    && UpperPart(s.U, i)
    && Reconstructs(A, s, i)
  }

  lemma InvInit(A: Matrix)
    requires IsSquare(A, |A|)
    ensures Inv(A, Init(A), 0)
  {
  }

  /** Exchanging two entries of a permutation gives a permutation. */
  lemma SwapSeqPermutation(perm: seq<nat>, n: nat, i: nat, j: nat)
    requires IsPermutation(perm, n) && i < n && j < n
    ensures IsPermutation(SwapSeq(perm, i, j), n)
  {
    var q := SwapSeq(perm, i, j);
    forall x | 0 <= x < n
      ensures x in q
    {
      assert x in perm;
      var k :| 0 <= k < n && perm[k] == x;
      assert q[Swapped(k, i, j)] == x;
    }
  }

  lemma LowerInterchange(L: Matrix, i: nat, p: nat)
    requires IsSquare(L, |L|) && i <= p < |L| && LowerPart(L, i)
    ensures LowerPart(SwapRows(L, i, p, i), i)
  {
  }

  lemma UpperInterchange(U: Matrix, i: nat, p: nat)
    requires IsSquare(U, |U|) && i <= p < |U| && UpperPart(U, i)
    ensures UpperPart(SwapRows(U, i, p, |U|), i)
  {
    var U' := SwapRows(U, i, p, |U|);
    forall r, c | 0 <= r < |U| && 0 <= c < i && c < r
      ensures U'[r][c] == 0.0
    {
      assert U'[r][c] == U[Swapped(r, i, p)][c];
    }
  }

  lemma ReconstructsInterchange(A: Matrix, s: LuState, i: nat, p: nat)
    requires IsSquare(A, |A|) && Shaped(s, |A|) && IsPermutation(s.perm, |A|) && i <= p < |A|
    requires Reconstructs(A, s, i)
    requires IsPermutation(Interchange(s, i, p).perm, |A|)
    ensures Reconstructs(A, Interchange(s, i, p), i)
  {
    var t := Interchange(s, i, p);
    forall r, c | 0 <= r < |A| && 0 <= c < |A|
      ensures ReconstructsEntry(A, t, i, r, c)
    {
      InterchangeAt(A, s, i, p, r, c);
    }
  }

  lemma InterchangeAt(A: Matrix, s: LuState, i: nat, p: nat, r: nat, c: nat)
    requires IsSquare(A, |A|) && Shaped(s, |A|) && IsPermutation(s.perm, |A|) && i <= p < |A|
    requires r < |A| && c < |A|
    requires ReconstructsEntry(A, s, i, Swapped(r, i, p), c)
    ensures ReconstructsEntry(A, Interchange(s, i, p), i, r, c)
  {
    var t := Interchange(s, i, p);
    var o := Swapped(r, i, p);
    var u, v, u', v' := t.L[r], Col(t.U, c), s.L[o], Col(s.U, c);
    forall k | 0 <= k < i
      ensures u[k] == u'[k] && v[k] == v'[k]
    {
      assert Swapped(k, i, p) == k;
    }
    SumProdAgree(u, v, u', v', i);
  }

  /** An interchange of row i with a row p at or below it keeps the invariant. */
  lemma InvInterchange(A: Matrix, s: LuState, i: nat, p: nat)
    requires Inv(A, s, i) && i <= p < |A|
    ensures Inv(A, Interchange(s, i, p), i)
  {
    var t := Interchange(s, i, p);
    SwapSeqPermutation(s.perm, |A|, i, p);
    LowerInterchange(s.L, i, p);
    UpperInterchange(s.U, i, p);
    ReconstructsInterchange(A, s, i, p);
  }

  /** The multiplier times the pivot gives back the entry it clears. */
  lemma MultiplierClears(U: Matrix, r: nat, i: nat)
    requires IsSquare(U, |U|) && r < |U| && i < |U| && U[i][i] != 0.0
    ensures Multiplier(U, r, i) * U[i][i] == U[r][i]
  {
  }

  lemma LowerEliminate(s: LuState, i: nat)
    requires Shaped(s, |s.U|) && i < |s.U| && s.U[i][i] != 0.0 && LowerPart(s.L, i)
    ensures LowerPart(Eliminate(s, i).L, i + 1)
  {
    EliminateEntries(s, i);
  }

  lemma UpperEliminate(s: LuState, i: nat)
    requires Shaped(s, |s.U|) && i < |s.U| && s.U[i][i] != 0.0 && UpperPart(s.U, i)
    ensures UpperPart(Eliminate(s, i).U, i + 1)
  {
    EliminateEntries(s, i);
  }

  lemma ReconstructsEliminate(A: Matrix, s: LuState, i: nat)
    requires IsSquare(A, |A|) && Shaped(s, |A|) && IsPermutation(s.perm, |A|) && i < |A|
    requires s.U[i][i] != 0.0 && LowerPart(s.L, i) && UpperPart(s.U, i)
    requires Reconstructs(A, s, i)
    ensures Reconstructs(A, Eliminate(s, i), i + 1)
  {
    var t, k := Eliminate(s, i), i + 1;
    forall r, c | 0 <= r < |A| && 0 <= c < |A|
      ensures ReconstructsEntry(A, t, k, r, c)
    {
      EliminateAt(A, s, i, r, c);
    }
  }

  /** Elimination leaves the first i columns of L and the first i + 1 rows of U alone. */
  lemma EliminateAgree(s: LuState, i: nat, r: nat, c: nat)
    requires Shaped(s, |s.U|) && i < |s.U| && s.U[i][i] != 0.0
    requires r < |s.U| && c < |s.U|
    ensures var t := Eliminate(s, i);
      (forall k :: 0 <= k < i ==> t.L[r][k] == s.L[r][k] && Col(t.U, c)[k] == Col(s.U, c)[k])
      && Col(t.U, c)[i] == s.U[i][c]
  {
    EliminateEntries(s, i);
  }

  lemma EliminateAt(A: Matrix, s: LuState, i: nat, r: nat, c: nat)
    requires IsSquare(A, |A|) && Shaped(s, |A|) && IsPermutation(s.perm, |A|) && i < |A|
    requires s.U[i][i] != 0.0 && LowerPart(s.L, i) && UpperPart(s.U, i)
    requires r < |A| && c < |A|
    requires ReconstructsEntry(A, s, i, r, c)
    ensures ReconstructsEntry(A, Eliminate(s, i), i + 1, r, c)
  {
    var t := Eliminate(s, i);
    EliminateAgree(s, i, r, c);
    var u, v := t.L[r], Col(t.U, c);
    var oldTail := if r >= i then s.U[r][c] else 0.0;
    var newTail := if r >= i + 1 then t.U[r][c] else 0.0;
    EliminateTail(s, i, r, c, u, v, oldTail, newTail);
    PrefixStep(u, v, s.L[r], Col(s.U, c), i, A[s.perm[r]][c], oldTail, newTail);
  }

  /** The term L[r][i] U[i][c] that elimination adds to row r of L U is what
      it takes away from U[r][c]. */
  lemma EliminateTail(s: LuState, i: nat, r: nat, c: nat, u: Vec, v: Vec, oldTail: real, newTail: real)
    requires Shaped(s, |s.U|) && i < |s.U| && s.U[i][i] != 0.0
    requires LowerPart(s.L, i) && UpperPart(s.U, i)
    requires r < |s.U| && c < |s.U|
    requires u == Eliminate(s, i).L[r] && v == Col(Eliminate(s, i).U, c)
    requires oldTail == if r >= i then s.U[r][c] else 0.0
    requires newTail == if r >= i + 1 then Eliminate(s, i).U[r][c] else 0.0
    ensures u[i] * v[i] + newTail == oldTail
  {
    var t := Eliminate(s, i);
    EliminateEntries(s, i);
    var x, y := u[i], v[i];
    assert y == s.U[i][c];
    if r > i {
      var m := Multiplier(s.U, r, i);
      if c > i {
        Cancel(x, y, m, s.U[i][c], newTail, oldTail);
      } else if c == i {
        MultiplierClears(s.U, r, i);
        Cancel(x, y, m, s.U[i][i], newTail, oldTail);
      } else {
        assert s.U[i][c] == 0.0 && s.U[r][c] == 0.0 && t.U[r][c] == 0.0;
        Cancel(x, y, m, s.U[i][c], newTail, oldTail);
      }
    } else if r == i {
      Cancel(x, y, 1.0, s.U[i][c], newTail, oldTail);
    } else {
      Cancel(x, y, 0.0, s.U[i][c], newTail, oldTail);
    }
  }

  /** Extending a prefix sum by one term: if the first i terms agree and the
      new term plus the new remainder is the old remainder, the total is kept. */
  lemma PrefixStep(u: Vec, v: Vec, u': Vec, v': Vec, i: nat, total: real, oldTail: real, newTail: real)
    requires i < |u| && i < |v| && i <= |u'| && i <= |v'|
    requires forall k :: 0 <= k < i ==> u[k] == u'[k] && v[k] == v'[k]
    requires total == SumProd(u', v', i) + oldTail
    requires u[i] * v[i] + newTail == oldTail
    ensures total == SumProd(u, v, i + 1) + newTail
  {
    SumProdAgree(u, v, u', v', i);
    SumProdNext(u, v, i);
  }

  /** x y + b == a when b == a - x' y' and x, y equal x', y'. */
  lemma Cancel(x: real, y: real, x': real, y': real, b: real, a: real)
    requires x == x' && y == y' && b == a - x' * y'
    ensures x * y + b == a
  {
  }

  /** An elimination step with a non-zero pivot advances the invariant by one column. */
  lemma InvEliminate(A: Matrix, s: LuState, i: nat)
    requires Inv(A, s, i) && i < |A| && s.U[i][i] != 0.0
    ensures Inv(A, Eliminate(s, i), i + 1)
  {
    LowerEliminate(s, i);
    UpperEliminate(s, i);
    ReconstructsEliminate(A, s, i);
  }

  /** One iteration that does not stop keeps the invariant. */
  lemma InvStep(A: Matrix, s: LuState, i: nat)
    requires Inv(A, s, i) && i < |A|
    requires Step(s, i).Running?
    ensures Inv(A, Step(s, i).state, i + 1)
  {
    var p := Pivot(s.U, i);
    if p != i {
      InvInterchange(A, s, i, p);
      InvEliminate(A, Interchange(s, i, p), i);
    } else {
      InvEliminate(A, s, i);
    }
  }

  lemma {:induction false} InvSteps(A: Matrix, k: nat)
    requires IsSquare(A, |A|) && (k == 0 || k < |A|)
    requires Steps(A, k).Running?
    ensures Inv(A, Steps(A, k).state, k)
  {
    if k == 0 {
      InvInit(A);
    } else {
      var prev := Steps(A, k - 1);
      assert prev.Running?;
      InvSteps(A, k - 1);
      InvStep(A, prev.state, k - 1);
    }
  }

  /** At most one interchange per iteration. */
  lemma {:induction false} SwapsBound(A: Matrix, k: nat)
    requires IsSquare(A, |A|) && (k == 0 || k < |A|)
    requires Steps(A, k).Running?
    ensures Steps(A, k).state.swaps <= k
  {
    if k > 0 {
      SwapsBound(A, k - 1);
    }
  }

  /** An interchange exchanges two different entries of perm and counts one
      more swap; elimination changes neither. So one iteration keeps the sign
      of P in step with the parity of the number of interchanges. */
  lemma StepParity(s: LuState, i: nat)
    requires Shaped(s, |s.U|) && i < |s.U| && IsPermutation(s.perm, |s.U|)
    requires Sign(s.perm) == Alternating(s.swaps)
    requires Step(s, i).Running?
    ensures Sign(Step(s, i).state.perm) == Alternating(Step(s, i).state.swaps)
  {
    var p := Pivot(s.U, i);
    if p != i {
      assert SwapSeq(s.perm, i, p) == Exchange(s.perm, i, p);
      ExchangeFlips(s.perm, i, p);
    }
  }

  /** The sign of P (its determinant) is +1 after an even number of
      interchanges and -1 after an odd one. */
  lemma {:induction false} SwapsParity(A: Matrix, k: nat)
    requires IsSquare(A, |A|) && (k == 0 || k < |A|)
    requires Steps(A, k).Running?
    ensures Sign(Steps(A, k).state.perm) == Alternating(Steps(A, k).state.swaps)
  {
    if k == 0 {
      IncreasingNoInversions(Range(|A|), 0, |A|);
    } else {
      var prev := Steps(A, k - 1);
      assert prev.Running?;
      SwapsParity(A, k - 1);
      InvSteps(A, k - 1);
      StepParity(prev.state, k - 1);
    }
  }

  /** An iteration stops exactly when column i of U is zero from row i down:
      the pivot has the largest magnitude there, so it is zero only then. */
  lemma StepSingular(s: LuState, i: nat)
    requires Shaped(s, |s.U|) && i < |s.U|
    ensures Step(s, i).Singular? <==> ZeroBelow(s.U, i)
    ensures Step(s, i).Singular? ==> Step(s, i).step == i
  {
    var p := Pivot(s.U, i);
    var t := if p == i then s else Interchange(s, i, p);
    PivotMaximal(s.U, i);
    assert t.U[i][i] == s.U[p][i];
    if t.U[i][i] == 0.0 {
      forall j | i <= j < |s.U|
        ensures s.U[j][i] == 0.0
      {
        assert Abs(s.U[j][i]) <= Abs(s.U[p][i]);
      }
    }
  }

  /** Steps unrolled by one iteration. */
  lemma StepsNext(A: Matrix, k: nat, s: LuState)
    requires IsSquare(A, |A|) && k + 1 < |A| && Steps(A, k) == Running(s)
    ensures Steps(A, k + 1) == Step(s, k)
  {
  }

  /** Step, given the state t after the optional interchange. */
  lemma StepOutcome(s: LuState, i: nat, t: LuState)
    requires Shaped(s, |s.U|) && i < |s.U|
    requires t == if Pivot(s.U, i) == i then s else Interchange(s, i, Pivot(s.U, i))
    ensures Shaped(t, |s.U|)
    ensures t.U[i][i] == 0.0 ==> Step(s, i) == Singular(i)
    ensures t.U[i][i] != 0.0 ==> Step(s, i) == Running(Eliminate(t, i))
  {
  }

  /** Once stopped, the outcome no longer changes. */
  lemma {:induction false} SingularPersists(A: Matrix, j: nat, k: nat)
    requires IsSquare(A, |A|) && j <= k && (k == 0 || k < |A|)
    requires Steps(A, j).Singular?
    ensures Steps(A, k) == Steps(A, j)
    decreases k - j
  {
    if j < k {
      SingularPersists(A, j, k - 1);
    }
  }

  /** A running outcome was running at every earlier iteration. */
  lemma RunningBefore(A: Matrix, j: nat, k: nat)
    requires IsSquare(A, |A|) && j <= k && (k == 0 || k < |A|)
    requires Steps(A, k).Running?
    ensures Steps(A, j).Running?
  {
    if Steps(A, j).Singular? {
      SingularPersists(A, j, k);
    }
  }

  /** A stop right after a running iteration i happened in iteration i, at a zero column. */
  lemma SingularHere(A: Matrix, i: nat, s: LuState)
    requires IsSquare(A, |A|) && i + 1 < |A| && Steps(A, i) == Running(s)
    requires Steps(A, i + 1).Singular?
    ensures Steps(A, i + 1).step == i && ZeroBelow(s.U, i)
  {
    StepsNext(A, i, s);
    StepSingular(s, i);
  }

  /** A stop reported at column j happened in iteration j. */
  lemma {:induction false} SingularOrigin(A: Matrix, k: nat)
    requires IsSquare(A, |A|) && (k == 0 || k < |A|)
    requires Steps(A, k).Singular?
    ensures var j := Steps(A, k).step;
      j < k && Steps(A, j).Running? && ZeroBelow(Steps(A, j).state.U, j)
  {
    var prev := Steps(A, k - 1);
    if prev.Singular? {
      SingularOrigin(A, k - 1);
      assert Steps(A, k) == prev;
    } else {
      SingularHere(A, k - 1, prev.state);
      assert Steps(A, Steps(A, k).step) == prev;
    }
  }

  /** The factorisation stops, reporting a singular matrix, if and only if at
      some iteration k < n - 1 column k of U is zero from row k down, which is
      when the chosen pivot U[k][k] is exactly zero. U[n-1][n-1] is never
      examined. */
  lemma LuSingular(A: Matrix)
    requires IsSquare(A, |A|)
    ensures Lu(A).Singular? <==>
      exists k :: 0 <= k < Iterations(|A|) && Steps(A, k).Running? && ZeroBelow(Steps(A, k).state.U, k)
  {
    if Lu(A).Singular? {
      SingularOrigin(A, Iterations(|A|));
    }
    if exists k :: 0 <= k < Iterations(|A|) && Steps(A, k).Running? && ZeroBelow(Steps(A, k).state.U, k) {
      var k :| 0 <= k < Iterations(|A|) && Steps(A, k).Running? && ZeroBelow(Steps(A, k).state.U, k);
      ZeroColumnStops(A, k);
    }
  }

  /** The last pivot U[n-1][n-1] is never examined: for the singular matrix
      [[0, 0], [1, 1]] the single iteration interchanges the two rows and
      eliminates, and the factorisation succeeds with a zero in U[1][1]. */
  lemma LastPivotUnchecked()
    ensures var A := [[0.0, 0.0], [1.0, 1.0]];
      && IsSquare(A, |A|)
      && Lu(A).Running?
      && Lu(A).state.U[1][1] == 0.0
      && Lu(A).state.swaps == 1
  {
    var A := [[0.0, 0.0], [1.0, 1.0]];
    assert Pivot(A, 0) == 1;
    var t := Interchange(Init(A), 0, 1);
    assert t.U[0][0] == 1.0 && t.U[1][0] == 0.0 && t.U[1][1] == 0.0 && t.U[0][1] == 1.0;
    EliminateEntry(t, 0, 1, 1);
    assert Lu(A) == Step(Init(A), 0);
  }

  /** Reaching a zero column at iteration k stops the whole factorisation. */
  lemma ZeroColumnStops(A: Matrix, k: nat)
    requires IsSquare(A, |A|) && k < Iterations(|A|)
    requires Steps(A, k).Running? && ZeroBelow(Steps(A, k).state.U, k)
    ensures Lu(A).Singular?
  {
    var s := Steps(A, k).state;
    ZeroStops(A, k, s);
    SingularPersists(A, k + 1, Iterations(|A|));
  }

  /** A zero column at a running iteration k stops iteration k. */
  lemma ZeroStops(A: Matrix, k: nat, s: LuState)
    requires IsSquare(A, |A|) && k + 1 < |A| && Steps(A, k) == Running(s)
    requires ZeroBelow(s.U, k)
    ensures Steps(A, k + 1) == Singular(k)
  {
    StepSingular(s, k);
    StepsNext(A, k, s);
  }

  /** The last term of row r of L U when L is the identity in its last column. */
  lemma LastTerm(x: real, y: real, last: bool)
    requires x == if last then 1.0 else 0.0
    ensures x * y == if last then y else 0.0
  {
  }

  /** One entry of P A == L U once every column of L is final. */
  lemma FactorEntry(A: Matrix, s: LuState, r: nat, c: nat)
    requires |A| > 0 && Inv(A, s, |A| - 1) && r < |A| && c < |A|
    ensures Dot(PermMatrix(s.perm)[r], Col(A, c)) == Dot(s.L[r], Col(s.U, c))
  {
    var n := |A|;
    var P := PermMatrix(s.perm);
    assert ReconstructsEntry(A, s, n - 1, r, c);
    SumProdUnit(P[r], Col(A, c), s.perm[r], n);
    var u, v := s.L[r], Col(s.U, c);
    SumProdNext(u, v, n - 1);
    LastTerm(u[n - 1], v[n - 1], r == n - 1);
  }

  /** On success P A == L U with P a permutation matrix, L unit lower
      triangular and U upper triangular, after at most n - 1 interchanges,
      and the sign of P is -1 exactly when the number of interchanges is odd. */
  lemma LuFactorisation(A: Matrix)
    requires IsSquare(A, |A|) && Lu(A).Running?
    ensures var s, n := Lu(A).state, |A|;
      && IsPermutation(s.perm, n)
      && MatMul(PermMatrix(s.perm), A, n, n, n) == MatMul(s.L, s.U, n, n, n)
      && UnitLower(s.L)
      && UpperTriangular(s.U)
      && s.swaps <= Iterations(n)
      && Sign(s.perm) == Alternating(s.swaps)
  {
    var s, n := Lu(A).state, |A|;
    InvSteps(A, Iterations(n));
    SwapsBound(A, Iterations(n));
    SwapsParity(A, Iterations(n));
    var PA, LU := MatMul(PermMatrix(s.perm), A, n, n, n), MatMul(s.L, s.U, n, n, n);
    forall r, c | 0 <= r < n && 0 <= c < n
      ensures PA[r][c] == LU[r][c]
    {
      FactorEntry(A, s, r, c);
    }
    MatrixEqual(PA, LU, n, n);
  }

  /** Exchanging rows i and j of the permutation matrix of perm gives the
      permutation matrix of perm with entries i and j exchanged. */
  lemma SwapPermMatrix(perm: seq<nat>, i: nat, j: nat)
    requires i < |perm| && j < |perm|
    ensures SwapRows(PermMatrix(perm), i, j, |perm|) == PermMatrix(SwapSeq(perm, i, j))
  {
    var n := |perm|;
    MatrixEqual(SwapRows(PermMatrix(perm), i, j, n), PermMatrix(SwapSeq(perm, i, j)), n, n);
  }

  /** The factors the routine returns. */
  datatype Factors = Factors(L: array2<real>, U: array2<real>, P: array2<real>, interchanges: nat)

  /** The pivot search over column i of U from row i down: the first row
      whose entry has the largest magnitude. */
  method FindPivot(U: array2<real>, i: nat, ghost M: Matrix) returns (p: nat)
    requires Holds(U, M) && IsSquare(M, |M|) && i < |M|
    ensures p == Pivot(M, i)
  {
    p := i;
    var k := i + 1;
    while k < U.Length0
      invariant i < k <= U.Length0 && i <= p < k
      invariant PivotFrom(M, i, k, p) == Pivot(M, i)
      decreases U.Length0 - k
    {
      if Abs(U[k, i]) > Abs(U[p, i]) {
        p := k;
      }
      k := k + 1;
    }
  }

  /** Rows i and j of a exchanged in place, in the columns below `cols`. */
  method SwapRowsInPlace(a: array2<real>, i: nat, j: nat, cols: nat, ghost M: Matrix)
    requires Holds(a, M) && IsSquare(M, |M|) && i < |M| && j < |M| && cols <= |M|
    modifies a
    ensures Holds(a, SwapRows(M, i, j, cols))
  {
    assert |M[i]| == a.Length1;
    for c := 0 to cols
      invariant forall r, c' :: 0 <= r < a.Length0 && 0 <= c' < a.Length1 ==>
                  a[r, c'] == if c' < c then M[Swapped(r, i, j)][c'] else M[r][c']
    {
      var x := a[i, c];
      a[i, c] := a[j, c];
      a[j, c] := x;
    }
  }

  /** Elimination below the pivot U[i][i], row by row: the multiplier of row r
      is taken before U[r][i] is cleared, row i is only read. */
  method EliminateInPlace(L: array2<real>, U: array2<real>, i: nat, ghost s: LuState)
    requires L != U
    requires Shaped(s, |s.U|) && i < |s.U| && s.U[i][i] != 0.0
    requires Holds(L, s.L) && Holds(U, s.U)
    modifies L, U
    ensures Holds(L, Eliminate(s, i).L) && Holds(U, Eliminate(s, i).U)
  {
    ghost var e := Eliminate(s, i);
    var n := U.Length0;
    for r := i + 1 to n
      invariant Holds(L, RowsDone(s.L, e.L, i, r)) && Holds(U, RowsDone(s.U, e.U, i, r))
    {
      EliminateRow(L, U, i, r, s);
    }
    MatrixEqual(RowsDone(s.L, e.L, i, n), e.L, n, n);
    MatrixEqual(RowsDone(s.U, e.U, i, n), e.U, n, n);
  }

  /** The rows of after strictly between i and r, the other rows of before. */
  function RowsDone(before: Matrix, after: Matrix, i: nat, r: nat): (M: Matrix)
    requires IsSquare(before, |before|) && IsSquare(after, |before|)
    ensures IsSquare(M, |before|)
    ensures forall r', c :: 0 <= r' < |before| && 0 <= c < |before| ==>
              M[r'][c] == if i < r' < r then after[r'][c] else before[r'][c]
  {
    seq(|before|, r' requires 0 <= r' < |before| => if i < r' < r then after[r'] else before[r'])
  }

  /** Row r > i of the elimination below U[i][i]. */
  method EliminateRow(L: array2<real>, U: array2<real>, i: nat, r: nat, ghost s: LuState)
    requires L != U
    requires Shaped(s, |s.U|) && i < r < |s.U| && s.U[i][i] != 0.0
    requires Holds(L, RowsDone(s.L, Eliminate(s, i).L, i, r))
    requires Holds(U, RowsDone(s.U, Eliminate(s, i).U, i, r))
    modifies L, U
    ensures Holds(L, RowsDone(s.L, Eliminate(s, i).L, i, r + 1))
    ensures Holds(U, RowsDone(s.U, Eliminate(s, i).U, i, r + 1))
  {
    ghost var e := Eliminate(s, i);
    var n := U.Length0;
    var m := U[r, i] / U[i, i];
    assert m == Multiplier(s.U, r, i);
    UpdateRow(U, i, r, m, s);
    EliminateEntry(s, i, r, i);
    U[r, i] := 0.0;
    L[r, i] := m;
    forall r', c' | 0 <= r' < n && 0 <= c' < n
      ensures L[r', c'] == RowsDone(s.L, e.L, i, r + 1)[r'][c']
    {
      EliminateEntry(s, i, r', c');
    }
  }

  /** Row r loses m times row i in the columns right of i. */
  method UpdateRow(U: array2<real>, i: nat, r: nat, m: real, ghost s: LuState)
    requires Shaped(s, |s.U|) && i < r < |s.U| && s.U[i][i] != 0.0
    requires m == Multiplier(s.U, r, i)
    requires Holds(U, RowsDone(s.U, Eliminate(s, i).U, i, r))
    modifies U
    ensures forall r', c' :: 0 <= r' < |s.U| && 0 <= c' < |s.U| ==>
              U[r', c'] == if r' == r && i < c' then Eliminate(s, i).U[r'][c']
                           else RowsDone(s.U, Eliminate(s, i).U, i, r)[r'][c']
  {
    ghost var e := Eliminate(s, i);
    ghost var before := RowsDone(s.U, e.U, i, r);
    var n := U.Length0;
    for c := i + 1 to n
      invariant forall r', c' :: 0 <= r' < n && 0 <= c' < n ==>
                  U[r', c'] == if r' == r && i < c' < c then e.U[r'][c'] else before[r'][c']
    {
      EliminateEntry(s, i, r, c);
      UpdateStep(U[r, c], m, U[i, c], s.U[r][c], Multiplier(s.U, r, i), s.U[i][c], e.U[r][c]);
      U[r, c] := U[r, c] - m * U[i, c];
    }
  }

  /** x - m y == z when each of x, m, y equals its counterpart and z == x' - m' y'. */
  lemma UpdateStep(x: real, m: real, y: real, x': real, m': real, y': real, z: real)
    requires x == x' && m == m' && y == y' && z == Reduce(x', m', y')
    ensures x - m * y == z
  {
  }

  /** The arrays hold the state s: L, U, the permutation matrix of its row
      order, and its number of interchanges. */
  ghost predicate Stored(L: array2<real>, U: array2<real>, P: array2<real>, s: LuState, interchanges: nat)
    reads L, U, P
  {
    Holds(L, s.L) && Holds(U, s.U) && Holds(P, PermMatrix(s.perm)) && interchanges == s.swaps
  }

  /** One pass of the loop body on the arrays: pivot search, interchange,
      zero-pivot check and elimination, following Step. */
  method Iterate(L: array2<real>, U: array2<real>, P: array2<real>, i: nat, interchanges: nat, ghost s: LuState)
    returns (stopped: bool, swaps: nat, ghost next: LuState)
    requires L != U && L != P && U != P
    requires Shaped(s, |s.U|) && i + 1 < |s.U|
    requires Stored(L, U, P, s, interchanges)
    modifies L, U, P
    ensures stopped <==> Step(s, i).Singular?
    ensures !stopped ==> Step(s, i) == Running(next)
    ensures !stopped ==> Stored(L, U, P, next, swaps)
  {
    var n := U.Length0;
    swaps := interchanges;
    var p := FindPivot(U, i, s.U);
    ghost var t := s;
    if p != i {
      SwapRowsInPlace(U, i, p, n, s.U);
      SwapRowsInPlace(P, i, p, n, PermMatrix(s.perm));
      SwapPermMatrix(s.perm, i, p);
      if i > 0 {
        SwapRowsInPlace(L, i, p, i, s.L);
      }
      swaps := swaps + 1;
      t := Interchange(s, i, p);
    }
    StepOutcome(s, i, t);
    if U[i, i] == 0.0 {
      return true, swaps, s;
    }
    EliminateInPlace(L, U, i, t);
    next := Eliminate(t, i);
    stopped := false;
  }

  /** eliminacao_gauss_pivoteamento_parcial. A is only read; U starts as a
      copy of it, L and P as the identity. On success the arrays hold exactly
      the factors of Lu(A), for which LuFactorisation proves P A == L U; the
      routine fails with SingularMatrix exactly when Lu(A) stops. */
  method Factorise(A: array2<real>) returns (r: Result<Factors>)
    requires A.Length0 == A.Length1
    ensures IsSquare(Rows(A), A.Length0)
    ensures r.Success? <==> Lu(Rows(A)).Running?
    ensures r.Failure? ==> r.error == SingularMatrix
    ensures r.Success? ==>
      var s := Lu(Rows(A)).state;
      && fresh(r.value.L) && fresh(r.value.U) && fresh(r.value.P)
      && Holds(r.value.L, s.L) && Holds(r.value.U, s.U) && Holds(r.value.P, PermMatrix(s.perm))
      && r.value.interchanges == s.swaps
  {
    var L, U, P := Start(A);
    var stopped, interchanges;
    ghost var s;
    stopped, interchanges, s := Run(L, U, P, Rows(A));
    if stopped {
      return Failure(SingularMatrix);
    }
    return Success(Factors(L, U, P, interchanges));
  }

  /** The working arrays before the loop: U a copy of A, L and P the identity. */
  method Start(A: array2<real>) returns (L: array2<real>, U: array2<real>, P: array2<real>)
    requires A.Length0 == A.Length1
    ensures fresh(L) && fresh(U) && fresh(P) && L != U && L != P && U != P
    ensures IsSquare(Rows(A), A.Length0)
    ensures Stored(L, U, P, Init(Rows(A)), 0)
  {
    var n := A.Length0;
    U := new real[n, n]((r, c) requires 0 <= r < A.Length0 && 0 <= c < A.Length1 reads A => A[r, c]);
    L := new real[n, n]((r, c) => if r == c then 1.0 else 0.0);
    P := new real[n, n]((r, c) => if r == c then 1.0 else 0.0);
  }

  /** The loop of the routine: Iterate for i = 0 .. n-2, stopping at the
      first zero pivot; it stops exactly when Lu(M) does, and otherwise
      leaves the factors of Lu(M) in the arrays. */
  method Run(L: array2<real>, U: array2<real>, P: array2<real>, ghost M: Matrix)
    returns (stopped: bool, interchanges: nat, ghost s: LuState)
    requires L != U && L != P && U != P && IsSquare(M, |M|)
    requires Stored(L, U, P, Init(M), 0)
    modifies L, U, P
    ensures stopped <==> Lu(M).Singular?
    ensures !stopped ==> Lu(M) == Running(s)
    ensures !stopped ==> Stored(L, U, P, s, interchanges)
  {
    var n := U.Length0;
    interchanges := 0;
    s := Init(M);
    var i := 0;
    while i + 1 < n
      invariant i == 0 || i < n
      invariant Steps(M, i) == Running(s)
      invariant Stored(L, U, P, s, interchanges)
      decreases n - i
    {
      stopped, interchanges, s := Advance(L, U, P, M, i, interchanges, s);
      if stopped {
        return;
      }
      i := i + 1;
    }
    assert i == Iterations(n);
    stopped := false;
  }

  /** Iteration i of the loop, as one more step of Steps; a stop here is the
      outcome of the whole factorisation. */
  method Advance(L: array2<real>, U: array2<real>, P: array2<real>, ghost M: Matrix, i: nat,
                 interchanges: nat, ghost s: LuState)
    returns (stopped: bool, swaps: nat, ghost next: LuState)
    requires L != U && L != P && U != P && IsSquare(M, |M|) && i + 1 < |M|
    requires Steps(M, i) == Running(s) && Stored(L, U, P, s, interchanges)
    modifies L, U, P
    ensures stopped ==> Lu(M).Singular?
    ensures !stopped ==> Steps(M, i + 1) == Running(next) && Stored(L, U, P, next, swaps)
  {
    stopped, swaps, next := Iterate(L, U, P, i, interchanges, s);
    StepsNext(M, i, s);
    if stopped {
      SingularPersists(M, i + 1, Iterations(|M|));
    }
  }
}
