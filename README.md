# Verified model of five linear-algebra routines

This project models, in Dafny, five routines from a collection of numerical
linear-algebra exercises written in Python with NumPy:

- **LU factorisation with partial pivoting** (`eliminacao_gauss_pivoteamento_parcial`).
  It returns L, U, P and the number of row interchanges, or fails on a zero pivot.
  Only the pivots of the first n - 1 columns are examined. The last diagonal
  entry U[n-1][n-1] may be zero on success, so a singular matrix such as
  [[0, 0], [1, 1]] is factored without an error. The model follows the code
  here: `LastPivotUnchecked` proves this outcome for that matrix.
- **QR decomposition by modified Gram-Schmidt** (`modified_gram_schmidt`).
- **Tetrahedron volume from a Gram determinant** (`produto_escalar`,
  `determinante_3x3`, `volume_vetores`).
- **Spectral truncation** (`aproximacao_truncada`). It rebuilds a matrix as
  P D' P^-1, keeping only the m eigenvalues of largest magnitude.
- **The 3-D cross product** (`crossprod`).

Floating-point numbers are modelled as exact reals. The square root is a
parameter `sqrt: real -> real` constrained by `IsSqrt`: it is non-negative and
squares back to its argument on non-negative reals. Library calls that compute
something the model cannot (eigen-decomposition, inverse, argsort) are inputs.
The eigen-decomposition and the inverse are constrained only in shape: n
eigenvalues and n-by-n factors. The argsort is constrained to be a permutation
that sorts the magnitudes. Failures that the Python code raises
as exceptions become `Failure(e)` of a `Result` (`outcomes.dfy`).

Modules:

| file | module | form |
|---|---|---|
| `vectors.dfy` | `Vectors` | the dot product as a left-to-right sum, its algebra, Cauchy-Schwarz |
| `matrices.dfy` | `Matrices` | matrices as row sequences, product, permutation matrices, arrays viewed as matrices |
| `outcomes.dfy` | `Outcomes` | error kinds and `Result` |
| `lu_pivoting.dfy` | `LuPivoting` | the elimination as steps on values, with their invariant; the routine as methods on `array2` proved to follow those steps |
| `mgs_qr.dfy` | `GramSchmidtQr` | the routine as methods on `array2`, with ghost state and step lemmas |
| `gram_volume.dfy` | `GramVolume` | dot-product method, determinant and Gram determinant as functions, the volume as a method |
| `spectral_truncation.dfy` | `SpectralTruncation` | validation and selection as functions; D' built in an array |
| `cross_product.dfy` | `CrossProduct` | a function |

## Model

| member | source | states |
|---|---|---|
| Vectors.DotSymmetric | alc_p2q5_taua.py:13-16 | the sum of v1[i]*v2[i] does not depend on the order of the operands |
| Vectors.DotSelf | alc_p2q5_taua.py:13-16 | a vector's squared length is >= 0, and it is 0 exactly when every entry is 0 |
| Matrices.MatMulAssociative | alc_p2q6_taua.py:83 | (X Y) Z == X (Y Z), so the order in which `P @ D_prime @ P_inv` groups its products does not matter |
| Matrices.MatMulIdentityRight | alc_p2q6_taua.py:83 | M I == M |
| Matrices.SwapSums | alc_p2q6_taua.py:83 | (x M) . v == x . (M v) |
| Vectors.CauchySchwarz | alc_p2q5_taua.py:66-79 | (u.v)^2 <= (u.u)(v.v); this is the two-vector case of the Gram determinant being non-negative |
| GramVolume.DotProduct | alc_p2q5_taua.py:5-16 | unequal lengths fail with DimensionMismatch; otherwise the loop returns the sum of products Dot(v1, v2) |
| GramVolume.Det3 | alc_p2q5_taua.py:18-35 | the determinant of a 3x3 matrix by cofactor expansion along the first row; its meaning is given by Det3Sarrus and Det3DependentRows |
| GramVolume.Det3Sarrus | alc_p2q5_taua.py:18-35 | the cofactor expansion a(ei-fh) - b(di-fg) + c(dh-eg) equals the six-term Sarrus rule |
| GramVolume.Det3DependentRows | alc_p2q5_taua.py:18-35 | a 3x3 matrix whose third row is the sum of the other two has determinant 0 |
| GramVolume.Gram | alc_p2q5_taua.py:66-70 | the Gram matrix of three vectors of one length is 3x3, with entry (i, j) the dot product v_i . v_j |
| GramVolume.GramDet | alc_p2q5_taua.py:66-73 | the determinant of the Gram matrix; GramDetNonNegative, OrthonormalVolume and GramDetDependent state its values |
| GramVolume.GramSymmetric | alc_p2q5_taua.py:66-70 | G[i][j] == G[j][i] for the Gram matrix G[i][j] = v_i . v_j |
| GramVolume.GramDetNonNegative | alc_p2q5_taua.py:73-79 | the Gram determinant is never negative, so the clamp to 0 never fires in exact arithmetic |
| GramVolume.SymmetricDetNonNegative | alc_p2q5_taua.py:73-79 | the non-negativity step when v1 is non-zero: Schur complement plus Cauchy-Schwarz |
| GramVolume.ProjectionDot | alc_p2q5_taua.py:73-79 | removing the v1 component (scaled by v1 . v1) from x and y turns their dot product into (v1 . v1) times the Schur-complement entry of the Gram matrix |
| GramVolume.SchurStep | alc_p2q5_taua.py:73-79 | a > 0 and a non-negative 2x2 Schur complement give a non-negative symmetric 3x3 determinant |
| GramVolume.SchurIdentity | alc_p2q5_taua.py:73 | a * det equals the determinant of the 2x2 Schur complement of the pivot a |
| GramVolume.GramDetStandardBasis | alc_p2q5_taua.py:89-98 | the unit vectors of 3-space have Gram determinant 1, so the volume is 1/6 |
| GramVolume.GramDetDependent | alc_p2q5_taua.py:128-138 | if v3 = v1 + v2 the Gram determinant is 0, so the volume is 0 |
| GramVolume.GramDetDependentExample | alc_p2q5_taua.py:128-135 | the example vectors (1,2,3), (4,5,6), (5,7,9) give Gram determinant 0 |
| GramVolume.TetrahedronVolume | alc_p2q5_taua.py:37-85 | a count other than three vectors fails, as do vectors of unequal length; otherwise the result is sqrt(det G)/6, which is >= 0 and satisfies 36 V^2 == det G |
| GramVolume.OrthonormalVolume | alc_p2q5_taua.py:66-98 | any three orthonormal vectors, of any dimension, have Gram determinant 1 and volume sqrt(1)/6 == 1/6 |
| GramVolume.DependentVolume | alc_p2q5_taua.py:66-85 | for all v1, v2 of one length, the vectors v1, v2, v1 + v2 have volume sqrt(det G)/6 == 0 |
| CrossProduct.Cross | lista_de_exercicio_3_questao_2.py:3-22 | succeeds exactly when both vectors have length 3; the result has length 3 and is orthogonal to both operands |
| CrossProduct.CrossAnticommutative | lista_de_exercicio_3_questao_2.py:16-30 | v x u == -(u x v) |
| CrossProduct.CrossSelfZero | lista_de_exercicio_3_questao_2.py:16-20 | u x u is the zero vector |
| CrossProduct.CrossExample | lista_de_exercicio_3_questao_2.py:25-30 | (1,2,3) x (4,5,6) == (-3,6,-3), and the reversed order gives (3,-6,3) |
| SpectralTruncation.Negligible | alc_p2q6_taua.py:48 | an imaginary part counts as zero when \|im\| <= 1e-8, NumPy's default closeness to 0 |
| SpectralTruncation.RealSpectrum | alc_p2q6_taua.py:48 | every eigenvalue's imaginary part is negligible; the routine fails unless this holds |
| SpectralTruncation.IsArgsort | alc_p2q6_taua.py:57-61 | the order is a permutation of the indices along which the magnitudes \|re\| do not decrease |
| SpectralTruncation.Kept | alc_p2q6_taua.py:61 | the slice `[-m:]` keeps the last m indices of the order for m >= 1, and every index for m == 0 because `-0` is `0` |
| SpectralTruncation.Truncated | alc_p2q6_taua.py:66-69 | D' has the length of the eigenvalue vector; position i holds re[i] if i is kept, else 0 |
| SpectralTruncation.Reconstruct | alc_p2q6_taua.py:72-83 | P diag(d) P^-1 is an n-by-n matrix |
| SpectralTruncation.EigenvectorsKept | alc_p2q6_taua.py:72-83 | if P^-1 P == I then A' P == P D': column c of P is an eigenvector of A' with eigenvalue d[c], so kept eigenpairs survive and dropped ones go to 0 |
| SpectralTruncation.ScaledColumns | alc_p2q6_taua.py:72-83 | P diag(d) multiplies column c of P by d[c] |
| SpectralTruncation.TruncatedSpectrum | alc_p2q6_taua.py:66-69 | the zero array with kept positions overwritten is exactly Truncated(re, kept) |
| SpectralTruncation.TruncatedApproximation | alc_p2q6_taua.py:26-86 | checks in order: not square fails with NotSquare; m outside 0 <= m < n fails with InvalidRank; any non-negligible imaginary part fails with ComplexSpectrum; otherwise returns P D' P^-1 for the kept eigenvalues. With m == 0 and A == P D P^-1 the result is A |
| SpectralTruncation.TruncateNothing | alc_p2q6_taua.py:61 | with m == 0 every eigenvalue is kept, so D' == D |
| SpectralTruncation.DistinctCard | alc_p2q6_taua.py:61 | an argsort slice has no repeated index, so it names as many positions as it has entries |
| SpectralTruncation.KeptCount | alc_p2q6_taua.py:61-69 | exactly m eigenvalues are kept for 1 <= m < n, and all n for m == 0 |
| SpectralTruncation.KeptDominates | alc_p2q6_taua.py:57-61 | every kept eigenvalue is at least as large in magnitude as every dropped one |
| LuPivoting.Init | lista_de_exercicio_4_questao_2.py:17-21 | the initial state is n-by-n: U = A, L = I, the identity row order for P, no interchanges |
| LuPivoting.PivotFrom | lista_de_exercicio_4_questao_2.py:24 | the scan's result lies between its current choice and the last row |
| LuPivoting.Pivot | lista_de_exercicio_4_questao_2.py:24 | the pivot row lies between row i and the last row; PivotMaximal states that it has the largest magnitude |
| LuPivoting.PivotFromMaximal | lista_de_exercicio_4_questao_2.py:24 | the scan, which replaces its choice only on a strictly larger magnitude, ends at the first row with the largest magnitude among the rows it compares |
| LuPivoting.PivotMaximal | lista_de_exercicio_4_questao_2.py:24 | the pivot row is at or below i; no row from i down has a larger \|U[r][i]\|; no earlier row has an equal one (ties go to the first row) |
| LuPivoting.Interchange | lista_de_exercicio_4_questao_2.py:26-34 | swapping rows i and p of U and P, and of L left of column i, with one more interchange, keeps every factor n-by-n |
| LuPivoting.Eliminate | lista_de_exercicio_4_questao_2.py:39-43 | elimination keeps the shapes, the row order and the interchange count; EliminateEntries gives its entries |
| LuPivoting.EliminateEntries | lista_de_exercicio_4_questao_2.py:39-43 | below the pivot, column i of U becomes 0 and L[r][i] the multiplier U[r][i]/U[i][i]; right of i, row r loses the multiplier times row i; other entries are unchanged |
| LuPivoting.Step | lista_de_exercicio_4_questao_2.py:24-43 | a running iteration keeps every factor n-by-n; StepSingular says when it stops |
| LuPivoting.Iterations | lista_de_exercicio_4_questao_2.py:23 | `range(n - 1)`: n - 1 iterations, and none for the empty matrix |
| LuPivoting.Lu | lista_de_exercicio_4_questao_2.py:17-23 | the state after all iterations is n-by-n; a stop is reported at a column below n - 1 |
| LuPivoting.Steps | lista_de_exercicio_4_questao_2.py:23 | after k iterations the state keeps its shape, and a stop happened at an iteration before k |
| LuPivoting.SwapSeqPermutation | lista_de_exercicio_4_questao_2.py:30 | exchanging two rows of P keeps it a permutation |
| LuPivoting.SwapPermMatrix | lista_de_exercicio_4_questao_2.py:30 | swapping rows of the permutation matrix equals the matrix of the swapped row order |
| LuPivoting.InvInit | lista_de_exercicio_4_questao_2.py:17-21 | U = A, L = I, P = I satisfies the loop invariant |
| LuPivoting.InvInterchange | lista_de_exercicio_4_questao_2.py:26-34 | swapping rows of U and P, and of L left of column i, keeps P A = L U on the finished part together with the triangular shapes |
| LuPivoting.InvEliminate | lista_de_exercicio_4_questao_2.py:39-43 | elimination with a non-zero pivot extends the invariant by one column |
| LuPivoting.InvStep | lista_de_exercicio_4_questao_2.py:23-43 | a whole iteration preserves the invariant |
| LuPivoting.InvSteps | lista_de_exercicio_4_questao_2.py:23-43 | the invariant holds after every number of iterations that did not stop |
| LuPivoting.SwapsBound | lista_de_exercicio_4_questao_2.py:21-34 | after k iterations there were at most k interchanges |
| LuPivoting.StepParity | lista_de_exercicio_4_questao_2.py:26-43 | an interchange flips the sign of the row order and adds one interchange; elimination changes neither |
| LuPivoting.SwapsParity | lista_de_exercicio_4_questao_2.py:21-43 | after k iterations the sign of P is +1 for an even number of interchanges and -1 for an odd one |
| PermutationSign.ExchangeFlips | lista_de_exercicio_4_questao_2.py:30 | exchanging two different entries of a row order without repeats flips its sign (the parity of its inversions) |
| PermutationSign.IncreasingNoInversions | lista_de_exercicio_4_questao_2.py:20 | the identity order of P = I has no inversions, so its sign is +1 |
| LuPivoting.StepSingular | lista_de_exercicio_4_questao_2.py:24-37 | an iteration stops exactly when column i is zero from row i down; the stop is reported at that column |
| LuPivoting.SingularOrigin | lista_de_exercicio_4_questao_2.py:23-37 | a stop comes from an earlier iteration that was still running and met a zero column |
| LuPivoting.LuSingular | lista_de_exercicio_4_questao_2.py:23-37 | the routine fails exactly when, at some iteration i < n-1, column i of U is zero from row i down |
| LuPivoting.LuFactorisation | lista_de_exercicio_4_questao_2.py:17-45 | on success P is a permutation matrix, P A == L U, L is unit lower triangular, U is upper triangular, there are at most n-1 interchanges, and the sign of P is -1 exactly when the number of interchanges is odd |
| LuPivoting.LastPivotUnchecked | lista_de_exercicio_4_questao_2.py:23-37 | for the singular matrix [[0, 0], [1, 1]] the routine succeeds after one interchange with U[1][1] == 0: the last pivot is never examined |
| LuPivoting.FindPivot | lista_de_exercicio_4_questao_2.py:24 | the array search returns Pivot(U, i) |
| LuPivoting.SwapRowsInPlace | lista_de_exercicio_4_questao_2.py:28-33 | the array afterwards holds SwapRows of its old contents |
| LuPivoting.EliminateInPlace | lista_de_exercicio_4_questao_2.py:40-43 | the arrays afterwards hold Eliminate of the old state |
| LuPivoting.Iterate | lista_de_exercicio_4_questao_2.py:24-43 | one loop pass stops exactly when Step stops; otherwise the arrays hold Step's state and the counter equals its interchange count |
| LuPivoting.EliminateRow | lista_de_exercicio_4_questao_2.py:40-43 | one more row below the pivot is eliminated in place: rows i+1 .. r of L and U afterwards hold Eliminate's entries, the others are unchanged |
| LuPivoting.UpdateRow | lista_de_exercicio_4_questao_2.py:41 | right of column i, row r of U takes Eliminate's entries (row r less m times row i) in place; every other entry is unchanged |
| LuPivoting.Advance | lista_de_exercicio_4_questao_2.py:23-43 | one loop pass either stops, and then Lu(A) fails, or leaves the arrays holding the state after iteration i + 1 |
| LuPivoting.Start | lista_de_exercicio_4_questao_2.py:17-21 | the fresh arrays U = A, L = I and P = I hold the initial state, with no interchanges yet |
| LuPivoting.Run | lista_de_exercicio_4_questao_2.py:23-43 | the loop stops exactly when Lu(A) stops; otherwise the arrays end holding Lu(A)'s L, U and P and the counter its interchange count |
| LuPivoting.ZeroColumnStops | lista_de_exercicio_4_questao_2.py:23-37 | once an iteration meets a column that is zero from row k down, the whole factorisation fails |
| LuPivoting.Factorise | lista_de_exercicio_4_questao_2.py:4-45 | fails with SingularMatrix exactly when Lu(A) stops; otherwise it returns fresh arrays holding Lu(A)'s L, U and P, and the interchange count. A is not modified |
| GramSchmidtQr.ComboOrthogonal | lista_de_exercicio_4_questao_5.py:24-26 | a vector orthogonal to q_0 .. q_{t-1} is orthogonal to every combination of them |
| GramSchmidtQr.ModifiedEqualsClassical | lista_de_exercicio_4_questao_5.py:24-26 | with orthonormal q's, q_j . (a - sum of the earlier projections) == q_j . a: the modified coefficient equals the classical one |
| GramSchmidtQr.MatVecUnit | lista_de_exercicio_4_questao_5.py:23 | the working column starts as A e_i, which is column i of A |
| GramSchmidtQr.MatVecLinear | lista_de_exercicio_4_questao_5.py:26-28 | combining columns of A is linear in the coefficients |
| GramSchmidtQr.OrthonormalGram | lista_de_exercicio_4_questao_5.py:43 | orthonormal columns make Q^T Q the identity |
| GramSchmidtQr.ProjectStart | lista_de_exercicio_4_questao_5.py:23 | step i starts with the working column equal to column i of A |
| GramSchmidtQr.ProjectStep | lista_de_exercicio_4_questao_5.py:24-26 | R[j, i] = q_j . w (w is the working column after the earlier projections) equals q_j . a_i; after w -= R[j, i] q_j, w is orthogonal to q_0 .. q_j and equals a_i minus the projections on q_0 .. q_j |
| GramSchmidtQr.ProjectOrthogonal | lista_de_exercicio_4_questao_5.py:25-26 | subtracting (q_j . w) q_j leaves w orthogonal to q_0 .. q_j |
| GramSchmidtQr.WorkingNonZero | lista_de_exercicio_4_questao_5.py:27-28 | for linearly independent columns the working column is non-zero, so R[i, i] != 0 and the division is defined |
| GramSchmidtQr.UnitColumn | lista_de_exercicio_4_questao_5.py:27-28 | dividing w by its norm gives a vector of unit length |
| GramSchmidtQr.Normalise | lista_de_exercicio_4_questao_5.py:27-28 | R[i, i] = norm(w) > 0; q_i = w / R[i, i] extends the orthonormal family; column i of A is reconstructed as R[0, i] q_0 + ... + R[i, i] q_i |
| GramSchmidtQr.ReconstructColumn | lista_de_exercicio_4_questao_5.py:23-28 | a_i == sum over j <= i of R[j, i] q_j |
| GramSchmidtQr.Finished | lista_de_exercicio_4_questao_5.py:22-30 | after all columns: Q^T Q == I; R is zero below the diagonal with a positive diagonal; R[j, k] == q_j . a_k above it; Q R == A |
| GramSchmidtQr.CopyColumn | lista_de_exercicio_4_questao_5.py:23 | column i of Q becomes column i of A, and the other columns are unchanged |
| GramSchmidtQr.SubtractProjection | lista_de_exercicio_4_questao_5.py:26 | column i of Q becomes Q[:, i] - a Q[:, j], and the other columns are unchanged |
| GramSchmidtQr.ScaleColumn | lista_de_exercicio_4_questao_5.py:28 | column i of Q becomes Q[:, i] / d, and the other columns are unchanged |
| GramSchmidtQr.ProjectOnce | lista_de_exercicio_4_questao_5.py:25-26 | one pass of the inner loop stores R[j, i] and subtracts its projection, extending the "projections subtracted" state from j to j + 1 |
| GramSchmidtQr.ProjectAll | lista_de_exercicio_4_questao_5.py:24-26 | the inner loop leaves the state "all i projections subtracted", with R[j, i] stored for j < i |
| GramSchmidtQr.NormaliseColumn | lista_de_exercicio_4_questao_5.py:27-28 | R[i, i] = norm of Q[:, i] and Q[:, i] /= R[i, i] complete step i |
| GramSchmidtQr.Orthogonalise | lista_de_exercicio_4_questao_5.py:22-28 | one pass of the outer loop turns the state after i columns into the state after i + 1 columns |
| GramSchmidtQr.ZeroArray | lista_de_exercicio_4_questao_5.py:19-20 | the allocation is fresh, of the given shape, and zero everywhere |
| GramSchmidtQr.Fill | lista_de_exercicio_4_questao_5.py:22-28 | the outer loop over zero arrays ends with every column finished, Q holding q_0 .. q_{n-1} and R their coefficients |
| GramSchmidtQr.StoredResult | lista_de_exercicio_4_questao_5.py:22-30 | once every column is finished, the arrays satisfy Q^T Q == I, R upper triangular with positive diagonal, R[j, k] == q_j . a_k above it, and Q R == A |
| GramSchmidtQr.ModifiedGramSchmidt | lista_de_exercicio_4_questao_5.py:4-30 | for an m-by-n A with linearly independent columns: Q is m-by-n and R is n-by-n, both fresh; Q^T Q == I; R is upper triangular with a positive diagonal; R[j, k] == q_j . a_k for j < k; Q R == A. A is only read |

## Left out

- Floating-point rounding: every number is an exact real. The driver's `np.allclose` and `np.round` comparisons become exact equalities.
- `sqrt` and `np.linalg.norm` are not computed. The square root is a parameter whose only property is `IsSqrt`.
- `np.linalg.eig`, `np.linalg.inv` and `np.argsort` in alc_p2q6_taua.py are inputs to `TruncatedApproximation`. The eigenvalues must match the matrix's size, and the order must be an argsort of the magnitudes. Ties in the argsort may come in either order. The model does not check that the inputs really are A's decomposition, and it leaves out the `LinAlgError` that `inv` raises on a singular eigenvector matrix.
- Complex eigenvectors: only the real parts of P and P^-1 are modelled. The final `np.real` of the product is therefore the identity.
- `np.isclose(im, 0)` with NumPy's default tolerances is modelled as \|im\| <= 1e-8. The relative term vanishes because the second operand is 0.
- GramVolume.TetrahedronVolume: covers float input in exact arithmetic only. `np.array` of integer lists, the type every demonstration passes, gives NumPy int64 vectors. The dot products and the determinant are then computed in 64-bit integers that wrap around. For the axis vectors of length 1500, [[1500, 0, 0], [0, 1500, 0], [0, 0, 1500]], the Gram matrix is 2.25e6 times the identity. The term a(ei - fh) = 1.1390625e19 exceeds 2^63 and wraps to about -7.06e18. The clamp then sets the determinant to 0 and the routine returns 0.0, where the model's result is 562500000.0.
- CrossProduct.Cross: the same holds for int64 arrays such as the demonstration's `np.array([1, 2, 3])`. Each product u[i] * v[j] wraps once it exceeds 2^63, which entries of magnitude beyond about 3.04e9 can reach. The model computes in exact arithmetic.
- Input conversion and type checks are not modelled: `np.array(A, dtype=float)`, the `isinstance` test and the `TypeError` for non-numeric entries in `volume_vetores`. Inputs already are sequences of reals, so the model only checks counts and lengths.
- SpectralTruncation.TruncatedApproximation: an empty list is treated as the 0-by-0 matrix and fails with InvalidRank. In Python, `np.array([]).shape[1]` raises `IndexError` instead.
- LuPivoting.Factorise: requires a square array. The routine never checks squareness, and it takes n from the row count. A wide A (fewer rows than columns) runs and returns P A = L U with a rectangular U. A tall A with one extra row also runs. A tall A with two or more extra rows raises `IndexError` at `U[i:, i]` once i reaches the column count. None of these cases is modelled.
- GramSchmidtQr.ModifiedGramSchmidt: requires linearly independent columns. Otherwise some R[i, i] is 0, and the unguarded division fills a column of Q with NaN or infinities instead of raising an error. Reals have no NaN, so that output is not modelled.
- GramSchmidtQr.ModifiedGramSchmidt: the result states R[j, i] == q_j . a_i, the classical coefficient, which in exact arithmetic is the same number. That the code computes it against the partly reduced working column is shown by ProjectStep (the modified coefficient) together with ModifiedEqualsClassical (the two agree).
- The driver and comparison code are not modelled: `comparar_com_scipy`, `verify_decomposition`, `main`, the module-level examples and all printing. Their checks become lemmas: LuFactorisation for P A = L U, and Finished and OrthonormalGram for Q R = A and Q^T Q = I.
- alc_p1q5_taua.py (`norma_p_matriz_2por2`) is not part of this model. It samples angles with `cos`/`sin`, takes fractional powers and maximises over a float grid.
- lista_de_exercicio_3_questao_5.py is not part of this model. It consists of library calls for condition numbers and eigenvalues, plotting, and a trivial matrix constructor.
