/** The cross product of two vectors of three-dimensional space
    (lista_de_exercicio_3_questao_2.py). */
module CrossProduct {
  import opened Vectors
  import opened Outcomes

  /** u x v; the source asserts that both operands have length three and
      otherwise fails, which is the DimensionMismatch case here. The result is
      orthogonal to both operands. */
  function Cross(u: Vec, v: Vec): (r: Result<Vec>)
    ensures r.Success? <==> |u| == 3 && |v| == 3
    ensures r.Success? ==> |r.value| == 3 && Dot(r.value, u) == 0.0 && Dot(r.value, v) == 0.0
  {
    if |u| != 3 || |v| != 3 then
      Failure(DimensionMismatch)
    else
      var w := [u[1] * v[2] - u[2] * v[1],
                u[2] * v[0] - u[0] * v[2],
                u[0] * v[1] - u[1] * v[0]];
      Dot3(w, u);
      Dot3(w, v);
      Success(w)
  }

  /** Swapping the operands negates the product: v x u == -(u x v). */
  lemma CrossAnticommutative(u: Vec, v: Vec)
    requires |u| == 3 && |v| == 3
    ensures Cross(v, u).Success? && Cross(u, v).Success?
    ensures Cross(v, u).value == LinComb(-1.0, Cross(u, v).value, 0.0, Zeros(3))
  {
  }

  /** The product of a vector with itself is the zero vector. */
  lemma CrossSelfZero(u: Vec)
    requires |u| == 3
    ensures Cross(u, u) == Success(Zeros(3))
  {
    assert Zeros(3) == [0.0, 0.0, 0.0];
  }

  /** The vectors of the demonstration: (1, 2, 3) x (4, 5, 6) == (-3, 6, -3),
      and the reversed order gives its negation. */
  lemma CrossExample()
    ensures Cross([1.0, 2.0, 3.0], [4.0, 5.0, 6.0]) == Success([-3.0, 6.0, -3.0])
    ensures Cross([4.0, 5.0, 6.0], [1.0, 2.0, 3.0]) == Success([3.0, -6.0, 3.0])
  {
  }
}
