/** 3-by-3 real matrices: homographies and the running perspective transform. */
module Matrices {
  import opened Wrappers

  type Matrix3 = m: seq<seq<real>> | |m| == 3 && forall i :: 0 <= i < 3 ==> |m[i]| == 3
    witness [[0.0, 0.0, 0.0], [0.0, 0.0, 0.0], [0.0, 0.0, 0.0]]

  /** `np.eye(3)`. */
  function Identity(): (m: Matrix3)
    ensures forall i, j :: 0 <= i < 3 && 0 <= j < 3 ==> m[i][j] == if i == j then 1.0 else 0.0
  {
    [[1.0, 0.0, 0.0], [0.0, 1.0, 0.0], [0.0, 0.0, 1.0]]
  }

  /** `(1 - alpha) * a + alpha * b`, entry by entry. */
  function Blend(a: Matrix3, b: Matrix3, alpha: real): (m: Matrix3)
    ensures forall i, j :: 0 <= i < 3 && 0 <= j < 3 ==> m[i][j] == (1.0 - alpha) * a[i][j] + alpha * b[i][j]
  {
    seq(3, i requires 0 <= i < 3 =>
      seq(3, j requires 0 <= j < 3 => (1.0 - alpha) * a[i][j] + alpha * b[i][j]))
  }

  /** `m /= m[2, 2]`. With a zero pivot numpy fills the matrix with infinities
      and NaNs, which poison every later step; that outcome is None. */
  function Normalise(m: Matrix3): (r: Option<Matrix3>)
    ensures r.Some? <==> m[2][2] != 0.0
    ensures r.Some? ==> r.value[2][2] == 1.0
    ensures r.Some? ==> forall i, j :: 0 <= i < 3 && 0 <= j < 3 ==> r.value[i][j] * m[2][2] == m[i][j]
  {
    if m[2][2] == 0.0 then None
    else
      Some(seq(3, i requires 0 <= i < 3 => seq(3, j requires 0 <= j < 3 => m[i][j] / m[2][2])))
  }

  /** The matrix product `a.dot(b)`. */
  function Mul(a: Matrix3, b: Matrix3): (m: Matrix3)
    ensures forall i, j :: 0 <= i < 3 && 0 <= j < 3 ==>
      m[i][j] == a[i][0] * b[0][j] + a[i][1] * b[1][j] + a[i][2] * b[2][j]
  {
    seq(3, i requires 0 <= i < 3 =>
      seq(3, j requires 0 <= j < 3 => a[i][0] * b[0][j] + a[i][1] * b[1][j] + a[i][2] * b[2][j]))
  }

  /** `smoothed.dot(H)` where either factor may already be non-finite. */
  function Compose(a: Option<Matrix3>, b: Option<Matrix3>): (r: Option<Matrix3>)
    ensures r.Some? <==> a.Some? && b.Some?
  {
    if a.Some? && b.Some? then Some(Mul(a.value, b.value)) else None
  }

  lemma MatrixEquality(a: Matrix3, b: Matrix3)
    requires forall i, j :: 0 <= i < 3 && 0 <= j < 3 ==> a[i][j] == b[i][j]
    ensures a == b
  {
    assert a[0] == b[0] && a[1] == b[1] && a[2] == b[2];
  }

  /** The identity is neutral on the right of a product. */
  lemma MulIdentity(m: Matrix3)
    ensures Mul(m, Identity()) == m
  {
    MatrixEquality(Mul(m, Identity()), m);
  }

  /** Composing onto the identity leaves a matrix, or its absence, unchanged. */
  lemma ComposeIdentity(a: Option<Matrix3>)
    ensures Compose(a, Some(Identity())) == a
  {
    if a.Some? {
      MulIdentity(a.value);
    }
  }
}
