/** 4×4 float matrix of the math library (math/matrix44.h), over reals.
    The default constructor initialises nothing. The model makes the uninitialised
    contents an explicit `garbage` matrix: whatever a builder does not assign stays as it was. */
module Matrix44 {
  import Square
  import Vector4

  type Mat44 = m: Square.Matrix | Square.IsSquare(m, 4) witness Square.Zero(4)

  /** A matrix whose stack memory happened to hold zeros. */
  function Zeros(): (r: Mat44)
    ensures forall i, j :: 0 <= i < 4 && 0 <= j < 4 ==> r[i][j] == 0.0
  {
    Square.Zero(4)
  }

  /** operator()(x, y): entry m[x][y]. */
  function Entry(m: Mat44, x: int, y: int): (r: real)
    requires 0 <= x < 4 && 0 <= y < 4
    ensures r == m[x][y]
  {
    m[x][y]
  }

  /** identity(): only the four diagonal entries are written (with 1) on an uninitialised
      matrix; every other entry keeps whatever `garbage` held. */
  function Identity(garbage: Mat44): (r: Mat44)
    ensures forall i :: 0 <= i < 4 ==> r[i][i] == 1.0
    ensures forall i, j :: 0 <= i < 4 && 0 <= j < 4 && i != j ==> r[i][j] == garbage[i][j]
  {
    var m0 := Square.Set(garbage, 4, 0, 0, 1.0);
    var m1 := Square.Set(m0, 4, 1, 1, 1.0);
    var m2 := Square.Set(m1, 4, 2, 2, 1.0);
    Square.Set(m2, 4, 3, 3, 1.0)
  }

  /** operator*(vector4): component i is row i of the matrix dotted with the vector. */
  function MulVec(m: Mat44, v: Vector4.Vec4): (r: Vector4.Vec4)
    ensures forall i :: 0 <= i < 4 ==> Vector4.Index(r, i) == RowDot(m[i], v)
  {
    Vector4.Vec4(
      m[0][0] * v.x + m[0][1] * v.y + m[0][2] * v.z + m[0][3] * v.w,
      m[1][0] * v.x + m[1][1] * v.y + m[1][2] * v.z + m[1][3] * v.w,
      m[2][0] * v.x + m[2][1] * v.y + m[2][2] * v.z + m[2][3] * v.w,
      m[3][0] * v.x + m[3][1] * v.y + m[3][2] * v.z + m[3][3] * v.w)
  }

  /** One row of the matrix dotted with a vector. */
  function RowDot(row: seq<real>, v: Vector4.Vec4): real
    requires |row| == 4
  {
    row[0] * v.x + row[1] * v.y + row[2] * v.z + row[3] * v.w
  }

  /** operator*(matrix44), as a value (the loop is Square.Multiply). */
  function Mul(a: Mat44, b: Mat44): (r: Mat44)
    ensures forall i, j :: 0 <= i < 4 && 0 <= j < 4 ==>
      r[i][j] == a[i][0] * b[0][j] + a[i][1] * b[1][j] + a[i][2] * b[2][j] + a[i][3] * b[3][j]
  {
    ProductEntries(a, b);
    Square.Product(a, b, 4)
  }

  lemma ProductEntries(a: Mat44, b: Mat44)
    ensures forall i, j :: 0 <= i < 4 && 0 <= j < 4 ==>
      Square.Product(a, b, 4)[i][j] == a[i][0] * b[0][j] + a[i][1] * b[1][j] + a[i][2] * b[2][j] + a[i][3] * b[3][j]
  {
    forall i, j | 0 <= i < 4 && 0 <= j < 4
      ensures Square.RowCol(a, b, 4, i, j, 4) ==
        a[i][0] * b[0][j] + a[i][1] * b[1][j] + a[i][2] * b[2][j] + a[i][3] * b[3][j]
    {
      assert Square.RowCol(a, b, 4, i, j, 1) == a[i][0] * b[0][j];
      assert Square.RowCol(a, b, 4, i, j, 2) == a[i][0] * b[0][j] + a[i][1] * b[1][j];
      assert Square.RowCol(a, b, 4, i, j, 3) == a[i][0] * b[0][j] + a[i][1] * b[1][j] + a[i][2] * b[2][j];
    }
  }

  /** operator*(matrix44) as the source runs it: the triple loop into an uninitialised result. */
  method MulLoop(a: Mat44, b: Mat44, garbage: Mat44) returns (r: Mat44)
    ensures r == Mul(a, b)
  {
    r := Square.Multiply(a, b, 4, garbage);
  }

  /** With a genuinely zero-initialised identity, multiplying on either side changes nothing. */
  lemma IdentityNeutral(a: Mat44)
    ensures Mul(a, Identity(Zeros())) == a
    ensures Mul(Identity(Zeros()), a) == a
  {
    var id := Identity(Zeros());
    assert IsUnit(id);
    var r1 := Mul(a, id);
    var r2 := Mul(id, a);
    forall i | 0 <= i < 4
      ensures r1[i] == a[i] && r2[i] == a[i]
    {
      forall j | 0 <= j < 4
        ensures r1[i][j] == a[i][j]
      {
        UnitRight(a, id, i, j);
      }
      forall j | 0 <= j < 4
        ensures r2[i][j] == a[i][j]
      {
        UnitLeft(a, id, i, j);
      }
    }
  }

  ghost predicate IsUnit(m: Mat44)
  {
    forall i, j :: 0 <= i < 4 && 0 <= j < 4 ==> m[i][j] == if i == j then 1.0 else 0.0
  }

  lemma UnitRight(a: Mat44, id: Mat44, i: int, j: int)
    requires IsUnit(id) && 0 <= i < 4 && 0 <= j < 4
    ensures Mul(a, id)[i][j] == a[i][j]
  {
    assert id[0][j] == (if j == 0 then 1.0 else 0.0);
    assert id[1][j] == (if j == 1 then 1.0 else 0.0);
    assert id[2][j] == (if j == 2 then 1.0 else 0.0);
    assert id[3][j] == (if j == 3 then 1.0 else 0.0);
  }

  lemma UnitLeft(a: Mat44, id: Mat44, i: int, j: int)
    requires IsUnit(id) && 0 <= i < 4 && 0 <= j < 4
    ensures Mul(id, a)[i][j] == a[i][j]
  {
    assert id[i][0] == (if i == 0 then 1.0 else 0.0);
    assert id[i][1] == (if i == 1 then 1.0 else 0.0);
    assert id[i][2] == (if i == 2 then 1.0 else 0.0);
    assert id[i][3] == (if i == 3 then 1.0 else 0.0);
  }

  /** The identity built from zero memory fixes every vector. */
  lemma IdentityMulVec(v: Vector4.Vec4)
    ensures MulVec(Identity(Zeros()), v) == v
  {
  }

  /** Applying a product to a vector is applying the factors one after the other:
      (A·B)·v = A·(B·v), the composition used for viewport·MVP·pos. */
  lemma MulVecAssociative(a: Mat44, b: Mat44, v: Vector4.Vec4)
    ensures MulVec(Mul(a, b), v) == MulVec(a, MulVec(b, v))
  {
    var ab := Mul(a, b);
    var bv := MulVec(b, v);
    forall i | 0 <= i < 4
      ensures Vector4.Index(MulVec(ab, v), i) == Vector4.Index(MulVec(a, bv), i)
    {
      RowAssociative(a, b, v, i);
    }
  }

  lemma RowAssociative(a: Mat44, b: Mat44, v: Vector4.Vec4, i: int)
    requires 0 <= i < 4
    ensures Vector4.Index(MulVec(Mul(a, b), v), i) == Vector4.Index(MulVec(a, MulVec(b, v)), i)
  {
    SumsCommute(a, b, v, i);
  }

  /** Row i of A·B dotted with v equals row i of A dotted with B·v: both are the sum over
      k and l of a[i][l]·b[l][k]·v[k], grouped by column and grouped by row. */
  lemma SumsCommute(a: Mat44, b: Mat44, v: Vector4.Vec4, i: int)
    requires 0 <= i < 4
    ensures RowDot(Mul(a, b)[i], v) == RowDot(a[i], MulVec(b, v))
  {
    ByColumns(a, b, v, i);
    ByRows(a[i], b, v);
  }

  /** The sixteen terms r_l·(b_lk·v_k). */
  function TripleSum(r: seq<real>, b: Mat44, v: Vector4.Vec4): real
    requires |r| == 4
  {
    r[0] * (b[0][0] * v.x) + r[0] * (b[0][1] * v.y) + r[0] * (b[0][2] * v.z) + r[0] * (b[0][3] * v.w) +
    r[1] * (b[1][0] * v.x) + r[1] * (b[1][1] * v.y) + r[1] * (b[1][2] * v.z) + r[1] * (b[1][3] * v.w) +
    r[2] * (b[2][0] * v.x) + r[2] * (b[2][1] * v.y) + r[2] * (b[2][2] * v.z) + r[2] * (b[2][3] * v.w) +
    r[3] * (b[3][0] * v.x) + r[3] * (b[3][1] * v.y) + r[3] * (b[3][2] * v.z) + r[3] * (b[3][3] * v.w)
  }

  /** Row i of A·B dotted with v, summed column by column. */
  lemma ByColumns(a: Mat44, b: Mat44, v: Vector4.Vec4, i: int)
    requires 0 <= i < 4
    ensures RowDot(Mul(a, b)[i], v) == TripleSum(a[i], b, v)
  {
    var m := Mul(a, b);
    ColumnsOf(m[i], a[i], b, v);
  }

  /** A row m of r·B, dotted with v, summed column by column. */
  lemma ColumnsOf(m: seq<real>, r: seq<real>, b: Mat44, v: Vector4.Vec4)
    requires |m| == 4 && |r| == 4
    requires forall k :: 0 <= k < 4 ==> m[k] == r[0] * b[0][k] + r[1] * b[1][k] + r[2] * b[2][k] + r[3] * b[3][k]
    ensures RowDot(m, v) == TripleSum(r, b, v)
  {
    ColumnTerm(m[0], v.x, r[0], r[1], r[2], r[3], b[0][0], b[1][0], b[2][0], b[3][0]);
    ColumnTerm(m[1], v.y, r[0], r[1], r[2], r[3], b[0][1], b[1][1], b[2][1], b[3][1]);
    ColumnTerm(m[2], v.z, r[0], r[1], r[2], r[3], b[0][2], b[1][2], b[2][2], b[3][2]);
    ColumnTerm(m[3], v.w, r[0], r[1], r[2], r[3], b[0][3], b[1][3], b[2][3], b[3][3]);
  }

  /** A row dotted with B·v, summed row entry by row entry. */
  lemma ByRows(r: seq<real>, b: Mat44, v: Vector4.Vec4)
    requires |r| == 4
    ensures RowDot(r, MulVec(b, v)) == TripleSum(r, b, v)
  {
    var q := MulVec(b, v);
    RowTerm(r[0], q.x, b[0][0], b[0][1], b[0][2], b[0][3], v.x, v.y, v.z, v.w);
    RowTerm(r[1], q.y, b[1][0], b[1][1], b[1][2], b[1][3], v.x, v.y, v.z, v.w);
    RowTerm(r[2], q.z, b[2][0], b[2][1], b[2][2], b[2][3], v.x, v.y, v.z, v.w);
    RowTerm(r[3], q.w, b[3][0], b[3][1], b[3][2], b[3][3], v.x, v.y, v.z, v.w);
  }

  /** One entry of row·matrix, times one vector component, spread over its four terms. */
  lemma ColumnTerm(p: real, vk: real, r0: real, r1: real, r2: real, r3: real, c0: real, c1: real, c2: real, c3: real)
    requires p == r0 * c0 + r1 * c1 + r2 * c2 + r3 * c3
    ensures p * vk == r0 * (c0 * vk) + r1 * (c1 * vk) + r2 * (c2 * vk) + r3 * (c3 * vk)
  {
  }

  /** One row entry times one component of matrix·vector, spread over its four terms. */
  lemma RowTerm(rl: real, q: real, e0: real, e1: real, e2: real, e3: real, v0: real, v1: real, v2: real, v3: real)
    requires q == e0 * v0 + e1 * v1 + e2 * v2 + e3 * v3
    ensures rl * q == rl * (e0 * v0) + rl * (e1 * v1) + rl * (e2 * v2) + rl * (e3 * v3)
  {
  }
}
