/** 3×3 float matrix of the math library (math/matrix33.h), over reals. Unlike matrix44,
    its default constructor zeroes every entry. */
module Matrix33 {
  import Square
  import Vector3
  import Matrix44

  type Mat33 = m: Square.Matrix | Square.IsSquare(m, 3) witness Square.Zero(3)

  /** matrix33(): all nine entries zero. */
  function Zeros(): (r: Mat33)
    ensures forall i, j :: 0 <= i < 3 && 0 <= j < 3 ==> r[i][j] == 0.0
  {
    Square.Zero(3)
  }

  /** matrix33(matrix44): the nested loop copies the upper-left 3×3 block. */
  method FromMatrix44(mm: Matrix44.Mat44) returns (r: Mat33)
    ensures forall i, j :: 0 <= i < 3 && 0 <= j < 3 ==> r[i][j] == mm[i][j]
  {
    r := Square.Zero(3);
    var i := 0;
    while i < 3
      invariant 0 <= i <= 3
      invariant Square.IsSquare(r, 3)
      invariant forall p, q :: 0 <= p < i && 0 <= q < 3 ==> r[p][q] == mm[p][q]
    {
      var j := 0;
      while j < 3
        invariant 0 <= j <= 3
        invariant Square.IsSquare(r, 3)
        invariant forall p, q :: 0 <= p < i && 0 <= q < 3 ==> r[p][q] == mm[p][q]
        invariant forall q :: 0 <= q < j ==> r[i][q] == mm[i][q]
      {
        r := Square.Set(r, 3, i, j, mm[i][j]);
        j := j + 1;
      }
      i := i + 1;
    }
  }

  /** identity(): a zeroed matrix with 1 written on the diagonal. */
  function Identity(): (r: Mat33)
    ensures forall i, j :: 0 <= i < 3 && 0 <= j < 3 ==> r[i][j] == if i == j then 1.0 else 0.0
  {
    var m0 := Square.Set(Zeros(), 3, 0, 0, 1.0);
    var m1 := Square.Set(m0, 3, 1, 1, 1.0);
    Square.Set(m1, 3, 2, 2, 1.0)
  }

  /** operator*(vector3): component i is row i dotted with the vector. */
  function MulVec(m: Mat33, v: Vector3.Vec3): (r: Vector3.Vec3)
    ensures forall i :: 0 <= i < 3 ==>
      Vector3.Index(r, i) == m[i][0] * v.x + m[i][1] * v.y + m[i][2] * v.z
  {
    Vector3.Vec3(
      m[0][0] * v.x + m[0][1] * v.y + m[0][2] * v.z,
      m[1][0] * v.x + m[1][1] * v.y + m[1][2] * v.z,
      m[2][0] * v.x + m[2][1] * v.y + m[2][2] * v.z)
  }

  /** operator*(matrix33): entry (i, j) is row i of the left factor dotted with column j
      of the right one (the loop is Square.Multiply). */
  lemma ProductEntries(a: Mat33, b: Mat33)
    ensures forall i, j :: 0 <= i < 3 && 0 <= j < 3 ==>
      Square.Product(a, b, 3)[i][j] == a[i][0] * b[0][j] + a[i][1] * b[1][j] + a[i][2] * b[2][j]
  {
    forall i, j | 0 <= i < 3 && 0 <= j < 3
      ensures Square.RowCol(a, b, 3, i, j, 3) == a[i][0] * b[0][j] + a[i][1] * b[1][j] + a[i][2] * b[2][j]
    {
      assert Square.RowCol(a, b, 3, i, j, 1) == a[i][0] * b[0][j];
      assert Square.RowCol(a, b, 3, i, j, 2) == a[i][0] * b[0][j] + a[i][1] * b[1][j];
    }
  }

  /** The identity fixes every vector. */
  lemma IdentityMulVec(v: Vector3.Vec3)
    ensures MulVec(Identity(), v) == v
  {
  }

  /** The identity is neutral on both sides of the product operator*(matrix33). */
  lemma IdentityNeutral(a: Mat33)
    ensures Square.Product(a, Identity(), 3) == a
    ensures Square.Product(Identity(), a, 3) == a
  {
    RightNeutral(a);
    LeftNeutral(a);
  }

  lemma RightNeutral(a: Mat33)
    ensures Square.Product(a, Identity(), 3) == a
  {
    var id := Identity();
    ProductEntries(a, id);
    var r := Square.Product(a, id, 3);
    forall i | 0 <= i < 3
      ensures r[i] == a[i]
    {
      forall j | 0 <= j < 3
        ensures r[i][j] == a[i][j]
      {
        assert r[i][j] == a[i][0] * id[0][j] + a[i][1] * id[1][j] + a[i][2] * id[2][j];
        if j == 0 {
          assert id[0][j] == 1.0 && id[1][j] == 0.0 && id[2][j] == 0.0;
        } else if j == 1 {
          assert id[0][j] == 0.0 && id[1][j] == 1.0 && id[2][j] == 0.0;
        } else {
          assert id[0][j] == 0.0 && id[1][j] == 0.0 && id[2][j] == 1.0;
        }
      }
    }
  }

  lemma LeftNeutral(a: Mat33)
    ensures Square.Product(Identity(), a, 3) == a
  {
    var id := Identity();
    ProductEntries(id, a);
    var r := Square.Product(id, a, 3);
    forall i | 0 <= i < 3
      ensures r[i] == a[i]
    {
      forall j | 0 <= j < 3
        ensures r[i][j] == a[i][j]
      {
        assert r[i][j] == id[i][0] * a[0][j] + id[i][1] * a[1][j] + id[i][2] * a[2][j];
        if i == 0 {
          assert id[i][0] == 1.0 && id[i][1] == 0.0 && id[i][2] == 0.0;
        } else if i == 1 {
          assert id[i][0] == 0.0 && id[i][1] == 1.0 && id[i][2] == 0.0;
        } else {
          assert id[i][0] == 0.0 && id[i][1] == 0.0 && id[i][2] == 1.0;
        }
      }
    }
  }

  /** transpose() leaves a symmetric matrix, such as identity(), as it is. */
  lemma TransposeSymmetric(a: Mat33)
    requires forall i, j :: 0 <= i < 3 && 0 <= j < 3 ==> a[i][j] == a[j][i]
    ensures Square.Transposed(a, 3) == a
  {
    var t := Square.Transposed(a, 3);
    forall i | 0 <= i < 3
      ensures t[i] == a[i]
    {
    }
  }
}
