/** Matrix builders of TransformUtils.h. Each builder starts from `identity()` or from an
    uninitialised matrix, so every entry it does not assign comes from `garbage`. */
module TransformUtils {
  import Square
  import Vector3
  import Vector4
  import Matrix44

  /** The global `depth` the viewport maps z onto. */
  const Depth: int := 255

  /** m(i, j) = v on a matrix value. */
  function Put(m: Matrix44.Mat44, i: nat, j: nat, v: real): (r: Matrix44.Mat44)
    requires i < 4 && j < 4
    ensures r[i][j] == v
    ensures forall p, q :: 0 <= p < 4 && 0 <= q < 4 && (p != i || q != j) ==> r[p][q] == m[p][q]
  {
    Square.Set(m, 4, i, j, v)
  }

  /** Row i of a matrix, restricted to its first three columns. */
  function Row3(m: Matrix44.Mat44, i: nat): (r: Vector3.Vec3)
    requires i < 4
    ensures forall j :: 0 <= j < 3 ==> Vector3.Index(r, j) == m[i][j]
  {
    Vector3.Vec3(m[i][0], m[i][1], m[i][2])
  }

  /** viewport(x, y, w, h): along x and y the scale and offset send NDC -1 to the
      rectangle's near edge and NDC 1 to its far edge; along z they send -1 to 0 and 1 to
      the depth 255. */
  function Viewport(x: int, y: int, w: int, h: int, garbage: Matrix44.Mat44): (r: Matrix44.Mat44)
    ensures r[0][3] - r[0][0] == x as real && r[0][3] + r[0][0] == (x + w) as real
    ensures r[1][3] - r[1][1] == y as real && r[1][3] + r[1][1] == (y + h) as real
    ensures r[2][3] - r[2][2] == 0.0 && r[2][3] + r[2][2] == Depth as real
  {
    var m := Matrix44.Identity(garbage);
    var m := Put(m, 0, 3, x as real + w as real / 2.0);
    var m := Put(m, 1, 3, y as real + h as real / 2.0);
    var m := Put(m, 2, 3, Depth as real / 2.0);
    var m := Put(m, 0, 0, w as real / 2.0);
    var m := Put(m, 1, 1, h as real / 2.0);
    Put(m, 2, 2, Depth as real / 2.0)
  }

  /** The entries viewport assigns, and the ones it leaves to `identity()`'s memory. */
  lemma ViewportEntries(x: int, y: int, w: int, h: int, garbage: Matrix44.Mat44)
    ensures var r := Viewport(x, y, w, h, garbage);
      r[0][0] == w as real / 2.0 && r[1][1] == h as real / 2.0 && r[2][2] == 127.5 && r[3][3] == 1.0
    ensures var r := Viewport(x, y, w, h, garbage);
      r[0][3] == x as real + w as real / 2.0 && r[1][3] == y as real + h as real / 2.0 && r[2][3] == 127.5
    ensures var r := Viewport(x, y, w, h, garbage);
      forall i, j :: 0 <= i < 4 && 0 <= j < 4 && i != j && j != 3 ==> r[i][j] == garbage[i][j]
  {
  }

  /** With zeroed memory the viewport sends NDC (nx, ny, nz, 1) to
      (x + w(nx+1)/2, y + h(ny+1)/2, 255(nz+1)/2, 1). */
  lemma ViewportMaps(x: int, y: int, w: int, h: int, nx: real, ny: real, nz: real)
    ensures Matrix44.MulVec(Viewport(x, y, w, h, Matrix44.Zeros()), Vector4.Vec4(nx, ny, nz, 1.0)) ==
      Vector4.Vec4(x as real + w as real * (nx + 1.0) / 2.0, y as real + h as real * (ny + 1.0) / 2.0,
        Depth as real * (nz + 1.0) / 2.0, 1.0)
  {
    var r := Viewport(x, y, w, h, Matrix44.Zeros());
    ViewportEntries(x, y, w, h, Matrix44.Zeros());
    assert r[0][1] == 0.0 && r[0][2] == 0.0 && r[1][0] == 0.0 && r[1][2] == 0.0;
    assert r[2][0] == 0.0 && r[2][1] == 0.0 && r[3][0] == 0.0 && r[3][1] == 0.0 && r[3][2] == 0.0;
  }

  /** NDC x in [-1, 1] lands in [x, x + w] and NDC z in [-1, 1] lands in [0, 255]. */
  lemma ViewportRange(x: int, y: int, w: int, h: int, nx: real, nz: real)
    requires w >= 0 && -1.0 <= nx <= 1.0 && -1.0 <= nz <= 1.0
    ensures var p := Matrix44.MulVec(Viewport(x, y, w, h, Matrix44.Zeros()), Vector4.Vec4(nx, 0.0, nz, 1.0));
      x as real <= p.x <= (x + w) as real && 0.0 <= p.z <= Depth as real
  {
    ViewportMaps(x, y, w, h, nx, 0.0, nz);
    HalfScaledRange(w as real, nx);
    HalfScaledRange(Depth as real, nz);
    assert (x + w) as real == x as real + w as real;
  }

  lemma HalfScaledRange(w: real, n: real)
    requires w >= 0.0 && -1.0 <= n <= 1.0
    ensures 0.0 <= w * (n + 1.0) / 2.0 <= w
  {
    assert 0.0 <= w * (n + 1.0) <= w * 2.0;
  }

  /** lookat(eye, center, up): z = normalize(eye - center), x = normalize(up × z),
      y = normalize(z × x). The reciprocal length of `normalize` is the parameter `invLength`. */
  function LookAtBasis(eye: Vector3.Vec3, center: Vector3.Vec3, up: Vector3.Vec3,
                       invLength: Vector3.Vec3 -> real): (basis: (Vector3.Vec3, Vector3.Vec3, Vector3.Vec3))
  {
    var z := Vector3.Normalize(Vector3.Sub(eye, center), invLength);
    var x := Vector3.Normalize(Vector3.Cross(up, z), invLength);
    var y := Vector3.Normalize(Vector3.Cross(z, x), invLength);
    (x, y, z)
  }

  /** The loop of lookat for one i: res(0,i) = x[i], res(1,i) = y[i], res(2,i) = z[i],
      res(i,3) = -center[i]. */
  function LookAtColumn(m: Matrix44.Mat44, i: nat, x: Vector3.Vec3, y: Vector3.Vec3, z: Vector3.Vec3,
                        center: Vector3.Vec3): (r: Matrix44.Mat44)
    requires i < 3
  {
    var m := Put(m, 0, i, Vector3.Index(x, i));
    var m := Put(m, 1, i, Vector3.Index(y, i));
    var m := Put(m, 2, i, Vector3.Index(z, i));
    Put(m, i, 3, -Vector3.Index(center, i))
  }

  /** lookat(eye, center, up): the basis in rows 0-2 over identity()'s memory. The last
      column holds -center as written, not the -basis·eye of a view matrix. */
  function LookAt(eye: Vector3.Vec3, center: Vector3.Vec3, up: Vector3.Vec3,
                  invLength: Vector3.Vec3 -> real, garbage: Matrix44.Mat44): (r: Matrix44.Mat44)
    ensures forall i :: 0 <= i < 3 ==> r[i][3] == -Vector3.Index(center, i)
  {
    var (x, y, z) := LookAtBasis(eye, center, up, invLength);
    var m := Matrix44.Identity(garbage);
    var m := LookAtColumn(m, 0, x, y, z, center);
    var m := LookAtColumn(m, 1, x, y, z, center);
    LookAtColumn(m, 2, x, y, z, center)
  }

  /** lookat puts the basis x, y, z in rows 0, 1, 2 and -center (not -basis·eye) in
      column 3; row 3 keeps identity()'s memory with 1 at (3,3). */
  lemma LookAtLayout(eye: Vector3.Vec3, center: Vector3.Vec3, up: Vector3.Vec3,
                     invLength: Vector3.Vec3 -> real, garbage: Matrix44.Mat44)
    ensures var r := LookAt(eye, center, up, invLength, garbage);
      var (x, y, z) := LookAtBasis(eye, center, up, invLength);
      Row3(r, 0) == x && Row3(r, 1) == y && Row3(r, 2) == z
    ensures var r := LookAt(eye, center, up, invLength, garbage);
      r[0][3] == -center.x && r[1][3] == -center.y && r[2][3] == -center.z
    ensures var r := LookAt(eye, center, up, invLength, garbage);
      r[3][3] == 1.0 && r[3][0] == garbage[3][0] && r[3][1] == garbage[3][1] && r[3][2] == garbage[3][2]
  {
  }

  /** Whatever the lengths, the three rows of the lookat basis are pairwise orthogonal:
      each is a multiple of a cross product with the others. */
  lemma {:induction false} LookAtOrthogonal(eye: Vector3.Vec3, center: Vector3.Vec3, up: Vector3.Vec3,
                                            invLength: Vector3.Vec3 -> real)
    ensures var (x, y, z) := LookAtBasis(eye, center, up, invLength);
      Vector3.Dot(x, z) == 0.0 && Vector3.Dot(y, z) == 0.0 && Vector3.Dot(x, y) == 0.0
  {
    var z := Vector3.Normalize(Vector3.Sub(eye, center), invLength);
    var cx := Vector3.Cross(up, z);
    var x := Vector3.Normalize(cx, invLength);
    var cy := Vector3.Cross(z, x);
    var y := Vector3.Normalize(cy, invLength);
    Vector3.CrossOrthogonal(up, z);
    Vector3.DotScale(cx, z, invLength(cx), 1.0);
    Vector3.ScaleTwice(z, 1.0, 1.0);
    assert Vector3.Scale(z, 1.0) == z;
    Vector3.CrossOrthogonal(z, x);
    Vector3.DotScale(cy, z, invLength(cy), 1.0);
    Vector3.DotScale(cy, x, invLength(cy), 1.0);
    assert Vector3.Scale(x, 1.0) == x;
    Vector3.DotSymmetric(x, y);
  }

  /** projection(coeff): identity() with entry (3,2) set to coeff. */
  function Projection(coeff: real, garbage: Matrix44.Mat44): (r: Matrix44.Mat44)
    ensures r[3][2] == coeff
    ensures forall i :: 0 <= i < 4 ==> r[i][i] == 1.0
    ensures forall i, j :: 0 <= i < 4 && 0 <= j < 4 && i != j && (i, j) != (3, 2) ==> r[i][j] == garbage[i][j]
  {
    Put(Matrix44.Identity(garbage), 3, 2, coeff)
  }

  /** With zeroed memory, projection leaves x, y, z alone and sets w to 1 + coeff·z. */
  lemma ProjectionPerspective(coeff: real, v: Vector3.Vec3)
    ensures Matrix44.MulVec(Projection(coeff, Matrix44.Zeros()), Vector4.FromVec3(v, 1.0)) ==
      Vector4.Vec4(v.x, v.y, v.z, coeff * v.z + 1.0)
  {
    var r := Projection(coeff, Matrix44.Zeros());
    assert r[0][1] == 0.0 && r[0][2] == 0.0 && r[0][3] == 0.0 && r[1][0] == 0.0 && r[1][2] == 0.0;
    assert r[1][3] == 0.0 && r[2][0] == 0.0 && r[2][1] == 0.0 && r[2][3] == 0.0;
    assert r[3][0] == 0.0 && r[3][1] == 0.0;
  }

  /** scaleMatrix(x, y, z): diagonal (x, y, z, 1) on an uninitialised matrix. */
  function ScaleMatrix(x: real, y: real, z: real, garbage: Matrix44.Mat44): (r: Matrix44.Mat44)
    ensures r[0][0] == x && r[1][1] == y && r[2][2] == z && r[3][3] == 1.0
    ensures forall i, j :: 0 <= i < 4 && 0 <= j < 4 && i != j ==> r[i][j] == garbage[i][j]
  {
    var m := Put(garbage, 0, 0, x);
    var m := Put(m, 1, 1, y);
    var m := Put(m, 2, 2, z);
    Put(m, 3, 3, 1.0)
  }

  /** translateMatrix(x, y, z): identity() with column 3 set to the offset. */
  function TranslateMatrix(x: real, y: real, z: real, garbage: Matrix44.Mat44): (r: Matrix44.Mat44)
    ensures forall i :: 0 <= i < 4 ==> r[i][i] == 1.0
    ensures r[0][3] == x && r[1][3] == y && r[2][3] == z
    ensures forall i, j :: 0 <= i < 4 && 0 <= j < 3 && i != j ==> r[i][j] == garbage[i][j]
  {
    var m := Matrix44.Identity(garbage);
    var m := Put(m, 0, 3, x);
    var m := Put(m, 1, 3, y);
    Put(m, 2, 3, z)
  }

  /** With zeroed memory, translateMatrix(t) takes (p, 1) to (p + t, 1). */
  lemma TranslateMoves(t: Vector3.Vec3, p: Vector3.Vec3)
    ensures Matrix44.MulVec(TranslateMatrix(t.x, t.y, t.z, Matrix44.Zeros()), Vector4.FromVec3(p, 1.0)) ==
      Vector4.FromVec3(Vector3.Add(p, t), 1.0)
  {
    var r := TranslateMatrix(t.x, t.y, t.z, Matrix44.Zeros());
    assert r[0][1] == 0.0 && r[0][2] == 0.0 && r[1][0] == 0.0 && r[1][2] == 0.0;
    assert r[2][0] == 0.0 && r[2][1] == 0.0 && r[3][0] == 0.0 && r[3][1] == 0.0 && r[3][2] == 0.0;
    assert Vector3.Index(Vector3.Add(p, t), 0) == p.x + t.x;
    assert Vector3.Index(Vector3.Add(p, t), 1) == p.y + t.y;
    assert Vector3.Index(Vector3.Add(p, t), 2) == p.z + t.z;
  }

  /** Two translations compose into one when memory is zeroed. */
  lemma TranslateTwice(s: Vector3.Vec3, t: Vector3.Vec3, p: Vector3.Vec3)
    ensures var z := Matrix44.Zeros();
      Matrix44.MulVec(TranslateMatrix(s.x, s.y, s.z, z),
        Matrix44.MulVec(TranslateMatrix(t.x, t.y, t.z, z), Vector4.FromVec3(p, 1.0))) ==
      Vector4.FromVec3(Vector3.Add(Vector3.Add(p, t), s), 1.0)
  {
    TranslateMoves(t, p);
    TranslateMoves(s, Vector3.Add(p, t));
  }

  /** The quaternion (w; qx, qy, qz) rotateMatrix builds for a non-zero axis:
      half-angle sine and cosine of theta, axis normalised. */
  function RotationQuaternion(x: real, y: real, z: real, theta: real, sin: real -> real, cos: real -> real,
                              invLength: Vector3.Vec3 -> real): (q: (real, Vector3.Vec3))
  {
    var qsin := sin(theta * 0.5);
    var qcos := cos(theta * 0.5);
    var v := Vector3.Normalize(Vector3.Vec3(x, y, z), invLength);
    (qcos, Vector3.Vec3(v.x * qsin, v.y * qsin, v.z * qsin))
  }

  /** The entries rotateMatrix assigns for quaternion (w; x, y, z). */
  function RotationBlock(w: real, q: Vector3.Vec3, garbage: Matrix44.Mat44): (r: Matrix44.Mat44)
  {
    var (x, y, z) := (q.x, q.y, q.z);
    var m := Put(garbage, 0, 0, 1.0 - 2.0 * y * y - 2.0 * z * z);
    var m := Put(m, 0, 1, 2.0 * x * y - 2.0 * w * z);
    var m := Put(m, 0, 2, 2.0 * x * z + 2.0 * w * y);
    var m := Put(m, 1, 0, 2.0 * x * y + 2.0 * w * z);
    var m := Put(m, 1, 1, 1.0 - 2.0 * x * x - 2.0 * z * z);
    var m := Put(m, 1, 2, 2.0 * y * z - 2.0 * w * x);
    var m := Put(m, 2, 0, 2.0 * x * z - 2.0 * w * y);
    var m := Put(m, 2, 1, 2.0 * y * z + 2.0 * w * x);
    var m := Put(m, 2, 2, 1.0 - 2.0 * x * x - 2.0 * y * y);
    Put(m, 3, 3, 1.0)
  }

  /** rotateMatrix(x, y, z, theta); sin, cos and the reciprocal length are parameters. */
  function RotateMatrix(x: real, y: real, z: real, theta: real, sin: real -> real, cos: real -> real,
                        invLength: Vector3.Vec3 -> real, garbage: Matrix44.Mat44): (r: Matrix44.Mat44)
    ensures x == 0.0 && y == 0.0 && z == 0.0 ==> r == Matrix44.Identity(garbage)
    ensures !(x == 0.0 && y == 0.0 && z == 0.0) ==>
      var (w, q) := RotationQuaternion(x, y, z, theta, sin, cos, invLength);
      r == RotationBlock(w, q, garbage)
  {
    if x == 0.0 && y == 0.0 && z == 0.0 then Matrix44.Identity(garbage)
    else
      var (w, q) := RotationQuaternion(x, y, z, theta, sin, cos, invLength);
      RotationBlock(w, q, garbage)
  }

  /** Only the 3×3 block and (3,3) are assigned: row 3 and column 3 off the diagonal keep
      the uninitialised memory. */
  lemma RotationBorderUnset(w: real, q: Vector3.Vec3, garbage: Matrix44.Mat44)
    ensures var r := RotationBlock(w, q, garbage);
      r[3][3] == 1.0 && forall k :: 0 <= k < 3 ==> r[3][k] == garbage[3][k] && r[k][3] == garbage[k][3]
  {
  }

  /** The rotation fixes its own axis: rows 0..2 of the matrix map (qx, qy, qz, 0) to itself,
      whatever w, the lengths and the uninitialised border hold. */
  lemma {:induction false} RotationFixesAxis(w: real, q: Vector3.Vec3, garbage: Matrix44.Mat44)
    ensures var p := Matrix44.MulVec(RotationBlock(w, q, garbage), Vector4.FromVec3(q, 0.0));
      p.x == q.x && p.y == q.y && p.z == q.z
  {
    var r := RotationBlock(w, q, garbage);
    var p := Matrix44.MulVec(r, Vector4.FromVec3(q, 0.0));
    assert p.x == r[0][0] * q.x + r[0][1] * q.y + r[0][2] * q.z;
    assert p.y == r[1][0] * q.x + r[1][1] * q.y + r[1][2] * q.z;
    assert p.z == r[2][0] * q.x + r[2][1] * q.y + r[2][2] * q.z;
    FixedRow(w, q.x, q.y, q.z);
    FixedRow(-w, q.y, q.z, q.x);
    FixedRow(w, q.z, q.x, q.y);
  }

  /** The polynomial identity behind one row: (1-2b²-2c²)a + (2ab-2wc)b + (2ac+2wb)c = a,
      together with its cyclic variants obtained by renaming. */
  lemma FixedRow(w: real, a: real, b: real, c: real)
    ensures (1.0 - 2.0 * b * b - 2.0 * c * c) * a + (2.0 * a * b - 2.0 * w * c) * b + (2.0 * a * c + 2.0 * w * b) * c == a
    ensures (2.0 * c * a + 2.0 * w * b) * c + (2.0 * a * b - 2.0 * w * c) * b + (1.0 - 2.0 * b * b - 2.0 * c * c) * a == a
  {
  }
}
