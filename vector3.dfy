/** Three-component float vector of the math library (math/vector3.h), over reals.
    The source's scalar `*` and `/` change the receiver in place and return it; here they
    are functions giving the new receiver, and every call site reassigns the receiver. */
module Vector3 {

  /** vector3: the three-argument and copy constructors are this datatype's constructor
      and value copy; operator= is value assignment. */
  datatype Vec3 = Vec3(x: real, y: real, z: real)

  const Zero: Vec3 := Vec3(0.0, 0.0, 0.0)

  /** operator[]: 0 selects x, 1 selects y, every other index (negative ones too) selects z. */
  function Index(v: Vec3, i: int): (r: real)
    ensures i == 0 ==> r == v.x
    ensures i == 1 ==> r == v.y
    ensures i != 0 && i != 1 ==> r == v.z
  {
    if i == 0 then v.x else if i == 1 then v.y else v.z
  }

  /** operator+: component-wise sum. */
  function Add(a: Vec3, b: Vec3): (r: Vec3)
    ensures forall i :: Index(r, i) == Index(a, i) + Index(b, i)
  {
    Vec3(a.x + b.x, a.y + b.y, a.z + b.z)
  }

  /** operator- (binary): component-wise difference. */
  function Sub(a: Vec3, b: Vec3): (r: Vec3)
    ensures forall i :: Index(r, i) == Index(a, i) - Index(b, i)
  {
    Vec3(a.x - b.x, a.y - b.y, a.z - b.z)
  }

  /** operator- (unary): every component negated. */
  function Neg(v: Vec3): (r: Vec3)
    ensures forall i :: Index(r, i) == -Index(v, i)
  {
    Vec3(-v.x, -v.y, -v.z)
  }

  /** operator*(float): the receiver after `v * d`; the operator also returns it. */
  function Scale(v: Vec3, d: real): (r: Vec3)
    ensures forall i :: Index(r, i) == Index(v, i) * d
  {
    Vec3(v.x * d, v.y * d, v.z * d)
  }

  /** operator/(float): the receiver after `v / d`. Division by zero (an infinity or NaN in
      the source) is excluded. */
  function Div(v: Vec3, d: real): (r: Vec3)
    requires d != 0.0
    ensures forall i :: Index(r, i) == Index(v, i) / d
  {
    Vec3(v.x / d, v.y / d, v.z / d)
  }

  /** operator*(vector3) and vector3Dot: both compute the same sum of products. Its
      properties are the lemmas below rather than postconditions, which every nonlinear proof
      mentioning a dot product would otherwise carry. */
  function Dot(a: Vec3, b: Vec3): real
  {
    a.x * b.x + a.y * b.y + a.z * b.z
  }

  /** vector3Cross: the value written into the out-parameter. A vector crossed with itself
      or with zero gives zero; CrossOrthogonal shows it is orthogonal to both factors. */
  function Cross(a: Vec3, b: Vec3): (r: Vec3)
    ensures a == b || a == Zero || b == Zero ==> r == Zero
  {
    Vec3(a.y * b.z - a.z * b.y, a.z * b.x - a.x * b.z, a.x * b.y - a.y * b.x)
  }

  /** normalize(): multiplies every component by the same reciprocal length, and leaves the
      zero vector zero. The length is a square root, which the model does not compute: the
      caller supplies it as `invLength`. */
  function Normalize(v: Vec3, invLength: Vec3 -> real): (r: Vec3)
    ensures forall i :: Index(r, i) == Index(v, i) * invLength(v)
    ensures v == Zero ==> r == Zero
  {
    Scale(v, invLength(v))
  }

  /** reflect(in, normal): returns in - normal*2(in.normal) and, because the scalar `*`
      works in place, leaves the caller's `normal` scaled by 2(in.normal).
      The pair is (returned vector, normal afterwards). */
  function Reflect(v: Vec3, normal: Vec3): (r: (Vec3, Vec3))
    ensures r.1 == Scale(normal, 2.0 * Dot(v, normal))
    ensures r.0 == Sub(v, r.1)
  {
    var scaled := Scale(normal, Dot(v, normal) * 2.0);
    (Sub(v, scaled), scaled)
  }

  /** Dividing by d undoes scaling by d. */
  lemma DivUndoesScale(v: Vec3, d: real)
    requires d != 0.0
    ensures Div(Scale(v, d), d) == v
  {
  }

  /** Two in-place scalings of the same receiver compose into one. */
  lemma ScaleTwice(v: Vec3, a: real, b: real)
    ensures Scale(Scale(v, a), b) == Scale(v, a * b)
  {
  }

  /** The dot product is symmetric and equals the sum of the indexed products. */
  lemma DotSymmetric(a: Vec3, b: Vec3)
    ensures Dot(a, b) == Dot(b, a)
    ensures Dot(a, b) == Index(a, 0) * Index(b, 0) + Index(a, 1) * Index(b, 1) + Index(a, 2) * Index(b, 2)
  {
  }

  /** The cross product is orthogonal to both factors, antisymmetric, and zero on equal factors. */
  lemma CrossOrthogonal(a: Vec3, b: Vec3)
    ensures Dot(Cross(a, b), a) == 0.0 && Dot(Cross(a, b), b) == 0.0
    ensures Cross(b, a) == Neg(Cross(a, b))
    ensures Cross(a, a) == Zero
  {
  }

  /** A vector's product with itself is never negative, and the zero vector is orthogonal
      to everything. */
  lemma DotSelf(a: Vec3)
    ensures 0.0 <= Dot(a, a)
    ensures Dot(a, Zero) == 0.0 && Dot(Zero, a) == 0.0
  {
  }

  /** The dot product distributes over the difference: (a - b)·n = a·n - b·n. */
  lemma DotSub(a: Vec3, b: Vec3, n: Vec3)
    ensures Dot(Sub(a, b), n) == Dot(a, n) - Dot(b, n)
  {
    var u := Sub(a, b);
    assert u.x == a.x - b.x && u.y == a.y - b.y && u.z == a.z - b.z;
    Distribute(a.x, a.y, a.z, b.x, b.y, b.z, n.x, n.y, n.z);
  }

  /** Component by component: (a - c)·n = a·n - c·n. */
  lemma Distribute(ax: real, ay: real, az: real, cx: real, cy: real, cz: real, nx: real, ny: real, nz: real)
    ensures (ax - cx) * nx + (ay - cy) * ny + (az - cz) * nz == (ax * nx + ay * ny + az * nz) - (cx * nx + cy * ny + cz * nz)
  {
  }

  /** Dot is bilinear in scaling: the factors come out. */
  lemma DotScale(a: Vec3, b: Vec3, s: real, t: real)
    ensures Dot(Scale(a, s), Scale(b, t)) == s * t * Dot(a, b)
  {
  }

  /** Against a unit normal, reflection flips the normal component and keeps the rest:
      r.n = -(in.n) and r + n(in.n) = in - n(in.n). */
  lemma ReflectFlipsNormalComponent(v: Vec3, n: Vec3)
    requires Dot(n, n) == 1.0
    ensures Dot(Reflect(v, n).0, n) == -Dot(v, n)
  {
    var k := Dot(v, n);
    calc {
      Dot(Reflect(v, n).0, n);
      Dot(Sub(v, Scale(n, 2.0 * k)), n);
      Dot(v, n) - 2.0 * k * Dot(n, n);
      -k;
    }
  }
}
