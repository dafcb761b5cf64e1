/** Two-component float vector of the math library (math/vector2.h), over reals. */
module Vector2 {

  /** vector2: the two-argument and copy constructors are this datatype's constructor
      and value copy. */
  datatype Vec2 = Vec2(x: real, y: real)

  /** operator[]: index 0 selects x, every other index (negative ones too) selects y. */
  function Index(v: Vec2, i: int): (r: real)
    ensures i == 0 ==> r == v.x
    ensures i != 0 ==> r == v.y
  {
    if i == 0 then v.x else v.y
  }

  /** Writing through the reference operator[] returns: index 0 writes x, every other
      index writes y, and the other component keeps its value. */
  function Assign(v: Vec2, i: int, r: real): (u: Vec2)
    ensures Index(u, i) == r
    ensures i == 0 ==> u.y == v.y
    ensures i != 0 ==> u.x == v.x
  {
    if i == 0 then Vec2(r, v.y) else Vec2(v.x, r)
  }

  /** operator-: component-wise difference, operands unchanged. */
  function Sub(a: Vec2, b: Vec2): (r: Vec2)
    ensures forall i :: Index(r, i) == Index(a, i) - Index(b, i)
  {
    Vec2(a.x - b.x, a.y - b.y)
  }

  /** Two indexings rebuild the vector: operator[] loses no component. */
  lemma IndexRebuilds(v: Vec2)
    ensures Vec2(Index(v, 0), Index(v, 1)) == v
  {
  }

  /** Subtraction is undone by subtracting the difference again. */
  lemma SubInverse(a: Vec2, b: Vec2)
    ensures Sub(a, Sub(a, b)) == b
    ensures Sub(a, b) == Vec2(0.0, 0.0) <==> a == b
  {
  }
}
