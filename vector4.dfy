/** Four-component float vector of the math library (math/vector4.h), over reals.
    The source's scalar `/` changes the receiver in place; here it is a function giving
    the new receiver. */
module Vector4 {
  import Vector3

  /** vector4: the four-argument and copy constructors are this datatype's constructor
      and value copy; operator= is value assignment. */
  datatype Vec4 = Vec4(x: real, y: real, z: real, w: real)

  /** operator[]: 0, 1, 2 select x, y, z; every other index (negative ones too) selects w. */
  function Index(v: Vec4, i: int): (r: real)
    ensures i == 0 ==> r == v.x
    ensures i == 1 ==> r == v.y
    ensures i == 2 ==> r == v.z
    ensures i != 0 && i != 1 && i != 2 ==> r == v.w
  {
    if i == 0 then v.x else if i == 1 then v.y else if i == 2 then v.z else v.w
  }

  /** vector4(vector3, w): the three components of the vector, then w. */
  function FromVec3(v: Vector3.Vec3, w: real): (r: Vec4)
    ensures forall i :: 0 <= i < 3 ==> Index(r, i) == Vector3.Index(v, i)
    ensures Index(r, 3) == w
  {
    Vec4(v.x, v.y, v.z, w)
  }

  /** The first three components, as the source reads them back with `.x`, `.y`, `.z`. */
  function Xyz(v: Vec4): (r: Vector3.Vec3)
    ensures forall i :: 0 <= i < 3 ==> Vector3.Index(r, i) == Index(v, i)
  {
    Vector3.Vec3(v.x, v.y, v.z)
  }

  /** operator/(float): the receiver after `v / d`, all four components divided.
      Division by zero (an infinity or NaN in the source) is excluded. */
  function Div(v: Vec4, d: real): (r: Vec4)
    requires d != 0.0
    ensures forall i :: Index(r, i) == Index(v, i) / d
  {
    Vec4(v.x / d, v.y / d, v.z / d, v.w / d)
  }

  /** Dropping w after adding it gives the vector back. */
  lemma FromVec3RoundTrip(v: Vector3.Vec3, w: real)
    ensures Xyz(FromVec3(v, w)) == v
  {
  }

  /** Division in place is undone by multiplying every component back. */
  lemma DivRoundTrip(v: Vec4, d: real)
    requires d != 0.0
    ensures var r := Div(v, d); Vec4(r.x * d, r.y * d, r.z * d, r.w * d) == v
  {
  }
}
