/** The mesh accessors of Eleanor/ModelLoader.h. The mesh is what the OBJ loader fills in:
    flat coordinate arrays holding three floats per vertex and per normal, and one list of
    corner indices per shape, three corners per triangular face. */
module ModelLoader {
  import Vector3
  import Vector4

  /** tinyobj::index_t: the vertex, normal and texture-coordinate indices of one corner. */
  datatype Index = Index(vertexIndex: int, normalIndex: int, texcoordIndex: int)

  /** The loaded mesh (`attrib.vertices`, `attrib.normals` and each shape's `mesh.indices`). */
  datatype Model = Model(vertices: seq<real>, normals: seq<real>, shapes: seq<seq<Index>>)

  /** The flat layout of a coordinate array: x, y, z of each entry in turn. */
  function Flatten(ps: seq<Vector3.Vec3>): (r: seq<real>)
    ensures |r| == 3 * |ps|
  {
    if ps == [] then [] else [ps[0].x, ps[0].y, ps[0].z] + Flatten(ps[1..])
  }

  /** Entry i of a flattened array occupies positions 3i, 3i+1 and 3i+2. */
  lemma {:induction false} FlattenAt(ps: seq<Vector3.Vec3>, i: int)
    requires 0 <= i < |ps|
    ensures Flatten(ps)[3 * i] == ps[i].x
    ensures Flatten(ps)[3 * i + 1] == ps[i].y
    ensures Flatten(ps)[3 * i + 2] == ps[i].z
  {
    if i > 0 {
      FlattenAt(ps[1..], i - 1);
      assert Flatten(ps) == [ps[0].x, ps[0].y, ps[0].z] + Flatten(ps[1..]);
    }
  }

  /** getIndexSize(): the number of corner indices of the first shape. */
  function GetIndexSize(m: Model): (n: nat)
    requires |m.shapes| > 0
    ensures n == |m.shapes[0]|
  {
    |m.shapes[0]|
  }

  /** The number of whole faces: getIndexSize()/3. */
  function FaceCount(m: Model): (n: nat)
    requires |m.shapes| > 0
    ensures 3 * n <= GetIndexSize(m) < 3 * n + 3
  {
    GetIndexSize(m) / 3
  }

  /** getIndex(nface, nthvert): corner 3*nface + nthvert of the first shape. Not
      bounds-checked, so the position must be in range; the result is always one of the
      first shape's index entries, never one of another shape's. */
  function GetIndex(m: Model, nface: int, nthvert: int): (r: Index)
    requires |m.shapes| > 0 && 0 <= 3 * nface + nthvert < |m.shapes[0]|
    ensures r in m.shapes[0]
  {
    m.shapes[0][3 * nface + nthvert]
  }

  /** Every corner of every whole face can be looked up. */
  lemma FaceCornersInRange(m: Model, nface: int, nthvert: int)
    requires |m.shapes| > 0 && 0 <= nface < FaceCount(m) && 0 <= nthvert < 3
    ensures 0 <= 3 * nface + nthvert < |m.shapes[0]|
  {
  }

  /** A vertex id whose three coordinates lie inside a flat array. */
  predicate Addressable(coords: seq<real>, vid: int)
  {
    0 <= vid && 3 * vid + 2 < |coords|
  }

  /** getVertex(vid): the three coordinates of the vertex with w = 1. */
  function GetVertex(m: Model, vid: int): (r: Vector4.Vec4)
    requires Addressable(m.vertices, vid)
    ensures r.w == 1.0
  {
    Vector4.Vec4(m.vertices[3 * vid], m.vertices[3 * vid + 1], m.vertices[3 * vid + 2], 1.0)
  }

  /** getNormal(vid): the three coordinates of the normal, component k from position
      3*vid + k of the flat array. */
  function GetNormal(m: Model, vid: int): (r: Vector3.Vec3)
    requires Addressable(m.normals, vid)
    ensures forall k :: 0 <= k < 3 ==> Vector3.Index(r, k) == m.normals[3 * vid + k]
  {
    Vector3.Vec3(m.normals[3 * vid], m.normals[3 * vid + 1], m.normals[3 * vid + 2])
  }

  /** Over a flattened vertex array, getVertex(i) is the i-th point in homogeneous form. */
  lemma VertexOfFlattened(ps: seq<Vector3.Vec3>, normals: seq<real>, shapes: seq<seq<Index>>, vid: int)
    requires 0 <= vid < |ps|
    ensures Addressable(Flatten(ps), vid)
    ensures GetVertex(Model(Flatten(ps), normals, shapes), vid) == Vector4.FromVec3(ps[vid], 1.0)
  {
    FlattenAt(ps, vid);
  }

  /** Over a flattened normal array, getNormal(i) is the i-th normal. */
  lemma NormalOfFlattened(vertices: seq<real>, ns: seq<Vector3.Vec3>, shapes: seq<seq<Index>>, vid: int)
    requires 0 <= vid < |ns|
    ensures Addressable(Flatten(ns), vid)
    ensures GetNormal(Model(vertices, Flatten(ns), shapes), vid) == ns[vid]
  {
    FlattenAt(ns, vid);
  }
}
