/** The two shaders of Eleanor/shaders.h. The vertex stage of each looks up one corner of a
    face, writes that corner's slot of its per-corner ("varying") arrays and returns the
    clip-space position; the fragment stage blends the three slots with barycentric weights.
    IShader's shared members (the model, the transforms, the light, the camera) are fields of
    each class. Colour arithmetic, texture sampling and `pow` are not modelled: the fragment
    stages return the blended values and the lighting factors they feed into the colour. */
module Shaders {
  import Vector2
  import opened Vector3
  import Vector4
  import Square
  import Matrix33
  import Matrix44
  import ModelLoader

  /** Transforms (transform.h): the matrices the shaders read. */
  datatype Transforms = Transforms(MVP: Matrix44.Mat44, MVP_IT: Matrix44.Mat44, viewport: Matrix44.Mat44,
                                   view: Matrix44.Mat44, projection: Matrix44.Mat44, model: Matrix44.Mat44)

  /** The operations the shaders call that the math and model headers do not define:
      Model::getUV, Model::getTangent, the texture lookup Model::getNormal(u, v),
      matrix33::inverse, the three-vector matrix33 constructor, and the reciprocal length
      that normalize() multiplies by. */
  datatype Externals = Externals(
    getUV: int -> Vector2.Vec2,
    getTangent: int -> Vec3,
    normalAt: (real, real) -> Vec3,
    inverse: Matrix33.Mat33 -> Matrix33.Mat33,
    frame: (Vec3, Vec3, Vec3) -> Matrix33.Mat33,
    invLength: Vec3 -> real)

  // ---------------------------------------------------------------- corner lookup

  /** A corner the vertex stage can read: its index lies in the first shape, and its vertex
      and normal ids address whole triples of the coordinate arrays. */
  predicate CornerReadable(m: ModelLoader.Model, nface: int, nthvert: int)
  {
    |m.shapes| > 0 && 0 <= 3 * nface + nthvert < |m.shapes[0]| &&
    ModelLoader.Addressable(m.vertices, ModelLoader.GetIndex(m, nface, nthvert).vertexIndex) &&
    ModelLoader.Addressable(m.normals, ModelLoader.GetIndex(m, nface, nthvert).normalIndex)
  }

  /** gl_Position = viewport * MVP * pos: the product of the two matrices applied to the
      position, which is the position taken through MVP and then through the viewport. */
  function ClipPosition(t: Transforms, pos: Vector4.Vec4): (r: Vector4.Vec4)
    ensures r == Matrix44.MulVec(t.viewport, Matrix44.MulVec(t.MVP, pos))
  {
    Matrix44.MulVecAssociative(t.viewport, t.MVP, pos);
    Matrix44.MulVec(Matrix44.Mul(t.viewport, t.MVP), pos)
  }

  /** The normal of TestShader::vertex: (n, 0) taken through MVP_IT, first three components.
      Only the upper-left 3×3 block of the matrix takes part. */
  function TransformNormal(m: Matrix44.Mat44, n: Vec3): (r: Vec3)
    ensures forall i :: 0 <= i < 3 ==> Index(r, i) == m[i][0] * n.x + m[i][1] * n.y + m[i][2] * n.z
  {
    Vector4.Xyz(Matrix44.MulVec(m, Vector4.FromVec3(n, 0.0)))
  }

  /** The translation column and the bottom row of MVP_IT do not affect the normal. */
  lemma NormalIgnoresTranslation(m: Matrix44.Mat44, m': Matrix44.Mat44, n: Vec3)
    requires forall i, j :: 0 <= i < 3 && 0 <= j < 3 ==> m[i][j] == m'[i][j]
    ensures TransformNormal(m, n) == TransformNormal(m', n)
  {
    var a := TransformNormal(m, n);
    var b := TransformNormal(m', n);
    assert Index(a, 0) == Index(b, 0) && Index(a, 1) == Index(b, 1) && Index(a, 2) == Index(b, 2);
  }

  /** matrix33(matrix44): the upper-left 3×3 block. */
  function Upper(mm: Matrix44.Mat44): (r: Matrix33.Mat33)
    ensures forall i, j :: 0 <= i < 3 && 0 <= j < 3 ==> r[i][j] == mm[i][j]
  {
    seq(3, i requires 0 <= i < 3 => seq(3, j requires 0 <= j < 3 => mm[i][j]))
  }

  // ---------------------------------------------------------------- interpolation

  /** The barycentric weight vector that selects corner k alone. */
  function Unit(k: int): Vec3
  {
    if k == 0 then Vec3(1.0, 0.0, 0.0) else if k == 1 then Vec3(0.0, 1.0, 0.0) else Vec3(0.0, 0.0, 1.0)
  }

  /** The fragment stages' blend of three vector3 slots: Σ slot[i]*bc[i], per component.
      The weights of a single corner give that corner's value back. */
  function Interpolate(v: seq<Vec3>, bc: Vec3): (r: Vec3)
    requires |v| == 3
    ensures forall k :: 0 <= k < 3 && bc == Unit(k) ==> r == v[k]
  {
    Vec3(v[0].x * bc.x + v[1].x * bc.y + v[2].x * bc.z,
         v[0].y * bc.x + v[1].y * bc.y + v[2].y * bc.z,
         v[0].z * bc.x + v[1].z * bc.y + v[2].z * bc.z)
  }

  /** The same blend of three vector2 slots. */
  function Interpolate2(v: seq<Vector2.Vec2>, bc: Vec3): (r: Vector2.Vec2)
    requires |v| == 3
    ensures forall k :: 0 <= k < 3 && bc == Unit(k) ==> r == v[k]
  {
    Vector2.Vec2(v[0].x * bc.x + v[1].x * bc.y + v[2].x * bc.z,
                 v[0].y * bc.x + v[1].y * bc.y + v[2].y * bc.z)
  }

  /** With weights summing to one, three equal slots blend to their common value. */
  lemma InterpolateConstant(v: seq<Vec3>, bc: Vec3)
    requires |v| == 3 && v[0] == v[1] == v[2] && bc.x + bc.y + bc.z == 1.0
    ensures Interpolate(v, bc) == v[0]
  {
    var c := v[0];
    assert c.x * bc.x + c.x * bc.y + c.x * bc.z == c.x * (bc.x + bc.y + bc.z);
    assert c.y * bc.x + c.y * bc.y + c.y * bc.z == c.y * (bc.x + bc.y + bc.z);
    assert c.z * bc.x + c.z * bc.y + c.z * bc.z == c.z * (bc.x + bc.y + bc.z);
  }

  /** std::max(0, x) and std::max(x, 0): the lighting factor clamped at zero. It is never
      negative, and it is the dot product itself exactly when that is not negative. */
  function ClampedFactor(x: real): (d: real)
    ensures 0.0 <= d && x <= d
    ensures d == x <==> 0.0 <= x
    ensures x < 0.0 <==> d == 0.0 && d != x
  {
    if 0.0 < x then x else 0.0
  }

  // ---------------------------------------------------------------- tangent frame

  /** Lines 95-99 as written: `T - N * vector3Dot(T, N)` takes the dot product first and then
      the scalar `*` scales N itself, so T loses the N component but N is left scaled by
      T·N, and the bitangent is built from the scaled N. The triple is (T, B, N). */
  function FrameAsWritten(t: Vec3, n: Vec3, invLength: Vec3 -> real): (r: (Vec3, Vec3, Vec3))
    ensures r.2 == Scale(n, Dot(t, n))
    ensures r.1 == Cross(r.2, r.0)
  {
    var scaledN := Scale(n, Dot(t, n));
    var t1 := Normalize(Sub(t, scaledN), invLength);
    (t1, Cross(scaledN, t1), scaledN)
  }

  /** When the tangent is already orthogonal to the normal, the written code zeroes both the
      normal and the bitangent of the frame, and T is only normalised again. */
  lemma AsWrittenCollapsesFrame(t: Vec3, n: Vec3, invLength: Vec3 -> real)
    requires Dot(t, n) == 0.0
    ensures FrameAsWritten(t, n, invLength).2 == Zero
    ensures FrameAsWritten(t, n, invLength).1 == Zero
    ensures FrameAsWritten(t, n, invLength).0 == Normalize(t, invLength)
  {
    assert Sub(t, Scale(n, 0.0)) == t;
  }

  /** The smallest such input: T = (1, 0, 0) and a unit N = (0, 0, 1). */
  lemma AsWrittenCollapsesUnitFrame(invLength: Vec3 -> real)
    ensures FrameAsWritten(Vec3(1.0, 0.0, 0.0), Vec3(0.0, 0.0, 1.0), invLength).2 == Zero
  {
    AsWrittenCollapsesFrame(Vec3(1.0, 0.0, 0.0), Vec3(0.0, 0.0, 1.0), invLength);
  }

  /** The Gram-Schmidt step lines 95-99 evidently intend: T - (T·N)N, normalised, with N kept
      as it is and B = N × T. A reference for FrameAsWritten; the shader itself runs the
      as-written step. */
  function Frame(t: Vec3, n: Vec3, invLength: Vec3 -> real): (r: (Vec3, Vec3, Vec3))
    ensures r.2 == n
    ensures Dot(n, n) == 1.0 ==> Dot(r.0, r.2) == 0.0 && Dot(r.1, r.0) == 0.0 && Dot(r.1, r.2) == 0.0
  {
    var t1 := Normalize(Sub(t, Scale(n, Dot(t, n))), invLength);
    FrameOrthogonal(t, n, invLength(Sub(t, Scale(n, Dot(t, n)))));
    (t1, Cross(n, t1), n)
  }

  /** Against a unit N, removing the N component and rescaling leaves T orthogonal to N, and
      N × T is orthogonal to both. */
  lemma FrameOrthogonal(t: Vec3, n: Vec3, s: real)
    ensures var t1 := Scale(Sub(t, Scale(n, Dot(t, n))), s);
            (Dot(n, n) == 1.0 ==> Dot(t1, n) == 0.0) &&
            Dot(Cross(n, t1), t1) == 0.0 && Dot(Cross(n, t1), n) == 0.0
  {
    var d := Dot(t, n);
    var u := Sub(t, Scale(n, d));
    var t1 := Scale(u, s);
    RejectionDot(t, n);
    ScaledDot(u, n, s);
    if Dot(n, n) == 1.0 {
      assert Dot(u, n) == 0.0;
    }
    CrossOrthogonal(n, t1);
  }

  /** (t - (t·n)n)·n = t·n - (t·n)(n·n). */
  lemma RejectionDot(t: Vec3, n: Vec3)
    ensures Dot(Sub(t, Scale(n, Dot(t, n))), n) == Dot(t, n) - Dot(t, n) * Dot(n, n)
  {
    var d := Dot(t, n);
    DotSub(t, Scale(n, d), n);
    ScaledDot(n, n, d);
  }

  /** (s·u)·n = s(u·n). */
  lemma ScaledDot(u: Vec3, n: Vec3, s: real)
    ensures Dot(Scale(u, s), n) == s * Dot(u, n)
  {
    var t1 := Scale(u, s);
    assert t1.x == u.x * s && t1.y == u.y * s && t1.z == u.z * s;
    FactorOut(u.x, u.y, u.z, n.x, n.y, n.z, s);
  }

  /** Component by component: (s·u)·n = s(u·n). */
  lemma FactorOut(ux: real, uy: real, uz: real, nx: real, ny: real, nz: real, s: real)
    ensures (ux * s) * nx + (uy * s) * ny + (uz * s) * nz == s * (ux * nx + uy * ny + uz * nz)
  {
  }

  /** normalMatrix of TangentShader::vertex: the model matrix's 3×3 block, inverted, transposed. */
  function NormalMatrix(t: Transforms, ext: Externals): Matrix33.Mat33
  {
    Square.Transposed(ext.inverse(Upper(t.model)), 3)
  }

  /** T before the frame step: the face's tangent through normalMatrix, normalised. */
  function CornerTangent(t: Transforms, ext: Externals, nface: int): Vec3
  {
    Normalize(Matrix33.MulVec(NormalMatrix(t, ext), ext.getTangent(nface)), ext.invLength)
  }

  /** N before the frame step: the corner's normal through normalMatrix, normalised. */
  function CornerNormal(m: ModelLoader.Model, t: Transforms, ext: Externals, nface: int, nthvert: int): Vec3
    requires CornerReadable(m, nface, nthvert)
  {
    var idx := ModelLoader.GetIndex(m, nface, nthvert);
    Normalize(Matrix33.MulVec(NormalMatrix(t, ext), ModelLoader.GetNormal(m, idx.normalIndex)), ext.invLength)
  }

  /** The transposed TBN matrix of TangentShader::vertex for one corner, built from the frame
      as lines 95-101 compute it: T, the bitangent of the scaled N, and the scaled N. When the
      corner's T is already orthogonal to its N, both B and N reach matrix33(T, B, N) as zero
      vectors and only T survives. */
  function TangentBasis(m: ModelLoader.Model, t: Transforms, ext: Externals, nface: int, nthvert: int): (r: Matrix33.Mat33)
    requires CornerReadable(m, nface, nthvert)
    ensures var tt := CornerTangent(t, ext, nface);
            Dot(tt, CornerNormal(m, t, ext, nface, nthvert)) == 0.0 ==>
              r == Square.Transposed(ext.frame(Normalize(tt, ext.invLength), Zero, Zero), 3)
  {
    var tt := CornerTangent(t, ext, nface);
    var nn := CornerNormal(m, t, ext, nface, nthvert);
    var f := FrameAsWritten(tt, nn, ext.invLength);
    if Dot(tt, nn) == 0.0 then
      AsWrittenCollapsesFrame(tt, nn, ext.invLength);
      Square.Transposed(ext.frame(f.0, f.1, f.2), 3)
    else
      Square.Transposed(ext.frame(f.0, f.1, f.2), 3)
  }

  /** The corner's position as a vector3 (the first three components of getVertex). */
  function CornerPosition(m: ModelLoader.Model, nface: int, nthvert: int): Vec3
    requires CornerReadable(m, nface, nthvert)
  {
    Vector4.Xyz(ModelLoader.GetVertex(m, ModelLoader.GetIndex(m, nface, nthvert).vertexIndex))
  }

  // ---------------------------------------------------------------- TestShader

  /** What TestShader::fragment computes before it reads the texture: the blended normal and
      texture coordinate and the diffuse factor. */
  datatype Shading = Shading(normal: Vec3, uv: Vector2.Vec2, diffuse: real)

  class TestShader {
    var modelObj: ModelLoader.Model
    var transforms: Transforms
    var light: Vec3
    const getUV: int -> Vector2.Vec2
    var uvs: array<Vector2.Vec2>
    var normals: array<Vec3>

    ghost predicate Valid()
      reads this
    {
      uvs.Length == 3 && normals.Length == 3
    }

    /** The slot arrays start with whatever the memory held, given as `staleUV` and
        `staleNormal`. */
    constructor(modelObj: ModelLoader.Model, transforms: Transforms, light: Vec3, getUV: int -> Vector2.Vec2,
                staleUV: Vector2.Vec2, staleNormal: Vec3)
      ensures Valid() && fresh(uvs) && fresh(normals)
      ensures this.modelObj == modelObj && this.transforms == transforms && this.light == light && this.getUV == getUV
      ensures uvs[..] == [staleUV, staleUV, staleUV] && normals[..] == [staleNormal, staleNormal, staleNormal]
    {
      this.modelObj := modelObj;
      this.transforms := transforms;
      this.light := light;
      this.getUV := getUV;
      uvs := new Vector2.Vec2[3](_ => staleUV);
      normals := new Vec3[3](_ => staleNormal);
    }

    /** vertex(nface, nthvert): writes slot nthvert of normals (the normal through MVP_IT) and
        of uvs, leaves the other two slots, and returns viewport·MVP·position. */
    method Vertex(nface: int, nthvert: int) returns (glPosition: Vector4.Vec4)
      requires Valid() && 0 <= nthvert < 3 && CornerReadable(modelObj, nface, nthvert)
      modifies uvs, normals
      ensures var idx := ModelLoader.GetIndex(modelObj, nface, nthvert);
              glPosition == Matrix44.MulVec(transforms.viewport,
                              Matrix44.MulVec(transforms.MVP, ModelLoader.GetVertex(modelObj, idx.vertexIndex))) &&
              normals[..] == old(normals[..])[nthvert := TransformNormal(transforms.MVP_IT, ModelLoader.GetNormal(modelObj, idx.normalIndex))] &&
              uvs[..] == old(uvs[..])[nthvert := getUV(idx.texcoordIndex)]
    {
      var idx := ModelLoader.GetIndex(modelObj, nface, nthvert);
      var pos := Vector4.FromVec3(Vector4.Xyz(ModelLoader.GetVertex(modelObj, idx.vertexIndex)), 1.0);
      glPosition := ClipPosition(transforms, pos);
      var normal := ModelLoader.GetNormal(modelObj, idx.normalIndex);
      var nn := Matrix44.MulVec(transforms.MVP_IT, Vector4.FromVec3(normal, 0.0));
      normals[nthvert] := Vec3(nn.x, nn.y, nn.z);
      uvs[nthvert] := getUV(idx.texcoordIndex);
    }

    /** fragment(bc, c): the blended normal and texture coordinate, and the diffuse factor
        max(0, n·light), which is never negative. The weights of one corner give that
        corner's slots back. */
    function Fragment(bc: Vec3): (s: Shading)
      requires Valid()
      reads this, uvs, normals
      ensures 0.0 <= s.diffuse && Dot(s.normal, light) <= s.diffuse
      ensures forall k :: 0 <= k < 3 && bc == Unit(k) ==> s.normal == normals[k] && s.uv == uvs[k]
    {
      var n := Interpolate(normals[..], bc);
      Shading(n, Interpolate2(uvs[..], bc), ClampedFactor(Dot(n, light)))
    }
  }

  // ---------------------------------------------------------------- TangentShader

  /** What TangentShader::fragment computes before colour arithmetic: the blended texture
      coordinate, the normalised light and view directions in tangent space, the diffuse
      factor max(lightDir·normal, 0) and the specular base max(normal·halfway, 0) that
      is raised to the 32nd power. */
  datatype TangentShading = TangentShading(uv: Vector2.Vec2, lightDir: Vec3, viewDir: Vec3, diffuse: real, specularBase: real)

  class TangentShader {
    var modelObj: ModelLoader.Model
    var transforms: Transforms
    var light: Vec3
    var cameraPos: Vec3
    const ext: Externals
    var uvs: array<Vector2.Vec2>
    var normals: array<Vec3>
    var tangentLightPoss: array<Vec3>
    var tangentViewPoss: array<Vec3>
    var tangentFragPoss: array<Vec3>

    ghost predicate Valid()
      reads this
    {
      uvs.Length == 3 && normals.Length == 3 &&
      tangentLightPoss.Length == 3 && tangentViewPoss.Length == 3 && tangentFragPoss.Length == 3 &&
      normals != tangentLightPoss && normals != tangentViewPoss && normals != tangentFragPoss &&
      tangentLightPoss != tangentViewPoss && tangentLightPoss != tangentFragPoss &&
      tangentViewPoss != tangentFragPoss
    }

    /** The slot arrays start with whatever the memory held, given as `staleUV` and `stale`. */
    constructor(modelObj: ModelLoader.Model, transforms: Transforms, light: Vec3, cameraPos: Vec3, ext: Externals,
                staleUV: Vector2.Vec2, stale: Vec3)
      ensures Valid() && fresh(uvs) && fresh(normals) && fresh(tangentLightPoss) && fresh(tangentViewPoss) && fresh(tangentFragPoss)
      ensures this.modelObj == modelObj && this.transforms == transforms && this.light == light &&
              this.cameraPos == cameraPos && this.ext == ext
      ensures uvs[..] == [staleUV, staleUV, staleUV] && normals[..] == [stale, stale, stale]
      ensures tangentLightPoss[..] == tangentViewPoss[..] == tangentFragPoss[..] == [stale, stale, stale]
    {
      this.modelObj := modelObj;
      this.transforms := transforms;
      this.light := light;
      this.cameraPos := cameraPos;
      this.ext := ext;
      uvs := new Vector2.Vec2[3](_ => staleUV);
      normals := new Vec3[3](_ => stale);
      tangentLightPoss := new Vec3[3](_ => stale);
      tangentViewPoss := new Vec3[3](_ => stale);
      tangentFragPoss := new Vec3[3](_ => stale);
    }

    /** vertex(nface, nthvert): writes slot nthvert of uvs and of the three tangent-space
        arrays (light, camera and the model-transformed position, each through the transposed
        TBN of the frame as written, whose N is scaled by T·N), never writes normals, and
        returns viewport·MVP·position. */
    method Vertex(nface: int, nthvert: int) returns (glPosition: Vector4.Vec4)
      requires Valid() && 0 <= nthvert < 3 && CornerReadable(modelObj, nface, nthvert)
      modifies uvs, tangentLightPoss, tangentViewPoss, tangentFragPoss
      ensures var idx := ModelLoader.GetIndex(modelObj, nface, nthvert);
              var tbn := TangentBasis(modelObj, transforms, ext, nface, nthvert);
              var pos := CornerPosition(modelObj, nface, nthvert);
              glPosition == Matrix44.MulVec(transforms.viewport,
                              Matrix44.MulVec(transforms.MVP, ModelLoader.GetVertex(modelObj, idx.vertexIndex))) &&
              uvs[..] == old(uvs[..])[nthvert := ext.getUV(idx.texcoordIndex)] &&
              tangentLightPoss[..] == old(tangentLightPoss[..])[nthvert := Matrix33.MulVec(tbn, light)] &&
              tangentViewPoss[..] == old(tangentViewPoss[..])[nthvert := Matrix33.MulVec(tbn, cameraPos)] &&
              tangentFragPoss[..] == old(tangentFragPoss[..])[nthvert := Matrix33.MulVec(tbn, Matrix33.MulVec(Upper(transforms.model), pos))]
    {
      var idx := ModelLoader.GetIndex(modelObj, nface, nthvert);
      var pos := Vector4.Xyz(ModelLoader.GetVertex(modelObj, idx.vertexIndex));
      var model33 := Matrix33.FromMatrix44(transforms.model);
      var fragPos := Matrix33.MulVec(model33, pos);
      var normal := ModelLoader.GetNormal(modelObj, idx.normalIndex);
      uvs[nthvert] := ext.getUV(idx.texcoordIndex);

      var normalMatrix := Matrix33.FromMatrix44(transforms.model);
      var inverted := ext.inverse(normalMatrix);
      var transposed := Square.Transpose(inverted, 3);
      var tangent := ext.getTangent(nface);
      var t := Normalize(Matrix33.MulVec(transposed, tangent), ext.invLength);
      var n := Normalize(Matrix33.MulVec(transposed, normal), ext.invLength);
      var f := FrameAsWritten(t, n, ext.invLength);
      var tbn := Square.Transpose(ext.frame(f.0, f.1, f.2), 3);

      tangentLightPoss[nthvert] := Matrix33.MulVec(tbn, light);
      tangentViewPoss[nthvert] := Matrix33.MulVec(tbn, cameraPos);
      tangentFragPoss[nthvert] := Matrix33.MulVec(tbn, fragPos);
      glPosition := ClipPosition(transforms, Vector4.FromVec3(pos, 1.0));

      UpperIsCopy(transforms.model, model33);
      UpperIsCopy(transforms.model, normalMatrix);
    }

    /** fragment(bc, c) before the colour arithmetic. Both lighting factors are clamped at
        zero; at a corner's weights, the light direction is that corner's light minus its
        fragment position, normalised. */
    function Fragment(bc: Vec3): (s: TangentShading)
      requires Valid()
      reads this, uvs, tangentLightPoss, tangentViewPoss, tangentFragPoss
      ensures 0.0 <= s.diffuse && 0.0 <= s.specularBase
      ensures forall k :: 0 <= k < 3 && bc == Unit(k) ==>
                s.uv == uvs[k] &&
                s.lightDir == Normalize(Sub(tangentLightPoss[k], tangentFragPoss[k]), ext.invLength) &&
                s.viewDir == Sub(tangentViewPoss[k], tangentFragPoss[k])
    {
      var uv := Interpolate2(uvs[..], bc);
      var normal := Normalize(ext.normalAt(uv.x, uv.y), ext.invLength);
      var lightPos := Interpolate(tangentLightPoss[..], bc);
      var viewPos := Interpolate(tangentViewPoss[..], bc);
      var fragPos := Interpolate(tangentFragPoss[..], bc);
      var lightDir := Normalize(Sub(lightPos, fragPos), ext.invLength);
      var viewDir := Sub(viewPos, fragPos);
      var halfwayDir := Normalize(Add(lightDir, viewDir), ext.invLength);
      TangentShading(uv, lightDir, viewDir, ClampedFactor(Dot(lightDir, normal)), ClampedFactor(Dot(normal, halfwayDir)))
    }
  }

  /** A matrix33 copied out of a matrix44 is its upper-left block. */
  lemma UpperIsCopy(mm: Matrix44.Mat44, r: Matrix33.Mat33)
    requires forall i, j :: 0 <= i < 3 && 0 <= j < 3 ==> r[i][j] == mm[i][j]
    ensures r == Upper(mm)
  {
    var u := Upper(mm);
    forall i | 0 <= i < 3
      ensures r[i] == u[i]
    {
    }
  }
}
