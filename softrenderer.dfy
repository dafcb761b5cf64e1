/** The software rasterizer of Eleanor/softrenderer.h: a colour buffer and a depth buffer of
    width*height cells, a bounds-checked `set`, `clear`, Bresenham `line`, and the
    barycentric triangle fill with its depth test. Floats are reals. */
module Render {
  import opened FrameBuffers
  import Vector2
  import opened Vector3
  import Lines

  /** -std::numeric_limits<float>::max(), the depth every cell starts from. */
  const LowestDepth: real := -340282346638528859811704183484516925440.0

  function Abs(r: real): real
  {
    if r < 0.0 then -r else r
  }

  function Min(a: real, b: real): real
  {
    if a < b then a else b
  }

  function Max(a: real, b: real): real
  {
    if a < b then b else a
  }

  // ---------------------------------------------------------------- barycentric

  /** a1·b2 - a2·b1: each component of a cross product is such a 2×2 determinant. */
  function Det(a1: real, a2: real, b1: real, b2: real): real
  {
    a1 * b2 - a2 * b1
  }

  /** The z component of the cross product in `barycentric`: twice the signed area of the
      triangle's projection, whatever the point. */
  function Area(p0: Vec3, p1: Vec3, p2: Vec3): real
  {
    Det(p2.x - p0.x, p1.x - p0.x, p2.y - p0.y, p1.y - p0.y)
  }

  /** barycentric(pts, p): the weights of p with respect to the three corners, or (-1, 1, 1)
      when |u.z| < 1. Either way the three weights sum to one. */
  function Barycentric(p0: Vec3, p1: Vec3, p2: Vec3, p: Vector2.Vec2): (r: Vec3)
    ensures r.x + r.y + r.z == 1.0
  {
    Weights(Vec3(p2.x - p0.x, p1.x - p0.x, p0.x - p.x), Vec3(p2.y - p0.y, p1.y - p0.y, p0.y - p.y))
  }

  /** The weights `barycentric` derives from its two vectors a (the x parts) and b (the y
      parts) through u = a × b. The sentinel sums to one like genuine weights do. */
  function Weights(a: Vec3, b: Vec3): (r: Vec3)
    ensures r.x + r.y + r.z == 1.0
  {
    var u := Cross(a, b);
    if Abs(u.z) < 1.0 then Vec3(-1.0, 1.0, 1.0)
    else
      assert (u.x + u.y) / u.z == u.y / u.z + u.x / u.z;
      Vec3(1.0 - (u.x + u.y) / u.z, u.y / u.z, u.x / u.z)
  }

  /** A point is kept only when none of its weights is negative. */
  predicate Inside(bc: Vec3)
  {
    !(bc.x < 0.0 || bc.y < 0.0 || bc.z < 0.0)
  }

  /** The components of a × b as determinants of the components of a and b. */
  lemma CrossComponents(a: Vec3, b: Vec3)
    ensures Cross(a, b) == Vec3(Det(a.y, a.z, b.y, b.z), Det(a.z, a.x, b.z, b.x), Det(a.x, a.y, b.x, b.y))
  {
  }

  /** The degeneracy test does not depend on the point: it is |Area| < 1, and then every
      point is rejected. */
  lemma BarycentricDegenerate(p0: Vec3, p1: Vec3, p2: Vec3, p: Vector2.Vec2)
    ensures Abs(Area(p0, p1, p2)) < 1.0 ==> Barycentric(p0, p1, p2, p) == Vec3(-1.0, 1.0, 1.0)
    ensures Abs(Area(p0, p1, p2)) < 1.0 ==> !Inside(Barycentric(p0, p1, p2, p))
  {
    CrossComponents(Vec3(p2.x - p0.x, p1.x - p0.x, p0.x - p.x), Vec3(p2.y - p0.y, p1.y - p0.y, p0.y - p.y));
  }

  /** The sentinel (-1, 1, 1) is also the true weight vector of the point p1 + p2 - p0, so
      a returned sentinel does not by itself mean the triangle was degenerate; either way the
      point is rejected. */
  lemma SentinelIsAlsoAWeight(p0: Vec3, p1: Vec3, p2: Vec3)
    requires Abs(Area(p0, p1, p2)) >= 1.0
    ensures Barycentric(p0, p1, p2, Vector2.Vec2(p1.x + p2.x - p0.x, p1.y + p2.y - p0.y)) == Vec3(-1.0, 1.0, 1.0)
  {
    var p := Vector2.Vec2(p1.x + p2.x - p0.x, p1.y + p2.y - p0.y);
    SentinelQuotients(p2.x - p0.x, p1.x - p0.x, p0.x - p.x, p2.y - p0.y, p1.y - p0.y, p0.y - p.y);
  }

  /** When the third components are minus the sums of the first two, the weights are
      (-1, 1, 1). */
  lemma SentinelQuotients(a1: real, a2: real, a3: real, b1: real, b2: real, b3: real)
    requires a3 == -(a1 + a2) && b3 == -(b1 + b2) && Abs(Det(a1, a2, b1, b2)) >= 1.0
    ensures Weights(Vec3(a1, a2, a3), Vec3(b1, b2, b3)) == Vec3(-1.0, 1.0, 1.0)
  {
    CrossComponents(Vec3(a1, a2, a3), Vec3(b1, b2, b3));
    SentinelCross(a1, a2, a3, b1, b2, b3);
    SelfQuotients(Det(a1, a2, b1, b2));
  }

  /** When the third components are minus the sums of the first two, all three components
      of the cross product agree. */
  lemma SentinelCross(a1: real, a2: real, a3: real, b1: real, b2: real, b3: real)
    requires a3 == -(a1 + a2) && b3 == -(b1 + b2)
    ensures Det(a2, a3, b2, b3) == Det(a1, a2, b1, b2) && Det(a3, a1, b3, b1) == Det(a1, a2, b1, b2)
  {
    assert a2 * b3 == -(a2 * b1) - a2 * b2 && a3 * b2 == -(a1 * b2) - a2 * b2;
    assert a3 * b1 == -(a1 * b1) - a2 * b1 && a1 * b3 == -(a1 * b1) - a1 * b2;
  }

  lemma SelfQuotients(d: real)
    requires Abs(d) >= 1.0
    ensures d != 0.0 && d / d == 1.0 && 1.0 - (d + d) / d == -1.0
  {
  }

  /** Otherwise the weights sum to one and reproduce the point from the corners. */
  lemma BarycentricWeights(p0: Vec3, p1: Vec3, p2: Vec3, p: Vector2.Vec2)
    requires Abs(Area(p0, p1, p2)) >= 1.0
    ensures var bc := Barycentric(p0, p1, p2, p);
            bc.x + bc.y + bc.z == 1.0 &&
            bc.x * p0.x + bc.y * p1.x + bc.z * p2.x == p.x &&
            bc.x * p0.y + bc.y * p1.y + bc.z * p2.y == p.y
  {
    var a := Vec3(p2.x - p0.x, p1.x - p0.x, p0.x - p.x);
    var b := Vec3(p2.y - p0.y, p1.y - p0.y, p0.y - p.y);
    WeightsSolve(a, b);
    var bc := Weights(a, b);
    Reconstruct(p0.x, p1.x, p2.x, p.x, a.x, a.y, a.z, bc.x, bc.y, bc.z);
    Reconstruct(p0.y, p1.y, p2.y, p.y, b.x, b.y, b.z, bc.x, bc.y, bc.z);
  }

  /** Away from degeneracy the weights (w0, w1, w2) satisfy w0 = 1 - (w2 + w1), and (w2, w1)
      solve both edge equations: w2·a.x + w1·a.y + a.z = 0 and w2·b.x + w1·b.y + b.z = 0
      (Cramer's rule through the cross product). */
  lemma WeightsSolve(a: Vec3, b: Vec3)
    requires Abs(Det(a.x, a.y, b.x, b.y)) >= 1.0
    ensures var bc := Weights(a, b);
            bc.x == 1.0 - (bc.z + bc.y) && bc.z * a.x + bc.y * a.y + a.z == 0.0 && bc.z * b.x + bc.y * b.y + b.z == 0.0
  {
    CrossComponents(a, b);
    Vector3.CrossOrthogonal(a, b);
    var u := Cross(a, b);
    DivideOut(u.x, u.y, u.z, a.x, a.y, a.z);
    DivideOut(u.x, u.y, u.z, b.x, b.y, b.z);
    SumQuotient(u.x, u.y, u.z);
  }

  /** Dividing a vanishing combination by its last coefficient. */
  lemma DivideOut(ux: real, uy: real, uz: real, x: real, y: real, z: real)
    requires uz != 0.0 && ux * x + uy * y + uz * z == 0.0
    ensures (ux / uz) * x + (uy / uz) * y + z == 0.0
  {
    var s, t := ux / uz, uy / uz;
    assert ux == s * uz && uy == t * uz;
    assert uz * (s * x + t * y + z) == ux * x + uy * y + uz * z;
  }

  lemma SumQuotient(ux: real, uy: real, uz: real)
    requires uz != 0.0
    ensures (ux + uy) / uz == ux / uz + uy / uz
  {
  }

  /** Weights (1 - (s + t), t, s) that solve the edge equation of one coordinate reproduce
      that coordinate from the corners. */
  lemma Reconstruct(q0: real, q1: real, q2: real, q: real, d1: real, d2: real, d3: real,
                    wx: real, wy: real, wz: real)
    requires d1 == q2 - q0 && d2 == q1 - q0 && d3 == q0 - q
    requires wz * d1 + wy * d2 + d3 == 0.0
    requires wx == 1.0 - (wz + wy)
    ensures wx + wy + wz == 1.0
    ensures wx * q0 + wy * q1 + wz * q2 == q
  {
    assert wx * q0 + wy * q1 + wz * q2 == q0 + wz * d1 + wy * d2;
  }

  // ---------------------------------------------------------------- depth

  /** The interpolated depth Σ pts[i][2]*bc[i]. */
  function Depth(pts: seq<Vec3>, bc: Vec3): real
    requires |pts| == 3
  {
    PartialDepth(pts, bc, 3)
  }

  /** The first n terms of that sum, as the loop accumulates them. */
  function PartialDepth(pts: seq<Vec3>, bc: Vec3, n: nat): real
    requires n <= |pts|
  {
    if n == 0 then 0.0 else PartialDepth(pts, bc, n - 1) + Index(pts[n - 1], 2) * Index(bc, n - 1)
  }

  /** With non-negative weights summing to one, the depth lies between the corners' depths;
      at a corner it is that corner's depth. */
  lemma DepthBetween(pts: seq<Vec3>, bc: Vec3)
    requires |pts| == 3 && Inside(bc) && bc.x + bc.y + bc.z == 1.0
    ensures Min(pts[0].z, Min(pts[1].z, pts[2].z)) <= Depth(pts, bc) <= Max(pts[0].z, Max(pts[1].z, pts[2].z))
    ensures bc == Vec3(1.0, 0.0, 0.0) ==> Depth(pts, bc) == pts[0].z
    ensures bc == Vec3(0.0, 1.0, 0.0) ==> Depth(pts, bc) == pts[1].z
    ensures bc == Vec3(0.0, 0.0, 1.0) ==> Depth(pts, bc) == pts[2].z
  {
    DepthSum(pts, bc);
    ConvexBounds(pts[0].z, pts[1].z, pts[2].z, bc.x, bc.y, bc.z, Depth(pts, bc));
    DepthAtCorners(pts);
  }

  /** The weights of a single corner give that corner's depth. */
  lemma DepthAtCorners(pts: seq<Vec3>)
    requires |pts| == 3
    ensures Depth(pts, Vec3(1.0, 0.0, 0.0)) == pts[0].z
    ensures Depth(pts, Vec3(0.0, 1.0, 0.0)) == pts[1].z
    ensures Depth(pts, Vec3(0.0, 0.0, 1.0)) == pts[2].z
  {
    DepthSum(pts, Vec3(1.0, 0.0, 0.0));
    DepthSum(pts, Vec3(0.0, 1.0, 0.0));
    DepthSum(pts, Vec3(0.0, 0.0, 1.0));
  }

  /** The loop's sum written out. */
  lemma DepthSum(pts: seq<Vec3>, bc: Vec3)
    requires |pts| == 3
    ensures Depth(pts, bc) == pts[0].z * bc.x + pts[1].z * bc.y + pts[2].z * bc.z
  {
    assert PartialDepth(pts, bc, 1) == pts[0].z * bc.x;
    assert PartialDepth(pts, bc, 2) == pts[0].z * bc.x + pts[1].z * bc.y;
  }

  /** A convex combination of three values lies between their least and greatest. */
  lemma ConvexBounds(a: real, b: real, c: real, x: real, y: real, z: real, d: real)
    requires 0.0 <= x && 0.0 <= y && 0.0 <= z && x + y + z == 1.0 && d == a * x + b * y + c * z
    ensures Min(a, Min(b, c)) <= d <= Max(a, Max(b, c))
  {
    var lo := Min(a, Min(b, c));
    var hi := Max(a, Max(b, c));
    NonNegativeProduct(a - lo, x);
    NonNegativeProduct(b - lo, y);
    NonNegativeProduct(c - lo, z);
    NonNegativeProduct(hi - a, x);
    NonNegativeProduct(hi - b, y);
    NonNegativeProduct(hi - c, z);
    assert d - lo == (a - lo) * x + (b - lo) * y + (c - lo) * z;
    assert hi - d == (hi - a) * x + (hi - b) * y + (hi - c) * z;
  }

  lemma NonNegativeProduct(a: real, b: real)
    requires 0.0 <= a && 0.0 <= b
    ensures 0.0 <= a * b
  {
  }

  // ---------------------------------------------------------------- indices

  /** The depth-buffer cell the fill tests: int(p.x + p.y*width). */
  function DepthIndex(p: Vector2.Vec2, w: int): int
  {
    Trunc(p.x + p.y * (w as real))
  }

  /** The colour cell `set(p.x, p.y, …)` writes: (int)p.y*width + (int)p.x. */
  function ColourIndex(p: Vector2.Vec2, w: int): int
  {
    Trunc(p.y) * w + Trunc(p.x)
  }

  /** A point inside the clamped box. */
  predicate InBox(p: Vector2.Vec2, w: int, h: int)
  {
    0.0 <= p.x <= (w - 1) as real && 0.0 <= p.y <= (h - 1) as real
  }

  /** Inside the box both cells lie in the buffer, and `set` accepts the point. */
  lemma IndicesInRange(p: Vector2.Vec2, w: int, h: int)
    requires InBox(p, w, h)
    ensures 0 <= DepthIndex(p, w) < w * h
    ensures 0 <= ColourIndex(p, w) < w * h
    ensures InBounds(Trunc(p.x), Trunc(p.y), w, h)
  {
    DepthCellBound(p.x, p.y, w, h);
    CellIndex(Trunc(p.x), Trunc(p.y), w, h);
  }

  /** x + y·w stays within [0, w·h - 1] for a point of the box. */
  lemma DepthCellBound(x: real, y: real, w: int, h: int)
    requires 0.0 <= x <= (w - 1) as real && 0.0 <= y <= (h - 1) as real
    ensures 0.0 <= x + y * (w as real) <= (w * h - 1) as real
  {
    var wr, hr := w as real, h as real;
    NonNegativeProduct(y, wr);
    NonNegativeProduct(hr - 1.0 - y, wr);
    assert (hr - 1.0 - y) * wr == hr * wr - wr - y * wr;
    CastProduct(w, h);
  }

  lemma CastProduct(a: int, b: int)
    ensures (a * b) as real == (a as real) * (b as real)
  {
  }

  /** On whole-number coordinates the two cells agree. */
  lemma IndicesAgreeOnIntegers(p: Vector2.Vec2, w: int, h: int)
    requires InBox(p, w, h) && p.x == p.x.Floor as real && p.y == p.y.Floor as real
    ensures DepthIndex(p, w) == ColourIndex(p, w)
  {
    var x := p.x.Floor;
    var y := p.y.Floor;
    CastProduct(y, w);
    assert p.x + p.y * (w as real) == (y * w + x) as real;
  }

  /** On a fractional row they need not: in a 4-wide buffer the point (0, 0.5) tests the
      depth of cell 2 but colours cell 0. */
  lemma IndicesDisagreeOnFractions()
    ensures InBox(Vector2.Vec2(0.0, 0.5), 4, 2)
    ensures DepthIndex(Vector2.Vec2(0.0, 0.5), 4) == 2 && ColourIndex(Vector2.Vec2(0.0, 0.5), 4) == 0
  {
    assert 0.0 + 0.5 * 4.0 == 2.0;
  }

  // ---------------------------------------------------------------- the fill rule

  /** The two buffers' contents. */
  datatype Target = Target(color: seq<Color>, depth: seq<real>)

  predicate Fits(t: Target, w: int, h: int)
  {
    0 <= w && 0 <= h && |t.color| == w * h && |t.depth| == w * h
  }

  /** One point of the fill: skipped unless all weights are non-negative; otherwise, when the
      tested depth cell holds less than the interpolated z, that cell takes z and the point is
      coloured. */
  function Shade(t: Target, w: int, h: int, pts: seq<Vec3>, color: Color, p: Vector2.Vec2): (r: Target)
    requires Fits(t, w, h) && |pts| == 3 && InBox(p, w, h)
    ensures Fits(r, w, h)
  {
    IndicesInRange(p, w, h);
    var bc := Barycentric(pts[0], pts[1], pts[2], p);
    if !Inside(bc) then t
    else
      var z := Depth(pts, bc);
      var di := DepthIndex(p, w);
      if t.depth[di] < z then Target(SetPixel(t.color, Trunc(p.x), Trunc(p.y), w, h, color), t.depth[di := z])
      else t
  }

  /** The three outcomes of Shade, one by one. */
  lemma ShadeSteps(t: Target, w: int, h: int, pts: seq<Vec3>, color: Color, p: Vector2.Vec2)
    requires Fits(t, w, h) && |pts| == 3 && InBox(p, w, h)
    ensures var bc := Barycentric(pts[0], pts[1], pts[2], p);
            var di := DepthIndex(p, w);
            0 <= di < w * h &&
            (!Inside(bc) ==> Shade(t, w, h, pts, color, p) == t) &&
            (Inside(bc) && t.depth[di] < Depth(pts, bc) ==>
               Shade(t, w, h, pts, color, p) ==
               Target(SetPixel(t.color, Trunc(p.x), Trunc(p.y), w, h, color), t.depth[di := Depth(pts, bc)])) &&
            (Inside(bc) && t.depth[di] >= Depth(pts, bc) ==> Shade(t, w, h, pts, color, p) == t)
  {
    IndicesInRange(p, w, h);
  }

  /** A point changes the buffers only when it is inside and beats the stored depth; it
      changes no depth cell but the tested one, raises that one, and colours no cell but its
      own. */
  lemma ShadeEffect(t: Target, w: int, h: int, pts: seq<Vec3>, color: Color, p: Vector2.Vec2)
    requires Fits(t, w, h) && |pts| == 3 && InBox(p, w, h)
    ensures var r := Shade(t, w, h, pts, color, p);
            var bc := Barycentric(pts[0], pts[1], pts[2], p);
            0 <= DepthIndex(p, w) < w * h && 0 <= ColourIndex(p, w) < w * h &&
            (r != t ==> Inside(bc) && t.depth[DepthIndex(p, w)] < Depth(pts, bc)) &&
            (r != t ==> r.depth[DepthIndex(p, w)] == Depth(pts, bc) && r.color[ColourIndex(p, w)] == color) &&
            r.depth[DepthIndex(p, w)] >= t.depth[DepthIndex(p, w)] &&
            (forall i :: 0 <= i < w * h && i != DepthIndex(p, w) ==> r.depth[i] == t.depth[i]) &&
            (forall i :: 0 <= i < w * h && i != ColourIndex(p, w) ==> r.color[i] == t.color[i])
  {
    IndicesInRange(p, w, h);
  }

  /** The points of one column, y, y+1, … while y <= maxY, in the order the inner loop
      visits them. */
  function ScanColumn(t: Target, w: int, h: int, pts: seq<Vec3>, color: Color, x: real, y: real, maxY: real): (r: Target)
    requires Fits(t, w, h) && |pts| == 3
    requires 0.0 <= x <= (w - 1) as real && 0.0 <= y && maxY <= (h - 1) as real
    ensures Fits(r, w, h)
    decreases if y <= maxY then (maxY - y).Floor + 1 else 0
  {
    if y > maxY then t
    else ScanColumn(Shade(t, w, h, pts, color, Vector2.Vec2(x, y)), w, h, pts, color, x, y + 1.0, maxY)
  }

  /** The columns x, x+1, … while x <= maxX, each from minY. */
  function ScanRows(t: Target, w: int, h: int, pts: seq<Vec3>, color: Color, x: real, maxX: real, minY: real, maxY: real): (r: Target)
    requires Fits(t, w, h) && |pts| == 3
    requires 0.0 <= x && maxX <= (w - 1) as real && 0.0 <= minY && maxY <= (h - 1) as real
    ensures Fits(r, w, h)
    decreases if x <= maxX then (maxX - x).Floor + 1 else 0
  {
    if x > maxX then t
    else ScanRows(ScanColumn(t, w, h, pts, color, x, minY, maxY), w, h, pts, color, x + 1.0, maxX, minY, maxY)
  }

  /** Stored depth never decreases along a column. */
  lemma {:induction false} ColumnRaisesDepth(t: Target, w: int, h: int, pts: seq<Vec3>, color: Color, x: real, y: real, maxY: real)
    requires Fits(t, w, h) && |pts| == 3
    requires 0.0 <= x <= (w - 1) as real && 0.0 <= y && maxY <= (h - 1) as real
    ensures forall i :: 0 <= i < w * h ==> ScanColumn(t, w, h, pts, color, x, y, maxY).depth[i] >= t.depth[i]
    decreases if y <= maxY then (maxY - y).Floor + 1 else 0
  {
    if y <= maxY {
      var t1 := Shade(t, w, h, pts, color, Vector2.Vec2(x, y));
      ShadeEffect(t, w, h, pts, color, Vector2.Vec2(x, y));
      ColumnRaisesDepth(t1, w, h, pts, color, x, y + 1.0, maxY);
    }
  }

  /** Stored depth never decreases over the whole fill. */
  lemma {:induction false} FillRaisesDepth(t: Target, w: int, h: int, pts: seq<Vec3>, color: Color, x: real, maxX: real, minY: real, maxY: real)
    requires Fits(t, w, h) && |pts| == 3
    requires 0.0 <= x && maxX <= (w - 1) as real && 0.0 <= minY && maxY <= (h - 1) as real
    ensures forall i :: 0 <= i < w * h ==> ScanRows(t, w, h, pts, color, x, maxX, minY, maxY).depth[i] >= t.depth[i]
    decreases if x <= maxX then (maxX - x).Floor + 1 else 0
  {
    if x <= maxX {
      var t1 := ScanColumn(t, w, h, pts, color, x, minY, maxY);
      ColumnRaisesDepth(t, w, h, pts, color, x, minY, maxY);
      FillRaisesDepth(t1, w, h, pts, color, x + 1.0, maxX, minY, maxY);
    }
  }

  /** A triangle with |Area| < 1 leaves a column untouched. */
  lemma {:induction false} DegenerateColumn(t: Target, w: int, h: int, pts: seq<Vec3>, color: Color, x: real, y: real, maxY: real)
    requires Fits(t, w, h) && |pts| == 3 && Abs(Area(pts[0], pts[1], pts[2])) < 1.0
    requires 0.0 <= x <= (w - 1) as real && 0.0 <= y && maxY <= (h - 1) as real
    ensures ScanColumn(t, w, h, pts, color, x, y, maxY) == t
    decreases if y <= maxY then (maxY - y).Floor + 1 else 0
  {
    if y <= maxY {
      BarycentricDegenerate(pts[0], pts[1], pts[2], Vector2.Vec2(x, y));
      DegenerateColumn(t, w, h, pts, color, x, y + 1.0, maxY);
    }
  }

  /** A triangle with |Area| < 1 writes nothing at all. */
  lemma {:induction false} DegenerateFill(t: Target, w: int, h: int, pts: seq<Vec3>, color: Color, x: real, maxX: real, minY: real, maxY: real)
    requires Fits(t, w, h) && |pts| == 3 && Abs(Area(pts[0], pts[1], pts[2])) < 1.0
    requires 0.0 <= x && maxX <= (w - 1) as real && 0.0 <= minY && maxY <= (h - 1) as real
    ensures ScanRows(t, w, h, pts, color, x, maxX, minY, maxY) == t
    decreases if x <= maxX then (maxX - x).Floor + 1 else 0
  {
    if x <= maxX {
      DegenerateColumn(t, w, h, pts, color, x, minY, maxY);
      DegenerateFill(t, w, h, pts, color, x + 1.0, maxX, minY, maxY);
    }
  }

  // ---------------------------------------------------------------- bounding box

  /** bboxmin[j] after folding in the first n corners: start at the clamp, then
      max(0, min(bboxmin[j], pts[i][j])) per corner. */
  function LowFold(pts: seq<Vec3>, n: nat, j: int, clamp: real): real
    requires n <= |pts|
  {
    if n == 0 then clamp else Max(0.0, Min(LowFold(pts, n - 1, j, clamp), Index(pts[n - 1], j)))
  }

  /** bboxmax[j] after the first n corners: start at 0, then min(clamp, max(bboxmax[j], pts[i][j])). */
  function HighFold(pts: seq<Vec3>, n: nat, j: int, clamp: real): real
    requires n <= |pts|
  {
    if n == 0 then 0.0 else Min(clamp, Max(HighFold(pts, n - 1, j, clamp), Index(pts[n - 1], j)))
  }

  /** The folds are the box of the three corners clamped to [0, clamp]: the smallest
      coordinate raised to 0 and capped at clamp, and the largest capped at clamp and raised
      to 0. */
  lemma BoxClosedForm(pts: seq<Vec3>, j: int, clamp: real)
    requires |pts| == 3
    ensures LowFold(pts, 3, j, clamp)
         == Max(0.0, Min(clamp, Min(Index(pts[0], j), Min(Index(pts[1], j), Index(pts[2], j)))))
    ensures HighFold(pts, 3, j, clamp)
         == Min(clamp, Max(0.0, Max(Index(pts[0], j), Max(Index(pts[1], j), Index(pts[2], j)))))
    ensures 0.0 <= LowFold(pts, 3, j, clamp) && HighFold(pts, 3, j, clamp) <= clamp
  {
    var a, b, c := Index(pts[0], j), Index(pts[1], j), Index(pts[2], j);
    assert LowFold(pts, 1, j, clamp) == Max(0.0, Min(clamp, a));
    assert LowFold(pts, 2, j, clamp) == Max(0.0, Min(Max(0.0, Min(clamp, a)), b));
    assert HighFold(pts, 1, j, clamp) == Min(clamp, Max(0.0, a));
    assert HighFold(pts, 2, j, clamp) == Min(clamp, Max(Min(clamp, Max(0.0, a)), b));
  }

  // ---------------------------------------------------------------- the renderer

  /** SoftRenderer: width, height, a colour buffer and a depth buffer of width*height cells. */
  class SoftRenderer {
    var buffer: array<Color>
    var zbuffer: array<real>
    var width: int
    var height: int

    ghost predicate Valid()
      reads this
    {
      0 <= width && 0 <= height && buffer.Length == width * height && zbuffer.Length == width * height
    }

    /** The clamp vector (width-1, height-1). */
    function Clamp(): Vector2.Vec2
      reads this
    {
      Vector2.Vec2((width - 1) as real, (height - 1) as real)
    }

    /** SoftRenderer(w, h): every colour byte zero, every depth the lowest float. */
    constructor(w: int, h: int)
      requires 0 <= w && 0 <= h
      ensures Valid() && width == w && height == h && fresh(buffer) && fresh(zbuffer)
      ensures forall i :: 0 <= i < buffer.Length ==> buffer[i] == Black
      ensures forall i :: 0 <= i < zbuffer.Length ==> zbuffer[i] == LowestDepth
    {
      var z := new real[w * h];
      for i := 0 to w * h
        invariant forall k :: 0 <= k < i ==> z[k] == LowestDepth
      {
        z[i] := LowestDepth;
      }
      width := w;
      height := h;
      buffer := new Color[w * h](_ => Black);
      zbuffer := z;
    }

    /** set(x, y, c): false and no change out of range, otherwise overwrites one colour cell. */
    method Set(x: int, y: int, c: Color) returns (ok: bool)
      requires Valid()
      modifies buffer
      ensures ok <==> InBounds(x, y, width, height)
      ensures buffer[..] == SetPixel(old(buffer[..]), x, y, width, height, c)
    {
      if x < 0 || x >= width || y < 0 || y >= height {
        return false;
      }
      CellIndex(x, y, width, height);
      buffer[y * width + x] := c;
      return true;
    }

    /** clear(): zeroes every colour byte and resets every depth to the lowest float. */
    method Clear()
      requires Valid()
      modifies buffer, zbuffer
      ensures forall i :: 0 <= i < buffer.Length ==> buffer[i] == Black
      ensures forall i :: 0 <= i < zbuffer.Length ==> zbuffer[i] == LowestDepth
    {
      forall i | 0 <= i < buffer.Length {
        buffer[i] := Black;
      }
      for i := 0 to width * height
        invariant forall k :: 0 <= k < buffer.Length ==> buffer[k] == Black
        invariant forall k :: 0 <= k < i ==> zbuffer[k] == LowestDepth
      {
        zbuffer[i] := LowestDepth;
      }
    }

    /** line(x0, y0, x1, y1, color): Bresenham's line through `set`; the depth buffer is
      untouched. */
    method Line(x0: int, y0: int, x1: int, y1: int, color: Color)
      requires Valid()
      modifies buffer
      ensures buffer[..] == Paint(old(buffer[..]), width, height, Lines.Points(x0, y0, x1, y1), color)
    {
      var steep, a0, b0, a1, b1 := Lines.SwapEnds(x0, y0, x1, y1);
      ghost var s := Lines.Setup(steep, a0, b0, a1, b1);
      var dx := a1 - a0;
      var dy := b1 - b0;
      var derror2 := Lines.Abs(dy) * 2;
      var error2 := 0;
      var y := b0;
      var x := a0;
      ghost var final := Paint(buffer[..], width, height, Lines.Points(x0, y0, x1, y1), color);
      while x <= a1
        invariant Paint(buffer[..], width, height, Lines.Walk(s, x, Lines.Cursor(y, error2)), color) == final
        decreases a1 - x + 1
      {
        ghost var c := Lines.Cursor(y, error2);
        Lines.WalkStep(s, x, c);
        PaintFirst(buffer[..], width, height, Lines.Plot(steep, x, y), Lines.Walk(s, x + 1, Lines.Advance(c, s)), color);
        if steep {
          var _ := Set(y, x, color);
        } else {
          var _ := Set(x, y, color);
        }
        error2 := error2 + derror2;
        if error2 > dx {
          y := y + (if b1 > b0 then 1 else -1);
          error2 := error2 - dx * 2;
        }
        x := x + 1;
        assert Lines.Cursor(y, error2) == Lines.Advance(c, s);
      }
    }

    /** The bounding-box loops of `triangle`: both corners of the box of the three points,
      clamped to the buffer. */
    method BoundingBox(pts: seq<Vec3>) returns (bboxmin: Vector2.Vec2, bboxmax: Vector2.Vec2)
      requires Valid() && |pts| == 3
      ensures forall j :: 0 <= j < 2 ==> Vector2.Index(bboxmin, j) == LowFold(pts, 3, j, Vector2.Index(Clamp(), j))
      ensures forall j :: 0 <= j < 2 ==> Vector2.Index(bboxmax, j) == HighFold(pts, 3, j, Vector2.Index(Clamp(), j))
    {
      bboxmin := Vector2.Vec2((width - 1) as real, (height - 1) as real);
      bboxmax := Vector2.Vec2(0.0, 0.0);
      var clamp := Vector2.Vec2((width - 1) as real, (height - 1) as real);
      for i := 0 to 3
        invariant forall j :: 0 <= j < 2 ==> Vector2.Index(bboxmin, j) == LowFold(pts, i, j, Vector2.Index(clamp, j))
        invariant forall j :: 0 <= j < 2 ==> Vector2.Index(bboxmax, j) == HighFold(pts, i, j, Vector2.Index(clamp, j))
      {
        for j := 0 to 2
          invariant forall k :: 0 <= k < j ==> Vector2.Index(bboxmin, k) == LowFold(pts, i + 1, k, Vector2.Index(clamp, k))
          invariant forall k :: j <= k < 2 ==> Vector2.Index(bboxmin, k) == LowFold(pts, i, k, Vector2.Index(clamp, k))
          invariant forall k :: 0 <= k < j ==> Vector2.Index(bboxmax, k) == HighFold(pts, i + 1, k, Vector2.Index(clamp, k))
          invariant forall k :: j <= k < 2 ==> Vector2.Index(bboxmax, k) == HighFold(pts, i, k, Vector2.Index(clamp, k))
        {
          bboxmin := Vector2.Assign(bboxmin, j, Max(0.0, Min(Vector2.Index(bboxmin, j), Index(pts[i], j))));
          bboxmax := Vector2.Assign(bboxmax, j, Min(Vector2.Index(clamp, j), Max(Vector2.Index(bboxmax, j), Index(pts[i], j))));
        }
      }
    }

    /** The depth loop of triangle(): z accumulates pts[i][2]*bc[i] for i = 0, 1, 2. */
    method InterpolateDepth(pts: seq<Vec3>, bc: Vec3) returns (z: real)
      requires |pts| == 3
      ensures z == Depth(pts, bc)
      ensures Inside(bc) && bc.x + bc.y + bc.z == 1.0 ==>
                Min(pts[0].z, Min(pts[1].z, pts[2].z)) <= z <= Max(pts[0].z, Max(pts[1].z, pts[2].z))
    {
      z := 0.0;
      for i := 0 to 3
        invariant z == PartialDepth(pts, bc, i)
      {
        z := z + Index(pts[i], 2) * Index(bc, i);
      }
      if Inside(bc) && bc.x + bc.y + bc.z == 1.0 {
        DepthBetween(pts, bc);
      }
    }

    /** The body of the inner loop of `triangle` for one point p. */
    method ShadePoint(pts: seq<Vec3>, p: Vector2.Vec2, color: Color)
      requires Valid() && |pts| == 3 && InBox(p, width, height)
      modifies buffer, zbuffer
      ensures Target(buffer[..], zbuffer[..])
           == Shade(Target(old(buffer[..]), old(zbuffer[..])), width, height, pts, color, p)
    {
      ghost var t := Target(buffer[..], zbuffer[..]);
      IndicesInRange(p, width, height);
      var bc := Barycentric(pts[0], pts[1], pts[2], p);
      if bc.x < 0.0 || bc.y < 0.0 || bc.z < 0.0 {
        ShadeSteps(t, width, height, pts, color, p);
        return;
      }
      var z := InterpolateDepth(pts, bc);
      var di := DepthIndex(p, width);
      ShadeSteps(t, width, height, pts, color, p);
      if zbuffer[di] < z {
        zbuffer[di] := z;
        assert buffer[..] == t.color;
        var _ := Set(Trunc(p.x), Trunc(p.y), color);
        assert zbuffer[..] == t.depth[di := z];
        assert buffer[..] == SetPixel(t.color, Trunc(p.x), Trunc(p.y), width, height, color);
      }
    }

    /** The inner loop of triangle(): the points (p.x, y) for y = p.y, p.y+1, … while
        y <= maxY, each through the fill rule. */
    method ShadeColumn(pts: seq<Vec3>, p: Vector2.Vec2, maxY: real, color: Color)
      requires Valid() && |pts| == 3
      requires 0.0 <= p.x <= (width - 1) as real && 0.0 <= p.y && maxY <= (height - 1) as real
      modifies buffer, zbuffer
      ensures Target(buffer[..], zbuffer[..])
           == ScanColumn(Target(old(buffer[..]), old(zbuffer[..])), width, height, pts, color, p.x, p.y, maxY)
    {
      var q := p;
      while q.y <= maxY
        invariant Valid() && q.x == p.x && 0.0 <= q.y
        invariant ScanColumn(Target(buffer[..], zbuffer[..]), width, height, pts, color, q.x, q.y, maxY)
               == ScanColumn(Target(old(buffer[..]), old(zbuffer[..])), width, height, pts, color, p.x, p.y, maxY)
        decreases if q.y <= maxY then (maxY - q.y).Floor + 1 else 0
      {
        ghost var t := Target(buffer[..], zbuffer[..]);
        assert ScanColumn(t, width, height, pts, color, q.x, q.y, maxY)
            == ScanColumn(Shade(t, width, height, pts, color, q), width, height, pts, color, q.x, q.y + 1.0, maxY);
        ShadePoint(pts, q, color);
        q := q.(y := q.y + 1.0);
      }
    }

    /** triangle(pts, color): visits the points of the clamped bounding box column by column
      and applies the fill rule to each. */
    method Triangle(pts: seq<Vec3>, color: Color)
      requires Valid() && |pts| == 3
      modifies buffer, zbuffer
      ensures var c := Clamp();
              Target(buffer[..], zbuffer[..])
              == ScanRows(Target(old(buffer[..]), old(zbuffer[..])), width, height, pts, color,
                          LowFold(pts, 3, 0, c.x), HighFold(pts, 3, 0, c.x),
                          LowFold(pts, 3, 1, c.y), HighFold(pts, 3, 1, c.y))
      ensures forall i :: 0 <= i < zbuffer.Length ==> zbuffer[i] >= old(zbuffer[i])
    {
      var bboxmin, bboxmax := BoundingBox(pts);
      BoxClosedForm(pts, 0, Clamp().x);
      BoxClosedForm(pts, 1, Clamp().y);
      assert Vector2.Index(bboxmin, 0) == bboxmin.x && Vector2.Index(bboxmin, 1) == bboxmin.y;
      assert Vector2.Index(bboxmax, 0) == bboxmax.x && Vector2.Index(bboxmax, 1) == bboxmax.y;
      ghost var start := Target(buffer[..], zbuffer[..]);
      ghost var final := ScanRows(start, width, height, pts, color, bboxmin.x, bboxmax.x, bboxmin.y, bboxmax.y);
      FillRaisesDepth(start, width, height, pts, color, bboxmin.x, bboxmax.x, bboxmin.y, bboxmax.y);
      var p := Vector2.Vec2(bboxmin.x, 0.0);
      while p.x <= bboxmax.x
        invariant Valid() && bboxmin.x <= p.x
        invariant ScanRows(Target(buffer[..], zbuffer[..]), width, height, pts, color, p.x, bboxmax.x, bboxmin.y, bboxmax.y) == final
        decreases if p.x <= bboxmax.x then (bboxmax.x - p.x).Floor + 1 else 0
      {
        ghost var t := Target(buffer[..], zbuffer[..]);
        assert ScanRows(t, width, height, pts, color, p.x, bboxmax.x, bboxmin.y, bboxmax.y)
            == ScanRows(ScanColumn(t, width, height, pts, color, p.x, bboxmin.y, bboxmax.y),
                        width, height, pts, color, p.x + 1.0, bboxmax.x, bboxmin.y, bboxmax.y);
        p := p.(y := bboxmin.y);
        ShadeColumn(pts, p, bboxmax.y, color);
        p := p.(x := p.x + 1.0);
      }
    }
  }
}
