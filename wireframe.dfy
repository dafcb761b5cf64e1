/** The drawing code of Eleanor/main.cpp: the free Bresenham `line` onto a FrameBuffer, and
    `wireframe`, which draws the three edges of every triangular face of a loaded mesh. */
module Wireframe {
  import opened FrameBuffers
  import Lines
  import ModelLoader

  const ScreenWidth: int := 800
  const ScreenHeight: int := 600

  /** The global `red`: Color(255, 0, 0), opaque. */
  const Red: Color := MakeColor(255, 0, 0)

  /** line(x0, y0, x1, y1, buffer, color): plots every point of the Bresenham line with
      `buffer.set`, dropping those outside the buffer. */
  method Line(x0: int, y0: int, x1: int, y1: int, fb: FrameBuffer, color: Color)
    requires fb.Valid()
    modifies fb.buffer
    ensures fb.buffer[..] == Paint(old(fb.buffer[..]), fb.width, fb.height, Lines.Points(x0, y0, x1, y1), color)
  {
    var steep, a0, b0, a1, b1 := Lines.SwapEnds(x0, y0, x1, y1);
    ghost var s := Lines.Setup(steep, a0, b0, a1, b1);
    var dx := a1 - a0;
    var dy := b1 - b0;
    var derror2 := Lines.Abs(dy) * 2;
    var error2 := 0;
    var y := b0;
    var x := a0;
    ghost var final := Paint(fb.buffer[..], fb.width, fb.height, Lines.Points(x0, y0, x1, y1), color);
    while x <= a1
      invariant Paint(fb.buffer[..], fb.width, fb.height, Lines.Walk(s, x, Lines.Cursor(y, error2)), color) == final
      decreases a1 - x + 1
    {
      ghost var c := Lines.Cursor(y, error2);
      Lines.WalkStep(s, x, c);
      PaintFirst(fb.buffer[..], fb.width, fb.height, Lines.Plot(steep, x, y), Lines.Walk(s, x + 1, Lines.Advance(c, s)), color);
      if steep {
        var _ := fb.Set(y, x, color);
      } else {
        var _ := fb.Set(x, y, color);
      }
      error2 := error2 + derror2;
      if error2 > dx {
        y := y + (if b1 > b0 then 1 else -1);
        error2 := error2 - dx * 2;
      }
      x := x + 1;
      assert Lines.Cursor(y, error2) == Lines.Advance(c, s);
    }
  }

  /** The pixel column and row of normalised device coordinates (x to the right, y up).
      Coordinates in [-1, 1] land in [0, 800] and [0, 600]: one past the last column or row
      is reachable, and `set` drops it. */
  function ScreenX(v: real): (r: int)
    ensures -1.0 <= v <= 1.0 ==> 0 <= r <= ScreenWidth
  {
    Trunc((v + 1.0) * (ScreenWidth as real) / 2.0)
  }

  function ScreenY(v: real): (r: int)
    ensures -1.0 <= v <= 1.0 ==> 0 <= r <= ScreenHeight
  {
    Trunc((-v + 1.0) * (ScreenHeight as real) / 2.0)
  }

  /** Face f of shape s exists. */
  predicate IsFace(m: ModelLoader.Model, s: int, f: int)
  {
    0 <= s < |m.shapes| && 0 <= f < |m.shapes[s]| / 3
  }

  /** Face f of shape s exists and its three corners name vertices inside `vertices`. */
  predicate FaceValid(m: ModelLoader.Model, s: int, f: int)
  {
    IsFace(m, s, f) && 3 * f + 2 < |m.shapes[s]| &&
    ModelLoader.Addressable(m.vertices, m.shapes[s][3 * f].vertexIndex) &&
    ModelLoader.Addressable(m.vertices, m.shapes[s][3 * f + 1].vertexIndex) &&
    ModelLoader.Addressable(m.vertices, m.shapes[s][3 * f + 2].vertexIndex)
  }

  /** Every whole face of every shape is valid: `wireframe` reads the vertices of its
      corners without a check. */
  ghost predicate CornersValid(m: ModelLoader.Model)
  {
    forall s, f :: IsFace(m, s, f) ==> FaceValid(m, s, f)
  }

  /** The screen position of corner k (0, 1 or 2) of face f of shape s. */
  function Corner(m: ModelLoader.Model, s: int, f: int, k: int): (p: (int, int))
    requires FaceValid(m, s, f) && 0 <= k < 3
  {
    var vi := m.shapes[s][3 * f + k].vertexIndex;
    (ScreenX(m.vertices[3 * vi]), ScreenY(m.vertices[3 * vi + 1]))
  }

  /** The points of edge k of a face: from corner k to corner (k+1)%3. */
  function EdgePoints(m: ModelLoader.Model, s: int, f: int, k: int): seq<(int, int)>
    requires FaceValid(m, s, f) && 0 <= k < 3
  {
    var p := Corner(m, s, f, k);
    var q := Corner(m, s, f, (k + 1) % 3);
    Lines.Points(p.0, p.1, q.0, q.1)
  }

  /** The points of the three edges of a face, in drawing order. */
  function FaceEdges(m: ModelLoader.Model, s: int, f: int): (r: seq<seq<(int, int)>>)
    requires FaceValid(m, s, f)
    ensures |r| == 3
  {
    [EdgePoints(m, s, f, 0), EdgePoints(m, s, f, 1), EdgePoints(m, s, f, 2)]
  }

  /** Drawing edges k, k+1, … 2 of one face. */
  function DrawFace(b: seq<Color>, w: int, h: int, m: ModelLoader.Model, s: int, f: int, k: nat): (r: seq<Color>)
    requires |b| == w * h && FaceValid(m, s, f) && k <= 3
    ensures |r| == |b|
  {
    PaintAll(b, w, h, FaceEdges(m, s, f)[k..], Red)
  }

  /** Drawing edge k and then the edges after it. */
  lemma DrawFaceStep(b: seq<Color>, w: int, h: int, m: ModelLoader.Model, s: int, f: int, k: nat)
    requires |b| == w * h && FaceValid(m, s, f) && k < 3
    ensures DrawFace(b, w, h, m, s, f, k)
         == DrawFace(Paint(b, w, h, EdgePoints(m, s, f, k), Red), w, h, m, s, f, k + 1)
  {
    var e := FaceEdges(m, s, f);
    assert e[k..][0] == EdgePoints(m, s, f, k);
    assert e[k..][1..] == e[k + 1..];
  }

  /** Drawing faces f, f+1, … of shape s. */
  function DrawShape(b: seq<Color>, w: int, h: int, m: ModelLoader.Model, s: int, f: nat): (r: seq<Color>)
    requires |b| == w * h && CornersValid(m) && 0 <= s < |m.shapes|
    ensures |r| == |b|
    decreases |m.shapes[s]| / 3 - f
  {
    if f >= |m.shapes[s]| / 3 then b else DrawShape(DrawFace(b, w, h, m, s, f, 0), w, h, m, s, f + 1)
  }

  /** Drawing shapes s, s+1, …. */
  function DrawShapes(b: seq<Color>, w: int, h: int, m: ModelLoader.Model, s: nat): (r: seq<Color>)
    requires |b| == w * h && CornersValid(m)
    ensures |r| == |b|
    decreases |m.shapes| - s
  {
    if s >= |m.shapes| then b else DrawShapes(DrawShape(b, w, h, m, s, 0), w, h, m, s + 1)
  }

  /** (px, py) lies on one of the three edges of face f of shape s. */
  predicate OnFace(m: ModelLoader.Model, s: int, f: int, px: int, py: int)
  {
    FaceValid(m, s, f) &&
    ((px, py) in EdgePoints(m, s, f, 0) || (px, py) in EdgePoints(m, s, f, 1) || (px, py) in EdgePoints(m, s, f, 2))
  }

  /** Drawing one face colours exactly the in-range pixels on its edges. */
  lemma DrawFaceEffect(b: seq<Color>, w: int, h: int, m: ModelLoader.Model, s: int, f: int, px: int, py: int)
    requires |b| == w * h && FaceValid(m, s, f) && InBounds(px, py, w, h)
    ensures Pixel(DrawFace(b, w, h, m, s, f, 0), px, py, w, h)
         == if OnFace(m, s, f, px, py) then Red else Pixel(b, px, py, w, h)
  {
    var e := FaceEdges(m, s, f);
    assert e[0..] == e;
    PaintAllEffect(b, w, h, e, Red, px, py);
    assert (exists i :: 0 <= i < |e| && (px, py) in e[i]) <==> OnFace(m, s, f, px, py) by {
      if OnFace(m, s, f, px, py) {
        if (px, py) in e[0] {
        } else if (px, py) in e[1] {
        } else {
          assert (px, py) in e[2];
        }
      }
    }
  }

  /** Drawing a shape's remaining faces colours exactly the in-range pixels of their edges. */
  lemma {:induction false} DrawShapeEffect(b: seq<Color>, w: int, h: int, m: ModelLoader.Model, s: int, f: nat, px: int, py: int)
    requires |b| == w * h && CornersValid(m) && 0 <= s < |m.shapes| && InBounds(px, py, w, h)
    ensures Pixel(DrawShape(b, w, h, m, s, f), px, py, w, h)
         == if exists g :: f <= g && OnFace(m, s, g, px, py) then Red else Pixel(b, px, py, w, h)
    decreases |m.shapes[s]| / 3 - f
  {
    if f < |m.shapes[s]| / 3 {
      assert IsFace(m, s, f);
      var b1 := DrawFace(b, w, h, m, s, f, 0);
      DrawShapeEffect(b1, w, h, m, s, f + 1, px, py);
      DrawFaceEffect(b, w, h, m, s, f, px, py);
      var here := OnFace(m, s, f, px, py);
      var later := exists g :: f + 1 <= g && OnFace(m, s, g, px, py);
      assert (exists g :: f <= g && OnFace(m, s, g, px, py)) <==> here || later by {
        if exists g :: f <= g && OnFace(m, s, g, px, py) {
          var g :| f <= g && OnFace(m, s, g, px, py);
          if g > f {
            assert f + 1 <= g && OnFace(m, s, g, px, py);
          }
        }
        if here {
          assert f <= f && OnFace(m, s, f, px, py);
        }
      }
    }
  }

  /** Drawing the remaining shapes colours exactly the in-range pixels of their face edges. */
  lemma {:induction false} DrawShapesEffect(b: seq<Color>, w: int, h: int, m: ModelLoader.Model, s: nat, px: int, py: int)
    requires |b| == w * h && CornersValid(m) && InBounds(px, py, w, h)
    ensures Pixel(DrawShapes(b, w, h, m, s), px, py, w, h)
         == if exists t, g :: s <= t && OnFace(m, t, g, px, py) then Red else Pixel(b, px, py, w, h)
    decreases |m.shapes| - s
  {
    if s < |m.shapes| {
      var b1 := DrawShape(b, w, h, m, s, 0);
      DrawShapesEffect(b1, w, h, m, s + 1, px, py);
      DrawShapeEffect(b, w, h, m, s, 0, px, py);
      if exists t, g :: s <= t && OnFace(m, t, g, px, py) {
        var t, g :| s <= t && OnFace(m, t, g, px, py);
        if t > s {
          assert s + 1 <= t && OnFace(m, t, g, px, py);
        } else {
          assert 0 <= g && OnFace(m, s, g, px, py);
        }
      }
    }
  }

  /** wireframe(inputfile, buffer): when the mesh loaded, draws in red the three edges
      k -> (k+1)%3 of every whole face of every shape; when it did not, draws nothing.
      Every in-range pixel ends up red exactly when it lies on some face edge. */
  method DrawWireframe(loaded: bool, m: ModelLoader.Model, fb: FrameBuffer)
    requires fb.Valid() && CornersValid(m)
    modifies fb.buffer
    ensures !loaded ==> fb.buffer[..] == old(fb.buffer[..])
    ensures loaded ==> fb.buffer[..] == DrawShapes(old(fb.buffer[..]), fb.width, fb.height, m, 0)
    ensures forall px, py {:trigger Pixel(fb.buffer[..], px, py, fb.width, fb.height)} ::
              loaded && InBounds(px, py, fb.width, fb.height) ==>
              Pixel(fb.buffer[..], px, py, fb.width, fb.height)
              == if exists t, g :: OnFace(m, t, g, px, py) then Red
                 else Pixel(old(fb.buffer[..]), px, py, fb.width, fb.height)
  {
    if !loaded {
      return;
    }
    ghost var start := fb.buffer[..];
    ghost var final := DrawShapes(start, fb.width, fb.height, m, 0);
    var s := 0;
    while s < |m.shapes|
      invariant DrawShapes(fb.buffer[..], fb.width, fb.height, m, s) == final
    {
      DrawShapeFaces(m, s, fb);
      s := s + 1;
    }
    forall px, py | InBounds(px, py, fb.width, fb.height)
      ensures Pixel(fb.buffer[..], px, py, fb.width, fb.height)
              == if exists t, g :: OnFace(m, t, g, px, py) then Red
                 else Pixel(start, px, py, fb.width, fb.height)
    {
      DrawShapesEffect(start, fb.width, fb.height, m, 0, px, py);
    }
  }

  /** The face loop of `wireframe` for shape s: every whole face, in order. */
  method DrawShapeFaces(m: ModelLoader.Model, s: int, fb: FrameBuffer)
    requires fb.Valid() && CornersValid(m) && 0 <= s < |m.shapes|
    modifies fb.buffer
    ensures fb.buffer[..] == DrawShape(old(fb.buffer[..]), fb.width, fb.height, m, s, 0)
  {
    ghost var final := DrawShape(fb.buffer[..], fb.width, fb.height, m, s, 0);
    for f := 0 to |m.shapes[s]| / 3
      invariant DrawShape(fb.buffer[..], fb.width, fb.height, m, s, f) == final
    {
      DrawFaceEdges(m, s, f, fb);
    }
  }

  /** The edge loop of `wireframe` for face f of shape s: edges k -> (k+1)%3 for k = 0, 1, 2. */
  method DrawFaceEdges(m: ModelLoader.Model, s: int, f: int, fb: FrameBuffer)
    requires fb.Valid() && CornersValid(m) && IsFace(m, s, f)
    modifies fb.buffer
    ensures FaceValid(m, s, f)
    ensures fb.buffer[..] == DrawFace(old(fb.buffer[..]), fb.width, fb.height, m, s, f, 0)
  {
    ghost var final := DrawFace(fb.buffer[..], fb.width, fb.height, m, s, f, 0);
    var k := 0;
    while k < 3
      invariant 0 <= k <= 3
      invariant DrawFace(fb.buffer[..], fb.width, fb.height, m, s, f, k) == final
    {
      DrawFaceStep(fb.buffer[..], fb.width, fb.height, m, s, f, k);
      var p := Corner(m, s, f, k);
      var q := Corner(m, s, f, (k + 1) % 3);
      Line(p.0, p.1, q.0, q.1, fb, Red);
      k := k + 1;
    }
  }
}
