/** The colour buffer of the wireframe viewer (Eleanor/framebuffer.h): a row-major array of
    RGBA pixels with a bounds-checked `set`. The pixel rule and its painting fold are shared
    with the rasterizer, whose `set` is the same code. */
module FrameBuffers {

  /** SDL's Uint8. */
  newtype Uint8 = b: int | 0 <= b < 256

  /** Color: four 8-bit channels. */
  datatype Color = Color(r: Uint8, g: Uint8, b: Uint8, a: Uint8)

  /** What memset(…, 0, …) leaves in a pixel: all four bytes zero. */
  const Black: Color := Color(0, 0, 0, 0)

  /** Color(rr, gg, bb, aa = 255). */
  function MakeColor(rr: Uint8, gg: Uint8, bb: Uint8, aa: Uint8 := 255): (c: Color)
    ensures c.r == rr && c.g == gg && c.b == bb && c.a == aa
  {
    Color(rr, gg, bb, aa)
  }

  /** A colour built from three channels is opaque. */
  lemma OpaqueByDefault(rr: Uint8, gg: Uint8, bb: Uint8)
    ensures MakeColor(rr, gg, bb).a == 255
    ensures MakeColor(rr, gg, bb) == MakeColor(rr, gg, bb, 255)
  {
  }

  /** A float-to-int conversion, as when a float coordinate is passed to `set`: truncation
      toward zero. */
  function Trunc(r: real): (n: int)
    ensures r >= 0.0 ==> n as real <= r < n as real + 1.0
    ensures r < 0.0 ==> n as real - 1.0 < r <= n as real
  {
    if r >= 0.0 then r.Floor else -((-r).Floor)
  }

  /** The range test of `set`. */
  predicate InBounds(x: int, y: int, w: int, h: int)
  {
    0 <= x < w && 0 <= y < h
  }

  /** The row-major index y*width + x of an in-range pixel lies inside the buffer. */
  lemma CellIndex(x: int, y: int, w: int, h: int)
    requires InBounds(x, y, w, h)
    ensures 0 <= y * w + x < w * h
  {
    assert (h - 1 - y) * w >= 0;
  }

  /** Distinct in-range pixels occupy distinct cells. */
  lemma CellsDistinct(x1: int, y1: int, x2: int, y2: int, w: int, h: int)
    requires InBounds(x1, y1, w, h) && InBounds(x2, y2, w, h)
    ensures y1 * w + x1 == y2 * w + x2 <==> x1 == x2 && y1 == y2
  {
    if y1 < y2 {
      RowGap(y1, y2, w);
    } else if y2 < y1 {
      RowGap(y2, y1, w);
    }
  }

  /** A later row starts at least one full row further on. */
  lemma RowGap(ya: int, yb: int, w: int)
    requires ya < yb && 0 <= w
    ensures yb * w - ya * w >= w
  {
    assert yb * w - ya * w == (yb - ya - 1) * w + w;
    assert (yb - ya - 1) * w >= 0;
  }

  /** The pixel at (x, y) of a row-major buffer. */
  function Pixel(s: seq<Color>, x: int, y: int, w: int, h: int): (c: Color)
    requires |s| == w * h && InBounds(x, y, w, h)
  {
    CellIndex(x, y, w, h);
    s[y * w + x]
  }

  /** set(x, y, c) on the buffer contents: an out-of-range call changes nothing, an
      in-range one overwrites the cell y*width + x. */
  function SetPixel(s: seq<Color>, x: int, y: int, w: int, h: int, c: Color): (r: seq<Color>)
    requires |s| == w * h
    ensures |r| == |s|
  {
    if InBounds(x, y, w, h) then
      CellIndex(x, y, w, h);
      s[y * w + x := c]
    else
      s
  }

  /** Reading a pixel after `set`: the pixel set reads back the colour, every other pixel is
      unchanged, and an out-of-range `set` leaves the whole buffer as it was. */
  lemma SetPixelEffect(s: seq<Color>, x: int, y: int, w: int, h: int, c: Color, px: int, py: int)
    requires |s| == w * h && InBounds(px, py, w, h)
    ensures Pixel(SetPixel(s, x, y, w, h, c), px, py, w, h)
         == if px == x && py == y then c else Pixel(s, px, py, w, h)
    ensures !InBounds(x, y, w, h) ==> SetPixel(s, x, y, w, h, c) == s
  {
    if InBounds(x, y, w, h) {
      CellsDistinct(x, y, px, py, w, h);
      CellIndex(x, y, w, h);
      CellIndex(px, py, w, h);
      var r := s[y * w + x := c];
      assert SetPixel(s, x, y, w, h, c) == r;
      assert Pixel(r, px, py, w, h) == r[py * w + px];
    }
  }

  /** A sequence of `set` calls with one colour, in order. */
  function Paint(s: seq<Color>, w: int, h: int, pts: seq<(int, int)>, c: Color): (r: seq<Color>)
    requires |s| == w * h
    ensures |r| == |s|
    decreases pts
  {
    if pts == [] then s else Paint(SetPixel(s, pts[0].0, pts[0].1, w, h, c), w, h, pts[1..], c)
  }

  /** Painting a list is setting its first point, then painting the rest. */
  lemma PaintFirst(s: seq<Color>, w: int, h: int, p: (int, int), rest: seq<(int, int)>, c: Color)
    requires |s| == w * h
    ensures Paint(s, w, h, [p] + rest, c) == Paint(SetPixel(s, p.0, p.1, w, h, c), w, h, rest, c)
  {
    assert ([p] + rest)[1..] == rest;
  }

  /** Painting points colours exactly the in-range pixels among them; every other pixel keeps
      its colour, and out-of-range points are dropped. */
  lemma {:induction false} PaintEffect(s: seq<Color>, w: int, h: int, pts: seq<(int, int)>, c: Color, px: int, py: int)
    requires |s| == w * h && InBounds(px, py, w, h)
    ensures Pixel(Paint(s, w, h, pts, c), px, py, w, h)
         == if (px, py) in pts then c else Pixel(s, px, py, w, h)
    decreases pts
  {
    if pts != [] {
      var s1 := SetPixel(s, pts[0].0, pts[0].1, w, h, c);
      PaintEffect(s1, w, h, pts[1..], c, px, py);
      SetPixelEffect(s, pts[0].0, pts[0].1, w, h, c, px, py);
      assert (px, py) in pts <==> (px, py) == pts[0] || (px, py) in pts[1..] by {
        assert pts == [pts[0]] + pts[1..];
      }
    }
  }

  /** Painting one list and then another is painting their concatenation. */
  lemma {:induction false} PaintAppend(s: seq<Color>, w: int, h: int, p: seq<(int, int)>, q: seq<(int, int)>, c: Color)
    requires |s| == w * h
    ensures Paint(Paint(s, w, h, p, c), w, h, q, c) == Paint(s, w, h, p + q, c)
    decreases p
  {
    if p == [] {
      assert p + q == q;
    } else {
      PaintAppend(SetPixel(s, p[0].0, p[0].1, w, h, c), w, h, p[1..], q, c);
      assert (p + q)[1..] == p[1..] + q;
    }
  }

  /** Painting several point lists in turn. */
  function PaintAll(s: seq<Color>, w: int, h: int, lists: seq<seq<(int, int)>>, c: Color): (r: seq<Color>)
    requires |s| == w * h
    ensures |r| == |s|
    decreases lists
  {
    if lists == [] then s else PaintAll(Paint(s, w, h, lists[0], c), w, h, lists[1..], c)
  }

  /** Painting several lists colours exactly the in-range pixels on any of them. */
  lemma {:induction false} PaintAllEffect(s: seq<Color>, w: int, h: int, lists: seq<seq<(int, int)>>, c: Color, px: int, py: int)
    requires |s| == w * h && InBounds(px, py, w, h)
    ensures Pixel(PaintAll(s, w, h, lists, c), px, py, w, h)
         == if exists i :: 0 <= i < |lists| && (px, py) in lists[i] then c else Pixel(s, px, py, w, h)
    decreases lists
  {
    if lists != [] {
      PaintAllEffect(Paint(s, w, h, lists[0], c), w, h, lists[1..], c, px, py);
      PaintEffect(s, w, h, lists[0], c, px, py);
      if exists i :: 0 <= i < |lists| && (px, py) in lists[i] {
        var i :| 0 <= i < |lists| && (px, py) in lists[i];
        if i > 0 {
          assert (px, py) in lists[1..][i - 1];
        }
      }
      if exists i :: 0 <= i < |lists| - 1 && (px, py) in lists[1..][i] {
        var i :| 0 <= i < |lists| - 1 && (px, py) in lists[1..][i];
        assert (px, py) in lists[i + 1];
      }
    }
  }

  /** FrameBuffer: width, height and a width*height array of pixels. The constructor is the
      only place that assigns the three fields; `set` writes into the array they name. */
  class FrameBuffer {
    const buffer: array<Color>
    const width: int
    const height: int

    ghost predicate Valid()
    {
      0 <= width && 0 <= height && buffer.Length == width * height
    }

    /** FrameBuffer(w, h): allocates w*h pixels and zeroes every byte. */
    constructor(w: int, h: int)
      requires 0 <= w && 0 <= h
      ensures Valid() && width == w && height == h && fresh(buffer)
      ensures forall i :: 0 <= i < buffer.Length ==> buffer[i] == Black
    {
      width := w;
      height := h;
      buffer := new Color[w * h](_ => Black);
    }

    /** set(x, y, c): false and no change out of range, otherwise overwrites one cell. */
    method Set(x: int, y: int, c: Color) returns (ok: bool)
      requires Valid()
      modifies buffer
      ensures ok <==> InBounds(x, y, width, height)
      ensures buffer[..] == SetPixel(old(buffer[..]), x, y, width, height, c)
    {
      if x < 0 || x >= width || y < 0 || y >= height {
        return false;
      }
      CellIndex(x, y, width, height);
      buffer[y * width + x] := c;
      return true;
    }
  }
}
