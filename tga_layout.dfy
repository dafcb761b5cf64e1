/** Byte layout of TGAImage's pixel buffer: pixel (x, y) occupies the `bytespp` bytes
    starting at (x + y·width)·bytespp, rows one after the other from row 0.
    The two flips of TGAImage.h are specified here as functions on the buffer contents. */
module TgaLayout {

  /** An unsigned char. */
  newtype byte = b: int | 0 <= b < 256

  /** Offset of byte t of pixel (x, y). */
  function Off(x: int, y: int, t: int, w: int, bpp: int): int
  {
    (x + y * w) * bpp + t
  }

  predicate InImage(x: int, y: int, w: int, h: int)
  {
    0 <= x < w && 0 <= y < h
  }

  /** A buffer of w×h pixels of bpp bytes each. */
  predicate Shaped(s: seq<byte>, w: int, h: int, bpp: int)
  {
    w >= 0 && h >= 0 && bpp >= 0 && |s| == w * h * bpp
  }

  lemma MulMono(a: int, c: int, b: int)
    requires a <= c && 0 <= b
    ensures a * b <= c * b
  {
  }

  /** Euclidean division is determined by quotient and remainder. */
  lemma {:induction false} DivModUnique(n: int, b: int, q: int, r: int)
    requires b > 0 && 0 <= r < b && n == q * b + r
    ensures n / b == q && n % b == r
  {
    var q', r' := n / b, n % b;
    assert n == q' * b + r';
    if q' < q {
      MulMono(q' + 1, q, b);
    } else if q' > q {
      MulMono(q + 1, q', b);
    }
  }

  /** The bytes of a pixel inside the image lie inside the buffer. */
  lemma {:induction false} PixelRange(x: int, y: int, w: int, h: int, bpp: int)
    requires InImage(x, y, w, h) && 0 <= bpp
    ensures 0 <= Off(x, y, 0, w, bpp) && Off(x, y, 0, w, bpp) + bpp <= w * h * bpp
  {
    var p := x + y * w;
    MulMono(y, h - 1, w);
    assert p + 1 <= w * h;
    MulMono(p + 1, w * h, bpp);
    MulMono(0, p, bpp);
  }

  /** Every byte of a pixel inside the image lies inside the buffer. */
  lemma {:induction false} OffRange(x: int, y: int, t: int, w: int, h: int, bpp: int)
    requires InImage(x, y, w, h) && 0 <= t < bpp
    ensures 0 <= Off(x, y, 0, w, bpp) && Off(x, y, 0, w, bpp) + bpp <= w * h * bpp
    ensures 0 <= Off(x, y, t, w, bpp) < w * h * bpp
  {
    PixelRange(x, y, w, h, bpp);
  }

  /** (a + 1)·b ≤ c·b whenever a < c, written out for the solver. */
  lemma StepBelow(a: int, c: int, b: int)
    requires a < c && 0 <= b
    ensures a * b + b <= c * b
  {
    MulMono(a + 1, c, b);
    assert (a + 1) * b == a * b + b;
  }

  /** Distinct pixels inside the image have distinct indices x + y·w. */
  lemma {:induction false} PixelIndexDistinct(x: int, y: int, x': int, y': int, w: int, h: int)
    requires InImage(x, y, w, h) && InImage(x', y', w, h)
    requires x != x' || y != y'
    ensures x + y * w != x' + y' * w
  {
    if y < y' {
      StepBelow(y, y', w);
    } else if y' < y {
      StepBelow(y', y, w);
    }
  }

  /** The byte range of one pixel holds no byte of another pixel. */
  lemma {:induction false} OffDisjoint(x: int, y: int, x': int, y': int, t': int, w: int, h: int, bpp: int)
    requires InImage(x, y, w, h) && InImage(x', y', w, h) && 0 <= t' < bpp
    requires x != x' || y != y'
    ensures !(Off(x, y, 0, w, bpp) <= Off(x', y', t', w, bpp) < Off(x, y, 0, w, bpp) + bpp)
  {
    var p, p' := x + y * w, x' + y' * w;
    PixelIndexDistinct(x, y, x', y', w, h);
    assert Off(x, y, 0, w, bpp) == p * bpp;
    assert Off(x', y', t', w, bpp) == p' * bpp + t';
    if p < p' {
      StepBelow(p, p', bpp);
    } else {
      StepBelow(p', p, bpp);
    }
  }

  /** Splits a buffer index into (x, y, t). */
  function Decompose(i: int, w: int, h: int, bpp: int): (r: (int, int, int))
    requires w >= 0 && h >= 0 && bpp >= 0 && 0 <= i < w * h * bpp
    ensures InImage(r.0, r.1, w, h) && 0 <= r.2 < bpp
    ensures Off(r.0, r.1, r.2, w, bpp) == i
  {
    DecomposeFacts(i, w, h, bpp);
    (i / bpp % w, i / bpp / w, i % bpp)
  }

  lemma {:induction false} DecomposeFacts(i: int, w: int, h: int, bpp: int)
    requires w >= 0 && h >= 0 && bpp >= 0 && 0 <= i < w * h * bpp
    ensures bpp > 0 && w > 0
    ensures var p := i / bpp; 0 <= p % w < w && 0 <= p / w < h && 0 <= i % bpp < bpp
    ensures Off(i / bpp % w, i / bpp / w, i % bpp, w, bpp) == i
  {
    var p := i / bpp;
    var y := p / w;
    var x := p % w;
    var t := i % bpp;
    assert i == p * bpp + t;
    assert p == y * w + x;
    assert p >= 0 by {
      if p < 0 {
        StepBelow(p, 0, bpp);
      }
    }
    assert y >= 0 by {
      if y < 0 {
        StepBelow(y, 0, w);
      }
    }
    assert y < h by {
      if y >= h {
        MulMono(h, y, w);
        assert p >= w * h;
        MulMono(w * h, p, bpp);
      }
    }
    assert Off(x, y, t, w, bpp) == (x + y * w) * bpp + t;
  }

  /** Offsets of distinct (x, y, t) triples inside the image are distinct: Decompose inverts Off. */
  lemma {:induction false} DecomposeOff(x: int, y: int, t: int, w: int, h: int, bpp: int)
    requires InImage(x, y, w, h) && 0 <= t < bpp
    ensures 0 <= Off(x, y, t, w, bpp) < w * h * bpp
    ensures Decompose(Off(x, y, t, w, bpp), w, h, bpp) == (x, y, t)
  {
    OffRange(x, y, t, w, h, bpp);
    var i := Off(x, y, t, w, bpp);
    DivModUnique(i, bpp, x + y * w, t);
    DivModUnique(x + y * w, w, y, x);
  }

  /** Two buffers of the same shape that agree on every byte of every pixel are equal. */
  lemma {:induction false} SameAt(a: seq<byte>, b: seq<byte>, w: int, h: int, bpp: int)
    requires Shaped(a, w, h, bpp) && Shaped(b, w, h, bpp)
    requires forall x, y, t :: InImage(x, y, w, h) && 0 <= t < bpp ==>
      0 <= Off(x, y, t, w, bpp) < |a| && a[Off(x, y, t, w, bpp)] == b[Off(x, y, t, w, bpp)]
    ensures a == b
  {
    forall i | 0 <= i < |a|
      ensures a[i] == b[i]
    {
      var (x, y, t) := Decompose(i, w, h, bpp);
    }
  }

  /** Where pixel (x, y) of a rearranged buffer takes its bytes from. */
  datatype Remap =
    | Identity
    | MirrorRows                  // flip_vertically
    | MirrorColumns               // flip_horizontally
    | RowPair(j1: int, j2: int)   // rows j1 and j2 exchanged
    | PixelPair(x1: int, x2: int, row: int)  // pixels (x1, row) and (x2, row) exchanged
    | RowsUpTo(j: int)            // flip_vertically after its first j row exchanges
    | ColumnsUpTo(i: int, j: int) // flip_horizontally after columns < i, and column i in rows < j

  predicate Fits(m: Remap, w: int, h: int)
  {
    match m
    case RowPair(j1, j2) => 0 <= j1 < h && 0 <= j2 < h
    case PixelPair(x1, x2, _) => 0 <= x1 < w && 0 <= x2 < w
    case _ => true
  }

  function Source(m: Remap, x: int, y: int, w: int, h: int): (p: (int, int))
    requires Fits(m, w, h) && InImage(x, y, w, h)
    ensures InImage(p.0, p.1, w, h)
  {
    match m
    case Identity => (x, y)
    case MirrorRows => (x, h - 1 - y)
    case MirrorColumns => (w - 1 - x, y)
    case RowPair(j1, j2) => (x, if y == j1 then j2 else if y == j2 then j1 else y)
    case PixelPair(x1, x2, row) =>
      (if y == row && x == x1 then x2 else if y == row && x == x2 then x1 else x, y)
    case RowsUpTo(j) => (x, if y < j || y > h - 1 - j then h - 1 - y else y)
    case ColumnsUpTo(i, j) =>
      (if x < i || x > w - 1 - i || ((x == i || x == w - 1 - i) && y < j) then w - 1 - x else x, y)
  }

  /** The buffer in which every pixel (x, y) holds the bytes of pixel Source(m, x, y) of s. */
  function Gather(s: seq<byte>, w: int, h: int, bpp: int, m: Remap): (r: seq<byte>)
    requires Shaped(s, w, h, bpp) && Fits(m, w, h)
    ensures |r| == |s|
  {
    seq(|s|, i requires 0 <= i < |s| =>
      var (x, y, t) := Decompose(i, w, h, bpp);
      var p := Source(m, x, y, w, h);
      OffRange(p.0, p.1, t, w, h, bpp);
      s[Off(p.0, p.1, t, w, bpp)])
  }

  lemma GatherAt(s: seq<byte>, w: int, h: int, bpp: int, m: Remap, x: int, y: int, t: int)
    requires Shaped(s, w, h, bpp) && Fits(m, w, h) && InImage(x, y, w, h) && 0 <= t < bpp
    ensures 0 <= Off(x, y, t, w, bpp) < |s|
    ensures var p := Source(m, x, y, w, h);
      0 <= Off(p.0, p.1, t, w, bpp) < |s| &&
      Gather(s, w, h, bpp, m)[Off(x, y, t, w, bpp)] == s[Off(p.0, p.1, t, w, bpp)]
  {
    DecomposeOff(x, y, t, w, h, bpp);
    var p := Source(m, x, y, w, h);
    OffRange(p.0, p.1, t, w, h, bpp);
  }

  /** Gathering by the identity map leaves the buffer as it is. */
  lemma {:induction false} GatherIdentity(s: seq<byte>, w: int, h: int, bpp: int)
    requires Shaped(s, w, h, bpp)
    ensures Gather(s, w, h, bpp, Identity) == s
  {
    forall x, y, t | InImage(x, y, w, h) && 0 <= t < bpp
      ensures 0 <= Off(x, y, t, w, bpp) < |s| &&
        Gather(s, w, h, bpp, Identity)[Off(x, y, t, w, bpp)] == s[Off(x, y, t, w, bpp)]
    {
      GatherAt(s, w, h, bpp, Identity, x, y, t);
    }
    SameAt(Gather(s, w, h, bpp, Identity), s, w, h, bpp);
  }

  /** Gathering by m2 after m1 is gathering by any m3 that agrees with m1 after m2. */
  lemma {:induction false} GatherTwice(s: seq<byte>, w: int, h: int, bpp: int, m1: Remap, m2: Remap, m3: Remap)
    requires Shaped(s, w, h, bpp) && Fits(m1, w, h) && Fits(m2, w, h) && Fits(m3, w, h)
    requires forall x, y {:trigger Source(m3, x, y, w, h)} :: InImage(x, y, w, h) ==>
      var p := Source(m2, x, y, w, h); Source(m1, p.0, p.1, w, h) == Source(m3, x, y, w, h)
    ensures Gather(Gather(s, w, h, bpp, m1), w, h, bpp, m2) == Gather(s, w, h, bpp, m3)
  {
    var g := Gather(s, w, h, bpp, m1);
    forall x, y, t | InImage(x, y, w, h) && 0 <= t < bpp
      ensures 0 <= Off(x, y, t, w, bpp) < |s| &&
        Gather(g, w, h, bpp, m2)[Off(x, y, t, w, bpp)] == Gather(s, w, h, bpp, m3)[Off(x, y, t, w, bpp)]
    {
      var p := Source(m2, x, y, w, h);
      GatherAt(g, w, h, bpp, m2, x, y, t);
      GatherAt(s, w, h, bpp, m1, p.0, p.1, t);
      GatherAt(s, w, h, bpp, m3, x, y, t);
    }
    SameAt(Gather(g, w, h, bpp, m2), Gather(s, w, h, bpp, m3), w, h, bpp);
  }

  /** Two maps that agree on every pixel gather the same buffer. */
  lemma {:induction false} GatherSame(s: seq<byte>, w: int, h: int, bpp: int, m1: Remap, m2: Remap)
    requires Shaped(s, w, h, bpp) && Fits(m1, w, h) && Fits(m2, w, h)
    requires forall x, y {:trigger Source(m2, x, y, w, h)} :: InImage(x, y, w, h) ==>
      Source(m1, x, y, w, h) == Source(m2, x, y, w, h)
    ensures Gather(s, w, h, bpp, m1) == Gather(s, w, h, bpp, m2)
  {
    GatherTwice(s, w, h, bpp, m1, Identity, m2);
    GatherIdentity(Gather(s, w, h, bpp, m1), w, h, bpp);
  }

  /** flip_vertically's effect: pixel (x, y) receives pixel (x, height-1-y). */
  function FlipV(s: seq<byte>, w: int, h: int, bpp: int): (r: seq<byte>)
    requires Shaped(s, w, h, bpp)
    ensures |r| == |s|
  {
    Gather(s, w, h, bpp, MirrorRows)
  }

  /** flip_horizontally's effect: pixel (x, y) receives pixel (width-1-x, y). */
  function FlipH(s: seq<byte>, w: int, h: int, bpp: int): (r: seq<byte>)
    requires Shaped(s, w, h, bpp)
    ensures |r| == |s|
  {
    Gather(s, w, h, bpp, MirrorColumns)
  }

  lemma FlipVAt(s: seq<byte>, w: int, h: int, bpp: int, x: int, y: int, t: int)
    requires Shaped(s, w, h, bpp) && InImage(x, y, w, h) && 0 <= t < bpp
    ensures 0 <= Off(x, y, t, w, bpp) < |s| && 0 <= Off(x, h - 1 - y, t, w, bpp) < |s|
    ensures FlipV(s, w, h, bpp)[Off(x, y, t, w, bpp)] == s[Off(x, h - 1 - y, t, w, bpp)]
  {
    GatherAt(s, w, h, bpp, MirrorRows, x, y, t);
  }

  lemma FlipHAt(s: seq<byte>, w: int, h: int, bpp: int, x: int, y: int, t: int)
    requires Shaped(s, w, h, bpp) && InImage(x, y, w, h) && 0 <= t < bpp
    ensures 0 <= Off(x, y, t, w, bpp) < |s| && 0 <= Off(w - 1 - x, y, t, w, bpp) < |s|
    ensures FlipH(s, w, h, bpp)[Off(x, y, t, w, bpp)] == s[Off(w - 1 - x, y, t, w, bpp)]
  {
    GatherAt(s, w, h, bpp, MirrorColumns, x, y, t);
  }

  /** Flipping vertically twice gives the original buffer back. */
  lemma {:induction false} FlipVInvolution(s: seq<byte>, w: int, h: int, bpp: int)
    requires Shaped(s, w, h, bpp)
    ensures FlipV(FlipV(s, w, h, bpp), w, h, bpp) == s
  {
    var f := FlipV(s, w, h, bpp);
    forall x, y, t | InImage(x, y, w, h) && 0 <= t < bpp
      ensures 0 <= Off(x, y, t, w, bpp) < |s| && FlipV(f, w, h, bpp)[Off(x, y, t, w, bpp)] == s[Off(x, y, t, w, bpp)]
    {
      FlipVAt(f, w, h, bpp, x, y, t);
      FlipVAt(s, w, h, bpp, x, h - 1 - y, t);
    }
    SameAt(FlipV(f, w, h, bpp), s, w, h, bpp);
  }

  /** Flipping horizontally twice gives the original buffer back. */
  lemma {:induction false} FlipHInvolution(s: seq<byte>, w: int, h: int, bpp: int)
    requires Shaped(s, w, h, bpp)
    ensures FlipH(FlipH(s, w, h, bpp), w, h, bpp) == s
  {
    var f := FlipH(s, w, h, bpp);
    forall x, y, t | InImage(x, y, w, h) && 0 <= t < bpp
      ensures 0 <= Off(x, y, t, w, bpp) < |s| && FlipH(f, w, h, bpp)[Off(x, y, t, w, bpp)] == s[Off(x, y, t, w, bpp)]
    {
      FlipHAt(f, w, h, bpp, x, y, t);
      FlipHAt(s, w, h, bpp, w - 1 - x, y, t);
    }
    SameAt(FlipH(f, w, h, bpp), s, w, h, bpp);
  }

  /** The middle row of an odd-height image stays where it is. */
  lemma MiddleRowFixed(s: seq<byte>, w: int, h: int, bpp: int, x: int, t: int)
    requires Shaped(s, w, h, bpp) && h % 2 == 1 && 0 <= x < w && 0 <= t < bpp
    ensures var m := Off(x, h / 2, t, w, bpp); 0 <= m < |s| && FlipV(s, w, h, bpp)[m] == s[m]
  {
    FlipVAt(s, w, h, bpp, x, h / 2, t);
  }

  /** The two flips commute: the order read_tga_file applies them in does not matter. */
  lemma {:induction false} FlipsCommute(s: seq<byte>, w: int, h: int, bpp: int)
    requires Shaped(s, w, h, bpp)
    ensures FlipH(FlipV(s, w, h, bpp), w, h, bpp) == FlipV(FlipH(s, w, h, bpp), w, h, bpp)
  {
    var v, hh := FlipV(s, w, h, bpp), FlipH(s, w, h, bpp);
    forall x, y, t | InImage(x, y, w, h) && 0 <= t < bpp
      ensures 0 <= Off(x, y, t, w, bpp) < |s| &&
        FlipH(v, w, h, bpp)[Off(x, y, t, w, bpp)] == FlipV(hh, w, h, bpp)[Off(x, y, t, w, bpp)]
    {
      FlipHAt(v, w, h, bpp, x, y, t);
      FlipVAt(s, w, h, bpp, w - 1 - x, y, t);
      FlipVAt(hh, w, h, bpp, x, y, t);
      FlipHAt(s, w, h, bpp, x, h - 1 - y, t);
    }
    SameAt(FlipH(v, w, h, bpp), FlipV(hh, w, h, bpp), w, h, bpp);
  }

  /** Row j, byte c of the buffer, with rows of `bpl` bytes. */
  lemma {:induction false} OffInRow(x: int, y: int, t: int, w: int, h: int, bpp: int)
    requires InImage(x, y, w, h) && 0 <= t < bpp
    ensures Off(x, y, t, w, bpp) == y * (w * bpp) + (x * bpp + t)
    ensures 0 <= x * bpp + t < w * bpp
  {
    MulMono(x + 1, w, bpp);
  }

  /** Row ranges of different rows are disjoint. */
  lemma {:induction false} RowsDisjoint(y: int, j: int, c: int, bpl: int)
    requires 0 <= y && 0 <= j && y != j && 0 <= c < bpl
    ensures !(j * bpl <= y * bpl + c < j * bpl + bpl)
  {
    if y < j {
      MulMono(y + 1, j, bpl);
    } else {
      MulMono(j + 1, y, bpl);
    }
  }

  /** s with the bytes from `at` on replaced by `part`: what memcpy and memmove leave. */
  function Splice(s: seq<byte>, at: int, part: seq<byte>): (r: seq<byte>)
    requires 0 <= at && at + |part| <= |s|
    ensures |r| == |s|
    ensures forall i :: 0 <= i < |s| ==> r[i] == if at <= i < at + |part| then part[i - at] else s[i]
  {
    s[..at] + part + s[at + |part|..]
  }

  /** The three memmoves of one flip_vertically iteration exchange rows j1 and j2, which
      start at l1 = j1·bpl and l2 = j2·bpl for rows of bpl = w·bpp bytes. */
  lemma {:induction false} RowPairSplice(s: seq<byte>, w: int, h: int, bpp: int, j1: int, j2: int, bpl: int, l1: int, l2: int)
    requires Shaped(s, w, h, bpp) && 0 <= j1 < j2 < h
    requires bpl == w * bpp && l1 == j1 * bpl && l2 == j2 * bpl
    ensures 0 <= l1 && l1 + bpl <= l2 && l2 + bpl <= |s|
    ensures Splice(Splice(s, l1, s[l2..l2 + bpl]), l2, s[l1..l1 + bpl]) == Gather(s, w, h, bpp, RowPair(j1, j2))
  {
    RowBounds(s, w, h, bpp, j1, j2, bpl, l1, l2);
    var r := Splice(Splice(s, l1, s[l2..l2 + bpl]), l2, s[l1..l1 + bpl]);
    var g := Gather(s, w, h, bpp, RowPair(j1, j2));
    forall x, y, t | InImage(x, y, w, h) && 0 <= t < bpp
      ensures 0 <= Off(x, y, t, w, bpp) < |s| && r[Off(x, y, t, w, bpp)] == g[Off(x, y, t, w, bpp)]
    {
      RowPairAt(s, w, h, bpp, j1, j2, bpl, l1, l2, x, y, t);
      ExchangeAt(s, l1, l2, bpl, Off(x, y, t, w, bpp));
    }
    SameAt(r, g, w, h, bpp);
  }

  /** Rows j1 < j2 of bpl = w·bpp bytes each lie one after the other inside the buffer. */
  lemma {:induction false} RowBounds(s: seq<byte>, w: int, h: int, bpp: int, j1: int, j2: int, bpl: int, l1: int, l2: int)
    requires Shaped(s, w, h, bpp) && 0 <= j1 < j2 < h
    requires bpl == w * bpp && l1 == j1 * bpl && l2 == j2 * bpl
    ensures bpl >= 0 && 0 <= l1 && l1 + bpl <= l2 && l2 + bpl <= |s|
  {
    MulMono(0, w, bpp);
    assert |s| == h * bpl by {
      assert w * h * bpp == h * (w * bpp);
    }
    MulMono(0, j1, bpl);
    StepBelow(j1, j2, bpl);
    StepBelow(j2, h, bpl);
  }

  /** One byte of the row exchange. */
  lemma {:induction false} RowPairAt(s: seq<byte>, w: int, h: int, bpp: int, j1: int, j2: int, bpl: int, l1: int, l2: int,
                                     x: int, y: int, t: int)
    requires Shaped(s, w, h, bpp) && 0 <= j1 < j2 < h && InImage(x, y, w, h) && 0 <= t < bpp
    requires bpl == w * bpp && l1 == j1 * bpl && l2 == j2 * bpl
    requires 0 <= l1 && l1 + bpl <= l2 && l2 + bpl <= |s|
    ensures 0 <= Off(x, y, t, w, bpp) < |s|
    ensures Gather(s, w, h, bpp, RowPair(j1, j2))[Off(x, y, t, w, bpp)] == Exchanged(s, l1, l2, bpl, Off(x, y, t, w, bpp))
  {
    var c := RowOffset(x, y, t, w, bpp, bpl);
    var c1 := RowOffset(x, j1, t, w, bpp, bpl);
    var c2 := RowOffset(x, j2, t, w, bpp, bpl);
    if y != j1 {
      RowsDisjoint(y, j1, c, bpl);
    }
    if y != j2 {
      RowsDisjoint(y, j2, c, bpl);
    }
    RowPairByte(s, w, h, bpp, j1, j2, bpl, l1, l2, x, y, t, c, y * bpl);
  }

  /** One byte of the row exchange, once the byte's row start ly and column offset c are known. */
  lemma {:induction false} RowPairByte(s: seq<byte>, w: int, h: int, bpp: int, j1: int, j2: int, bpl: int, l1: int, l2: int,
                                       x: int, y: int, t: int, c: int, ly: int)
    requires Shaped(s, w, h, bpp) && 0 <= j1 < j2 < h && InImage(x, y, w, h) && 0 <= t < bpp
    requires 0 <= l1 && l1 + bpl <= l2 && l2 + bpl <= |s| && 0 <= c < bpl
    requires Off(x, y, t, w, bpp) == ly + c
    requires Off(x, j1, t, w, bpp) == l1 + c && Off(x, j2, t, w, bpp) == l2 + c
    requires y == j1 ==> ly == l1
    requires y == j2 ==> ly == l2
    requires y != j1 ==> !(l1 <= ly + c < l1 + bpl)
    requires y != j2 ==> !(l2 <= ly + c < l2 + bpl)
    ensures 0 <= ly + c < |s|
    ensures Gather(s, w, h, bpp, RowPair(j1, j2))[ly + c] == Exchanged(s, l1, l2, bpl, ly + c)
  {
    if y == j1 {
      GatherFrom(s, w, h, bpp, RowPair(j1, j2), x, y, t, x, j2);
    } else if y == j2 {
      GatherFrom(s, w, h, bpp, RowPair(j1, j2), x, y, t, x, j1);
    } else {
      GatherFrom(s, w, h, bpp, RowPair(j1, j2), x, y, t, x, y);
    }
  }

  /** GatherAt for a pixel whose source (sx, sy) is already known. */
  lemma GatherFrom(s: seq<byte>, w: int, h: int, bpp: int, m: Remap, x: int, y: int, t: int, sx: int, sy: int)
    requires Shaped(s, w, h, bpp) && Fits(m, w, h) && InImage(x, y, w, h) && 0 <= t < bpp
    requires Source(m, x, y, w, h) == (sx, sy)
    ensures 0 <= Off(x, y, t, w, bpp) < |s| && 0 <= Off(sx, sy, t, w, bpp) < |s|
    ensures Gather(s, w, h, bpp, m)[Off(x, y, t, w, bpp)] == s[Off(sx, sy, t, w, bpp)]
  {
    GatherAt(s, w, h, bpp, m, x, y, t);
  }

  /** Byte t of pixel (x, y) lies c = x·bpp + t bytes into row y, of bpl = w·bpp bytes. */
  lemma RowOffset(x: int, y: int, t: int, w: int, bpp: int, bpl: int) returns (c: int)
    requires 0 <= x < w && 0 <= t < bpp && bpl == w * bpp
    ensures c == x * bpp + t && 0 <= c < bpl && Off(x, y, t, w, bpp) == y * bpl + c
  {
    c := x * bpp + t;
    MulMono(x + 1, w, bpp);
  }

  /** Byte i once the byte ranges [l1, l1+n) and [l2, l2+n) are exchanged. */
  function Exchanged(s: seq<byte>, l1: int, l2: int, n: int, i: int): byte
    requires 0 <= n && 0 <= l1 && l1 + n <= l2 && l2 + n <= |s| && 0 <= i < |s|
  {
    if l1 <= i < l1 + n then s[i - l1 + l2] else if l2 <= i < l2 + n then s[i - l2 + l1] else s[i]
  }

  /** The three memmoves exchange the byte ranges [l1, l1+n) and [l2, l2+n). */
  lemma ExchangeAt(s: seq<byte>, l1: int, l2: int, n: int, i: int)
    requires 0 <= n && 0 <= l1 && l1 + n <= l2 && l2 + n <= |s| && 0 <= i < |s|
    ensures Splice(Splice(s, l1, s[l2..l2 + n]), l2, s[l1..l1 + n])[i] == Exchanged(s, l1, l2, n, i)
  {
    var upper, lower := s[l1..l1 + n], s[l2..l2 + n];
    var inner := Splice(s, l1, lower);
    assert inner[i] == if l1 <= i < l1 + n then lower[i - l1] else s[i];
    assert Splice(inner, l2, upper)[i] == if l2 <= i < l2 + n then upper[i - l2] else inner[i];
  }

  /** One row exchange advances flip_vertically by one row pair. */
  lemma {:induction false} RowsStep(s: seq<byte>, w: int, h: int, bpp: int, j: int)
    requires Shaped(s, w, h, bpp) && 0 <= j < h - 1 - j
    ensures Gather(Gather(s, w, h, bpp, RowsUpTo(j)), w, h, bpp, RowPair(j, h - 1 - j)) ==
      Gather(s, w, h, bpp, RowsUpTo(j + 1))
  {
    GatherTwice(s, w, h, bpp, RowsUpTo(j), RowPair(j, h - 1 - j), RowsUpTo(j + 1));
  }

  /** Before the first exchange nothing has moved; after height/2 of them the image is flipped. */
  lemma {:induction false} RowsEnds(s: seq<byte>, w: int, h: int, bpp: int)
    requires Shaped(s, w, h, bpp)
    ensures Gather(s, w, h, bpp, RowsUpTo(0)) == s
    ensures Gather(s, w, h, bpp, RowsUpTo(h / 2)) == FlipV(s, w, h, bpp)
  {
    GatherSame(s, w, h, bpp, RowsUpTo(0), Identity);
    GatherIdentity(s, w, h, bpp);
    GatherSame(s, w, h, bpp, RowsUpTo(h / 2), MirrorRows);
  }

  /** One pixel exchange advances flip_horizontally by one row of column i. */
  lemma {:induction false} ColumnsStep(s: seq<byte>, w: int, h: int, bpp: int, i: int, j: int)
    requires Shaped(s, w, h, bpp) && 0 <= i < w - 1 - i
    ensures Gather(Gather(s, w, h, bpp, ColumnsUpTo(i, j)), w, h, bpp, PixelPair(i, w - 1 - i, j)) ==
      Gather(s, w, h, bpp, ColumnsUpTo(i, j + 1))
  {
    GatherTwice(s, w, h, bpp, ColumnsUpTo(i, j), PixelPair(i, w - 1 - i, j), ColumnsUpTo(i, j + 1));
  }

  /** Column i done in every row is column i + 1 begun; the start is the identity and
      width/2 columns done is the horizontal flip. */
  lemma {:induction false} ColumnsEnds(s: seq<byte>, w: int, h: int, bpp: int, i: int)
    requires Shaped(s, w, h, bpp)
    ensures Gather(s, w, h, bpp, ColumnsUpTo(i, h)) == Gather(s, w, h, bpp, ColumnsUpTo(i + 1, 0))
    ensures Gather(s, w, h, bpp, ColumnsUpTo(0, 0)) == s
    ensures Gather(s, w, h, bpp, ColumnsUpTo(w / 2, 0)) == FlipH(s, w, h, bpp)
  {
    GatherSame(s, w, h, bpp, ColumnsUpTo(i, h), ColumnsUpTo(i + 1, 0));
    GatherSame(s, w, h, bpp, ColumnsUpTo(0, 0), Identity);
    GatherIdentity(s, w, h, bpp);
    GatherSame(s, w, h, bpp, ColumnsUpTo(w / 2, 0), MirrorColumns);
  }
}
