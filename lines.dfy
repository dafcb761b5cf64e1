/** Bresenham's integer line algorithm, as written twice in the source (the free function
    `line` of Eleanor/main.cpp and SoftRenderer::line of Eleanor/softrenderer.h): the list of
    points the loop hands to `set`, in order. */
module Lines {

  function Abs(a: int): nat
  {
    if a < 0 then -a else a
  }

  function Max(a: int, b: int): int
  {
    if a < b then b else a
  }

  /** The endpoints after the two swaps at the head of `line`: `steep` records that x and y
      were exchanged, and the endpoints are then ordered so that x0 <= x1. */
  datatype Setup = Setup(steep: bool, x0: int, y0: int, x1: int, y1: int)

  /** A point of the swapped frame, as passed to `set`: (y, x) when steep. */
  function Plot(steep: bool, x: int, y: int): (int, int)
  {
    if steep then (y, x) else (x, y)
  }

  /** The two swaps. Steep exactly when |x0-x1| < |y0-y1|; afterwards the major axis runs
      left to right over the larger extent, and the endpoints are the caller's two points. */
  function Arrange(x0: int, y0: int, x1: int, y1: int): (s: Setup)
    ensures s.steep <==> Abs(x0 - x1) < Abs(y0 - y1)
    ensures s.x0 <= s.x1
    ensures s.x1 - s.x0 == Max(Abs(x1 - x0), Abs(y1 - y0))
    ensures Abs(s.y1 - s.y0) <= s.x1 - s.x0
  {
    var steep := Abs(x0 - x1) < Abs(y0 - y1);
    var a0 := if steep then y0 else x0;
    var b0 := if steep then x0 else y0;
    var a1 := if steep then y1 else x1;
    var b1 := if steep then x1 else y1;
    if a0 > a1 then Setup(steep, a1, b1, a0, b0) else Setup(steep, a0, b0, a1, b1)
  }

  /** The two swaps at the head of `line`, as the source runs them. */
  method SwapEnds(x0: int, y0: int, x1: int, y1: int) returns (steep: bool, a0: int, b0: int, a1: int, b1: int)
    ensures Setup(steep, a0, b0, a1, b1) == Arrange(x0, y0, x1, y1)
  {
    steep := false;
    a0, b0, a1, b1 := x0, y0, x1, y1;
    if Abs(a0 - a1) < Abs(b0 - b1) {
      a0, b0 := b0, a0;
      a1, b1 := b1, a1;
      steep := true;
    }
    if a0 > a1 {
      a0, a1 := a1, a0;
      b0, b1 := b1, b0;
    }
  }

  /** The swapped endpoints, plotted, are the caller's two points. */
  lemma ArrangeKeepsEndpoints(x0: int, y0: int, x1: int, y1: int)
    ensures var s := Arrange(x0, y0, x1, y1);
            {Plot(s.steep, s.x0, s.y0), Plot(s.steep, s.x1, s.y1)} == {(x0, y0), (x1, y1)}
  {
  }

  /** The loop's minor coordinate and doubled error term. */
  datatype Cursor = Cursor(y: int, error2: int)

  /** The direction `y1 > y0 ? 1 : -1` in which the minor coordinate moves. */
  function Dir(s: Setup): int
  {
    if s.y1 > s.y0 then 1 else -1
  }

  /** The update after each plotted point: error2 += 2|dy|, and when error2 exceeds dx the
      minor coordinate steps toward y1 and error2 drops by 2dx. The minor coordinate moves by
      nothing or by one toward y1, and each unit it moves is paid for by 2dx of error. */
  function Advance(c: Cursor, s: Setup): (r: Cursor)
    ensures r.y - c.y in {0, Dir(s)}
    ensures r.y != c.y <==> c.error2 + Abs(s.y1 - s.y0) * 2 > s.x1 - s.x0
    ensures r.error2 == c.error2 + Abs(s.y1 - s.y0) * 2 - (if r.y == c.y then 0 else (s.x1 - s.x0) * 2)
  {
    var e := c.error2 + Abs(s.y1 - s.y0) * 2;
    if e > s.x1 - s.x0 then Cursor(c.y + Dir(s), e - (s.x1 - s.x0) * 2) else Cursor(c.y, e)
  }

  /** The cursor after n updates. */
  function Steps(c: Cursor, s: Setup, n: nat): Cursor
    decreases n
  {
    if n == 0 then c else Steps(Advance(c, s), s, n - 1)
  }

  /** The points plotted from major coordinate x through s.x1, starting from cursor c: one
      per major coordinate, the first at (x, c.y) in the swapped frame. */
  function Walk(s: Setup, x: int, c: Cursor): (r: seq<(int, int)>)
    ensures |r| == if x <= s.x1 then s.x1 - x + 1 else 0
    ensures |r| > 0 ==> r[0] == Plot(s.steep, x, c.y)
    decreases s.x1 - x + 1
  {
    if x > s.x1 then [] else [Plot(s.steep, x, c.y)] + Walk(s, x + 1, Advance(c, s))
  }

  /** The first point of a walk that has not passed s.x1, and the walk after it. */
  lemma WalkStep(s: Setup, x: int, c: Cursor)
    requires x <= s.x1
    ensures Walk(s, x, c) == [Plot(s.steep, x, c.y)] + Walk(s, x + 1, Advance(c, s))
  {
  }

  /** The whole line from (x0, y0) to (x1, y1): never empty, and it starts at one of the
      two endpoints. */
  function Points(x0: int, y0: int, x1: int, y1: int): (r: seq<(int, int)>)
    ensures |r| > 0 && r[0] in {(x0, y0), (x1, y1)}
  {
    var s := Arrange(x0, y0, x1, y1);
    ArrangeKeepsEndpoints(x0, y0, x1, y1);
    Walk(s, s.x0, Cursor(s.y0, 0))
  }

  /** One more update on the far end of a run of updates. */
  lemma {:induction false} StepsLast(c: Cursor, s: Setup, n: nat)
    ensures Steps(c, s, n + 1) == Advance(Steps(c, s, n), s)
    decreases n
  {
    if n > 0 {
      StepsLast(Advance(c, s), s, n - 1);
    }
  }

  /** The walk holds one point per major coordinate, the i-th at x+i with the minor
      coordinate of the cursor after i updates. */
  lemma {:induction false} WalkAt(s: Setup, x: int, c: Cursor)
    ensures |Walk(s, x, c)| == if x <= s.x1 then s.x1 - x + 1 else 0
    ensures forall i :: 0 <= i < |Walk(s, x, c)| ==>
              Walk(s, x, c)[i] == Plot(s.steep, x + i, Steps(c, s, i).y)
    decreases s.x1 - x + 1
  {
    if x <= s.x1 {
      var rest := Walk(s, x + 1, Advance(c, s));
      WalkAt(s, x + 1, Advance(c, s));
      assert Walk(s, x, c) == [Plot(s.steep, x, c.y)] + rest;
      forall i | 0 < i < |Walk(s, x, c)|
        ensures Walk(s, x, c)[i] == Plot(s.steep, x + i, Steps(c, s, i).y)
      {
        assert Walk(s, x, c)[i] == rest[i - 1];
      }
    }
  }

  /** `line` plots max(|dx|, |dy|) + 1 points. */
  lemma PointCount(x0: int, y0: int, x1: int, y1: int)
    ensures |Points(x0, y0, x1, y1)| == Max(Abs(x1 - x0), Abs(y1 - y0)) + 1
  {
    var s := Arrange(x0, y0, x1, y1);
    WalkAt(s, s.x0, Cursor(s.y0, 0));
  }

  /** From the loop's start, with |dy| <= dx, error2 stays within [-dx, dx]. */
  lemma {:induction false} ErrorBounded(s: Setup, n: nat)
    requires Abs(s.y1 - s.y0) <= s.x1 - s.x0
    ensures -(s.x1 - s.x0) <= Steps(Cursor(s.y0, 0), s, n).error2 <= s.x1 - s.x0
  {
    if n > 0 {
      ErrorBounded(s, n - 1);
      StepsLast(Cursor(s.y0, 0), s, n - 1);
    }
  }

  /** Each update moves the minor coordinate by nothing or by one toward y1. */
  lemma MinorStep(c: Cursor, s: Setup, n: nat)
    ensures Steps(c, s, n + 1).y - Steps(c, s, n).y in {0, Dir(s)}
  {
    StepsLast(c, s, n);
  }

  /** The error term is exactly 2|dy| per update less 2dx per minor step taken. */
  lemma {:induction false} ErrorAccount(s: Setup, n: nat)
    ensures Steps(Cursor(s.y0, 0), s, n).error2
         == Abs(s.y1 - s.y0) * 2 * n - (s.x1 - s.x0) * 2 * ((Steps(Cursor(s.y0, 0), s, n).y - s.y0) * Dir(s))
  {
    if n > 0 {
      ErrorAccount(s, n - 1);
      StepsLast(Cursor(s.y0, 0), s, n - 1);
      var c := Steps(Cursor(s.y0, 0), s, n - 1);
      var c' := Steps(Cursor(s.y0, 0), s, n);
      UnitStep(c.y, s.y0, Dir(s));
      AccountStep(Abs(s.y1 - s.y0) * 2, (s.x1 - s.x0) * 2, n, c.error2, c'.error2,
                  (c.y - s.y0) * Dir(s), (c'.y - s.y0) * Dir(s));
    }
  }

  /** A step of d = ±1 adds one to the signed distance (y - y0)·d. */
  lemma UnitStep(y: int, y0: int, d: int)
    requires d == 1 || d == -1
    ensures (y + d - y0) * d == (y - y0) * d + 1
  {
  }

  /** The error account carried over one update, with or without a minor step. */
  lemma AccountStep(a2: int, d2: int, n: int, e: int, e': int, k: int, k': int)
    requires e == a2 * (n - 1) - d2 * k
    requires (e' == e + a2 - d2 && k' == k + 1) || (e' == e + a2 && k' == k)
    ensures e' == a2 * n - d2 * k'
  {
  }

  /** A multiple of 2dx within [-dx, dx] is zero. */
  lemma NoWholeMultiple(dx: int, m: int)
    requires dx > 0 && -dx <= 2 * dx * m <= dx
    ensures m == 0
  {
  }

  /** An error term of 2a per update after dx updates, within [-dx, dx], means exactly a minor
      steps were taken. */
  lemma StepCount(a: int, dx: int, k: int, e: int)
    requires 0 < dx && e == a * 2 * dx - dx * 2 * k && -dx <= e <= dx
    ensures k == a
  {
    assert e == 2 * dx * (a - k);
    NoWholeMultiple(dx, a - k);
  }

  /** After dx updates the minor coordinate has reached y1. */
  lemma ReachesEnd(s: Setup)
    requires s.x0 <= s.x1 && Abs(s.y1 - s.y0) <= s.x1 - s.x0
    ensures Steps(Cursor(s.y0, 0), s, s.x1 - s.x0).y == s.y1
  {
    var dx := s.x1 - s.x0;
    if dx == 0 {
      return;
    }
    ErrorAccount(s, dx);
    ErrorBounded(s, dx);
    var c := Steps(Cursor(s.y0, 0), s, dx);
    StepCount(Abs(s.y1 - s.y0), dx, (c.y - s.y0) * Dir(s), c.error2);
    if s.y1 > s.y0 {
      assert (c.y - s.y0) * Dir(s) == c.y - s.y0;
    } else {
      assert (c.y - s.y0) * Dir(s) == s.y0 - c.y;
    }
  }

  /** The line joins its endpoints: the first and last points plotted are (x0, y0) and
      (x1, y1), in one order or the other. */
  lemma LineJoinsEndpoints(x0: int, y0: int, x1: int, y1: int)
    ensures var p := Points(x0, y0, x1, y1);
            |p| > 0 && {p[0], p[|p| - 1]} == {(x0, y0), (x1, y1)}
  {
    var s := Arrange(x0, y0, x1, y1);
    WalkAt(s, s.x0, Cursor(s.y0, 0));
    ReachesEnd(s);
    ArrangeKeepsEndpoints(x0, y0, x1, y1);
  }

  /** The coordinate the loop runs over, and the other one, of a plotted point. */
  function Major(steep: bool, q: (int, int)): int
  {
    if steep then q.1 else q.0
  }

  function Minor(steep: bool, q: (int, int)): int
  {
    if steep then q.0 else q.1
  }

  /** Consecutive points advance the major coordinate by one, and the minor one by nothing or
      by one toward the far endpoint. */
  lemma PointSteps(x0: int, y0: int, x1: int, y1: int, i: int)
    requires 0 < i < |Points(x0, y0, x1, y1)|
    ensures var s := Arrange(x0, y0, x1, y1);
            var p := Points(x0, y0, x1, y1);
            Major(s.steep, p[i]) == Major(s.steep, p[i - 1]) + 1 &&
            Minor(s.steep, p[i]) - Minor(s.steep, p[i - 1]) in {0, Dir(s)}
  {
    var s := Arrange(x0, y0, x1, y1);
    WalkAt(s, s.x0, Cursor(s.y0, 0));
    MinorStep(Cursor(s.y0, 0), s, i - 1);
  }
}
