/**
 * Numeric helpers of the game (a4_game/helper.py). The Python functions are
 * duck-typed and are called both with integer tile coordinates and with the
 * fractional positions of moving units, so they are modelled once, over real
 * points; integer tile positions are lifted with ToPoint.
 */
module Helper {

  /** A point whose coordinates may be fractional. */
  type Point = (real, real)

  /** Integer tile coordinates (column, row). */
  type Pos = (int, int)

  function ToPoint(p: Pos): Point
  {
    (p.0 as real, p.1 as real)
  }

  function Abs(x: real): (r: real)
    ensures r >= 0.0 && (r == x || r == -x)
  {
    if x < 0.0 then -x else x
  }

  /** clamp: min(b, max(x, a)). */
  function Clamp(x: real, a: real, b: real): (r: real)
    ensures a <= b ==> a <= r <= b
    ensures a <= x <= b ==> r == x
    ensures x < a && a <= b ==> r == a
    ensures x > b ==> r == b
  {
    var lo := if x > a then x else a;
    if b < lo then b else lo
  }

  /** Python's int() on a real: truncation toward zero. */
  function Trunc(x: real): (n: int)
    ensures x >= 0.0 ==> n == x.Floor
    ensures x < 0.0 ==> n == -((-x).Floor)
  {
    if x >= 0.0 then x.Floor else -((-x).Floor)
  }

  function ManhattanDist(a: Point, b: Point): (d: real)
    ensures d >= 0.0 && (d == 0.0 <==> a == b)
  {
    Abs(a.0 - b.0) + Abs(a.1 - b.1)
  }

  function SquaredDist(a: Point, b: Point): real
  {
    var dx := b.0 - a.0;
    var dy := b.1 - a.1;
    dx * dx + dy * dy
  }

  /** The point a + s * (b - a) of the line through a and b. */
  function Lerp(a: Point, b: Point, s: real): Point
  {
    (a.0 + s * (b.0 - a.0), a.1 + s * (b.1 - a.1))
  }

  /** The projection parameter of p onto the line a + t * (b - a), for a != b. */
  function Projection(p: Point, a: Point, b: Point): real
    requires SquaredDist(a, b) != 0.0
  {
    ((p.0 - a.0) * (b.0 - a.0) + (p.1 - a.1) * (b.1 - a.1)) / SquaredDist(a, b)
  }

  /**
   * squared_segment_dist: the squared distance from p to the closest point of
   * the segment from a to b (degenerate segments are a single point).
   */
  function SquaredSegmentDist(p: Point, a: Point, b: Point): (r: real)
    ensures r >= 0.0
  {
    SquaresNonNegative(p, a);
    SquaresNonNegative(p, b);
    var len2 := SquaredDist(a, b);
    if len2 == 0.0 then SquaredDist(p, a)
    else
      var t := Projection(p, a, b);
      if t < 0.0 then SquaredDist(p, a)
      else if t > 1.0 then SquaredDist(p, b)
      else
        var close := Lerp(a, b, t);
        SquaresNonNegative(p, close);
        SquaredDist(p, close)
  }

  lemma SquaresNonNegative(a: Point, b: Point)
    ensures SquaredDist(a, b) >= 0.0
  {
    var dx := b.0 - a.0;
    var dy := b.1 - a.1;
    assert dx * dx >= 0.0;
    assert dy * dy >= 0.0;
  }

  // ---- distances: metric properties ----

  lemma ManhattanMetric(a: Point, b: Point, c: Point)
    ensures ManhattanDist(a, b) >= 0.0
    ensures ManhattanDist(a, b) == ManhattanDist(b, a)
    ensures ManhattanDist(a, b) == 0.0 <==> a == b
    ensures ManhattanDist(a, c) <= ManhattanDist(a, b) + ManhattanDist(b, c)
  {
  }

  lemma SquaredMetric(a: Point, b: Point)
    ensures SquaredDist(a, b) >= 0.0
    ensures SquaredDist(a, b) == SquaredDist(b, a)
    ensures SquaredDist(a, a) == 0.0
  {
    var dx := b.0 - a.0;
    var dy := b.1 - a.1;
    SquarePositive(dx);
    SquarePositive(dy);
    assert (-dx) * (-dx) == dx * dx && (-dy) * (-dy) == dy * dy;
  }

  lemma SquarePositive(x: real)
    ensures x * x >= 0.0
  {
    if x < 0.0 {
      assert x * x == (-x) * (-x);
    }
  }

  /** On integer points the Manhattan distance is an integer. */
  lemma ManhattanOnTiles(a: Pos, b: Pos)
    ensures ManhattanDist(ToPoint(a), ToPoint(b)) == (IntAbs(a.0 - b.0) + IntAbs(a.1 - b.1)) as real
  {
  }

  function IntAbs(x: int): nat
  {
    if x < 0 then -x else x
  }

  // ---- the segment distance is the minimum over the segment ----

  /** Expansion of the squared distance from p to a point of the line through a and b. */
  lemma LerpExpansion(p: Point, a: Point, b: Point, s: real)
    ensures SquaredDist(p, Lerp(a, b, s))
         == SquaredDist(a, p)
            - 2.0 * s * ((p.0 - a.0) * (b.0 - a.0) + (p.1 - a.1) * (b.1 - a.1))
            + s * s * SquaredDist(a, b)
  {
    var ux, uy := p.0 - a.0, p.1 - a.1;
    var vx, vy := b.0 - a.0, b.1 - a.1;
    var q := Lerp(a, b, s);
    assert q.0 - p.0 == s * vx - ux;
    assert q.1 - p.1 == s * vy - uy;
    SquareExpand(s, vx, ux);
    SquareExpand(s, vy, uy);
    assert SquaredDist(a, p) == ux * ux + uy * uy;
    assert SquaredDist(a, b) == vx * vx + vy * vy;
    assert s * s * (vx * vx + vy * vy) == s * s * (vx * vx) + s * s * (vy * vy);
    assert 2.0 * s * (ux * vx + uy * vy) == 2.0 * s * (ux * vx) + 2.0 * s * (uy * vy);
  }

  lemma SquareExpand(s: real, v: real, u: real)
    ensures (s * v - u) * (s * v - u) == s * s * (v * v) - 2.0 * s * (u * v) + u * u
  {
  }

  /** A point segment: the distance is the squared distance to that point. */
  lemma DegenerateSegment(p: Point, a: Point)
    ensures SquaredSegmentDist(p, a, a) == SquaredDist(p, a)
  {
    SquaredMetric(a, a);
  }

  /**
   * For a segment of nonzero length, the result is no larger than the squared
   * distance from p to any point of the segment.
   */
  lemma SegmentDistIsMinimum(p: Point, a: Point, b: Point, s: real)
    requires SquaredDist(a, b) > 0.0
    requires 0.0 <= s <= 1.0
    ensures SquaredSegmentDist(p, a, b) <= SquaredDist(p, Lerp(a, b, s))
  {
    var t := Projection(p, a, b);
    if t < 0.0 {
      ProjectionScaled(p, a, b);
      NegativeProduct(t, SquaredDist(a, b));
      MinimumBeforeStart(p, a, b, s);
      SquaredMetric(p, a);
    } else if t > 1.0 {
      ProjectionScaled(p, a, b);
      ScaledAbove(t, SquaredDist(a, b));
      assert (p.0 - a.0) * (b.0 - a.0) + (p.1 - a.1) * (b.1 - a.1) > SquaredDist(a, b);
      MinimumBeyondEnd(p, a, b, s, p.0 - a.0, p.1 - a.1, b.0 - a.0, b.1 - a.1);
    } else {
      MinimumWithin(p, a, b, s);
    }
  }

  lemma NegativeProduct(t: real, l: real)
    requires t < 0.0 && l > 0.0
    ensures t * l < 0.0
  {
  }

  lemma ScaledAbove(t: real, l: real)
    requires t > 1.0 && l > 0.0
    ensures t * l > l
  {
  }

  lemma ProjectionScaled(p: Point, a: Point, b: Point)
    requires SquaredDist(a, b) > 0.0
    ensures Projection(p, a, b) * SquaredDist(a, b)
         == (p.0 - a.0) * (b.0 - a.0) + (p.1 - a.1) * (b.1 - a.1)
  {
  }

  lemma MinimumBeforeStart(p: Point, a: Point, b: Point, s: real)
    requires (p.0 - a.0) * (b.0 - a.0) + (p.1 - a.1) * (b.1 - a.1) < 0.0
    requires 0.0 <= s <= 1.0
    ensures SquaredDist(a, p) <= SquaredDist(p, Lerp(a, b, s))
  {
    LerpExpansion(p, a, b, s);
    SquaredMetric(a, b);
    BeforeStart(SquaredDist(a, p), (p.0 - a.0) * (b.0 - a.0) + (p.1 - a.1) * (b.1 - a.1),
                SquaredDist(a, b), s, SquaredDist(p, Lerp(a, b, s)));
  }

  lemma MinimumBeyondEnd(p: Point, a: Point, b: Point, s: real,
                         ux: real, uy: real, vx: real, vy: real)
    requires ux == p.0 - a.0 && uy == p.1 - a.1 && vx == b.0 - a.0 && vy == b.1 - a.1
    requires ux * vx + uy * vy > SquaredDist(a, b)
    requires 0.0 <= s <= 1.0
    ensures SquaredDist(p, b) <= SquaredDist(p, Lerp(a, b, s))
  {
    LerpOffset(p, a, b, s, ux, uy, vx, vy);
    EndOffset(p, a, b, ux, uy, vx, vy);
    BeyondOnLine(ux, uy, vx, vy, s, SquaredDist(a, b), SquaredDist(p, Lerp(a, b, s)), SquaredDist(p, b));
  }

  lemma EndOffset(p: Point, a: Point, b: Point, ux: real, uy: real, vx: real, vy: real)
    requires ux == p.0 - a.0 && uy == p.1 - a.1 && vx == b.0 - a.0 && vy == b.1 - a.1
    ensures SquaredDist(p, b) == (vx - ux) * (vx - ux) + (vy - uy) * (vy - uy)
  {
    assert b.0 - p.0 == vx - ux;
    assert b.1 - p.1 == vy - uy;
  }

  /** Past the end of the line's unit stretch, the end point is closer than any point before it. */
  lemma BeyondOnLine(ux: real, uy: real, vx: real, vy: real, s: real, len2: real, qs: real, qb: real)
    requires 0.0 <= s <= 1.0
    requires len2 == vx * vx + vy * vy
    requires ux * vx + uy * vy > len2
    requires qs == (s * vx - ux) * (s * vx - ux) + (s * vy - uy) * (s * vy - uy)
    requires qb == (vx - ux) * (vx - ux) + (vy - uy) * (vy - uy)
    ensures qb <= qs
  {
    SquareExpand(s, vx, ux);
    SquareExpand(s, vy, uy);
    assert (vx - ux) * (vx - ux) == vx * vx - 2.0 * (ux * vx) + ux * ux;
    assert (vy - uy) * (vy - uy) == vy * vy - 2.0 * (uy * vy) + uy * uy;
    var dot := ux * vx + uy * vy;
    assert s * s * (vx * vx) + s * s * (vy * vy) == s * s * len2;
    assert 2.0 * s * (ux * vx) + 2.0 * s * (uy * vy) == 2.0 * s * dot;
    SquarePositive(vx);
    SquarePositive(vy);
    BeyondEnd(ux * ux + uy * uy, dot, len2, s, qs, qb);
  }

  lemma MinimumWithin(p: Point, a: Point, b: Point, s: real)
    requires SquaredDist(a, b) > 0.0 && 0.0 <= Projection(p, a, b) <= 1.0
    requires 0.0 <= s <= 1.0
    ensures SquaredSegmentDist(p, a, b) <= SquaredDist(p, Lerp(a, b, s))
  {
    var t := Projection(p, a, b);
    ProjectionScaled(p, a, b);
    SegmentDistWithin(p, a, b);
    ClosestPointBest(p, a, b, s, t, p.0 - a.0, p.1 - a.1, b.0 - a.0, b.1 - a.1);
  }

  lemma SegmentDistWithin(p: Point, a: Point, b: Point)
    requires SquaredDist(a, b) > 0.0 && 0.0 <= Projection(p, a, b) <= 1.0
    ensures SquaredSegmentDist(p, a, b) == SquaredDist(p, Lerp(a, b, Projection(p, a, b)))
  {
  }

  lemma ClosestPointBest(p: Point, a: Point, b: Point, s: real, t: real,
                         ux: real, uy: real, vx: real, vy: real)
    requires ux == p.0 - a.0 && uy == p.1 - a.1 && vx == b.0 - a.0 && vy == b.1 - a.1
    requires t * SquaredDist(a, b) == ux * vx + uy * vy
    ensures SquaredDist(p, Lerp(a, b, t)) <= SquaredDist(p, Lerp(a, b, s))
  {
    LerpOffset(p, a, b, s, ux, uy, vx, vy);
    LerpOffset(p, a, b, t, ux, uy, vx, vy);
    ClosestOnLine(ux, uy, vx, vy, s, t, SquaredDist(a, b),
                  SquaredDist(p, Lerp(a, b, s)), SquaredDist(p, Lerp(a, b, t)));
  }

  /** The squared distance to a point of the line, in offsets from a. */
  lemma LerpOffset(p: Point, a: Point, b: Point, s: real, ux: real, uy: real, vx: real, vy: real)
    requires ux == p.0 - a.0 && uy == p.1 - a.1 && vx == b.0 - a.0 && vy == b.1 - a.1
    ensures SquaredDist(p, Lerp(a, b, s)) == (s * vx - ux) * (s * vx - ux) + (s * vy - uy) * (s * vy - uy)
    ensures SquaredDist(a, b) == vx * vx + vy * vy
  {
    var q := Lerp(a, b, s);
    assert q.0 - p.0 == s * vx - ux;
    assert q.1 - p.1 == s * vy - uy;
  }

  /** On the line through the origin with direction v, the foot of the perpendicular from u is closest. */
  lemma ClosestOnLine(ux: real, uy: real, vx: real, vy: real, s: real, t: real,
                      len2: real, qs: real, qt: real)
    requires len2 == vx * vx + vy * vy
    requires t * len2 == ux * vx + uy * vy
    requires qs == (s * vx - ux) * (s * vx - ux) + (s * vy - uy) * (s * vy - uy)
    requires qt == (t * vx - ux) * (t * vx - ux) + (t * vy - uy) * (t * vy - uy)
    ensures qt <= qs
  {
    SquareExpand(s, vx, ux);
    SquareExpand(s, vy, uy);
    SquareExpand(t, vx, ux);
    SquareExpand(t, vy, uy);
    var dot := ux * vx + uy * vy;
    assert s * s * (vx * vx) + s * s * (vy * vy) == s * s * len2;
    assert t * t * (vx * vx) + t * t * (vy * vy) == t * t * len2;
    assert 2.0 * s * (ux * vx) + 2.0 * s * (uy * vy) == 2.0 * s * dot;
    assert 2.0 * t * (ux * vx) + 2.0 * t * (uy * vy) == 2.0 * t * dot;
    SquarePositive(vx);
    SquarePositive(vy);
    WithinSegment(ux * ux + uy * uy, dot, len2, s, t, qs, qt);
  }

  lemma BeforeStart(u: real, dot: real, len2: real, s: real, q: real)
    requires 0.0 <= s && len2 >= 0.0 && dot < 0.0
    requires q == u - 2.0 * s * dot + s * s * len2
    ensures u <= q
  {
    assert s * dot <= 0.0;
    assert s * s * len2 >= 0.0;
  }

  lemma BeyondEnd(u: real, dot: real, len2: real, s: real, q: real, qb: real)
    requires 0.0 <= s <= 1.0 && len2 >= 0.0 && dot > len2
    requires q == u - 2.0 * s * dot + s * s * len2
    requires qb == u - 2.0 * dot + len2
    ensures qb <= q
  {
    var k := 2.0 * dot - len2 * (1.0 + s);
    assert q - qb == (1.0 - s) * k;
    assert k >= len2 * (1.0 - s);
    assert len2 * (1.0 - s) >= 0.0;
    assert (1.0 - s) * k >= 0.0;
  }

  lemma WithinSegment(u: real, dot: real, len2: real, s: real, t: real, q: real, r: real)
    requires len2 >= 0.0 && dot == t * len2
    requires q == u - 2.0 * s * dot + s * s * len2
    requires r == u - 2.0 * t * dot + t * t * len2
    ensures r <= q
  {
    assert q - r == (s - t) * (s - t) * len2;
    SquarePositive(s - t);
    assert (s - t) * (s - t) * len2 >= 0.0;
  }

  lemma SegmentDistAttained(p: Point, a: Point, b: Point)
    ensures exists s :: 0.0 <= s <= 1.0 && SquaredSegmentDist(p, a, b) == SquaredDist(p, Lerp(a, b, s))
  {
    var len2 := SquaredDist(a, b);
    if len2 == 0.0 {
      assert Lerp(a, b, 0.0) == a;
    } else {
      var t := Projection(p, a, b);
      if t < 0.0 {
        assert Lerp(a, b, 0.0) == a;
      } else if t > 1.0 {
        assert Lerp(a, b, 1.0) == b;
      } else {
        assert SquaredSegmentDist(p, a, b) == SquaredDist(p, Lerp(a, b, t));
      }
    }
  }

  /** A point of the segment has distance 0 from it. */
  lemma PointOnSegment(a: Point, b: Point, s: real)
    requires SquaredDist(a, b) > 0.0
    requires 0.0 <= s <= 1.0
    ensures SquaredSegmentDist(Lerp(a, b, s), a, b) == 0.0
  {
    SegmentDistIsMinimum(Lerp(a, b, s), a, b, s);
    SquaredMetric(Lerp(a, b, s), Lerp(a, b, s));
  }

  // ---- the documented examples ----

  lemma ClampExamples()
    ensures Clamp(10.0, 0.0, 5.0) == 5.0
    ensures Clamp(-7.0, -5.0, 5.0) == -5.0
    ensures Clamp(3.0, -10.0, 10.0) == 3.0
  {
  }

  lemma DistanceExamples()
    ensures ManhattanDist(ToPoint((0, 0)), ToPoint((5, 5))) == 10.0
    ensures ManhattanDist(ToPoint((0, 5)), ToPoint((10, 7))) == 12.0
    ensures ManhattanDist(ToPoint((12, 9)), ToPoint((2, 3))) == 16.0
    ensures ManhattanDist(ToPoint((0, 5)), ToPoint((5, 0))) == 10.0
    ensures SquaredDist(ToPoint((0, 0)), ToPoint((5, 5))) == 50.0
    ensures SquaredDist(ToPoint((0, 5)), ToPoint((10, 7))) == 104.0
    ensures SquaredDist(ToPoint((12, 9)), ToPoint((2, 3))) == 136.0
  {
  }

  lemma SegmentExamples()
    ensures SquaredSegmentDist(ToPoint((0, 2)), ToPoint((0, 0)), ToPoint((5, 5))) == 2.0
    ensures SquaredSegmentDist(ToPoint((3, 3)), ToPoint((0, 0)), ToPoint((5, 5))) == 0.0
    ensures SquaredSegmentDist(ToPoint((0, 1)), ToPoint((3, 2)), ToPoint((5, 9)))
         == SquaredDist(ToPoint((0, 1)), ToPoint((3, 2)))
    ensures SquaredSegmentDist(ToPoint((10, 15)), ToPoint((3, 2)), ToPoint((5, 9)))
         == SquaredDist(ToPoint((10, 15)), ToPoint((5, 9)))
  {
    assert Projection(ToPoint((0, 2)), ToPoint((0, 0)), ToPoint((5, 5))) == 0.2;
    assert Projection(ToPoint((3, 3)), ToPoint((0, 0)), ToPoint((5, 5))) == 0.6;
    assert Projection(ToPoint((0, 1)), ToPoint((3, 2)), ToPoint((5, 9))) < 0.0;
    assert Projection(ToPoint((10, 15)), ToPoint((3, 2)), ToPoint((5, 9))) > 1.0;
  }
}
