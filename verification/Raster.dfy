/** The integer raster loops of src/graphic/graphic.c: Bresenham's line and the midpoint circle. */
module Raster {

  /** A C int: every value the loops compute fits. */
  type int32 = v: int | -0x8000_0000 <= v < 0x8000_0000

  datatype Point = Point(x: int32, y: int32)

  function Abs(v: int): int {
    if v < 0 then -v else v
  }

  function Max(a: int, b: int): int {
    if a < b then b else a
  }

  // ---- draw_line ----

  /** How far the point a steps along x and b steps along y lies off the line to (dx, dy), times the length of the
      longer side: every step along x adds dy, every step along y takes dx away. */
  ghost function Deviation(a: nat, b: nat, dx: int, dy: int): int {
    if a > 0 then Deviation(a - 1, b, dx, dy) + dy
    else if b > 0 then Deviation(0, b - 1, dx, dy) - dx
    else 0
  }

  lemma {:induction false} DeviationIs(a: nat, b: nat, dx: int, dy: int)
    ensures Deviation(a, b, dx, dy) == a * dy - b * dx
  {
    if a > 0 {
      DeviationIs(a - 1, b, dx, dy);
      assert a * dy == (a - 1) * dy + dy;
    } else if b > 0 {
      DeviationIs(0, b - 1, dx, dy);
      assert b * dx == (b - 1) * dx + dx;
    }
  }

  lemma {:induction false} DeviationStep(a: nat, b: nat, dx: int, dy: int)
    ensures Deviation(a, b + 1, dx, dy) == Deviation(a, b, dx, dy) - dx
  {
    if a > 0 {
      DeviationStep(a - 1, b, dx, dy);
    }
  }

  lemma Multiple(x: int, n: int)
    requires 0 <= x
    ensures n >= 0 ==> x * n >= 0
    ensures n >= 1 ==> x * n >= x
    ensures n <= -1 ==> x * n <= -x
  {
    if n >= 1 {
      assert x * n == x * (n - 1) + x && x * (n - 1) >= 0;
    } else if n <= -1 {
      assert x * n == x * (n + 1) - x && x * (-n - 1) >= 0;
    }
  }

  /** A point within half a pixel that has made all steps along the longer side has made all along the other. */
  lemma Arrival(b: int, dx: int, dy: int)
    requires 0 < dx && 2 * Abs(dx * dy - b * dx) <= dx
    ensures b == dy
  {
    assert dx * dy - b * dx == dx * (dy - b);
    Multiple(dx, dy - b);
  }

  /** Points within half a pixel stay inside the box. */
  lemma InBox(a: int, b: int, dx: int, dy: int)
    requires 0 <= a <= dx && 0 < dx && 0 <= dy && 0 <= b && 2 * Abs(a * dy - b * dx) <= dx
    ensures b <= dy
  {
    assert a * dy - b * dx == -dx * (b - dy) - dy * (dx - a);
    Multiple(dx, b - dy);
    Multiple(dy, dx - a);
  }

  /** The k-th point of the line from p in the direction (sx, sy): a steps along x and b along y, of which those along
      the longer side are k, at most half a pixel off the ideal line. */
  ghost predicate OnLine(q: Point, p: Point, sx: int, sy: int, dx: int, dy: int, k: int) {
    exists a: nat, b: nat :: Steps(q, p, sx, sy, a, b) && a <= dx && b <= dy
                   && (dx >= dy ==> a == k) && (dy >= dx ==> b == k)
                   && 2 * Abs(a * dy - b * dx) <= Max(dx, dy)
  }

  ghost predicate Steps(q: Point, p: Point, sx: int, sy: int, a: int, b: int) {
    q.x == p.x + (if sx > 0 then a else -a) && q.y == p.y + (if sy > 0 then b else -b)
  }

  /** The bounds on the deviation that the choice of steps keeps. */
  ghost predicate Near(a: nat, b: nat, dx: int, dy: int) {
    var d := 2 * Deviation(a, b, dx, dy);
    if dx > dy then -dx < d <= dx else if dy > dx then -dy <= d < dy else d == 0
  }

  /** A point near the line is at most half a pixel off. */
  lemma NearLine(a: nat, b: nat, dx: int, dy: int)
    requires 0 <= dx && 0 <= dy && Near(a, b, dx, dy)
    ensures 2 * Abs(a * dy - b * dx) <= Max(dx, dy)
  {
    DeviationIs(a, b, dx, dy);
  }

  /** It is inside the box, and after Max(dx, dy) steps and not before it is the end. */
  lemma NearBox(a: nat, b: nat, dx: int, dy: int, k: int)
    requires 0 <= dx && 0 <= dy && 0 <= k <= Max(dx, dy) && Near(a, b, dx, dy)
    requires (dx >= dy ==> a == k) && (dy >= dx ==> b == k)
    ensures a <= dx && b <= dy && (k == Max(dx, dy) <==> a == dx && b == dy)
  {
    NearLine(a, b, dx, dy);
    if dx > dy {
      InBox(a, b, dx, dy);
      if k == dx {
        Arrival(b, dx, dy);
      }
    } else if dy > dx {
      InBox(b, a, dy, dx);
      if k == dy {
        Arrival(a, dy, dx);
      }
    }
  }

  /** One round of the loop: from a point near the line before the end to the next, which is near it too. */
  lemma NextPoint(a: nat, b: nat, dx: int, dy: int, k: int, err: int)
    requires 0 <= dx && 0 <= dy && 0 <= k < Max(dx, dy) && Near(a, b, dx, dy)
    requires (dx >= dy ==> a == k) && (dy >= dx ==> b == k) && err == dx - dy - Deviation(a, b, dx, dy)
    ensures var a2, b2 := if 2 * err > -dy then a + 1 else a, if 2 * err < dx then b + 1 else b;
            && Near(a2, b2, dx, dy) && (dx >= dy ==> a2 == k + 1) && (dy >= dx ==> b2 == k + 1)
            && dx - dy - Deviation(a2, b2, dx, dy) ==
               err - (if 2 * err > -dy then dy else 0) + (if 2 * err < dx then dx else 0)
    ensures -3 * Max(dx, dy) <= 2 * err <= 3 * Max(dx, dy)
    ensures (2 * err > -dy ==> a < dx) && (2 * err < dx ==> b < dy)
  {
    DeviationStep(a, b, dx, dy);
    DeviationStep(a + 1, b, dx, dy);
    NearBox(if 2 * err > -dy then a + 1 else a, if 2 * err < dx then b + 1 else b, dx, dy, k + 1);
  }

  /** The same with the bounds that the loop keeps. */
  ghost predicate OnPath(q: Point, p: Point, sx: int, sy: int, dx: int, dy: int, k: int) {
    exists a: nat, b: nat :: Steps(q, p, sx, sy, a, b) && (dx >= dy ==> a == k) && (dy >= dx ==> b == k) &&
        Near(a, b, dx, dy)
  }

  lemma PathOnLine(q: Point, p: Point, sx: int, sy: int, dx: int, dy: int, k: int)
    requires 0 <= dx && 0 <= dy && 0 <= k <= Max(dx, dy) && OnPath(q, p, sx, sy, dx, dy, k)
    ensures OnLine(q, p, sx, sy, dx, dy, k)
  {
    var a: nat, b: nat :| Steps(q, p, sx, sy, a, b) && (dx >= dy ==> a == k) && (dy >= dx ==> b == k) &&
        Near(a, b, dx, dy);
    NearLine(a, b, dx, dy);
    NearBox(a, b, dx, dy, k);
  }

  /** All of v, v + s, ..., v + n * s are ints. */
  ghost predicate Stays(v: int, s: int, n: int) {
    if s > 0 then -0x8000_0000 <= v && v + n < 0x8000_0000 else -0x8000_0000 <= v - n && v < 0x8000_0000
  }

  /** The choice of the next point (src/graphic/graphic.c:376-384); neither coordinate leaves the range of an int. */
  method Advance(x: int32, y: int32, err: int32, dx: int32, dy: int32, sx: int32, sy: int32, ghost from: Point,
                 ghost a: nat, ghost b: nat, ghost k: int)
    returns (x2: int32, y2: int32, err2: int32, ghost a2: nat, ghost b2: nat)
    requires 0 <= dx && 0 <= dy && 3 * Max(dx, dy) < 0x8000_0000
    requires Stays(from.x, sx, dx) && Stays(from.y, sy, dy)
    requires sx in {-1, 1} && sy in {-1, 1} && Steps(Point(x, y), from, sx, sy, a, b)
    requires 0 <= k < Max(dx, dy) && Near(a, b, dx, dy) && err == dx - dy - Deviation(a, b, dx, dy)
    requires (dx >= dy ==> a == k) && (dy >= dx ==> b == k)
    ensures Steps(Point(x2, y2), from, sx, sy, a2, b2)
    ensures Near(a2, b2, dx, dy) && err2 == dx - dy - Deviation(a2, b2, dx, dy)
    ensures (dx >= dy ==> a2 == k + 1) && (dy >= dx ==> b2 == k + 1)
  {
    NextPoint(a, b, dx, dy, k, err);
    x2, y2, err2 := x, y, err;
    a2, b2 := if 2 * err > -dy then a + 1 else a, if 2 * err < dx then b + 1 else b;
    var e2: int32 := err2 * 2;
    if e2 > -dy {
      err2 := err2 - dy;
      x2 := x2 + sx;
    }
    if e2 < dx {
      err2 := err2 + dx;
      y2 := y2 + sy;
    }
  }

  /** draw_line (src/graphic/graphic.c:347): the points at which the brush is set down. */
  method DrawLine(from: Point, to: Point) returns (points: seq<Point>)
    requires 3 * Max(Abs(to.x - from.x), Abs(to.y - from.y)) < 0x8000_0000
    ensures var dx, dy := Abs(to.x - from.x), Abs(to.y - from.y);
            && |points| == Max(dx, dy) + 1
            && points[0] == from && points[|points| - 1] == to
            && forall k :: 0 <= k < |points| ==>
                 OnLine(points[k], from, if from.x < to.x then 1 else -1, if from.y < to.y then 1 else -1, dx, dy, k)
  {
    var x0: int32, y0: int32 := from.x, from.y;
    var dx: int32 := Abs(to.x - x0);
    var dy: int32 := Abs(to.y - y0);
    var sx: int32 := if x0 < to.x then 1 else -1;
    var sy: int32 := if y0 < to.y then 1 else -1;
    var err: int32 := dx - dy;
    points := [];
    ghost var a: nat, b: nat, k := 0, 0, 0;
    while true
      invariant 0 <= k == |points| <= Max(dx, dy)
      invariant Near(a, b, dx, dy) && err == dx - dy - Deviation(a, b, dx, dy)
      invariant (dx >= dy ==> a == k) && (dy >= dx ==> b == k)
      invariant Steps(Point(x0, y0), from, sx, sy, a, b)
      invariant if k > 0 then points[0] == from else Point(x0, y0) == from
      invariant forall i :: 0 <= i < k ==> OnPath(points[i], from, sx, sy, dx, dy, i)
      decreases Max(dx, dy) - k
    {
      NearBox(a, b, dx, dy, k);
      assert OnPath(Point(x0, y0), from, sx, sy, dx, dy, k);
      points := points + [Point(x0, y0)];
      if x0 == to.x && y0 == to.y {
        break;
      }
      x0, y0, err, a, b := Advance(x0, y0, err, dx, dy, sx, sy, from, a, b, k);
      k := k + 1;
    }
    forall i | 0 <= i < |points|
      ensures OnLine(points[i], from, sx, sy, dx, dy, i)
    {
      PathOnLine(points[i], from, sx, sy, dx, dy, i);
    }
  }

  // ---- draw_circle ----

  /** The square of n as the sum of the first odd numbers, which is how the loop takes it. */
  ghost function Square(n: nat): int {
    if n == 0 then 0 else Square(n - 1) + 2 * n - 1
  }

  lemma {:induction false} SquareIs(n: nat)
    ensures Square(n) == n * n
  {
    if n > 0 {
      SquareIs(n - 1);
      assert n * n == (n - 1) * (n - 1) + 2 * n - 1;
    }
  }

  /** (x, y) is within half a pixel of the circle: it lies between the circles through (x, y - 1/2) and (x, y + 1/2). */
  ghost predicate OnCircle(p: Point, radius: int) {
    p.y * p.y - p.y <= radius * radius - p.x * p.x <= p.y * p.y + p.y
  }

  /** The same in terms of the sums. */
  ghost predicate NearCircle(x: nat, y: nat, radius: nat) {
    0 <= Square(x) + Square(y) - Square(radius) + y <= 2 * y
  }

  lemma NearOnCircle(p: Point, radius: nat)
    requires 0 <= p.x && 0 <= p.y && NearCircle(p.x, p.y, radius)
    ensures OnCircle(p, radius)
  {
    SquareIs(p.x);
    SquareIs(p.y);
    SquareIs(radius);
  }

  /** The decision variable of the loop, at a point of the octant. */
  ghost predicate Decides(d: int, x: nat, y: nat, radius: nat) {
    d == Square(x) + Square(y) - Square(radius) + 2 * x + 1 - y
  }

  /** The next point is near the circle too, as long as it belongs to the octant. */
  lemma NextOnCircle(d: int, x: nat, y: nat, radius: nat)
    requires x <= y && NearCircle(x, y, radius) && Decides(d, x, y, radius)
    ensures 2 * x + 1 - 2 * y <= d <= 2 * x + 1
    ensures d < 0 ==> Decides(d + 2 * x + 3, x + 1, y, radius) && NearCircle(x + 1, y, radius)
    ensures d >= 0 && x + 1 <= y - 1 ==>
            Decides(d + 2 * (x - y) + 5, x + 1, y - 1, radius) && NearCircle(x + 1, y - 1, radius)
  {
  }

  /** The choice of the next point (src/graphic/graphic.c:450-456). */
  method Turn(x: int32, y: int32, d: int32, ghost radius: int) returns (x2: int32, y2: int32, d2: int32)
    requires 0 <= x <= y <= radius < 0x2000_0000 && NearCircle(x, y, radius) && Decides(d, x, y, radius)
    ensures x2 == x + 1 && y - 1 <= y2 <= y
    ensures x2 <= y2 ==> NearCircle(x2, y2, radius) && Decides(d2, x2, y2, radius)
  {
    NextOnCircle(d, x, y, radius);
    x2, y2, d2 := x, y, d;
    if d < 0 {
      d2 := d + 2 * x + 3;
    } else {
      d2 := d + 2 * (x - y) + 5;
      y2 := y - 1;
    }
    x2 := x + 1;
  }

  /** draw_circle (src/graphic/graphic.c:417): the points of the octant whose mirror images are drawn. */
  method DrawCircle(radius: int) returns (octant: seq<Point>)
    requires -0x2000_0000 < radius < 0x2000_0000
    ensures forall k :: 0 <= k < |octant| ==> octant[k].x == k && k <= octant[k].y && OnCircle(octant[k], radius)
    ensures forall k :: 0 <= k < |octant| - 1 ==> octant[k].y - 1 <= octant[k + 1].y <= octant[k].y
    ensures radius >= 0 ==> |octant| > 0 && octant[0].y == radius && |octant| >= octant[|octant| - 1].y
    ensures radius < 0 ==> octant == []
  {
    var x0: int32, y0: int32 := 0, radius;
    var d: int32 := 1 - radius;
    octant := [];
    while x0 <= y0
      invariant 0 <= x0 == |octant| && y0 <= radius && x0 - y0 <= 2 + Abs(radius)
      invariant x0 <= y0 ==> NearCircle(x0, y0, radius) && Decides(d, x0, y0, radius)
      invariant forall k :: 0 <= k < |octant| ==>
                octant[k].x == k && k <= octant[k].y <= radius && NearCircle(k, octant[k].y, radius)
      invariant forall k :: 0 <= k < |octant| - 1 ==> octant[k].y - 1 <= octant[k + 1].y <= octant[k].y
      invariant if octant == [] then y0 == radius
                else octant[0].y == radius >= 0 && octant[|octant| - 1].y - 1 <= y0 <= octant[|octant| - 1].y
      decreases y0 - x0
    {
      octant := octant + [Point(x0, y0)];
      x0, y0, d := Turn(x0, y0, d, radius);
    }
    forall k | 0 <= k < |octant|
      ensures OnCircle(octant[k], radius)
    {
      NearOnCircle(octant[k], radius);
    }
  }
}
