/**
 * Grid geometry helpers (Functions.java): orthogonal adjacency, squared
 * distance, clamping and the nearest-point search used by findNearest.
 * Coordinates are unbounded integers; Java int overflow is not modelled.
 */
module Geometry {
  import opened Common

  datatype Point = Point(x: int, y: int)

  /** The cell a removed entity is parked at: just outside the grid. */
  const Offgrid: Point := Point(-1, -1)

  function Abs(n: int): nat {
    if n < 0 then -n else n
  }

  /** Integer.signum */
  function Signum(n: int): int {
    if n > 0 then 1 else if n < 0 then -1 else 0
  }

  /** Orthogonal neighbours: equal on one axis and one apart on the other. */
  predicate Adjacent(p: Point, q: Point) {
    (p.x == q.x && Abs(p.y - q.y) == 1) || (p.y == q.y && Abs(p.x - q.x) == 1)
  }

  lemma {:induction false} SquareBounds(n: int)
    ensures n == 0 ==> n * n == 0
    ensures Abs(n) == 1 ==> n * n == 1
    ensures Abs(n) >= 1 ==> n * n >= Abs(n)
    ensures Abs(n) >= 2 ==> n * n >= 4
  {
    if n < 0 {
      assert n * n == (-n) * (-n);
    }
  }

  function DistanceSquared(p: Point, q: Point): (d: int)
    ensures d >= 0
    ensures d == 0 <==> p == q
  {
    var dx := p.x - q.x;
    var dy := p.y - q.y;
    SquareBounds(dx);
    SquareBounds(dy);
    dx * dx + dy * dy
  }

  lemma DistanceSquaredSymmetric(p: Point, q: Point)
    ensures DistanceSquared(p, q) == DistanceSquared(q, p)
  {
    assert (p.x - q.x) * (p.x - q.x) == (q.x - p.x) * (q.x - p.x);
    assert (p.y - q.y) * (p.y - q.y) == (q.y - p.y) * (q.y - p.y);
  }

  lemma AdjacentSymmetricIrreflexive(p: Point, q: Point)
    ensures Adjacent(p, q) <==> Adjacent(q, p)
    ensures !Adjacent(p, p)
  {
  }

  /** Adjacency is exactly squared distance one. */
  lemma {:induction false} AdjacentIffUnitDistance(p: Point, q: Point)
    ensures Adjacent(p, q) <==> DistanceSquared(p, q) == 1
  {
    var dx := p.x - q.x;
    var dy := p.y - q.y;
    SquareBounds(dx);
    SquareBounds(dy);
  }

  /** The unit step from `p` toward `dest` along the x axis (no move when aligned). */
  function StepX(p: Point, dest: Point): Point {
    Point(p.x + Signum(dest.x - p.x), p.y)
  }

  /** The unit step from `p` toward `dest` along the y axis (no move when aligned). */
  function StepY(p: Point, dest: Point): Point {
    Point(p.x, p.y + Signum(dest.y - p.y))
  }

  /** A coordinate one closer to zero has a strictly smaller square. */
  lemma {:induction false} CloserSquare(a: int, b: int)
    requires Abs(b) + 1 == Abs(a)
    ensures b * b < a * a
  {
    var m := Abs(b);
    assert a * a == Abs(a) * Abs(a) by {
      if a < 0 { assert a * a == (-a) * (-a); }
    }
    assert b * b == m * m by {
      if b < 0 { assert b * b == (-b) * (-b); }
    }
    assert (m + 1) * (m + 1) == m * m + 2 * m + 1;
  }

  /** A unit step toward a target along one axis brings the point strictly closer. */
  lemma {:induction false} StepTowardIsCloser(p: Point, dest: Point, r: Point)
    requires (r == Point(p.x + Signum(dest.x - p.x), p.y) && dest.x != p.x)
          || (r == Point(p.x, p.y + Signum(dest.y - p.y)) && dest.y != p.y)
    ensures Adjacent(p, r)
    ensures DistanceSquared(r, dest) < DistanceSquared(p, dest)
  {
    if r.y == p.y && dest.x != p.x && r == Point(p.x + Signum(dest.x - p.x), p.y) {
      CloserSquare(p.x - dest.x, r.x - dest.x);
    } else {
      CloserSquare(p.y - dest.y, r.y - dest.y);
    }
  }

  function Clamp(value: int, low: int, high: int): (r: int)
    ensures r <= high
    ensures low <= high ==> low <= r
    ensures low <= value <= high ==> r == value
    ensures value <= low <= high ==> r == low
    ensures low <= high <= value ==> r == high
  {
    var atLeastLow := if value > low then value else low;
    if high < atLeastLow then high else atLeastLow
  }

  /** `positions[k]` is at least as close to `pos` as every listed position. */
  ghost predicate IsNearest(positions: seq<Point>, pos: Point, k: nat)
    requires k < |positions|
  {
    forall j :: 0 <= j < |positions| ==> DistanceSquared(positions[k], pos) <= DistanceSquared(positions[j], pos)
  }

  /**
   * Functions.nearestEntity over the entities' positions: the index of the
   * first position of minimal squared distance (ties keep the earlier one,
   * since the comparison is strict), or None for an empty list.
   */
  method NearestEntity(positions: seq<Point>, pos: Point) returns (r: Option<nat>)
    ensures r.None? <==> |positions| == 0
    ensures r.Some? ==> r.value < |positions| && IsNearest(positions, pos, r.value)
    ensures r.Some? ==> forall j :: 0 <= j < r.value ==>
              DistanceSquared(positions[r.value], pos) < DistanceSquared(positions[j], pos)
  {
    if |positions| == 0 {
      return None;
    }
    var nearest := 0;
    var nearestDistance := DistanceSquared(positions[0], pos);
    for i := 0 to |positions|
      invariant nearest <= i || nearest == 0
      invariant nearest < |positions| && nearestDistance == DistanceSquared(positions[nearest], pos)
      invariant forall j :: 0 <= j < i ==> nearestDistance <= DistanceSquared(positions[j], pos)
      invariant forall j :: 0 <= j < nearest ==> nearestDistance < DistanceSquared(positions[j], pos)
    {
      var otherDistance := DistanceSquared(positions[i], pos);
      if otherDistance < nearestDistance {
        nearest, nearestDistance := i, otherDistance;
      }
    }
    return Some(nearest);
  }
}
