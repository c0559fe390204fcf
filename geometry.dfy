// Planar points, the NaN-aware number type the annotation documents carry,
// and the nearest-sample search (`util.argnearest`, numpy's `argmin`).
module Geometry {
  import opened Wrappers

  /** A physical-space (x, y) coordinate. */
  datatype Point = Point(x: real, y: real)

  /** A float as it arrives from a caller or a saved document: a value or NaN. */
  datatype Num = Finite(r: real) | NaN

  /**
   * Real multiplication behind a name, so that facts proved about a product
   * of two distinct parameters can be applied to a square.
   */
  function Mul(a: real, b: real): real { a * b }

  lemma MulPositive(a: real, b: real)
    requires (a > 0.0 && b > 0.0) || (a < 0.0 && b < 0.0)
    ensures Mul(a, b) > 0.0
  {
  }

  /** A square is zero exactly at zero and positive elsewhere. */
  lemma Square(a: real)
    ensures a == 0.0 ==> Mul(a, a) == 0.0
    ensures a != 0.0 ==> Mul(a, a) > 0.0
  {
    if a != 0.0 {
      MulPositive(a, a);
    }
  }

  /**
   * Squared Euclidean distance. The source compares `sqrt(dx**2 + dy**2)`;
   * since the square root is monotone, every comparison and every argmin is
   * the same on the squares.
   */
  function Dist2(p: Point, q: Point): real {
    Mul(p.x - q.x, p.x - q.x) + Mul(p.y - q.y, p.y - q.y)
  }

  /** `dist(p, q) < threshold`, stated on squares (false for any threshold <= 0). */
  predicate Within(p: Point, q: Point, threshold: real) {
    threshold > 0.0 && Dist2(p, q) < Mul(threshold, threshold)
  }

  /** The squared distance is a metric's square: never negative, zero only between equal points. */
  lemma Dist2Zero(p: Point, q: Point)
    ensures Dist2(p, q) >= 0.0
    ensures Dist2(p, q) == 0.0 <==> p == q
  {
    Square(p.x - q.x);
    Square(p.y - q.y);
  }

  /** Every point is within any positive threshold of itself. */
  lemma WithinSelf(p: Point, threshold: real)
    requires threshold > 0.0
    ensures Within(p, p, threshold)
  {
    Dist2Zero(p, p);
    Square(threshold);
  }

  /** The first index at which `pts` is nearest to `p` (numpy `argmin` on a non-empty array). */
  function FirstNearest(p: Point, pts: seq<Point>): (k: nat)
    requires |pts| > 0
    ensures k < |pts|
    ensures forall j :: 0 <= j < |pts| ==> Dist2(p, pts[k]) <= Dist2(p, pts[j])
    ensures forall j :: 0 <= j < k ==> Dist2(p, pts[k]) < Dist2(p, pts[j])
    decreases |pts|
  {
    if |pts| == 1 then 0
    else
      var k := FirstNearest(p, pts[..|pts| - 1]);
      if Dist2(p, pts[|pts| - 1]) < Dist2(p, pts[k]) then |pts| - 1 else k
  }

  /**
   * `util.argnearest(x, y, xa, ya)`: the first index minimising the distance
   * to `p`; numpy raises on an empty array, which is `None` here.
   */
  function ArgNearest(p: Point, pts: seq<Point>): (r: Option<nat>)
    ensures r.None? <==> |pts| == 0
    ensures r.Some? ==> r.value < |pts|
    ensures r.Some? ==> forall j :: 0 <= j < |pts| ==> Dist2(p, pts[r.value]) <= Dist2(p, pts[j])
    ensures r.Some? ==> forall j :: 0 <= j < r.value ==> Dist2(p, pts[r.value]) < Dist2(p, pts[j])
  {
    if |pts| == 0 then None else Some(FirstNearest(p, pts))
  }

  /** A sample of the sequence snaps to itself: its first nearest index holds the same point. */
  lemma {:induction false} ArgNearestOfMember(q: Point, pts: seq<Point>)
    requires q in pts
    ensures ArgNearest(q, pts).Some? && pts[ArgNearest(q, pts).value] == q
  {
    var m :| 0 <= m < |pts| && pts[m] == q;
    var k := ArgNearest(q, pts).value;
    Dist2Zero(q, pts[m]);
    Dist2Zero(q, pts[k]);
  }
}
