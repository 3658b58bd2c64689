/**
 Rectangular exclusion zones: which stretch of a spoke lies in the rectangle.

 Angles and square roots are given: a spoke is a direction vector, and a
 rectangle comes with the length of its edge. Distances and tolerances are
 exact reals, and the code's tolerance is kept.
 */
module RectangleClip {
  import opened Options
  import opened Slabs

  /** Below this, a cross product counts as zero. */
  const TOLERANCE := 0.0000000001
  /** Below this, an edge or a width counts as degenerate. */
  const DEGENERATE := 0.000001

  datatype Vec = Vec(x: real, y: real)

  function Plus(a: Vec, b: Vec): Vec { Vec(a.x + b.x, a.y + b.y) }
  function Minus(a: Vec, b: Vec): Vec { Vec(a.x - b.x, a.y - b.y) }
  function Scale(k: real, a: Vec): Vec { Vec(k * a.x, k * a.y) }
  function Cross(a: Vec, b: Vec): real { a.x * b.y - a.y * b.x }
  function Dot(a: Vec, b: Vec): real { a.x * b.x + a.y * b.y }
  function Abs(r: real): real { if r < 0.0 then -r else r }

  const ORIGIN := Vec(0.0, 0.0)

  /** Two corners that span an edge, the width across it, and the length of the edge. */
  datatype Rect = Rect(corner: Vec, next: Vec, width: real, edgeLen: real)
  {
    function Edge(): Vec { Minus(next, corner) }

    predicate Measured() {
      edgeLen >= 0.0 && edgeLen * edgeLen == Dot(Edge(), Edge())
    }

    predicate Degenerate() {
      edgeLen < DEGENERATE || width < DEGENERATE
    }

    /** The side across the edge, a quarter turn clockwise from it. */
    function Across(): Vec
      requires edgeLen > 0.0
    {
      Vec(Edge().y / edgeLen * width, -Edge().x / edgeLen * width)
    }

    function Corners(): (c: seq<Vec>)
      requires edgeLen > 0.0
      ensures |c| == 4
    {
      [corner, next, Plus(next, Across()), Plus(corner, Across())]
    }
  }

  /** The closed rectangle, measured along its two sides. */
  ghost predicate InRect(r: Rect, p: Vec)
    requires r.edgeLen > 0.0
  {
    var v := Minus(p, r.corner);
    && 0.0 <= Dot(v, r.Edge()) <= Dot(r.Edge(), r.Edge())
    && 0.0 <= Dot(v, r.Across()) <= Dot(r.Across(), r.Across())
  }

  // ----- Point in polygon

  function EdgeCross(corners: seq<Vec>, i: nat, p: Vec): real
    requires i < |corners|
  {
    Cross(Minus(corners[(i + 1) % |corners|], corners[i]), Minus(p, corners[i]))
  }

  /** Not clearly left of one edge and clearly right of another. */
  predicate InsidePolygon(p: Vec, corners: seq<Vec>) {
    |corners| >= 3 &&
    !exists i: nat, j: nat :: i < |corners| && j < |corners| &&
       EdgeCross(corners, i, p) >= 0.0000000001 && EdgeCross(corners, j, p) <= -0.0000000001
  }

  method IsPointInPolygon(p: Vec, corners: seq<Vec>) returns (inside: bool)
    ensures inside <==> InsidePolygon(p, corners)
  {
    hide EdgeCross;
    var n := |corners|;
    if n < 3 {
      return false;
    }
    var sign: Option<bool> := None;
    ghost var seen: nat := 0;
    for i := 0 to n
      invariant sign.None? ==> forall k: nat :: k < i ==> Abs(EdgeCross(corners, k, p)) < TOLERANCE
      invariant sign.Some? ==> seen < i && Abs(EdgeCross(corners, seen, p)) >= TOLERANCE
      invariant sign.Some? ==> sign.value == (EdgeCross(corners, seen, p) > 0.0)
      invariant sign.Some? ==> forall k: nat :: k < i ==>
                  Abs(EdgeCross(corners, k, p)) < TOLERANCE || sign.value == (EdgeCross(corners, k, p) > 0.0)
    {
      var cross := EdgeCross(corners, i, p);
      if Abs(cross) < TOLERANCE {
        continue;
      }
      var current := cross > 0.0;
      if sign.None? {
        sign := Some(current);
        seen := i;
      } else if sign.value != current {
        return false;
      }
    }
    return true;
  }

  // ----- Intersections

  /** Distance along the ray at which it meets the edge from a to b. */
  function EdgeHit(a: Vec, b: Vec, ray: Vec): Option<real> {
    var e := Minus(b, a);
    var denom := Cross(ray, e);
    if Abs(denom) < TOLERANCE then None
    else
      var t := Cross(a, e) / denom;
      var s := Cross(a, ray) / denom;
      if t > 0.0 && 0.0 <= s <= 1.0 then Some(t) else None
  }

  /** The point of the ray at distance t is the point of the edge that is the part s along it. */
  ghost predicate MeetsAt(a: Vec, b: Vec, ray: Vec, t: real, s: real) {
    t * ray.x == a.x + s * (b.x - a.x) && t * ray.y == a.y + s * (b.y - a.y)
  }

  /** A hit is a distance ahead at which the ray meets the edge, unless the two are all but parallel. */
  lemma HitMeans(a: Vec, b: Vec, ray: Vec, t: real)
    ensures EdgeHit(a, b, ray) == Some(t) <==>
            && Abs(ray.x * (b.y - a.y) - ray.y * (b.x - a.x)) >= 0.0000000001
            && t > 0.0 && exists s: real :: 0.0 <= s <= 1.0 && MeetsAt(a, b, ray, t, s)
  {
    var e := Minus(b, a);
    var d := Cross(ray, e);
    assert d == ray.x * (b.y - a.y) - ray.y * (b.x - a.x);
    if Abs(d) >= TOLERANCE {
      var t', s' := Cross(a, e) / d, Cross(a, ray) / d;
      MeetingPoint(a, e, ray, t', s', d);
      assert MeetsAt(a, b, ray, t', s');
      hide MeetsAt, Cross;
      if s: real :| t > 0.0 && 0.0 <= s <= 1.0 && MeetsAt(a, b, ray, t, s) {
        MeetingIsUnique(a, b, ray, t, s, d);
      }
    }
  }

  lemma MeetingPoint(a: Vec, e: Vec, ray: Vec, t: real, s: real, d: real)
    requires d == ray.x * e.y - ray.y * e.x && d != 0.0
    requires t == (a.x * e.y - a.y * e.x) / d && s == (a.x * ray.y - a.y * ray.x) / d
    ensures t * ray.x == a.x + s * e.x && t * ray.y == a.y + s * e.y
  {
    var p, q := a.x * e.y - a.y * e.x, a.x * ray.y - a.y * ray.x;
    assert t * d == p && s * d == q;
    assert p * ray.x == a.x * d + q * e.x;
    assert p * ray.y == a.y * d + q * e.y;
    Divided(t, p, d, ray.x, a.x, s, q, e.x);
    Divided(t, p, d, ray.y, a.y, s, q, e.y);
  }

  lemma Divided(t: real, p: real, d: real, r: real, a: real, s: real, q: real, e: real)
    requires d != 0.0 && t * d == p && s * d == q && p * r == a * d + q * e
    ensures t * r == a + s * e
  {
    assert (t * r - (a + s * e)) * d == p * r - a * d - q * e;
  }

  lemma MeetingIsUnique(a: Vec, b: Vec, ray: Vec, t: real, s: real, d: real)
    requires MeetsAt(a, b, ray, t, s)
    requires d == Cross(ray, Minus(b, a)) && d != 0.0
    ensures t == Cross(a, Minus(b, a)) / d && s == Cross(a, ray) / d
  {
    var ex, ey := b.x - a.x, b.y - a.y;
    assert t * d == (t * ray.x) * ey - (t * ray.y) * ex;
    assert (t * ray.x) * ey - (t * ray.y) * ex == a.x * ey - a.y * ex;
    UniqueAlong(a, ex, ey, ray, t, s);
    assert s * d == a.x * ray.y - a.y * ray.x;
  }

  lemma UniqueAlong(a: Vec, ex: real, ey: real, ray: Vec, t: real, s: real)
    requires t * ray.x == a.x + s * ex && t * ray.y == a.y + s * ey
    ensures s * (ray.x * ey - ray.y * ex) == a.x * ray.y - a.y * ray.x
  {
    assert (t * ray.x) * ray.y == (t * ray.y) * ray.x;
    assert (a.x + s * ex) * ray.y == (a.y + s * ey) * ray.x;
  }

  predicate Sorted(ts: seq<real>) {
    forall i, j :: 0 <= i < j < |ts| ==> ts[i] <= ts[j]
  }

  function Insert(t: real, ts: seq<real>): (r: seq<real>)
    requires Sorted(ts)
    ensures Sorted(r) && |r| == |ts| + 1
    ensures forall x :: x in r <==> x == t || x in ts
  {
    if ts == [] then [t]
    else if t <= ts[0] then [t] + ts
    else
      var rest := Insert(t, ts[1..]);
      assert ts == [ts[0]] + ts[1..];
      assert forall i :: 0 <= i < |rest| ==> rest[i] in rest;
      [ts[0]] + rest
  }

  function Sort(ts: seq<real>): (r: seq<real>)
    ensures Sorted(r) && |r| == |ts|
    ensures forall x :: x in r <==> x in ts
  {
    if ts == [] then []
    else
      assert ts == [ts[0]] + ts[1..];
      Insert(ts[0], Sort(ts[1..]))
  }

  function HitOn(corners: seq<Vec>, i: nat, ray: Vec): Option<real>
    requires i < |corners| == 4
  {
    EdgeHit(corners[i], corners[(i + 1) % 4], ray)
  }

  function HitList(corners: seq<Vec>, ray: Vec, k: nat): seq<real>
    requires k <= |corners| == 4
  {
    if k == 0 then []
    else
      var hit := HitOn(corners, k - 1, ray);
      HitList(corners, ray, k - 1) + if hit.Some? then [hit.value] else []
  }

  /** The stretch of a ray to exclude, from its sorted intersections. */
  function Stretch(originInside: bool, ts: seq<real>): Option<(real, real)> {
    if originInside then
      if ts != [] then Some((0.0, ts[0])) else None
    else
      if |ts| >= 2 then Some((ts[0], ts[1])) else None
  }

  method ClipRay(corners: seq<Vec>, ray: Vec, originInside: bool) returns (stretch: Option<(real, real)>)
    requires |corners| == 4
    ensures stretch == Stretch(originInside, Sort(HitList(corners, ray, 4)))
  {
    hide EdgeHit;
    var intersections: seq<real> := [];
    for i := 0 to 4
      invariant intersections == HitList(corners, ray, i)
    {
      var hit := HitOn(corners, i, ray);
      if hit.Some? {
        intersections := intersections + [hit.value];
      }
    }
    stretch := Stretch(originInside, Sort(intersections));
  }

  // ----- Coordinates along the two sides

  /** A quarter turn clockwise, scaled. */
  function Turned(m: real, e: Vec): Vec { Vec(m * e.y, -(m * e.x)) }

  lemma SidesAreSquare(r: Rect) returns (m: real)
    requires r.Measured() && !r.Degenerate()
    ensures m > 0.0 && r.Across() == Turned(m, r.Edge()) && Dot(r.Edge(), r.Edge()) > 0.0
    ensures m == r.width / r.edgeLen
  {
    m := r.width / r.edgeLen;
    Quotient(r.Edge().y, r.edgeLen, r.width);
    Quotient(r.Edge().x, r.edgeLen, r.width);
    assert r.edgeLen * r.edgeLen > 0.0;
  }

  /**
   The rectangle lies to the right of its edge, seen from the first corner to the
   second: along the edge no farther than its ends, and across it no farther
   than the width. The cross product is the distance to the right times the
   length of the edge.
   */
  lemma InRectMeans(r: Rect, p: Vec)
    requires r.Measured() && !r.Degenerate()
    ensures InRect(r, p) <==>
            var v := Vec(p.x - r.corner.x, p.y - r.corner.y);
            var e := Vec(r.next.x - r.corner.x, r.next.y - r.corner.y);
            && 0.0 <= Dot(v, e) <= r.edgeLen * r.edgeLen
            && 0.0 <= Cross(v, e) <= r.width * r.edgeLen
  {
    hide Dot, Cross, Rect.Across;
    var v, e := Minus(p, r.corner), r.Edge();
    var m := SidesAreSquare(r);
    DotTurned(v, m, e);
    AcrossLength(r, m);
    CancelBounds(m, Cross(v, e), r.width * r.edgeLen);
  }

  lemma AcrossLength(r: Rect, m: real)
    requires r.Measured() && !r.Degenerate() && m == r.width / r.edgeLen && r.Across() == Turned(m, r.Edge())
    ensures Dot(r.Across(), r.Across()) == m * (r.width * r.edgeLen)
  {
    hide Dot, Rect.Across;
    assert m > 0.0 && Dot(r.Edge(), r.Edge()) > 0.0 by {
      assert r.edgeLen * r.edgeLen > 0.0;
    }
    TurnedLength(m, r.Edge());
    WidthIs(r, m);
    assert m * m * (r.edgeLen * r.edgeLen) == m * (m * (r.edgeLen * r.edgeLen));
  }

  lemma WidthIs(r: Rect, m: real)
    requires r.edgeLen > 0.0 && m == r.width / r.edgeLen
    ensures m * (r.edgeLen * r.edgeLen) == r.width * r.edgeLen
  {
    assert m * r.edgeLen == r.width;
  }

  lemma CancelBounds(m: real, x: real, y: real)
    requires m > 0.0
    ensures 0.0 <= m * x <= m * y <==> 0.0 <= x <= y
  {
    if x < 0.0 { assert m * x < 0.0; } else { assert m * x >= 0.0; }
    assert m * y - m * x == m * (y - x);
    if x <= y { assert m * (y - x) >= 0.0; } else { assert m * (x - y) > 0.0; }
  }

  lemma Quotient(a: real, b: real, c: real)
    requires b > 0.0
    ensures a / b * c == c / b * a && -a / b * c == -(c / b * a)
  {
  }

  lemma TurnedLength(m: real, e: Vec)
    requires m > 0.0 && Dot(e, e) > 0.0
    ensures Dot(Turned(m, e), Turned(m, e)) == m * m * Dot(e, e) && m * m * Dot(e, e) > 0.0
  {
    assert m * m > 0.0;
  }

  /** A rectangle without its code: a corner, an edge, and the ratio of width to edge. */
  datatype Frame = Frame(c: Vec, e: Vec, m: real)
  {
    predicate Proper() { m > 0.0 && Dot(e, e) > 0.0 }
    function F(): Vec { Turned(m, e) }
    function Q(): real { Dot(e, e) }
  }

  /** The coordinates of a point moving along a ray: 0 to 1 along the edge, 0 to 1 across it. */
  ghost predicate Coordinates(g: Frame, ray: Vec, a: Line, b: Line) {
    && a.start * g.Q() == -Dot(g.c, g.e) && a.slope * g.Q() == Dot(ray, g.e)
    && b.start * (g.m * g.Q()) == Cross(g.e, g.c) && b.slope * (g.m * g.Q()) == Cross(ray, g.e)
  }

  lemma CoordinatesExist(g: Frame, ray: Vec) returns (a: Line, b: Line)
    requires g.Proper()
    ensures Coordinates(g, ray, a, b)
  {
    hide Dot, Cross;
    var q, mq := g.Q(), g.m * g.Q();
    a := QuotientLine(-Dot(g.c, g.e), Dot(ray, g.e), q);
    b := QuotientLine(Cross(g.e, g.c), Cross(ray, g.e), mq);
  }

  lemma QuotientLine(start: real, slope: real, q: real) returns (l: Line)
    requires q > 0.0
    ensures l.start * q == start && l.slope * q == slope
  {
    l := Line(start / q, slope / q);
  }

  lemma Along(q: real, l: Line, start: real, slope: real, t: real)
    requires l.start * q == start && l.slope * q == slope
    ensures l.At(t) * q == start + slope * t
  {
    assert l.slope * t * q == slope * t;
  }

  /** What the coordinates say about the point at distance t. */
  lemma CoordinatesMean(g: Frame, ray: Vec, a: Line, b: Line, t: real)
    requires g.Proper() && Coordinates(g, ray, a, b)
    ensures var v := Minus(Scale(t, ray), g.c);
            && a.At(t) * g.Q() == Dot(v, g.e) && b.At(t) * (g.m * g.Q()) == Cross(v, g.e)
            && v == Plus(Scale(a.At(t), g.e), Scale(b.At(t), g.F()))
  {
    var v := Minus(Scale(t, ray), g.c);
    Along(g.Q(), a, -Dot(g.c, g.e), Dot(ray, g.e), t);
    Along(g.m * g.Q(), b, Cross(g.e, g.c), Cross(ray, g.e), t);
    DotCross(t, ray, g.c, g.e);
    Basis(g, v, a.At(t), b.At(t));
  }

  lemma DotCross(t: real, ray: Vec, c: Vec, e: Vec)
    ensures Dot(Minus(Scale(t, ray), c), e) == -Dot(c, e) + Dot(ray, e) * t
    ensures Cross(Minus(Scale(t, ray), c), e) == Cross(e, c) + Cross(ray, e) * t
  {
  }

  /** A vector is the sum of its parts along the two sides. */
  lemma Basis(g: Frame, v: Vec, x: real, y: real)
    requires g.Proper() && x * g.Q() == Dot(v, g.e) && y * (g.m * g.Q()) == Cross(v, g.e)
    ensures v == Plus(Scale(x, g.e), Scale(y, g.F()))
  {
    var q, z := g.Q(), y * g.m;
    assert z * q == Cross(v, g.e);
    var ex, ey := g.e.x, g.e.y;
    Combine(q, x, z, Dot(v, g.e), Cross(v, g.e), ex, ey);
    Combine(q, x, z, Dot(v, g.e), Cross(v, g.e), ey, -ex);
    Expand(v, g.e);
    assert (x * ex + z * ey) * q == v.x * q;
    assert (x * ey - z * ex) * q == v.y * q;
    Cancel(x * ex + z * ey, v.x, q);
    Cancel(x * ey - z * ex, v.y, q);
  }

  lemma Combine(q: real, x: real, z: real, d: real, c: real, ex: real, ey: real)
    requires x * q == d && z * q == c
    ensures (x * ex + z * ey) * q == d * ex + c * ey
  {
    assert x * ex * q == d * ex;
    assert z * ey * q == c * ey;
  }

  lemma Expand(v: Vec, e: Vec)
    ensures Dot(v, e) * e.x + Cross(v, e) * e.y == v.x * Dot(e, e)
    ensures Dot(v, e) * e.y + Cross(v, e) * -e.x == v.y * Dot(e, e)
  {
  }

  lemma Cancel(a: real, b: real, q: real)
    requires q > 0.0 && a * q == b * q
    ensures a == b
  {
    assert (a - b) * q == 0.0;
  }

  /** Conversely, the parts are the coordinates. */
  lemma BasisUnique(g: Frame, v: Vec, x: real, y: real)
    requires g.Proper() && v == Plus(Scale(x, g.e), Scale(y, g.F()))
    ensures x * g.Q() == Dot(v, g.e) && y * (g.m * g.Q()) == Cross(v, g.e)
  {
    var ex, ey, z := g.e.x, g.e.y, y * g.m;
    assert v.x == x * ex + z * ey && v.y == x * ey - z * ex;
    DotOfParts(x, z, ex, ey);
    assert z * g.Q() == y * (g.m * g.Q());
  }

  lemma DotOfParts(x: real, z: real, ex: real, ey: real)
    ensures (x * ex + z * ey) * ex + (x * ey - z * ex) * ey == x * (ex * ex + ey * ey)
    ensures (x * ex + z * ey) * ey - (x * ey - z * ex) * ex == z * (ex * ex + ey * ey)
  {
  }

  // ----- Solving for the intersection with one edge

  lemma Solve(a: Vec, d: Vec, ray: Vec, t: real, s: real)
    requires Cross(ray, d) != 0.0
    ensures Scale(t, ray) == Plus(a, Scale(s, d)) <==>
            t == Cross(a, d) / Cross(ray, d) && s == Cross(a, ray) / Cross(ray, d)
  {
    var det := Cross(ray, d);
    if Scale(t, ray) == Plus(a, Scale(s, d)) {
      SolveForward(a, d, ray, t, s);
      assert t * det == Cross(a, d) && s * det == Cross(a, ray);
    } else if t == Cross(a, d) / det && s == Cross(a, ray) / det {
      assert t * det == Cross(a, d) && s * det == Cross(a, ray);
      SolveBack(a, d, ray, t, s);
    }
  }

  lemma SolveForward(a: Vec, d: Vec, ray: Vec, t: real, s: real)
    requires t * ray.x == a.x + s * d.x && t * ray.y == a.y + s * d.y
    ensures t * Cross(ray, d) == Cross(a, d) && s * Cross(ray, d) == Cross(a, ray)
  {
    calc {
      t * Cross(ray, d);
      (t * ray.x) * d.y - (t * ray.y) * d.x;
      (a.x + s * d.x) * d.y - (a.y + s * d.y) * d.x;
      Cross(a, d);
    }
    calc {
      s * Cross(ray, d);
      ray.x * (s * d.y) - ray.y * (s * d.x);
      ray.x * (t * ray.y - a.y) - ray.y * (t * ray.x - a.x);
      Cross(a, ray);
    }
  }

  lemma SolveBack(a: Vec, d: Vec, ray: Vec, t: real, s: real)
    requires Cross(ray, d) != 0.0
    requires t * Cross(ray, d) == Cross(a, d) && s * Cross(ray, d) == Cross(a, ray)
    ensures Scale(t, ray) == Plus(a, Scale(s, d))
  {
    var det := Cross(ray, d);
    SolveOne(det, t, s, Cross(a, d), Cross(a, ray), ray.x, a.x, d.x);
    SolveOne(det, t, s, Cross(a, d), Cross(a, ray), ray.y, a.y, d.y);
    Jacobi(a, d, ray);
    CancelNonZero(t * ray.x, a.x + s * d.x, det);
    CancelNonZero(t * ray.y, a.y + s * d.y, det);
  }

  lemma SolveOne(det: real, t: real, s: real, p: real, q: real, r: real, a: real, d: real)
    requires t * det == p && s * det == q
    ensures t * r * det == p * r && (a + s * d) * det == a * det + q * d
  {
    assert t * r * det == (t * det) * r;
    assert s * d * det == (s * det) * d;
  }

  lemma Jacobi(a: Vec, d: Vec, ray: Vec)
    ensures Cross(a, d) * ray.x == a.x * Cross(ray, d) + Cross(a, ray) * d.x
    ensures Cross(a, d) * ray.y == a.y * Cross(ray, d) + Cross(a, ray) * d.y
  {
  }

  lemma CancelNonZero(a: real, b: real, q: real)
    requires q != 0.0 && a * q == b * q
    ensures a == b
  {
    assert (a - b) * q == 0.0;
  }

  // ----- Edges in coordinates

  lemma OnEdge(g: Frame, ray: Vec, a: Line, b: Line, t: real, s: real,
               from: Vec, d: Vec, x: real, y: real, dx: real, dy: real)
    requires g.Proper() && Coordinates(g, ray, a, b)
    requires from == Plus(g.c, Plus(Scale(x, g.e), Scale(y, g.F())))
    requires d == Plus(Scale(dx, g.e), Scale(dy, g.F()))
    ensures Scale(t, ray) == Plus(from, Scale(s, d)) <==> a.At(t) == x + s * dx && b.At(t) == y + s * dy
  {
    hide Line.At, Cross, Dot, Turned, Coordinates;
    CoordinatesMean(g, ray, a, b, t);
    var v := Minus(Scale(t, ray), g.c);
    var x', y' := x + s * dx, y + s * dy;
    CombineParts(g.e, g.F(), x, y, s, dx, dy);
    if Scale(t, ray) == Plus(from, Scale(s, d)) {
      assert v == Plus(Scale(x', g.e), Scale(y', g.F()));
      SameCoordinates(g, v, x', y', a.At(t), b.At(t));
    }
  }

  lemma SameCoordinates(g: Frame, v: Vec, x: real, y: real, ax: real, bx: real)
    requires g.Proper() && v == Plus(Scale(x, g.e), Scale(y, g.F()))
    requires ax * g.Q() == Dot(v, g.e) && bx * (g.m * g.Q()) == Cross(v, g.e)
    ensures ax == x && bx == y
  {
    hide Cross, Dot, Turned, Scale, Plus;
    BasisUnique(g, v, x, y);
    Cancel(x, ax, g.Q());
    assert g.m * g.Q() > 0.0;
    Cancel(y, bx, g.m * g.Q());
  }

  lemma CombineParts(e: Vec, f: Vec, x: real, y: real, s: real, dx: real, dy: real)
    ensures Plus(Plus(Scale(x, e), Scale(y, f)), Scale(s, Plus(Scale(dx, e), Scale(dy, f)))) ==
            Plus(Scale(x + s * dx, e), Scale(y + s * dy, f))
  {
    CombineOne(x, s, dx, e.x);
    CombineOne(x, s, dx, e.y);
    CombineOne(y, s, dy, f.x);
    CombineOne(y, s, dy, f.y);
  }

  lemma CombineOne(x: real, s: real, dx: real, e: real)
    ensures (x + s * dx) * e == x * e + s * (dx * e)
  {
  }

  function CornerOf(g: Frame, side: nat): Vec {
    if side == 0 then g.c
    else if side == 1 then Plus(g.c, g.e)
    else if side == 2 then Plus(g.c, Plus(g.e, g.F()))
    else Plus(g.c, g.F())
  }

  function SideOfFrame(g: Frame, side: nat): Vec {
    if side == 0 then g.e else if side == 1 then g.F()
    else if side == 2 then Scale(-1.0, g.e) else Scale(-1.0, g.F())
  }

  /** Either zero or clearly not: the tolerance decides right. */
  predicate Clear(r: real) { r == 0.0 || Abs(r) >= 0.0000000001 }

  ghost predicate RayClear(g: Frame, ray: Vec) {
    Clear(Cross(ray, g.e)) && Clear(Cross(ray, g.F()))
  }

  lemma SideSlope(g: Frame, ray: Vec, a: Line, b: Line, side: nat)
    requires g.Proper() && Coordinates(g, ray, a, b) && side < 4
    ensures Cross(ray, SideOfFrame(g, side)) != 0.0 <==> Crossing(a, b, side).slope != 0.0
    ensures Clear(Cross(ray, g.e)) && Clear(Cross(ray, g.F())) ==> Clear(Cross(ray, SideOfFrame(g, side)))
  {
    assert g.m * g.Q() > 0.0;
    assert Cross(ray, g.F()) == -(g.m * Dot(ray, g.e)) == -(a.slope * (g.m * g.Q()));
    assert Cross(ray, Scale(-1.0, g.e)) == -Cross(ray, g.e);
    assert Cross(ray, Scale(-1.0, g.F())) == -Cross(ray, g.F());
  }

  lemma EdgeHitMeans(from: Vec, to: Vec, ray: Vec, t: real, s: real)
    requires Clear(Cross(ray, Minus(to, from))) && Cross(ray, Minus(to, from)) != 0.0
    requires s == Cross(from, ray) / Cross(ray, Minus(to, from))
    ensures EdgeHit(from, to, ray) == Some(t) <==>
            t > 0.0 && 0.0 <= s <= 1.0 && Scale(t, ray) == Plus(from, Scale(s, Minus(to, from)))
  {
    Solve(from, Minus(to, from), ray, t, s);
  }

  /** Where the coordinates start and how they run along each side. */
  datatype Run = Run(x: real, y: real, dx: real, dy: real)

  function RunOf(side: nat): Run {
    if side == 0 then Run(0.0, 0.0, 1.0, 0.0) else if side == 1 then Run(1.0, 0.0, 0.0, 1.0)
    else if side == 2 then Run(1.0, 1.0, -1.0, 0.0) else Run(0.0, 1.0, 0.0, -1.0)
  }

  lemma SideRuns(g: Frame, side: nat)
    requires side < 4
    ensures var r, from, to := RunOf(side), CornerOf(g, side), CornerOf(g, (side + 1) % 4);
            && from == Plus(g.c, Plus(Scale(r.x, g.e), Scale(r.y, g.F())))
            && Minus(to, from) == SideOfFrame(g, side) == Plus(Scale(r.dx, g.e), Scale(r.dy, g.F()))
  {
    hide Turned, Plus, Scale, Minus;
    RunParts(g.c, g.e, g.F());
  }

  lemma RunParts(c: Vec, e: Vec, f: Vec)
    ensures Plus(c, Plus(Scale(0.0, e), Scale(0.0, f))) == c
    ensures Plus(c, Plus(Scale(1.0, e), Scale(0.0, f))) == Plus(c, e)
    ensures Plus(c, Plus(Scale(1.0, e), Scale(1.0, f))) == Plus(c, Plus(e, f))
    ensures Plus(c, Plus(Scale(0.0, e), Scale(1.0, f))) == Plus(c, f)
    ensures Plus(Scale(1.0, e), Scale(0.0, f)) == e == Minus(Plus(c, e), c)
    ensures Plus(Scale(0.0, e), Scale(1.0, f)) == f == Minus(Plus(c, Plus(e, f)), Plus(c, e))
    ensures Plus(Scale(-1.0, e), Scale(0.0, f)) == Scale(-1.0, e) == Minus(Plus(c, f), Plus(c, Plus(e, f)))
    ensures Plus(Scale(0.0, e), Scale(-1.0, f)) == Scale(-1.0, f) == Minus(c, Plus(c, f))
  {
    hide Scale;
    ScaleUnits(e);
    ScaleUnits(f);
  }

  lemma ScaleUnits(e: Vec)
    ensures Scale(0.0, e) == Vec(0.0, 0.0) && Scale(1.0, e) == e && Scale(-1.0, e) == Vec(-e.x, -e.y)
  {
  }

  /** The parameter along the side at which a point with these coordinates lies. */
  function Parameter(r: Run, ax: real, bx: real): real {
    if r.dx != 0.0 then (ax - r.x) * r.dx else (bx - r.y) * r.dy
  }

  lemma HitInRun(a: Line, b: Line, side: nat, t: real)
    requires side < 4
    ensures var r, ax, bx := RunOf(side), a.At(t), b.At(t);
            var u := Parameter(r, ax, bx);
            HitAt(a, b, side, t) <==>
            Crossing(a, b, side).slope != 0.0 && t > 0.0 && 0.0 <= u <= 1.0 &&
            ax == r.x + u * r.dx && bx == r.y + u * r.dy
  {
    hide Line.At;
  }

  lemma ParameterUnique(side: nat, s: real, ax: real, bx: real)
    requires side < 4 && ax == RunOf(side).x + s * RunOf(side).dx && bx == RunOf(side).y + s * RunOf(side).dy
    ensures Parameter(RunOf(side), ax, bx) == s
  {
  }

  /** An intersection with one edge, in the code's terms and in coordinates. */
  lemma SideHit(g: Frame, ray: Vec, a: Line, b: Line, side: nat, t: real)
    requires g.Proper() && Coordinates(g, ray, a, b) && side < 4 && RayClear(g, ray)
    ensures HitAt(a, b, side, t) <==> EdgeHit(CornerOf(g, side), CornerOf(g, (side + 1) % 4), ray) == Some(t)
  {
    hide Cross, Coordinates, Line.At, HitAt, Turned, Plus, Scale, Minus, CornerOf, SideOfFrame, RunOf, Parameter,
         Frame.Proper, Abs, EdgeHit;
    var from, to, d, r := CornerOf(g, side), CornerOf(g, (side + 1) % 4), SideOfFrame(g, side), RunOf(side);
    SideRuns(g, side);
    SideSlope(g, ray, a, b, side);
    HitInRun(a, b, side, t);
    if Cross(ray, d) != 0.0 {
      var s, u := Cross(from, ray) / Cross(ray, d), Parameter(r, a.At(t), b.At(t));
      EdgeHitMeans(from, to, ray, t, s);
      OnEdge(g, ray, a, b, t, s, from, d, r.x, r.y, r.dx, r.dy);
      OnEdge(g, ray, a, b, t, u, from, d, r.x, r.y, r.dx, r.dy);
      Solve(from, d, ray, t, u);
      if EdgeHit(from, to, ray) == Some(t) {
        ParameterUnique(side, s, a.At(t), b.At(t));
      }
      if HitAt(a, b, side, t) {
        assert Scale(t, ray) == Plus(from, Scale(u, d));
        assert u == s;
      }
    } else {
      ParallelMisses(from, to, ray);
    }
  }

  lemma ParallelMisses(from: Vec, to: Vec, ray: Vec)
    requires Cross(ray, Minus(to, from)) == 0.0
    ensures EdgeHit(from, to, ray) == None
  {
    hide Cross;
  }

  // ----- All four edges

  /** The sorted list of hits, in coordinates. */
  ghost predicate IsHits(a: Line, b: Line, ts: seq<real>) {
    && Sorted(ts)
    && (forall t :: t in ts <==> exists side: nat :: side < 4 && HitAt(a, b, side, t))
    && (forall t :: multiset(ts)[t] >= 2 <==> HitTwice(a, b, t))
  }

  ghost predicate HitTwice(a: Line, b: Line, t: real) {
    exists i: nat, j: nat :: i < j < 4 && HitAt(a, b, i, t) && HitAt(a, b, j, t)
  }

  lemma {:induction false} HitListMeans(corners: seq<Vec>, ray: Vec, k: nat, t: real)
    requires k <= |corners| == 4
    ensures t in HitList(corners, ray, k) <==>
            exists i: nat :: i < k && HitOn(corners, i, ray) == Some(t)
  {
    hide HitOn;
    if k > 0 {
      HitListMeans(corners, ray, k - 1, t);
    }
  }

  ghost predicate HitOnce(corners: seq<Vec>, ray: Vec, k: nat, t: real)
    requires k <= |corners| == 4
  {
    exists i: nat :: i < k && HitOn(corners, i, ray) == Some(t)
  }

  ghost predicate HitByTwo(corners: seq<Vec>, ray: Vec, k: nat, t: real)
    requires k <= |corners| == 4
  {
    exists i: nat, j: nat :: i < j < k && HitOn(corners, i, ray) == Some(t) && HitOn(corners, j, ray) == Some(t)
  }

  lemma OneMoreEdge(corners: seq<Vec>, ray: Vec, k: nat, t: real)
    requires 0 < k <= |corners| == 4
    ensures HitOnce(corners, ray, k, t) <==> HitOnce(corners, ray, k - 1, t) || HitOn(corners, k - 1, ray) == Some(t)
    ensures HitByTwo(corners, ray, k, t) <==>
            HitByTwo(corners, ray, k - 1, t) ||
            (HitOnce(corners, ray, k - 1, t) && HitOn(corners, k - 1, ray) == Some(t))
  {
    hide HitOn;
  }

  /** How often a distance is listed tells how many edges are hit there. */
  lemma {:induction false} HitListCounts(corners: seq<Vec>, ray: Vec, k: nat, t: real)
    requires k <= |corners| == 4
    ensures multiset(HitList(corners, ray, k))[t] >= 1 <==> HitOnce(corners, ray, k, t)
    ensures multiset(HitList(corners, ray, k))[t] >= 2 <==> HitByTwo(corners, ray, k, t)
  {
    if k > 0 {
      hide HitOn, HitOnce, HitByTwo;
      var rest, last := HitList(corners, ray, k - 1), HitOn(corners, k - 1, ray);
      HitListCounts(corners, ray, k - 1, t);
      OneMoreEdge(corners, ray, k, t);
      if last.Some? {
        assert multiset(rest + [last.value]) == multiset(rest) + multiset{last.value};
      } else {
        assert rest + [] == rest;
      }
    }
  }

  lemma {:induction false} InsertCounts(t: real, ts: seq<real>)
    requires Sorted(ts)
    ensures multiset(Insert(t, ts)) == multiset(ts) + multiset{t}
  {
    if ts != [] {
      assert ts == [ts[0]] + ts[1..];
      if t > ts[0] {
        InsertCounts(t, ts[1..]);
        assert Insert(t, ts) == [ts[0]] + Insert(t, ts[1..]);
      }
    }
  }

  lemma {:induction false} SortCounts(ts: seq<real>)
    ensures multiset(Sort(ts)) == multiset(ts)
  {
    if ts != [] {
      assert ts == [ts[0]] + ts[1..];
      SortCounts(ts[1..]);
      InsertCounts(ts[0], Sort(ts[1..]));
    }
  }

  ghost predicate CornersOf(g: Frame, corners: seq<Vec>) {
    |corners| == 4 && forall i: nat :: i < 4 ==> corners[i] == CornerOf(g, i)
  }

  lemma HitsInCoordinates(g: Frame, corners: seq<Vec>, ray: Vec, a: Line, b: Line)
    requires g.Proper() && Coordinates(g, ray, a, b) && RayClear(g, ray) && CornersOf(g, corners)
    ensures IsHits(a, b, Sort(HitList(corners, ray, 4)))
  {
    hide EdgeHit, HitAt, CornerOf, Coordinates, HitList;
    var ts := Sort(HitList(corners, ray, 4));
    forall side: nat, t | side < 4
      ensures HitAt(a, b, side, t) <==> HitOn(corners, side, ray) == Some(t)
    {
      SideHit(g, ray, a, b, side, t);
    }
    forall t ensures t in ts <==> exists side: nat :: side < 4 && HitAt(a, b, side, t) {
      HitListMeans(corners, ray, 4, t);
      if t in ts {
        var i: nat :| i < 4 && HitOn(corners, i, ray) == Some(t);
        assert HitAt(a, b, i, t);
      }
    }
    forall t ensures multiset(ts)[t] >= 2 <==> HitTwice(a, b, t) {
      HitListCounts(corners, ray, 4, t);
      SortCounts(HitList(corners, ray, 4));
      if multiset(ts)[t] >= 2 {
        var i: nat, j: nat :| i < j < 4 && HitOn(corners, i, ray) == Some(t) && HitOn(corners, j, ray) == Some(t);
        assert HitAt(a, b, i, t) && HitAt(a, b, j, t);
      }
    }
  }

  // ----- The stretch, in coordinates

  /** The stretch chosen ends where it starts, although a later hit shows that the ray goes on. */
  predicate StopsAtEntry(originInside: bool, ts: seq<real>) {
    !originInside && |ts| >= 3 && ts[0] == ts[1] < ts[|ts| - 1]
  }

  predicate InStretch(stretch: Option<(real, real)>, u: real) {
    stretch.Some? && stretch.value.0 <= u <= stretch.value.1
  }

  lemma StretchIsSound(a: Line, b: Line, ts: seq<real>, u: real)
    requires IsHits(a, b, ts) && InStretch(Stretch(Inside(a, b, 0.0), ts), u)
    ensures Inside(a, b, u)
  {
    forall t | t in ts ensures Inside(a, b, t) && t > 0.0 {
      var side: nat :| side < 4 && HitAt(a, b, side, t);
      HitIsInside(a, b, side, t);
    }
    if Inside(a, b, 0.0) {
      Convex(a, b, 0.0, u, ts[0]);
    } else {
      Convex(a, b, ts[0], u, ts[1]);
    }
  }

  lemma HitInList(a: Line, b: Line, ts: seq<real>, side: nat, t: real) returns (i: nat)
    requires IsHits(a, b, ts) && side < 4 && HitAt(a, b, side, t)
    ensures i < |ts| && ts[i] == t
  {
    assert t in ts;
    i :| i < |ts| && ts[i] == t;
  }

  lemma NotStrictlyBetween(a: Line, b: Line, ts: seq<real>, i: nat, u: real, v: real)
    requires IsHits(a, b, ts) && i < |ts| && Inside(a, b, u) && Inside(a, b, v)
    ensures !(u < ts[i] < v)
  {
    assert ts[i] in ts;
    var side: nat :| side < 4 && HitAt(a, b, side, ts[i]);
    NoHitBetween(a, b, side, u, ts[i], v);
  }

  lemma HitsAreInside(a: Line, b: Line, ts: seq<real>, i: nat)
    requires IsHits(a, b, ts) && i < |ts|
    ensures Inside(a, b, ts[i]) && ts[i] > 0.0
  {
    assert ts[i] in ts;
    var side: nat :| side < 4 && HitAt(a, b, side, ts[i]);
    HitIsInside(a, b, side, ts[i]);
  }

  lemma TwoLong(a: Line, b: Line, ts: seq<real>, i: nat, t: real, j: nat, u: real)
    requires IsHits(a, b, ts) && i < 4 && j < 4 && i != j && HitAt(a, b, i, t) && HitAt(a, b, j, u)
    ensures |ts| >= 2
  {
    assert t in ts && u in ts;
    if t == u {
      assert HitTwice(a, b, t) by {
        assert if i < j then HitAt(a, b, i, t) && HitAt(a, b, j, t) else HitAt(a, b, j, t) && HitAt(a, b, i, t);
      }
      assert multiset(ts)[t] <= |multiset(ts)| == |ts|;
    }
  }

  /** Unless it stops at its entry, the stretch misses no point of the ray that is inside. */
  lemma StretchIsComplete(a: Line, b: Line, ts: seq<real>, u: real)
    requires IsHits(a, b, ts) && (a.slope != 0.0 || b.slope != 0.0)
    requires u > 0.0 && Inside(a, b, u) && !StopsAtEntry(Inside(a, b, 0.0), ts)
    ensures InStretch(Stretch(Inside(a, b, 0.0), ts), u)
  {
    var exit, v := ExitIsHit(a, b, u);
    var last := HitInList(a, b, ts, exit, v);
    if Inside(a, b, 0.0) {
      NotStrictlyBetween(a, b, ts, 0, 0.0, u);
      HitsAreInside(a, b, ts, 0);
    } else {
      var entry, w := EntryIsHit(a, b, u);
      var first := HitInList(a, b, ts, entry, w);
      assert entry != exit;
      TwoLong(a, b, ts, entry, w, exit, v);
      HitsAreInside(a, b, ts, 0);
      NotStrictlyBetween(a, b, ts, 1, ts[0], u);
    }
  }

  /** When it does stop there, the last hit is a point the stretch misses. */
  lemma LastHitIsMissed(a: Line, b: Line, ts: seq<real>)
    requires IsHits(a, b, ts) && StopsAtEntry(Inside(a, b, 0.0), ts)
    ensures ts[|ts| - 1] > 0.0 && Inside(a, b, ts[|ts| - 1])
    ensures !InStretch(Stretch(Inside(a, b, 0.0), ts), ts[|ts| - 1])
  {
    HitsAreInside(a, b, ts, |ts| - 1);
  }

  /** The stretch stops at its entry exactly when the ray comes in through a corner, strictly between its sides. */
  lemma StopsAtEntryMeans(a: Line, b: Line, ts: seq<real>)
    requires IsHits(a, b, ts)
    ensures StopsAtEntry(Inside(a, b, 0.0), ts) <==> exists t :: CornerEntryAt(a, b, t)
  {
    hide HitAt, CornerEntryAt, Inside;
    if StopsAtEntry(Inside(a, b, 0.0), ts) {
      var t, u := ts[0], ts[|ts| - 1];
      FirstTwice(ts);
      var i: nat, j: nat :| i < j < 4 && HitAt(a, b, i, t) && HitAt(a, b, j, t);
      HitsAreInside(a, b, ts, |ts| - 1);
      TwiceHitIsCorner(a, b, i, j, t, u);
    }
    if t :| CornerEntryAt(a, b, t) {
      CornerStops(a, b, ts, t);
    }
  }

  lemma FirstTwice(ts: seq<real>)
    requires |ts| >= 2 && ts[0] == ts[1]
    ensures multiset(ts)[ts[0]] >= 2
  {
    assert ts == [ts[0], ts[1]] + ts[2..];
  }

  lemma CornerStops(a: Line, b: Line, ts: seq<real>, t: real)
    requires IsHits(a, b, ts) && CornerEntryAt(a, b, t)
    ensures StopsAtEntry(Inside(a, b, 0.0), ts) && !Inside(a, b, 0.0) && ts[0] == ts[1] == t
  {
    hide HitAt;
    var i, j := CornerHitTwice(a, b, t);
    assert HitTwice(a, b, t) && multiset(ts)[t] >= 2;
    var side, u := CornerGoesOn(a, b, t);
    var k := HitInList(a, b, ts, side, u);
    OutsideBefore(a, t, 0.0);
    forall x | x in ts ensures x >= t {
      var n: nat :| n < |ts| && ts[n] == x;
      HitsAreInside(a, b, ts, n);
      if x < t {
        OutsideBefore(a, t, x);
      }
    }
    FirstTwoAre(ts, t);
    assert ts[k] <= ts[|ts| - 1];
  }

  lemma FirstTwoAre(ts: seq<real>, t: real)
    requires Sorted(ts) && multiset(ts)[t] >= 2 && forall x | x in ts :: x >= t
    ensures |ts| >= 2 && ts[0] == ts[1] == t
  {
    assert |ts| > 0 && ts == [ts[0]] + ts[1..];
    assert t in multiset(ts[1..]);
    var j: nat :| j < |ts[1..]| && ts[1..][j] == t;
    assert ts[j + 1] == t && ts[0] in ts && ts[1] in ts;
  }

  // ----- The theorem about rectangles

  /** The ray points strictly between the two sides that meet at the i-th corner. */
  ghost predicate PointsInto(corners: seq<Vec>, i: nat, ray: Vec)
    requires i < |corners| == 4
  {
    && Dot(ray, Minus(corners[(i + 1) % 4], corners[i])) > 0.0
    && Dot(ray, Minus(corners[(i + 3) % 4], corners[i])) > 0.0
  }

  ghost predicate EntersThrough(r: Rect, ray: Vec, i: nat, t: real)
    requires r.edgeLen > 0.0
  {
    i < 4 && t > 0.0 && Scale(t, ray) == r.Corners()[i] && PointsInto(r.Corners(), i, ray)
  }

  /** The spoke meets a corner of the rectangle and goes on strictly between the sides that meet there. */
  ghost predicate EntersThroughCorner(r: Rect, ray: Vec)
    requires r.edgeLen > 0.0
  {
    exists i: nat, t: real :: EntersThrough(r, ray, i, t)
  }

  /** How fast the coordinate that runs along a side grows in its direction. */
  function Heading(a: Line, b: Line, side: nat): real {
    if side == 0 then a.slope else if side == 1 then b.slope else if side == 2 then -a.slope else -b.slope
  }

  lemma SideDots(g: Frame, ray: Vec, a: Line, b: Line, side: nat)
    requires g.Proper() && Coordinates(g, ray, a, b) && side < 4
    ensures Dot(ray, SideOfFrame(g, side)) > 0.0 <==> Heading(a, b, side) > 0.0
    ensures Dot(ray, SideOfFrame(g, side)) < 0.0 <==> Heading(a, b, side) < 0.0
  {
    hide Turned;
    DotTurned(ray, g.m, g.e);
    DotNegated(ray, g.e);
    DotNegated(ray, g.F());
    assert g.m * g.Q() > 0.0;
    SameSign(a.slope, g.Q());
    SameSign(b.slope, g.m * g.Q());
    SameSign(b.slope * (g.m * g.Q()), g.m);
  }

  lemma DotNegated(v: Vec, w: Vec)
    ensures Dot(v, Scale(-1.0, w)) == -Dot(v, w)
  {
  }

  lemma SameSign(x: real, q: real)
    requires q > 0.0
    ensures (x * q > 0.0 <==> x > 0.0) && (x * q < 0.0 <==> x < 0.0)
  {
    if x > 0.0 { assert x * q > 0.0; }
    if x < 0.0 { assert x * q < 0.0; }
  }

  lemma PointsIntoMeans(g: Frame, corners: seq<Vec>, ray: Vec, a: Line, b: Line, i: nat)
    requires g.Proper() && Coordinates(g, ray, a, b) && CornersOf(g, corners) && i < 4
    ensures |corners| == 4
    ensures PointsInto(corners, i, ray) <==> Heading(a, b, i) > 0.0 && Heading(a, b, (i + 3) % 4) < 0.0
  {
    hide Turned, Dot, Scale, CornerOf, SideOfFrame, Coordinates, Plus;
    SideRuns(g, i);
    SideRuns(g, (i + 3) % 4);
    SideDots(g, ray, a, b, i);
    SideDots(g, ray, a, b, (i + 3) % 4);
    assert ((i + 3) % 4 + 1) % 4 == i;
    DotReversed(ray, corners[i], corners[(i + 3) % 4]);
  }

  lemma DotReversed(v: Vec, p: Vec, q: Vec)
    ensures Dot(v, Minus(p, q)) == -Dot(v, Minus(q, p))
  {
  }

  lemma AtCornerMeans(g: Frame, corners: seq<Vec>, ray: Vec, a: Line, b: Line, i: nat, t: real)
    requires g.Proper() && Coordinates(g, ray, a, b) && CornersOf(g, corners) && i < 4
    ensures |corners| == 4
    ensures Scale(t, ray) == corners[i] <==> a.At(t) == RunOf(i).x && b.At(t) == RunOf(i).y
  {
    hide Turned, Dot, Cross, CornerOf, SideOfFrame, Coordinates, Line.At, RunOf;
    var r := RunOf(i);
    SideRuns(g, i);
    OnEdge(g, ray, a, b, t, 0.0, corners[i], SideOfFrame(g, i), r.x, r.y, r.dx, r.dy);
    assert Plus(corners[i], Scale(0.0, SideOfFrame(g, i))) == corners[i];
  }

  /** Entering through a corner, on the plane and in coordinates. */
  lemma CornerEntryInCoordinates(r: Rect, g: Frame, ray: Vec, a: Line, b: Line)
    requires r.edgeLen > 0.0 && g.Proper() && Coordinates(g, ray, a, b) && CornersOf(g, r.Corners())
    ensures EntersThroughCorner(r, ray) <==> exists t :: CornerEntryAt(a, b, t)
  {
    hide Coordinates, CornersOf, Rect.Corners, PointsInto, Scale, Line.At;
    if i: nat, t: real :| EntersThrough(r, ray, i, t) {
      AtCornerMeans(g, r.Corners(), ray, a, b, i, t);
      PointsIntoMeans(g, r.Corners(), ray, a, b, i);
      assert CornerEntryAt(a, b, t);
    }
    if t :| CornerEntryAt(a, b, t) {
      var i: nat := if a.At(t) == 0.0 then (if b.At(t) == 0.0 then 0 else 3) else if b.At(t) == 0.0 then 1 else 2;
      AtCornerMeans(g, r.Corners(), ray, a, b, i, t);
      PointsIntoMeans(g, r.Corners(), ray, a, b, i);
      assert EntersThrough(r, ray, i, t);
    }
  }

  /** No cross product of the computation is so close to zero that the tolerance hides it. */
  ghost predicate Decided(r: Rect, ray: Vec)
    requires r.edgeLen > 0.0
  {
    && Clear(Cross(ray, r.Edge())) && Clear(Cross(ray, r.Across()))
    && forall i: nat :: i < 4 ==> Clear(EdgeCross(r.Corners(), i, ORIGIN))
  }

  lemma CornersMatch(r: Rect, g: Frame)
    requires r.edgeLen > 0.0 && g.c == r.corner && g.e == r.Edge() && g.F() == r.Across()
    ensures CornersOf(g, r.Corners())
  {
    assert r.next == Plus(r.corner, r.Edge());
    assert Plus(r.next, r.Across()) == Plus(g.c, Plus(g.e, g.F()));
  }

  /** Being in the rectangle is having both coordinates between 0 and 1. */
  lemma InRectInCoordinates(r: Rect, g: Frame, ray: Vec, a: Line, b: Line, t: real)
    requires r.edgeLen > 0.0 && g.Proper() && g.c == r.corner && g.e == r.Edge() && g.F() == r.Across()
    requires Coordinates(g, ray, a, b)
    ensures InRect(r, Scale(t, ray)) <==> Inside(a, b, t)
  {
    hide Coordinates, Line.At;
    var v := Minus(Scale(t, ray), g.c);
    CoordinatesMean(g, ray, a, b, t);
    DotTurned(v, g.m, g.e);
    TurnedLength(g.m, g.e);
    Between01(a.At(t), g.Q(), Dot(v, g.e));
    assert g.m * g.Q() > 0.0;
    Between01(b.At(t), g.m * g.Q(), Cross(v, g.e));
    ScaledOrder(g.m, Cross(v, g.e), g.m * g.Q());
    assert g.m * (g.m * g.Q()) == g.m * g.m * g.Q();
  }

  lemma DotTurned(v: Vec, m: real, e: Vec)
    ensures Dot(v, Turned(m, e)) == m * Cross(v, e)
  {
  }

  lemma Between01(x: real, q: real, d: real)
    requires q > 0.0 && x * q == d
    ensures 0.0 <= x <= 1.0 <==> 0.0 <= d <= q
  {
    if x < 0.0 { assert x * q < 0.0; }
    if x > 1.0 { assert (x - 1.0) * q > 0.0; }
    if 0.0 <= x <= 1.0 { assert (1.0 - x) * q >= 0.0; }
  }

  lemma ScaledOrder(m: real, c: real, q: real)
    requires m > 0.0
    ensures 0.0 <= m * c <= m * q <==> 0.0 <= c <= q
  {
    if c < 0.0 { assert m * c < 0.0; }
    if c > q { assert m * (c - q) > 0.0; }
    if c <= q { assert m * (q - c) >= 0.0; }
  }

  lemma OriginCrosses(g: Frame, corners: seq<Vec>, ray: Vec, a: Line, b: Line)
    requires g.Proper() && Coordinates(g, ray, a, b) && CornersOf(g, corners)
    ensures var k := g.m * g.Q();
            && EdgeCross(corners, 0, ORIGIN) == -(b.start * k)
            && EdgeCross(corners, 1, ORIGIN) == -((1.0 - a.start) * k)
            && EdgeCross(corners, 2, ORIGIN) == -((1.0 - b.start) * k)
            && EdgeCross(corners, 3, ORIGIN) == -(a.start * k)
  {
    hide Cross, Dot, Turned, EdgeCross, CornersOf, CornerOf, SideOfFrame, Scale, Plus, Minus;
    EdgeCrossIs(g, corners, 0);
    EdgeCrossIs(g, corners, 1);
    EdgeCrossIs(g, corners, 2);
    EdgeCrossIs(g, corners, 3);
    FrameSides(g);
    OriginCross02(g.c, g.e, g.m);
    OriginCross13(g.c, g.e, g.m);
    Rescale(g.m, g.Q(), a.start, Dot(g.c, g.e));
    Complement(a.start, g.m * g.Q());
    Complement(b.start, g.m * g.Q());
  }

  lemma EdgeCrossIs(g: Frame, corners: seq<Vec>, side: nat)
    requires CornersOf(g, corners) && side < 4
    ensures |corners| == 4
    ensures EdgeCross(corners, side, ORIGIN) == Cross(SideOfFrame(g, side), Minus(ORIGIN, CornerOf(g, side)))
  {
    hide Cross, CornerOf, SideOfFrame, Turned, Plus, Minus, Scale;
    SideRuns(g, side);
  }

  lemma FrameSides(g: Frame)
    ensures SideOfFrame(g, 0) == g.e && CornerOf(g, 0) == g.c
    ensures SideOfFrame(g, 1) == Turned(g.m, g.e) && CornerOf(g, 1) == Plus(g.c, g.e)
    ensures SideOfFrame(g, 2) == Scale(-1.0, g.e) && CornerOf(g, 2) == Plus(g.c, Plus(g.e, Turned(g.m, g.e)))
    ensures SideOfFrame(g, 3) == Scale(-1.0, Turned(g.m, g.e)) && CornerOf(g, 3) == Plus(g.c, Turned(g.m, g.e))
  {
  }

  lemma Rescale(m: real, q: real, x: real, d: real)
    requires x * q == -d
    ensures x * (m * q) == -(m * d)
  {
    assert x * (m * q) == m * (x * q);
  }

  lemma Complement(x: real, k: real)
    ensures (1.0 - x) * k == k - x * k
  {
  }

  lemma OriginCross02(c: Vec, e: Vec, m: real)
    ensures Cross(e, Minus(ORIGIN, c)) == -Cross(e, c)
    ensures Cross(Scale(-1.0, e), Minus(ORIGIN, Plus(c, Plus(e, Turned(m, e))))) == Cross(e, c) - m * Dot(e, e)
  {
    var f := Turned(m, e);
    assert Cross(e, f) == -(m * Dot(e, e));
    assert Cross(Scale(-1.0, e), Minus(ORIGIN, Plus(c, Plus(e, f)))) == Cross(e, c) + Cross(e, f);
  }

  lemma OriginCross13(c: Vec, e: Vec, m: real)
    ensures Cross(Turned(m, e), Minus(ORIGIN, Plus(c, e))) == -(m * Dot(c, e)) - m * Dot(e, e)
    ensures Cross(Scale(-1.0, Turned(m, e)), Minus(ORIGIN, Plus(c, Turned(m, e)))) == m * Dot(c, e)
  {
    var f := Turned(m, e);
    assert Cross(f, c) == m * Dot(c, e);
    assert Cross(f, e) == m * Dot(e, e);
    assert Cross(f, Minus(ORIGIN, Plus(c, e))) == -Cross(f, c) - Cross(f, e);
    assert Cross(Scale(-1.0, f), Minus(ORIGIN, Plus(c, f))) == Cross(f, c);
  }

  lemma Sign(x: real, k: real, cross: real)
    requires k > 0.0 && cross == -(x * k) && Clear(cross)
    ensures x >= 0.0 <==> !(cross >= TOLERANCE)
    ensures x > 0.0 <==> cross <= -TOLERANCE
  {
    if x > 0.0 { assert x * k > 0.0; }
    if x < 0.0 { assert x * k < 0.0; }
  }

  lemma OriginInCoordinates(g: Frame, corners: seq<Vec>, ray: Vec, a: Line, b: Line)
    requires g.Proper() && Coordinates(g, ray, a, b) && CornersOf(g, corners)
    requires |corners| == 4 && forall i: nat :: i < 4 ==> Clear(EdgeCross(corners, i, ORIGIN))
    ensures InsidePolygon(ORIGIN, corners) <==> Inside(a, b, 0.0)
  {
    hide EdgeCross, Coordinates, CornersOf, Clear;
    var k := g.m * g.Q();
    OriginCrosses(g, corners, ray, a, b);
    assert k > 0.0;
    Sign(b.start, k, EdgeCross(corners, 0, ORIGIN));
    Sign(1.0 - a.start, k, EdgeCross(corners, 1, ORIGIN));
    Sign(1.0 - b.start, k, EdgeCross(corners, 2, ORIGIN));
    Sign(a.start, k, EdgeCross(corners, 3, ORIGIN));
    var right: nat := if a.start > 0.0 then 3 else 1;
    assert EdgeCross(corners, right, ORIGIN) <= -TOLERANCE;
  }

  lemma RayMoves(g: Frame, ray: Vec, a: Line, b: Line)
    requires g.Proper() && Coordinates(g, ray, a, b) && ray != ORIGIN
    ensures a.slope != 0.0 || b.slope != 0.0
  {
    if a.slope == 0.0 && b.slope == 0.0 {
      Basis(g, ray, 0.0, 0.0);
      ScaleUnits(g.e);
      ScaleUnits(g.F());
    }
  }

  /**
   The stretch of a spoke that a rectangle excludes is exactly the part of the
   spoke inside the rectangle, whether the origin is inside or not, if and only
   if the spoke does not enter the rectangle through one of its corners,
   strictly between the two sides that meet there. It never excludes a point
   outside the rectangle.
   */
  lemma ClipIsExact(r: Rect, ray: Vec)
    requires r.Measured() && !r.Degenerate() && ray != ORIGIN && Decided(r, ray)
    ensures InsidePolygon(ORIGIN, r.Corners()) <==> InRect(r, ORIGIN)
    ensures var ts := Sort(HitList(r.Corners(), ray, 4));
            var stretch := Stretch(InsidePolygon(ORIGIN, r.Corners()), ts);
            && (forall u :: InStretch(stretch, u) ==> InRect(r, Scale(u, ray)))
            && ((forall u :: u > 0.0 && InRect(r, Scale(u, ray)) ==> InStretch(stretch, u))
                <==> !EntersThroughCorner(r, ray))
  {
    hide Coordinates, HitList, Inside, InRect, Turned, Cross, Dot, InsidePolygon, Sort, Stretch, StopsAtEntry,
         EntersThroughCorner, CornerEntryAt, CornersOf, InStretch, IsHits, Scale, Clear, EdgeCross,
         Rect.Across, Rect.Corners, Rect.Edge;
    var m := SidesAreSquare(r);
    var g := Frame(r.corner, r.Edge(), m);
    var a, b := CoordinatesExist(g, ray);
    CornersMatch(r, g);
    OriginInCoordinates(g, r.Corners(), ray, a, b);
    HitsInCoordinates(g, r.Corners(), ray, a, b);
    RayMoves(g, ray, a, b);
    CornerEntryInCoordinates(r, g, ray, a, b);
    var inside := InsidePolygon(ORIGIN, r.Corners());
    var ts := Sort(HitList(r.Corners(), ray, 4));
    forall u ensures InRect(r, Scale(u, ray)) <==> Inside(a, b, u) {
      InRectInCoordinates(r, g, ray, a, b, u);
    }
    assert Scale(0.0, ray) == ORIGIN by { ScaleUnits(ray); }
    forall u | InStretch(Stretch(inside, ts), u) ensures InRect(r, Scale(u, ray)) {
      StretchIsSound(a, b, ts, u);
    }
    StopsAtEntryMeans(a, b, ts);
    if StopsAtEntry(inside, ts) {
      LastHitIsMissed(a, b, ts);
      var u := LastOf(inside, ts);
      assert InRect(r, Scale(u, ray));
    } else {
      forall u | u > 0.0 && InRect(r, Scale(u, ray)) ensures InStretch(Stretch(inside, ts), u) {
        StretchIsComplete(a, b, ts, u);
      }
    }
  }

  /** The stretch lies ahead. */
  lemma StretchIsAhead(corners: seq<Vec>, ray: Vec, originInside: bool)
    requires |corners| == 4
    ensures var stretch := Stretch(originInside, Sort(HitList(corners, ray, 4)));
            stretch.Some? ==> 0.0 <= stretch.value.0 <= stretch.value.1 && stretch.value.1 > 0.0
  {
    hide HitList, Sort, EdgeHit;
    var ts := Sort(HitList(corners, ray, 4));
    forall t | t in ts ensures t > 0.0 {
      HitListMeans(corners, ray, 4, t);
      var i: nat :| i < 4 && HitOn(corners, i, ray) == Some(t);
      HitIsAhead(corners[i], corners[(i + 1) % 4], ray);
    }
    if |ts| > 0 {
      assert ts[0] in ts;
    }
    if |ts| > 1 {
      assert ts[1] in ts;
    }
  }

  lemma HitIsAhead(from: Vec, to: Vec, ray: Vec)
    ensures EdgeHit(from, to, ray).Some? ==> EdgeHit(from, to, ray).value > 0.0
  {
  }

  /** Of a spoke that enters through a corner exactly the corner is excluded. */
  lemma CornerStretch(r: Rect, ray: Vec, i: nat, t: real)
    requires r.Measured() && !r.Degenerate() && ray != ORIGIN && Decided(r, ray) && EntersThrough(r, ray, i, t)
    ensures Stretch(InsidePolygon(ORIGIN, r.Corners()), Sort(HitList(r.Corners(), ray, 4))) == Some((t, t))
  {
    hide Coordinates, HitList, Inside, Turned, Cross, Dot, InsidePolygon, Sort, StopsAtEntry, CornersOf, PointsInto,
         IsHits, Scale, Clear, EdgeCross, Rect.Across, Rect.Corners, Rect.Edge, Line.At;
    var m := SidesAreSquare(r);
    var g := Frame(r.corner, r.Edge(), m);
    var a, b := CoordinatesExist(g, ray);
    CornersMatch(r, g);
    OriginInCoordinates(g, r.Corners(), ray, a, b);
    HitsInCoordinates(g, r.Corners(), ray, a, b);
    AtCornerMeans(g, r.Corners(), ray, a, b, i, t);
    PointsIntoMeans(g, r.Corners(), ray, a, b, i);
    assert CornerEntryAt(a, b, t);
    CornerStops(a, b, Sort(HitList(r.Corners(), ray, 4)), t);
    AtLeastTwo(Sort(HitList(r.Corners(), ray, 4)), Inside(a, b, 0.0));
  }

  lemma AtLeastTwo(ts: seq<real>, originInside: bool)
    requires StopsAtEntry(originInside, ts)
    ensures !originInside && |ts| >= 2
  {
  }

  /** A spoke due north into a rectangle whose lowest corner is straight ahead: only the corner is excluded. */
  lemma CornerEntryExample()
    ensures var r, north := Rect(Vec(-4.0, 4.0), Vec(-1.0, 8.0), 5.0, 5.0), Vec(0.0, 1.0);
            && r.Measured() && !r.Degenerate() && InRect(r, Scale(2.0, north))
            && EntersThroughCorner(r, north)
            && !InStretch(Stretch(false, Sort(HitList(r.Corners(), north, 4))), 2.0)
  {
    hide EdgeHit, HitList, Sort, Rect.Corners, Rect.Measured, InRect, EntersThroughCorner;
    ExampleRect();
    ExampleHits();
    ExampleSort();
    ExampleEnters();
  }

  lemma ExampleEnters()
    ensures EntersThroughCorner(Rect(Vec(-4.0, 4.0), Vec(-1.0, 8.0), 5.0, 5.0), Vec(0.0, 1.0))
  {
    hide Scale, Rect.Corners, Rect.Across, Rect.Measured, InRect, PointsInto;
    var r, north := Rect(Vec(-4.0, 4.0), Vec(-1.0, 8.0), 5.0, 5.0), Vec(0.0, 1.0);
    ExampleRect();
    ScaleIs(1.0, 0.0, 1.0);
    NorthPointsInto(r.Corners(), 3);
    assert EntersThrough(r, north, 3, 1.0);
  }

  /** Due north points into a corner exactly when both of its neighbours lie further north. */
  lemma NorthPointsInto(corners: seq<Vec>, i: nat)
    requires i < |corners| == 4
    ensures PointsInto(corners, i, Vec(0.0, 1.0)) <==>
            corners[(i + 1) % 4].y > corners[i].y && corners[(i + 3) % 4].y > corners[i].y
  {
    hide Dot;
    var next, prev := Minus(corners[(i + 1) % 4], corners[i]), Minus(corners[(i + 3) % 4], corners[i]);
    DotIs(0.0, 1.0, next.x, next.y);
    DotIs(0.0, 1.0, prev.x, prev.y);
  }

  /** A spoke parallel to a side never enters through a corner, also when it meets one and runs along an edge. */
  lemma ParallelNeverEnters(r: Rect, ray: Vec)
    requires r.Measured() && !r.Degenerate() && (Cross(ray, r.Edge()) == 0.0 || Cross(ray, r.Across()) == 0.0)
    ensures !EntersThroughCorner(r, ray)
  {
    hide Coordinates, Turned, Cross, Dot, EntersThroughCorner, CornersOf, Scale, Rect.Across, Rect.Corners, Rect.Edge;
    var m := SidesAreSquare(r);
    var g := Frame(r.corner, r.Edge(), m);
    var a, b := CoordinatesExist(g, ray);
    CornersMatch(r, g);
    CornerEntryInCoordinates(r, g, ray, a, b);
    FrameSides(g);
    SideSlope(g, ray, a, b, 0);
    SideSlope(g, ray, a, b, 1);
  }

  lemma ExampleRect()
    ensures var r := Rect(Vec(-4.0, 4.0), Vec(-1.0, 8.0), 5.0, 5.0);
            && r.Measured() && InRect(r, Scale(2.0, Vec(0.0, 1.0)))
            && r.Corners() == [Vec(-4.0, 4.0), Vec(-1.0, 8.0), Vec(3.0, 5.0), Vec(0.0, 1.0)]
  {
    hide Dot, Scale;
    var r := Rect(Vec(-4.0, 4.0), Vec(-1.0, 8.0), 5.0, 5.0);
    assert r.Edge() == Vec(3.0, 4.0);
    assert r.Across() == Vec(4.0, -3.0);
    ScaleIs(2.0, 0.0, 1.0);
    DotIs(3.0, 4.0, 3.0, 4.0);
    DotIs(4.0, -3.0, 4.0, -3.0);
    DotIs(4.0, -2.0, 3.0, 4.0);
    DotIs(4.0, -2.0, 4.0, -3.0);
  }

  lemma DotIs(ax: real, ay: real, bx: real, b_y: real)
    ensures Dot(Vec(ax, ay), Vec(bx, b_y)) == ax * bx + ay * b_y
  {
  }

  lemma ScaleIs(k: real, x: real, y: real)
    ensures Scale(k, Vec(x, y)) == Vec(k * x, k * y)
  {
  }

  lemma ExampleHits()
    ensures HitList([Vec(-4.0, 4.0), Vec(-1.0, 8.0), Vec(3.0, 5.0), Vec(0.0, 1.0)], Vec(0.0, 1.0), 4) ==
            [7.25, 1.0, 1.0]
  {
    hide EdgeHit;
    var c, north := [Vec(-4.0, 4.0), Vec(-1.0, 8.0), Vec(3.0, 5.0), Vec(0.0, 1.0)], Vec(0.0, 1.0);
    ExampleEdges();
    assert HitOn(c, 0, north) == None && HitOn(c, 1, north) == Some(7.25);
    assert HitOn(c, 2, north) == Some(1.0) && HitOn(c, 3, north) == Some(1.0);
    assert HitList(c, north, 1) == [];
    assert HitList(c, north, 2) == [7.25];
    assert HitList(c, north, 3) == [7.25, 1.0];
  }

  lemma ExampleEdges()
    ensures EdgeHit(Vec(-4.0, 4.0), Vec(-1.0, 8.0), Vec(0.0, 1.0)) == None
    ensures EdgeHit(Vec(-1.0, 8.0), Vec(3.0, 5.0), Vec(0.0, 1.0)) == Some(7.25)
    ensures EdgeHit(Vec(3.0, 5.0), Vec(0.0, 1.0), Vec(0.0, 1.0)) == Some(1.0)
    ensures EdgeHit(Vec(0.0, 1.0), Vec(-4.0, 4.0), Vec(0.0, 1.0)) == Some(1.0)
  {
    hide EdgeHit;
    EdgeHitIs(Vec(-4.0, 4.0), Vec(-1.0, 8.0), 3.0, 4.0, -3.0, 28.0 / 3.0, 4.0 / 3.0);
    EdgeHitIs(Vec(-1.0, 8.0), Vec(3.0, 5.0), 4.0, -3.0, -4.0, 7.25, 0.25);
    EdgeHitIs(Vec(3.0, 5.0), Vec(0.0, 1.0), -3.0, -4.0, 3.0, 1.0, 1.0);
    EdgeHitIs(Vec(0.0, 1.0), Vec(-4.0, 4.0), -4.0, 3.0, 4.0, 1.0, 0.0);
  }

  lemma EdgeHitIs(a: Vec, b: Vec, ex: real, ey: real, denom: real, t: real, s: real)
    requires b.x - a.x == ex && b.y - a.y == ey && denom == -ex && Abs(denom) >= TOLERANCE
    requires a.x * ey - a.y * ex == t * denom && a.x == s * denom
    ensures EdgeHit(a, b, Vec(0.0, 1.0)) == if t > 0.0 && 0.0 <= s <= 1.0 then Some(t) else None
  {
    var ray := Vec(0.0, 1.0);
    assert Minus(b, a) == Vec(ex, ey) && Cross(ray, Vec(ex, ey)) == denom;
    assert Cross(a, Vec(ex, ey)) == t * denom && Cross(a, ray) == s * denom;
    CancelNonZero(t, Cross(a, Minus(b, a)) / denom, denom);
    CancelNonZero(s, Cross(a, ray) / denom, denom);
  }

  lemma ExampleSort()
    ensures Sort([7.25, 1.0, 1.0]) == [1.0, 1.0, 7.25]
  {
    assert [1.0, 1.0][1..] == [1.0] && [7.25, 1.0, 1.0][1..] == [1.0, 1.0];
    assert Sort([1.0]) == [1.0];
    assert Sort([1.0, 1.0]) == [1.0, 1.0];
    assert Insert(7.25, [1.0]) == [1.0, 7.25];
  }

  function LastOf(originInside: bool, ts: seq<real>): real
    requires StopsAtEntry(originInside, ts)
  {
    ts[|ts| - 1]
  }
}
