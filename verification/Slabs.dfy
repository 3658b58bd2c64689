/**
 Clipping a half line against the unit square, one coordinate at a time.

 Both coordinates of a point moving along a ray are linear in the distance
 travelled. A hit is a distance at which the ray crosses one of the four sides.
 */
module Slabs {
  datatype Line = Line(start: real, slope: real)
  {
    function At(t: real): real { start + slope * t }
  }

  ghost predicate Inside(a: Line, b: Line, t: real) {
    0.0 <= a.At(t) <= 1.0 && 0.0 <= b.At(t) <= 1.0
  }

  /** The four sides, in the order of the rectangle's edges: b = 0, a = 1, b = 1, a = 0. */
  function Crossing(a: Line, b: Line, side: nat): Line {
    if side % 2 == 0 then b else a
  }

  function Other(a: Line, b: Line, side: nat): Line {
    if side % 2 == 0 then a else b
  }

  function Bound(side: nat): real {
    if side == 0 || side == 3 then 0.0 else 1.0
  }

  /** The distance, beyond the start, at which the ray meets a side it is not parallel to. */
  ghost predicate HitAt(a: Line, b: Line, side: nat, t: real) {
    && Crossing(a, b, side).slope != 0.0 && t > 0.0
    && Crossing(a, b, side).At(t) == Bound(side) && 0.0 <= Other(a, b, side).At(t) <= 1.0
  }

  predicate Entering(a: Line, b: Line, side: nat) {
    if Bound(side) == 0.0 then Crossing(a, b, side).slope > 0.0 else Crossing(a, b, side).slope < 0.0
  }

  lemma HitIsInside(a: Line, b: Line, side: nat, t: real)
    requires side < 4 && HitAt(a, b, side, t)
    ensures Inside(a, b, t)
  {
  }

  lemma Difference(l: Line, u: real, t: real)
    ensures l.At(t) - l.At(u) == l.slope * (t - u)
  {
  }

  lemma Between(l: Line, u: real, t: real, v: real)
    requires u <= t <= v
    ensures l.At(u) <= l.At(t) <= l.At(v) || l.At(u) >= l.At(t) >= l.At(v)
  {
    hide Line.At;
    Difference(l, u, t);
    Difference(l, t, v);
    if l.slope >= 0.0 {
      assert l.slope * (t - u) >= 0.0 && l.slope * (v - t) >= 0.0;
    } else {
      assert l.slope * (t - u) <= 0.0 && l.slope * (v - t) <= 0.0;
    }
  }

  lemma Convex(a: Line, b: Line, u: real, t: real, v: real)
    requires Inside(a, b, u) && Inside(a, b, v) && u <= t <= v
    ensures Inside(a, b, t)
  {
    Between(a, u, t, v);
    Between(b, u, t, v);
  }

  /** A ray does not cross a side strictly between two inside points. */
  lemma NoHitBetween(a: Line, b: Line, side: nat, u: real, t: real, v: real)
    requires side < 4 && HitAt(a, b, side, t) && Inside(a, b, u) && Inside(a, b, v)
    ensures !(u < t < v)
  {
    if u < t < v {
      Strict(Crossing(a, b, side), u, t, v);
    }
  }

  lemma Strict(l: Line, u: real, t: real, v: real)
    requires u < t < v && l.slope != 0.0
    ensures l.At(u) < l.At(t) < l.At(v) || l.At(u) > l.At(t) > l.At(v)
  {
    hide Line.At;
    Difference(l, u, t);
    Difference(l, t, v);
    if l.slope > 0.0 {
      assert l.slope * (t - u) > 0.0 && l.slope * (v - t) > 0.0;
    } else {
      assert l.slope * (t - u) < 0.0 && l.slope * (v - t) < 0.0;
    }
  }

  /** Where a line of non-zero slope takes a value. */
  lemma Reach(l: Line, y: real) returns (t: real)
    requires l.slope != 0.0
    ensures l.At(t) == y
  {
    t := (y - l.start) / l.slope;
    assert l.slope * t == y - l.start;
  }

  lemma Order(l: Line, u: real, v: real)
    requires l.slope != 0.0
    ensures l.slope > 0.0 ==> (u <= v <==> l.At(u) <= l.At(v))
    ensures l.slope < 0.0 ==> (u <= v <==> l.At(u) >= l.At(v))
  {
    if u < v {
      Strict(l, u, (u + v) / 2.0, v);
    } else if v < u {
      Strict(l, v, (u + v) / 2.0, u);
    }
  }

  /** Where a line leaves [0, 1] after a point at which it is inside it. */
  lemma Leaves(l: Line, u: real) returns (t: real)
    requires l.slope != 0.0 && 0.0 <= l.At(u) <= 1.0
    ensures t >= u && l.At(t) == if l.slope > 0.0 then 1.0 else 0.0
    ensures forall v :: u <= v <= t ==> 0.0 <= l.At(v) <= 1.0
  {
    t := Reach(l, if l.slope > 0.0 then 1.0 else 0.0);
    Order(l, u, t);
    forall v | u <= v <= t ensures 0.0 <= l.At(v) <= 1.0 {
      Between(l, u, v, t);
    }
  }

  /** Where a line entered [0, 1] before a point at which it is inside it. */
  lemma Enters(l: Line, u: real) returns (t: real)
    requires l.slope != 0.0 && 0.0 <= l.At(u) <= 1.0
    ensures t <= u && l.At(t) == if l.slope > 0.0 then 0.0 else 1.0
    ensures forall v :: t <= v <= u ==> 0.0 <= l.At(v) <= 1.0
  {
    t := Reach(l, if l.slope > 0.0 then 0.0 else 1.0);
    Order(l, t, u);
    forall v | t <= v <= u ensures 0.0 <= l.At(v) <= 1.0 {
      Between(l, t, v, u);
    }
  }

  function SideOf(onA: bool, bound: real): nat {
    if onA then (if bound == 0.0 then 3 else 1) else (if bound == 0.0 then 0 else 2)
  }

  /** The side through which the ray leaves. */
  lemma ExitIsHit(a: Line, b: Line, u: real) returns (side: nat, t: real)
    requires u > 0.0 && Inside(a, b, u) && (a.slope != 0.0 || b.slope != 0.0)
    ensures side < 4 && HitAt(a, b, side, t) && u <= t && !Entering(a, b, side)
  {
    if a.slope == 0.0 {
      t := Leaves(b, u);
      side := SideOf(false, b.At(t));
    } else if b.slope == 0.0 {
      t := Leaves(a, u);
      side := SideOf(true, a.At(t));
    } else {
      var ta := Leaves(a, u);
      var tb := Leaves(b, u);
      t := if ta <= tb then ta else tb;
      side := SideOf(ta <= tb, if ta <= tb then a.At(ta) else b.At(tb));
    }
  }

  /** The side through which the ray entered, when it starts outside. */
  lemma EntryIsHit(a: Line, b: Line, u: real) returns (side: nat, t: real)
    requires u > 0.0 && Inside(a, b, u) && !Inside(a, b, 0.0) && (a.slope != 0.0 || b.slope != 0.0)
    ensures side < 4 && HitAt(a, b, side, t) && t <= u && Entering(a, b, side)
  {
    if a.slope == 0.0 {
      t := Enters(b, u);
      side := SideOf(false, b.At(t));
    } else if b.slope == 0.0 {
      t := Enters(a, u);
      side := SideOf(true, a.At(t));
    } else {
      var ta := Enters(a, u);
      var tb := Enters(b, u);
      t := if ta >= tb then ta else tb;
      side := SideOf(ta >= tb, if ta >= tb then a.At(ta) else b.At(tb));
    }
    assert Inside(a, b, t);
    if t <= 0.0 {
      Convex(a, b, t, 0.0, u);
    }
  }

  // ----- Entering through a corner

  /** At t the line is on a bound of [0, 1] and comes in. */
  predicate Inward(l: Line, t: real) {
    (l.At(t) == 0.0 && l.slope > 0.0) || (l.At(t) == 1.0 && l.slope < 0.0)
  }

  /** At t the ray comes in through a corner, strictly between its sides. */
  predicate CornerEntryAt(a: Line, b: Line, t: real) {
    t > 0.0 && Inward(a, t) && Inward(b, t)
  }

  lemma OutsideBefore(l: Line, t: real, u: real)
    requires Inward(l, t) && u < t
    ensures !(0.0 <= l.At(u) <= 1.0)
  {
    Order(l, t, u);
  }

  /** Both sides that meet at the corner are hit there. */
  lemma CornerHitTwice(a: Line, b: Line, t: real) returns (i: nat, j: nat)
    requires CornerEntryAt(a, b, t)
    ensures i < j < 4 && HitAt(a, b, i, t) && HitAt(a, b, j, t)
  {
    i, j := SideOf(false, b.At(t)), SideOf(true, a.At(t));
    if i > j {
      i, j := j, i;
    }
  }

  /** From a corner entry the ray goes on inside. */
  lemma CornerGoesOn(a: Line, b: Line, t: real) returns (side: nat, u: real)
    requires CornerEntryAt(a, b, t)
    ensures side < 4 && HitAt(a, b, side, u) && t < u
  {
    side, u := ExitIsHit(a, b, t);
  }

  /** A line on a bound that is inside [0, 1] later came in. */
  lemma CameIn(l: Line, t: real, u: real)
    requires l.slope != 0.0 && (l.At(t) == 0.0 || l.At(t) == 1.0) && t < u && 0.0 <= l.At(u) <= 1.0
    ensures Inward(l, t)
  {
    Order(l, u, t);
  }

  /** Two sides hit at once meet at a corner; a ray that is inside later came in there. */
  lemma TwiceHitIsCorner(a: Line, b: Line, i: nat, j: nat, t: real, u: real)
    requires i < j < 4 && HitAt(a, b, i, t) && HitAt(a, b, j, t) && t < u && Inside(a, b, u)
    ensures CornerEntryAt(a, b, t)
  {
    CameIn(Crossing(a, b, i), t, u);
    CameIn(Crossing(a, b, j), t, u);
  }
}
