/**
 Closest point of approach of two vessels on straight courses, in local
 Cartesian coordinates. The distance is kept squared.
 */
module Cpa {
  import opened Options

  datatype Vessel = Vessel(x: real, y: real, vx: real, vy: real)
  datatype CpaResult = CpaResult(cpaSquared: real, tcpa: real)

  /** The target as seen from the own vessel. */
  function Relative(own: Vessel, target: Vessel): Vessel {
    Vessel(target.x - own.x, target.y - own.y, target.vx - own.vx, target.vy - own.vy)
  }

  function Dot(x1: real, y1: real, x2: real, y2: real): real {
    x1 * x2 + y1 * y2
  }

  function Speed2(d: Vessel): real {
    Dot(d.vx, d.vy, d.vx, d.vy)
  }

  function Closing(d: Vessel): real {
    Dot(d.x, d.y, d.vx, d.vy)
  }

  /** Relative speeds below this count as standing still. */
  const STILL: real := 0.0000000001

  /** None when the vessels stand still relative to each other or do not come closer. */
  function CalculateCpa(own: Vessel, target: Vessel): Option<CpaResult> {
    var d := Relative(own, target);
    if Speed2(d) < STILL then None
    else
      var tcpa := -Closing(d) / Speed2(d);
      if tcpa <= 0.0 then None
      else
        var cx, cy := d.x + d.vx * tcpa, d.y + d.vy * tcpa;
        Some(CpaResult(cx * cx + cy * cy, tcpa))
  }

  // ----- Where the vessels really are

  /** The squared distance between the two vessels after t seconds. */
  function Separation2(own: Vessel, target: Vessel, t: real): real {
    var ex, ey := target.x + target.vx * t - (own.x + own.vx * t), target.y + target.vy * t - (own.y + own.vy * t);
    ex * ex + ey * ey
  }

  lemma Expand(x: real, v: real, t: real)
    ensures (x + v * t) * (x + v * t) == x * x + 2.0 * (x * v) * t + v * v * (t * t)
  {
    var p := v * t;
    assert (x + p) * (x + p) == x * x + 2.0 * (x * p) + p * p;
    assert x * p == x * v * t;
    assert p * p == v * v * (t * t);
  }

  /** The squared distance is a parabola in time. */
  lemma Parabola(own: Vessel, target: Vessel, t: real)
    ensures var d := Relative(own, target);
            Separation2(own, target, t) == Dot(d.x, d.y, d.x, d.y) + 2.0 * Closing(d) * t + Speed2(d) * Square(t)
  {
    var d := Relative(own, target);
    assert target.x + target.vx * t - (own.x + own.vx * t) == d.x + d.vx * t;
    assert target.y + target.vy * t - (own.y + own.vy * t) == d.y + d.vy * t;
    Expand(d.x, d.vx, t);
    Expand(d.y, d.vy, t);
    Collect(d.x * d.vx, d.y * d.vy, d.vx * d.vx, d.vy * d.vy, t, t * t);
  }

  lemma Collect(a: real, b: real, p: real, q: real, t: real, tt: real)
    ensures 2.0 * a * t + 2.0 * b * t == 2.0 * (a + b) * t
    ensures p * tt + q * tt == (p + q) * tt
  {
  }

  /** A parabola exceeds its value at the vertex by the leading factor times the squared distance to it. */
  lemma Vertex(c: real, b: real, a: real, m: real, t: real)
    requires a * m == -b
    ensures c + 2.0 * b * t + a * Square(t) == c + 2.0 * b * m + a * Square(m) + a * Square(t - m)
  {
    assert (t - m) * (t - m) == t * t - 2.0 * (t * m) + m * m;
    assert a * ((t - m) * (t - m)) == a * (t * t) - 2.0 * (a * (t * m)) + a * (m * m);
    assert a * (t * m) == (a * m) * t;
    assert a * (m * m) == (a * m) * m;
  }

  function Times(a: real, b: real): real {
    a * b
  }

  function Square(x: real): real {
    Times(x, x)
  }

  lemma TimesPositive(a: real, b: real)
    requires (a > 0.0 && b > 0.0) || (a < 0.0 && b < 0.0)
    ensures Times(a, b) > 0.0
  {
  }

  lemma SquarePositive(x: real)
    ensures x != 0.0 ==> Square(x) > 0.0
    ensures x == 0.0 ==> Square(x) == 0.0
  {
    hide Times;
    if x == 0.0 {
      assert Square(0.0) == 0.0 by { TimesZero(); }
    } else {
      TimesPositive(x, x);
    }
  }

  lemma TimesZero()
    ensures Times(0.0, 0.0) == 0.0
  {
  }

  lemma SquareSign(a: real, x: real)
    requires a > 0.0
    ensures a * Square(x) >= 0.0
    ensures a * Square(x) == 0.0 <==> x == 0.0
  {
    hide Square;
    SquarePositive(x);
    if x != 0.0 {
      TimesPositive(a, Square(x));
    }
  }

  lemma AtTcpa(own: Vessel, target: Vessel)
    requires CalculateCpa(own, target).Some?
    ensures var r, d := CalculateCpa(own, target).value, Relative(own, target);
            r.cpaSquared == Separation2(own, target, r.tcpa) && r.tcpa > 0.0
            && Speed2(d) * r.tcpa == -Closing(d) && Speed2(d) > 0.0
  {
    hide Dot;
    var r, d := CalculateCpa(own, target).value, Relative(own, target);
    var t := r.tcpa;
    assert target.x + target.vx * t - (own.x + own.vx * t) == d.x + d.vx * t;
    assert target.y + target.vy * t - (own.y + own.vy * t) == d.y + d.vy * t;
  }

  /** A result is the true minimum over all times, and the only one. */
  lemma CpaIsMinimum(own: Vessel, target: Vessel, t: real)
    requires CalculateCpa(own, target).Some?
    ensures var r := CalculateCpa(own, target).value;
            && r.tcpa > 0.0
            && r.cpaSquared == Separation2(own, target, r.tcpa)
            && Separation2(own, target, t) >= r.cpaSquared
            && (Separation2(own, target, t) == r.cpaSquared <==> t == r.tcpa)
  {
    hide CalculateCpa, Separation2, Dot, Speed2, Closing, Square;
    var r, d := CalculateCpa(own, target).value, Relative(own, target);
    AtTcpa(own, target);
    Parabola(own, target, t);
    Parabola(own, target, r.tcpa);
    Vertex(Dot(d.x, d.y, d.x, d.y), Closing(d), Speed2(d), r.tcpa, t);
    SquareSign(Speed2(d), t - r.tcpa);
  }

  /**
   There is no result exactly when the squared relative speed is below 1e-10 or
   the vessels never come closer than they are now.
   */
  lemma NoResultMeansNoApproach(own: Vessel, target: Vessel)
    ensures CalculateCpa(own, target).None? <==>
            || Squares(target.vx - own.vx, target.vy - own.vy) < 0.0000000001
            || forall t: real :: t >= 0.0 ==> Separation2(own, target, t) >= Separation2(own, target, 0.0)
  {
    hide Separation2, Dot, Speed2, Closing, Square;
    SpeedIs(own, target);
    if CalculateCpa(own, target).None? {
      if Speed2(Relative(own, target)) >= STILL {
        forall t: real | t >= 0.0 ensures Separation2(own, target, t) >= Separation2(own, target, 0.0) {
          NeverCloser(own, target, t);
        }
      }
    } else {
      CpaIsMinimum(own, target, 0.0);
    }
  }

  function Squares(x: real, y: real): real {
    x * x + y * y
  }

  lemma SpeedIs(own: Vessel, target: Vessel)
    ensures Speed2(Relative(own, target)) == Squares(target.vx - own.vx, target.vy - own.vy)
  {
  }

  lemma NeverCloser(own: Vessel, target: Vessel, t: real)
    requires Speed2(Relative(own, target)) >= STILL && CalculateCpa(own, target).None? && t >= 0.0
    ensures Separation2(own, target, t) >= Separation2(own, target, 0.0)
  {
    hide Separation2, Dot, Speed2, Closing, Square;
    var d := Relative(own, target);
    assert Closing(d) >= 0.0 by {
      NotClosing(Closing(d), Speed2(d));
    }
    Parabola(own, target, t);
    Parabola(own, target, 0.0);
    assert Closing(d) * t >= 0.0;
    SquareSign(Speed2(d), t);
    SquarePositive(0.0);
  }

  lemma NotClosing(b: real, a: real)
    requires a > 0.0 && -b / a <= 0.0
    ensures b >= 0.0
  {
  }

  /** The documented constant distance below the threshold holds exactly without any relative motion. */
  lemma StillIsConstant(own: Vessel, target: Vessel)
    ensures (forall t: real :: Separation2(own, target, t) == Separation2(own, target, 0.0)) <==>
            Relative(own, target).vx == 0.0 && Relative(own, target).vy == 0.0
  {
    hide Separation2;
    var d := Relative(own, target);
    if forall t: real :: Separation2(own, target, t) == Separation2(own, target, 0.0) {
      assert Separation2(own, target, 1.0) == Separation2(own, target, 0.0) == Separation2(own, target, -1.0);
      Parabola(own, target, 1.0);
      Parabola(own, target, -1.0);
      Parabola(own, target, 0.0);
      assert Speed2(d) == 0.0;
      NoSpeed(d.vx, d.vy);
    } else {
      var t: real :| Separation2(own, target, t) != Separation2(own, target, 0.0);
      if d.vx == 0.0 && d.vy == 0.0 {
        Parabola(own, target, t);
        Parabola(own, target, 0.0);
      }
    }
  }

  lemma NoSpeed(vx: real, vy: real)
    requires Square(vx) + Square(vy) == 0.0
    ensures vx == 0.0 && vy == 0.0
  {
    hide Square;
    SquarePositive(vx);
    SquarePositive(vy);
  }
}
