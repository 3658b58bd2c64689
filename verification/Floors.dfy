/** Rounding down, by its defining property. */
module Floors {
  lemma FloorAtLeast(x: nat, y: nat, k: nat)
    requires y > 0
    ensures x / y >= k <==> x >= k * y
  {
    var f := x / y;
    assert f * y <= x < f * y + y;
    if f >= k {
      assert (f - k) * y >= 0;
    } else {
      assert (k - f - 1) * y >= 0;
    }
  }

  lemma FloorMonotone(x: nat, y: nat, m: nat)
    requires x <= y && m > 0
    ensures x / m <= y / m
  {
    FloorAtLeast(x, m, x / m);
    FloorAtLeast(y, m, x / m);
  }
}
