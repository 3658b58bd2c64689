/**
 Relative trails, one cell: its age, and the shade that the age is shown in.

 An age is a 16-bit count of rotations since the last strong return.
 */
module TrailAge {
  import opened Floors

  const U16: nat := 0x1_0000
  const SHADES: nat := 32

  /** What one update of its angle brings to a cell; Beyond is a spoke too short to reach it. */
  datatype Echo = Strong | Weak | Beyond

  function NextAge(age: nat, echo: Echo): nat {
    match echo
    case Strong => 1
    case Weak => if age > 0 then (age + 1) % U16 else 0
    case Beyond => 0
  }

  function Age(echoes: seq<Echo>): nat {
    if echoes == [] then 0
    else NextAge(Age(echoes[..|echoes| - 1]), echoes[|echoes| - 1])
  }

  /** The l-th echo is the strong return that the cell still shows. */
  ghost predicate ShownSince(echoes: seq<Echo>, l: nat) {
    l < |echoes| && echoes[l] == Strong && forall i :: l < i < |echoes| ==> echoes[i] == Weak
  }

  /** The age counts the echoes from the last strong return on, until the count wraps. */
  lemma {:induction false} AgeCounts(echoes: seq<Echo>, l: nat)
    requires ShownSince(echoes, l)
    ensures Age(echoes) == if |echoes| - l < U16 then |echoes| - l else 0
  {
    var rest := echoes[..|echoes| - 1];
    if l < |rest| {
      assert ShownSince(rest, l);
      AgeCounts(rest, l);
    }
  }

  /** Without a strong return, or once a short spoke has passed over it, a cell is empty. */
  lemma {:induction false} NoStrongNoAge(echoes: seq<Echo>)
    requires forall l: nat :: !ShownSince(echoes, l)
    ensures Age(echoes) == 0
  {
    if echoes != [] {
      var last := |echoes| - 1;
      var rest := echoes[..last];
      if echoes[last] == Strong {
        assert ShownSince(echoes, last);
      } else if echoes[last] == Weak {
        forall l: nat ensures !ShownSince(rest, l) {
          assert !ShownSince(echoes, l);
          if ShownSince(rest, l) {
            assert forall i :: l < i < |echoes| ==> echoes[i] == if i < last then rest[i] else Weak;
          }
        }
        NoStrongNoAge(rest);
      }
    }
  }

  lemma ShownSinceUnique(echoes: seq<Echo>, l: nat, m: nat)
    requires ShownSince(echoes, l) && ShownSince(echoes, m)
    ensures l == m
  {
  }

  /** A cell shows a trail exactly when it has a last strong return fewer than 65536 updates ago. */
  lemma AgePositive(echoes: seq<Echo>)
    ensures Age(echoes) > 0 <==> exists l: nat :: ShownSince(echoes, l) && |echoes| - l < U16
    ensures Age(echoes) < U16
  {
    if l: nat :| ShownSince(echoes, l) {
      AgeCounts(echoes, l);
      forall m: nat | ShownSince(echoes, m) ensures m == l {
        ShownSinceUnique(echoes, l, m);
      }
    } else {
      NoStrongNoAge(echoes);
    }
  }

  // ----- Lengths and speeds

  /** The trail length behind a control value; other values are ignored. */
  function TrailLength(control: nat, current: nat): nat {
    match control
    case 0 => 0
    case 1 => 15_000
    case 2 => 30_000
    case 3 => 60_000
    case 4 => 180_000
    case 5 => 300_000
    case 6 => 600_000
    case _ => current
  }

  /** The rotation time in ms, or 0 when the measured time is not plausible. */
  function FullRotation(elapsed: nat): nat {
    if 300 < elapsed < 10000 then elapsed else 0
  }

  predicate IsTrailLength(ms: nat) {
    ms <= 600_000
  }

  predicate IsRotation(ms: nat) {
    ms == 0 || 300 < ms < 10000
  }

  function MaxAge(lengthMs: nat, rotationMs: nat): nat
    requires rotationMs > 0
  {
    lengthMs / rotationMs % U16
  }

  /** Which of the history colours an age is shown in, from 1 on. */
  function Shade(age: nat, maxAge: nat): (shade: nat)
    requires maxAge > 0
    ensures 1 <= shade <= SHADES
  {
    var index := age * SHADES % U16 / maxAge % 256;
    if index >= SHADES then SHADES else if index < 1 then 1 else index
  }

  /** At the speeds and lengths that can be set, the quotient needs no truncation. */
  lemma MaxAgeBound(lengthMs: nat, rotationMs: nat)
    requires IsTrailLength(lengthMs) && IsRotation(rotationMs) && rotationMs > 0
    ensures MaxAge(lengthMs, rotationMs) == lengthMs / rotationMs <= 1993
  {
    FloorAtLeast(lengthMs, rotationMs, 1994);
    SmallModulo(lengthMs / rotationMs, U16);
  }

  /** The 16-bit product does not wrap, and the last history colour is never used. */
  lemma ShadeBound(age: nat, maxAge: nat)
    requires 0 < age < maxAge <= 1993
    ensures age * SHADES < U16 && 1 <= Shade(age, maxAge) <= SHADES - 1
    ensures Shade(age, maxAge) == if age * SHADES < maxAge then 1 else age * SHADES / maxAge
  {
    FloorAtLeast(age * SHADES, maxAge, SHADES);
    FloorAtLeast(age * SHADES, maxAge, 1);
    SmallModulo(age * SHADES, U16);
    SmallModulo(age * SHADES / maxAge, 256);
  }

  lemma SmallModulo(x: nat, m: nat)
    requires x < m
    ensures x % m == x
  {
  }

  /** Older trails are never shown in an earlier colour. */
  lemma ShadeMonotone(age: nat, older: nat, maxAge: nat)
    requires 0 < age <= older < maxAge <= 1993
    ensures Shade(age, maxAge) <= Shade(older, maxAge)
  {
    hide Shade;
    ShadeBound(age, maxAge);
    ShadeBound(older, maxAge);
    FloorMonotone(age * SHADES, older * SHADES, maxAge);
    FloorAtLeast(older * SHADES, maxAge, 1);
  }
}
