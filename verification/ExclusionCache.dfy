/**
 The exclusion zones of a stationary radar: configured zones, the cached mask,
 and the spokes it is applied to.

 The mask is rebuilt when the range or the spoke length differs from the cached
 key; a changed zone sets the cached range to 0 to force that.
 */
module ExclusionCache {
  import opened Options
  import opened RectangleClip
  import opened ExclusionMask
  import SpokeArc

  /** A configured sector; angles in turns, distances in metres. */
  datatype Zone = Zone(startTurn: real, endTurn: real, startDistance: real, endDistance: real, enabled: bool)

  datatype RectZone = RectZone(rect: ZoneRect, enabled: bool)

  // ----- From configuration to spokes and pixels

  /** Cut towards zero, then held within 32 signed bits. */
  function ToI32(x: real): int {
    var whole := if x >= 0.0 then x.Floor else -((-x).Floor);
    if whole < -0x8000_0000 then -0x8000_0000 else if whole > 0x7fff_ffff then 0x7fff_ffff else whole
  }

  /** The end distance in pixels, at most the spoke length. */
  function EndPixelOf(distance: real, range: nat, pixels: nat): nat {
    if range == 0 then (if distance < 0.0 then 0 else pixels)
    else Min(PixelOf(distance, range, pixels), pixels)
  }

  /** Without spokes to the turn the remainder panics, see Panics; spoke 0 then stands for it. */
  function SpokeOf(turn: real, spokes: nat): nat {
    if spokes == 0 then 0 else ToI32(turn * spokes as real) % spokes
  }

  function ZoneToInternal(z: Zone, spokes: nat, range: nat, pixels: nat): Sector {
    Sector(SpokeOf(z.startTurn, spokes), SpokeOf(z.endTurn, spokes),
           PixelOf(z.startDistance, range, pixels), EndPixelOf(z.endDistance, range, pixels))
  }

  function ActiveSectors(zones: seq<Option<Zone>>, spokes: nat, range: nat, pixels: nat): seq<Sector> {
    if zones == [] then []
    else
      (if zones[0].Some? && zones[0].value.enabled then [ZoneToInternal(zones[0].value, spokes, range, pixels)] else [])
      + ActiveSectors(zones[1..], spokes, range, pixels)
  }

  function ActiveRects(rects: seq<Option<RectZone>>): seq<ZoneRect> {
    if rects == [] then []
    else
      (if rects[0].Some? && rects[0].value.enabled then [rects[0].value.rect] else [])
      + ActiveRects(rects[1..])
  }

  function PlanFor(zones: seq<Option<Zone>>, rects: seq<Option<RectZone>>, rays: seq<Vec>, range: nat, pixels: nat)
    : Plan
  {
    Plan(ActiveSectors(zones, |rays|, range, pixels), ActiveRects(rects), rays, pixels, range)
  }

  /** The build fails: a remainder by zero spokes, or a write past the end of a row. */
  ghost predicate Panics(plan: Plan) {
    (plan.rays == [] && plan.sectors != []) || Overruns(plan)
  }

  // ----- What a configured zone means

  predicate IsActive(z: Option<Zone>) {
    z.Some? && z.value.enabled
  }

  predicate IsActiveRect(r: Option<RectZone>) {
    r.Some? && r.value.enabled
  }

  /** The whole part of a number, within 32 signed bits. */
  predicate IsWholePart(x: real, whole: int) {
    if x >= 2147483648.0 then whole == 2147483647
    else if x <= -2147483649.0 then whole == -2147483648
    else if x >= 0.0 then whole as real <= x < whole as real + 1.0
    else whole as real - 1.0 < x <= whole as real
  }

  /** The spoke that lies at a turn, which may be negative or several turns. */
  ghost predicate IsSpokeAt(turn: real, n: nat, spoke: nat) {
    IsSpokeFor(InSpokes(turn, n), n, spoke)
  }

  function InSpokes(turn: real, n: nat): real { turn * n as real }

  ghost predicate IsSpokeFor(spokes: real, n: nat, spoke: nat) {
    spoke < n && exists whole: int :: IsWholePart(spokes, whole) && whole % n == spoke
  }

  /** The spoke lies on the arc that goes forward from the start of the zone to its end, both included. */
  ghost predicate OnArc(z: Zone, n: nat, s: nat) {
    exists first: nat, last: nat ::
      && IsSpokeAt(z.startTurn, n, first) && IsSpokeAt(z.endTurn, n, last)
      && s < n && SpokeArc.Forward(n, first, s) <= SpokeArc.Forward(n, first, last)
  }

  /**
   The zone starts before the outer edge of the pixel and reaches its inner
   edge. The first pixel counts as reached by every zone. At range 0 every
   distance above 0 lies beyond the last pixel.
   */
  predicate InBand(z: Zone, range: nat, pixels: nat, p: nat)
    requires p < pixels
  {
    if range == 0 then z.startDistance <= 0.0 && (p == 0 || z.endDistance >= 0.0)
    else
      && z.startDistance * pixels as real < (p + 1) as real * range as real
      && (p == 0 || z.endDistance * pixels as real >= p as real * range as real)
  }

  /** What the zones and rectangles that are enabled exclude, by the turns and metres they are configured with. */
  ghost predicate ZonesExclude(zones: seq<Option<Zone>>, rects: seq<Option<RectZone>>, rays: seq<Vec>,
                               range: nat, pixels: nat, s: nat, p: nat)
    requires p < pixels
  {
    s < |rays| &&
    ((exists z :: z in zones && IsActive(z) && OnArc(z.value, |rays|, s) && InBand(z.value, range, pixels, p)) ||
     (exists r :: r in rects && IsActiveRect(r) && InSpan(RectSpan(r.value.rect, rays[s], range, pixels), p)))
  }

  lemma ToI32Means(x: real, whole: int)
    ensures IsWholePart(x, whole) <==> whole == ToI32(x)
  {
    var floor, ceiling := x.Floor, -((-x).Floor);
    assert floor as real <= x < floor as real + 1.0;
    assert ceiling as real - 1.0 < x <= ceiling as real;
  }

  lemma SpokeOfMeans(turn: real, n: nat, spoke: nat)
    requires n > 0
    ensures IsSpokeAt(turn, n, spoke) <==> spoke == SpokeOf(turn, n)
  {
    hide IsWholePart, ToI32;
    var x := turn * n as real;
    ToI32Means(x, ToI32(x));
    if IsSpokeAt(turn, n, spoke) {
      var whole: int :| IsWholePart(x, whole) && whole % n == spoke;
      ToI32Means(x, whole);
    }
  }

  /** Within the first turn that is the spoke whose part of the turn holds it. */
  lemma SpokeWithinTurn(turn: real, n: nat, spoke: nat)
    requires 0.0 <= turn < 1.0 && 0 < n <= 0xffff
    ensures IsSpokeAt(turn, n, spoke) <==> spoke as real <= InSpokes(turn, n) < spoke as real + 1.0
  {
    hide IsSpokeFor, InSpokes;
    PartOfTurn(turn, n);
    WholeWithin(InSpokes(turn, n), n, spoke);
  }

  lemma WholeWithin(x: real, n: nat, spoke: nat)
    requires 0.0 <= x < n as real <= 65535.0
    ensures IsSpokeFor(x, n, spoke) <==> spoke as real <= x < spoke as real + 1.0
  {
    if whole: int :| spoke < n && IsWholePart(x, whole) && whole % n == spoke {
      SmallRemainder(whole, n);
    }
    if spoke as real <= x < spoke as real + 1.0 {
      assert spoke as real < n as real;
      SmallRemainder(spoke, n);
      assert IsWholePart(x, spoke);
    }
  }

  lemma PartOfTurn(turn: real, n: nat)
    requires 0.0 <= turn < 1.0 && n > 0
    ensures 0.0 <= InSpokes(turn, n) < n as real
  {
    assert (1.0 - turn) * n as real > 0.0;
  }

  lemma SmallRemainder(x: nat, n: nat)
    requires x < n
    ensures x % n == x
  {
  }

  /** A sector spans the forward arc between its ends. */
  lemma HasSpokeIsArc(sector: Sector, n: nat, s: nat)
    requires sector.startSpoke < n && sector.endSpoke < n && s < n
    ensures sector.HasSpoke(s) <==>
            SpokeArc.Forward(n, sector.startSpoke, s) <= SpokeArc.Forward(n, sector.startSpoke, sector.endSpoke)
  {
  }

  lemma StartPixelMeans(distance: real, range: nat, pixels: nat, p: nat)
    requires p < pixels <= USIZE_MAX && range > 0
    ensures PixelOf(distance, range, pixels) <= p <==> distance * pixels as real < (p + 1) as real * range as real
  {
    var x := distance * pixels as real;
    QuotientBelow(x, range as real, (p + 1) as real);
    assert Pixels(distance, range, pixels) == x / range as real;
    hide Pixels;
    FloorOrder(Pixels(distance, range, pixels), p + 1);
  }

  lemma EndPixelMeans(distance: real, range: nat, pixels: nat, p: nat)
    requires p < pixels && range > 0
    ensures p <= EndPixelOf(distance, range, pixels) <==>
            p == 0 || distance * pixels as real >= p as real * range as real
  {
    var x := distance * pixels as real;
    QuotientBelow(x, range as real, p as real);
    assert Pixels(distance, range, pixels) == x / range as real;
    hide Pixels;
    FloorOrder(Pixels(distance, range, pixels), p);
  }

  lemma QuotientBelow(x: real, d: real, y: real)
    requires d > 0.0
    ensures x / d < y <==> x < y * d
  {
    var q := x / d;
    assert q * d == x;
    if q < y {
      assert (y - q) * d > 0.0;
    } else {
      assert (q - y) * d >= 0.0;
    }
  }

  /** The conversion of a zone to spokes and pixels, in the turns and metres it is configured with. */
  lemma SectorMeans(z: Zone, n: nat, range: nat, pixels: nat, s: nat, p: nat)
    requires 0 < n && s < n && p < pixels <= USIZE_MAX
    ensures ZoneToInternal(z, n, range, pixels).Has(s, p) <==> OnArc(z, n, s) && InBand(z, range, pixels, p)
  {
    hide SpokeOf, IsSpokeAt, SpokeArc.Forward, EndPixelOf, PixelOf, Sector.HasSpoke;
    var sector := ZoneToInternal(z, n, range, pixels);
    forall spoke: nat ensures IsSpokeAt(z.startTurn, n, spoke) <==> spoke == sector.startSpoke {
      SpokeOfMeans(z.startTurn, n, spoke);
    }
    forall spoke: nat ensures IsSpokeAt(z.endTurn, n, spoke) <==> spoke == sector.endSpoke {
      SpokeOfMeans(z.endTurn, n, spoke);
    }
    StartIsASpoke(z, n, range, pixels);
    HasSpokeIsArc(sector, n, s);
    assert OnArc(z, n, s) <==> sector.HasSpoke(s);
    if range > 0 {
      StartPixelMeans(z.startDistance, range, pixels, p);
      EndPixelMeans(z.endDistance, range, pixels, p);
    } else {
      BandAtRangeZero(z, pixels, p);
    }
  }

  lemma BandAtRangeZero(z: Zone, pixels: nat, p: nat)
    requires p < pixels <= USIZE_MAX
    ensures PixelOf(z.startDistance, 0, pixels) <= p <= EndPixelOf(z.endDistance, 0, pixels) <==>
            InBand(z, 0, pixels, p)
  {
  }

  /** What the plan covers is what the configured zones and rectangles exclude. */
  lemma PlanExcludes(zones: seq<Option<Zone>>, rects: seq<Option<RectZone>>, rays: seq<Vec>,
                     range: nat, pixels: nat, s: nat, p: nat)
    requires p < pixels <= USIZE_MAX && s < |rays|
    ensures Covered(PlanFor(zones, rects, rays, range, pixels), s, p) <==>
            ZonesExclude(zones, rects, rays, range, pixels, s, p)
  {
    hide ZoneToInternal, OnArc, InBand, RectSpan, InSpan, Sector.Has, ActiveSectors, ActiveRects;
    var plan := PlanFor(zones, rects, rays, range, pixels);
    if sector :| sector in plan.sectors && sector.Has(s, p) {
      ActiveSectorsMeans(zones, |rays|, range, pixels, sector);
      var z :| z in zones && IsActive(z) && sector == ZoneToInternal(z.value, |rays|, range, pixels);
      SectorMeans(z.value, |rays|, range, pixels, s, p);
    }
    if z :| z in zones && IsActive(z) && OnArc(z.value, |rays|, s) && InBand(z.value, range, pixels, p) {
      SectorMeans(z.value, |rays|, range, pixels, s, p);
      ActiveSectorsMeans(zones, |rays|, range, pixels, ZoneToInternal(z.value, |rays|, range, pixels));
    }
    if rect :| rect in plan.rects && InSpan(RectSpan(rect, rays[s], range, pixels), p) {
      ActiveRectsMean(rects, rect);
    }
    if r :| r in rects && IsActiveRect(r) && InSpan(RectSpan(r.value.rect, rays[s], range, pixels), p) {
      ActiveRectsMean(rects, r.value.rect);
    }
  }

  predicate Idle(plan: Plan) {
    plan.sectors == [] && plan.rects == []
  }

  /** The mask that a fresh build would give: none without active zones, else one of exactly these zones. */
  ghost predicate Current(mask: Option<Mask>, plan: Plan) {
    if Idle(plan) then mask.None? else mask.Some? && !Panics(plan) && IsMaskOf(mask.value, plan)
  }

  /** Two plans of one shape exclude the same pixels. */
  ghost predicate SameCover(p: Plan, q: Plan) {
    && |p.rays| == |q.rays| && p.pixels == q.pixels
    && forall s: nat, px: nat :: s < |p.rays| && px < p.pixels ==> (Covered(p, s, px) <==> Covered(q, s, px))
  }

  lemma MaskOfAnother(m: Mask, built: Plan, plan: Plan)
    requires IsMaskOf(m, built)
    ensures IsMaskOf(m, plan) <==> SameCover(built, plan)
  {
    hide Covered, IsExcluded;
    if IsMaskOf(m, plan) {
      forall s: nat, px: nat | s < |built.rays| && px < built.pixels
        ensures Covered(built, s, px) <==> Covered(plan, s, px)
      {
        assert IsExcluded(m, s, px) <==> Covered(built, s, px);
      }
    }
  }

  class CommonRadar {
    const stationary: bool
    const replay: bool
    /** The value drawn on the range circle in replay mode. */
    const ring: nat
    const rays: seq<Vec>
    var zones: seq<Option<Zone>>
    var rects: seq<Option<RectZone>>
    var mask: Option<Mask>
    var currentRange: nat
    var currentLen: nat

    /** What the held mask was built from. */
    ghost var built: Plan

    /** A mask is that of its own plan, and under a non-zero key that is the plan a fresh build would use. */
    ghost predicate Valid()
      reads this
    {
      && |zones| == 4 && |rects| == 4
      && (!stationary ==> mask.None?)
      && (mask.Some? ==> IsMaskOf(mask.value, built) && built.rays == rays && built.pixels == currentLen)
      && (mask.Some? && currentRange > 0 ==>
            built == PlanFor(zones, rects, rays, currentRange, currentLen) && !Idle(built) && !Panics(built))
    }

    /** The held mask blanks this pixel. */
    ghost predicate Blanks(angle: nat, p: nat)
      reads this
    {
      mask.Some? && angle < |built.rays| && Covered(built, angle, p)
    }

    constructor (stationary: bool, replay: bool, ring: nat, rays: seq<Vec>,
                 zones: seq<Option<Zone>>, rects: seq<Option<RectZone>>)
      requires |zones| == 4 && |rects| == 4
      ensures Valid() && mask.None? && this.zones == zones && this.rects == rects && this.rays == rays
      ensures this.stationary == stationary && this.replay == replay && this.ring == ring
      ensures currentRange == 0 && currentLen == 0
    {
      this.stationary, this.replay, this.ring, this.rays := stationary, replay, ring, rays;
      this.zones, this.rects := zones, rects;
      mask, currentRange, currentLen := None, 0, 0;
      built := Plan([], [], rays, 0, 0);
    }

    method SetZone(i: nat, zone: Option<Zone>)
      requires Valid() && i < 4
      modifies this`zones, this`currentRange
      ensures Valid() && zones == old(zones)[i := zone] && currentRange == 0
    {
      zones := zones[i := zone];
      currentRange := 0;
    }

    method SetRect(i: nat, rect: Option<RectZone>)
      requires Valid() && i < 4
      modifies this`rects, this`currentRange
      ensures Valid() && rects == old(rects)[i := rect] && currentRange == 0
    {
      rects := rects[i := rect];
      currentRange := 0;
    }

    predicate KeyMatches(range: nat, len: nat)
      reads this
    {
      range == currentRange && len == currentLen && mask.Some?
    }

    /** Rebuilds the mask unless the key matches; false stands for the panic of the build. */
    method Refresh(range: nat, len: nat) returns (ok: bool)
      requires Valid()
      modifies this`mask, this`currentRange, this`currentLen, this`built
      ensures ok ==> Valid()
      ensures stationary ==> currentRange == range && currentLen == len
      ensures !stationary || old(KeyMatches(range, len)) ==> ok && mask == old(mask) && built == old(built)
      ensures stationary && (range > 0 || !old(KeyMatches(range, len))) ==>
                var plan := PlanFor(zones, rects, rays, range, len);
                && (ok <==> Idle(plan) || !Panics(plan))
                && (ok ==> Current(mask, plan) && (mask.Some? ==> built == plan))
      ensures stationary && old(KeyMatches(range, len)) ==>
                var plan := PlanFor(zones, rects, rays, range, len);
                Current(mask, plan) <==> !Idle(plan) && !Panics(plan) && SameCover(built, plan)
    {
      hide Panics, IsMaskOf, Covered, SameCover;
      if !stationary {
        return true;
      }
      ghost var plan := PlanFor(zones, rects, rays, range, len);
      if KeyMatches(range, len) {
        MaskOfAnother(mask.value, built, plan);
        return true;
      }
      ok := Rebuild(range, len);
    }

    /** The build itself, under a new key. */
    method Rebuild(range: nat, len: nat) returns (ok: bool)
      requires |zones| == 4 && |rects| == 4 && stationary
      modifies this`mask, this`currentRange, this`currentLen, this`built
      ensures ok ==> Valid()
      ensures currentRange == range && currentLen == len
      ensures var plan := PlanFor(zones, rects, rays, range, len);
              && (ok <==> Idle(plan) || !Panics(plan))
              && (ok ==> Current(mask, plan) && (mask.Some? ==> built == plan))
    {
      hide Overruns, IsMaskOf, Covered;
      currentRange, currentLen := range, len;
      var plan := PlanFor(zones, rects, rays, range, len);
      built := plan;
      if Idle(plan) {
        mask := None;
        return true;
      }
      if plan.rays == [] && plan.sectors != [] {
        return false;
      }
      mask := NewMask(plan);
      return mask.Some?;
    }

    /**
     One spoke, changed in place: the replay circle, then zero wherever the held
     mask says so. That is wherever a zone covers it, unless the key matches at
     range 0; then it is wherever a zone did when the mask was built.
     */
    method AddSpoke(range: nat, angle: nat, data: array<nat>) returns (ok: bool)
      requires Valid() && data.Length <= USIZE_MAX
      modifies this`mask, this`currentRange, this`currentLen, this`built, data
      ensures ok ==> Valid()
      ensures ok ==> forall p: nat :: p < data.Length ==>
                data[p] == if Blanks(angle, p) then 0
                           else if replay && data.Length >= 2 && p >= data.Length - 2 then ring else old(data[p])
      ensures stationary && old(KeyMatches(range, data.Length)) ==> ok && mask == old(mask) && built == old(built)
      ensures range > 0 || !old(KeyMatches(range, data.Length)) ==>
                var plan := PlanFor(zones, rects, rays, range, data.Length);
                ok <==> !stationary || Idle(plan) || !Panics(plan)
      ensures ok && (range > 0 || !old(KeyMatches(range, data.Length))) ==> forall p: nat :: p < data.Length ==>
                data[p] == if stationary && ZonesExclude(zones, rects, rays, range, data.Length, angle, p) then 0
                           else if replay && data.Length >= 2 && p >= data.Length - 2 then ring else old(data[p])
    {
      hide Panics, Covered, IsMaskOf, PlanFor, Idle, ZonesExclude;
      ghost var current := range > 0 || !KeyMatches(range, data.Length);
      ok := Refresh(range, data.Length);
      if !ok {
        return;
      }
      if replay && data.Length >= 2 {
        data[data.Length - 2] := ring;
        data[data.Length - 1] := ring;
      }
      if mask.Some? {
        ShapeOfMask(mask.value, built);
        ApplyMask(mask.value, angle, data);
        MaskBlanks(mask.value, built, angle);
      }
      if current {
        BlanksWhatIsExcluded(range, data.Length, angle);
      }
    }

    /** A current mask blanks exactly what the zones exclude. */
    lemma BlanksWhatIsExcluded(range: nat, pixels: nat, angle: nat)
      requires pixels <= USIZE_MAX
      requires var plan := PlanFor(zones, rects, rays, range, pixels);
               stationary ==> Current(mask, plan) && (mask.Some? ==> built == plan)
      requires !stationary ==> mask.None?
      ensures forall p: nat :: p < pixels ==>
                (Blanks(angle, p) <==> stationary && ZonesExclude(zones, rects, rays, range, pixels, angle, p))
    {
      hide Panics, IsMaskOf, Covered, ZonesExclude;
      var plan := PlanFor(zones, rects, rays, range, pixels);
      forall p: nat | p < pixels && angle < |rays|
        ensures Covered(plan, angle, p) <==> ZonesExclude(zones, rects, rays, range, pixels, angle, p)
      {
        PlanExcludes(zones, rects, rays, range, pixels, angle, p);
      }
      forall p: nat | p < pixels && angle >= |rays| ensures !ZonesExclude(zones, rects, rays, range, pixels, angle, p) {
        NoSpokeNoZone(zones, rects, rays, range, pixels, angle, p);
      }
      if Idle(plan) {
        forall p: nat | p < pixels && angle < |rays| ensures !Covered(plan, angle, p) {
          IdleCoversNothing(plan, angle, p);
        }
      }
    }
  }

  lemma NoSpokeNoZone(zones: seq<Option<Zone>>, rects: seq<Option<RectZone>>, rays: seq<Vec>,
                      range: nat, pixels: nat, s: nat, p: nat)
    requires p < pixels && s >= |rays|
    ensures !ZonesExclude(zones, rects, rays, range, pixels, s, p)
  {
  }

  lemma IdleCoversNothing(plan: Plan, s: nat, p: nat)
    requires Idle(plan) && s < |plan.rays|
    ensures !Covered(plan, s, p)
  {
  }

  lemma MaskBlanks(m: Mask, plan: Plan, angle: nat)
    requires IsMaskOf(m, plan)
    ensures forall p: nat :: p < plan.pixels ==>
              (IsExcluded(m, angle, p) <==> angle < |plan.rays| && Covered(plan, angle, p))
  {
    hide Covered, IsExcluded;
  }

  method ApplyMask(m: Mask, angle: nat, data: array<nat>)
    requires Shape(m.rows, m.spokes, RowBytes(m.pixels))
    modifies data
    ensures forall p: nat :: p < data.Length ==> data[p] == if IsExcluded(m, angle, p) then 0 else old(data[p])
  {
    for p := 0 to data.Length
      invariant forall k: nat :: k < p ==> data[k] == if IsExcluded(m, angle, k) then 0 else old(data[k])
      invariant forall k: nat :: p <= k < data.Length ==> data[k] == old(data[k])
    {
      if IsExcluded(m, angle, p) {
        data[p] := 0;
      }
    }
  }

  lemma ShapeOfMask(m: Mask, plan: Plan)
    requires IsMaskOf(m, plan)
    ensures Shape(m.rows, m.spokes, RowBytes(m.pixels))
  {
  }

  // ----- Which configured zones make the build panic

  lemma {:induction false} ActiveSectorsMeans(zones: seq<Option<Zone>>, spokes: nat, range: nat, pixels: nat,
                                              sector: Sector)
    ensures sector in ActiveSectors(zones, spokes, range, pixels) <==>
            exists z :: z in zones && IsActive(z) && sector == ZoneToInternal(z.value, spokes, range, pixels)
  {
    hide ZoneToInternal;
    if zones != [] {
      ActiveSectorsMeans(zones[1..], spokes, range, pixels, sector);
      assert zones == [zones[0]] + zones[1..];
    }
  }

  /** The end pixel reaches the spoke length exactly when the zone reaches the range, or there are no pixels. */
  lemma EndReachesRange(distance: real, range: nat, pixels: nat)
    ensures EndPixelOf(distance, range, pixels) >= pixels <==> pixels == 0 || distance >= range as real
  {
    hide Pixels;
    if range > 0 && pixels > 0 {
      PixelsOfRange(range, pixels);
      PixelsOrder(range as real, distance, range, pixels);
      FloorOrder(Pixels(distance, range, pixels), pixels);
    }
  }

  lemma PixelsOfRange(range: nat, pixels: nat)
    requires range > 0
    ensures Pixels(range as real, range, pixels) == pixels as real
  {
    assert range as real * pixels as real == pixels as real * range as real;
  }

  lemma FloorOrder(x: real, n: nat)
    ensures x.Floor >= n <==> x >= n as real
  {
  }

  lemma {:induction false} ActiveRectsMean(rects: seq<Option<RectZone>>, rect: ZoneRect)
    ensures rect in ActiveRects(rects) <==> exists r :: r in rects && r.Some? && r.value.enabled && rect == r.value.rect
  {
    if rects != [] {
      ActiveRectsMean(rects[1..], rect);
      assert rects == [rects[0]] + rects[1..];
    }
  }

  /** This zone makes the build fail. */
  predicate PanicsOn(z: Zone, spokes: nat, range: nat, pixels: nat) {
    spokes == 0 || (pixels % 8 == 0 && (pixels == 0 || z.endDistance >= range as real))
  }

  /** Some spoke has a stretch in an enabled rectangle. */
  ghost predicate MeetsRect(rects: seq<Option<RectZone>>, rays: seq<Vec>) {
    exists r, s: nat ::
      r in rects && r.Some? && r.value.enabled && s < |rays| && RectSpan(r.value.rect, rays[s], 0, 0).Some?
  }

  /**
   Building the mask panics exactly when some enabled sector zone reaches out to
   the range or beyond and the spoke length is a multiple of eight, or there are
   no spokes, or there are no pixels; without pixels a rectangle does it too.
   */
  lemma ZonesThatPanic(zones: seq<Option<Zone>>, rects: seq<Option<RectZone>>, rays: seq<Vec>, range: nat, pixels: nat)
    ensures Panics(PlanFor(zones, rects, rays, range, pixels)) <==>
            || (exists z :: z in zones && IsActive(z) && PanicsOn(z.value, |rays|, range, pixels))
            || (pixels == 0 && MeetsRect(rects, rays))
  {
    hide SectorsFail, RectsFail, PanicsOn, MeetsRect, PlanFor;
    var plan := PlanFor(zones, rects, rays, range, pixels);
    PanicsSplit(plan);
    SectorsThatPanic(zones, rects, rays, range, pixels);
    RectsThatPanic(zones, rects, rays, range, pixels);
  }

  ghost predicate SectorsFail(plan: Plan) {
    || (plan.rays == [] && plan.sectors != [])
    || (plan.pixels % 8 == 0 &&
        exists z, s: nat :: z in plan.sectors && s < |plan.rays| && z.HasSpoke(s) && z.endPixel >= plan.pixels)
  }

  ghost predicate RectsFail(plan: Plan) {
    && plan.pixels == 0
    && exists r, s: nat :: r in plan.rects && s < |plan.rays| && RectSpan(r, plan.rays[s], plan.range, 0).Some?
  }

  lemma PanicsSplit(plan: Plan)
    ensures Panics(plan) <==> SectorsFail(plan) || RectsFail(plan)
  {
    hide RectSpan, Sector.HasSpoke;
  }

  lemma SectorsThatPanic(zones: seq<Option<Zone>>, rects: seq<Option<RectZone>>, rays: seq<Vec>, range: nat,
                         pixels: nat)
    ensures SectorsFail(PlanFor(zones, rects, rays, range, pixels)) <==>
            exists z :: z in zones && IsActive(z) && PanicsOn(z.value, |rays|, range, pixels)
  {
    hide EndPixelOf, PixelOf, ToI32, ActiveSectors, ActiveRects, Sector.HasSpoke;
    var plan := PlanFor(zones, rects, rays, range, pixels);
    if SectorsFail(plan) {
      assert rays == [] ==> plan.sectors[0] in plan.sectors;
      var sector :| sector in plan.sectors && (rays == [] || (pixels % 8 == 0 && sector.endPixel >= pixels));
      ActiveSectorsMeans(zones, |rays|, range, pixels, sector);
      var z :| z in zones && IsActive(z) && sector == ZoneToInternal(z.value, |rays|, range, pixels);
      EndReachesRange(z.value.endDistance, range, pixels);
      assert PanicsOn(z.value, |rays|, range, pixels);
    }
    if z :| z in zones && IsActive(z) && PanicsOn(z.value, |rays|, range, pixels) {
      var sector := ZoneToInternal(z.value, |rays|, range, pixels);
      ActiveSectorsMeans(zones, |rays|, range, pixels, sector);
      EndReachesRange(z.value.endDistance, range, pixels);
      StartIsASpoke(z.value, |rays|, range, pixels);
    }
  }

  lemma StartIsASpoke(z: Zone, spokes: nat, range: nat, pixels: nat)
    ensures var sector := ZoneToInternal(z, spokes, range, pixels);
            && sector.HasSpoke(sector.startSpoke)
            && (spokes > 0 ==> sector.startSpoke < spokes && sector.endSpoke < spokes)
  {
  }

  lemma RectsThatPanic(zones: seq<Option<Zone>>, rects: seq<Option<RectZone>>, rays: seq<Vec>, range: nat, pixels: nat)
    ensures RectsFail(PlanFor(zones, rects, rays, range, pixels)) <==> pixels == 0 && MeetsRect(rects, rays)
  {
    hide RectSpan, ActiveSectors, ActiveRects;
    var plan := PlanFor(zones, rects, rays, range, pixels);
    if RectsFail(plan) {
      var r, s: nat :| r in plan.rects && s < |rays| && RectSpan(r, rays[s], range, 0).Some?;
      ActiveRectsMean(rects, r);
      SpanIsOfStretch(r, rays[s], range);
    }
    if r, s: nat :| pixels == 0 && r in rects && r.Some? && r.value.enabled && s < |rays|
                    && RectSpan(r.value.rect, rays[s], 0, 0).Some? {
      ActiveRectsMean(rects, r.value.rect);
      SpanIsOfStretch(r.value.rect, rays[s], range);
    }
  }

  /** Whether there is a span does not depend on the range. */
  lemma SpanIsOfStretch(r: ZoneRect, ray: Vec, range: nat)
    ensures RectSpan(r, ray, range, 0).Some? <==> RectSpan(r, ray, 0, 0).Some?
  {
    hide HitList, Sort, InsidePolygon, PixelOf;
  }

  // ----- When the cached key collides with the invalidation value

  /** At range 0 a removed zone keeps blanking pixels: the stale mask survives the refresh. */
  method StaleMaskAtRangeZero() returns (radar: CommonRadar)
    ensures fresh(radar) && radar.Valid() && radar.stationary && radar.KeyMatches(0, 4)
    ensures Idle(PlanFor(radar.zones, radar.rects, radar.rays, 0, 4))
    ensures radar.Blanks(0, 0) && IsExcluded(radar.mask.value, 0, 0)
  {
    var zone := Zone(0.0, 0.5, 0.0, 10.0, true);
    radar := new CommonRadar(true, false, 0, [Vec(0.0, 1.0)], [Some(zone), None, None, None], [None, None, None, None]);
    var plan := PlanFor(radar.zones, radar.rects, radar.rays, 0, 4);
    assert plan.sectors[0] == ZoneToInternal(zone, 1, 0, 4);
    assert !Overruns(plan) by { FourPixelsFit(plan); }
    var ok := radar.Refresh(0, 4);
    assert Covered(plan, 0, 0) by {
      assert ZoneToInternal(zone, 1, 0, 4) in plan.sectors && ZoneToInternal(zone, 1, 0, 4).Has(0, 0);
    }
    assert radar.built == plan;
    radar.SetZone(0, None);
    ok := radar.Refresh(0, 4);
    NothingActive();
    MaskBlanks(radar.mask.value, radar.built, 0);
  }

  lemma FourPixelsFit(plan: Plan)
    requires plan.pixels == 4
    ensures !Overruns(plan)
  {
  }

  lemma NothingActive()
    ensures Idle(PlanFor([None, None, None, None], [None, None, None, None], [Vec(0.0, 1.0)], 0, 4))
  {
  }
}
