/** One bit of a byte. */
module Bits {
  predicate TestBit(m: bv8, b: nat)
    requires b < 8
  {
    (m >> b) & 1 == 1
  }

  function SetBit(m: bv8, b: nat): bv8
    requires b < 8
  {
    m | (1 << b)
  }

  function Power(b: nat): bv8 {
    if b == 0 then 1 else if b == 1 then 2 else if b == 2 then 4 else if b == 3 then 8
    else if b == 4 then 16 else if b == 5 then 32 else if b == 6 then 64 else 128
  }

  lemma OrBits(m: bv8, k: bv8, c: nat)
    requires c < 8
    ensures TestBit(m | k, c) <==> TestBit(m, c) || TestBit(k, c)
  {
  }

  lemma ShiftIsPower(b: nat)
    requires b < 8
    ensures (1 as bv8) << b == Power(b)
  {
    if b == 0 { } else if b == 1 { } else if b == 2 { } else if b == 3 { } else if b == 4 { }
    else if b == 5 { } else if b == 6 { } else { assert b == 7; }
  }

  lemma PowerBits(c: nat)
    requires c < 8
    ensures forall b: nat :: b < 8 ==> (TestBit(Power(b), c) <==> b == c)
  {
    if c == 0 { } else if c == 1 { } else if c == 2 { } else if c == 3 { } else if c == 4 { }
    else if c == 5 { } else if c == 6 { } else { assert c == 7; }
  }

  /** Setting a bit sets that bit and disturbs no other. */
  lemma SetBitEffect(m: bv8, b: nat, c: nat)
    requires b < 8 && c < 8
    ensures TestBit(SetBit(m, b), c) <==> TestBit(m, c) || b == c
  {
    hide TestBit, Power;
    ShiftIsPower(b);
    PowerBits(c);
    OrBits(m, Power(b), c);
  }

  lemma ZeroBits(c: nat)
    requires c < 8
    ensures !TestBit(0, c)
  {
  }
}

/**
 The exclusion mask: one bit per pixel of every spoke, set where a zone covers it.

 Building the mask can index past the end of a row; that panic is an outcome of
 the model, and the mask is described for every input that does not panic.
 */
module ExclusionMask {
  import opened Options
  import opened Bits
  import opened RectangleClip

  const USIZE_MAX: nat := 0xffff_ffff_ffff_ffff

  /** A sector zone in spokes and pixels; it spans spoke 0 when its start is past its end. */
  datatype Sector = Sector(startSpoke: nat, endSpoke: nat, startPixel: nat, endPixel: nat)
  {
    predicate HasSpoke(s: nat) {
      if startSpoke <= endSpoke then startSpoke <= s <= endSpoke else s >= startSpoke || s <= endSpoke
    }

    predicate Has(s: nat, p: nat) {
      HasSpoke(s) && startPixel <= p <= endPixel
    }
  }

  datatype Mask = Mask(rows: seq<seq<bv8>>, spokes: nat, pixels: nat)

  /** A rectangle together with the right length of its edge. */
  type ZoneRect = r: Rect | r.Measured() witness Rect(ORIGIN, ORIGIN, 0.0, 0.0)

  /** Everything a mask is built from; a spoke is the direction of its ray. */
  datatype Plan = Plan(sectors: seq<Sector>, rects: seq<ZoneRect>, rays: seq<Vec>, pixels: nat, range: nat)

  // ----- Distances and pixels

  /** A distance divided by the metres per pixel and cut to an unsigned integer, as the hardware does it. */
  function PixelOf(distance: real, range: nat, pixels: nat): nat {
    if pixels == 0 then 0
    else if range == 0 then (if distance > 0.0 then USIZE_MAX else 0)
    else
      var q := Pixels(distance, range, pixels).Floor;
      if q < 0 then 0 else q
  }

  /** A distance in pixels: divided by the metres per pixel. */
  function Pixels(distance: real, range: nat, pixels: nat): real
    requires range > 0
  {
    distance * (pixels as real) / (range as real)
  }

  function Min(a: nat, b: nat): nat { if a <= b then a else b }

  /** The pixels of a spoke that a rectangle excludes, first and last. */
  function RectSpan(r: ZoneRect, ray: Vec, range: nat, pixels: nat): Option<(nat, nat)> {
    if r.Degenerate() then None
    else
      var stretch := Stretch(InsidePolygon(ORIGIN, r.Corners()), Sort(HitList(r.Corners(), ray, 4)));
      StretchSpan(stretch, range, pixels)
  }

  /** A stretch of metres as the pixels from its first to its last. */
  function StretchSpan(stretch: Option<(real, real)>, range: nat, pixels: nat): Option<(nat, nat)> {
    match stretch
    case None => None
    case Some(lh) =>
      Some((PixelOf(lh.0, range, pixels), Min(PixelOf(lh.1, range, pixels), if pixels == 0 then 0 else pixels - 1)))
  }

  // ----- Plain membership

  predicate InSpan(span: Option<(nat, nat)>, p: nat) {
    span.Some? && span.value.0 <= p <= span.value.1
  }

  /** Some zone covers pixel p of spoke s. */
  ghost predicate Covered(plan: Plan, s: nat, p: nat)
    requires s < |plan.rays|
  {
    || (exists z :: z in plan.sectors && z.Has(s, p))
    || (exists r :: r in plan.rects && InSpan(RectSpan(r, plan.rays[s], plan.range, plan.pixels), p))
  }

  /** Building writes past the end of a row. */
  ghost predicate Overruns(plan: Plan) {
    || (plan.pixels % 8 == 0 &&
        exists z, s: nat :: z in plan.sectors && s < |plan.rays| && z.HasSpoke(s) && z.endPixel >= plan.pixels)
    || (plan.pixels == 0 &&
        exists r, s: nat ::
          r in plan.rects && s < |plan.rays| && RectSpan(r, plan.rays[s], plan.range, plan.pixels).Some?)
  }

  // ----- Rows of bits

  predicate RowBit(row: seq<bv8>, p: nat) {
    p / 8 < |row| && TestBit(row[p / 8], p % 8)
  }

  /** Sets the bits from start to end, both included, unless that runs past the row. */
  method SetBits(row: seq<bv8>, start: nat, end: nat) returns (r: Option<seq<bv8>>)
    ensures r.None? <==> start <= end && end / 8 >= |row|
    ensures r.Some? ==> |r.value| == |row|
    ensures r.Some? ==> forall p: nat :: RowBit(r.value, p) <==> RowBit(row, p) || (p / 8 < |row| && start <= p <= end)
  {
    hide TestBit;
    var out := row;
    var pixel := start;
    while pixel <= end
      invariant if start <= end then start <= pixel <= end + 1 else pixel == start
      invariant |out| == |row|
      invariant pixel > start ==> (pixel - 1) / 8 < |row|
      invariant forall p: nat :: RowBit(out, p) <==> RowBit(row, p) || (p / 8 < |row| && start <= p < pixel)
    {
      if pixel / 8 >= |row| {
        return None;
      }
      ghost var before := out;
      out := out[pixel / 8 := SetBit(out[pixel / 8], pixel % 8)];
      forall p: nat ensures RowBit(out, p) <==> RowBit(before, p) || p == pixel {
        SetRowBit(before, pixel, p);
      }
      pixel := pixel + 1;
    }
    return Some(out);
  }

  lemma SetRowBit(row: seq<bv8>, pixel: nat, p: nat)
    requires pixel / 8 < |row|
    ensures RowBit(row[pixel / 8 := SetBit(row[pixel / 8], pixel % 8)], p) <==> RowBit(row, p) || p == pixel
  {
    hide TestBit;
    if p / 8 == pixel / 8 {
      SetBitEffect(row[pixel / 8], pixel % 8, p % 8);
      assert p == 8 * (p / 8) + p % 8 && pixel == 8 * (pixel / 8) + pixel % 8;
    }
  }

  ghost predicate Shape(rows: seq<seq<bv8>>, spokes: nat, bytes: nat) {
    |rows| == spokes && forall s: nat :: s < spokes ==> |rows[s]| == bytes
  }

  type Span = Option<(nat, nat)>

  /** Setting this span overruns a row of so many bytes. */
  predicate Overrun(span: Span, bytes: nat) {
    span.Some? && span.value.0 <= span.value.1 && span.value.1 / 8 >= bytes
  }

  /** For one zone: sets, on every spoke, the pixels of that spoke's span. */
  method Paint(rows: seq<seq<bv8>>, spans: seq<Span>, bytes: nat) returns (r: Option<seq<seq<bv8>>>)
    requires Shape(rows, |spans|, bytes)
    ensures r.None? <==> exists s: nat :: s < |spans| && Overrun(spans[s], bytes)
    ensures r.Some? ==> Shape(r.value, |spans|, bytes)
    ensures r.Some? ==> forall s: nat, p: nat :: s < |spans| && p / 8 < bytes ==>
              (RowBit(r.value[s], p) <==> RowBit(rows[s], p) || InSpan(spans[s], p))
  {
    hide RowBit;
    var out := rows;
    for s := 0 to |spans|
      invariant Shape(out, |spans|, bytes)
      invariant forall k: nat :: k < s ==> !Overrun(spans[k], bytes)
      invariant forall k: nat :: s <= k < |spans| ==> out[k] == rows[k]
      invariant forall k: nat, p: nat :: k < s && p / 8 < bytes ==>
                  (RowBit(out[k], p) <==> RowBit(rows[k], p) || InSpan(spans[k], p))
    {
      if spans[s].Some? {
        var row := SetBits(out[s], spans[s].value.0, spans[s].value.1);
        if row.None? {
          assert Overrun(spans[s], bytes);
          return None;
        }
        out := out[s := row.value];
      }
    }
    return Some(out);
  }

  /** The pixels that a sector excludes on spoke s; the clamp lets the last one be `pixels` itself. */
  function SectorSpan(z: Sector, s: nat, pixels: nat): Span {
    if z.HasSpoke(s) then Some((Min(z.startPixel, pixels), Min(z.endPixel, pixels))) else None
  }

  function Spans(plan: Plan, zone: nat): (spans: seq<Span>)
    requires zone < |plan.sectors| + |plan.rects|
    ensures |spans| == |plan.rays|
  {
    if zone < |plan.sectors| then
      seq(|plan.rays|, s requires 0 <= s => SectorSpan(plan.sectors[zone], s, plan.pixels))
    else
      var r := plan.rects[zone - |plan.sectors|];
      seq(|plan.rays|, s requires 0 <= s < |plan.rays| => RectSpan(r, plan.rays[s], plan.range, plan.pixels))
  }

  /** The spans of one zone: a test of every spoke for a sector, an intersection with every spoke for a rectangle. */
  method ZoneSpans(plan: Plan, zone: nat) returns (spans: seq<Span>)
    requires zone < |plan.sectors| + |plan.rects|
    ensures spans == Spans(plan, zone)
  {
    spans := [];
    if zone < |plan.sectors| {
      for s := 0 to |plan.rays|
        invariant |spans| == s && forall k: nat :: k < s ==> spans[k] == Spans(plan, zone)[k]
      {
        spans := spans + [SectorSpan(plan.sectors[zone], s, plan.pixels)];
      }
    } else {
      spans := RectSpans(plan.rects[zone - |plan.sectors|], plan.rays, plan.range, plan.pixels);
    }
  }

  method RectSpans(r: ZoneRect, rays: seq<Vec>, range: nat, pixels: nat) returns (spans: seq<Span>)
    ensures |spans| == |rays| && forall s: nat :: s < |rays| ==> spans[s] == RectSpan(r, rays[s], range, pixels)
  {
    hide HitList, Sort, InsidePolygon, PixelOf, Stretch, Rect.Corners;
    if r.Degenerate() {
      return seq(|rays|, s => None);
    }
    var originInside := IsPointInPolygon(ORIGIN, r.Corners());
    spans := [];
    for s := 0 to |rays|
      invariant |spans| == s && forall k: nat :: k < s ==> spans[k] == RectSpan(r, rays[k], range, pixels)
    {
      var stretch := ClipRay(r.Corners(), rays[s], originInside);
      spans := spans + [StretchSpan(stretch, range, pixels)];
    }
  }

  /** Bytes in a row: eight pixels to the byte. */
  function RowBytes(pixels: nat): nat { (pixels + 7) / 8 }

  method NewMask(plan: Plan) returns (r: Option<Mask>)
    ensures r.None? <==> Overruns(plan)
    ensures r.Some? ==> IsMaskOf(r.value, plan)
  {
    hide RowBit, RectSpan, Overruns, SectorSpan, Spans;
    var bytes := RowBytes(plan.pixels);
    var n := |plan.sectors| + |plan.rects|;
    var rows := seq(|plan.rays|, s => EmptyRow(bytes));
    NoBits(bytes);
    for zone := 0 to n
      invariant Shape(rows, |plan.rays|, bytes)
      invariant forall k: nat, s: nat :: k < zone && s < |plan.rays| ==> !Overrun(Spans(plan, k)[s], bytes)
      invariant forall s: nat, p: nat :: s < |plan.rays| && p / 8 < bytes ==>
                  (RowBit(rows[s], p) <==> exists k: nat :: k < zone && InSpan(Spans(plan, k)[s], p))
    {
      var spans := ZoneSpans(plan, zone);
      var painted := Paint(rows, spans, bytes);
      if painted.None? {
        OverrunsMeans(plan);
        return None;
      }
      rows := painted.value;
    }
    OverrunsMeans(plan);
    forall s: nat, p: nat | s < |plan.rays| && p < plan.pixels
      ensures RowBit(rows[s], p) <==> Covered(plan, s, p)
    {
      CoveredMeans(plan, s, p);
    }
    MaskFromRows(plan, rows);
    return Some(Mask(rows, |plan.rays|, plan.pixels));
  }

  lemma MaskFromRows(plan: Plan, rows: seq<seq<bv8>>)
    requires Shape(rows, |plan.rays|, RowBytes(plan.pixels))
    requires forall s: nat, p: nat :: s < |plan.rays| && p < plan.pixels ==>
               (RowBit(rows[s], p) <==> Covered(plan, s, p))
    ensures IsMaskOf(Mask(rows, |plan.rays|, plan.pixels), plan)
  {
    hide TestBit, Covered;
    var m := Mask(rows, |plan.rays|, plan.pixels);
    forall s: nat, p: nat
      ensures IsExcluded(m, s, p) <==> s < |plan.rays| && p < plan.pixels && Covered(plan, s, p)
    {
      if s < |plan.rays| && p < plan.pixels {
        assert RowBit(rows[s], p) <==> Covered(plan, s, p);
      }
    }
  }

  /** Constant-time lookup; a spoke or pixel outside the mask is not excluded. */
  predicate IsExcluded(m: Mask, s: nat, p: nat)
    requires Shape(m.rows, m.spokes, RowBytes(m.pixels))
  {
    if s >= m.spokes || p >= m.pixels then false else TestBit(m.rows[s][p / 8], p % 8)
  }

  /** The mask excludes exactly the pixels that some zone covers. */
  ghost predicate IsMaskOf(m: Mask, plan: Plan) {
    && m.spokes == |plan.rays| && m.pixels == plan.pixels && Shape(m.rows, m.spokes, RowBytes(m.pixels))
    && forall s: nat, p: nat :: IsExcluded(m, s, p) <==> s < |plan.rays| && p < plan.pixels && Covered(plan, s, p)
  }

  function EmptyRow(bytes: nat): seq<bv8> {
    seq(bytes, i => 0 as bv8)
  }

  lemma NoBits(bytes: nat)
    ensures forall p: nat :: !RowBit(EmptyRow(bytes), p)
  {
    forall p: nat ensures !RowBit(EmptyRow(bytes), p) {
      ZeroBits(p % 8);
    }
  }

  lemma CoveredMeans(plan: Plan, s: nat, p: nat)
    requires s < |plan.rays| && p < plan.pixels
    ensures Covered(plan, s, p) <==>
            exists k: nat :: k < |plan.sectors| + |plan.rects| && InSpan(Spans(plan, k)[s], p)
  {
    hide RectSpan;
    var n := |plan.sectors|;
    if z :| z in plan.sectors && z.Has(s, p) {
      var k: nat :| k < n && plan.sectors[k] == z;
      assert InSpan(Spans(plan, k)[s], p);
    }
    if r :| r in plan.rects && InSpan(RectSpan(r, plan.rays[s], plan.range, plan.pixels), p) {
      var k: nat :| k < |plan.rects| && plan.rects[k] == r;
      assert InSpan(Spans(plan, n + k)[s], p);
    }
    if k: nat :| k < n + |plan.rects| && InSpan(Spans(plan, k)[s], p) {
      if k < n {
        assert plan.sectors[k].Has(s, p);
      } else {
        assert plan.rects[k - n] in plan.rects;
      }
    }
  }

  /** Where the writes go wrong: the clamp to `pixels`, or a rectangle on spokes of no pixels. */
  lemma OverrunsMeans(plan: Plan)
    ensures Overruns(plan) <==>
            exists k: nat, s: nat :: k < |plan.sectors| + |plan.rects| && s < |plan.rays| &&
              Overrun(Spans(plan, k)[s], RowBytes(plan.pixels))
  {
    hide RectSpan, Spans, RowBytes, Overrun;
    var n := |plan.sectors|;
    if Overruns(plan) {
      if z, s: nat :|
        z in plan.sectors && s < |plan.rays| && z.HasSpoke(s) && z.endPixel >= plan.pixels && plan.pixels % 8 == 0 {
        var k: nat :| k < n && plan.sectors[k] == z;
        OverrunAt(plan, k, s);
      } else {
        var r, s: nat :| r in plan.rects && s < |plan.rays| && RectSpan(r, plan.rays[s], plan.range, plan.pixels).Some?;
        var k: nat :| k < |plan.rects| && plan.rects[k] == r;
        OverrunAt(plan, n + k, s);
      }
    }
    if k: nat, s: nat :| k < n + |plan.rects| && s < |plan.rays| && Overrun(Spans(plan, k)[s], RowBytes(plan.pixels)) {
      OverrunAt(plan, k, s);
    }
  }

  lemma OverrunAt(plan: Plan, k: nat, s: nat)
    requires k < |plan.sectors| + |plan.rects| && s < |plan.rays|
    ensures Overrun(Spans(plan, k)[s], RowBytes(plan.pixels)) <==>
            if k < |plan.sectors|
            then plan.pixels % 8 == 0 && plan.sectors[k].HasSpoke(s) && plan.sectors[k].endPixel >= plan.pixels
            else
              plan.pixels == 0 && RectSpan(plan.rects[k - |plan.sectors|], plan.rays[s], plan.range, plan.pixels).Some?
    ensures k < |plan.sectors| ==> plan.sectors[k] in plan.sectors
    ensures k >= |plan.sectors| ==> plan.rects[k - |plan.sectors|] in plan.rects
  {
    hide RectSpan, RowBytes, Overrun, SectorSpan;
    if k < |plan.sectors| {
      SectorOverrun(plan.sectors[k], s, plan.pixels);
    } else {
      RectOverrun(plan.rects[k - |plan.sectors|], plan.rays[s], plan.range, plan.pixels);
    }
  }

  lemma SectorOverrun(z: Sector, s: nat, pixels: nat)
    ensures Overrun(SectorSpan(z, s, pixels), RowBytes(pixels)) <==>
            pixels % 8 == 0 && z.HasSpoke(s) && z.endPixel >= pixels
  {
    var last := Min(z.endPixel, pixels);
    if last < pixels {
      assert last / 8 < RowBytes(pixels);
    }
  }

  lemma RectOverrun(r: ZoneRect, ray: Vec, range: nat, pixels: nat)
    ensures Overrun(RectSpan(r, ray, range, pixels), RowBytes(pixels)) <==>
            pixels == 0 && RectSpan(r, ray, range, pixels).Some?
  {
    hide HitList, Stretch, InsidePolygon, Sort, Rect.Degenerate;
  }

  // ----- What a rectangle excludes, on the plane

  /** The rectangle excludes the point at distance u: it lies in it and, with corner entry, is that corner. */
  ghost predicate Excludes(r: Rect, ray: Vec, u: real)
    requires r.edgeLen > 0.0
  {
    && u > 0.0 && InRect(r, Scale(u, ray))
    && (EntersThroughCorner(r, ray) ==> exists i: nat :: EntersThrough(r, ray, i, u))
  }

  /** The spoke goes on inside the rectangle. */
  ghost predicate GoesOnInside(r: Rect, ray: Vec)
    requires r.edgeLen > 0.0
  {
    exists u :: u > 0.0 && InRect(r, Scale(u, ray))
  }

  /** An excluded point falls on pixel p. At range 0 all points but the origin fall beyond the last pixel. */
  ghost predicate ShowsAt(r: Rect, ray: Vec, range: nat, pixels: nat, p: nat)
    requires r.edgeLen > 0.0
  {
    if range == 0 then InRect(r, ORIGIN) && GoesOnInside(r, ray)
    else exists u :: Excludes(r, ray, u) && PixelOf(u, range, pixels) == p
  }

  lemma PixelsOrder(x: real, y: real, range: nat, pixels: nat)
    requires range > 0 && pixels > 0
    ensures x <= y <==> Pixels(x, range, pixels) <= Pixels(y, range, pixels)
  {
    TimesOrder(x, y, pixels as real);
    OverOrder(x * pixels as real, y * pixels as real, range as real);
  }

  lemma TimesOrder(x: real, y: real, k: real)
    requires k > 0.0
    ensures x <= y <==> x * k <= y * k
  {
    if x <= y { assert (y - x) * k >= 0.0; } else { assert (x - y) * k > 0.0; }
  }

  lemma OverOrder(x: real, y: real, k: real)
    requires k > 0.0
    ensures x <= y <==> x / k <= y / k
  {
    TimesOrder(x / k, y / k, k);
  }

  lemma PixelsInverse(z: real, range: nat, pixels: nat) returns (u: real)
    requires range > 0 && pixels > 0
    ensures Pixels(u, range, pixels) == z
  {
    u := z * range as real / pixels as real;
    assert u * pixels as real == z * range as real;
  }

  lemma PixelOfFloors(u: real, range: nat, pixels: nat)
    requires range > 0 && pixels > 0 && u >= 0.0
    ensures Pixels(u, range, pixels) >= 0.0 && PixelOf(u, range, pixels) == Pixels(u, range, pixels).Floor
  {
    PixelsOrder(0.0, u, range, pixels);
  }

  /** The pixels from the first to the last of a stretch are those that some point of it falls on. */
  lemma StretchPixels(lo: real, hi: real, range: nat, pixels: nat, p: nat)
    requires range > 0 && pixels > 0 && 0.0 <= lo <= hi && hi > 0.0
    ensures PixelOf(lo, range, pixels) <= p <= PixelOf(hi, range, pixels) <==>
            exists u :: u > 0.0 && lo <= u <= hi && PixelOf(u, range, pixels) == p
  {
    hide Pixels, PixelOf;
    PixelOfFloors(lo, range, pixels);
    PixelOfFloors(hi, range, pixels);
    if u :| u > 0.0 && lo <= u <= hi && PixelOf(u, range, pixels) == p {
      PixelOfFloors(u, range, pixels);
      PixelsOrder(lo, u, range, pixels);
      PixelsOrder(u, hi, range, pixels);
    }
    if PixelOf(lo, range, pixels) <= p <= PixelOf(hi, range, pixels) {
      var u := PointOnPixel(lo, hi, range, pixels, p);
    }
  }

  lemma PointOnPixel(lo: real, hi: real, range: nat, pixels: nat, p: nat) returns (u: real)
    requires range > 0 && pixels > 0 && 0.0 <= lo <= hi && hi > 0.0
    requires PixelOf(lo, range, pixels) <= p <= PixelOf(hi, range, pixels)
    ensures u > 0.0 && lo <= u <= hi && PixelOf(u, range, pixels) == p
  {
    hide Pixels, PixelOf;
    PixelOfFloors(lo, range, pixels);
    PixelOfFloors(hi, range, pixels);
    if p == PixelOf(hi, range, pixels) {
      u := hi;
    } else if p == PixelOf(lo, range, pixels) && lo > 0.0 {
      u := lo;
    } else {
      u := PixelsInverse(p as real + 0.5, range, pixels);
      PixelsOrder(0.0, lo, range, pixels);
      PixelsOrder(u, lo, range, pixels);
      PixelsOrder(u, hi, range, pixels);
      PixelsOfZero(range, pixels);
      PixelsOrder(u, 0.0, range, pixels);
      PixelOfFloors(u, range, pixels);
    }
  }

  lemma PixelsOfZero(range: nat, pixels: nat)
    requires range > 0
    ensures Pixels(0.0, range, pixels) == 0.0
  {
  }

  /** A rectangle excludes a pixel of a spoke exactly when an excluded point of the spoke falls on it. */
  lemma RectSpanIsExact(r: ZoneRect, ray: Vec, range: nat, pixels: nat, p: nat)
    requires p < pixels <= USIZE_MAX && ray != ORIGIN && !r.Degenerate() && Decided(r, ray)
    ensures InSpan(RectSpan(r, ray, range, pixels), p) <==> ShowsAt(r, ray, range, pixels, p)
  {
    hide HitList, Sort, InsidePolygon, Stretch, PixelOf, InRect, Scale, EntersThrough, Decided, Rect.Corners, InStretch;
    var stretch := Stretch(InsidePolygon(ORIGIN, r.Corners()), Sort(HitList(r.Corners(), ray, 4)));
    ClipIsExact(r, ray);
    StretchIsAhead(r.Corners(), ray, InsidePolygon(ORIGIN, r.Corners()));
    if range == 0 {
      SpanAtRangeZero(r, ray, pixels, p);
    } else {
      forall u ensures InStretch(stretch, u) && u > 0.0 <==> Excludes(r, ray, u) {
        StretchExcludes(r, ray, u);
      }
      if stretch.Some? {
        StretchPixels(stretch.value.0, stretch.value.1, range, pixels, p);
      }
      InStretchMeans(stretch);
    }
  }

  lemma InStretchMeans(stretch: Option<(real, real)>)
    ensures forall u :: InStretch(stretch, u) <==> stretch.Some? && stretch.value.0 <= u <= stretch.value.1
  {
  }

  /** The points of the stretch are the excluded points. */
  lemma StretchExcludes(r: ZoneRect, ray: Vec, u: real)
    requires ray != ORIGIN && !r.Degenerate() && Decided(r, ray)
    ensures var stretch := Stretch(InsidePolygon(ORIGIN, r.Corners()), Sort(HitList(r.Corners(), ray, 4)));
            InStretch(stretch, u) && u > 0.0 <==> Excludes(r, ray, u)
  {
    hide HitList, Sort, InsidePolygon, Stretch, InRect, Scale, EntersThrough, Decided, Rect.Corners;
    ClipIsExact(r, ray);
    if EntersThroughCorner(r, ray) {
      var i: nat, t: real :| EntersThrough(r, ray, i, t);
      CornerStretch(r, ray, i, t);
      if j: nat :| EntersThrough(r, ray, j, u) {
        CornerStretch(r, ray, j, u);
        CornerIsAhead(r, ray, j, u);
      }
    }
  }

  lemma CornerIsAhead(r: Rect, ray: Vec, i: nat, t: real)
    requires r.edgeLen > 0.0 && EntersThrough(r, ray, i, t)
    ensures t > 0.0
  {
  }

  /** At range 0 a rectangle excludes the whole spoke or nothing of it. */
  lemma SpanAtRangeZero(r: ZoneRect, ray: Vec, pixels: nat, p: nat)
    requires p < pixels <= USIZE_MAX && ray != ORIGIN && !r.Degenerate() && Decided(r, ray)
    ensures InSpan(RectSpan(r, ray, 0, pixels), p) <==> InRect(r, ORIGIN) && GoesOnInside(r, ray)
  {
    hide HitList, Sort, InsidePolygon, InRect, Scale, Decided, Rect.Corners, EntersThroughCorner;
    var inside, ts := InsidePolygon(ORIGIN, r.Corners()), Sort(HitList(r.Corners(), ray, 4));
    ClipIsExact(r, ray);
    StretchIsAhead(r.Corners(), ray, inside);
    if inside {
      InsideIsNoEntry(r, ray);
      if ts != [] {
        assert InStretch(Stretch(inside, ts), ts[0]);
      }
    } else if |ts| >= 2 {
      HitsAhead(r.Corners(), ray);
      assert ts[0] in ts;
    }
  }

  /** A rectangle has a span on a spoke exactly when the spoke has a point in it. */
  lemma SpanExists(r: ZoneRect, ray: Vec, range: nat, pixels: nat)
    requires ray != ORIGIN && !r.Degenerate() && Decided(r, ray)
    ensures RectSpan(r, ray, range, pixels).Some? <==> GoesOnInside(r, ray)
  {
    hide HitList, Sort, InsidePolygon, Stretch, PixelOf, InRect, Scale, EntersThrough, Decided, Rect.Corners;
    var stretch := Stretch(InsidePolygon(ORIGIN, r.Corners()), Sort(HitList(r.Corners(), ray, 4)));
    ClipIsExact(r, ray);
    StretchIsAhead(r.Corners(), ray, InsidePolygon(ORIGIN, r.Corners()));
    if stretch.Some? {
      assert InStretch(stretch, stretch.value.1);
    }
    if EntersThroughCorner(r, ray) {
      var i: nat, t: real :| EntersThrough(r, ray, i, t);
      CornerStretch(r, ray, i, t);
    }
  }

  lemma HitsAhead(corners: seq<Vec>, ray: Vec)
    requires |corners| == 4
    ensures forall t :: t in Sort(HitList(corners, ray, 4)) ==> t > 0.0
  {
    hide EdgeHit, HitList;
    forall t | t in Sort(HitList(corners, ray, 4)) ensures t > 0.0 {
      HitListMeans(corners, ray, 4, t);
      var i: nat :| i < 4 && HitOn(corners, i, ray) == Some(t);
      HitIsAhead(corners[i], corners[(i + 1) % 4], ray);
    }
  }

  /** From inside there is no entry. */
  lemma InsideIsNoEntry(r: ZoneRect, ray: Vec)
    requires ray != ORIGIN && !r.Degenerate() && Decided(r, ray) && InsidePolygon(ORIGIN, r.Corners())
    ensures !EntersThroughCorner(r, ray)
  {
    hide HitList, Sort, InsidePolygon, EntersThrough, Decided, Rect.Corners;
    if EntersThroughCorner(r, ray) {
      var i: nat, t: real :| EntersThrough(r, ray, i, t);
      CornerStretch(r, ray, i, t);
      CornerIsAhead(r, ray, i, t);
    }
  }

  /** The mask against the plane: a bit is set exactly where a sector or a rectangle excludes. */
  lemma ExcludedMeans(m: Mask, plan: Plan, s: nat, p: nat)
    requires IsMaskOf(m, plan) && s < |plan.rays| && p < plan.pixels <= USIZE_MAX && plan.rays[s] != ORIGIN
    requires forall r <- plan.rects :: r.Degenerate() || Decided(r, plan.rays[s])
    ensures IsExcluded(m, s, p) <==>
            || (exists z :: z in plan.sectors && z.Has(s, p))
            || (exists r :: r in plan.rects && r.edgeLen >= 0.000001 && r.width >= 0.000001 &&
                            ShowsAt(r, plan.rays[s], plan.range, plan.pixels, p))
  {
    hide RectSpan, ShowsAt, IsExcluded, Decided, EntersThroughCorner;
    var ray := plan.rays[s];
    forall r: ZoneRect | r in plan.rects
      ensures InSpan(RectSpan(r, ray, plan.range, plan.pixels), p) <==>
              !r.Degenerate() && ShowsAt(r, ray, plan.range, plan.pixels, p)
    {
      if r.Degenerate() {
        DegenerateSpan(r, ray, plan.range, plan.pixels);
      } else {
        RectSpanIsExact(r, ray, plan.range, plan.pixels, p);
      }
    }
    assert IsExcluded(m, s, p) <==> Covered(plan, s, p);
  }

  lemma DegenerateSpan(r: ZoneRect, ray: Vec, range: nat, pixels: nat)
    requires r.Degenerate()
    ensures RectSpan(r, ray, range, pixels).None?
  {
  }
}
