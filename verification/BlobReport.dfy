/**
 Which finished blobs are reported: those of at least 25 pixels whose size in
 metres is that of a vessel. The size is the larger of the extent along the
 spokes and the extent across them.
 */
module BlobReport {
  import opened Options
  import opened BlobDetector
  import SpokeArc

  const MIN_TARGET_PIXELS: nat := 25
  const MIN_TARGET_SIZE: real := 5.0
  const MAX_TARGET_SIZE: real := 1000.0

  /** The range in metres, the pixels of a spoke, the spokes of a turn, and a full turn in radians. */
  datatype Scale = Scale(range: nat, pixels: nat, spokes: nat, turn: real)

  function SpokesOf(pixels: seq<BlobPixel>): (spokes: seq<nat>)
    ensures |spokes| == |pixels| && forall i :: 0 <= i < |pixels| ==> spokes[i] == pixels[i].cell.spoke
  {
    seq(|pixels|, i requires 0 <= i < |pixels| => pixels[i].cell.spoke)
  }

  /** What the code computes from the metres of a pixel: along the spokes, and across them. */
  function RadialExtent(first: nat, last: nat, metersPerPixel: real): real {
    (last as real - first as real + 1.0) * metersPerPixel
  }

  function AngularExtent(first: nat, last: nat, extent: nat, metersPerPixel: real, scale: Scale): real
    requires scale.spokes > 0
  {
    (first + last) as real / 2.0 * metersPerPixel * (extent as real * scale.turn / scale.spokes as real)
  }

  function SizeOf(first: nat, last: nat, extent: nat, scale: Scale): real
    requires scale.spokes > 0
  {
    if scale.range == 0 || scale.pixels == 0 then 0.0
    else
      var metersPerPixel := scale.range as real / scale.pixels as real;
      var radial := RadialExtent(first, last, metersPerPixel);
      var angular := AngularExtent(first, last, extent, metersPerPixel, scale);
      if radial >= angular then radial else angular
  }

  /** Metres from the inner edge of the first pixel to the outer edge of the last. */
  function Along(first: nat, last: nat, scale: Scale): real
    requires scale.pixels > 0
  {
    (last - first + 1) as real * scale.range as real / scale.pixels as real
  }

  /** The length in metres of an arc over so many spokes, half way between the first pixel and the last. */
  function Across(first: nat, last: nat, extent: nat, scale: Scale): real
    requires scale.pixels > 0 && scale.spokes > 0
  {
    var distance := (first + last) as real * scale.range as real / (2.0 * scale.pixels as real);
    distance * (extent as real * scale.turn) / scale.spokes as real
  }

  /** The larger of the two extents, and 0 without a scale. */
  ghost predicate IsLargerExtent(first: nat, last: nat, extent: nat, scale: Scale, size: real)
    requires scale.spokes > 0
  {
    if scale.range == 0 || scale.pixels == 0 then size == 0.0
    else
      var along, across := Along(first, last, scale), Across(first, last, extent, scale);
      size >= along && size >= across && (size == along || size == across)
  }

  /** Sizes are of cells: the innermost and outermost pixel, and the smallest arc over the spokes. */
  ghost predicate HasSize(cells: set<Cell>, scale: Scale, size: real)
    requires scale.spokes > 0
  {
    exists first: nat, last: nat, extent: nat ::
      && IsFirst(cells, first) && IsLast(cells, last) && IsExtent(cells, scale.spokes, extent)
      && IsLargerExtent(first, last, extent, scale, size)
  }

  lemma SizeIsLarger(first: nat, last: nat, extent: nat, scale: Scale)
    requires scale.spokes > 0
    ensures IsLargerExtent(first, last, extent, scale, SizeOf(first, last, extent, scale))
  {
    hide Along, Across, RadialExtent, AngularExtent;
    if scale.pixels > 0 {
      RadialIsAlong(first, last, scale);
      AngularIsAcross(first, last, extent, scale);
    }
  }

  lemma RadialIsAlong(first: nat, last: nat, scale: Scale)
    requires scale.pixels > 0
    ensures RadialExtent(first, last, scale.range as real / scale.pixels as real) == Along(first, last, scale)
  {
    MetersAlong((last - first + 1) as real, scale.range as real, scale.pixels as real);
  }

  lemma AngularIsAcross(first: nat, last: nat, extent: nat, scale: Scale)
    requires scale.pixels > 0 && scale.spokes > 0
    ensures AngularExtent(first, last, extent, scale.range as real / scale.pixels as real, scale) ==
            Across(first, last, extent, scale)
  {
    MetersAcross((first + last) as real, scale.range as real, scale.pixels as real,
                 extent as real * scale.turn, scale.spokes as real);
  }

  lemma MetersAlong(x: real, range: real, pixels: real)
    requires pixels > 0.0
    ensures x * (range / pixels) == x * range / pixels
  {
    assert x * (range / pixels) * pixels == x * range;
  }

  lemma MetersAcross(sum: real, range: real, pixels: real, turned: real, n: real)
    requires pixels > 0.0 && n > 0.0
    ensures sum / 2.0 * (range / pixels) * (turned / n) == sum * range / (2.0 * pixels) * turned / n
  {
    var distance := sum * range / (2.0 * pixels);
    assert sum / 2.0 * (range / pixels) == distance by {
      MetersAlong(sum / 2.0, range, pixels);
      assert distance * (2.0 * pixels) == sum * range;
      assert sum / 2.0 * range / pixels * (2.0 * pixels) == sum * range;
    }
    MetersAlong(distance, turned, n);
  }

  ghost predicate IsFirst(cells: set<Cell>, first: nat) {
    (exists c :: c in cells && c.pixel == first) && forall c :: c in cells ==> first <= c.pixel
  }

  ghost predicate IsLast(cells: set<Cell>, last: nat) {
    (exists c :: c in cells && c.pixel == last) && forall c :: c in cells ==> c.pixel <= last
  }

  ghost predicate Spans(cells: set<Cell>, n: nat, start: nat, extent: nat) {
    start < n && forall c :: c in cells ==> c.spoke < n && SpokeArc.Forward(n, start, c.spoke) < extent
  }

  ghost predicate IsExtent(cells: set<Cell>, n: nat, extent: nat) {
    (exists start: nat :: Spans(cells, n, start, extent)) &&
    forall start: nat, e: nat :: Spans(cells, n, start, e) ==> extent <= e
  }

  /** A set of cells has one size. */
  lemma SizeIsUnique(cells: set<Cell>, scale: Scale, a: real, b: real)
    requires scale.spokes > 0 && HasSize(cells, scale, a) && HasSize(cells, scale, b)
    ensures a == b
  {
    hide Spans, Along, Across;
    var f: nat, l: nat, e: nat :| IsFirst(cells, f) && IsLast(cells, l) && IsExtent(cells, scale.spokes, e)
      && IsLargerExtent(f, l, e, scale, a);
    var f': nat, l': nat, e': nat :| IsFirst(cells, f') && IsLast(cells, l') && IsExtent(cells, scale.spokes, e')
      && IsLargerExtent(f', l', e', scale, b);
    assert f == f' && l == l';
  }

  lemma SpansIsCovers(pixels: seq<BlobPixel>, n: nat, start: nat, extent: nat)
    requires start < n && forall p :: p in pixels ==> p.cell.spoke < n
    ensures Spans(CellsAt(pixels), n, start, extent) <==> SpokeArc.Covers(n, start, extent, SpokesOf(pixels))
  {
    forall i | 0 <= i < |pixels| ensures pixels[i].cell in CellsAt(pixels) {
      assert pixels[i] in pixels;
    }
    if SpokeArc.Covers(n, start, extent, SpokesOf(pixels)) {
      forall c | c in CellsAt(pixels) ensures c.spoke < n && SpokeArc.Forward(n, start, c.spoke) < extent {
        var p :| p in pixels && p.cell == c;
        var i :| 0 <= i < |pixels| && pixels[i] == p;
        assert SpokesOf(pixels)[i] == c.spoke;
      }
    }
  }

  /** The size of a blob, from its noted pixels and the smallest arc over its spokes. */
  method CalculateSize(b: Blob, scale: Scale, ghost doppler: DopplerRange) returns (size: real)
    requires scale.spokes > 0 && WellFormed(scale.spokes, doppler, b)
    ensures HasSize(CellsOf(b), scale, size)
  {
    hide SizeOf, IsLargerExtent;
    var spokes := SpokesOf(b.pixels);
    var arc := SpokeArc.FromBlob(spokes, scale.spokes);
    size := SizeOf(b.minPixel, b.maxPixel, arc.extent, scale);
    SizeIsLarger(b.minPixel, b.maxPixel, arc.extent, scale);
    BlobEnds(b, doppler);
    ArcIsExtent(b.pixels, scale.spokes, arc.extent);
  }

  lemma BlobEnds(b: Blob, doppler: DopplerRange)
    requires BlobOk(b, doppler)
    ensures IsFirst(CellsOf(b), b.minPixel) && IsLast(CellsOf(b), b.maxPixel)
  {
    var p :| p in b.pixels && p.cell.pixel == b.minPixel;
    assert p.cell in CellsOf(b);
    var q :| q in b.pixels && q.cell.pixel == b.maxPixel;
    assert q.cell in CellsOf(b);
  }

  lemma ArcIsExtent(pixels: seq<BlobPixel>, n: nat, extent: nat)
    requires forall p :: p in pixels ==> p.cell.spoke < n
    requires SpokeArc.SmallestExtent(n, SpokesOf(pixels), extent)
    ensures IsExtent(CellsAt(pixels), n, extent)
  {
    hide Spans, SpokeArc.Covers, CellsAt;
    var start: nat :| start < n && SpokeArc.Covers(n, start, extent, SpokesOf(pixels));
    SpansIsCovers(pixels, n, start, extent);
    forall s: nat, e: nat | Spans(CellsAt(pixels), n, s, e) ensures extent <= e {
      SpansWithin(CellsAt(pixels), n, s, e);
      SpansIsCovers(pixels, n, s, e);
    }
  }

  lemma SpansWithin(cells: set<Cell>, n: nat, start: nat, extent: nat)
    requires Spans(cells, n, start, extent)
    ensures start < n
  {
  }

  /** A finished blob that is reported: enough pixels, and the size of a vessel. */
  ghost predicate IsTarget(b: Blob, scale: Scale)
    requires scale.spokes > 0
  {
    && |b.pixels| >= 25
    && exists size :: HasSize(CellsOf(b), scale, size) && 5.0 <= size <= 1000.0
  }

  /** The blobs to report, in order. */
  ghost function Selected(blobs: seq<Blob>, scale: Scale): seq<Blob>
    requires scale.spokes > 0
  {
    if blobs == [] then []
    else
      var last := blobs[|blobs| - 1];
      Selected(blobs[..|blobs| - 1], scale) + if IsTarget(last, scale) then [last] else []
  }

  /** The filter on the blobs that a spoke has finished. */
  method ReportTargets(finished: seq<Blob>, scale: Scale, ghost doppler: DopplerRange) returns (reported: seq<Blob>)
    requires scale.spokes > 0 && forall b :: b in finished ==> WellFormed(scale.spokes, doppler, b)
    ensures reported == Selected(finished, scale)
  {
    hide HasSize;
    reported := [];
    for i := 0 to |finished|
      invariant reported == Selected(finished[..i], scale)
    {
      var b := finished[i];
      assert WellFormed(scale.spokes, doppler, b);
      var size := CalculateSize(b, scale, doppler);
      assert finished[..i + 1][..i] == finished[..i];
      forall other | HasSize(CellsOf(b), scale, other) ensures other == size {
        SizeIsUnique(CellsOf(b), scale, other, size);
      }
      if |b.pixels| >= MIN_TARGET_PIXELS && size >= MIN_TARGET_SIZE && size <= MAX_TARGET_SIZE {
        reported := reported + [b];
      }
    }
    assert finished[..|finished|] == finished;
  }

  /** The range and the spoke length are the last that were not zero. */
  function Latest(current: nat, next: nat): nat {
    if next != 0 then next else current
  }

  /** One spoke as a whole: a step of the ring, and of the blobs it finishes those that are vessels. */
  method ProcessSpoke(detector: Detector, current: Scale, range: nat, rawAngle: nat, data: seq<nat>)
    returns (reported: Option<seq<Blob>>, scale: Scale)
    requires detector.Valid() && current.spokes == detector.spokes
    modifies detector
    ensures detector.Valid()
    ensures scale == current.(range := if range != 0 then range else current.range,
                              pixels := if |data| != 0 then |data| else current.pixels)
    ensures reported.None? <==> detector.spokes == 0
    ensures reported.Some? ==>
              exists completed: seq<Blob> ::
                && reported.value == Selected(completed, scale)
                && var angle := OnTurn(rawAngle, detector.spokes);
                   RingStep(detector.spokes, old(Snapshot(detector.blobs)), angle,
                            StrongCells(angle, data, detector.threshold, detector.dopplerRange),
                            Snapshot(detector.blobs), Completed(completed))
  {
    hide RingStep, StateOk, Selected, StrongCells, WellFormed, NoneTwice, OnTurn;
    scale := current.(range := Latest(current.range, range), pixels := Latest(current.pixels, |data|));
    var completed := detector.ProcessSpoke(rawAngle, data);
    if completed.None? {
      return None, scale;
    }
    var targets := ReportTargets(completed.value, scale, detector.dopplerRange);
    reported := Some(targets);
  }
}
