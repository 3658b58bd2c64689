/**
 The legend of a radar changes while it runs; that of its trail buffer does not.

 A radar learns late whether it has Doppler, how many levels and how many pixel
 values, and rebuilds its legend each time. The trail buffer keeps the copy it
 was made with.
 */
module RadarLegend {
  import opened Options
  import opened Legend
  import opened TrailAge
  import opened Trails
  import Rows

  // ----- Where the history colours start

  function Least(a: int, b: int): int { if a <= b then a else b }

  /** The start of the history colours, from what the legend is built from. */
  function HistoryStart(targets: TargetMode, levels: nat, hasRain: bool, pixelValues: nat): int {
    if targets == NoTargets || pixelValues == 0 || Budget(targets, levels, hasRain) == 0 then 0
    else Least(pixelValues + ArpaColors(targets) + DopplerTotal(levels, hasRain), 222)
  }

  lemma FitsStart(l: Legend, targets: TargetMode, levels: nat, hasRain: bool, pixelValues: nat)
    requires Budget(targets, levels, hasRain) >= 0 && Fits(l, targets, levels, hasRain, pixelValues)
    ensures l.historyStart == HistoryStart(targets, levels, hasRain, pixelValues)
  {
  }

  /** The part of a radar's description that its legend is built from. */
  class RadarInfo {
    const targets: TargetMode
    var doppler: bool
    var dopplerLevels: nat
    var hasRain: bool
    var pixelValues: nat
    var legend: Legend

    ghost predicate Valid()
      reads this
    {
      && dopplerLevels <= U8_MAX && pixelValues <= U8_MAX && Budget(targets, dopplerLevels, hasRain) >= 0
      && Fits(legend, targets, dopplerLevels, hasRain, pixelValues)
    }

    /** At most one Doppler level always fits. */
    constructor (targets: TargetMode, doppler: bool, pixelValues: nat)
      requires pixelValues <= U8_MAX
      ensures Valid() && this.targets == targets && this.doppler == doppler && this.pixelValues == pixelValues
      ensures !hasRain && dopplerLevels == if doppler then 1 else 0
    {
      hide Fits;
      var levels := if doppler then 1 else 0;
      var built := DefaultLegend(targets, levels, false, pixelValues);
      this.targets, this.doppler, this.pixelValues, this.legend := targets, doppler, pixelValues, built.value;
      dopplerLevels, hasRain := levels, false;
    }

    /** Rebuilds the legend; false stands for the overflow of the byte arithmetic. */
    method Rebuild() returns (ok: bool)
      requires dopplerLevels <= U8_MAX && pixelValues <= U8_MAX
      modifies this`legend
      ensures ok <==> Budget(targets, dopplerLevels, hasRain) >= 0
      ensures ok ==> Valid()
      ensures !ok ==> legend == old(legend)
    {
      hide Fits;
      var built := DefaultLegend(targets, dopplerLevels, hasRain, pixelValues);
      if built.None? {
        return false;
      }
      legend := built.value;
      return true;
    }

    method SetDoppler(on: bool) returns (ok: bool)
      requires Valid()
      modifies this`doppler, this`dopplerLevels, this`legend
      ensures doppler == on
      ensures dopplerLevels == if on == old(doppler) then old(dopplerLevels) else if on then 1 else 0
      ensures ok <==> Budget(targets, dopplerLevels, hasRain) >= 0
      ensures ok ==> Valid()
    {
      ok := true;
      if on != doppler {
        doppler, dopplerLevels := on, if on then 1 else 0;
        ok := Rebuild();
      }
    }

    method SetDopplerLevels(levels: nat) returns (ok: bool)
      requires Valid() && levels <= U8_MAX
      modifies this`doppler, this`dopplerLevels, this`legend
      ensures dopplerLevels == levels && doppler == (levels > 0)
      ensures ok <==> Budget(targets, dopplerLevels, hasRain) >= 0
      ensures ok ==> Valid()
    {
      doppler, dopplerLevels := levels > 0, levels;
      ok := Rebuild();
    }

    method SetHasRainClass(rain: bool) returns (ok: bool)
      requires Valid()
      modifies this`hasRain, this`legend
      ensures hasRain == rain
      ensures ok <==> Budget(targets, dopplerLevels, hasRain) >= 0
      ensures ok ==> Valid()
    {
      ok := true;
      if rain != hasRain {
        hasRain := rain;
        ok := Rebuild();
      }
    }

    /** The budget does not depend on the pixel values, so that this never overflows. */
    method SetPixelValues(values: nat) returns (ok: bool)
      requires Valid() && values <= U8_MAX
      modifies this`pixelValues, this`legend
      ensures ok && Valid() && pixelValues == values
    {
      ok := true;
      if values != pixelValues {
        pixelValues := values;
        ok := Rebuild();
      }
    }

    /**
     Whatever a radar has been set to since, its trails are drawn in the right
     colours of its legend exactly when the history colours still start where
     they did when the trail buffer was made.
     */
    lemma TrailsMatchLegend(trails: TrailBuffer)
      requires Valid() && trails.Valid() && trails.legend.historyStart > 0
      ensures AllDrawnIn(legend, trails.legend.historyStart) <==>
              HistoryStart(targets, dopplerLevels, hasRain, pixelValues) == trails.legend.historyStart
    {
      hide Fits, AllDrawnIn;
      FitsHasHistoryBand(legend, targets, dopplerLevels, hasRain, pixelValues);
      FitsStart(legend, targets, dopplerLevels, hasRain, pixelValues);
      RightColours(legend, trails.legend.historyStart);
    }
  }

  // ----- A radar that learns late that it has Doppler

  /**
   Sixteen pixel values, no Doppler, trails. Then Doppler is found. A strong
   return followed by an empty one is drawn as pixel 16, which clients show as
   an approaching target.
   */
  method LateDoppler() returns (info: RadarInfo, trails: TrailBuffer, data: array<nat>)
    ensures info.Valid() && trails.Valid() && info.targets == TargetMode.Trails
    ensures trails.legend.historyStart == 16 && info.legend.historyStart == 18
    ensures data.Length == 1 && data[0] == 16
    ensures 16 < |info.legend.pixels| && info.legend.pixels[16] == DopplerApproaching
  {
    hide Fits, HistoryBand, After, Rows.AllRows;
    info := new RadarInfo(TargetMode.Trails, false, 16);
    ghost var first := info.legend;
    FitsHasHistoryBand(first, TargetMode.Trails, 0, false, 16);
    FitsStart(first, TargetMode.Trails, 0, false, 16);
    SixteenValues(first);
    trails := new TrailBuffer(1, 1, info.legend, Some(false));
    var ok := info.SetDoppler(true);
    FitsStart(info.legend, TargetMode.Trails, 1, false, 16);
    SixteenIsDoppler(info.legend);
    data := DrawTwice(trails, info.legend);
  }

  /** A strong return and an empty one on a buffer of a single cell. */
  method DrawTwice(trails: TrailBuffer, current: Legend) returns (data: array<nat>)
    requires trails.Valid() && trails.n == trails.len == 1 && trails.history == [] && !trails.motionTrue
    requires trails.legend.historyStart == 16 && trails.minimalLegendValue == 10 && trails.previousRange == 0
    modifies trails, trails.relativeTrails
    ensures trails.Valid() && fresh(data) && data.Length == 1 && data[0] == 16
  {
    hide Fits, HistoryBand, After, Rows.AllRows, DrawnIn, AreEvents, ShownPixel, MaxAge;
    trails.SetRelativeTrailsLength(6);
    trails.SetRotationSpeed(3000);
    data := new nat[1](i => 15);
    assert data[..] == [15];
    var ok := trails.UpdateTrails(0, data, 1000, current);
    assert trails.history == [Update(0, [15], 10)];
    data := new nat[1](i => 0);
    assert data[..] == [0];
    ok := trails.UpdateTrails(0, data, 1000, current);
    SecondAge(trails.history, 1, 1, 16);
  }

  lemma SixteenValues(l: Legend)
    requires Fits(l, TargetMode.Trails, 0, false, 16)
    ensures l.strongReturn == 10
  {
  }

  lemma SixteenIsDoppler(l: Legend)
    requires Fits(l, TargetMode.Trails, 1, false, 16)
    ensures 16 < |l.pixels| && l.pixels[16] == DopplerApproaching
  {
  }

  /** A strong return and then an empty one: the age is two, and the shade the first. */
  lemma SecondAge(events: seq<Event>, n: nat, len: nat, historyStart: nat)
    requires n > 0 && len > 0 && historyStart == 16
    requires events == [Update(0, [15], 10), Update(0, [0], 10)]
    ensures AreEvents(events, n, len) && After(events, n, len, historyStart)[0][0] == 2
    ensures MaxAge(600_000, 3000) == 200 && ShownPixel(0, 2, 200, false, 16) == 16
  {
    assert events[..1] == [Update(0, [15], 10)] && events[..1][..0] == [];
  }
}
