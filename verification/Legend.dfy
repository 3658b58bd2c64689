/**
 The legend: which pixel values mean what.

 Pixel values are bytes. The bands are laid out one after the other, and the
 number of plain intensities is cut so that everything fits.
 */
module Legend {
  import opened Floors
  import opened Options

  datatype TargetMode = Arpa | Trails | NoTargets

  datatype PixelType = Normal | History | DopplerApproaching | DopplerReceding | DopplerRain

  const BLOB_HISTORY_COLORS: nat := 32
  const U8_MAX: nat := 255

  datatype Legend = Legend(
    pixels: seq<PixelType>,
    pixelColors: nat,
    historyStart: nat,
    dopplerApproaching: Option<(nat, nat)>,
    dopplerReceding: Option<(nat, nat)>,
    dopplerRain: Option<(nat, nat)>,
    strongReturn: nat,
    mediumReturn: nat,
    lowReturn: nat,
    staticBackground: Option<nat>)

  // ----- The sizes of the bands

  function RainLevels(dopplerLevels: nat, hasRain: bool): nat {
    if hasRain && dopplerLevels > 0 then dopplerLevels else 0
  }

  function DopplerTotal(dopplerLevels: nat, hasRain: bool): nat {
    dopplerLevels * 2 + RainLevels(dopplerLevels, hasRain)
  }

  function HistoryColors(targets: TargetMode): nat {
    if targets != NoTargets then BLOB_HISTORY_COLORS else 0
  }

  function ArpaColors(targets: TargetMode): nat {
    if targets == Arpa then 1 else 0
  }

  /** Byte values left for plain intensities; negative when the byte arithmetic underflows. */
  function Budget(targets: TargetMode, dopplerLevels: nat, hasRain: bool): int {
    U8_MAX - HistoryColors(targets) - 1 - ArpaColors(targets) - DopplerTotal(dopplerLevels, hasRain)
  }

  /** The number of plain intensities after the cut. */
  function Intensities(targets: TargetMode, dopplerLevels: nat, hasRain: bool, pixelValues: nat): int {
    var budget := Budget(targets, dopplerLevels, hasRain);
    if pixelValues <= budget then pixelValues else budget
  }

  // ----- Bytes that panic on overflow

  function CheckedAdd(a: nat, b: nat): Option<nat> { if a + b <= U8_MAX then Some(a + b) else None }
  function CheckedSub(a: nat, b: nat): Option<nat> { if b <= a then Some(a - b) else None }
  function CheckedMul(a: nat, b: nat): Option<nat> { if a * b <= U8_MAX then Some(a * b) else None }

  /** The budget in byte arithmetic, one operation at a time; None is the first that overflows. */
  method ByteBudget(targets: TargetMode, dopplerLevels: nat, hasRain: bool) returns (r: Option<nat>)
    requires dopplerLevels <= U8_MAX
    ensures r == if Budget(targets, dopplerLevels, hasRain) < 0 then None
                 else Some(Budget(targets, dopplerLevels, hasRain))
  {
    var rain := RainLevels(dopplerLevels, hasRain);
    r := CheckedMul(dopplerLevels, 2);
    if r.None? { return; }
    r := CheckedAdd(r.value, rain);
    if r.None? { return; }
    var dopplerTotal := r.value;
    r := CheckedSub(U8_MAX, HistoryColors(targets));
    if r.None? { return; }
    r := CheckedSub(r.value, 1);
    if r.None? { return; }
    r := CheckedSub(r.value, ArpaColors(targets));
    if r.None? { return; }
    r := CheckedSub(r.value, dopplerTotal);
  }

  /** The brightness of the i-th Doppler level. */
  function Brightness(i: nat, levels: nat): nat
    requires levels > 0
  {
    if levels == 1 then U8_MAX else 64 + i * 191 / (levels - 1)
  }

  /** It is a byte, and the product in front of it fits 16 bits; the last level is the brightest there is. */
  lemma BrightnessFits(i: nat, levels: nat)
    requires i < levels <= U8_MAX
    ensures i * 191 <= 0xffff && 64 <= Brightness(i, levels) <= U8_MAX
    ensures i + 1 == levels ==> Brightness(i, levels) == U8_MAX
    ensures i > 0 ==> Brightness(i - 1, levels) <= Brightness(i, levels)
  {
    if levels > 1 {
      var d := levels - 1;
      ShareOf(i * 191, d, 191);
      if i > 0 {
        FloorMonotone((i - 1) * 191, i * 191, d);
      }
    }
  }

  lemma ShareOf(x: nat, d: nat, m: nat)
    requires d > 0 && x <= m * d
    ensures 0 <= x / d <= m && (x == m * d ==> x / d == m)
  {
    FloorAtLeast(x, d, m);
    FloorAtLeast(x, d, m + 1);
    assert (m + 1) * d == m * d + d;
  }

  function Repeat(t: PixelType, n: nat): (s: seq<PixelType>)
    ensures |s| == n && forall i :: 0 <= i < n ==> s[i] == t
  {
    seq(n, i => t)
  }

  /** The source's loops: pushes the same type n times. */
  method Push(pixels: seq<PixelType>, t: PixelType, n: nat) returns (r: seq<PixelType>)
    ensures r == pixels + Repeat(t, n)
  {
    r := pixels;
    for i := 0 to n
      invariant r == pixels + Repeat(t, i)
    {
      r := r + [t];
    }
  }

  /** One Doppler band: an entry per level, from dim to the brightest byte. */
  method PushBand(pixels: seq<PixelType>, t: PixelType, levels: nat) returns (r: seq<PixelType>, shades: seq<nat>)
    requires levels <= U8_MAX
    ensures r == pixels + Repeat(t, levels)
    ensures |shades| == levels && forall i :: 0 <= i < levels ==> 64 <= shades[i] <= U8_MAX
    ensures forall i :: 0 < i < levels ==> shades[i - 1] <= shades[i]
    ensures levels > 0 ==> shades[levels - 1] == U8_MAX
  {
    hide Brightness;
    r, shades := pixels, [];
    for i := 0 to levels
      invariant r == pixels + Repeat(t, i)
      invariant |shades| == i && forall k :: 0 <= k < i ==> 64 <= shades[k] <= U8_MAX
      invariant forall k :: 0 <= k < i ==> shades[k] == Brightness(k, levels)
      invariant forall k :: 0 < k < i ==> shades[k - 1] <= shades[k]
    {
      BrightnessFits(i, levels);
      r, shades := r + [t], shades + [Brightness(i, levels)];
    }
    if levels > 0 {
      BrightnessFits(levels - 1, levels);
    }
  }

  /** The three Doppler bands. */
  method PushDoppler(legend: Legend, levels: nat, rain: nat) returns (r: Legend)
    requires levels <= U8_MAX && rain <= U8_MAX && (rain > 0 ==> levels > 0)
    ensures r.pixels == legend.pixels + Repeat(DopplerApproaching, levels) + Repeat(DopplerReceding, levels)
                        + Repeat(DopplerRain, rain)
    ensures r.(pixels := legend.pixels) ==
            var at := |legend.pixels|;
            legend.(dopplerApproaching := if levels > 0 then Some((at, levels)) else legend.dopplerApproaching,
                    dopplerReceding := if levels > 0 then Some((at + levels, levels)) else legend.dopplerReceding,
                    dopplerRain := if rain > 0 then Some((at + 2 * levels, rain)) else legend.dopplerRain)
  {
    r := legend;
    if levels > 0 {
      r := r.(dopplerApproaching := Some((|r.pixels|, levels)));
      var approaching, _ := PushBand(r.pixels, DopplerApproaching, levels);
      r := r.(pixels := approaching, dopplerReceding := Some((|approaching|, levels)));
      var receding, _ := PushBand(r.pixels, DopplerReceding, levels);
      r := r.(pixels := receding);
      if rain > 0 {
        r := r.(dopplerRain := Some((|receding|, rain)));
        var raining, _ := PushBand(r.pixels, DopplerRain, rain);
        r := r.(pixels := raining);
      }
    }
  }

  /** Medium and strong returns start at a third and two thirds of the intensities, low ones at a ninth. */
  predicate AreThirds(low: nat, medium: nat, strong: nat, values: int) {
    && medium * 3 + 1 <= values <= medium * 3 + 3 && strong == 2 * medium
    && low == if medium / 3 > 1 then medium / 3 else 1
  }

  /** The intensities and, with ARPA, the static background. */
  method PushIntensities(values: nat, targets: TargetMode) returns (r: Legend)
    requires values > 0
    ensures r.pixels == Repeat(Normal, values) + Repeat(History, ArpaColors(targets))
    ensures r.pixelColors == values && r.historyStart == 0
    ensures r.staticBackground == if targets == Arpa then Some(values) else None
    ensures r.dopplerApproaching.None? && r.dopplerReceding.None? && r.dopplerRain.None?
    ensures AreThirds(r.lowReturn, r.mediumReturn, r.strongReturn, values)
  {
    var oneThird := (values - 1) / 3;
    var pixels := Push([Normal], Normal, values - 1);
    assert pixels == Repeat(Normal, values);
    r := Legend(pixels, values, 0, None, None, None, oneThird * 2, oneThird,
                if oneThird / 3 > 1 then oneThird / 3 else 1, None);
    if targets == Arpa {
      r := r.(staticBackground := Some(|pixels|), pixels := pixels + [History]);
    }
  }

  /** The colours of target history. */
  method PushHistory(legend: Legend, targets: TargetMode) returns (r: Legend)
    ensures r.pixels == legend.pixels + Repeat(History, HistoryColors(targets))
    ensures r.(pixels := legend.pixels) ==
            legend.(historyStart := if targets != NoTargets then |legend.pixels| else legend.historyStart)
  {
    r := legend;
    if targets != NoTargets {
      var pixels := Push(legend.pixels, History, BLOB_HISTORY_COLORS);
      r := r.(historyStart := |legend.pixels|, pixels := pixels);
    }
  }

  lemma BudgetMeans(targets: TargetMode, dopplerLevels: nat, hasRain: bool)
    ensures Budget(targets, dopplerLevels, hasRain) < 0 <==>
            dopplerLevels * (if hasRain then 3 else 2) +
            (if targets == NoTargets then 0 else if targets == Arpa then 33 else 32) > 254
  {
  }

  /** Builds the legend; None stands for the overflow of the byte arithmetic. */
  method DefaultLegend(targets: TargetMode, dopplerLevels: nat, hasRain: bool, pixelValues: nat)
    returns (r: Option<Legend>)
    requires dopplerLevels <= U8_MAX && pixelValues <= U8_MAX
    ensures r.None? <==> Budget(targets, dopplerLevels, hasRain) < 0
    ensures r.None? <==> dopplerLevels * (if hasRain then 3 else 2) +
                         (if targets == NoTargets then 0 else if targets == Arpa then 33 else 32) > 254
    ensures r.Some? ==> Fits(r.value, targets, dopplerLevels, hasRain, pixelValues)
  {
    hide Fits, InBytes, Band, AreThirds;
    BudgetMeans(targets, dopplerLevels, hasRain);
    var rain := RainLevels(dopplerLevels, hasRain);
    var budget := ByteBudget(targets, dopplerLevels, hasRain);
    if budget.None? {
      return None;
    }
    var values := if pixelValues <= budget.value then pixelValues else budget.value;
    var legend := Legend([Normal], values, 0, None, None, None, 0, 0, 0, None);
    if values == 0 {
      EmptyFits(targets, dopplerLevels, hasRain, pixelValues);
      return Some(legend);
    }
    legend := PushIntensities(values, targets);
    legend := PushDoppler(legend, dopplerLevels, rain);
    legend := PushHistory(legend, targets);
    LayoutFits(legend, targets, dopplerLevels, hasRain, pixelValues);
    return Some(legend);
  }

  // ----- What a legend must look like

  /** A band of n entries of one type from `start` on, exactly where that type occurs when it is its own. */
  ghost predicate Band(legend: Legend, start: nat, n: nat, t: PixelType) {
    start + n <= |legend.pixels| && forall i :: start <= i < start + n ==> legend.pixels[i] == t
  }

  /** Every index and count in the legend is a byte. */
  ghost predicate InBytes(l: Legend) {
    && l.pixelColors <= U8_MAX && l.historyStart <= U8_MAX
    && l.lowReturn <= U8_MAX && l.mediumReturn <= U8_MAX && l.strongReturn <= U8_MAX
    && (l.staticBackground.Some? ==> l.staticBackground.value <= U8_MAX)
    && (l.dopplerApproaching.Some? ==> l.dopplerApproaching.value.0 + l.dopplerApproaching.value.1 <= U8_MAX)
    && (l.dopplerReceding.Some? ==> l.dopplerReceding.value.0 + l.dopplerReceding.value.1 <= U8_MAX)
    && (l.dopplerRain.Some? ==> l.dopplerRain.value.0 + l.dopplerRain.value.1 <= U8_MAX)
  }

  function BandOf(start: nat, n: nat): Option<(nat, nat)> {
    if n > 0 then Some((start, n)) else None
  }

  predicate InBand(band: Option<(nat, nat)>, i: nat) {
    band.Some? && band.value.0 <= i < band.value.0 + band.value.1
  }

  /** The bands follow one another without gap or overlap and fill the legend. */
  ghost predicate Fits(l: Legend, targets: TargetMode, levels: nat, hasRain: bool, pixelValues: nat)
    requires Budget(targets, levels, hasRain) >= 0
  {
    var arpa, rain, history := if targets == Arpa then 1 else 0, if hasRain then levels else 0,
                               if targets != NoTargets then 32 else 0;
    var spare := 254 - history - arpa - 2 * levels - rain;
    var v := if pixelValues <= spare then pixelValues else spare;
    l.pixelColors == v &&
    if v == 0 then
      && l.pixels == [Normal] && l.historyStart == 0 && l.strongReturn == l.mediumReturn == l.lowReturn == 0
      && l.staticBackground.None? && l.dopplerApproaching.None? && l.dopplerReceding.None? && l.dopplerRain.None?
    else
      var approaching := v + arpa;
      var receding := approaching + levels;
      var raining := receding + levels;
      var trails := raining + rain;
      && |l.pixels| == trails + history
      && Band(l, 0, v, Normal)
      && l.staticBackground == (if arpa > 0 then Some(v) else None) && Band(l, v, arpa, History)
      && l.dopplerApproaching == BandOf(approaching, levels) && Band(l, approaching, levels, DopplerApproaching)
      && l.dopplerReceding == BandOf(receding, levels) && Band(l, receding, levels, DopplerReceding)
      && l.dopplerRain == BandOf(raining, rain) && Band(l, raining, rain, DopplerRain)
      && l.historyStart == (if history > 0 then trails else 0) && Band(l, trails, history, History)
      && AreThirds(l.lowReturn, l.mediumReturn, l.strongReturn, v)
  }

  function Layout(v: nat, targets: TargetMode, levels: nat, rain: nat): seq<PixelType> {
    Repeat(Normal, v) + Repeat(History, ArpaColors(targets)) + Repeat(DopplerApproaching, levels)
    + Repeat(DopplerReceding, levels) + Repeat(DopplerRain, rain) + Repeat(History, HistoryColors(targets))
  }

  lemma EmptyFits(targets: TargetMode, levels: nat, hasRain: bool, pixelValues: nat)
    requires Budget(targets, levels, hasRain) >= 0 && Intensities(targets, levels, hasRain, pixelValues) == 0
    ensures Fits(Legend([Normal], 0, 0, None, None, None, 0, 0, 0, None), targets, levels, hasRain, pixelValues)
  {
  }

  lemma LayoutFits(l: Legend, targets: TargetMode, levels: nat, hasRain: bool, pixelValues: nat)
    requires Budget(targets, levels, hasRain) >= 0
    requires l.pixelColors == Intensities(targets, levels, hasRain, pixelValues) > 0
    requires var v, rain := l.pixelColors, RainLevels(levels, hasRain);
             var approaching := v + ArpaColors(targets);
             && l.pixels == Layout(v, targets, levels, rain)
             && l.staticBackground == (if targets == Arpa then Some(v) else None)
             && l.dopplerApproaching == BandOf(approaching, levels)
             && l.dopplerReceding == BandOf(approaching + levels, levels)
             && l.dopplerRain == BandOf(approaching + 2 * levels, rain)
             && l.historyStart == (if targets != NoTargets then approaching + 2 * levels + rain else 0)
             && AreThirds(l.lowReturn, l.mediumReturn, l.strongReturn, v)
    ensures Fits(l, targets, levels, hasRain, pixelValues)
  {
    hide Layout, Band;
    LayoutBands(l, l.pixelColors, targets, levels, RainLevels(levels, hasRain));
  }

  lemma LayoutBands(l: Legend, v: nat, targets: TargetMode, levels: nat, rain: nat)
    requires l.pixels == Layout(v, targets, levels, rain)
    ensures var arpa, history := ArpaColors(targets), HistoryColors(targets);
            && |l.pixels| == v + arpa + 2 * levels + rain + history
            && Band(l, 0, v, Normal) && Band(l, v, arpa, History)
            && Band(l, v + arpa, levels, DopplerApproaching)
            && Band(l, v + arpa + levels, levels, DopplerReceding)
            && Band(l, v + arpa + 2 * levels, rain, DopplerRain)
            && Band(l, v + arpa + 2 * levels + rain, history, History)
  {
    hide ArpaColors, HistoryColors;
  }

  /** A legend has at most 254 entries, so that every index in it is a byte. */
  lemma FitsInBytes(l: Legend, targets: TargetMode, levels: nat, hasRain: bool, pixelValues: nat)
    requires pixelValues <= U8_MAX && Budget(targets, levels, hasRain) >= 0
    requires Fits(l, targets, levels, hasRain, pixelValues)
    ensures |l.pixels| <= 254 && l.pixelColors <= 254
    ensures InBytes(l)
  {
  }

  /** A legend with a history band has all of it, beyond every other band and within a byte. */
  ghost predicate HistoryBand(l: Legend) {
    l.historyStart > 0 ==> l.historyStart <= 222 && Band(l, l.historyStart, BLOB_HISTORY_COLORS, History)
  }

  lemma FitsHasHistoryBand(l: Legend, targets: TargetMode, levels: nat, hasRain: bool, pixelValues: nat)
    requires pixelValues <= U8_MAX && Budget(targets, levels, hasRain) >= 0
    requires Fits(l, targets, levels, hasRain, pixelValues)
    ensures HistoryBand(l)
  {
  }

  /** Each pixel value has one meaning: an entry is Doppler exactly when it lies in that Doppler band. */
  lemma BandsAreExact(l: Legend, targets: TargetMode, levels: nat, hasRain: bool, pixelValues: nat, i: nat)
    requires Budget(targets, levels, hasRain) >= 0 && Fits(l, targets, levels, hasRain, pixelValues) && i < |l.pixels|
    ensures l.pixels[i] == DopplerApproaching <==> InBand(l.dopplerApproaching, i)
    ensures l.pixels[i] == DopplerReceding <==> InBand(l.dopplerReceding, i)
    ensures l.pixels[i] == DopplerRain <==> InBand(l.dopplerRain, i)
    ensures l.pixels[i] == History <==>
            (l.staticBackground == Some(i)) || (l.historyStart > 0 && l.historyStart <= i)
  {
    var v := l.pixelColors;
    if v > 0 {
      var approaching := v + ArpaColors(targets);
      assert i < v || v <= i < approaching || approaching <= i < approaching + levels
             || approaching + levels <= i < approaching + 2 * levels
             || approaching + 2 * levels <= i < approaching + DopplerTotal(levels, hasRain)
             || approaching + DopplerTotal(levels, hasRain) <= i;
    }
  }
}
