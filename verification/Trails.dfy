/**
 Relative target trails: the buffer of ages, as an object, and what its cells
 mean over every run of updates, clears and range changes.
 */
module Trails {
  import opened Options
  import opened Legend
  import opened Rows
  import opened TrailAge
  import opened TrailZoom

  /** What happens to the buffer. An update is one that was not skipped. */
  datatype Event =
    | Update(angle: nat, data: seq<nat>, minimal: nat)
    | Clear
    | Zoom(p: nat, q: nat)

  // ----- Steps on rows

  function EchoAt(data: seq<nat>, r: nat, minimal: nat, historyStart: nat): Echo {
    if r >= |data| then Beyond
    else if minimal <= data[r] < historyStart then Strong else Weak
  }

  function AgedRow(row: seq<nat>, data: seq<nat>, minimal: nat, historyStart: nat): (aged: seq<nat>)
    ensures |aged| == |row|
    ensures forall r :: 0 <= r < |row| ==> aged[r] == NextAge(row[r], EchoAt(data, r, minimal, historyStart))
  {
    seq(|row|, r requires 0 <= r < |row| => NextAge(row[r], EchoAt(data, r, minimal, historyStart)))
  }

  ghost predicate IsEvent(e: Event, n: nat, len: nat) {
    match e
    case Update(angle, data, minimal) => angle < n && |data| <= len
    case Clear => true
    case Zoom(p, q) => p > 0 && q > 0
  }

  ghost predicate AreEvents(events: seq<Event>, n: nat, len: nat) {
    forall e <- events :: IsEvent(e, n, len)
  }

  function Zeros(len: nat): (z: seq<nat>)
    ensures |z| == len && forall r :: 0 <= r < len ==> z[r] == 0
  {
    seq(len, r => 0)
  }

  ghost predicate IsGrid(rows: seq<seq<nat>>, n: nat, len: nat) {
    |rows| == n && forall a :: 0 <= a < n ==> |rows[a]| == len
  }

  ghost function Step(rows: seq<seq<nat>>, e: Event, n: nat, len: nat, historyStart: nat): (after: seq<seq<nat>>)
    requires IsGrid(rows, n, len) && IsEvent(e, n, len)
    ensures IsGrid(after, n, len)
  {
    match e
    case Update(angle, data, minimal) => rows[angle := AgedRow(rows[angle], data, minimal, historyStart)]
    case Clear => seq(n, a => Zeros(len))
    case Zoom(p, q) => ZoomedRows(rows, p, q)
  }

  ghost function After(events: seq<Event>, n: nat, len: nat, historyStart: nat): (rows: seq<seq<nat>>)
    requires AreEvents(events, n, len)
    ensures IsGrid(rows, n, len)
  {
    if events == [] then seq(n, a => Zeros(len))
    else Step(After(events[..|events| - 1], n, len, historyStart), events[|events| - 1], n, len, historyStart)
  }

  lemma AfterMore(events: seq<Event>, e: Event, n: nat, len: nat, historyStart: nat)
    requires AreEvents(events, n, len) && IsEvent(e, n, len)
    ensures AreEvents(events + [e], n, len)
    ensures After(events + [e], n, len, historyStart) ==
            Step(After(events, n, len, historyStart), e, n, len, historyStart)
  {
    assert (events + [e])[..|events + [e]| - 1] == events;
  }

  lemma ZeroRows(flat: seq<nat>, n: nat, len: nat)
    requires |flat| == n * len && forall i :: 0 <= i < |flat| ==> flat[i] == 0
    ensures AllRows(flat, n, len) == seq(n, a => Zeros(len))
  {
    forall a | 0 <= a < n ensures AllRows(flat, n, len)[a] == Zeros(len) {
      RowFits(a, n, len);
    }
  }

  // ----- What a cell shows

  /** The echoes that what is now shown in a cell has been through, oldest first. */
  ghost function Seen(events: seq<Event>, a: nat, r: nat, len: nat, historyStart: nat): seq<Echo>
    requires forall e <- events :: e.Zoom? ==> e.p > 0 && e.q > 0
    decreases |events|
  {
    if events == [] then []
    else
      var before := events[..|events| - 1];
      match events[|events| - 1]
      case Update(angle, data, minimal) =>
        if angle == a then Seen(before, a, r, len, historyStart) + [EchoAt(data, r, minimal, historyStart)]
        else Seen(before, a, r, len, historyStart)
      case Clear => []
      case Zoom(p, q) =>
        var j := Origin(r, p, q);
        if (r == 0 && a != 0) || j >= len || Image(j, p, q) >= len then [] else Seen(before, a, j, len, historyStart)
  }

  /** Over every run, each cell is the age of what it shows. */
  lemma {:induction false} CellsAreAges(events: seq<Event>, n: nat, len: nat, historyStart: nat, a: nat, r: nat)
    requires AreEvents(events, n, len) && a < n && r < len
    ensures After(events, n, len, historyStart)[a][r] == Age(Seen(events, a, r, len, historyStart))
    decreases |events|
  {
    hide Age, AgedRow, ZoomedRow, Origin, Image;
    AgeUnfolds();
    if events != [] {
      var before := events[..|events| - 1];
      assert IsEvent(events[|events| - 1], n, len);
      match events[|events| - 1]
      case Update(angle, data, minimal) =>
        CellsAreAges(before, n, len, historyStart, a, r);
      case Clear =>
      case Zoom(p, q) =>
        var j := Origin(r, p, q);
        if j < len {
          CellsAreAges(before, n, len, historyStart, a, j);
        }
    }
  }

  lemma AgeUnfolds()
    ensures Age([]) == 0
    ensures forall echoes: seq<Echo>, echo: Echo :: Age(echoes + [echo]) == NextAge(Age(echoes), echo)
  {
    forall echoes: seq<Echo>, echo: Echo ensures Age(echoes + [echo]) == NextAge(Age(echoes), echo) {
      assert (echoes + [echo])[..|echoes + [echo]| - 1] == echoes;
    }
  }

  /** An update of one angle leaves the trails of the others alone. */
  lemma OtherAnglesKept(events: seq<Event>, n: nat, len: nat, historyStart: nat,
                        angle: nat, data: seq<nat>, minimal: nat, a: nat)
    requires AreEvents(events, n, len) && angle < n && |data| <= len && a < n && a != angle
    ensures AreEvents(events + [Update(angle, data, minimal)], n, len)
    ensures After(events + [Update(angle, data, minimal)], n, len, historyStart)[a] ==
            After(events, n, len, historyStart)[a]
  {
    AfterMore(events, Update(angle, data, minimal), n, len, historyStart);
  }

  /** Without history colours nothing is ever aged. */
  lemma {:induction false} NoHistoryNoTrails(events: seq<Event>, n: nat, len: nat, a: nat, r: nat)
    requires AreEvents(events, n, len) && a < n && r < len
    ensures After(events, n, len, 0)[a][r] == 0
    decreases |events|
  {
    hide Origin, Image;
    if events != [] {
      var before := events[..|events| - 1];
      assert IsEvent(events[|events| - 1], n, len);
      match events[|events| - 1]
      case Update(angle, data, minimal) => NoHistoryNoTrails(before, n, len, a, r);
      case Clear =>
      case Zoom(p, q) =>
        var j := Origin(r, p, q);
        if j < len {
          NoHistoryNoTrails(before, n, len, a, j);
        }
    }
  }

  // ----- What is drawn

  function ShownPixel(pixel: nat, age: nat, maxAge: nat, motionTrue: bool, historyStart: nat): nat {
    if !motionTrue && pixel <= 1 && 0 < age < maxAge then historyStart + Shade(age, maxAge) - 1 else pixel
  }

  /**
   What becomes of a pixel, in terms of the settings. A trail shows only in
   relative motion, only where there is next to no return, and only while it is
   younger than the length of trails in rotations. Its shade is its part of that
   length in thirty-seconds, and the first shade where that is none.
   */
  ghost predicate IsDrawn(before: nat, age: nat, lengthMs: nat, rotationMs: nat, motionTrue: bool,
                          historyStart: nat, after: nat)
    requires rotationMs > 0
  {
    var most := lengthMs / rotationMs;
    if motionTrue || before > 1 || age == 0 || age >= most then after == before
    else if age * 32 < most then after == historyStart
    else after == historyStart - 1 + age * 32 / most
  }

  lemma ShownIsDrawn(before: nat, age: nat, lengthMs: nat, rotationMs: nat, motionTrue: bool, historyStart: nat)
    requires IsTrailLength(lengthMs) && IsRotation(rotationMs) && rotationMs > 0
    ensures IsDrawn(before, age, lengthMs, rotationMs, motionTrue, historyStart,
                    ShownPixel(before, age, MaxAge(lengthMs, rotationMs), motionTrue, historyStart))
  {
    MaxAgeBound(lengthMs, rotationMs);
    hide MaxAge, Shade;
    if 0 < age < MaxAge(lengthMs, rotationMs) {
      ShadeBound(age, MaxAge(lengthMs, rotationMs));
    }
  }

  /** What becomes of a cell: 1 at a strong return, one more while it shows a trail, 0 where no data reaches it. */
  ghost predicate IsAged(before: nat, data: seq<nat>, r: nat, minimal: nat, historyStart: nat, after: nat) {
    if r >= |data| then after == 0
    else if minimal <= data[r] < historyStart then after == 1
    else if before == 0 then after == 0
    else after == (before + 1) % 65536
  }

  /** One row has been aged, and the others are as they were. */
  ghost predicate RowIsAged(before: seq<seq<nat>>, angle: nat, data: seq<nat>, minimal: nat, historyStart: nat,
                            after: seq<seq<nat>>)
  {
    && angle < |before| == |after| && |after[angle]| == |before[angle]|
    && (forall a :: 0 <= a < |before| && a != angle ==> after[a] == before[a])
    && (forall r :: 0 <= r < |before[angle]| ==>
          IsAged(before[angle][r], data, r, minimal, historyStart, after[angle][r]))
  }

  lemma AgedRowIs(row: seq<nat>, data: seq<nat>, minimal: nat, historyStart: nat)
    ensures forall r :: 0 <= r < |row| ==>
              IsAged(row[r], data, r, minimal, historyStart, AgedRow(row, data, minimal, historyStart)[r])
  {
  }

  /** A byte among the first 31 history colours. */
  ghost predicate InHistory(legend: Legend, pixel: nat) {
    && 0 < legend.historyStart <= pixel <= legend.historyStart + 30
    && pixel <= U8_MAX && pixel < |legend.pixels| && legend.pixels[pixel] == History
  }

  /** A drawn pixel is a byte in the first 31 of the legend's history colours. */
  lemma DrawnInHistoryBand(legend: Legend, pixel: nat, age: nat, maxAge: nat, motionTrue: bool)
    requires HistoryBand(legend) && legend.historyStart > 0 && maxAge <= 1993
    ensures var shown := ShownPixel(pixel, age, maxAge, motionTrue, legend.historyStart);
            shown == pixel || InHistory(legend, shown)
  {
    if 0 < age < maxAge {
      ShadeBound(age, maxAge);
    }
  }

  /** The same, whatever the legend: without history colours there are no trails to draw. */
  lemma DrawnPixel(legend: Legend, events: seq<Event>, n: nat, len: nat, a: nat, r: nat,
                   pixel: nat, maxAge: nat, motionTrue: bool)
    requires HistoryBand(legend) && maxAge <= 1993 && AreEvents(events, n, len) && a < n && r < len
    ensures var age := After(events, n, len, legend.historyStart)[a][r];
            var shown := ShownPixel(pixel, age, maxAge, motionTrue, legend.historyStart);
            shown == pixel || InHistory(legend, shown)
  {
    if legend.historyStart == 0 {
      NoHistoryNoTrails(events, n, len, a, r);
    } else {
      DrawnInHistoryBand(legend, pixel, After(events, n, len, legend.historyStart)[a][r], maxAge, motionTrue);
    }
  }

  /** What was drawn is in the history colours of a legend, which may be another than the buffer's. */
  ghost predicate DrawnIn(legend: Legend, before: seq<nat>, after: seq<nat>)
    requires |before| == |after|
  {
    forall r :: 0 <= r < |after| ==> after[r] == before[r] || InHistory(legend, after[r])
  }

  lemma SameStartSameColours(buffer: Legend, current: Legend, before: seq<nat>, after: seq<nat>)
    requires |before| == |after| && DrawnIn(buffer, before, after)
    requires HistoryBand(current) && current.historyStart == buffer.historyStart
    ensures DrawnIn(current, before, after)
  {
  }

  /** Every age that can be drawn with a buffer's start is drawn in the history colours of the legend. */
  ghost predicate AllDrawnIn(l: Legend, historyStart: nat) {
    forall age: nat, maxAge: nat ::
      0 < age < maxAge <= 1993 ==> InHistory(l, ShownPixel(0, age, maxAge, false, historyStart))
  }

  /** Every age that can be drawn is drawn as some history entry, whatever its shade. */
  ghost predicate AllDrawnAsHistory(l: Legend, historyStart: nat) {
    forall age: nat, maxAge: nat :: 0 < age < maxAge <= 1993 ==>
      var shown := ShownPixel(0, age, maxAge, false, historyStart);
      shown < |l.pixels| && l.pixels[shown] == History
  }

  lemma FirstAndLastShade()
    ensures Shade(1, 100) == 1 && Shade(31, 32) == 31 && Shade(2, 32) == 2
  {
  }

  /**
   Trails are drawn in the right colours of the legend in use exactly when its
   history starts where the buffer's does.
   */
  lemma RightColours(l: Legend, historyStart: nat)
    requires HistoryBand(l) && historyStart > 0
    ensures AllDrawnIn(l, historyStart) <==> l.historyStart == historyStart
  {
    hide Shade, HistoryBand;
    FirstAndLastShade();
    if AllDrawnIn(l, historyStart) {
      assert InHistory(l, ShownPixel(0, 1, 100, false, historyStart));
      assert InHistory(l, ShownPixel(0, 31, 32, false, historyStart));
    }
    if l.historyStart == historyStart {
      forall age: nat, maxAge: nat | 0 < age < maxAge <= 1993
        ensures InHistory(l, ShownPixel(0, age, maxAge, false, historyStart))
      {
        DrawnInHistoryBand(l, 0, age, maxAge, false);
        assert ShownPixel(0, age, maxAge, false, historyStart) > 0;
      }
    }
  }

  /**
   In history entries at all, if in the wrong shade, exactly when the two starts
   are one apart at most, and only upwards or over the static background.
   */
  lemma HistoryColours(l: Legend, targets: TargetMode, levels: nat, hasRain: bool, pixelValues: nat, historyStart: nat)
    requires pixelValues <= U8_MAX && Budget(targets, levels, hasRain) >= 0
    requires Fits(l, targets, levels, hasRain, pixelValues) && historyStart > 0
    ensures AllDrawnAsHistory(l, historyStart) <==>
            && l.historyStart > 0
            && (|| historyStart == l.historyStart || historyStart == l.historyStart + 1
                || (historyStart + 1 == l.historyStart && l.staticBackground == Some(historyStart)))
  {
    hide Shade, Fits;
    FirstAndLastShade();
    HistoryFills(l, targets, levels, hasRain, pixelValues);
    forall i: nat | i < |l.pixels|
      ensures l.pixels[i] == History <==> l.staticBackground == Some(i) || (l.historyStart > 0 && l.historyStart <= i)
    {
      BandsAreExact(l, targets, levels, hasRain, pixelValues, i);
    }
    if AllDrawnAsHistory(l, historyStart) {
      assert ShownPixel(0, 1, 100, false, historyStart) == historyStart;
      assert ShownPixel(0, 2, 32, false, historyStart) == historyStart + 1;
      assert ShownPixel(0, 31, 32, false, historyStart) == historyStart + 30;
    }
    forall age: nat, maxAge: nat | 0 < age < maxAge <= 1993
      ensures historyStart <= ShownPixel(0, age, maxAge, false, historyStart) <= historyStart + 30
    {
      ShadeBound(age, maxAge);
    }
  }

  lemma HistoryFills(l: Legend, targets: TargetMode, levels: nat, hasRain: bool, pixelValues: nat)
    requires pixelValues <= U8_MAX && Budget(targets, levels, hasRain) >= 0
    requires Fits(l, targets, levels, hasRain, pixelValues)
    ensures l.historyStart > 0 ==> |l.pixels| == l.historyStart + 32
    ensures l.staticBackground.Some? ==> l.historyStart > 0 && l.staticBackground.value < l.historyStart
  {
  }

  lemma RowIs(flat: seq<nat>, a: nat, n: nat, len: nat)
    requires |flat| == n * len && a < n && a * len + len <= n * len
    ensures AllRows(flat, n, len)[a] == Row(flat, a, n, len) == flat[a * len..a * len + len]
  {
  }

  lemma ZoomedEmpty(row: seq<nat>, p: nat, q: nat)
    requires p > 0 && q > 0
    ensures |row| == 0 ==> ZoomedRow(row, true, p, q) == ZoomedRow(row, false, p, q)
  {
  }

  method CopyRow(trails: array<nat>, base: nat, row: array<nat>)
    requires base + row.Length <= trails.Length && row != trails
    modifies trails
    ensures forall i :: 0 <= i < trails.Length && !(base <= i < base + row.Length) ==> trails[i] == old(trails[i])
    ensures trails[base..base + row.Length] == row[..]
  {
    for k := 0 to row.Length
      invariant forall i :: 0 <= i < trails.Length ==>
                  trails[i] == if base <= i < base + k then row[i - base] else old(trails[i])
    {
      trails[base + k] := row[k];
    }
  }

  function MinimalLegendValue(legend: Legend, dopplerOnly: bool): nat {
    if dopplerOnly && legend.dopplerApproaching.Some? then legend.dopplerApproaching.value.0 else legend.strongReturn
  }

  method Fill(trails: array<nat>)
    modifies trails
    ensures forall i :: 0 <= i < trails.Length ==> trails[i] == 0
  {
    for i := 0 to trails.Length
      invariant forall k :: 0 <= k < i ==> trails[k] == 0
    {
      trails[i] := 0;
    }
  }

  /** What a new buffer starts with: without the control, every value counts as strong. */
  function InitialMinimal(legend: Legend, dopplerOnly: Option<bool>): nat {
    if dopplerOnly.None? then 0 else MinimalLegendValue(legend, dopplerOnly.value)
  }

  /** With Doppler trails only, exactly the Doppler classes of the legend leave trails. */
  lemma DopplerOnlyTrails(l: Legend, targets: TargetMode, levels: nat, hasRain: bool, pixelValues: nat, pixel: nat)
    requires Budget(targets, levels, hasRain) >= 0 && Fits(l, targets, levels, hasRain, pixelValues)
    requires l.dopplerApproaching.Some? && targets != NoTargets
    ensures EchoAt([pixel], 0, MinimalLegendValue(l, true), l.historyStart) == Strong <==>
            pixel < |l.pixels| && l.pixels[pixel] in {DopplerApproaching, DopplerReceding, DopplerRain}
  {
    if pixel < |l.pixels| {
      BandsAreExact(l, targets, levels, hasRain, pixelValues, pixel);
    }
  }

  /** An empty pixel counts as strong exactly without the control or with at most three intensities. */
  lemma EmptyPixelLeavesTrail(l: Legend, targets: TargetMode, levels: nat, hasRain: bool, pixelValues: nat,
                              dopplerOnly: Option<bool>)
    requires Budget(targets, levels, hasRain) >= 0 && Fits(l, targets, levels, hasRain, pixelValues)
    requires targets != NoTargets && l.pixelColors > 0
    ensures EchoAt([0], 0, InitialMinimal(l, dopplerOnly), l.historyStart) == Strong <==>
            dopplerOnly.None? || (l.pixelColors <= 3 && (dopplerOnly == Some(false) || levels == 0))
  {
  }

  /**
   The loops of one update, on the flat buffer: ages one row and draws it into
   the spoke. False stands for the panic on a spoke longer than the row.
   */
  method AgeSpoke(trails: array<nat>, base: nat, len: nat, data: array<nat>,
                  minimal: nat, historyStart: nat, maxAge: nat, motionTrue: bool) returns (ok: bool)
    requires base + len <= trails.Length && data != trails
    modifies trails, data
    ensures ok <==> data.Length <= len
    ensures forall i :: 0 <= i < trails.Length && !(base <= i < base + len) ==> trails[i] == old(trails[i])
    ensures ok ==>
              trails[base..base + len] == AgedRow(old(trails[base..base + len]), old(data[..]), minimal, historyStart)
    ensures ok ==> forall r :: 0 <= r < data.Length ==>
              data[r] == ShownPixel(old(data[r]), trails[base + r], maxAge, motionTrue, historyStart)
  {
    hide NextAge, ShownPixel, EchoAt;
    ghost var echoes := data[..];
    var radius := 0;
    while radius < data.Length
      invariant 0 <= radius <= data.Length && radius <= len
      invariant forall i :: 0 <= i < trails.Length ==>
                  trails[i] == if base <= i < base + radius
                               then NextAge(old(trails[i]), EchoAt(echoes, i - base, minimal, historyStart))
                               else old(trails[i])
      invariant forall r :: 0 <= r < data.Length ==>
                  data[r] == if r < radius
                             then ShownPixel(echoes[r], trails[base + r], maxAge, motionTrue, historyStart)
                             else echoes[r]
    {
      if radius >= len {
        return false;
      }
      var age, pixel := AgeCell(trails[base + radius], data[radius], minimal, historyStart, maxAge, motionTrue);
      EchoWithin(echoes, radius, minimal, historyStart);
      trails[base + radius] := age;
      data[radius] := pixel;
      radius := radius + 1;
    }
    ghost var reached := trails[..];
    while radius < len
      modifies trails
      invariant data.Length <= radius <= len
      invariant forall i :: 0 <= i < trails.Length ==>
                  trails[i] == if base + data.Length <= i < base + radius then 0 else reached[i]
    {
      trails[base + radius] := 0;
      radius := radius + 1;
    }
    forall r | data.Length <= r < len
      ensures NextAge(old(trails[base + r]), EchoAt(echoes, r, minimal, historyStart)) == 0
    {
      EchoBeyond(echoes, r, minimal, historyStart, old(trails[base + r]));
    }
    return true;
  }

  /** One turn of the first loop. */
  method AgeCell(age: nat, pixel: nat, minimal: nat, historyStart: nat, maxAge: nat, motionTrue: bool)
    returns (aged: nat, shown: nat)
    ensures aged == NextAge(age, if minimal <= pixel < historyStart then Strong else Weak)
    ensures shown == ShownPixel(pixel, aged, maxAge, motionTrue, historyStart)
    ensures aged == if minimal <= pixel < historyStart then 1 else if age == 0 then 0 else (age + 1) % 65536
    ensures shown == if motionTrue || pixel > 1 || aged == 0 || aged >= maxAge then pixel
                     else historyStart - 1 + Shade(aged, maxAge)
  {
    aged, shown := age, pixel;
    if pixel >= minimal && pixel < historyStart {
      aged := 1;
    } else if aged > 0 {
      aged := (aged + 1) % U16;
    }
    if !motionTrue && pixel <= 1 && aged > 0 && aged < maxAge {
      shown := historyStart + Shade(aged, maxAge) - 1;
    }
  }

  lemma EchoWithin(data: seq<nat>, r: nat, minimal: nat, historyStart: nat)
    requires r < |data|
    ensures EchoAt(data, r, minimal, historyStart) == if minimal <= data[r] < historyStart then Strong else Weak
  {
  }

  lemma EchoBeyond(data: seq<nat>, r: nat, minimal: nat, historyStart: nat, age: nat)
    requires r >= |data|
    ensures NextAge(age, EchoAt(data, r, minimal, historyStart)) == 0
  {
  }

  lemma SliceEnds(n: nat, len: nat, angle: nat)
    ensures (angle + 1) * len <= n * len <==> angle < n || len == 0
  {
    if angle < n {
      RowFits(angle, n, len);
      assert (angle + 1) * len == angle * len + len;
    } else if len > 0 {
      assert (angle + 1 - n) * len > 0;
      assert (angle + 1) * len == n * len + (angle + 1 - n) * len;
    }
  }

  /** One update, on rows. False stands for a panic: no slice at this angle, or a spoke longer than the row. */
  method AgeRow(trails: array<nat>, n: nat, len: nat, angle: nat, data: array<nat>,
                minimal: nat, historyStart: nat, maxAge: nat, motionTrue: bool) returns (ok: bool)
    requires trails.Length == n * len && data != trails
    modifies trails, data
    ensures ok <==> angle < 65535 && (angle < n || len == 0) && data.Length <= len
    ensures ok && angle >= n ==> trails[..] == old(trails[..]) && data[..] == old(data[..])
    ensures ok && angle < n ==>
              AllRows(trails[..], n, len) ==
              var rows := old(AllRows(trails[..], n, len));
              rows[angle := AgedRow(rows[angle], old(data[..]), minimal, historyStart)]
    ensures ok && angle < n ==> forall r :: 0 <= r < data.Length ==>
              var cell := AllRows(trails[..], n, len)[angle][r];
              data[r] == ShownPixel(old(data[r]), cell, maxAge, motionTrue, historyStart)
  {
    hide AllRows, AgedRow, ShownPixel;
    SliceEnds(n, len, angle);
    if angle + 1 >= U16 || (angle + 1) * len > trails.Length {
      return false;
    }
    ghost var flat := trails[..];
    if angle < n {
      RowFits(angle, n, len);
    }
    ok := AgeSpoke(trails, angle * len, len, data, minimal, historyStart, maxAge, motionTrue);
    if ok && angle < n {
      OtherRowsKept(flat, trails[..], angle, n, len);
      RowIs(flat, angle, n, len);
      RowIs(trails[..], angle, n, len);
    }
  }

  function ZoomedRows(rows: seq<seq<nat>>, p: nat, q: nat): seq<seq<nat>>
    requires p > 0 && q > 0
  {
    seq(|rows|, a requires 0 <= a < |rows| => ZoomedRow(rows[a], a == 0, p, q))
  }

  /** Rescales every row; the running index is set to zero only before the first. */
  method ZoomRows(trails: array<nat>, n: nat, len: nat, p: nat, q: nat)
    requires trails.Length == n * len && p > 0 && q > 0
    modifies trails
    ensures AllRows(trails[..], n, len) == ZoomedRows(old(AllRows(trails[..], n, len)), p, q)
  {
    hide AllRows, ZoomedRow;
    var newTrail := new nat[len](i => 0);
    var indexPrev := 0;
    ghost var rows := AllRows(trails[..], n, len);
    for spoke := 0 to n
      invariant forall k :: 0 <= k < len ==> newTrail[k] == 0
      invariant len > 0 ==> (indexPrev == 0 <==> spoke == 0)
      invariant forall a :: 0 <= a < n ==>
                  AllRows(trails[..], n, len)[a] == if a < spoke then ZoomedRow(rows[a], a == 0, p, q) else rows[a]
    {
      ghost var flat := trails[..];
      RowFits(spoke, n, len);
      var row := trails[spoke * len..spoke * len + len];
      RowIs(flat, spoke, n, len);
      indexPrev := ZoomSpoke(row, newTrail, indexPrev, p, q);
      ZoomedEmpty(row, p, q);
      CopyRow(trails, spoke * len, newTrail);
      OtherRowsKept(flat, trails[..], spoke, n, len);
      RowIs(trails[..], spoke, n, len);
      Fill(newTrail);
    }
  }

  class TrailBuffer {
    const n: nat
    const len: nat
    const legend: Legend
    const relativeTrails: array<nat>
    var motionTrue: bool
    var trailLengthMs: nat
    var rotationSpeedMs: nat
    var minimalLegendValue: nat
    var previousRange: nat
    ghost var history: seq<Event>

    ghost predicate Valid()
      reads this, relativeTrails
    {
      && relativeTrails.Length == n * len && HistoryBand(legend)
      && IsTrailLength(trailLengthMs) && IsRotation(rotationSpeedMs)
      && AreEvents(history, n, len)
      && Trails() == After(history, n, len, legend.historyStart)
    }

    ghost function Trails(): seq<seq<nat>>
      requires relativeTrails.Length == n * len
      reads relativeTrails
    {
      AllRows(relativeTrails[..], n, len)
    }

    constructor (spokes: nat, spokeLen: nat, colours: Legend, dopplerOnly: Option<bool>)
      requires HistoryBand(colours)
      ensures Valid() && fresh(relativeTrails) && history == []
      ensures n == spokes && len == spokeLen && legend == colours && !motionTrue
      ensures minimalLegendValue == InitialMinimal(colours, dopplerOnly) && trailLengthMs == 0 && previousRange == 0
    {
      n, len, legend := spokes, spokeLen, colours;
      motionTrue, trailLengthMs, rotationSpeedMs, previousRange := false, 0, 0, 0;
      minimalLegendValue := InitialMinimal(colours, dopplerOnly);
      relativeTrails := new nat[spokes * spokeLen](i => 0);
      history := [];
      new;
      ZeroRows(relativeTrails[..], n, len);
    }

    method SetRelativeTrailsLength(control: nat)
      requires Valid()
      modifies this`trailLengthMs
      ensures Valid()
      ensures control <= 6 ==> trailLengthMs == [0, 15_000, 30_000, 60_000, 180_000, 300_000, 600_000][control]
      ensures control > 6 ==> trailLengthMs == old(trailLengthMs)
    {
      trailLengthMs := TrailLength(control, trailLengthMs);
    }

    /** Called with the time since the previous full rotation. */
    method SetRotationSpeed(elapsed: nat)
      requires Valid()
      modifies this`rotationSpeedMs
      ensures Valid() && rotationSpeedMs == if 300 < elapsed < 10_000 then elapsed else 0
    {
      rotationSpeedMs := FullRotation(elapsed);
    }

    method SetDopplerTrailOnly(dopplerOnly: bool)
      requires Valid()
      modifies this`minimalLegendValue
      ensures Valid()
      ensures minimalLegendValue == if dopplerOnly && legend.dopplerApproaching.Some?
                                    then legend.dopplerApproaching.value.0 else legend.strongReturn
    {
      minimalLegendValue := MinimalLegendValue(legend, dopplerOnly);
    }

    method ClearTrails()
      requires Valid()
      modifies this`history, relativeTrails
      ensures Valid() && history == old(history) + [Clear]
    {
      hide After, AllRows, HistoryBand, AreEvents;
      Fill(relativeTrails);
      AfterMore(history, Clear, n, len, legend.historyStart);
      ZeroRows(relativeTrails[..], n, len);
      history := history + [Clear];
    }

    /** Trails are off, or no rotation has been timed. */
    predicate Idle()
      reads this
    {
      trailLengthMs == 0 || rotationSpeedMs == 0
    }

    /**
     Ages one spoke of trails and draws them into its data, unless trails are
     off or no rotation was timed. False stands for an index out of range.
     */
    method UpdateRelativeTrails(angle: nat, data: array<nat>) returns (ok: bool)
      requires Valid() && data != relativeTrails
      modifies this`history, relativeTrails, data
      ensures ok <==> || trailLengthMs == 0 || rotationSpeedMs == 0
                      || (angle < 65535 && (angle < n || len == 0) && data.Length <= len)
      ensures ok ==> Valid()
      ensures ok && (Idle() || angle >= n) ==>
                history == old(history) && Trails() == old(Trails()) && data[..] == old(data[..])
      ensures ok && !Idle() && angle < n ==>
                && history == old(history) + [Update(angle, old(data[..]), minimalLegendValue)]
                && RowIsAged(old(Trails()), angle, old(data[..]), minimalLegendValue, legend.historyStart, Trails())
                && forall r :: 0 <= r < data.Length ==>
                     IsDrawn(old(data[r]), Trails()[angle][r], trailLengthMs, rotationSpeedMs, motionTrue,
                             legend.historyStart, data[r])
      ensures ok ==> forall current: Legend ::
                HistoryBand(current) && current.historyStart == legend.historyStart ==>
                DrawnIn(current, old(data[..]), data[..])
    {
      if trailLengthMs == 0 || rotationSpeedMs == 0 {
        return true;
      }
      var maxAge := MaxAge(trailLengthMs, rotationSpeedMs);
      MaxAgeBound(trailLengthMs, rotationSpeedMs);
      ghost var e := Update(angle, data[..], minimalLegendValue);
      hide After, AllRows, HistoryBand, AreEvents, AgedRow, ShownPixel, MaxAge, InHistory, IsDrawn, IsAged;
      ghost var rows := Trails();
      ok := AgeRow(relativeTrails, n, len, angle, data, minimalLegendValue, legend.historyStart, maxAge, motionTrue);
      if !ok || angle >= n {
        return;
      }
      ghost var drawn := data[..];
      AfterMore(history, e, n, len, legend.historyStart);
      history := history + [e];
      forall r | 0 <= r < data.Length
        ensures data[r] == e.data[r] || InHistory(legend, data[r])
      {
        DrawnPixel(legend, history, n, len, angle, r, e.data[r], maxAge, motionTrue);
      }
      AgedRowIs(rows[angle], e.data, minimalLegendValue, legend.historyStart);
      forall r | 0 <= r < data.Length
        ensures IsDrawn(e.data[r], Trails()[angle][r], trailLengthMs, rotationSpeedMs, motionTrue,
                        legend.historyStart, data[r])
      {
        ShownIsDrawn(e.data[r], Trails()[angle][r], trailLengthMs, rotationSpeedMs, motionTrue, legend.historyStart);
      }
      forall current: Legend | HistoryBand(current) && current.historyStart == legend.historyStart
        ensures DrawnIn(current, e.data, drawn)
      {
        SameStartSameColours(legend, current, e.data, drawn);
      }
    }

    method ZoomRelativeTrails(p: nat, q: nat)
      requires Valid() && p > 0 && q > 0
      modifies this`history, relativeTrails
      ensures Valid() && history == old(history) + [Zoom(p, q)]
    {
      hide After, AllRows, HistoryBand, AreEvents, ZoomedRows;
      ZoomRows(relativeTrails, n, len, p, q);
      AfterMore(history, Zoom(p, q), n, len, legend.historyStart);
      history := history + [Zoom(p, q)];
    }

    /**
     One spoke without a bearing: rescale when the range has changed, then age
     and draw. The legend in use is handed over and ignored, and the angle is
     cut to 16 bits.
     */
    method UpdateTrails(rawAngle: nat, data: array<nat>, range: nat, current: Legend) returns (ok: bool)
      requires Valid() && data != relativeTrails
      modifies this`history, this`previousRange, relativeTrails, data
      ensures var angle := rawAngle % 65536;
              ok <==> || trailLengthMs == 0 || rotationSpeedMs == 0
                      || (angle < 65535 && (angle < n || len == 0) && data.Length <= len)
      ensures ok ==> Valid()
      ensures ok && HistoryBand(current) && current.historyStart == legend.historyStart ==>
                DrawnIn(current, old(data[..]), data[..])
      ensures previousRange == if range != 0 then range else old(previousRange)
      ensures ok && !Idle() && rawAngle % U16 < n ==> forall r :: 0 <= r < data.Length ==>
                IsDrawn(old(data[r]), Trails()[rawAngle % U16][r], trailLengthMs, rotationSpeedMs, motionTrue,
                        legend.historyStart, data[r])
      ensures ok ==>
                history == old(history)
                           + (if range != 0 && old(previousRange) != 0 && range != old(previousRange)
                              then [Zoom(old(previousRange), range)] else [])
                           + if Idle() || rawAngle % U16 >= n then []
                             else [Update(rawAngle % U16, old(data[..]), minimalLegendValue)]
    {
      if range != previousRange && range != 0 {
        if previousRange != 0 {
          ZoomRelativeTrails(previousRange, range);
        }
        previousRange := range;
      }
      ok := UpdateRelativeTrails(rawAngle % U16, data);
    }
  }
}
