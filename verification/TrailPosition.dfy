/**
 True-motion trails: how the movement of the ship is turned into whole pixels.

 The image is not moved with the ship; its offset is, until the margin is used
 up and the image is moved back to the centre. Fractions of a pixel are saved
 and added to the next movement.
 */
module TrailPosition {
  import opened Options

  const MARGIN: int := 100
  const METERS_PER_DEGREE_LATITUDE: real := 111120.0

  datatype Geo = Geo(lat: real, lon: real)
  datatype Pixels = Pixels(lat: int, lon: int)

  /** What the trail position depends on, one value. */
  datatype State = State(position: Geo, difference: Geo, offset: Pixels, pixelsPerMeter: real)

  /** One call: either the range change of a spoke, or the position update of a spoke with a bearing. */
  datatype Action =
    | Scale(pixelsPerMeter: real)
    | Move(pixelsPerMeter: real, radar: Option<Geo>, metersPerDegreeLongitude: real)
    | MoveAtRangeZero

  // ----- Rounding

  function Truncate(x: real): int {
    if x >= 0.0 then x.Floor else -((-x).Floor)
  }

  /** A cast to 16 bits truncates towards zero and saturates. */
  function ToI16(x: real): (i: int)
    ensures -32768 <= i <= 32767
  {
    var t := Truncate(x);
    if t < -32768 then -32768 else if t > 32767 then 32767 else t
  }

  /** What the cast leaves over is a fraction of a pixel exactly when the value fits 16 bits. */
  lemma FractionIsSmall(x: real)
    ensures -1.0 < x - ToI16(x) as real < 1.0 <==> -32769.0 < x < 32768.0
  {
  }

  // ----- One update

  predicate InMargin(i: int) {
    -MARGIN < i < MARGIN
  }

  /** Moving the image to the centre; an offset outside the margin is left as it is. */
  function Centered(i: int): int {
    if InMargin(i) then 0 else i
  }

  function Center(o: Pixels): Pixels {
    Pixels(Centered(o.lat), Centered(o.lon))
  }

  /** Degrees in pixels. */
  function InPixels(degrees: real, metersPerDegree: real, pixelsPerMeter: real): real {
    degrees * metersPerDegree * pixelsPerMeter
  }

  /** Exact movement in pixels. */
  function Movement(start: Geo, end: Geo, pixelsPerMeter: real, metersPerDegreeLongitude: real): Geo {
    Geo(InPixels(end.lat - start.lat, METERS_PER_DEGREE_LATITUDE, pixelsPerMeter),
        InPixels(end.lon - start.lon, metersPerDegreeLongitude, pixelsPerMeter))
  }

  /** The scale taken over before moving; None when the update ends there. */
  function Scaled(s: State, pixelsPerMeter: real): (r: (State, bool)) {
    if s.pixelsPerMeter == 0.0 then
      if pixelsPerMeter == 0.0 then (s, false) else (s.(pixelsPerMeter := pixelsPerMeter), true)
    else if s.pixelsPerMeter != pixelsPerMeter then
      var zoom := pixelsPerMeter / s.pixelsPerMeter;
      if zoom < 0.25 || zoom > 4.0 then (s, false)
      else (s.(pixelsPerMeter := pixelsPerMeter, offset := Center(s.offset)), true)
    else (s, true)
  }

  /** The whole-pixel shift of a movement, with the saved fraction added in. */
  function Shift(s: State, moved: Geo): Pixels {
    Pixels(ToI16(moved.lat + s.difference.lat), ToI16(moved.lon + s.difference.lon))
  }

  predicate Huge(shift: Pixels) {
    !InMargin(shift.lat) || !InMargin(shift.lon)
  }

  function Applied(offset: int, shift: int): int {
    (if InMargin(offset + shift) then offset else Centered(offset)) + shift
  }

  function Moved(s: State, to: Geo, moved: Geo): State {
    var shift := Shift(s, moved);
    var saved := Geo(moved.lat + s.difference.lat - shift.lat as real,
                     moved.lon + s.difference.lon - shift.lon as real);
    var offset := if Huge(shift) then s.offset
                  else Pixels(Applied(s.offset.lat, shift.lat), Applied(s.offset.lon, shift.lon));
    s.(position := to, difference := saved, offset := offset)
  }

  function Entered(s: State): State {
    if InMargin(s.offset.lat) && InMargin(s.offset.lon) then s else s.(offset := Center(s.offset))
  }

  /** The exact movement that an action accounts for. */
  function Accounted(s: State, a: Action): Option<Geo> {
    if !a.Move? || !Scaled(Entered(s), a.pixelsPerMeter).1 || a.radar.None? || a.radar.value == s.position then None
    else Some(Movement(s.position, a.radar.value, a.pixelsPerMeter, a.metersPerDegreeLongitude))
  }

  function Next(s: State, a: Action): State {
    match a
    case Scale(ppm) => s.(pixelsPerMeter := ppm)
    case MoveAtRangeZero => Entered(s)
    case Move(ppm, radar, _) =>
      var t := Scaled(Entered(s), ppm).0;
      if Accounted(s, a).None? then t else Moved(t, radar.value, Accounted(s, a).value)
  }

  // ----- One update, in its own terms

  /** The number cut towards zero and held within 16 signed bits. */
  predicate IsCut(x: real, i: int) {
    if x >= 32768.0 then i == 32767
    else if x <= -32769.0 then i == -32768
    else if x >= 0.0 then i as real <= x < i as real + 1.0
    else i as real - 1.0 < x <= i as real
  }

  predicate Within100(i: int) {
    -100 < i < 100
  }

  /** Along one axis: so many degrees and what was saved are whole pixels and what is saved next. */
  predicate IsSplit(degrees: real, metersPerDegree: real, pixelsPerMeter: real, saved: real, shift: int, next: real) {
    var exact := degrees * metersPerDegree * pixelsPerMeter + saved;
    IsCut(exact, shift) && next == exact - shift as real
  }

  /** Along one axis: the offset is shifted, from the centre if it would otherwise reach 100. */
  predicate IsShifted(offset: int, shift: int, after: int) {
    after == if Within100(offset + shift) then offset + shift else shift
  }

  /** The image has followed the ship to a new position, from this offset. */
  ghost predicate HasFollowed(s: State, offset: Pixels, ppm: real, to: Geo, metersPerDegreeLongitude: real,
                              after: State)
  {
    && after.position == to
    && exists lat: int, lon: int ::
         && IsSplit(to.lat - s.position.lat, 111120.0, ppm, s.difference.lat, lat, after.difference.lat)
         && IsSplit(to.lon - s.position.lon, metersPerDegreeLongitude, ppm, s.difference.lon, lon, after.difference.lon)
         && if Within100(lat) && Within100(lon)
            then IsShifted(offset.lat, lat, after.offset.lat) && IsShifted(offset.lon, lon, after.offset.lon)
            else after.offset == offset
  }

  /**
   One update of an image within its margin. Nothing happens without a scale, or
   when the scale changes by more than four; any other new scale centres the
   image. A shift of 100 pixels or more is not applied.
   */
  ghost predicate IsUpdated(s: State, ppm: real, radar: Option<Geo>, metersPerDegreeLongitude: real, after: State) {
    if s.pixelsPerMeter == 0.0 && ppm == 0.0 then after == s
    else if s.pixelsPerMeter != 0.0 && (ppm / s.pixelsPerMeter < 0.25 || ppm / s.pixelsPerMeter > 4.0) then after == s
    else
      var offset := if s.pixelsPerMeter == 0.0 || s.pixelsPerMeter == ppm then s.offset else Pixels(0, 0);
      && after.pixelsPerMeter == ppm
      && if radar.None? || radar.value == s.position
         then after.position == s.position && after.difference == s.difference && after.offset == offset
         else HasFollowed(s, offset, ppm, radar.value, metersPerDegreeLongitude, after)
  }

  lemma CutIs(x: real)
    ensures IsCut(x, ToI16(x))
  {
    var floor, ceiling := x.Floor, -((-x).Floor);
    assert floor as real <= x < floor as real + 1.0;
    assert ceiling as real - 1.0 < x <= ceiling as real;
  }

  lemma MovedHasFollowed(s: State, ppm: real, to: Geo, metersPerDegreeLongitude: real, t: State)
    requires t.position == s.position && t.difference == s.difference
    requires Within100(t.offset.lat) && Within100(t.offset.lon)
    ensures HasFollowed(s, t.offset, ppm, to, metersPerDegreeLongitude,
                        Moved(t, to, Movement(s.position, to, ppm, metersPerDegreeLongitude)))
  {
    hide ToI16, IsSplit, InPixels;
    var moved := Movement(s.position, to, ppm, metersPerDegreeLongitude);
    var shift, after := Shift(t, moved), Moved(t, to, moved);
    SplitIs(to.lat - s.position.lat, 111120.0, ppm, s.difference.lat);
    SplitIs(to.lon - s.position.lon, metersPerDegreeLongitude, ppm, s.difference.lon);
    assert IsSplit(to.lat - s.position.lat, 111120.0, ppm, s.difference.lat, shift.lat, after.difference.lat);
    assert IsSplit(to.lon - s.position.lon, metersPerDegreeLongitude, ppm, s.difference.lon, shift.lon,
                   after.difference.lon);
    if Within100(shift.lat) && Within100(shift.lon) {
      assert IsShifted(t.offset.lat, shift.lat, after.offset.lat);
      assert IsShifted(t.offset.lon, shift.lon, after.offset.lon);
    } else {
      assert Huge(shift) && after.offset == t.offset;
    }
  }

  lemma SplitIs(degrees: real, metersPerDegree: real, ppm: real, saved: real)
    ensures var exact := InPixels(degrees, metersPerDegree, ppm) + saved;
            IsSplit(degrees, metersPerDegree, ppm, saved, ToI16(exact), exact - ToI16(exact) as real)
  {
    hide ToI16, IsCut;
    CutIs(InPixels(degrees, metersPerDegree, ppm) + saved);
  }

  lemma NextIsUpdated(s: State, ppm: real, radar: Option<Geo>, metersPerDegreeLongitude: real)
    requires Within100(s.offset.lat) && Within100(s.offset.lon)
    ensures IsUpdated(s, ppm, radar, metersPerDegreeLongitude, Next(s, Move(ppm, radar, metersPerDegreeLongitude)))
  {
    hide Movement, HasFollowed;
    var t := Scaled(Entered(s), ppm);
    ScaledKeeps(s, ppm);
    if s.pixelsPerMeter != 0.0 && s.pixelsPerMeter == ppm {
      assert ppm / s.pixelsPerMeter == 1.0;
    }
    if t.1 && radar.Some? && radar.value != s.position {
      MovedHasFollowed(s, ppm, radar.value, metersPerDegreeLongitude, t.0);
    }
  }

  class TrailImage {
    var position: Geo
    var difference: Geo
    var offset: Pixels
    var pixelsPerMeter: real

    ghost function Now(): State
      reads this
    {
      State(position, difference, offset, pixelsPerMeter)
    }

    constructor ()
      ensures Now() == START == State(Geo(0.0, 0.0), Geo(0.0, 0.0), Pixels(0, 0), 0.0)
    {
      position, difference, offset, pixelsPerMeter := Geo(0.0, 0.0), Geo(0.0, 0.0), Pixels(0, 0), 0.0;
    }

    method ShiftImageLatToCenter()
      modifies this`offset
      ensures offset == old(offset).(lat := Centered(old(offset).lat))
    {
      if offset.lat >= MARGIN || offset.lat <= -MARGIN {
        return;
      }
      offset := offset.(lat := 0);
    }

    method ShiftImageLonToCenter()
      modifies this`offset
      ensures offset == old(offset).(lon := Centered(old(offset).lon))
    {
      if offset.lon >= MARGIN || offset.lon <= -MARGIN {
        return;
      }
      offset := offset.(lon := 0);
    }

    /** The scale that a spoke with a new range brings. */
    method SetScale(dataLength: nat, range: nat)
      requires range > 0
      modifies this`pixelsPerMeter
      ensures Now() == Next(old(Now()), Scale(dataLength as real / range as real))
    {
      pixelsPerMeter := dataLength as real / range as real;
    }

    /**
     The radar position and the length of a degree of longitude there are given.
     At range 0 the new scale is infinite, and so is the zoom from a known one.
     */
    method UpdateTrailPosition(range: nat, dataLength: nat, radar: Option<Geo>, metersPerDegreeLongitude: real)
      requires range > 0 || (dataLength > 0 && pixelsPerMeter > 0.0)
      modifies this
      ensures Now() == Next(old(Now()), if range == 0 then MoveAtRangeZero
                                        else Move(dataLength as real / range as real, radar, metersPerDegreeLongitude))
      ensures range > 0 && Within100(old(offset).lat) && Within100(old(offset).lon) ==>
                IsUpdated(old(Now()), dataLength as real / range as real, radar, metersPerDegreeLongitude, Now())
    {
      hide Movement, Scaled, Moved, IsUpdated;
      if range > 0 && Within100(offset.lat) && Within100(offset.lon) {
        NextIsUpdated(Now(), dataLength as real / range as real, radar, metersPerDegreeLongitude);
      }
      if range == 0 {
        if offset.lon >= MARGIN || offset.lon <= -MARGIN || offset.lat >= MARGIN || offset.lat <= -MARGIN {
          ShiftImageLatToCenter();
          ShiftImageLonToCenter();
        }
        return;
      }
      var ppm := dataLength as real / range as real;
      ScaledKeeps(Now(), ppm);
      if offset.lon >= MARGIN || offset.lon <= -MARGIN || offset.lat >= MARGIN || offset.lat <= -MARGIN {
        ShiftImageLatToCenter();
        ShiftImageLonToCenter();
      }
      var more := TakeScale(ppm);
      if !more || radar.None? || position == radar.value {
        return;
      }
      ApplyMovement(radar.value, Movement(position, radar.value, ppm, metersPerDegreeLongitude));
    }

    method TakeScale(ppm: real) returns (more: bool)
      modifies this
      ensures (Now(), more) == Scaled(old(Now()), ppm)
    {
      if pixelsPerMeter == 0.0 {
        if ppm == 0.0 {
          return false;
        }
        pixelsPerMeter := ppm;
      } else if pixelsPerMeter != ppm {
        var zoom := ppm / pixelsPerMeter;
        if zoom < 0.25 || zoom > 4.0 {
          return false;
        }
        pixelsPerMeter := ppm;
        ShiftImageLatToCenter();
        ShiftImageLonToCenter();
      }
      return true;
    }

    method ApplyMovement(to: Geo, moved: Geo)
      modifies this
      ensures Now() == Moved(old(Now()), to, moved)
    {
      hide ToI16;
      position := to;
      var shift := Pixels(ToI16(moved.lat + difference.lat), ToI16(moved.lon + difference.lon));
      difference := Geo(moved.lat + difference.lat - shift.lat as real, moved.lon + difference.lon - shift.lon as real);
      if shift.lat >= MARGIN || shift.lat <= -MARGIN || shift.lon >= MARGIN || shift.lon <= -MARGIN {
        return;
      }
      if !InMargin(offset.lon + shift.lon) {
        ShiftImageLonToCenter();
      }
      if !InMargin(offset.lat + shift.lat) {
        ShiftImageLatToCenter();
      }
      offset := Pixels(offset.lat + shift.lat, offset.lon + shift.lon);
    }
  }

  // ----- Runs

  ghost function Run(s: State, actions: seq<Action>): State {
    if actions == [] then s else Next(Run(s, actions[..|actions| - 1]), actions[|actions| - 1])
  }

  ghost predicate OffsetsInMargin(s: State) {
    InMargin(s.offset.lat) && InMargin(s.offset.lon)
  }

  /** Both offsets stay strictly inside the margin, so that no sum of 16-bit values overflows. */
  lemma {:induction false} MarginKept(s: State, actions: seq<Action>)
    requires OffsetsInMargin(s)
    ensures OffsetsInMargin(Run(s, actions))
  {
    if actions != [] {
      MarginKept(s, actions[..|actions| - 1]);
    }
  }

  /** The pixels that an action shifts by, and the exact movement behind them. */
  ghost function ShiftOf(s: State, a: Action): Pixels {
    match Accounted(s, a)
    case None => Pixels(0, 0)
    case Some(moved) => Shift(s, moved)
  }

  ghost function MovementOf(s: State, a: Action): Geo {
    match Accounted(s, a)
    case None => Geo(0.0, 0.0)
    case Some(moved) => moved
  }

  /** The pixels that reach the offset: a huge shift resets the image and does not. */
  ghost function Effective(s: State, a: Action): Pixels {
    if Huge(ShiftOf(s, a)) then Pixels(0, 0) else ShiftOf(s, a)
  }

  ghost predicate Follows(offset: int, shift: int, after: int, kept: bool) {
    after == offset + shift || (after == shift && !(kept && InMargin(offset + shift)))
  }

  /** The offset follows the shift; only a new scale or a full margin first moves the image back to the centre. */
  lemma OffsetFollowsShift(s: State, a: Action)
    requires OffsetsInMargin(s)
    ensures var kept := !a.Move? || a.pixelsPerMeter == s.pixelsPerMeter;
            && Follows(s.offset.lat, Effective(s, a).lat, Next(s, a).offset.lat, kept)
            && Follows(s.offset.lon, Effective(s, a).lon, Next(s, a).offset.lon, kept)
  {
    hide ToI16, Movement;
  }

  ghost function TotalShift(s: State, actions: seq<Action>): Pixels {
    if actions == [] then Pixels(0, 0)
    else
      var before := actions[..|actions| - 1];
      var total, shift := TotalShift(s, before), ShiftOf(Run(s, before), actions[|actions| - 1]);
      Pixels(total.lat + shift.lat, total.lon + shift.lon)
  }

  ghost function TotalMovement(s: State, actions: seq<Action>): Geo {
    if actions == [] then Geo(0.0, 0.0)
    else
      var before := actions[..|actions| - 1];
      var total, moved := TotalMovement(s, before), MovementOf(Run(s, before), actions[|actions| - 1]);
      Geo(total.lat + moved.lat, total.lon + moved.lon)
  }

  lemma ScaledKeeps(s: State, ppm: real)
    ensures var t := Scaled(Entered(s), ppm).0; t.position == s.position && t.difference == s.difference
  {
  }

  lemma NextConserves(s: State, a: Action)
    ensures var d := Next(s, a).difference;
            && MovementOf(s, a).lat == ShiftOf(s, a).lat as real + d.lat - s.difference.lat
            && MovementOf(s, a).lon == ShiftOf(s, a).lon as real + d.lon - s.difference.lon
  {
    hide Movement, ToI16, Scaled;
    if a.Move? {
      ScaledKeeps(s, a.pixelsPerMeter);
    }
  }

  /** Nothing is lost to rounding: exact movement is whole pixels plus the change of the saved fraction. */
  lemma {:induction false} MovementConserved(s: State, actions: seq<Action>)
    ensures var d := Run(s, actions).difference;
            && TotalMovement(s, actions).lat == TotalShift(s, actions).lat as real + d.lat - s.difference.lat
            && TotalMovement(s, actions).lon == TotalShift(s, actions).lon as real + d.lon - s.difference.lon
  {
    hide Next, ShiftOf, MovementOf;
    if actions != [] {
      var before := actions[..|actions| - 1];
      MovementConserved(s, before);
      NextConserves(Run(s, before), actions[|actions| - 1]);
    }
  }

  // ----- The saved fraction

  predicate Fraction(x: real) {
    -1.0 < x < 1.0
  }

  /** The value that is cut to whole pixels fits 16 bits. */
  predicate FitsI16(x: real) {
    -32769.0 < x < 32768.0
  }

  /** The movement of an action, with the saved part added in, fits 16 bits both ways. */
  ghost predicate MoveFits(s: State, a: Action) {
    && FitsI16(MovementOf(s, a).lat + s.difference.lat)
    && FitsI16(MovementOf(s, a).lon + s.difference.lon)
  }

  ghost predicate SavesFraction(s: State) {
    Fraction(s.difference.lat) && Fraction(s.difference.lon)
  }

  /** After a move each saved part is below one pixel exactly when that component of the move fits 16 bits. */
  lemma SavedIsFraction(s: State, a: Action)
    requires Accounted(s, a).Some?
    ensures Fraction(Next(s, a).difference.lat) <==> FitsI16(MovementOf(s, a).lat + s.difference.lat)
    ensures Fraction(Next(s, a).difference.lon) <==> FitsI16(MovementOf(s, a).lon + s.difference.lon)
  {
    hide Movement, ToI16, Scaled;
    ScaledKeeps(s, a.pixelsPerMeter);
    FractionIsSmall(MovementOf(s, a).lat + s.difference.lat);
    FractionIsSmall(MovementOf(s, a).lon + s.difference.lon);
  }

  lemma SavedUnlessMoved(s: State, a: Action)
    requires Accounted(s, a).None?
    ensures Next(s, a).difference == s.difference
    ensures SavesFraction(s) ==> MoveFits(s, a)
  {
    if a.Move? {
      ScaledKeeps(s, a.pixelsPerMeter);
    }
  }

  /**
   Over a run that starts with less than a pixel saved, less than a pixel is always
   saved exactly when every move fits.
   */
  lemma {:induction false} AlwaysFraction(s: State, actions: seq<Action>)
    requires SavesFraction(s)
    ensures (forall i: nat :: i <= |actions| ==> SavesFraction(Run(s, actions[..i]))) <==>
            (forall i: nat :: i < |actions| ==> MoveFits(Run(s, actions[..i]), actions[i]))
  {
    hide SavesFraction, MoveFits, Next;
    assert actions[..0] == [];
    if forall i: nat :: i <= |actions| ==> SavesFraction(Run(s, actions[..i])) {
      forall i: nat | i < |actions| ensures MoveFits(Run(s, actions[..i]), actions[i]) {
        RunMore(s, actions, i);
        StepFraction(Run(s, actions[..i]), actions[i]);
      }
    }
    if forall i: nat :: i < |actions| ==> MoveFits(Run(s, actions[..i]), actions[i]) {
      forall i: nat | i <= |actions| ensures SavesFraction(Run(s, actions[..i])) {
        FractionUpTo(s, actions, i);
      }
    }
  }

  lemma RunMore(s: State, actions: seq<Action>, i: nat)
    requires i < |actions|
    ensures Run(s, actions[..i + 1]) == Next(Run(s, actions[..i]), actions[i])
  {
    assert actions[..i + 1][..i] == actions[..i];
  }

  lemma StepFraction(s: State, a: Action)
    requires SavesFraction(s)
    ensures SavesFraction(Next(s, a)) <==> MoveFits(s, a)
  {
    hide Next, MovementOf;
    if Accounted(s, a).Some? {
      SavedIsFraction(s, a);
    } else {
      SavedUnlessMoved(s, a);
    }
  }

  lemma {:induction false} FractionUpTo(s: State, actions: seq<Action>, i: nat)
    requires SavesFraction(s) && i <= |actions|
    requires forall j: nat :: j < |actions| ==> MoveFits(Run(s, actions[..j]), actions[j])
    ensures SavesFraction(Run(s, actions[..i]))
  {
    hide SavesFraction, MoveFits, Next;
    if i == 0 {
      assert actions[..0] == [];
    } else {
      FractionUpTo(s, actions, i - 1);
      RunMore(s, actions, i - 1);
      StepFraction(Run(s, actions[..i - 1]), actions[i - 1]);
    }
  }

  // ----- The first position

  const START: State := State(Geo(0.0, 0.0), Geo(0.0, 0.0), Pixels(0, 0), 0.0)

  /** A cast never takes more than 32767, so that a large remainder lasts. */
  lemma RemainderLasts(s: State, a: Action)
    requires MovementOf(s, a).lat >= -1.0
    ensures Next(s, a).difference.lat >= s.difference.lat - 32768.0
    ensures s.difference.lat >= 101.0 ==> Accounted(s, a).None? || Huge(ShiftOf(s, a))
  {
    hide Movement, Scaled;
    NextConserves(s, a);
  }

  /** While the remainder lasts every move resets the trails, however small the move. */
  lemma {:induction false} KeepsResetting(s: State, actions: seq<Action>, i: nat)
    requires i <= |actions| && s.difference.lat >= 32768.0 * |actions| as real + 101.0
    requires forall j: nat :: j < |actions| ==> MovementOf(Run(s, actions[..j]), actions[j]).lat >= -1.0
    ensures Run(s, actions[..i]).difference.lat >= s.difference.lat - 32768.0 * i as real
    ensures i < |actions| ==>
              var t := Run(s, actions[..i]);
              Accounted(t, actions[i]).None? || Huge(ShiftOf(t, actions[i]))
  {
    hide Next, MovementOf, ShiftOf, Accounted, Huge;
    if i == 0 {
      assert actions[..0] == [];
    } else {
      KeepsResetting(s, actions, i - 1);
      RunMore(s, actions, i - 1);
      RemainderLasts(Run(s, actions[..i - 1]), actions[i - 1]);
    }
    if i < |actions| {
      RemainderLasts(Run(s, actions[..i]), actions[i]);
    }
  }

  /** The range of the first spoke sets a scale of four metres to the pixel. */
  const SCALED: State := Next(START, Scale(0.25))

  /** The first position, at 52 degrees north, as the difference to (0, 0). */
  const FIRST: Action := Move(0.25, Some(Geo(52.0, 4.0)), 68400.0)

  /** It leaves 1411793 pixels behind as if they were a fraction, and the next 43 moves each reset the trails. */
  lemma FirstPositionResets(actions: seq<Action>, i: nat)
    requires |actions| <= 43 && i < |actions|
    requires forall j: nat :: j < |actions| ==>
               MovementOf(Run(Next(SCALED, FIRST), actions[..j]), actions[j]).lat >= -1.0
    ensures Next(SCALED, FIRST).difference.lat == 1411793.0 && !MoveFits(SCALED, FIRST)
    ensures var t := Run(Next(SCALED, FIRST), actions[..i]);
            Accounted(t, actions[i]).None? || Huge(ShiftOf(t, actions[i]))
  {
    FirstPosition();
    KeepsResetting(Next(SCALED, FIRST), actions, i);
  }

  lemma FirstPosition()
    ensures MovementOf(SCALED, FIRST).lat == 1444560.0 && ShiftOf(SCALED, FIRST).lat == 32767
    ensures Next(SCALED, FIRST).difference.lat == 1411793.0
  {
    hide ToI16;
    assert InPixels(52.0, METERS_PER_DEGREE_LATITUDE, 0.25) == 1444560.0;
    Saturates(1444560.0);
    NextConserves(SCALED, FIRST);
  }

  lemma Saturates(x: real)
    requires x >= 32768.0
    ensures ToI16(x) == 32767
  {
  }

  /** At one scale, the pixels shifted northward are those between the first and the last position. */
  lemma {:induction false} LatitudeIsExact(s: State, actions: seq<Action>, ppm: real)
    requires ppm > 0.0 && s.pixelsPerMeter == ppm
    requires forall a <- actions :: a.MoveAtRangeZero? || a.pixelsPerMeter == ppm
    ensures Run(s, actions).pixelsPerMeter == ppm
    ensures var end := Run(s, actions);
            InPixels(end.position.lat - s.position.lat, METERS_PER_DEGREE_LATITUDE, ppm) ==
            TotalShift(s, actions).lat as real + end.difference.lat - s.difference.lat
  {
    hide TotalShift, ShiftOf;
    MovementConserved(s, actions);
    PositionTelescopes(s, actions, ppm);
  }

  lemma {:induction false} PositionTelescopes(s: State, actions: seq<Action>, ppm: real)
    requires ppm > 0.0 && s.pixelsPerMeter == ppm
    requires forall a <- actions :: a.MoveAtRangeZero? || a.pixelsPerMeter == ppm
    ensures Run(s, actions).pixelsPerMeter == ppm
    ensures TotalMovement(s, actions).lat ==
            InPixels(Run(s, actions).position.lat - s.position.lat, METERS_PER_DEGREE_LATITUDE, ppm)
  {
    hide InPixels, Next, MovementOf;
    InPixelsAdds(0.0, 0.0, METERS_PER_DEGREE_LATITUDE, ppm);
    if actions != [] {
      var before := actions[..|actions| - 1];
      var mid := Run(s, before);
      PositionTelescopes(s, before, ppm);
      StepTelescopes(mid, actions[|actions| - 1], ppm);
      InPixelsAdds(mid.position.lat - s.position.lat, Run(s, actions).position.lat - mid.position.lat,
                   METERS_PER_DEGREE_LATITUDE, ppm);
    }
  }

  lemma StepTelescopes(s: State, a: Action, ppm: real)
    requires ppm > 0.0 && s.pixelsPerMeter == ppm && (a.MoveAtRangeZero? || a.pixelsPerMeter == ppm)
    ensures Next(s, a).pixelsPerMeter == ppm
    ensures MovementOf(s, a).lat ==
            InPixels(Next(s, a).position.lat - s.position.lat, METERS_PER_DEGREE_LATITUDE, ppm)
  {
    hide InPixels, ToI16;
    InPixelsAdds(0.0, 0.0, METERS_PER_DEGREE_LATITUDE, ppm);
  }

  lemma InPixelsAdds(x: real, y: real, metersPerDegree: real, ppm: real)
    ensures InPixels(x, metersPerDegree, ppm) + InPixels(y, metersPerDegree, ppm) ==
            InPixels(x + y, metersPerDegree, ppm)
    ensures InPixels(0.0, metersPerDegree, ppm) == 0.0
  {
    assert (x + y) * metersPerDegree == x * metersPerDegree + y * metersPerDegree;
  }
}
