/** The part of a JSON tree that the AIS code looks at, with the accessors it uses. */
module Json {
  import opened Options

  datatype Json =
    | Null
    | Bool(b: bool)
    | Number(n: real)
    | String(s: string)
    | Array(items: seq<Json>)
    | Object(members: map<string, Json>)
  {
    /** Indexing never fails: a missing member reads as null. */
    function Index(key: string): Json {
      if Object? && key in members then members[key] else Null
    }

    function AsNumber(): Option<real> {
      if Number? then Some(n) else None
    }

    function AsString(): Option<string> {
      if String? then Some(s) else None
    }

    function GetNumber(key: string): Option<real> {
      Index(key).AsNumber()
    }

    function AsArray(): Option<seq<Json>> {
      if Array? then Some(items) else None
    }
  }
}

/**
 One AIS vessel and how a Signal K message changes it.

 A message is flattened into the list of field writes it carries, and the
 vessel after the message is described field by field by the last write.
 */
module AisVessel {
  import opened Options
  import opened Json

  /** Instants, in nanoseconds. */
  type Time = nat

  datatype Position = Position(latitude: real, longitude: real)

  datatype Dimensions = Dimensions(
    length: Option<real>, beam: Option<real>, fromBow: Option<real>, fromCenter: Option<real>)
  {
    predicate HasAny() {
      length.Some? || beam.Some? || fromBow.Some? || fromCenter.Some?
    }
  }

  datatype Status = Active | Lost

  datatype AisVessel = AisVessel(
    mmsi: string,
    name: Option<string>,
    position: Option<Position>,
    dimensions: Dimensions,
    heading: Option<real>,
    cog: Option<real>,
    sog: Option<real>,
    status: Status,
    lastUpdate: Time)

  /** What is sent to clients: dimensions only when at least one is known, no time. */
  datatype VesselApi = VesselApi(
    mmsi: string,
    name: Option<string>,
    position: Option<Position>,
    dimensions: Option<Dimensions>,
    heading: Option<real>,
    cog: Option<real>,
    sog: Option<real>,
    status: Status)

  function NewVessel(mmsi: string, now: Time): AisVessel {
    AisVessel(mmsi, None, None, Dimensions(None, None, None, None), None, None, None, Active, now)
  }

  function Api(v: AisVessel): VesselApi {
    VesselApi(v.mmsi, v.name, v.position,
              if v.dimensions.HasAny() then Some(v.dimensions) else None,
              v.heading, v.cog, v.sog, v.status)
  }

  /** A vessel no message has yet told anything about. */
  predicate Blank(v: AisVessel) {
    forall slot :: Read(v, slot).None?
  }

  // ----- Field writes

  datatype Slot = NameSlot | PositionSlot | HeadingSlot | CogSlot | SogSlot
                | LengthSlot | BeamSlot | FromBowSlot | FromCenterSlot

  datatype Field = Text(text: string) | Place(place: Position) | Quantity(q: real)

  /** A write of `value` into `slot`, with the value's kind fitting the slot. */
  datatype RawWrite = Write(slot: Slot, value: Field)
  {
    predicate WellTyped() {
      match slot
      case NameSlot => value.Text?
      case PositionSlot => value.Place?
      case _ => value.Quantity?
    }
  }
  type Write = w: RawWrite | w.WellTyped() witness RawWrite.Write(CogSlot, Quantity(0.0))

  function MapQuantity(o: Option<real>): Option<Field> {
    match o case None => None case Some(q) => Some(Quantity(q))
  }

  function Read(v: AisVessel, slot: Slot): Option<Field> {
    match slot
    case NameSlot => (match v.name case None => None case Some(t) => Some(Text(t)))
    case PositionSlot => (match v.position case None => None case Some(p) => Some(Place(p)))
    case HeadingSlot => MapQuantity(v.heading)
    case CogSlot => MapQuantity(v.cog)
    case SogSlot => MapQuantity(v.sog)
    case LengthSlot => MapQuantity(v.dimensions.length)
    case BeamSlot => MapQuantity(v.dimensions.beam)
    case FromBowSlot => MapQuantity(v.dimensions.fromBow)
    case FromCenterSlot => MapQuantity(v.dimensions.fromCenter)
  }

  function Assign(v: AisVessel, w: Write): (r: AisVessel)
    ensures r.mmsi == v.mmsi && r.status == v.status && r.lastUpdate == v.lastUpdate
    ensures forall slot :: Read(r, slot) == if slot == w.slot then Some(w.value) else Read(v, slot)
  {
    match w.slot
    case NameSlot => v.(name := Some(w.value.text))
    case PositionSlot => v.(position := Some(w.value.place))
    case HeadingSlot => v.(heading := Some(w.value.q))
    case CogSlot => v.(cog := Some(w.value.q))
    case SogSlot => v.(sog := Some(w.value.q))
    case LengthSlot => v.(dimensions := v.dimensions.(length := Some(w.value.q)))
    case BeamSlot => v.(dimensions := v.dimensions.(beam := Some(w.value.q)))
    case FromBowSlot => v.(dimensions := v.dimensions.(fromBow := Some(w.value.q)))
    case FromCenterSlot => v.(dimensions := v.dimensions.(fromCenter := Some(w.value.q)))
  }

  /** The write that one entry of a `values` array asks for, if it is well formed. */
  function DecodeEntry(entry: Json): Option<Write> {
    var path := match entry.Index("path").AsString() case None => "" case Some(p) => p;
    DecodeAt(path, entry.Index("value"))
  }

  function DecodeAt(path: string, value: Json): Option<Write> {
    if path == "navigation.position" then
      match (value.GetNumber("latitude"), value.GetNumber("longitude"))
      case (Some(lat), Some(lon)) => Some(RawWrite.Write(PositionSlot, Place(Position(lat, lon))))
      case _ => None
    else if path == "navigation.headingTrue" then QuantityWrite(HeadingSlot, value.AsNumber())
    else if path == "navigation.courseOverGroundTrue" then QuantityWrite(CogSlot, value.AsNumber())
    else if path == "navigation.speedOverGround" then QuantityWrite(SogSlot, value.AsNumber())
    else DecodeElse(path, value)
  }

  function DecodeElse(path: string, value: Json): Option<Write> {
    if path == "design.length" then QuantityWrite(LengthSlot, value.GetNumber("overall"))
    else if path == "design.beam" then QuantityWrite(BeamSlot, value.AsNumber())
    else if path == "sensors.ais.fromBow" then QuantityWrite(FromBowSlot, value.AsNumber())
    else if path == "sensors.ais.fromCenter" then QuantityWrite(FromCenterSlot, value.AsNumber())
    else if path == "" then
      match value.Index("name").AsString()
      case Some(name) => Some(RawWrite.Write(NameSlot, Text(name)))
      case None => None
    else None
  }

  function QuantityWrite(slot: Slot, o: Option<real>): Option<Write>
    requires slot != NameSlot && slot != PositionSlot
  {
    match o case None => None case Some(q) => Some(RawWrite.Write(slot, Quantity(q)))
  }

  function WritesOfValues(values: seq<Json>): seq<Write> {
    if values == [] then []
    else
      WritesOfValues(values[..|values| - 1]) +
      match DecodeEntry(values[|values| - 1]) { case None => [] case Some(w) => [w] }
  }

  function ValuesOf(update: Json): seq<Json> {
    match update.Index("values").AsArray() case None => [] case Some(vs) => vs
  }

  function WritesOfUpdates(updates: seq<Json>): seq<Write> {
    if updates == [] then []
    else WritesOfUpdates(updates[..|updates| - 1]) + WritesOfValues(ValuesOf(updates[|updates| - 1]))
  }

  /** Every field write of a message, in order. */
  function WritesOf(message: Json): seq<Write> {
    match message.AsArray() case None => [] case Some(us) => WritesOfUpdates(us)
  }

  // ----- What a message tells, entry by entry

  /** Every entry of every `values` array of a message, in order. */
  function Entries(message: Json): seq<Json> {
    if message.Array? then EntriesOf(message.items) else []
  }

  function EntriesOf(updates: seq<Json>): seq<Json> {
    if updates == [] then []
    else
      var last := updates[|updates| - 1];
      EntriesOf(updates[..|updates| - 1]) +
      if last.Object? && "values" in last.members && last.members["values"].Array? then last.members["values"].items
      else []
  }

  predicate IsUnder(entry: Json, path: string) {
    && entry.Object? && "path" in entry.members && entry.members["path"] == String(path)
    && "value" in entry.members
  }

  /** An entry whose path is missing or not text counts as one under the empty path. */
  predicate IsUnderNoPath(entry: Json) {
    && entry.Object? && "value" in entry.members
    && ("path" in entry.members && entry.members["path"].String? ==> entry.members["path"].s == "")
  }

  function NumberIn(value: Json, key: string): Option<real> {
    if value.Object? && key in value.members && value.members[key].Number? then Some(value.members[key].n) else None
  }

  /** The number that an entry has under a path, or a part of what it has there. */
  function NumberUnder(entry: Json, path: string, part: Option<string>): Option<real> {
    if !IsUnder(entry, path) then None
    else
      var value := entry.members["value"];
      if part.Some? then NumberIn(value, part.value) else if value.Number? then Some(value.n) else None
  }

  function PositionUnder(entry: Json): Option<Position> {
    var lat := NumberUnder(entry, "navigation.position", Some("latitude"));
    var lon := NumberUnder(entry, "navigation.position", Some("longitude"));
    if lat.Some? && lon.Some? then Some(Position(lat.value, lon.value)) else None
  }

  function NameUnder(entry: Json): Option<string> {
    if !IsUnderNoPath(entry) then None
    else
      var value := entry.members["value"];
      if value.Object? && "name" in value.members && value.members["name"].String? then Some(value.members["name"].s)
      else None
  }

  /** The last number that a list of entries has under a path, or else what was held. */
  function LastNumber(entries: seq<Json>, path: string, part: Option<string>, held: Option<real>): Option<real> {
    if entries == [] then held
    else
      var x := NumberUnder(entries[|entries| - 1], path, part);
      if x.Some? then x else LastNumber(entries[..|entries| - 1], path, part, held)
  }

  function LastPosition(entries: seq<Json>, held: Option<Position>): Option<Position> {
    if entries == [] then held
    else
      var x := PositionUnder(entries[|entries| - 1]);
      if x.Some? then x else LastPosition(entries[..|entries| - 1], held)
  }

  function LastName(entries: seq<Json>, held: Option<string>): Option<string> {
    if entries == [] then held
    else
      var x := NameUnder(entries[|entries| - 1]);
      if x.Some? then x else LastName(entries[..|entries| - 1], held)
  }

  /** The vessel after some entries: each field is what they last said under the field's own path. */
  ghost predicate IsToldBy(before: AisVessel, es: seq<Json>, after: AisVessel) {
    && after.mmsi == before.mmsi && after.status == before.status
    && after.name == LastName(es, before.name)
    && after.position == LastPosition(es, before.position)
    && CourseIsToldBy(before, es, after) && SizeIsToldBy(before.dimensions, es, after.dimensions)
  }

  ghost predicate CourseIsToldBy(before: AisVessel, es: seq<Json>, after: AisVessel) {
    && after.heading == LastNumber(es, "navigation.headingTrue", None, before.heading)
    && after.cog == LastNumber(es, "navigation.courseOverGroundTrue", None, before.cog)
    && after.sog == LastNumber(es, "navigation.speedOverGround", None, before.sog)
  }

  ghost predicate SizeIsToldBy(before: Dimensions, es: seq<Json>, after: Dimensions) {
    && after.length == LastNumber(es, "design.length", Some("overall"), before.length)
    && after.beam == LastNumber(es, "design.beam", None, before.beam)
    && after.fromBow == LastNumber(es, "sensors.ais.fromBow", None, before.fromBow)
    && after.fromCenter == LastNumber(es, "sensors.ais.fromCenter", None, before.fromCenter)
  }

  predicate IsNewNumber(entry: Json, path: string, part: Option<string>, held: Option<real>) {
    var x := NumberUnder(entry, path, part);
    x.Some? && x != held
  }

  /** The entry says something about the vessel that is not what it holds. */
  predicate IsNews(v: AisVessel, entry: Json) {
    || (NameUnder(entry).Some? && NameUnder(entry) != v.name)
    || (PositionUnder(entry).Some? && PositionUnder(entry) != v.position)
    || IsCourseNews(v, entry) || IsSizeNews(v.dimensions, entry)
  }

  predicate IsCourseNews(v: AisVessel, entry: Json) {
    || IsNewNumber(entry, "navigation.headingTrue", None, v.heading)
    || IsNewNumber(entry, "navigation.courseOverGroundTrue", None, v.cog)
    || IsNewNumber(entry, "navigation.speedOverGround", None, v.sog)
  }

  predicate IsSizeNews(d: Dimensions, entry: Json) {
    || IsNewNumber(entry, "design.length", Some("overall"), d.length)
    || IsNewNumber(entry, "design.beam", None, d.beam)
    || IsNewNumber(entry, "sensors.ais.fromBow", None, d.fromBow)
    || IsNewNumber(entry, "sensors.ais.fromCenter", None, d.fromCenter)
  }

  ghost predicate SomeNews(v: AisVessel, es: seq<Json>) {
    exists k :: 0 <= k < |es| && IsNews(v, es[k])
  }

  // ----- Decoding an entry

  function PathOf(slot: Slot): string {
    match slot
    case NameSlot => ""
    case PositionSlot => "navigation.position"
    case HeadingSlot => "navigation.headingTrue"
    case CogSlot => "navigation.courseOverGroundTrue"
    case SogSlot => "navigation.speedOverGround"
    case LengthSlot => "design.length"
    case BeamSlot => "design.beam"
    case FromBowSlot => "sensors.ais.fromBow"
    case FromCenterSlot => "sensors.ais.fromCenter"
  }

  function PartOf(slot: Slot): Option<string> {
    if slot == LengthSlot then Some("overall") else None
  }

  /** What an entry tells for one slot. */
  function ToldFor(entry: Json, slot: Slot): Option<Field> {
    match slot
    case NameSlot => (match NameUnder(entry) case None => None case Some(t) => Some(Text(t)))
    case PositionSlot => (match PositionUnder(entry) case None => None case Some(p) => Some(Place(p)))
    case _ => MapQuantity(NumberUnder(entry, PathOf(slot), PartOf(slot)))
  }

  lemma PathsDiffer(a: Slot, b: Slot)
    requires a != b
    ensures PathOf(a) != PathOf(b)
  {
    var p, q := PathOf(a), PathOf(b);
    assert |p| != |q| || (|p| > 0 && p[0] != q[0]);
  }

  /** What a value tells for the slot of its path. */
  function ToldBy(value: Json, slot: Slot): Option<Field> {
    match slot
    case NameSlot =>
      (if value.Object? && "name" in value.members && value.members["name"].String?
       then Some(Text(value.members["name"].s)) else None)
    case PositionSlot =>
      (var lat, lon := NumberIn(value, "latitude"), NumberIn(value, "longitude");
       if lat.Some? && lon.Some? then Some(Place(Position(lat.value, lon.value))) else None)
    case LengthSlot => MapQuantity(NumberIn(value, "overall"))
    case _ => if value.Number? then Some(Quantity(value.n)) else None
  }

  predicate IsCourse(slot: Slot) {
    slot in {PositionSlot, HeadingSlot, CogSlot, SogSlot}
  }

  lemma CoursePaths()
    ensures PathOf(PositionSlot) == "navigation.position" && PathOf(HeadingSlot) == "navigation.headingTrue"
    ensures PathOf(CogSlot) == "navigation.courseOverGroundTrue" && PathOf(SogSlot) == "navigation.speedOverGround"
  {
  }

  lemma OtherPaths()
    ensures PathOf(LengthSlot) == "design.length" && PathOf(BeamSlot) == "design.beam"
    ensures PathOf(FromBowSlot) == "sensors.ais.fromBow" && PathOf(FromCenterSlot) == "sensors.ais.fromCenter"
    ensures PathOf(NameSlot) == ""
  {
  }

  lemma DecodeAtPath(value: Json, slot: Slot)
    ensures DecodeAt(PathOf(slot), value) ==
            match ToldBy(value, slot) { case None => None case Some(x) => Some(RawWrite.Write(slot, x)) }
  {
    hide PathOf, DecodeElse;
    forall other | other != slot ensures PathOf(other) != PathOf(slot) {
      PathsDiffer(other, slot);
    }
    CoursePaths();
    if !IsCourse(slot) {
      DecodeElsePath(value, slot);
    }
  }

  lemma DecodeElsePath(value: Json, slot: Slot)
    requires !IsCourse(slot)
    ensures DecodeElse(PathOf(slot), value) ==
            match ToldBy(value, slot) { case None => None case Some(x) => Some(RawWrite.Write(slot, x)) }
  {
    hide PathOf;
    forall other | other != slot ensures PathOf(other) != PathOf(slot) {
      PathsDiffer(other, slot);
    }
    OtherPaths();
  }

  lemma DecodeElsewhere(path: string, value: Json)
    requires forall slot :: path != PathOf(slot)
    ensures DecodeAt(path, value).None?
  {
    hide PathOf;
    CoursePaths();
    OtherPaths();
  }

  /** An entry is decoded to a write exactly when it tells that value for that slot, and tells nothing else. */
  lemma DecodeMeans(entry: Json, slot: Slot)
    ensures ToldFor(entry, slot) ==
            var w := DecodeEntry(entry);
            if w.Some? && w.value.slot == slot then Some(w.value.value) else None
  {
    hide DecodeAt, PathOf;
    var path := match entry.Index("path").AsString() case None => "" case Some(p) => p;
    var value := entry.Index("value");
    UnderMeans(entry, slot);
    if t :| path == PathOf(t) {
      DecodeAtPath(value, t);
      if t != slot {
        PathsDiffer(t, slot);
      }
    } else {
      DecodeElsewhere(path, value);
    }
  }

  lemma UnderMeans(entry: Json, slot: Slot)
    ensures var path := match entry.Index("path").AsString() { case None => "" case Some(p) => p };
            ToldFor(entry, slot) == if path == PathOf(slot) then ToldBy(entry.Index("value"), slot) else None
  {
    assert |PathOf(slot)| == 0 <==> slot == NameSlot;
    assert PathOf(PositionSlot) == "navigation.position";
    hide PathOf;
  }

  // ----- A whole message, as a fold

  function ApplyAll(v: AisVessel, ws: seq<Write>): AisVessel {
    if ws == [] then v else Assign(ApplyAll(v, ws[..|ws| - 1]), ws[|ws| - 1])
  }

  /** Some write found another value in its slot. */
  predicate AnyChange(v: AisVessel, ws: seq<Write>) {
    if ws == [] then false
    else
      var before := ApplyAll(v, ws[..|ws| - 1]);
      var w := ws[|ws| - 1];
      AnyChange(v, ws[..|ws| - 1]) || Read(before, w.slot) != Some(w.value)
  }

  lemma {:induction false} ApplyAllConcat(v: AisVessel, a: seq<Write>, b: seq<Write>)
    ensures ApplyAll(v, a + b) == ApplyAll(ApplyAll(v, a), b)
    ensures AnyChange(v, a + b) == (AnyChange(v, a) || AnyChange(ApplyAll(v, a), b))
  {
    if b == [] {
      assert a + b == a;
    } else {
      ApplyAllConcat(v, a, b[..|b| - 1]);
      assert (a + b)[..|a + b| - 1] == a + b[..|b| - 1];
    }
  }

  /** The inner loop: the entries of one `values` array. */
  method ApplyValues(vessel: AisVessel, values: seq<Json>) returns (v: AisVessel, changed: bool)
    ensures v == ApplyAll(vessel, WritesOfValues(values))
    ensures changed == AnyChange(vessel, WritesOfValues(values))
    ensures IsToldBy(vessel, values, v) && v.lastUpdate == vessel.lastUpdate
    ensures changed <==> SomeNews(vessel, values)
  {
    hide DecodeEntry, IsToldBy, SomeNews, ApplyAll, AnyChange, WritesOfValues, Assign, Read;
    FieldsAreTold(vessel, values);
    ChangeIsNews(vessel, values);
    NothingWritten();
    NoUpdates(vessel);
    v, changed := vessel, false;
    for k := 0 to |values|
      invariant v == ApplyAll(vessel, WritesOfValues(values[..k]))
      invariant changed == AnyChange(vessel, WritesOfValues(values[..k]))
    {
      OneMoreEntry(vessel, values, k);
      var write := DecodeEntry(values[k]);
      if write.Some? {
        if Read(v, write.value.slot) != Some(write.value.value) {
          v := Assign(v, write.value);
          changed := true;
        } else {
          AssignSame(v, write.value);
        }
      }
    }
    assert values[..|values|] == values;
  }

  /** What one more entry adds to the writes of those before it. */
  lemma OneMoreEntry(v: AisVessel, values: seq<Json>, k: nat)
    requires k < |values|
    ensures var before, after := WritesOfValues(values[..k]), WritesOfValues(values[..k + 1]);
            var w := DecodeEntry(values[k]);
            if w.None? then after == before
            else
              && ApplyAll(v, after) == Assign(ApplyAll(v, before), w.value)
              && AnyChange(v, after) ==
                 (AnyChange(v, before) || Read(ApplyAll(v, before), w.value.slot) != Some(w.value.value))
  {
    hide DecodeEntry, ApplyAll, AnyChange, Assign, Read;
    assert values[..k + 1][..k] == values[..k];
    var w := DecodeEntry(values[k]);
    if w.Some? {
      ApplyOne(v, WritesOfValues(values[..k]), w.value);
    }
  }

  lemma ApplyOne(v: AisVessel, ws: seq<Write>, w: Write)
    ensures ApplyAll(v, ws + [w]) == Assign(ApplyAll(v, ws), w)
    ensures AnyChange(v, ws + [w]) == (AnyChange(v, ws) || Read(ApplyAll(v, ws), w.slot) != Some(w.value))
  {
    assert (ws + [w])[..|ws|] == ws;
  }

  /** Applies the writes of one message, update by update. */
  method UpdateFromSignalK(vessel: AisVessel, message: Json, now: Time)
    returns (v: AisVessel, changed: bool)
    ensures v == ApplyAll(vessel.(lastUpdate := now), WritesOf(message))
    ensures changed == AnyChange(vessel.(lastUpdate := now), WritesOf(message))
    ensures IsToldBy(vessel, Entries(message), v) && v.lastUpdate == now
    ensures changed <==> SomeNews(vessel, Entries(message))
  {
    hide IsToldBy, SomeNews, Entries, ApplyAll, AnyChange, WritesOfUpdates, WritesOfValues, ValuesOf;
    MessageTells(vessel, message, now);
    var start := vessel.(lastUpdate := now);
    NoUpdates(start);
    v, changed := start, false;
    if message.Array? {
      var updates := message.items;
      for i := 0 to |updates|
        invariant v == ApplyAll(start, WritesOfUpdates(updates[..i]))
        invariant changed == AnyChange(start, WritesOfUpdates(updates[..i]))
      {
        OneMoreUpdate(start, updates, i);
        var more;
        v, more := ApplyValues(v, ValuesOf(updates[i]));
        changed := changed || more;
      }
      assert updates[..|updates|] == updates;
    }
  }

  lemma NoUpdates(v: AisVessel)
    ensures WritesOfUpdates([]) == [] && ApplyAll(v, []) == v && !AnyChange(v, [])
  {
  }

  lemma OneMoreUpdate(v: AisVessel, updates: seq<Json>, i: nat)
    requires i < |updates|
    ensures var before, more := WritesOfUpdates(updates[..i]), WritesOfValues(ValuesOf(updates[i]));
            && ApplyAll(v, WritesOfUpdates(updates[..i + 1])) == ApplyAll(ApplyAll(v, before), more)
            && AnyChange(v, WritesOfUpdates(updates[..i + 1])) ==
               (AnyChange(v, before) || AnyChange(ApplyAll(v, before), more))
  {
    hide ApplyAll, AnyChange, WritesOfValues, ValuesOf;
    assert updates[..i + 1][..i] == updates[..i];
    ApplyAllConcat(v, WritesOfUpdates(updates[..i]), WritesOfValues(ValuesOf(updates[i])));
  }

  /** Two vessels that read alike in every slot are the same but for identity, status and time. */
  lemma SameSlotsSameVessel(v: AisVessel, w: AisVessel)
    requires v.mmsi == w.mmsi && v.status == w.status && v.lastUpdate == w.lastUpdate
    requires forall slot :: Read(v, slot) == Read(w, slot)
    ensures v == w
  {
    assert Read(v, NameSlot) == Read(w, NameSlot);
    assert Read(v, PositionSlot) == Read(w, PositionSlot);
    assert Read(v, HeadingSlot) == Read(w, HeadingSlot);
    assert Read(v, CogSlot) == Read(w, CogSlot);
    assert Read(v, SogSlot) == Read(w, SogSlot);
    assert Read(v, LengthSlot) == Read(w, LengthSlot);
    assert Read(v, BeamSlot) == Read(w, BeamSlot);
    assert Read(v, FromBowSlot) == Read(w, FromBowSlot);
    assert Read(v, FromCenterSlot) == Read(w, FromCenterSlot);
  }

  lemma AssignSame(v: AisVessel, w: Write)
    requires Read(v, w.slot) == Some(w.value)
    ensures Assign(v, w) == v
  {
    SameSlotsSameVessel(Assign(v, w), v);
  }

  // ----- What a message does, field by field

  /** The last value a message writes into a slot. */
  function LastWrite(ws: seq<Write>, slot: Slot): Option<Field> {
    if ws == [] then None
    else if ws[|ws| - 1].slot == slot then Some(ws[|ws| - 1].value)
    else LastWrite(ws[..|ws| - 1], slot)
  }

  /** Last write wins; a slot no write names keeps its value, so knowledge only accumulates. */
  lemma {:induction false} LastWriteWins(v: AisVessel, ws: seq<Write>, slot: Slot)
    ensures ApplyAll(v, ws).mmsi == v.mmsi
    ensures ApplyAll(v, ws).status == v.status
    ensures ApplyAll(v, ws).lastUpdate == v.lastUpdate
    ensures Read(ApplyAll(v, ws), slot) ==
            if LastWrite(ws, slot).Some? then LastWrite(ws, slot) else Read(v, slot)
  {
    if ws != [] {
      LastWriteWins(v, ws[..|ws| - 1], slot);
    }
  }

  /** A message that reports no change changed nothing; one that reports a change leaves a known field. */
  lemma {:induction false} ChangeIsVisible(v: AisVessel, ws: seq<Write>)
    ensures !AnyChange(v, ws) ==> ApplyAll(v, ws) == v
    ensures AnyChange(v, ws) ==> !Blank(ApplyAll(v, ws))
    ensures !Blank(v) ==> !Blank(ApplyAll(v, ws))
  {
    if ws != [] {
      ChangeIsVisible(v, ws[..|ws| - 1]);
      var w := ws[|ws| - 1];
      assert Read(ApplyAll(v, ws), w.slot) == Some(w.value);
      if Read(ApplyAll(v, ws[..|ws| - 1]), w.slot) == Some(w.value) {
        AssignSame(ApplyAll(v, ws[..|ws| - 1]), w);
      }
    }
  }

  /** What a message leaves as it was, and that a message reporting no change is invisible to clients. */
  lemma UnchangedForClients(v: AisVessel, now: Time, ws: seq<Write>)
    ensures var before := v.(lastUpdate := now);
            var after := ApplyAll(before, ws);
            && after.mmsi == v.mmsi && after.status == v.status && after.lastUpdate == now
            && (!AnyChange(before, ws) ==> Api(after) == Api(v) && (Blank(v) ==> Blank(after)))
  {
    var before := v.(lastUpdate := now);
    LastWriteWins(before, ws, CogSlot);
    ChangeIsVisible(before, ws);
    forall slot ensures Read(before, slot) == Read(v, slot) { }
  }

  /** Some write of the list is later overwritten by a different value. */
  predicate Contradicts(ws: seq<Write>) {
    exists i :: 0 <= i < |ws| && LastWrite(ws, ws[i].slot) != Some(ws[i].value)
  }

  /**
   Receiving the same message a second time leaves the vessel as it is, and the
   second time reports a change exactly when the message contradicts itself.
   */
  lemma RepeatedMessage(v: AisVessel, ws: seq<Write>)
    ensures ApplyAll(ApplyAll(v, ws), ws) == ApplyAll(v, ws)
    ensures AnyChange(ApplyAll(v, ws), ws) <==> Contradicts(ws)
  {
    var u := ApplyAll(v, ws);
    forall slot ensures Read(ApplyAll(u, ws), slot) == Read(u, slot) {
      LastWriteWins(v, ws, slot);
      LastWriteWins(u, ws, slot);
    }
    LastWriteWins(u, ws, CogSlot);
    SameSlotsSameVessel(ApplyAll(u, ws), u);
    if Contradicts(ws) {
      var i :| 0 <= i < |ws| && LastWrite(ws, ws[i].slot) != Some(ws[i].value);
      LastWriteWins(v, ws, ws[i].slot);
      LastWriteExists(ws, i);
      if !AnyChange(u, ws) {
        NoChangeMeansAgreement(u, ws, i);
        assert false;
      }
    } else {
      forall i | 0 <= i < |ws| ensures Read(u, ws[i].slot) == Some(ws[i].value) {
        LastWriteWins(v, ws, ws[i].slot);
      }
      AgreementMeansNoChange(u, ws);
    }
  }

  lemma {:induction false} LastWriteExists(ws: seq<Write>, i: nat)
    requires i < |ws|
    ensures LastWrite(ws, ws[i].slot).Some?
  {
    if i < |ws| - 1 {
      LastWriteExists(ws[..|ws| - 1], i);
    }
  }

  lemma {:induction false} NoChangeMeansAgreement(v: AisVessel, ws: seq<Write>, i: nat)
    requires !AnyChange(v, ws) && i < |ws|
    ensures Read(v, ws[i].slot) == Some(ws[i].value)
  {
    var front := ws[..|ws| - 1];
    ChangeIsVisible(v, front);
    if i < |ws| - 1 {
      NoChangeMeansAgreement(v, front, i);
    }
  }

  lemma {:induction false} AgreementMeansNoChange(v: AisVessel, ws: seq<Write>)
    requires forall i :: 0 <= i < |ws| ==> Read(v, ws[i].slot) == Some(ws[i].value)
    ensures !AnyChange(v, ws)
  {
    if ws != [] {
      var front := ws[..|ws| - 1];
      forall i | 0 <= i < |front| ensures Read(v, front[i].slot) == Some(front[i].value) {
        assert front[i] == ws[i];
      }
      AgreementMeansNoChange(v, front);
      ChangeIsVisible(v, front);
    }
  }

  // ----- What a message does, in its own terms

  lemma {:induction false} WritesOfMore(a: seq<Json>, b: seq<Json>)
    ensures WritesOfValues(a + b) == WritesOfValues(a) + WritesOfValues(b)
  {
    hide DecodeEntry;
    if b == [] {
      assert a + b == a;
    } else {
      WritesOfMore(a, b[..|b| - 1]);
      assert (a + b)[..|a + b| - 1] == a + b[..|b| - 1];
    }
  }

  lemma {:induction false} WritesOfEntries(updates: seq<Json>)
    ensures WritesOfUpdates(updates) == WritesOfValues(EntriesOf(updates))
  {
    hide WritesOfValues;
    if updates == [] {
      NothingWritten();
    } else {
      var front, last := updates[..|updates| - 1], updates[|updates| - 1];
      WritesOfEntries(front);
      WritesOfMore(EntriesOf(front), ValuesOf(last));
    }
  }

  lemma NothingWritten()
    ensures WritesOfValues([]) == []
  {
  }

  /** A slot's last write is the last thing that an entry tells for it. */
  function LastTold(es: seq<Json>, slot: Slot): Option<Field> {
    if es == [] then None
    else if ToldFor(es[|es| - 1], slot).Some? then ToldFor(es[|es| - 1], slot)
    else LastTold(es[..|es| - 1], slot)
  }

  lemma {:induction false} LastWriteIsTold(es: seq<Json>, slot: Slot)
    ensures LastWrite(WritesOfValues(es), slot) == LastTold(es, slot)
  {
    hide DecodeEntry, ToldFor;
    if es != [] {
      var front, last := es[..|es| - 1], es[|es| - 1];
      LastWriteIsTold(front, slot);
      DecodeMeans(last, slot);
      var ws := WritesOfValues(front);
      if DecodeEntry(last).Some? {
        assert (ws + [DecodeEntry(last).value])[..|ws|] == ws;
      } else {
        assert WritesOfValues(es) == ws;
      }
    }
  }

  predicate IsQuantity(slot: Slot) {
    slot != NameSlot && slot != PositionSlot
  }

  lemma {:induction false} LastNumberIsTold(es: seq<Json>, slot: Slot, held: Option<real>)
    requires IsQuantity(slot)
    ensures MapQuantity(LastNumber(es, PathOf(slot), PartOf(slot), held)) ==
            if LastTold(es, slot).Some? then LastTold(es, slot) else MapQuantity(held)
  {
    hide PathOf, NumberUnder;
    if es != [] {
      LastNumberIsTold(es[..|es| - 1], slot, held);
    }
  }

  lemma {:induction false} LastNameAndPlaceTold(es: seq<Json>, v: AisVessel)
    ensures Read(v.(name := LastName(es, v.name)), NameSlot) ==
            if LastTold(es, NameSlot).Some? then LastTold(es, NameSlot) else Read(v, NameSlot)
    ensures Read(v.(position := LastPosition(es, v.position)), PositionSlot) ==
            if LastTold(es, PositionSlot).Some? then LastTold(es, PositionSlot) else Read(v, PositionSlot)
  {
    hide NameUnder, PositionUnder;
    if es != [] {
      LastNameAndPlaceTold(es[..|es| - 1], v);
    }
  }

  /** A field of the vessel after some entries is the last number under its path. */
  lemma QuantityIsTold(v: AisVessel, es: seq<Json>, slot: Slot, held: Option<real>)
    requires IsQuantity(slot) && Read(v, slot) == MapQuantity(held)
    ensures Read(ApplyAll(v, WritesOfValues(es)), slot) ==
            MapQuantity(LastNumber(es, PathOf(slot), PartOf(slot), held))
  {
    hide WritesOfValues, LastNumber, Read, PathOf;
    LastWriteWins(v, WritesOfValues(es), slot);
    LastWriteIsTold(es, slot);
    LastNumberIsTold(es, slot, held);
  }

  /** Each field is what its own path was last told, and nothing else is touched. */
  lemma FieldsAreTold(v: AisVessel, es: seq<Json>)
    ensures IsToldBy(v, es, ApplyAll(v, WritesOfValues(es)))
    ensures ApplyAll(v, WritesOfValues(es)).lastUpdate == v.lastUpdate
  {
    hide WritesOfValues, LastName, LastPosition, ApplyAll, LastTold, CourseIsToldBy, SizeIsToldBy;
    CourseIsTold(v, es);
    SizeIsTold(v, es);
    LastNameAndPlaceTold(es, v);
    LastWriteIsTold(es, NameSlot);
    LastWriteIsTold(es, PositionSlot);
    LastWriteWins(v, WritesOfValues(es), NameSlot);
    LastWriteWins(v, WritesOfValues(es), PositionSlot);
  }

  lemma CourseIsTold(v: AisVessel, es: seq<Json>)
    ensures CourseIsToldBy(v, es, ApplyAll(v, WritesOfValues(es)))
  {
    hide WritesOfValues, LastNumber, ApplyAll, PathOf;
    CoursePaths();
    QuantityIsTold(v, es, HeadingSlot, v.heading);
    QuantityIsTold(v, es, CogSlot, v.cog);
    QuantityIsTold(v, es, SogSlot, v.sog);
  }

  lemma SizeIsTold(v: AisVessel, es: seq<Json>)
    ensures SizeIsToldBy(v.dimensions, es, ApplyAll(v, WritesOfValues(es)).dimensions)
  {
    hide WritesOfValues, LastNumber, ApplyAll, PathOf;
    OtherPaths();
    QuantityIsTold(v, es, LengthSlot, v.dimensions.length);
    QuantityIsTold(v, es, BeamSlot, v.dimensions.beam);
    QuantityIsTold(v, es, FromBowSlot, v.dimensions.fromBow);
    QuantityIsTold(v, es, FromCenterSlot, v.dimensions.fromCenter);
  }

  /** Some write is not what the vessel held before them all. */
  lemma ChangeIsDifference(v: AisVessel, ws: seq<Write>)
    ensures AnyChange(v, ws) <==> exists i :: 0 <= i < |ws| && Read(v, ws[i].slot) != Some(ws[i].value)
  {
    if AnyChange(v, ws) {
      if forall i :: 0 <= i < |ws| ==> Read(v, ws[i].slot) == Some(ws[i].value) {
        AgreementMeansNoChange(v, ws);
      }
    } else {
      forall i | 0 <= i < |ws| ensures Read(v, ws[i].slot) == Some(ws[i].value) {
        NoChangeMeansAgreement(v, ws, i);
      }
    }
  }

  lemma {:induction false} WritesAreDecoded(es: seq<Json>, w: Write)
    ensures w in WritesOfValues(es) <==> exists k :: 0 <= k < |es| && DecodeEntry(es[k]) == Some(w)
  {
    hide DecodeEntry;
    if es != [] {
      WritesAreDecoded(es[..|es| - 1], w);
      forall k | 0 <= k < |es| - 1 ensures es[..|es| - 1][k] == es[k] { }
    }
  }

  lemma NewsIsDifference(v: AisVessel, entry: Json)
    ensures IsNews(v, entry) <==>
            DecodeEntry(entry).Some? && Read(v, DecodeEntry(entry).value.slot) != Some(DecodeEntry(entry).value.value)
  {
    hide DecodeEntry, NumberUnder, NameUnder, PositionUnder;
    forall slot
      ensures ToldFor(entry, slot) == if DecodeEntry(entry).Some? && DecodeEntry(entry).value.slot == slot
                                      then Some(DecodeEntry(entry).value.value) else None
    {
      DecodeMeans(entry, slot);
    }
    NewsDiffers(v, entry);
    hide IsNews, Read, ToldFor;
    if DecodeEntry(entry).Some? {
      assert Differs(v, entry, DecodeEntry(entry).value.slot) <==>
             Read(v, DecodeEntry(entry).value.slot) != Some(DecodeEntry(entry).value.value);
    }
  }

  /** What an entry tells for a slot is not what the vessel holds there. */
  predicate Differs(v: AisVessel, entry: Json, slot: Slot) {
    ToldFor(entry, slot).Some? && ToldFor(entry, slot) != Read(v, slot)
  }

  lemma QuantityDiffers(v: AisVessel, entry: Json, slot: Slot, held: Option<real>)
    requires IsQuantity(slot) && Read(v, slot) == MapQuantity(held)
    ensures Differs(v, entry, slot) <==> IsNewNumber(entry, PathOf(slot), PartOf(slot), held)
  {
    hide NumberUnder, PathOf;
  }

  lemma NameAndPlaceDiffer(v: AisVessel, entry: Json)
    ensures Differs(v, entry, NameSlot) <==> NameUnder(entry).Some? && NameUnder(entry) != v.name
    ensures Differs(v, entry, PositionSlot) <==> PositionUnder(entry).Some? && PositionUnder(entry) != v.position
  {
    hide NameUnder, PositionUnder;
  }

  lemma NewsDiffers(v: AisVessel, entry: Json)
    ensures IsNews(v, entry) <==> exists slot :: Differs(v, entry, slot)
  {
    hide NameUnder, PositionUnder, Differs, IsCourseNews, IsSizeNews;
    NameAndPlaceDiffer(v, entry);
    CourseDiffers(v, entry);
    SizeDiffers(v, entry);
    if slot :| Differs(v, entry, slot) {
      match slot
      case NameSlot => case PositionSlot => case HeadingSlot => case CogSlot => case SogSlot =>
      case LengthSlot => case BeamSlot => case FromBowSlot => case FromCenterSlot =>
    }
  }

  lemma CourseDiffers(v: AisVessel, entry: Json)
    ensures IsCourseNews(v, entry) <==>
            Differs(v, entry, HeadingSlot) || Differs(v, entry, CogSlot) || Differs(v, entry, SogSlot)
  {
    hide Differs, IsNewNumber, PathOf;
    CoursePaths();
    QuantityDiffers(v, entry, HeadingSlot, v.heading);
    QuantityDiffers(v, entry, CogSlot, v.cog);
    QuantityDiffers(v, entry, SogSlot, v.sog);
  }

  lemma SizeDiffers(v: AisVessel, entry: Json)
    ensures IsSizeNews(v.dimensions, entry) <==>
            || Differs(v, entry, LengthSlot) || Differs(v, entry, BeamSlot)
            || Differs(v, entry, FromBowSlot) || Differs(v, entry, FromCenterSlot)
  {
    hide Differs, IsNewNumber, PathOf;
    OtherPaths();
    QuantityDiffers(v, entry, LengthSlot, v.dimensions.length);
    QuantityDiffers(v, entry, BeamSlot, v.dimensions.beam);
    QuantityDiffers(v, entry, FromBowSlot, v.dimensions.fromBow);
    QuantityDiffers(v, entry, FromCenterSlot, v.dimensions.fromCenter);
  }

  /** A change is reported exactly when some entry says what the vessel did not hold before the message. */
  lemma ChangeIsNews(v: AisVessel, es: seq<Json>)
    ensures AnyChange(v, WritesOfValues(es)) <==> SomeNews(v, es)
  {
    hide DecodeEntry, WritesOfValues, IsNews, AnyChange, Read;
    var ws := WritesOfValues(es);
    ChangeIsDifference(v, ws);
    if i :| 0 <= i < |ws| && Read(v, ws[i].slot) != Some(ws[i].value) {
      assert ws[i] in ws;
      WritesAreDecoded(es, ws[i]);
      var k :| 0 <= k < |es| && DecodeEntry(es[k]) == Some(ws[i]);
      NewsIsDifference(v, es[k]);
    }
    if k :| 0 <= k < |es| && IsNews(v, es[k]) {
      NewsIsDifference(v, es[k]);
      WritesAreDecoded(es, DecodeEntry(es[k]).value);
    }
  }

  /** What a whole message does to a vessel, and when it reports a change. */
  lemma MessageTells(v: AisVessel, message: Json, now: Time)
    ensures var after := ApplyAll(v.(lastUpdate := now), WritesOf(message));
            IsToldBy(v, Entries(message), after) && after.lastUpdate == now
    ensures AnyChange(v.(lastUpdate := now), WritesOf(message)) <==> SomeNews(v, Entries(message))
  {
    hide WritesOfValues, ApplyAll, AnyChange, EntriesOf, WritesOfUpdates, IsNews, LastNumber, LastName, LastPosition;
    var start, es := v.(lastUpdate := now), Entries(message);
    if message.Array? {
      WritesOfEntries(message.items);
    } else {
      NothingWritten();
    }
    FieldsAreTold(start, es);
    ChangeIsNews(start, es);
    forall k | 0 <= k < |es| ensures IsNews(start, es[k]) <==> IsNews(v, es[k]) {
      NewsIgnoresTime(v, es[k], now);
    }
  }

  lemma NewsIgnoresTime(v: AisVessel, entry: Json, now: Time)
    ensures IsNews(v.(lastUpdate := now), entry) <==> IsNews(v, entry)
  {
    hide NumberUnder, NameUnder, PositionUnder;
  }

  /** What clients are shown after a message: each field under its own name, and no dimensions without any. */
  lemma ClientsSee(v: AisVessel, message: Json, now: Time)
    ensures var api, es := Api(ApplyAll(v.(lastUpdate := now), WritesOf(message))), Entries(message);
            && api.mmsi == v.mmsi && api.status == v.status
            && api.name == LastName(es, v.name) && api.position == LastPosition(es, v.position)
            && api.heading == LastNumber(es, "navigation.headingTrue", None, v.heading)
            && api.cog == LastNumber(es, "navigation.courseOverGroundTrue", None, v.cog)
            && api.sog == LastNumber(es, "navigation.speedOverGround", None, v.sog)
            && var length := LastNumber(es, "design.length", Some("overall"), v.dimensions.length);
               var beam := LastNumber(es, "design.beam", None, v.dimensions.beam);
               var fromBow := LastNumber(es, "sensors.ais.fromBow", None, v.dimensions.fromBow);
               var fromCenter := LastNumber(es, "sensors.ais.fromCenter", None, v.dimensions.fromCenter);
               if length.None? && beam.None? && fromBow.None? && fromCenter.None? then api.dimensions.None?
               else api.dimensions == Some(Dimensions(length, beam, fromBow, fromCenter))
  {
    hide LastNumber, LastName, LastPosition, ApplyAll, WritesOf, Entries;
    MessageTells(v, message, now);
  }

  /** The entry that tells a write. */
  function EntryOf(w: Write): Json {
    match w.slot
    case NameSlot => Object(map["path" := String(""), "value" := Object(map["name" := String(w.value.text)])])
    case PositionSlot =>
      Object(map["path" := String("navigation.position"),
                 "value" := Object(map["latitude" := Number(w.value.place.latitude),
                                       "longitude" := Number(w.value.place.longitude)])])
    case LengthSlot =>
      Object(map["path" := String("design.length"), "value" := Object(map["overall" := Number(w.value.q)])])
    case _ => Object(map["path" := String(PathOf(w.slot)), "value" := Number(w.value.q)])
  }

  /** Every write can be told, and is decoded as it was told. */
  lemma EntryRoundTrip(w: Write)
    ensures DecodeEntry(EntryOf(w)) == Some(w)
  {
    hide DecodeAt, PathOf;
    EntryTells(w);
    DecodeMeans(EntryOf(w), w.slot);
  }

  lemma EntryTells(w: Write)
    ensures ToldFor(EntryOf(w), w.slot) == Some(w.value)
  {
    assert "latitude" != "longitude" && "path" != "value";
  }

  /** What clients are sent determines every field of the vessel except its time. */
  lemma ApiIsFaithful(v: AisVessel, w: AisVessel)
    requires Api(v) == Api(w)
    ensures v.(lastUpdate := w.lastUpdate) == w
  {
    if v.dimensions.HasAny() {
      assert w.dimensions.HasAny();
    } else {
      assert !w.dimensions.HasAny();
      assert v.dimensions == Dimensions(None, None, None, None) == w.dimensions;
    }
  }
}
