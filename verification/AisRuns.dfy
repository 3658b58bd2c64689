/**
 Runs of the AIS protocol built step by step: one that shows an update being
 dropped, and one from every reachable state that brings clients and store into
 agreement.
 */
module AisRuns {
  import opened Options
  import opened Json
  import opened AisVessel
  import opened AisStore
  import opened AisProtocol

  function Last(run: Run): State
    requires run.states != []
  {
    run.states[|run.states| - 1]
  }

  function Extended(run: Run, a: Action): Run
    requires run.states != []
  {
    Run(run.states + [Step(Last(run), a)], run.actions + [a])
  }

  lemma ExtendedIsValid(run: Run, a: Action)
    requires run.Valid() && Enabled(Last(run), a)
    ensures Extended(run, a).Valid() && Last(Extended(run, a)) == Step(Last(run), a)
  {
    hide Step, Enabled;
    var longer := Extended(run, a);
    forall i | 0 <= i < |longer.actions| ensures longer.ValidAt(i) {
      if i < |run.actions| {
        assert run.ValidAt(i);
      }
    }
  }

  const NOTHING: State := State(map[], map[], [], 0, NoUpdate, FlushIdle, CheckIdle)

  // ----- An update that is dropped

  /** The first message about a vessel tells a change as soon as it writes anything. */
  lemma FirstWriteChanges(v: AisVessel, ws: seq<Write>)
    requires Blank(v) && ws != []
    ensures AnyChange(v, ws)
  {
    var slot := ws[|ws| - 1].slot;
    LastWriteWins(v, ws, slot);
    ChangeIsVisible(v, ws);
    assert Read(v, slot).None?;
  }

  /** The steps of the run below. */
  function DroppingActions(context: string, m: string, message: Json): seq<Action> {
    [Update(context, Null), Tick(AIS_TIMEOUT + 1), CheckStart, CheckCollect([m]), Update(context, message),
     Schedule, CheckDrop]
  }

  /**
   A vessel has been silent for 180 s and a timeout check has found it. An
   update arrives before the check drops what it found. The vessel is reported
   lost, what the update wrote is gone from the store, and the broadcast it
   scheduled has no vessel left to send.
   */
  lemma LateUpdateIsDropped(context: string, m: string, message: Json) returns (run: Run)
    requires ExtractMmsi(context) == Some(m) && WritesOf(message) != []
    ensures run.Valid() && run.actions == DroppingActions(context, m, message)
    ensures TouchedBetween(run, 3, 6, m) && !Silent(run.states[6], m, AIS_TIMEOUT + 1)
    ensures m in run.states[6].vessels && run.states[6].vessels[m].lastUpdate == run.states[6].clock
    ensures forall slot :: LastWrite(WritesOf(message), slot).Some? ==>
              Read(run.states[6].vessels[m], slot) == LastWrite(WritesOf(message), slot)
    ensures ReportedAt(run, 6, m) && m !in run.states[7].vessels && m in run.states[7].pending
  {
    hide Api, ExtractMmsi, WritesOf, Step, Enabled, Silent, ReportedAt;
    run := FindSilent(context, m);
    run := UpdateAndDrop(run, context, m, message, NewVessel(m, 0), AIS_TIMEOUT + 1);
    assert Touches(run.actions[4], m);
    LostVesselWasSilent(run, 3, 6, m);
  }

  /** The first half: a vessel falls silent and a check finds it. */
  lemma FindSilent(context: string, m: string) returns (run: Run)
    requires ExtractMmsi(context) == Some(m)
    ensures run.Valid() && run.actions == [Update(context, Null), Tick(AIS_TIMEOUT + 1), CheckStart, CheckCollect([m])]
    ensures Last(run) ==
            State(map[m := NewVessel(m, 0)], map[], [], AIS_TIMEOUT + 1, NoUpdate, FlushIdle, CheckFound([m]))
    ensures run.states[3].checker == CheckStarted(AIS_TIMEOUT + 1)
  {
    hide Api, ExtractMmsi, WritesOf;
    var late, quiet := AIS_TIMEOUT + 1, NewVessel(m, 0);
    run := Run([NOTHING], []);
    run := Then(run, Update(context, Null));
    NullWritesNothing();
    assert Last(run) == NOTHING.(vessels := map[m := quiet]);
    run := Then(run, Tick(late));
    run := Then(run, CheckStart);
    assert Enumerates([m], TimedOut(map[m := quiet], late));
    run := Then(run, CheckCollect([m]));
  }

  lemma NullWritesNothing()
    ensures WritesOf(Null) == []
  {
  }

  lemma Then(run: Run, a: Action) returns (longer: Run)
    requires run.Valid() && Enabled(Last(run), a)
    ensures longer == Extended(run, a) && longer.Valid() && Last(longer) == Step(Last(run), a)
  {
    longer := Extended(run, a);
    ExtendedIsValid(run, a);
  }

  /** The second half: the late update and the drop. */
  lemma UpdateAndDrop(run: Run, context: string, m: string, message: Json, quiet: AisVessel, late: Time)
    returns (longer: Run)
    requires run.Valid() && |run.actions| == 4 && ExtractMmsi(context) == Some(m) && WritesOf(message) != []
    requires quiet == NewVessel(m, 0)
    requires Last(run) == State(map[m := quiet], map[], [], late, NoUpdate, FlushIdle, CheckFound([m]))
    ensures longer.Valid() && longer.actions == run.actions + [Update(context, message), Schedule, CheckDrop]
    ensures run.states <= longer.states
    ensures m in longer.states[6].vessels && longer.states[6].vessels[m].lastUpdate == longer.states[6].clock == late
    ensures forall slot :: LastWrite(WritesOf(message), slot).Some? ==>
              Read(longer.states[6].vessels[m], slot) == LastWrite(WritesOf(message), slot)
    ensures m !in longer.states[7].vessels && m in longer.states[7].pending
  {
    hide Api, ExtractMmsi, WritesOf, ApplyAll, AnyChange;
    var ws, known := WritesOf(message), quiet.(lastUpdate := late);
    assert Blank(known) by { NewVesselIsBlank(m, late); }
    FirstWriteChanges(known, ws);
    longer := Then(run, Update(context, message));
    var told := ApplyAll(known, ws);
    assert Last(longer).vessels == map[m := told] && Last(longer).updater == Scheduling(m);
    forall slot
      ensures told.lastUpdate == late
      ensures LastWrite(ws, slot).Some? ==> Read(told, slot) == LastWrite(ws, slot)
    {
      LastWriteWins(known, ws, slot);
    }
    LastWriteWins(known, ws, CogSlot);
    longer := Then(longer, Schedule);
    longer := Then(longer, CheckDrop);
  }

  /** There is such a run: a vessel whose course arrives too late. */
  lemma SomeUpdateIsDropped()
    ensures exists run: Run, m: string :: run.Valid() && |run.actions| == 7 && ReportedAt(run, 6, m)
              && TouchedBetween(run, 3, 6, m) && m in run.states[6].vessels && m !in run.states[7].vessels
  {
    hide TouchedBetween, ReportedAt;
    var entry := Object(map["path" := String("navigation.courseOverGroundTrue"), "value" := Number(1.0)]);
    var message := Array([Object(map["values" := Array([entry])])]);
    OneWrite(entry, message);
    SevenIsNamed();
    var run := LateUpdateIsDropped("mmsi:7", "7", message);
  }

  lemma SevenIsNamed()
    ensures ExtractMmsi("mmsi:7") == Some("7")
  {
    assert "mmsi:7"[5..] == "7" && "7"[1..] == "";
    assert TakeDigits("") == "";
    assert TakeDigits("7") == "7";
  }

  lemma OneWrite(entry: Json, message: Json)
    requires entry == Object(map["path" := String("navigation.courseOverGroundTrue"), "value" := Number(1.0)])
    requires message == Array([Object(map["values" := Array([entry])])])
    ensures WritesOf(message) != []
  {
    assert DecodeEntry(entry).Some?;
    assert WritesOfValues([entry]) == WritesOfValues([]) + [DecodeEntry(entry).value];
    var update := Object(map["values" := Array([entry])]);
    assert ValuesOf(update) == [entry];
    assert WritesOfUpdates([update]) == WritesOfUpdates([]) + WritesOfValues(ValuesOf(update));
  }

  // ----- Agreement is always within reach

  /** Nothing is on its way to clients. */
  ghost predicate Quiet(s: State) {
    s.updater == NoUpdate && s.flusher == FlushIdle && s.pending == map[]
  }

  /** Steps that bring no news and drop no vessel. */
  predicate NoNews(a: Action) {
    a.Tick? || a.Schedule? || a.FlushStart? || a.FlushCollect? || a.FlushRemove? || a.FlushBroadcast?
  }

  ghost predicate Continues(run: Run, longer: Run) {
    run.actions <= longer.actions && forall i :: |run.actions| <= i < |longer.actions| ==> NoNews(longer.actions[i])
  }

  lemma {:induction false} EnumerationExists(s: set<string>) returns (keys: seq<string>)
    ensures Enumerates(keys, s)
  {
    if s == {} {
      keys := [];
    } else {
      var m :| m in s;
      var rest := EnumerationExists(s - {m});
      keys := rest + [m];
    }
  }

  /** How far the tasks are from rest, a started flush counting its remaining steps. */
  function Remaining(s: State): nat {
    (if s.updater.Scheduling? then 1 else 0) +
    match s.flusher
    case FlushIdle => 0
    case FlushStarted(_) => 3
    case FlushCollected(_, _) => 2
    case FlushRemoved(_, _) => 1
  }

  /** Lets an update in progress and a started flush come to their end. */
  lemma {:induction false} ComesToRest(run: Run) returns (longer: Run)
    requires run.Valid()
    ensures longer.Valid() && Continues(run, longer)
    ensures Last(longer).vessels == Last(run).vessels
    ensures Last(longer).updater == NoUpdate && Last(longer).flusher == FlushIdle
    decreases Remaining(Last(run))
  {
    var s := Last(run);
    if Remaining(s) == 0 {
      longer := run;
    } else {
      var a;
      if s.updater.Scheduling? {
        a := Schedule;
      } else if s.flusher.FlushStarted? {
        var keys := EnumerationExists(Due(s.pending, s.flusher.now));
        a := FlushCollect(keys);
      } else {
        a := if s.flusher.FlushCollected? then FlushRemove else FlushBroadcast;
      }
      longer := Then(run, a);
      longer := ComesToRest(longer);
    }
  }

  /** From rest, one flush that begins 100 ms later takes everything that was pending. */
  lemma FlushesAll(run: Run) returns (longer: Run)
    requires run.Valid() && Last(run).updater == NoUpdate && Last(run).flusher == FlushIdle
    ensures longer.Valid() && Continues(run, longer)
    ensures Last(longer).vessels == Last(run).vessels && Quiet(Last(longer))
  {
    var s := Last(run);
    if s.pending == map[] {
      longer := run;
    } else {
      hide Api;
      Reachable(run, |run.states| - 1);
      var keys := EnumerationExists(s.pending.Keys);
      longer := Then(run, Tick(s.clock + BROADCAST_DELAY));
      longer := Then(longer, FlushStart);
      assert Due(Last(longer).pending, Last(longer).flusher.now) == s.pending.Keys;
      longer := Then(longer, FlushCollect(keys));
      assert keys != [];
      longer := Then(longer, FlushRemove);
      assert Last(longer).pending == map[];
      longer := Then(longer, FlushBroadcast);
    }
  }

  /**
   Every run can be continued, without another update or timeout, to a state in
   which nothing is on its way and clients agree with the store as it now is.
   */
  lemma Settles(run: Run) returns (longer: Run)
    requires run.Valid()
    ensures longer.Valid() && Continues(run, longer)
    ensures Last(longer).vessels == Last(run).vessels && Quiet(Last(longer))
    ensures forall m :: m in Last(run).vessels && !Blank(Last(run).vessels[m]) ==>
              m in View(Last(longer).sent) && View(Last(longer).sent)[m] == Api(Last(run).vessels[m])
  {
    hide Api, Blank, View;
    longer := ComesToRest(run);
    longer := FlushesAll(longer);
    forall m | m in Last(run).vessels && !Blank(Last(run).vessels[m])
      ensures m in View(Last(longer).sent) && View(Last(longer).sent)[m] == Api(Last(run).vessels[m])
    {
      NoLostUpdate(longer, |longer.states| - 1, m);
    }
  }
}
