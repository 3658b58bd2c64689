/**
 The AIS store under concurrency: every interleaving of updates, the flushing
 task and the timeout task, one critical section at a time.

 The vessels lock is held by an update from the moment it touches a field until
 it has scheduled the broadcast, so a step that needs that lock waits, while the
 flusher's work on the pending map alone does not. Clients are modelled by the
 fold of every message sent.
 */
module AisProtocol {
  import opened Options
  import opened Json
  import opened AisVessel
  import opened AisStore

  /** An update that has changed a vessel and still holds the vessels lock. */
  datatype Updater = NoUpdate | Scheduling(mmsi: string)

  /** The flushing task; `now` is the clock it read when the flush began. */
  datatype Flusher =
    | FlushIdle
    | FlushStarted(now: Time)
    | FlushCollected(now: Time, keys: seq<string>)
    | FlushRemoved(now: Time, keys: seq<string>)

  /** The timeout task. */
  datatype Checker = CheckIdle | CheckStarted(now: Time) | CheckFound(keys: seq<string>)

  datatype State = State(
    vessels: Vessels, pending: Pending, sent: seq<Delta>, clock: Time,
    updater: Updater, flusher: Flusher, checker: Checker)

  datatype Action =
    | Tick(to: Time)
    | Update(context: string, message: Json)
    | Schedule
    | FlushStart
    | FlushCollect(keys: seq<string>)
    | FlushRemove
    | FlushBroadcast
    | CheckStart
    | CheckCollect(keys: seq<string>)
    | CheckDrop

  ghost predicate Init(s: State) {
    && s.vessels == map[] && s.pending == map[] && s.sent == []
    && s.updater == NoUpdate && s.flusher == FlushIdle && s.checker == CheckIdle
  }

  ghost predicate Enabled(s: State, a: Action) {
    match a
    case Tick(to) => s.clock <= to
    case Update(_, _) => s.updater == NoUpdate
    case Schedule => s.updater.Scheduling?
    case FlushStart => s.flusher == FlushIdle
    case FlushCollect(keys) => s.flusher.FlushStarted? && Enumerates(keys, Due(s.pending, s.flusher.now))
    case FlushRemove => s.flusher.FlushCollected?
    case FlushBroadcast => s.flusher.FlushRemoved? && s.updater == NoUpdate
    case CheckStart => s.checker == CheckIdle
    case CheckCollect(keys) =>
      && s.checker.CheckStarted? && s.updater == NoUpdate
      && Enumerates(keys, TimedOut(s.vessels, s.checker.now))
    case CheckDrop => s.checker.CheckFound? && s.updater == NoUpdate
  }

  function Step(s: State, a: Action): State {
    match a
    case Tick(to) => s.(clock := to)
    case Update(context, message) =>
      (match ExtractMmsi(context)
       case None => s
       case Some(m) =>
         s.(vessels := s.vessels[m := UpdatedVessel(s.vessels, m, message, s.clock)],
            updater := if UpdateChanges(s.vessels, m, message, s.clock) then Scheduling(m) else NoUpdate))
    case Schedule =>
      if s.updater.NoUpdate? then s
      else s.(pending := Scheduled(s.pending, s.updater.mmsi, s.clock), updater := NoUpdate)
    case FlushStart => s.(flusher := FlushStarted(s.clock))
    case FlushCollect(keys) =>
      if !s.flusher.FlushStarted? || keys == [] then s.(flusher := FlushIdle)
      else s.(flusher := FlushCollected(s.flusher.now, keys))
    case FlushRemove =>
      if !s.flusher.FlushCollected? then s
      else s.(pending := Without(s.pending, s.flusher.keys),
              flusher := FlushRemoved(s.flusher.now, s.flusher.keys))
    case FlushBroadcast =>
      if !s.flusher.FlushRemoved? then s
      else s.(sent := s.sent + Broadcasts(s.vessels, s.flusher.keys), flusher := FlushIdle)
    case CheckStart => s.(checker := CheckStarted(s.clock))
    case CheckCollect(keys) => s.(checker := if keys == [] then CheckIdle else CheckFound(keys))
    case CheckDrop =>
      if !s.checker.CheckFound? then s
      else
        s.(vessels := Without(s.vessels, s.checker.keys),
           sent := s.sent + Broadcasts(LostVessels(s.vessels, s.checker.keys), s.checker.keys),
           checker := CheckIdle)
  }

  /** A run: states[i] becomes states[i + 1] by actions[i]. */
  datatype Run = Run(states: seq<State>, actions: seq<Action>)
  {
    ghost predicate Valid() {
      && |states| == |actions| + 1
      && Init(states[0])
      && forall i :: 0 <= i < |actions| ==> ValidAt(i)
    }

    ghost predicate ValidAt(i: int)
      requires 0 <= i < |actions| < |states|
    {
      Enabled(states[i], actions[i]) && states[i + 1] == Step(states[i], actions[i])
    }
  }

  // ----- What clients know

  function View(sent: seq<Delta>): map<string, VesselApi> {
    if sent == [] then map[] else View(sent[..|sent| - 1])[sent[|sent| - 1].mmsi := sent[|sent| - 1].api]
  }

  lemma {:induction false} ViewAppend(sent: seq<Delta>, more: seq<Delta>)
    ensures View(sent + more) == View(sent) + View(more)
  {
    if more == [] {
      assert sent + more == sent;
    } else {
      ViewAppend(sent, more[..|more| - 1]);
      assert (sent + more)[..|sent + more| - 1] == sent + more[..|more| - 1];
    }
  }

  ghost predicate KeyedByMmsi(vessels: Vessels) {
    forall m :: m in vessels ==> vessels[m].mmsi == m
  }

  /** Broadcasting a list of vessels tells clients about exactly the stored ones. */
  lemma {:induction false} ViewOfBroadcasts(vessels: Vessels, keys: seq<string>)
    requires KeyedByMmsi(vessels)
    ensures forall m :: m in View(Broadcasts(vessels, keys)) <==> m in vessels && m in keys
    ensures forall m :: m in vessels && m in keys ==> View(Broadcasts(vessels, keys))[m] == Api(vessels[m])
  {
    hide Api;
    if keys != [] {
      var front, last := keys[..|keys| - 1], keys[|keys| - 1];
      assert keys == front + [last];
      ViewOfBroadcasts(vessels, front);
      if last in vessels {
        ViewPush(Broadcasts(vessels, front), Delta(last, Api(vessels[last])));
      } else {
        assert Broadcasts(vessels, keys) == Broadcasts(vessels, front);
      }
    }
  }

  /** The clients' view after a batch: the batch where it speaks, the old view elsewhere. */
  lemma ViewAfter(sent: seq<Delta>, vessels: Vessels, keys: seq<string>)
    requires KeyedByMmsi(vessels)
    ensures var view := View(sent + Broadcasts(vessels, keys));
            forall m :: && (m in view <==> (m in vessels && m in keys) || m in View(sent))
                        && (m in view ==>
                              view[m] == if m in vessels && m in keys then Api(vessels[m]) else View(sent)[m])
  {
    ViewAppend(sent, Broadcasts(vessels, keys));
    ViewOfBroadcasts(vessels, keys);
  }

  lemma ViewPush(sent: seq<Delta>, d: Delta)
    ensures View(sent + [d]) == View(sent)[d.mmsi := d.api]
  {
    assert (sent + [d])[..|sent|] == sent;
  }

  // ----- Safety in every reachable state

  predicate InFlight(s: State, m: string) {
    s.flusher.FlushRemoved? && m in s.flusher.keys
  }

  /** Clients know the stored vessel as it is, or the news is on its way, or there is no news. */
  ghost predicate Accounted(s: State, m: string)
    requires m in s.vessels
  {
    || m in s.pending
    || InFlight(s, m)
    || s.updater == Scheduling(m)
    || (m in View(s.sent) && View(s.sent)[m] == Api(s.vessels[m]))
    || Blank(s.vessels[m])
  }

  ghost predicate StoredOk(s: State) {
    forall m :: m in s.vessels ==> s.vessels[m].status == Active && Accounted(s, m)
  }

  /** Clients hold as active only what is stored, and each vessel under its own name. */
  ghost predicate ViewOk(s: State) {
    && (forall m :: m in View(s.sent) && View(s.sent)[m].status == Active ==> m in s.vessels)
    && (forall m :: m in View(s.sent) ==> View(s.sent)[m].mmsi == m)
  }

  ghost predicate TasksOk(s: State) {
    && (forall m :: m in s.pending ==> s.pending[m] <= s.clock + BROADCAST_DELAY)
    && (s.updater.Scheduling? ==> s.updater.mmsi in s.vessels)
    && (!s.flusher.FlushIdle? ==> s.flusher.now <= s.clock)
    && (s.checker.CheckStarted? ==> s.checker.now <= s.clock)
  }

  ghost predicate Inv(s: State) {
    KeyedByMmsi(s.vessels) && StoredOk(s) && ViewOk(s) && TasksOk(s)
  }

  lemma InvUpdate(s: State, context: string, message: Json)
    requires Inv(s) && Enabled(s, Update(context, message))
    ensures Inv(Step(s, Update(context, message)))
  {
    hide View, Api, Accounted, UpdatedVessel, UpdateChanges;
    var s' := Step(s, Update(context, message));
    if ExtractMmsi(context).Some? {
      var m := ExtractMmsi(context).value;
      UpdatedIsAccounted(s, m, message);
      forall n | n in s'.vessels && n != m ensures Accounted(s', n) {
        OthersAccounted(s, s', n);
      }
    }
  }

  /** The vessel itself: unchanged for clients, or about to be scheduled. */
  lemma UpdatedIsAccounted(s: State, m: string, message: Json)
    requires KeyedByMmsi(s.vessels) && StoredOk(s) && s.updater == NoUpdate
    ensures var v := UpdatedVessel(s.vessels, m, message, s.clock);
            var changed := UpdateChanges(s.vessels, m, message, s.clock);
            && v.mmsi == m && v.status == Active
            && Accounted(s.(vessels := s.vessels[m := v], updater := if changed then Scheduling(m) else NoUpdate), m)
  {
    hide ApplyAll, AnyChange, Api, Blank, WritesOf, View;
    UnchangedForClients(Entry(s.vessels, m, s.clock), s.clock, WritesOf(message));
    NewVesselIsBlank(m, s.clock);
    if m in s.vessels {
      assert Accounted(s, m);
    }
  }

  lemma OthersAccounted(s: State, s': State, n: string)
    requires n in s.vessels && n in s'.vessels && s'.vessels[n] == s.vessels[n] && Accounted(s, n)
    requires s'.pending == s.pending && s'.flusher == s.flusher && s'.sent == s.sent && s.updater == NoUpdate
    ensures Accounted(s', n)
  {
    hide View, Api, Blank;
  }

  lemma NewVesselIsBlank(m: string, now: Time)
    ensures Blank(NewVessel(m, now))
  {
  }

  lemma InvBroadcast(s: State)
    requires Inv(s) && Enabled(s, FlushBroadcast)
    ensures Inv(Step(s, FlushBroadcast))
  {
    hide Blank, View, Broadcasts;
    var s' := Step(s, FlushBroadcast);
    ViewAfter(s.sent, s.vessels, s.flusher.keys);
    forall m | m in s'.vessels ensures Accounted(s', m) {
      assert Accounted(s, m);
    }
  }

  lemma InvDrop(s: State)
    requires Inv(s) && Enabled(s, CheckDrop)
    ensures Inv(Step(s, CheckDrop))
  {
    hide StoredOk, ViewOk;
    DropKeepsStored(s);
    DropKeepsView(s);
  }

  /** The vessels that stay are those of no message of the batch. */
  lemma DropKeepsStored(s: State)
    requires KeyedByMmsi(s.vessels) && StoredOk(s) && s.checker.CheckFound?
    ensures KeyedByMmsi(Step(s, CheckDrop).vessels) && StoredOk(Step(s, CheckDrop))
  {
    hide Api, Blank, View, Broadcasts, LostVessels;
    var s' := Step(s, CheckDrop);
    var lost := LostVessels(s.vessels, s.checker.keys);
    LostStaysKeyed(s.vessels, s.checker.keys);
    ViewAfter(s.sent, lost, s.checker.keys);
    forall m | m in s'.vessels ensures Accounted(s', m) {
      assert Accounted(s, m) && m !in s.checker.keys;
    }
  }

  /** Every vessel of the batch is lost to the clients, and only those leave the store. */
  lemma DropKeepsView(s: State)
    requires KeyedByMmsi(s.vessels) && ViewOk(s) && s.checker.CheckFound?
    ensures ViewOk(Step(s, CheckDrop))
  {
    hide Api, View, Broadcasts, LostVessels;
    var lost := LostVessels(s.vessels, s.checker.keys);
    LostStaysKeyed(s.vessels, s.checker.keys);
    ViewAfter(s.sent, lost, s.checker.keys);
  }

  lemma LostStaysKeyed(vessels: Vessels, keys: seq<string>)
    requires KeyedByMmsi(vessels)
    ensures KeyedByMmsi(LostVessels(vessels, keys))
    ensures LostVessels(vessels, keys).Keys == vessels.Keys
    ensures forall m :: m in vessels && m in keys ==> Api(LostVessels(vessels, keys)[m]).status == Lost
    ensures forall m :: m in vessels ==> Api(LostVessels(vessels, keys)[m]).mmsi == m
  {
  }

  lemma InvStep(s: State, a: Action)
    requires Inv(s) && Enabled(s, a)
    ensures Inv(Step(s, a))
  {
    hide Inv, Enabled, Step;
    match a
    case Update(context, message) => InvUpdate(s, context, message);
    case FlushBroadcast => InvBroadcast(s);
    case CheckDrop => InvDrop(s);
    case _ => InvQuiet(s, a);
  }

  /** The other steps leave vessels and messages alone. */
  lemma InvQuiet(s: State, a: Action)
    requires Inv(s) && Enabled(s, a) && !a.Update? && !a.FlushBroadcast? && !a.CheckDrop?
    ensures Inv(Step(s, a))
  {
    hide StoredOk, TasksOk;
    QuietStored(s, a);
    QuietTasks(s, a);
  }

  lemma QuietStored(s: State, a: Action)
    requires StoredOk(s) && Enabled(s, a) && !a.Update? && !a.FlushBroadcast? && !a.CheckDrop?
    ensures Step(s, a).vessels == s.vessels && Step(s, a).sent == s.sent && StoredOk(Step(s, a))
  {
    hide Api, Blank, View;
    var s' := Step(s, a);
    forall m | m in s'.vessels ensures Accounted(s', m) {
      assert Accounted(s, m);
    }
  }

  lemma QuietTasks(s: State, a: Action)
    requires TasksOk(s) && Enabled(s, a) && !a.Update? && !a.FlushBroadcast? && !a.CheckDrop?
    ensures TasksOk(Step(s, a))
  {
  }

  lemma {:induction false} Reachable(run: Run, i: nat)
    requires run.Valid() && i < |run.states|
    ensures Inv(run.states[i])
  {
    if i > 0 {
      Reachable(run, i - 1);
      assert run.ValidAt(i - 1);
      InvStep(run.states[i - 1], run.actions[i - 1]);
    }
  }

  /**
   No lost update: in every interleaving, every stored vessel is accounted for,
   and once nothing is pending or in flight, what clients hold is every stored
   vessel field for field, apart from vessels nothing is known about.
   */
  lemma NoLostUpdate(run: Run, i: nat, m: string)
    requires run.Valid() && i < |run.states|
    requires m in run.states[i].vessels
    ensures Accounted(run.states[i], m)
    ensures var s := run.states[i];
            m !in s.pending && !InFlight(s, m) && s.updater == NoUpdate && !Blank(s.vessels[m]) ==>
            m in View(s.sent) && View(s.sent)[m] == Api(s.vessels[m])
  {
    Reachable(run, i);
  }

  /** Clients show a vessel as Active only while it is stored, and the Active filter removes nothing. */
  lemma ClientViewSafety(run: Run, i: nat, m: string)
    requires run.Valid() && i < |run.states|
    ensures var s := run.states[i];
            && (m in View(s.sent) && View(s.sent)[m].status == Active ==> m in s.vessels)
            && (m in s.vessels ==> s.vessels[m].status == Active && s.vessels[m].mmsi == m)
  {
    Reachable(run, i);
  }

  /**
   A client that connects while nothing is on its way is sent what a client that
   was there from the start has already put together, plus the blank vessels.
   */
  lemma LateClientAgrees(run: Run, i: nat, m: string)
    requires run.Valid() && i < |run.states|
    requires run.states[i].pending == map[] && run.states[i].updater == NoUpdate
    requires !run.states[i].flusher.FlushRemoved?
    ensures var s := run.states[i];
            var active := map n | n in s.vessels && s.vessels[n].status == Active :: Api(s.vessels[n]);
            && (m in active && !Blank(s.vessels[m]) ==> m in View(s.sent) && View(s.sent)[m] == active[m])
            && (m in View(s.sent) && View(s.sent)[m].status == Active ==> m in active)
  {
    Reachable(run, i);
    var s := run.states[i];
    if m in s.vessels {
      assert Accounted(s, m);
    }
  }

  // ----- Timeliness

  /** The step at i sent clients the vessel as it then was, or sent that it is lost. */
  ghost predicate ReportedAt(run: Run, i: int, m: string)
    requires 0 <= i < |run.actions| < |run.states|
  {
    var s, s' := run.states[i], run.states[i + 1];
    && m in s.vessels && |s.sent| <= |s'.sent|
    && (|| Delta(m, Api(s.vessels[m])) in s'.sent[|s.sent|..]
        || Delta(m, Api(s.vessels[m].(status := Lost))) in s'.sent[|s.sent|..])
  }

  /** News of m is on its way: a flush holds it, or it is due at `due` at the latest. */
  ghost predicate Awaiting(s: State, m: string, due: Time) {
    m in s.vessels && (InFlight(s, m) || (m in s.pending && s.pending[m] <= due))
  }

  lemma AwaitingStep(run: Run, i: nat, m: string, due: Time)
    requires run.Valid() && i < |run.actions|
    requires Awaiting(run.states[i], m, due)
    ensures ReportedAt(run, i, m) || Awaiting(run.states[i + 1], m, due)
  {
    var s, a, s' := run.states[i], run.actions[i], run.states[i + 1];
    assert run.ValidAt(i);
    Reachable(run, i);
    match a
    case FlushBroadcast =>
      if InFlight(s, m) {
        BroadcastAllStored(s.vessels, s.flusher.keys, m);
      }
    case CheckDrop =>
      if m in s.checker.keys {
        BroadcastAllStored(LostVessels(s.vessels, s.checker.keys), s.checker.keys, m);
      }
    case _ =>
  }

  /** Either the news is sent somewhere in [i, k) or it is still on its way at k. */
  lemma {:induction false} SentOrAwaiting(run: Run, i: nat, k: nat, m: string, due: Time)
    requires run.Valid() && i <= k < |run.states|
    requires Awaiting(run.states[i], m, due)
    ensures (exists r :: i <= r < k && ReportedAt(run, r, m)) || Awaiting(run.states[k], m, due)
  {
    if i < k {
      SentOrAwaiting(run, i, k - 1, m, due);
      if Awaiting(run.states[k - 1], m, due) {
        AwaitingStep(run, k - 1, m, due);
      }
    }
  }

  /** While a flush that started at `due` or later is under way, it is the one that carries the news. */
  ghost predicate Carried(s: State, m: string, due: Time) {
    && m in s.vessels && !s.flusher.FlushIdle? && s.flusher.now >= due
    && (s.flusher.FlushStarted? ==> m in s.pending && s.pending[m] <= due)
    && (!s.flusher.FlushStarted? ==> m in s.flusher.keys)
  }

  lemma {:induction false} CarriedUntilIdle(run: Run, j: nat, k: nat, m: string, due: Time)
    requires run.Valid() && j <= k < |run.states|
    requires Carried(run.states[j], m, due)
    ensures (exists r :: j <= r < k && ReportedAt(run, r, m)) || Carried(run.states[k], m, due)
  {
    if j < k {
      CarriedUntilIdle(run, j, k - 1, m, due);
      if Carried(run.states[k - 1], m, due) {
        CarriedStep(run, k - 1, m, due);
      }
    }
  }

  lemma CarriedStep(run: Run, i: nat, m: string, due: Time)
    requires run.Valid() && i < |run.actions|
    requires Carried(run.states[i], m, due)
    ensures ReportedAt(run, i, m) || Carried(run.states[i + 1], m, due)
  {
    var s, a := run.states[i], run.actions[i];
    assert run.ValidAt(i);
    Reachable(run, i);
    match a
    case FlushBroadcast => BroadcastAllStored(s.vessels, s.flusher.keys, m);
    case CheckDrop =>
      if m in s.checker.keys {
        BroadcastAllStored(LostVessels(s.vessels, s.checker.keys), s.checker.keys, m);
      }
    case FlushCollect(keys) => assert m in Due(s.pending, s.flusher.now);
    case _ =>
  }

  /**
   Bounded staleness: a change scheduled at step i is sent, or the vessel is
   reported lost, before any flush that starts 100 ms or more later has ended,
   however many further updates arrive in between.
   */
  lemma BoundedStaleness(run: Run, i: nat, j: nat, k: nat, m: string)
    requires run.Valid() && i < j < k < |run.states|
    requires run.actions[i] == Schedule && run.states[i].updater == Scheduling(m)
    requires run.actions[j] == FlushStart && run.states[j].clock >= run.states[i].clock + 100_000_000
    requires run.states[k].flusher == FlushIdle
    ensures exists r :: i <= r < k && ReportedAt(run, r, m)
  {
    var due := run.states[i].clock + BROADCAST_DELAY;
    Reachable(run, i);
    assert run.ValidAt(i) && run.ValidAt(j);
    SentOrAwaiting(run, i + 1, j, m, due);
    if Awaiting(run.states[j], m, due) {
      CarriedUntilIdle(run, j + 1, k, m, due);
    }
  }

  // ----- Coalescing

  ghost predicate NotBefore(s: State, m: string, due: Time) {
    && due <= s.clock + BROADCAST_DELAY
    && (m in s.pending ==> due <= s.pending[m])
    && (s.flusher.FlushCollected? && m in s.flusher.keys ==> due <= s.flusher.now)
  }

  lemma {:induction false} NotBeforeHolds(run: Run, a: nat, b: nat, m: string, due: Time)
    requires run.Valid() && a <= b < |run.states|
    requires NotBefore(run.states[a], m, due)
    ensures NotBefore(run.states[b], m, due)
  {
    if a < b {
      NotBeforeHolds(run, a, b - 1, m, due);
      assert run.ValidAt(b - 1);
      var s, action := run.states[b - 1], run.actions[b - 1];
      if action.FlushCollect? && m in action.keys {
        assert m in Due(s.pending, s.flusher.now);
      }
    }
  }

  /** Rapid updates coalesce: two flushes that carry the same vessel start at least 100 ms apart. */
  lemma RateLimit(run: Run, a: nat, b: nat, m: string)
    requires run.Valid() && a < b < |run.actions|
    requires run.actions[a] == run.actions[b] == FlushRemove
    requires run.states[a].flusher.FlushCollected? && m in run.states[a].flusher.keys
    requires run.states[b].flusher.FlushCollected? && m in run.states[b].flusher.keys
    ensures run.states[b].flusher.now >= run.states[a].flusher.now + 100_000_000
  {
    Reachable(run, a);
    assert run.ValidAt(a) && run.ValidAt(b);
    NotBeforeHolds(run, a + 1, b, m, run.states[a].flusher.now + BROADCAST_DELAY);
  }

  // ----- Timeouts

  predicate Touches(a: Action, m: string) {
    a.Update? && ExtractMmsi(a.context) == Some(m)
  }

  predicate Silent(s: State, m: string, now: Time) {
    m in s.vessels && now - s.vessels[m].lastUpdate > 180_000_000_000
  }

  /** A timeout check finds exactly the vessels that were silent for more than 180 s when it began. */
  lemma SilentIsFound(run: Run, c: nat, m: string)
    requires run.Valid() && c < |run.actions| && run.actions[c].CheckCollect?
    ensures run.states[c].checker.CheckStarted?
    ensures m in run.actions[c].keys <==> Silent(run.states[c], m, run.states[c].checker.now)
  {
    assert run.ValidAt(c);
    Reachable(run, c);
    assert m in run.actions[c].keys <==> m in TimedOut(run.states[c].vessels, run.states[c].checker.now);
  }

  ghost predicate TouchedBetween(run: Run, c: int, d: int, m: string)
    requires 0 <= c <= d <= |run.actions|
  {
    exists x :: c < x < d && Touches(run.actions[x], m)
  }

  lemma FoundStep(s: State, a: Action, m: string)
    requires Enabled(s, a) && a != CheckDrop && s.checker.CheckFound? && m in s.vessels
    ensures Step(s, a).checker == s.checker && m in Step(s, a).vessels
    ensures if Touches(a, m) then Step(s, a).vessels[m].lastUpdate == s.clock
            else Step(s, a).vessels[m] == s.vessels[m]
  {
    if Touches(a, m) {
      LastWriteWins(Entry(s.vessels, m, s.clock).(lastUpdate := s.clock), WritesOf(a.message), CogSlot);
    }
  }

  /** From a timeout check that has found m at c, until it drops what it found. */
  lemma {:induction false} FoundUntilDropped(run: Run, c: nat, d: nat, m: string, now: Time)
    requires run.Valid() && c < d < |run.states|
    requires run.actions[c].CheckCollect? && m in run.actions[c].keys
    requires run.states[c].checker == CheckStarted(now)
    requires forall x :: c < x < d ==> run.actions[x] != CheckDrop
    ensures m in run.states[d].vessels && run.states[d].checker == CheckFound(run.actions[c].keys)
    ensures if TouchedBetween(run, c, d, m) then run.states[d].vessels[m].lastUpdate >= now
            else Silent(run.states[d], m, now)
  {
    assert run.ValidAt(d - 1);
    if d == c + 1 {
      assert m in TimedOut(run.states[c].vessels, now);
    } else {
      FoundUntilDropped(run, c, d - 1, m, now);
      FoundStep(run.states[d - 1], run.actions[d - 1], m);
      Reachable(run, c);
      ClockGrows(run, c, d - 1);
      assert TouchedBetween(run, c, d, m) <==>
             TouchedBetween(run, c, d - 1, m) || Touches(run.actions[d - 1], m);
    }
  }

  lemma {:induction false} ClockGrows(run: Run, i: nat, j: nat)
    requires run.Valid() && i <= j < |run.states|
    ensures run.states[i].clock <= run.states[j].clock
  {
    if i < j {
      ClockGrows(run, i, j - 1);
      assert run.ValidAt(j - 1);
    }
  }

  /**
   A vessel that a timeout check reports lost had been silent for 180 s when the
   check began if and only if no update of it came between the check's two
   critical sections; an update that does come in between is dropped with it.
   */
  lemma LostVesselWasSilent(run: Run, c: nat, d: nat, m: string)
    requires run.Valid() && c < d < |run.actions|
    requires run.actions[c].CheckCollect? && m in run.actions[c].keys
    requires run.actions[d] == CheckDrop && forall x :: c < x < d ==> run.actions[x] != CheckDrop
    ensures run.states[c].checker.CheckStarted?
    ensures ReportedAt(run, d, m) && m !in run.states[d + 1].vessels
    ensures Silent(run.states[d], m, run.states[c].checker.now) <==> !TouchedBetween(run, c, d, m)
  {
    assert run.ValidAt(c);
    FoundUntilDropped(run, c, d, m, run.states[c].checker.now);
    Reachable(run, d);
    assert run.ValidAt(d);
    var s := run.states[d];
    BroadcastAllStored(LostVessels(s.vessels, s.checker.keys), s.checker.keys, m);
  }
}
