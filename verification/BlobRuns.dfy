/**
 The blob detector over whole runs: which blobs it hands over at each spoke, when
 that is right, and a run in which it is not.
 */
module BlobRuns {
  import opened Options
  import opened Components
  import opened BlobDetector
  import opened BlobSweep

  /** What was strong in each spoke, what the detector held before it, and what it handed over. */
  datatype Sweep = Sweep(h: History, held: seq<set<Part>>, done: seq<set<Part>>)

  ghost predicate SweepsAt(n: nat, k: nat, s: Sweep, t: nat)
    requires k < n && t < |s.h| == |s.done| && |s.held| == |s.h| + 1
  {
    RingStep(n, s.held[t], AngleAt(n, k, t), NewCells(n, k, t, s.h[t]), s.held[t + 1], s.done[t])
  }

  /** A detector that starts empty, on a ring of at least three spokes, fed consecutive spokes. */
  ghost predicate IsSweep(n: nat, k: nat, s: Sweep) {
    && 3 <= n && k < n && |s.done| == |s.h| && |s.held| == |s.h| + 1 && s.held[0] == {}
    && forall t: nat :: t < |s.h| ==> SweepsAt(n, k, s, t)
  }

  /** At every spoke of a history the targets are separate on the ring. */
  ghost predicate StaysSeparate(n: nat, k: nat, h: History)
    requires k < n
  {
    forall t: nat :: t < |h| ==> Separate(n, k, h[..t], h[t])
  }

  /** At every spoke of a history they are apart there. */
  ghost predicate StaysApart(n: nat, k: nat, h: History)
    requires k < n
  {
    forall t: nat :: t < |h| ==> KeptApart(n, k, h[..t], h[t])
  }

  /** After every spoke the detector is right. */
  ghost predicate RightThroughout(n: nat, k: nat, s: Sweep)
    requires IsSweep(n, k, s)
  {
    forall t: nat :: t < |s.h| ==> RightAfter(n, k, s.h[..t], s.h[t], s.held[t + 1], s.done[t])
  }

  lemma NoTargetsYet()
    ensures Targets([]) == {}
  {
  }

  lemma {:induction false} FollowsAt(n: nat, k: nat, s: Sweep, t: nat)
    requires IsSweep(n, k, s) && t <= |s.h|
    requires StaysSeparate(n, k, s.h) || RightThroughout(n, k, s)
    ensures Follows(n, k, s.h[..t], s.held[t])
  {
    hide Targets, RingStep, Separate, NewCells, OnRing, Growing, JustFinished;
    if t == 0 {
      NoTargetsYet();
      assert s.h[..0] == [] && Growing({}, 0) == {} by { NothingGrows(); }
    } else {
      FollowsAt(n, k, s, t - 1);
      assert SweepsAt(n, k, s, t - 1);
      SeparateIsExact(n, k, s.h[..t - 1], s.h[t - 1], s.held[t - 1], s.held[t], s.done[t - 1]);
      assert s.h[..t] == s.h[..t - 1] + [s.h[t - 1]];
    }
  }

  lemma NothingGrows()
    ensures Growing({}, 0) == {}
  {
  }

  /** A detector is right after every spoke of a run exactly when the targets stay separate. */
  lemma RightExactly(n: nat, k: nat, s: Sweep)
    requires IsSweep(n, k, s)
    ensures RightThroughout(n, k, s) <==> StaysSeparate(n, k, s.h)
  {
    hide Targets, RingStep, Separate, RightAfter, Follows;
    if RightThroughout(n, k, s) || StaysSeparate(n, k, s.h) {
      forall t: nat | t < |s.h|
        ensures RightAfter(n, k, s.h[..t], s.h[t], s.held[t + 1], s.done[t]) <==> Separate(n, k, s.h[..t], s.h[t])
      {
        FollowsAt(n, k, s, t);
        assert SweepsAt(n, k, s, t);
        SeparateIsExact(n, k, s.h[..t], s.h[t], s.held[t], s.held[t + 1], s.done[t]);
      }
    }
  }

  // ----- Which target is handed over when

  /** The targets that the t-th spoke of a history shows to be finished. */
  ghost function FinishedAt(h: History, t: nat): set<set<Strip>>
    requires t < |h|
  {
    JustFinished(Targets(h[..t + 1]), t)
  }

  /** Every finished target of a history was shown to be at exactly one spoke, two after its last pixel. */
  lemma {:induction false} FinishedOnce(h: History, part: set<Strip>)
    ensures part in Finished(Targets(h), |h|) <==> End(part) + 2 < |h| && part in FinishedAt(h, End(part) + 2)
    ensures forall t: nat :: t < |h| && part in FinishedAt(h, t) ==> t == End(part) + 2
    decreases |h|
  {
    hide Targets, End;
    if h == [] {
      NoTargetsYet();
    } else {
      var front, last := h[..|h| - 1], h[|h| - 1];
      assert front + [last] == h;
      FinishedOnce(front, part);
      FinishedGrows(front, last);
      forall t: nat | t < |front| ensures FinishedAt(front, t) == FinishedAt(h, t) {
        assert front[..t + 1] == h[..t + 1];
      }
      assert h[..|h|] == h && FinishedAt(h, |front|) == JustFinished(Targets(h), |front|);
    }
  }

  /**
   Over any run in which the targets stay separate on the ring, each spoke hands
   over exactly the targets it shows to be finished, and what the detector holds
   is exactly the targets that may yet grow.
   */
  lemma ReportedAreTargets(n: nat, k: nat, s: Sweep, t: nat)
    requires IsSweep(n, k, s) && StaysSeparate(n, k, s.h)
    ensures t <= |s.h| ==> Follows(n, k, s.h[..t], s.held[t])
    ensures t < |s.h| ==> s.done[t] == AllOnRing(n, k, FinishedAt(s.h, t))
  {
    hide Targets, RingStep, Separate, Follows, AllOnRing, JustFinished;
    if t <= |s.h| {
      FollowsAt(n, k, s, t);
    }
    if t < |s.h| {
      assert SweepsAt(n, k, s, t);
      SeparateIsExact(n, k, s.h[..t], s.h[t], s.held[t], s.held[t + 1], s.done[t]);
      assert s.h[..t + 1] == s.h[..t] + [s.h[t]];
    }
  }

  lemma {:induction false} CountOnRing(n: nat, k: nat, parts: set<set<Strip>>)
    requires k < n && forall a, b :: a in parts && b in parts && a != b ==> OnRing(n, k, a) != OnRing(n, k, b)
    ensures |AllOnRing(n, k, parts)| == |parts|
  {
    hide OnRing;
    if parts != {} {
      var part :| part in parts;
      CountOnRing(n, k, parts - {part});
      assert AllOnRing(n, k, parts) == AllOnRing(n, k, parts - {part}) + {OnRing(n, k, part)};
    }
  }

  /** Targets that stay apart are handed over one by one. */
  lemma EachIsOne(n: nat, k: nat, h: History, pixels: set<nat>)
    requires k < n && KeptApart(n, k, h, pixels)
    ensures var finished := JustFinished(Targets(h + [pixels]), |h|);
            |AllOnRing(n, k, finished)| == |finished|
  {
    hide Targets, Regrouped, End, AllOnRing, RingNear, StripNear, Project;
    var finished, f := JustFinished(Targets(h + [pixels]), |h|), Project(n, k);
    RegroupedIsRecent(h, pixels);
    TargetsSplit(h, pixels);
    RingNearIsNearness(n);
    forall a, b | a in finished && b in finished && a != b ensures OnRing(n, k, a) != OnRing(n, k, b) {
      assert a in Regrouped(h, pixels) && b in Regrouped(h, pixels);
      var c :| c in a;
      assert f(c) in Image(f, a);
      if f(c) in Image(f, b) {
        NearItself(n, f(c), Image(f, a), Image(f, b));
      }
    }
    CountOnRing(n, k, finished);
  }

  lemma NearItself(n: nat, c: Cell, a: set<Cell>, b: set<Cell>)
    requires n > 0 && c in a && c in b
    ensures !Apart(RingNear(n), a, b)
  {
    RingNearIsNearness(n);
    assert RingNear(n)(c, c);
  }

  /** What was handed over is final: a finished target is a target of every longer history. */
  lemma {:induction false} FinishedIsFinal(h: History, t: nat, part: set<Strip>)
    requires t <= |h| && part in Finished(Targets(h[..t]), t)
    ensures part in Finished(Targets(h), |h|)
    decreases |h|
  {
    hide Targets, End, Finished;
    if t == |h| {
      assert h[..t] == h;
    } else {
      var front, last := h[..|h| - 1], h[|h| - 1];
      assert front[..t] == h[..t];
      FinishedIsFinal(front, t, part);
      StaysFinished(front, last, part);
      assert front + [last] == h;
    }
  }

  lemma StaysFinished(h: History, pixels: set<nat>, part: set<Strip>)
    requires part in Finished(Targets(h), |h|)
    ensures part in Finished(Targets(h + [pixels]), |h| + 1)
  {
    hide Targets, End, Regrouped;
    TargetsSplit(h, pixels);
  }

  ghost function StrongPixels(data: seq<nat>, threshold: nat, range: DopplerRange): set<nat> {
    set i | 0 <= i < |data| &&
            (data[i] >= threshold || (range.Some? && range.value.0 <= data[i] <= range.value.1))
  }

  /** The strong pixels that `process_spoke` finds on the t-th spoke are the new cells of the sweep. */
  lemma StrongCellsAreNew(n: nat, k: nat, t: nat, data: seq<nat>, threshold: nat, range: DopplerRange)
    requires k < n
    ensures StrongCells(AngleAt(n, k, t), data, threshold, range) ==
            NewCells(n, k, t, StrongPixels(data, threshold, range))
  {
  }

  // ----- The detector over a whole sweep

  ghost function HistoryOf(spokes: seq<seq<nat>>, threshold: nat, range: DopplerRange): (h: History)
    ensures |h| == |spokes|
  {
    seq(|spokes|, t requires 0 <= t < |spokes| => StrongPixels(spokes[t], threshold, range))
  }

  lemma {:induction false} CountCompleted(blobs: seq<Blob>)
    requires NoneTwice(blobs)
    ensures |Completed(blobs)| == |blobs|
  {
    hide CellsOf;
    if blobs != [] {
      var rest, last := blobs[..|blobs| - 1], blobs[|blobs| - 1];
      CountCompleted(rest);
      var part := Part(CellsOf(last), last.last);
      assert Completed(blobs) == Completed(rest) + {part};
      assert part !in Completed(rest);
    }
  }

  /** The sweep so far is what the detector has been through. */
  ghost predicate InStep(detector: Detector, k: nat, s: Sweep, completed: seq<seq<Blob>>)
    reads detector
  {
    && detector.Valid() && k < detector.spokes && IsSweep(detector.spokes, k, s)
    && |s.held| == |s.h| + 1 && |completed| == |s.done| == |s.h|
    && s.held[|s.h|] == Snapshot(detector.blobs)
    && forall t :: 0 <= t < |completed| ==> Completed(completed[t]) == s.done[t] && NoneTwice(completed[t])
  }

  lemma SmallAngle(angle: nat, n: nat)
    requires angle < n < U16
    ensures OnTurn(angle, n) == angle
  {
  }

  /** One more spoke. */
  method DetectNext(detector: Detector, k: nat, angle: nat, data: seq<nat>, completed: seq<seq<Blob>>, ghost s: Sweep)
    returns (all: seq<seq<Blob>>, ghost longer: Sweep)
    requires InStep(detector, k, s, completed) && angle == AngleAt(detector.spokes, k, |s.h|)
    modifies detector
    ensures InStep(detector, k, longer, all)
    ensures longer.h == s.h + [StrongPixels(data, detector.threshold, detector.dopplerRange)]
  {
    hide RingStep, StateOk, Snapshot, NoneTwice, StrongCells, StrongPixels, NewCells, IsSweep, AngleAt, Completed,
         OnTurn, WellFormed;
    ghost var n, t := detector.spokes, |s.h|;
    StrongCellsAreNew(n, k, t, data, detector.threshold, detector.dopplerRange);
    SmallAngle(angle, n);
    var finished := detector.ProcessSpoke(angle, data);
    longer := SweepMore(n, k, s, StrongPixels(data, detector.threshold, detector.dopplerRange),
                        Snapshot(detector.blobs), Completed(finished.value));
    all := completed + [finished.value];
  }

  lemma SweepMore(n: nat, k: nat, s: Sweep, pixels: set<nat>, held': set<Part>, done: set<Part>) returns (longer: Sweep)
    requires IsSweep(n, k, s)
    requires RingStep(n, s.held[|s.h|], AngleAt(n, k, |s.h|), NewCells(n, k, |s.h|, pixels), held', done)
    ensures IsSweep(n, k, longer)
    ensures longer == Sweep(s.h + [pixels], s.held + [held'], s.done + [done])
  {
    hide RingStep;
    longer := Sweep(s.h + [pixels], s.held + [held'], s.done + [done]);
    forall t: nat | t < |longer.h| ensures SweepsAt(n, k, longer, t) {
      if t < |s.h| {
        assert SweepsAt(n, k, s, t);
      }
    }
  }

  /** What a spoke hands over is what it shows to be finished. */
  ghost predicate HandsOver(n: nat, k: nat, h: History, t: nat, completed: seq<Blob>)
    requires k < n && t < |h|
  {
    Completed(completed) == AllOnRing(n, k, FinishedAt(h, t)) && NoneTwice(completed)
  }

  /**
   A new detector fed consecutive spokes from spoke k on. If the targets stay
   separate on the ring, each spoke hands over exactly the targets that it shows
   to be finished, and the detector still holds the ones that are not. If they
   stay apart there, it hands over as many blobs as there are such targets.
   */
  method DetectAll(detector: Detector, k: nat, spokes: seq<seq<nat>>) returns (completed: seq<seq<Blob>>)
    requires detector.Valid() && detector.blobs == map[] && 3 <= detector.spokes && k < detector.spokes
    modifies detector
    ensures detector.Valid() && |completed| == |spokes|
    ensures var n, h := detector.spokes, HistoryOf(spokes, detector.threshold, detector.dopplerRange);
            StaysSeparate(n, k, h) ==>
            && Follows(n, k, h, Snapshot(detector.blobs))
            && forall t :: 0 <= t < |h| ==> HandsOver(n, k, h, t, completed[t])
    ensures var n, h := detector.spokes, HistoryOf(spokes, detector.threshold, detector.dopplerRange);
            StaysApart(n, k, h) ==>
            forall t :: 0 <= t < |h| ==> HandsOver(n, k, h, t, completed[t]) && |completed[t]| == |FinishedAt(h, t)|
  {
    hide IsSweep, StaysSeparate, StaysApart, Targets, Snapshot, StrongPixels, StateOk, Project, Follows, FinishedAt,
         AllOnRing, NoneTwice, Completed;
    completed := [];
    ghost var n, h := detector.spokes, HistoryOf(spokes, detector.threshold, detector.dopplerRange);
    ghost var s := Sweep([], [{}], []);
    EmptySweep(n, k);
    for t := 0 to |spokes|
      invariant InStep(detector, k, s, completed) && s.h == h[..t]
    {
      completed, s := DetectNext(detector, k, AngleAt(detector.spokes, k, t), spokes[t], completed, s);
    }
    assert s.h == h;
    SweepEnds(n, k, s, completed);
  }

  lemma EmptySweep(n: nat, k: nat)
    requires 3 <= n && k < n
    ensures IsSweep(n, k, Sweep([], [{}], [])) && Snapshot(map[]) == {}
  {
  }

  lemma SweepEnds(n: nat, k: nat, s: Sweep, completed: seq<seq<Blob>>)
    requires IsSweep(n, k, s) && |completed| == |s.h|
    requires forall t :: 0 <= t < |completed| ==> Completed(completed[t]) == s.done[t] && NoneTwice(completed[t])
    ensures StaysSeparate(n, k, s.h) ==>
              && Follows(n, k, s.h, s.held[|s.h|])
              && forall t :: 0 <= t < |s.h| ==> HandsOver(n, k, s.h, t, completed[t])
    ensures StaysApart(n, k, s.h) ==>
              forall t :: 0 <= t < |s.h| ==>
                HandsOver(n, k, s.h, t, completed[t]) && |completed[t]| == |FinishedAt(s.h, t)|
  {
    hide Targets, Separate, SweepsAt, KeptApart, Completed, NoneTwice, AllOnRing, Follows;
    if StaysSeparate(n, k, s.h) {
      ReportedAreTargets(n, k, s, |s.h|);
      assert s.h[..|s.h|] == s.h;
      forall t: nat | t < |s.h| ensures HandsOver(n, k, s.h, t, completed[t]) {
        ReportedAreTargets(n, k, s, t);
      }
    }
    if StaysApart(n, k, s.h) {
      forall t: nat | t < |s.h| ensures Separate(n, k, s.h[..t], s.h[t]) {
        ApartIsSeparate(n, k, s.h[..t], s.h[t]);
      }
      forall t: nat | t < |s.h|
        ensures HandsOver(n, k, s.h, t, completed[t]) && |completed[t]| == |FinishedAt(s.h, t)|
      {
        ReportedAreTargets(n, k, s, t);
        EachIsOne(n, k, s.h[..t], s.h[t]);
        CountCompleted(completed[t]);
        assert s.h[..t + 1] == s.h[..t] + [s.h[t]];
      }
    }
  }

  // ----- When the ring joins what the sweep keeps apart

  /** A target that runs outwards over three spokes of a ring of four, and two pixels of the fourth spoke. */
  const OUTWARDS: History := [{0}, {1}, {2}]
  const FOURTH: set<nat> := {0, 3}

  lemma OutwardsStrong(c: Strip)
    ensures c in Strong(OUTWARDS) <==> c == At(0, 0) || c == At(1, 1) || c == At(2, 2)
  {
    StrongMeans(OUTWARDS, c);
  }

  /** On the strip the inner pixel of the fourth spoke is near no other strong pixel. */
  lemma InnerIsAlone(part: set<Strip>)
    requires part in Regrouped(OUTWARDS, FOURTH) && At(3, 0) in part
    ensures part == {At(3, 0)}
  {
    hide Regrouped, Window, Targets;
    TargetsSplit(OUTWARDS, FOURTH);
    forall q | q in part && StripNear()(At(3, 0), q) ensures q == At(3, 0) {
      InWindow(OUTWARDS, FOURTH, part, q);
      WindowIsStrong(OUTWARDS, FOURTH, q);
      OutwardsStrong(q);
    }
    AloneIsAll(StripNear(), part, At(3, 0));
  }

  lemma WindowIsStrong(h: History, pixels: set<nat>, c: Strip)
    requires c in Window(h, pixels)
    ensures c in Strong(h) || c in StrongAt(|h|, pixels)
  {
    hide Targets;
    TargetsAreComponents(h);
    if c in Union(Growing(Targets(h), |h|)) {
      var part :| part in Growing(Targets(h), |h|) && c in part;
      assert c in Union(Targets(h));
    }
  }

  lemma FirstIsGrowing()
    ensures At(0, 0) in Window(OUTWARDS, FOURTH)
  {
    hide Targets;
    var parts := Targets(OUTWARDS);
    TargetsAreComponents(OUTWARDS);
    OutwardsStrong(At(0, 0));
    OutwardsStrong(At(1, 1));
    var a :| a in parts && At(0, 0) in a;
    var b :| b in parts && At(1, 1) in b;
    NearMeansSamePart(StripNear(), parts, a, b, At(0, 0), At(1, 1));
    assert End(a) >= 1;
    assert a in Growing(parts, 3);
  }

  /** On the ring it is next to the first pixel of the target. */
  lemma RingJoins()
    ensures !Separate(4, 0, OUTWARDS, FOURTH)
  {
    hide Targets, Regrouped, Window, End, RingNear, AngleAt;
    var f := Project(4, 0);
    FirstIsGrowing();
    var a := PartOf(OUTWARDS, FOURTH, At(0, 0));
    assert At(3, 0) in Window(OUTWARDS, FOURTH) by { InnerInWindow(); }
    var b := PartOf(OUTWARDS, FOURTH, At(3, 0));
    InnerIsAlone(b);
    AnglesOfFour();
    assert f(At(0, 0)) == Cell(0, 0) && f(At(3, 0)) == Cell(3, 0);
    assert Cell(0, 0) in Image(f, a) && Cell(0, 0) !in Image(f, b) && Cell(3, 0) in Image(f, b);
    FourIsNearZero();
  }

  lemma FourIsNearZero()
    ensures RingNear(4)(Cell(0, 0), Cell(3, 0))
  {
  }

  /** Before that spoke everything is well. */
  lemma OutwardsIsSeparate()
    ensures StaysSeparate(4, 0, OUTWARDS)
  {
    hide Separate, KeptApart, Targets;
    forall t: nat | t < |OUTWARDS| ensures Separate(4, 0, OUTWARDS[..t], OUTWARDS[t]) {
      NarrowIsApart(4, 0, OUTWARDS[..t], OUTWARDS[t]);
      ApartIsSeparate(4, 0, OUTWARDS[..t], OUTWARDS[t]);
    }
  }

  lemma OutwardsIsSeen(threshold: nat)
    requires threshold == 10
    ensures HistoryOf([[15], [0, 15], [0, 0, 15]], threshold, None) == OUTWARDS
    ensures StrongPixels([15, 0, 0, 15], threshold, None) == FOURTH
  {
    assert StrongPixels([15], threshold, None) == {0};
    assert StrongPixels([0, 15], threshold, None) == {1};
    assert StrongPixels([0, 0, 15], threshold, None) == {2};
  }

  /** A detector of four spokes that is right for three of them and wrong after the fourth. */
  method JoinsOnFourth() returns (detector: Detector, completed: seq<Blob>, ghost before: set<Part>)
    ensures fresh(detector) && detector.Valid() && detector.spokes == 4
    ensures Follows(4, 0, OUTWARDS, before)
    ensures RingStep(4, before, AngleAt(4, 0, 3), NewCells(4, 0, 3, FOURTH), Snapshot(detector.blobs),
                     Completed(completed))
    ensures !RightAfter(4, 0, OUTWARDS, FOURTH, Snapshot(detector.blobs), Completed(completed))
  {
    hide RingStep, Follows, Separate, RightAfter, StateOk, Snapshot, Completed, NewCells, StrongPixels, HistoryOf,
         StrongCells, HandsOver, StaysSeparate, StaysApart, NoneTwice, WellFormed, OnTurn, AngleAt;
    detector := new Detector(4, 10, None);
    OutwardsIsSeen(detector.threshold);
    OutwardsIsSeparate();
    var first := DetectAll(detector, 0, [[15], [0, 15], [0, 0, 15]]);
    before := Snapshot(detector.blobs);
    StrongCellsAreNew(4, 0, 3, [15, 0, 0, 15], 10, None);
    AnglesOfFour();
    SmallAngle(3, 4);
    var r := detector.ProcessSpoke(3, [15, 0, 0, 15]);
    completed := r.value;
    RingJoins();
    OutwardsLength();
    SeparateIsExact(4, 0, OUTWARDS, FOURTH, before, Snapshot(detector.blobs), Completed(completed));
  }

  lemma OutwardsLength()
    ensures |OUTWARDS| == 3
  {
  }

  lemma InnerInWindow()
    ensures At(3, 0) in Window(OUTWARDS, FOURTH)
  {
  }

  lemma AnglesOfFour()
    ensures AngleAt(4, 0, 0) == 0 && AngleAt(4, 0, 3) == 3
  {
    AngleAfter(4, 0, 0, 3);
  }
}
