/**
 What the blob detector reports over a whole run.

 A rotating radar delivers spoke k, k + 1, k + 2 and so on, round and round.
 Unrolled in time its picture is a strip, on which a target is a connected
 component of strong pixels. The detector sees only the ring. As long as no two
 targets come near each other only because the ring is closed, the blobs it
 hands over are exactly the finished targets of the strip.
 */
module BlobSweep {
  import opened Components
  import opened BlobDetector

  datatype Strip = At(time: nat, pixel: nat)

  ghost function StripNear(): (Strip, Strip) -> bool {
    (p: Strip, q: Strip) =>
      p.time <= q.time + 1 && q.time <= p.time + 1 && p.pixel <= q.pixel + 1 && q.pixel <= p.pixel + 1
  }

  lemma StripNearIsNearness()
    ensures Nearness(StripNear())
  {
  }

  /** The t-th spoke of a sweep that starts at spoke k of a ring of n and skips none. */
  function AngleAt(n: nat, k: nat, t: nat): (angle: nat)
    requires k < n
    ensures angle < n
  {
    if t == 0 then k else NextSpoke(n, AngleAt(n, k, t - 1))
  }

  ghost function Project(n: nat, k: nat): Strip -> Cell
    requires k < n
  {
    (s: Strip) => Cell(AngleAt(n, k, s.time), s.pixel)
  }

  /** The strong pixels of each spoke in turn. */
  type History = seq<set<nat>>

  ghost function StrongAt(t: nat, pixels: set<nat>): set<Strip> {
    set p | p in pixels :: At(t, p)
  }

  ghost function Strong(h: History): set<Strip> {
    if h == [] then {} else Strong(h[..|h| - 1]) + StrongAt(|h| - 1, h[|h| - 1])
  }

  lemma {:induction false} StrongMeans(h: History, c: Strip)
    ensures c in Strong(h) <==> c.time < |h| && c.pixel in h[c.time]
  {
    if h != [] {
      StrongMeans(h[..|h| - 1], c);
    }
  }

  /** The targets in a history: the connected components of its strong pixels. */
  ghost function Targets(h: History): set<set<Strip>> {
    ComponentsOf(StripNear(), Strong(h))
  }

  lemma TargetsAreComponents(h: History)
    ensures IsComponents(StripNear(), Strong(h), Targets(h))
  {
    StripNearIsNearness();
    ComponentsOfIsComponents(StripNear(), Strong(h));
  }

  // ----- When a target ends

  lemma {:induction false} LatestExists(part: set<Strip>)
    requires part != {}
    ensures exists c :: c in part && forall d :: d in part ==> d.time <= c.time
  {
    var x :| x in part;
    if part != {x} {
      LatestExists(part - {x});
      var c :| c in part - {x} && forall d :: d in part - {x} ==> d.time <= c.time;
      var latest := if c.time < x.time then x else c;
      assert latest in part && forall d :: d in part ==> d.time <= latest.time;
    }
  }

  /** The time of the last pixel of a target. */
  ghost function End(part: set<Strip>): (e: nat)
    ensures part != {} ==> exists c :: c in part && c.time == e
    ensures forall d :: d in part ==> d.time <= e
  {
    if part == {} then 0
    else
      LatestExists(part);
      var c :| c in part && forall d :: d in part ==> d.time <= c.time;
      c.time
  }

  /** Targets that may still grow once t spokes have been seen. */
  ghost function Growing(parts: set<set<Strip>>, t: nat): set<set<Strip>> {
    set part | part in parts && End(part) + 2 >= t
  }

  ghost function Finished(parts: set<set<Strip>>, t: nat): set<set<Strip>> {
    set part | part in parts && End(part) + 2 < t
  }

  // ----- From the strip to the ring

  ghost function OnRing(n: nat, k: nat, part: set<Strip>): Part
    requires k < n
  {
    Part(Image(Project(n, k), part), AngleAt(n, k, End(part)))
  }

  ghost function AllOnRing(n: nat, k: nat, parts: set<set<Strip>>): set<Part>
    requires k < n
  {
    set part | part in parts :: OnRing(n, k, part)
  }

  lemma NextSpokeIs(n: nat, s: nat)
    requires s < n
    ensures NextSpoke(n, s) == if s + 1 == n then 0 else s + 1
    ensures PrevSpoke(n, NextSpoke(n, s)) == s
  {
  }

  lemma {:induction false} AngleAfter(n: nat, k: nat, t: nat, d: nat)
    requires k < n && d <= n
    ensures AngleAt(n, k, t + d) == if AngleAt(n, k, t) + d < n then AngleAt(n, k, t) + d else AngleAt(n, k, t) + d - n
  {
    if d > 0 {
      AngleAfter(n, k, t, d - 1);
      NextSpokeIs(n, AngleAt(n, k, t + d - 1));
    }
  }

  lemma NearProjects(n: nat, k: nat)
    requires k < n
    ensures KeepsNearness(Project(n, k), StripNear(), RingNear(n))
  {
    forall p, q | StripNear()(p, q) ensures RingNear(n)(Project(n, k)(p), Project(n, k)(q)) {
      if p.time + 1 == q.time {
        assert AngleAt(n, k, q.time) == NextSpoke(n, AngleAt(n, k, p.time));
      } else if q.time + 1 == p.time {
        assert AngleAt(n, k, p.time) == NextSpoke(n, AngleAt(n, k, q.time));
      }
    }
  }

  /** Within n - 1 consecutive spokes the ring brings nothing near that was not. */
  lemma WindowEmbeds(n: nat, k: nat, p: Strip, q: Strip)
    requires 3 <= n && k < n && p.time + 2 <= q.time + n && q.time + 2 <= p.time + n
    ensures RingNear(n)(Project(n, k)(p), Project(n, k)(q)) <==> StripNear()(p, q)
  {
    SpokesInWindow(n, k, p.time, q.time);
  }

  lemma SpokesInWindow(n: nat, k: nat, t: nat, u: nat)
    requires 3 <= n && k < n && t + 2 <= u + n && u + 2 <= t + n
    ensures AngleAt(n, k, t) == AngleAt(n, k, u) <==> t == u
    ensures SpokesNear(n, AngleAt(n, k, t), AngleAt(n, k, u)) <==> t <= u + 1 && u <= t + 1
  {
    NextSpokeIs(n, AngleAt(n, k, t));
    NextSpokeIs(n, AngleAt(n, k, u));
    if t < u {
      AngleAfter(n, k, t, u - t);
    } else {
      AngleAfter(n, k, u, t - u);
    }
  }

  // ----- One more spoke

  ghost function NewCells(n: nat, k: nat, t: nat, pixels: set<nat>): set<Cell>
    requires k < n
  {
    set p | p in pixels :: Cell(AngleAt(n, k, t), p)
  }

  lemma UnionsSplit(parts: set<set<Strip>>, t: nat)
    ensures Growing(parts, t) + Finished(parts, t) == parts
    ensures Union(parts) == Union(Finished(parts, t)) + Union(Growing(parts, t))
  {
    forall c | c in Union(parts) ensures c in Union(Finished(parts, t)) + Union(Growing(parts, t)) {
      var part :| part in parts && c in part;
      if End(part) + 2 >= t {
        assert part in Growing(parts, t);
      } else {
        assert part in Finished(parts, t);
      }
    }
  }

  /** Everything that the next spoke can change. */
  ghost function Window(h: History, pixels: set<nat>): set<Strip> {
    Union(Growing(Targets(h), |h|)) + StrongAt(|h|, pixels)
  }

  ghost function Regrouped(h: History, pixels: set<nat>): set<set<Strip>> {
    ComponentsOf(StripNear(), Window(h, pixels))
  }

  lemma FinishedStayApart(h: History, pixels: set<nat>)
    ensures Apart(StripNear(), Union(Finished(Targets(h), |h|)), Window(h, pixels))
  {
    hide Targets;
    var parts, t := Targets(h), |h|;
    TargetsAreComponents(h);
    forall p, q | p in Union(Finished(parts, t)) && q in Window(h, pixels) ensures !StripNear()(p, q) {
      var a :| a in Finished(parts, t) && p in a;
      if q in Union(Growing(parts, t)) {
        var b :| b in Growing(parts, t) && q in b;
        assert a != b;
        assert Apart(StripNear(), a, b);
      }
    }
  }

  /** A spoke leaves finished targets alone and regroups the rest. */
  lemma TargetsSplit(h: History, pixels: set<nat>)
    ensures Targets(h + [pixels]) == Finished(Targets(h), |h|) + Regrouped(h, pixels)
    ensures IsComponents(StripNear(), Window(h, pixels), Regrouped(h, pixels))
  {
    hide StripNear, IsComponents, ComponentsOf, Union, Strong, Window, Finished, Growing;
    var near, finished := StripNear(), Finished(Targets(h), |h|);
    StripNearIsNearness();
    ComponentsOfIsComponents(near, Window(h, pixels));
    FinishedAreComponents(h);
    FinishedStayApart(h, pixels);
    ComponentsOfApart(near, Union(finished), finished, Window(h, pixels), Regrouped(h, pixels));
    StrongSplits(h, pixels);
    TargetsAreComponents(h + [pixels]);
    ComponentsUnique(near, Strong(h + [pixels]), Targets(h + [pixels]), finished + Regrouped(h, pixels));
  }

  lemma StrongSplits(h: History, pixels: set<nat>)
    ensures Strong(h + [pixels]) == Union(Finished(Targets(h), |h|)) + Window(h, pixels)
  {
    hide StripNear, ComponentsOf, Finished, Growing, Union, IsComponents;
    TargetsAreComponents(h);
    UnionIsAll(StripNear(), Strong(h), Targets(h));
    UnionsSplit(Targets(h), |h|);
    assert (h + [pixels])[..|h|] == h;
  }

  lemma UnionIsAll(near: (Strip, Strip) -> bool, cells: set<Strip>, parts: set<set<Strip>>)
    requires IsComponents(near, cells, parts)
    ensures Union(parts) == cells
  {
  }

  lemma FinishedAreComponents(h: History)
    ensures IsComponents(StripNear(), Union(Finished(Targets(h), |h|)), Finished(Targets(h), |h|))
  {
    hide Targets, Connected, Apart, StripNear, Union;
    TargetsAreComponents(h);
  }

  // ----- The detector follows

  /** The detector holds exactly the growing targets of what it has seen. */
  ghost predicate Follows(n: nat, k: nat, h: History, held: set<Part>)
    requires k < n
  {
    held == AllOnRing(n, k, Growing(Targets(h), |h|))
  }

  lemma BodiesOnRing(n: nat, k: nat, parts: set<set<Strip>>)
    requires k < n
    ensures Bodies(AllOnRing(n, k, parts)) == Images(Project(n, k), parts)
  {
    hide Image, End;
    forall part | part in parts ensures Image(Project(n, k), part) in Bodies(AllOnRing(n, k, parts)) {
      assert OnRing(n, k, part) in AllOnRing(n, k, parts);
    }
  }

  lemma ImageOfWindow(n: nat, k: nat, h: History, pixels: set<nat>, held: set<Part>)
    requires k < n && Follows(n, k, h, held)
    ensures Image(Project(n, k), Window(h, pixels)) == Union(Bodies(held)) + NewCells(n, k, |h|, pixels)
  {
    hide Targets, Growing, Union;
    var f, growing := Project(n, k), Growing(Targets(h), |h|);
    BodiesOnRing(n, k, growing);
    UnionOfImages(f, growing);
    ImageOfNew(n, k, |h|, pixels);
    ImageOfSum(f, Union(growing), StrongAt(|h|, pixels));
  }

  lemma ImageOfNew(n: nat, k: nat, t: nat, pixels: set<nat>)
    requires k < n
    ensures Image(Project(n, k), StrongAt(t, pixels)) == NewCells(n, k, t, pixels)
  {
    forall p | p in pixels ensures Cell(AngleAt(n, k, t), p) in Image(Project(n, k), StrongAt(t, pixels)) {
      assert At(t, p) in StrongAt(t, pixels) && Project(n, k)(At(t, p)) == Cell(AngleAt(n, k, t), p);
    }
  }

  lemma ImageOfSum(f: Strip -> Cell, a: set<Strip>, b: set<Strip>)
    ensures Image(f, a + b) == Image(f, a) + Image(f, b)
  {
  }

  /** The targets that the spoke may still change stay apart on the ring, or are one and the same blob there. */
  ghost predicate Separate(n: nat, k: nat, h: History, pixels: set<nat>)
    requires k < n
  {
    forall a, b :: a in Regrouped(h, pixels) && b in Regrouped(h, pixels) && a != b ==>
      Apart(RingNear(n), Image(Project(n, k), a), Image(Project(n, k), b)) || OnRing(n, k, a) == OnRing(n, k, b)
  }

  /** They all stay apart. */
  ghost predicate KeptApart(n: nat, k: nat, h: History, pixels: set<nat>)
    requires k < n
  {
    ImagesApart(Project(n, k), RingNear(n), Regrouped(h, pixels))
  }

  lemma ApartIsSeparate(n: nat, k: nat, h: History, pixels: set<nat>)
    requires k < n && KeptApart(n, k, h, pixels)
    ensures Separate(n, k, h, pixels)
  {
    hide Regrouped, RingNear, Project, Image, End, Apart;
  }

  /** No target that may still grow has a pixel that is a whole ring old. */
  ghost predicate Narrow(n: nat, h: History) {
    forall part, c :: part in Growing(Targets(h), |h|) && c in part ==> |h| + 2 <= c.time + n
  }

  /** That is enough to keep the targets apart. */
  lemma NarrowIsApart(n: nat, k: nat, h: History, pixels: set<nat>)
    requires 3 <= n && k < n && Narrow(n, h)
    ensures KeptApart(n, k, h, pixels)
  {
    hide Targets, Regrouped, Project, RingNear, StripNear;
    var f, near', parts := Project(n, k), RingNear(n), Regrouped(h, pixels);
    TargetsSplit(h, pixels);
    forall a, b | a in parts && b in parts && a != b ensures Apart(near', Image(f, a), Image(f, b)) {
      assert Apart(StripNear(), a, b);
      forall p', q' | p' in Image(f, a) && q' in Image(f, b) ensures !near'(p', q') {
        var p :| p in a && f(p) == p';
        var q :| q in b && f(q) == q';
        InWindow(h, pixels, a, p);
        InWindow(h, pixels, b, q);
        NarrowTimes(n, h, pixels, p);
        NarrowTimes(n, h, pixels, q);
        WindowEmbeds(n, k, p, q);
      }
    }
  }

  lemma NarrowTimes(n: nat, h: History, pixels: set<nat>, c: Strip)
    requires 3 <= n && Narrow(n, h) && c in Window(h, pixels)
    ensures c.time <= |h| && |h| + 2 <= c.time + n
  {
    hide Targets;
    if c in Union(Growing(Targets(h), |h|)) {
      var part :| part in Growing(Targets(h), |h|) && c in part;
      PastOnly(h, part, c);
    }
  }

  lemma InWindow(h: History, pixels: set<nat>, part: set<Strip>, c: Strip)
    requires part in Regrouped(h, pixels) && c in part
    ensures c in Window(h, pixels) && c.time <= |h|
  {
    hide Targets, Regrouped, StripNear;
    TargetsSplit(h, pixels);
    assert c in Union(Regrouped(h, pixels));
    if c in Union(Growing(Targets(h), |h|)) {
      var target :| target in Growing(Targets(h), |h|) && c in target;
      PastOnly(h, target, c);
    }
  }

  /** The regrouped target that a cell of the window belongs to. */
  lemma PartOf(h: History, pixels: set<nat>, c: Strip) returns (part: set<Strip>)
    requires c in Window(h, pixels)
    ensures part in Regrouped(h, pixels) && c in part
  {
    hide Targets, Regrouped, StripNear;
    TargetsSplit(h, pixels);
    assert c in Union(Regrouped(h, pixels));
    part :| part in Regrouped(h, pixels) && c in part;
  }

  /** Two cells of the window that the ring makes one belong to targets that it makes one. */
  lemma OneCellOneBlob(n: nat, k: nat, h: History, pixels: set<nat>, a: set<Strip>, b: set<Strip>, p: Strip, q: Strip)
    requires k < n && Separate(n, k, h, pixels) && a in Regrouped(h, pixels) && b in Regrouped(h, pixels)
    requires p in a && q in b && Project(n, k)(p) == Project(n, k)(q)
    ensures OnRing(n, k, a) == OnRing(n, k, b)
  {
    hide Regrouped, Project, End;
    var f := Project(n, k);
    RingNearIsNearness(n);
    assert f(p) in Image(f, a) && f(q) in Image(f, b);
  }

  lemma PastOnly(h: History, part: set<Strip>, c: Strip)
    requires part in Targets(h) && c in part
    ensures c.time < |h|
  {
    TargetsAreComponents(h);
    assert c in Union(Targets(h));
    StrongMeans(h, c);
  }

  /**
   On the ring, the kept and the reported blobs are the regrouped targets,
   exactly when no two of those with different images come near there.
   */
  lemma BodiesAreTargets(n: nat, k: nat, h: History, pixels: set<nat>, held: set<Part>, held': set<Part>,
                         done: set<Part>)
    requires k < n && Follows(n, k, h, held)
    requires RingStep(n, held, AngleAt(n, k, |h|), NewCells(n, k, |h|, pixels), held', done)
    ensures Bodies(held') + Bodies(done) == Images(Project(n, k), Regrouped(h, pixels)) <==>
            ImagesApartOrSame(Project(n, k), RingNear(n), Regrouped(h, pixels))
  {
    hide RingNear, StripNear, IsComponents, ImagesApartOrSame, Window, Follows, Bodies, Targets, Regrouped, Project;
    var f, near', window, parts := Project(n, k), RingNear(n), Window(h, pixels), Regrouped(h, pixels);
    TargetsSplit(h, pixels);
    NearProjects(n, k);
    ImagesAreComponents(f, StripNear(), near', window, parts);
    ImageOfWindow(n, k, h, pixels, held);
    if ImagesApartOrSame(f, near', parts) {
      ComponentsUnique(near', Image(f, window), Bodies(held') + Bodies(done), Images(f, parts));
    }
  }

  lemma SameBodies(n: nat, k: nat, h: History, pixels: set<nat>, held: set<Part>, held': set<Part>, done: set<Part>)
    requires k < n && Follows(n, k, h, held) && Separate(n, k, h, pixels)
    requires RingStep(n, held, AngleAt(n, k, |h|), NewCells(n, k, |h|, pixels), held', done)
    ensures Bodies(held') + Bodies(done) == Images(Project(n, k), Regrouped(h, pixels))
  {
    hide RingNear, Regrouped, RingStep, Follows, Apart, Image, Bodies, Project, End;
    BodiesAreTargets(n, k, h, pixels, held, held', done);
    assert ImagesApartOrSame(Project(n, k), RingNear(n), Regrouped(h, pixels));
  }

  /** Of two times at most two apart, only equal ones share an angle. */
  lemma RecentAngles(n: nat, k: nat, t: nat, e: nat)
    requires 3 <= n && k < n && t <= e + 2 && e <= t
    ensures AngleAt(n, k, e) == AngleAt(n, k, t) <==> e == t
  {
    AngleAfter(n, k, e, t - e);
  }

  lemma EndIsNow(h: History, pixels: set<nat>, part: set<Strip>, c: Strip)
    requires part in Regrouped(h, pixels) && c in part && c.time == |h|
    ensures End(part) == |h|
  {
    hide Regrouped, Window;
    forall d | d in part ensures d.time <= |h| { InWindow(h, pixels, part, d); }
  }

  /** A regrouped target meets the new cells on the ring exactly when it has a pixel of this spoke. */
  lemma MeetsNew(n: nat, k: nat, h: History, pixels: set<nat>, part: set<Strip>)
    requires 3 <= n && k < n && Separate(n, k, h, pixels) && part in Regrouped(h, pixels)
    ensures Image(Project(n, k), part) * NewCells(n, k, |h|, pixels) != {} <==> exists c :: c in part && c.time == |h|
  {
    hide Separate, Targets, Growing, Regrouped, Union, End, RingNear;
    var f, t := Project(n, k), |h|;
    if c' :| c' in Image(f, part) * NewCells(n, k, t, pixels) {
      var c :| c in part && f(c) == c';
      var p :| p in pixels && Cell(AngleAt(n, k, t), p) == c';
      assert At(t, p) in Window(h, pixels) && f(At(t, p)) == c';
      var other := PartOf(h, pixels, At(t, p));
      OneCellOneBlob(n, k, h, pixels, part, other, c, At(t, p));
      SameEnd(n, k, h, pixels, part, other, At(t, p));
    }
    if c :| c in part && c.time == t {
      InWindow(h, pixels, part, c);
      FreshInWindow(h, pixels, c);
      assert f(c) in Image(f, part) * NewCells(n, k, t, pixels);
    }
  }

  /** A target that is one blob with a target of this spoke has a pixel of this spoke too. */
  lemma SameEnd(n: nat, k: nat, h: History, pixels: set<nat>, part: set<Strip>, other: set<Strip>, c: Strip)
    requires 3 <= n && k < n && part in Regrouped(h, pixels) && other in Regrouped(h, pixels)
    requires OnRing(n, k, part) == OnRing(n, k, other) && c in other && c.time == |h|
    ensures exists d :: d in part && d.time == |h|
  {
    hide Regrouped, Image, Project, AngleAt;
    EndIsNow(h, pixels, other, c);
    TargetsSplit(h, pixels);
    assert Connected(StripNear(), part);
    var d :| d in part && d.time == End(part);
    InWindow(h, pixels, part, d);
    RecentEnd(h, pixels, part);
    RecentAngles(n, k, |h|, End(part));
  }

  /** A regrouped target without a pixel of this spoke is a target as it was. */
  lemma OldPartIsTarget(h: History, pixels: set<nat>, part: set<Strip>)
    requires part in Regrouped(h, pixels) && forall c :: c in part ==> c.time != |h|
    ensures part in Growing(Targets(h), |h|)
  {
    hide Targets, Regrouped, StripNear, Growing, Apart;
    var near, growing := StripNear(), Growing(Targets(h), |h|);
    TargetsSplit(h, pixels);
    GrowingApart(h);
    assert part <= Union(growing) by {
      forall c | c in part ensures c in Union(growing) {
        InWindow(h, pixels, part, c);
      }
    }
    var c :| c in part;
    assert c in Union(growing);
    var target :| target in growing && c in target;
    assert c in part * target && c in target * part;
    ConnectedWithin(near, growing, part, target);
    GrowingInWindow(h, pixels, target);
    ConnectedWithin(near, Regrouped(h, pixels), target, part);
    assert part == target;
  }

  lemma GrowingApart(h: History)
    ensures forall a, b :: a in Growing(Targets(h), |h|) && b in Growing(Targets(h), |h|) && a != b ==>
              Apart(StripNear(), a, b)
    ensures forall a :: a in Growing(Targets(h), |h|) ==> Connected(StripNear(), a)
  {
    hide Targets, StripNear, Apart, Connected;
    TargetsAreComponents(h);
  }

  /** A target as it was that looks like a regrouped one on the ring is one blob with it. */
  lemma SameImageSameBlob(n: nat, k: nat, h: History, pixels: set<nat>, part: set<Strip>, former: set<Strip>)
    requires 3 <= n && k < n && Separate(n, k, h, pixels) && part in Regrouped(h, pixels)
    requires former in Growing(Targets(h), |h|) && Image(Project(n, k), part) == Image(Project(n, k), former)
    requires forall c :: c in part ==> c.time != |h|
    ensures OnRing(n, k, part) == OnRing(n, k, former)
  {
    hide Targets, Regrouped, StripNear, Growing, Apart, Separate, Project, OnRing;
    var f := Project(n, k);
    GrowingApart(h);
    TargetsSplit(h, pixels);
    GrowingInWindow(h, pixels, former);
    var d :| d in former;
    assert f(d) in Image(f, part);
    var c :| c in part && f(c) == f(d);
    var whole := PartOf(h, pixels, d);
    OneCellOneBlob(n, k, h, pixels, part, whole, c, d);
    forall e | e in whole ensures e.time != |h| {
      if e.time == |h| {
        SameEnd(n, k, h, pixels, part, whole, e);
      }
    }
    OldPartIsTarget(h, pixels, whole);
    assert d in former * whole && d in whole * former;
    ConnectedWithin(StripNear(), Growing(Targets(h), |h|), former, whole);
    ConnectedWithin(StripNear(), Growing(Targets(h), |h|), whole, former);
    assert whole == former;
  }

  /** The detector's note of when a blob was last extended is right. */
  lemma LastIsEnd(n: nat, k: nat, h: History, pixels: set<nat>, held: set<Part>, held': set<Part>, done: set<Part>,
                  p: Part, part: set<Strip>)
    requires 3 <= n && k < n && Follows(n, k, h, held) && Separate(n, k, h, pixels)
    requires RingStep(n, held, AngleAt(n, k, |h|), NewCells(n, k, |h|, pixels), held', done)
    requires p in held' + done && part in Regrouped(h, pixels) && p.cells == Image(Project(n, k), part)
    ensures p == OnRing(n, k, part) && |h| <= End(part) + 2 && End(part) <= |h|
  {
    hide RingNear, StripNear, Targets, Regrouped, Separate, IsComponents, Window, NewCells, Project, Union, Image;
    var t := |h|;
    MeetsNew(n, k, h, pixels, part);
    RecentEnd(h, pixels, part);
    if c :| c in part && c.time == t {
      EndIsNow(h, pixels, part, c);
    } else {
      var former :| former in Growing(Targets(h), t) && p == OnRing(n, k, former);
      OldPartIsTarget(h, pixels, part);
      SameImageSameBlob(n, k, h, pixels, part, former);
      NotEmptyTarget(h, part);
    }
  }

  lemma GrowingInWindow(h: History, pixels: set<nat>, part: set<Strip>)
    requires part in Growing(Targets(h), |h|)
    ensures part <= Window(h, pixels)
  {
    PartInUnion(Growing(Targets(h), |h|), part);
  }

  lemma NotEmptyTarget(h: History, part: set<Strip>)
    requires part in Targets(h)
    ensures part != {} && End(part) < |h|
  {
    TargetsAreComponents(h);
    assert Connected(StripNear(), part);
    var c :| c in part && c.time == End(part);
    PastOnly(h, part, c);
  }

  lemma FreshInWindow(h: History, pixels: set<nat>, c: Strip)
    requires c in Window(h, pixels) && c.time == |h|
    ensures c in StrongAt(|h|, pixels)
  {
    if c in Union(Growing(Targets(h), |h|)) {
      var part :| part in Growing(Targets(h), |h|) && c in part;
      PastOnly(h, part, c);
    }
  }

  /** A blob is kept exactly when it was extended by this spoke or the one before. */
  lemma KeptIsRecent(n: nat, k: nat, t: nat, e: nat)
    requires 3 <= n && k < n && t <= e + 2 && e <= t
    ensures AngleAt(n, k, e) == AngleAt(n, k, t) || AngleAt(n, k, e) == PrevSpoke(n, AngleAt(n, k, t)) <==> t <= e + 1
  {
    AngleAfter(n, k, e, t - e);
    if t > 0 {
      NextSpokeIs(n, AngleAt(n, k, t - 1));
      if e < t {
        AngleAfter(n, k, e, t - 1 - e);
      }
    } else {
      assert e == 0;
    }
  }

  /** Targets that the spoke at time t has shown to be finished. */
  ghost function JustFinished(parts: set<set<Strip>>, t: nat): set<set<Strip>> {
    set part | part in parts && End(part) + 2 == t
  }

  lemma KeptPart(n: nat, k: nat, h: History, pixels: set<nat>, held: set<Part>, held': set<Part>, done: set<Part>,
                 p: Part)
    returns (part: set<Strip>)
    requires 3 <= n && k < n && Follows(n, k, h, held) && Separate(n, k, h, pixels)
    requires RingStep(n, held, AngleAt(n, k, |h|), NewCells(n, k, |h|, pixels), held', done)
    requires p in held' + done
    ensures part in Regrouped(h, pixels) && p == OnRing(n, k, part)
    ensures if p in held' then |h| <= End(part) + 1 else End(part) + 2 == |h|
  {
    hide Regrouped, Separate, Follows, IsComponents, NewCells, Project, End;
    SameBodies(n, k, h, pixels, held, held', done);
    assert p.cells in Bodies(held') + Bodies(done);
    part :| part in Regrouped(h, pixels) && p.cells == Image(Project(n, k), part);
    LastIsEnd(n, k, h, pixels, held, held', done, p, part);
    KeptIsRecent(n, k, |h|, End(part));
  }

  lemma PartIsSomewhere(n: nat, k: nat, h: History, pixels: set<nat>, held: set<Part>, held': set<Part>,
                        done: set<Part>, part: set<Strip>)
    requires 3 <= n && k < n && Follows(n, k, h, held) && Separate(n, k, h, pixels)
    requires RingStep(n, held, AngleAt(n, k, |h|), NewCells(n, k, |h|, pixels), held', done)
    requires part in Regrouped(h, pixels)
    ensures if |h| <= End(part) + 1 then OnRing(n, k, part) in held'
            else End(part) + 2 == |h| && OnRing(n, k, part) in done
  {
    hide Regrouped, Separate, Follows, IsComponents, NewCells, Project, End, Image;
    SameBodies(n, k, h, pixels, held, held', done);
    assert Image(Project(n, k), part) in Bodies(held') + Bodies(done);
    var p :| p in held' + done && p.cells == Image(Project(n, k), part);
    LastIsEnd(n, k, h, pixels, held, held', done, p, part);
    KeptIsRecent(n, k, |h|, End(part));
  }

  /** After one more spoke the detector still holds the growing targets, and has handed over the just finished. */
  lemma SweepStep(n: nat, k: nat, h: History, pixels: set<nat>, held: set<Part>, held': set<Part>, done: set<Part>)
    requires 3 <= n && k < n && Follows(n, k, h, held) && Separate(n, k, h, pixels)
    requires RingStep(n, held, AngleAt(n, k, |h|), NewCells(n, k, |h|, pixels), held', done)
    ensures Follows(n, k, h + [pixels], held')
    ensures done == AllOnRing(n, k, JustFinished(Targets(h + [pixels]), |h|))
  {
    hide RingStep, Regrouped, Targets, Separate, OnRing, End, NewCells;
    var t, parts' := |h|, Targets(h + [pixels]);
    TargetsSplit(h, pixels);
    KeptOrDone(n, held, AngleAt(n, k, t), NewCells(n, k, t, pixels), held', done);
    forall p | p in held' ensures p in AllOnRing(n, k, Growing(parts', t + 1)) {
      var part := KeptPart(n, k, h, pixels, held, held', done, p);
    }
    forall p | p in AllOnRing(n, k, Growing(parts', t + 1)) ensures p in held' {
      var part :| part in Growing(parts', t + 1) && p == OnRing(n, k, part);
      PartIsSomewhere(n, k, h, pixels, held, held', done, part);
    }
    assert held' == AllOnRing(n, k, Growing(parts', t + 1));
    forall p | p in done ensures p in AllOnRing(n, k, JustFinished(parts', t)) {
      var part := KeptPart(n, k, h, pixels, held, held', done, p);
    }
    forall p | p in AllOnRing(n, k, JustFinished(parts', t)) ensures p in done {
      var part :| part in JustFinished(parts', t) && p == OnRing(n, k, part);
      PartIsSomewhere(n, k, h, pixels, held, held', done, part);
    }
    assert done == AllOnRing(n, k, JustFinished(parts', t));
  }

  /** A target that the spoke may change is still growing or just finished; a finished one is neither. */
  lemma RegroupedIsRecent(h: History, pixels: set<nat>)
    ensures var parts', t := Targets(h + [pixels]), |h|;
            Growing(parts', t + 1) + JustFinished(parts', t) == Regrouped(h, pixels)
  {
    hide Targets, Regrouped, End;
    TargetsSplit(h, pixels);
    forall part | part in Regrouped(h, pixels) ensures |h| <= End(part) + 2 {
      RecentEnd(h, pixels, part);
    }
  }

  lemma RecentEnd(h: History, pixels: set<nat>, part: set<Strip>)
    requires part in Regrouped(h, pixels)
    ensures |h| <= End(part) + 2
  {
    hide Targets, Regrouped, StripNear, Apart;
    TargetsSplit(h, pixels);
    if c :| c in part && c.time == |h| {
    } else {
      OldPartIsTarget(h, pixels, part);
    }
  }

  /** After a spoke the detector holds the growing targets and has handed over the just finished ones. */
  ghost predicate RightAfter(n: nat, k: nat, h: History, pixels: set<nat>, held': set<Part>, done: set<Part>)
    requires k < n
  {
    && Follows(n, k, h + [pixels], held')
    && done == AllOnRing(n, k, JustFinished(Targets(h + [pixels]), |h|))
  }

  /** The condition is exact: a detector that was right is right after a spoke exactly when the targets are separate. */
  lemma SeparateIsExact(n: nat, k: nat, h: History, pixels: set<nat>, held: set<Part>, held': set<Part>,
                        done: set<Part>)
    requires 3 <= n && k < n && Follows(n, k, h, held)
    requires RingStep(n, held, AngleAt(n, k, |h|), NewCells(n, k, |h|, pixels), held', done)
    ensures RightAfter(n, k, h, pixels, held', done) <==> Separate(n, k, h, pixels)
  {
    hide RingStep, Regrouped, Targets, OnRing, Growing, JustFinished, Separate, Follows;
    if Separate(n, k, h, pixels) {
      SweepStep(n, k, h, pixels, held, held', done);
    }
    if RightAfter(n, k, h, pixels, held', done) {
      SeparateIsNeeded(n, k, h, pixels, held, held', done);
    }
  }

  lemma SeparateIsNeeded(n: nat, k: nat, h: History, pixels: set<nat>, held: set<Part>, held': set<Part>,
                         done: set<Part>)
    requires k < n && Follows(n, k, h, held)
    requires RingStep(n, held, AngleAt(n, k, |h|), NewCells(n, k, |h|, pixels), held', done)
    requires RightAfter(n, k, h, pixels, held', done)
    ensures Separate(n, k, h, pixels)
  {
    hide RingNear, IsComponents, Regrouped, Targets, Growing, JustFinished, Bodies, Image, End, Project, Apart;
    var parts', f := Targets(h + [pixels]), Project(n, k);
    BodiesOnRing(n, k, Growing(parts', |h| + 1));
    BodiesOnRing(n, k, JustFinished(parts', |h|));
    ImagesOfSum(f, Growing(parts', |h| + 1), JustFinished(parts', |h|));
    RegroupedIsRecent(h, pixels);
    BodiesAreTargets(n, k, h, pixels, held, held', done);
    forall a, b | a in Regrouped(h, pixels) && b in Regrouped(h, pixels) && a != b && Image(f, a) == Image(f, b)
      ensures OnRing(n, k, a) == OnRing(n, k, b)
    {
      assert OnRing(n, k, a) in held' + done && OnRing(n, k, b) in held' + done;
    }
  }

  lemma KeptOrDone(n: nat, held: set<Part>, angle: nat, news: set<Cell>, held': set<Part>, done: set<Part>)
    requires RingStep(n, held, angle, news, held', done)
    ensures held' !! done
  {
  }

  /** A finished target was finished before, or this spoke shows that it is. */
  lemma FinishedGrows(h: History, pixels: set<nat>)
    ensures Finished(Targets(h + [pixels]), |h| + 1) ==
            Finished(Targets(h), |h|) + JustFinished(Targets(h + [pixels]), |h|)
  {
    hide Regrouped, Targets, End;
    TargetsSplit(h, pixels);
    forall part | part in Regrouped(h, pixels) ensures |h| <= End(part) + 2 {
      RecentEnd(h, pixels, part);
    }
  }

  lemma ImagesOfSum(f: Strip -> Cell, a: set<set<Strip>>, b: set<set<Strip>>)
    ensures Images(f, a + b) == Images(f, a) + Images(f, b)
  {
  }
}
