/**
 The blob detector: grouping strong radar pixels into targets as spokes arrive.

 Pixels live on a ring of spokes. Each strong pixel joins, and so may merge, the
 blobs it is next to. The invariant is that the active blobs are the connected
 components of the pixels they hold, whatever spokes arrive in whatever order.
 */
module BlobDetector {
  import opened Options
  import opened Components
  import Legend

  const U16: nat := 0x1_0000

  datatype Cell = Cell(spoke: nat, pixel: nat)
  datatype BlobPixel = BlobPixel(cell: Cell, intensity: nat)

  function PrevSpoke(n: nat, s: nat): nat
    requires n > 0
  {
    if s == 0 then n - 1 else s - 1
  }

  function NextSpoke(n: nat, s: nat): nat
    requires n > 0
  {
    (s + 1) % n
  }

  predicate SpokesNear(n: nat, a: nat, b: nat)
    requires n > 0
  {
    a == b || NextSpoke(n, a) == b || NextSpoke(n, b) == a
  }

  /** The eight neighbours on the ring, and the pixel itself. */
  predicate IsNear(n: nat, p: Cell, q: Cell)
    requires n > 0
  {
    SpokesNear(n, p.spoke, q.spoke) && p.pixel <= q.pixel + 1 && q.pixel <= p.pixel + 1
  }

  ghost function RingNear(n: nat): (Cell, Cell) -> bool
    requires n > 0
  {
    (p, q) => IsNear(n, p, q)
  }

  lemma RingNearIsNearness(n: nat)
    requires n > 0
    ensures Nearness(RingNear(n))
  {
  }

  lemma PrevIsNear(n: nat, a: nat, b: nat)
    requires a < n && b < n
    ensures PrevSpoke(n, a) == b <==> NextSpoke(n, b) == a
  {
  }

  // ----- One blob

  datatype Blob = Blob(id: nat, pixels: seq<BlobPixel>, last: nat, minPixel: nat, maxPixel: nat, doppler: bool)

  type DopplerRange = Option<(nat, nat)>

  predicate IsDoppler(range: DopplerRange, intensity: nat) {
    range.Some? && range.value.0 <= intensity <= range.value.1
  }

  ghost function CellsAt(pixels: seq<BlobPixel>): set<Cell> {
    set p | p in pixels :: p.cell
  }

  ghost function CellsOf(b: Blob): set<Cell> {
    CellsAt(b.pixels)
  }

  lemma CellsAtMore(pixels: seq<BlobPixel>, i: nat)
    requires i < |pixels|
    ensures CellsAt(pixels[..i + 1]) == CellsAt(pixels[..i]) + {pixels[i].cell}
  {
    assert pixels[..i + 1] == pixels[..i] + [pixels[i]];
  }

  /** The radial extent is exact and the Doppler flag tells whether any pixel is Doppler. */
  ghost predicate BlobOk(b: Blob, range: DopplerRange) {
    && b.pixels != []
    && (forall p :: p in b.pixels ==> b.minPixel <= p.cell.pixel <= b.maxPixel)
    && (exists p :: p in b.pixels && p.cell.pixel == b.minPixel)
    && (exists p :: p in b.pixels && p.cell.pixel == b.maxPixel)
    && (b.doppler <==> exists p :: p in b.pixels && IsDoppler(range, p.intensity))
  }

  function NewBlob(id: nat, p: BlobPixel, range: DopplerRange): (b: Blob)
    ensures BlobOk(b, range) && CellsOf(b) == {p.cell} && b.last == p.cell.spoke && b.id == id
  {
    assert p in [p];
    Blob(id, [p], p.cell.spoke, p.cell.pixel, p.cell.pixel, IsDoppler(range, p.intensity))
  }

  function Min(a: nat, b: nat): nat { if a <= b then a else b }
  function Max(a: nat, b: nat): nat { if a >= b then a else b }

  function AddToBlob(b: Blob, p: BlobPixel, angle: nat, range: DopplerRange): (r: Blob)
    requires BlobOk(b, range)
    ensures BlobOk(r, range) && CellsOf(r) == CellsOf(b) + {p.cell} && r.last == angle && r.id == b.id
  {
    var r := b.(pixels := b.pixels + [p], last := angle,
                minPixel := Min(b.minPixel, p.cell.pixel), maxPixel := Max(b.maxPixel, p.cell.pixel),
                doppler := b.doppler || IsDoppler(range, p.intensity));
    assert p in r.pixels && forall q :: q in b.pixels ==> q in r.pixels;
    r
  }

  function Absorb(b: Blob, other: Blob, angle: nat, ghost range: DopplerRange): (r: Blob)
    requires BlobOk(b, range) && BlobOk(other, range)
    ensures BlobOk(r, range) && CellsOf(r) == CellsOf(b) + CellsOf(other) && r.last == angle && r.id == b.id
  {
    var r := b.(pixels := b.pixels + other.pixels, last := angle,
                minPixel := Min(b.minPixel, other.minPixel), maxPixel := Max(b.maxPixel, other.maxPixel),
                doppler := b.doppler || other.doppler);
    assert forall q :: q in r.pixels <==> q in b.pixels || q in other.pixels;
    r
  }

  // ----- All blobs

  type Blobs = map<nat, Blob>
  type Index = map<Cell, nat>

  ghost function Parts(blobs: Blobs): set<set<Cell>> {
    set id | id in blobs :: CellsOf(blobs[id])
  }

  /** The spatial index and the blobs tell the same story. */
  ghost predicate Agree(blobs: Blobs, index: Index) {
    && (forall c :: c in index ==> index[c] in blobs && c in CellsOf(blobs[index[c]]))
    && (forall id, c :: id in blobs && c in CellsOf(blobs[id]) ==> c in index && index[c] == id)
  }

  ghost predicate BlobsOk(blobs: Blobs, nextId: nat, range: DopplerRange) {
    forall id :: id in blobs ==> id < nextId && blobs[id].id == id && BlobOk(blobs[id], range)
  }

  ghost predicate InRing(n: nat, index: Index) {
    forall c :: c in index ==> c.spoke < n
  }

  /** The ids of the blobs next to a cell. */
  ghost predicate IsNeighbour(n: nat, index: Index, c: Cell, id: nat)
    requires n > 0
  {
    exists q :: q in index && index[q] == id && IsNear(n, q, c)
  }

  /** The index after handing a set of cells to a blob. */
  function Relabel(index: Index, cells: set<Cell>, id: nat): Index {
    map c | c in index.Keys + cells :: if c in cells then id else index[c]
  }

  lemma NeighbourTouches(n: nat, blobs: Blobs, index: Index, c: Cell, id: nat)
    requires n > 0 && Agree(blobs, index) && id in blobs
    ensures IsNeighbour(n, index, c, id) <==> Touches(RingNear(n), CellsOf(blobs[id]), c)
  {
    if Touches(RingNear(n), CellsOf(blobs[id]), c) {
      var q :| q in CellsOf(blobs[id]) && RingNear(n)(q, c);
      assert q in index && index[q] == id && IsNear(n, q, c);
    }
  }

  ghost function PartsOf(blobs: Blobs, ids: set<nat>): set<set<Cell>> {
    set id | id in ids && id in blobs :: CellsOf(blobs[id])
  }

  /** Every cell that one of these blobs owns. */
  ghost function Owned(blobs: Blobs, ids: set<nat>): set<Cell> {
    set id, q | id in ids && id in blobs && q in CellsOf(blobs[id]) :: q
  }

  lemma OwnedIsUnion(blobs: Blobs, ids: set<nat>)
    ensures Owned(blobs, ids) == Union(PartsOf(blobs, ids))
  {
    forall q | q in Owned(blobs, ids) ensures q in Union(PartsOf(blobs, ids)) {
      var id :| id in ids && id in blobs && q in CellsOf(blobs[id]);
      assert CellsOf(blobs[id]) in PartsOf(blobs, ids);
    }
  }

  lemma PartsTouching(n: nat, blobs: Blobs, index: Index, c: Cell, ids: set<nat>)
    requires n > 0 && Agree(blobs, index)
    requires forall id :: id in ids <==> IsNeighbour(n, index, c, id)
    ensures ids <= blobs.Keys
    ensures Touching(RingNear(n), Parts(blobs), c) == PartsOf(blobs, ids)
  {
    hide RingNear, IsNear;
    forall id | id in blobs ensures id in ids <==> Touches(RingNear(n), CellsOf(blobs[id]), c) {
      NeighbourTouches(n, blobs, index, c, id);
    }
  }

  /** One pixel joins the blobs it is next to: what the detector's blobs become. */
  ghost predicate Joined(blobs: Blobs, ids: set<nat>, c: Cell, target: nat, blobs': Blobs) {
    && target in blobs' && (ids != {} ==> target in ids) && (ids == {} ==> target !in blobs)
    && blobs'.Keys == blobs.Keys - ids + {target}
    && (forall id :: id in blobs' && id != target ==> blobs'[id] == blobs[id])
    && CellsOf(blobs'[target]) == Owned(blobs, ids) + {c}
  }

  /** Blobs that own no common cell are different parts. */
  lemma OtherPartStays(blobs: Blobs, index: Index, ids: set<nat>, id: nat)
    requires Agree(blobs, index) && id in blobs && id !in ids
    requires CellsOf(blobs[id]) != {}
    ensures CellsOf(blobs[id]) !in PartsOf(blobs, ids)
  {
    var q :| q in CellsOf(blobs[id]);
    assert index[q] == id;
  }

  lemma JoinedIsMerge(n: nat, blobs: Blobs, index: Index, ids: set<nat>, c: Cell, target: nat, blobs': Blobs)
    requires n > 0 && Agree(blobs, index)
    requires forall id :: id in blobs ==> CellsOf(blobs[id]) != {}
    requires forall id :: id in ids <==> IsNeighbour(n, index, c, id)
    requires Joined(blobs, ids, c, target, blobs')
    ensures Parts(blobs') == Merge(RingNear(n), Parts(blobs), c)
  {
    hide RingNear, CellsOf, Owned, IsNeighbour, Union, Touching, Agree;
    PartsTouching(n, blobs, index, c, ids);
    OwnedIsUnion(blobs, ids);
    forall id | id in blobs && id !in ids ensures CellsOf(blobs[id]) !in PartsOf(blobs, ids) {
      OtherPartStays(blobs, index, ids, id);
    }
    var others := Parts(blobs) - PartsOf(blobs, ids);
    forall part | part in Parts(blobs') ensures part in others + {CellsOf(blobs'[target])} {
      var id :| id in blobs' && CellsOf(blobs'[id]) == part;
    }
    forall part | part in others ensures part in Parts(blobs') {
      var id :| id in blobs && CellsOf(blobs[id]) == part;
      assert id in blobs' && blobs'[id] == blobs[id];
    }
    assert Parts(blobs') == others + {CellsOf(blobs'[target])};
  }

  lemma AgreeAfterJoin(blobs: Blobs, index: Index, ids: set<nat>, c: Cell, target: nat, blobs': Blobs)
    requires Agree(blobs, index) && Joined(blobs, ids, c, target, blobs') && ids <= blobs.Keys
    requires c in index ==> index[c] in ids
    ensures Agree(blobs', Relabel(index, Owned(blobs, ids) + {c}, target))
  {
    var cells := Owned(blobs, ids) + {c};
    var index' := Relabel(index, cells, target);
    assert CellsOf(blobs'[target]) == cells;
    forall q | q in index' ensures index'[q] in blobs' && q in CellsOf(blobs'[index'[q]]) {
      if q !in cells {
        assert index[q] !in ids;
      }
    }
    forall id, q | id in blobs' && q in CellsOf(blobs'[id]) ensures q in index' && index'[q] == id {
      if id != target {
        assert index[q] == id && q !in Owned(blobs, ids);
      }
    }
  }

  // ----- The detector

  /** The active blobs are the connected components of the pixels in the index. */
  ghost predicate StateOk(n: nat, range: DopplerRange, blobs: Blobs, index: Index, nextId: nat) {
    && n > 0 && Agree(blobs, index) && BlobsOk(blobs, nextId, range) && InRing(n, index)
    && IsComponents(RingNear(n), index.Keys, Parts(blobs))
  }

  lemma StateAfterJoin(
    n: nat, range: DopplerRange, blobs: Blobs, index: Index, nextId: nat,
    ids: set<nat>, c: Cell, target: nat, blobs': Blobs, nextId': nat)
    requires StateOk(n, range, blobs, index, nextId) && c.spoke < n
    requires forall id :: id in ids <==> IsNeighbour(n, index, c, id)
    requires Joined(blobs, ids, c, target, blobs') && BlobsOk(blobs', nextId', range)
    ensures StateOk(n, range, blobs', Relabel(index, Owned(blobs, ids) + {c}, target), nextId')
  {
    hide IsNear, RingNear, Joined, Parts, IsComponents, CellsOf, Relabel, Owned, Agree, BlobsOk, IsNeighbour, InRing;
    NeighboursAreBlobs(n, blobs, index, ids, c);
    AgreeAfterJoin(blobs, index, ids, c, target, blobs');
    OwnedIndexed(blobs, index, ids);
    RelabelledKeys(n, index, Owned(blobs, ids), c, target);
    CellsNotEmpty(blobs, nextId, range);
    JoinedIsMerge(n, blobs, index, ids, c, target, blobs');
    RingNearIsNearness(n);
    MergeKeepsComponents(RingNear(n), index.Keys, Parts(blobs), c);
  }

  lemma NeighboursAreBlobs(n: nat, blobs: Blobs, index: Index, ids: set<nat>, c: Cell)
    requires n > 0 && Agree(blobs, index) && forall id :: id in ids <==> IsNeighbour(n, index, c, id)
    ensures ids <= blobs.Keys && (c in index ==> index[c] in ids)
  {
    hide IsNear, RingNear, Parts, CellsOf;
    PartsTouching(n, blobs, index, c, ids);
    SelfNear(n, c);
    if c in index {
      assert IsNeighbour(n, index, c, index[c]);
    }
  }

  lemma RelabelledKeys(n: nat, index: Index, owned: set<Cell>, c: Cell, id: nat)
    requires owned <= index.Keys && InRing(n, index) && c.spoke < n
    ensures Relabel(index, owned + {c}, id).Keys == index.Keys + {c} && InRing(n, Relabel(index, owned + {c}, id))
  {
  }

  lemma SelfNear(n: nat, c: Cell)
    requires n > 0
    ensures IsNear(n, c, c)
  {
  }

  lemma OwnedIndexed(blobs: Blobs, index: Index, ids: set<nat>)
    requires Agree(blobs, index)
    ensures Owned(blobs, ids) <= index.Keys
  {
  }

  lemma CellsNotEmpty(blobs: Blobs, nextId: nat, range: DopplerRange)
    requires BlobsOk(blobs, nextId, range)
    ensures forall id :: id in blobs ==> CellsOf(blobs[id]) != {}
  {
    forall id | id in blobs ensures CellsOf(blobs[id]) != {} {
      assert blobs[id].pixels[0].cell in CellsOf(blobs[id]);
    }
  }

  function SetOf(ids: seq<nat>): set<nat> {
    set id | id in ids
  }

  class Detector {
    const spokes: nat
    const threshold: nat
    const dopplerRange: DopplerRange
    var nextBlobId: nat
    var blobs: Blobs
    var index: Index

    ghost predicate Valid()
      reads this
    {
      && spokes < U16
      && if spokes == 0 then blobs == map[] else StateOk(spokes, dopplerRange, blobs, index, nextBlobId)
    }

    constructor (spokes: nat, threshold: nat, dopplerRange: DopplerRange)
      requires spokes < U16
      ensures Valid() && blobs == map[] && index == map[] && nextBlobId == 0
      ensures this.spokes == spokes && this.dopplerRange == dopplerRange
      ensures this.threshold == if threshold > 0 then threshold else 10
    {
      this.spokes, this.dopplerRange := spokes, dopplerRange;
      this.threshold := if threshold > 0 then threshold else 10;
      nextBlobId, blobs, index := 0, map[], map[];
      new;
      assert Parts(blobs) == {};
    }

    /** The distinct ids of the blobs with a pixel next to, or at, the given one. */
    method AdjacentBlobIds(c: Cell) returns (ids: seq<nat>)
      requires spokes > 0 && c.spoke < spokes && InRing(spokes, index)
      ensures forall i, j :: 0 <= i < j < |ids| ==> ids[i] != ids[j]
      ensures forall id :: id in ids <==> IsNeighbour(spokes, index, c, id)
    {
      var near := [PrevSpoke(spokes, c.spoke), c.spoke, NextSpoke(spokes, c.spoke)];
      ids := [];
      for k := 0 to 3
        invariant forall i, j :: 0 <= i < j < |ids| ==> ids[i] != ids[j]
        invariant forall id :: id in ids <==> Found(index, c, near[..k], id)
      {
        ids := AddFromSpoke(c, near[k], ids);
        forall id ensures Found(index, c, near[..k + 1], id) <==>
                          Found(index, c, near[..k], id) || FoundOn(index, c, near[k], id)
        {
          assert near[..k + 1] == near[..k] + [near[k]];
        }
      }
      assert near[..3] == near;
      forall id ensures Found(index, c, near, id) <==> IsNeighbour(spokes, index, c, id) {
        FoundIsNeighbour(spokes, index, c, id);
      }
    }

    /** The three pixels of one spoke around the given one. */
    method AddFromSpoke(c: Cell, s: nat, before: seq<nat>) returns (ids: seq<nat>)
      requires forall i, j :: 0 <= i < j < |before| ==> before[i] != before[j]
      ensures forall i, j :: 0 <= i < j < |ids| ==> ids[i] != ids[j]
      ensures forall id :: id in ids <==> id in before || FoundOn(index, c, s, id)
    {
      ids := before;
      for dp := -1 to 2
        invariant forall i, j :: 0 <= i < j < |ids| ==> ids[i] != ids[j]
        invariant forall id :: id in ids <==>
                    id in before ||
                    exists p: nat :: c.pixel - 1 <= p < c.pixel + dp && Cell(s, p) in index && index[Cell(s, p)] == id
      {
        var p := c.pixel + dp;
        if p >= 0 && Cell(s, p) in index && index[Cell(s, p)] !in ids {
          ids := ids + [index[Cell(s, p)]];
        }
      }
    }
  
    method Reassign(b: Blob, id: nat)
      modifies this`index
      ensures index == Relabel(old(index), CellsOf(b), id)
    {
      for i := 0 to |b.pixels|
        invariant index == Relabel(old(index), CellsAt(b.pixels[..i]), id)
      {
        index := index[b.pixels[i].cell := id];
        CellsAtMore(b.pixels, i);
      }
      assert b.pixels[..|b.pixels|] == b.pixels;
    }

    /** One blob goes into another. */
    method AbsorbBlob(survivor: nat, id: nat, angle: nat)
      requires survivor in blobs && id in blobs && id != survivor
      requires BlobsOk(blobs, nextBlobId, dopplerRange)
      modifies this`blobs, this`index
      ensures blobs.Keys == old(blobs).Keys - {id}
      ensures forall i :: i in blobs && i != survivor ==> blobs[i] == old(blobs)[i]
      ensures CellsOf(blobs[survivor]) == CellsOf(old(blobs)[survivor]) + CellsOf(old(blobs)[id])
      ensures BlobsOk(blobs, nextBlobId, dopplerRange)
      ensures index == Relabel(old(index), CellsOf(old(blobs)[id]), survivor)
    {
      hide BlobOk, CellsOf, Relabel;
      var absorbed := blobs[id];
      blobs := blobs - {id};
      Reassign(absorbed, survivor);
      blobs := blobs[survivor := Absorb(blobs[survivor], absorbed, angle, dopplerRange)];
    }

    method LowestId(ids: seq<nat>) returns (lowest: nat)
      requires ids != []
      ensures lowest in ids && forall id :: id in ids ==> lowest <= id
    {
      lowest := ids[0];
      for i := 0 to |ids|
        invariant lowest in ids
        invariant forall k :: 0 <= k < i ==> lowest <= ids[k]
      {
        if ids[i] < lowest {
          lowest := ids[i];
        }
      }
    }

    /** Merges the given blobs into the one with the lowest id. */
    method MergeBlobs(ids: seq<nat>, angle: nat) returns (survivor: nat)
      requires ids != [] && SetOf(ids) <= blobs.Keys
      requires forall i, j :: 0 <= i < j < |ids| ==> ids[i] != ids[j]
      requires BlobsOk(blobs, nextBlobId, dopplerRange) && Agree(blobs, index)
      modifies this`blobs, this`index
      ensures survivor in ids && forall id :: id in ids ==> survivor <= id
      ensures Absorbed(old(blobs), old(index), SetOf(ids), survivor, blobs, index)
      ensures BlobsOk(blobs, nextBlobId, dopplerRange)
    {
      hide BlobOk, CellsOf, Relabel, Owned, Agree;
      survivor := LowestId(ids);
      ghost var start, startIndex := blobs, index;
      RelabelNothing(start, startIndex, survivor);
      assert SetOf(ids[..0]) == {};
      for i := 0 to |ids|
        invariant start == old(blobs) && startIndex == old(index)
        invariant Absorbed(start, startIndex, SetOf(ids[..i]), survivor, blobs, index)
        invariant BlobsOk(blobs, nextBlobId, dopplerRange)
      {
        ghost var middle, middleIndex := blobs, index;
        if ids[i] != survivor {
          AbsorbBlob(survivor, ids[i], angle);
          AbsorbOne(start, startIndex, SetOf(ids[..i]), survivor, middle, middleIndex, ids[i], blobs, index);
        } else {
          AbsorbSelf(start, startIndex, SetOf(ids[..i]), survivor, blobs, index);
        }
        assert SetOf(ids[..i + 1]) == SetOf(ids[..i]) + {ids[i]};
      }
      assert ids[..|ids|] == ids;
    }

    /** Puts a pixel into a new blob, into its one neighbour, or into all of them made one. */
    method StartBlob(p: BlobPixel) returns (id: nat)
      requires BlobsOk(blobs, nextBlobId, dopplerRange)
      modifies this`blobs, this`nextBlobId
      ensures BlobsOk(blobs, nextBlobId, dopplerRange) && id !in old(blobs) && blobs.Keys == old(blobs).Keys + {id}
      ensures blobs == old(blobs)[id := blobs[id]] && id == old(nextBlobId) == nextBlobId - 1
      ensures CellsOf(blobs[id]) == {p.cell} && blobs[id].last == p.cell.spoke
    {
      hide BlobOk, CellsOf;
      id := nextBlobId;
      nextBlobId := nextBlobId + 1;
      blobs := blobs[id := NewBlob(id, p, dopplerRange)];
    }

    method ExtendBlob(id: nat, p: BlobPixel, angle: nat)
      requires BlobsOk(blobs, nextBlobId, dopplerRange) && id in blobs
      modifies this`blobs
      ensures BlobsOk(blobs, nextBlobId, dopplerRange) && blobs.Keys == old(blobs).Keys
      ensures blobs == old(blobs)[id := blobs[id]]
      ensures CellsOf(blobs[id]) == CellsOf(old(blobs)[id]) + {p.cell} && blobs[id].last == angle
    {
      hide BlobOk, CellsOf;
      blobs := blobs[id := AddToBlob(blobs[id], p, angle, dopplerRange)];
    }

    method Place(p: BlobPixel, angle: nat, ids: seq<nat>) returns (id: nat)
      requires p.cell.spoke == angle
      requires SetOf(ids) <= blobs.Keys && forall i, j :: 0 <= i < j < |ids| ==> ids[i] != ids[j]
      requires BlobsOk(blobs, nextBlobId, dopplerRange) && Agree(blobs, index)
      modifies this
      ensures Joined(old(blobs), SetOf(ids), p.cell, id, blobs) && blobs[id].last == angle
      ensures BlobsOk(blobs, nextBlobId, dopplerRange)
      ensures index == Relabel(old(index), Owned(old(blobs), SetOf(ids)) + {p.cell}, id)
    {
      hide BlobOk, CellsOf, Agree, Owned, Relabel, BlobsOk;
      ghost var start, startIndex := blobs, index;
      OwnedByNone(start, startIndex);
      if ids == [] {
        assert SetOf(ids) == {};
        id := StartBlob(p);
      } else {
        if |ids| == 1 {
          id := ids[0];
          OwnedAlone(start, startIndex, id);
          assert SetOf(ids) == {id};
        } else {
          id := MergeBlobs(ids, angle);
          AbsorbedAll(start, startIndex, SetOf(ids), id, blobs, index);
        }
        ExtendBlob(id, p, angle);
      }
      RelabelOneMore(startIndex, Owned(start, SetOf(ids)), p.cell, id);
      index := index[p.cell := id];
    }

    /** One strong pixel: a new blob, or a longer one, or several made one. */
    method AddPixel(p: BlobPixel, angle: nat) returns (ghost target: nat)
      requires Valid() && p.cell.spoke == angle < spokes
      modifies this
      ensures Valid()
      ensures index.Keys == old(index).Keys + {p.cell}
      ensures Parts(blobs) == Merge(RingNear(spokes), old(Parts(blobs)), p.cell)
      ensures target in blobs && p.cell in CellsOf(blobs[target]) && blobs[target].last == angle
      ensures forall id :: id in blobs && id != target ==>
                id in old(blobs) && blobs[id] == old(blobs)[id] && p.cell !in CellsOf(blobs[id])
    {
      hide IsComponents, Merge, IsNeighbour, BlobsOk, Owned, CellsOf, Parts;
      ghost var start, startIndex, startNext := blobs, index, nextBlobId;
      var ids := AdjacentBlobIds(p.cell);
      PartsTouching(spokes, blobs, index, p.cell, SetOf(ids));
      target := Place(p, angle, ids);
      CellsNotEmpty(start, startNext, dopplerRange);
      JoinedIsMerge(spokes, start, startIndex, SetOf(ids), p.cell, target, blobs);
      StateAfterJoin(spokes, dopplerRange, start, startIndex, startNext, SetOf(ids), p.cell, target, blobs, nextBlobId);
      OwnedIndexed(start, startIndex, SetOf(ids));
    }

    /** The strong pixels of a spoke. */
    method CollectStrong(angle: nat, data: seq<nat>) returns (pixels: seq<BlobPixel>)
      ensures forall p :: p in pixels ==> p.cell.spoke == angle
      ensures CellsAt(pixels) == StrongCells(angle, data, threshold, dopplerRange)
    {
      pixels := [];
      for i := 0 to |data|
        invariant forall p :: p in pixels ==> p.cell.spoke == angle
        invariant CellsAt(pixels) == StrongCells(angle, data[..i], threshold, dopplerRange)
      {
        ghost var before := pixels;
        if IsStrong(data[i], threshold, dopplerRange) {
          pixels := pixels + [BlobPixel(Cell(angle, i), data[i])];
        }
        StrongCellsGrow(angle, data, i, threshold, dopplerRange);
      }
      assert data[..|data|] == data;
    }

    /** Adds every strong pixel of one spoke. */
    method AddPixels(angle: nat, pixels: seq<BlobPixel>)
      requires Valid() && angle < spokes && forall p :: p in pixels ==> p.cell.spoke == angle
      modifies this
      ensures Valid()
      ensures index.Keys == old(index).Keys + CellsAt(pixels)
      ensures Advanced(old(blobs), CellsAt(pixels), angle, blobs)
    {
      hide StateOk, CellsOf, CellsAt, Advanced, Merge;
      AdvancedNone(blobs, angle);
      assert CellsAt(pixels[..0]) == {} by { NoCells(); }
      for i := 0 to |pixels|
        invariant Valid()
        invariant index.Keys == old(index).Keys + CellsAt(pixels[..i])
        invariant Advanced(old(blobs), CellsAt(pixels[..i]), angle, blobs)
      {
        ghost var middle := blobs;
        ghost var target := AddPixel(pixels[i], angle);
        AdvancedMore(old(blobs), CellsAt(pixels[..i]), angle, middle, target, pixels[i].cell, blobs);
        CellsAtMore(pixels, i);
      }
      assert pixels[..|pixels|] == pixels;
    }

    /** The blobs that neither this spoke nor the one before it extended. */
    method CollectFinished(angle: nat) returns (ids: seq<nat>)
      requires spokes > 0
      ensures forall i, j :: 0 <= i < j < |ids| ==> ids[i] != ids[j]
      ensures forall id :: id in ids <==> id in blobs && !IsRecent(spokes, blobs[id], angle)
    {
      ids := [];
      var todo := blobs.Keys;
      while todo != {}
        invariant todo <= blobs.Keys
        invariant forall i, j :: 0 <= i < j < |ids| ==> ids[i] != ids[j]
        invariant forall id :: id in ids <==> id in blobs.Keys - todo && !IsRecent(spokes, blobs[id], angle)
      {
        var id :| id in todo;
        if !IsRecent(spokes, blobs[id], angle) {
          ids := ids + [id];
        }
        todo := todo - {id};
      }
    }

    method Unindex(b: Blob)
      modifies this`index
      ensures index == old(index) - CellsOf(b)
    {
      for i := 0 to |b.pixels|
        invariant index == old(index) - CellsAt(b.pixels[..i])
      {
        index := index - {b.pixels[i].cell};
        CellsAtMore(b.pixels, i);
      }
      assert b.pixels[..|b.pixels|] == b.pixels;
    }

    /** Takes finished blobs out of the detector and hands them over. */
    method RemoveBlobs(ids: seq<nat>) returns (completed: seq<Blob>)
      requires SetOf(ids) <= blobs.Keys && forall i, j :: 0 <= i < j < |ids| ==> ids[i] != ids[j]
      modifies this`blobs, this`index
      ensures |completed| == |ids| && forall i :: 0 <= i < |ids| ==> completed[i] == old(blobs)[ids[i]]
      ensures blobs == old(blobs) - SetOf(ids)
      ensures index == old(index) - Owned(old(blobs), SetOf(ids))
    {
      hide CellsOf, Owned;
      completed := [];
      ghost var start := blobs;
      OwnedByNone(start, index);
      assert SetOf(ids[..0]) == {};
      for i := 0 to |ids|
        invariant start == old(blobs)
        invariant |completed| == i && forall k :: 0 <= k < i ==> completed[k] == start[ids[k]]
        invariant blobs == start - SetOf(ids[..i])
        invariant index == old(index) - Owned(start, SetOf(ids[..i]))
      {
        completed := completed + [blobs[ids[i]]];
        Unindex(blobs[ids[i]]);
        blobs := blobs - {ids[i]};
        assert SetOf(ids[..i + 1]) == SetOf(ids[..i]) + {ids[i]} by {
          assert ids[..i + 1] == ids[..i] + [ids[i]];
        }
        OwnedMore(start, SetOf(ids[..i]), ids[i]);
      }
      assert ids[..|ids|] == ids;
    }

    /**
     One spoke: its strong pixels join the blobs, and the finished blobs are
     handed over. None stands for the remainder by a turn of no spokes.
     */
    method ProcessSpoke(rawAngle: nat, data: seq<nat>) returns (r: Option<seq<Blob>>)
      requires Valid()
      modifies this
      ensures Valid()
      ensures r.None? <==> spokes == 0
      ensures r.Some? ==>
                var angle := OnTurn(rawAngle, spokes);
                RingStep(spokes, old(Snapshot(blobs)), angle, StrongCells(angle, data, threshold, dopplerRange),
                         Snapshot(blobs), Completed(r.value))
      ensures r.Some? ==> NoneTwice(r.value) && forall b :: b in r.value ==> WellFormed(spokes, dopplerRange, b)
    {
      if spokes == 0 {
        return None;
      }
      var completed := ProcessAt(OnTurn(rawAngle, spokes), data);
      return Some(completed);
    }

    method ProcessAt(angle: nat, data: seq<nat>) returns (completed: seq<Blob>)
      requires Valid() && angle < spokes
      modifies this
      ensures Valid()
      ensures RingStep(spokes, old(Snapshot(blobs)), angle, StrongCells(angle, data, threshold, dopplerRange),
                       Snapshot(blobs), Completed(completed))
      ensures NoneTwice(completed) && forall b :: b in completed ==> WellFormed(spokes, dopplerRange, b)
    {
      hide StateOk, CellsOf, StrongCells;
      ghost var start, startIndex, startNext := blobs, index, nextBlobId;
      var pixels := CollectStrong(angle, data);
      AddPixels(angle, pixels);
      ghost var middle, middleIndex := blobs, index;
      var ids := CollectFinished(angle);
      completed := RemoveBlobs(ids);
      assert SetOf(ids) == set id | id in middle && !IsRecent(spokes, middle[id], angle);
      forall b | b in completed ensures WellFormed(spokes, dopplerRange, b) {
        var i :| 0 <= i < |ids| && b == middle[ids[i]];
        BlobIsWellFormed(spokes, dopplerRange, middle, middleIndex, nextBlobId, ids[i]);
      }
      DistinctBodies(spokes, dopplerRange, middle, middleIndex, nextBlobId);
      StateAfterRemoval(spokes, dopplerRange, middle, middleIndex, nextBlobId, SetOf(ids));
      ghost var done := Completed(completed);
      assert done == Snapshot(Only(middle, SetOf(ids))) by {
        HandedOver(middle, ids, completed);
      }
      KeysAreCells(spokes, dopplerRange, start, startIndex, startNext);
      KeysAreCells(spokes, dopplerRange, middle, middleIndex, nextBlobId);
      SplitIsRingStep(spokes, start, angle, StrongCells(angle, data, threshold, dopplerRange), middle, SetOf(ids));
    }
  }

  /** The angle is cut to 16 bits and taken round the turn. */
  function OnTurn(rawAngle: nat, spokes: nat): (angle: nat)
    requires spokes > 0
    ensures angle < spokes
  {
    rawAngle % U16 % spokes
  }

  /** The angle keeps its low 16 bits and is then taken round the turn. */
  lemma OnTurnMeans(low: nat, high: nat, spokes: nat)
    requires spokes > 0 && low < 65536
    ensures OnTurn(low + 65536 * high, spokes) == low % spokes
  {
    assert (low + 65536 * high) % 65536 == low;
  }

  /** No two of the blobs have the same cells. */
  ghost predicate NoneTwice(blobs: seq<Blob>) {
    forall i, j :: 0 <= i < j < |blobs| ==> CellsOf(blobs[i]) != CellsOf(blobs[j])
  }

  /** The index tells blobs apart by their cells. */
  ghost predicate Distinct(blobs: Blobs) {
    forall id, other :: id in blobs && other in blobs && id != other ==> CellsOf(blobs[id]) != CellsOf(blobs[other])
  }

  lemma DistinctBodies(n: nat, range: DopplerRange, blobs: Blobs, index: Index, nextId: nat)
    requires StateOk(n, range, blobs, index, nextId)
    ensures Distinct(blobs)
  {
    hide IsComponents, RingNear, CellsOf;
    CellsNotEmpty(blobs, nextId, range);
    forall id, other | id in blobs && other in blobs && id != other
      ensures CellsOf(blobs[id]) != CellsOf(blobs[other])
    {
      var c :| c in CellsOf(blobs[id]);
      assert index[c] == id;
    }
  }

  /** The bounds of a Doppler band given by its start and its count, in byte arithmetic; None is an overflow. */
  function DopplerBounds(band: Option<(nat, nat)>): Option<DopplerRange> {
    if band.None? then Some(None)
    else
      var end := band.value.0 + band.value.1;
      if end > 255 || end == 0 then None else Some(Some((band.value.0, end - 1)))
  }

  /** The range test is membership in the legend's band. */
  lemma DopplerBoundsMean(band: Option<(nat, nat)>, intensity: nat)
    requires DopplerBounds(band).Some?
    ensures IsDoppler(DopplerBounds(band).value, intensity) <==> Legend.InBand(band, intensity)
  {
  }

  /**
   A new detector; None stands for the overflow of the bounds. A strong-return
   threshold of zero is replaced by the default.
   */
  method NewDetector(spokes: nat, threshold: nat, approaching: Option<(nat, nat)>) returns (r: Option<Detector>)
    requires spokes < U16
    ensures r.None? <==> approaching.Some? && (approaching.value.0 + approaching.value.1 > 255
                                               || approaching.value.0 + approaching.value.1 == 0)
    ensures r.Some? ==> fresh(r.value) && r.value.Valid() && r.value.blobs == map[] && r.value.spokes == spokes
    ensures r.Some? ==> r.value.threshold == if threshold > 0 then threshold else 10
    ensures r.Some? ==> forall i: nat :: IsDoppler(r.value.dopplerRange, i) <==> Legend.InBand(approaching, i)
  {
    var bounds := DopplerBounds(approaching);
    if bounds.None? {
      return None;
    }
    forall i: nat ensures IsDoppler(bounds.value, i) <==> Legend.InBand(approaching, i) {
      DopplerBoundsMean(approaching, i);
    }
    var detector := new Detector(spokes, threshold, bounds.value);
    return Some(detector);
  }

  /** What a detector says of a blob is right, and its pixels are on the ring. */
  ghost predicate WellFormed(n: nat, range: DopplerRange, b: Blob) {
    BlobOk(b, range) && forall p :: p in b.pixels ==> p.cell.spoke < n
  }

  lemma BlobIsWellFormed(n: nat, range: DopplerRange, blobs: Blobs, index: Index, nextId: nat, id: nat)
    requires StateOk(n, range, blobs, index, nextId) && id in blobs
    ensures WellFormed(n, range, blobs[id])
  {
    hide IsComponents, RingNear;
    forall p | p in blobs[id].pixels ensures p.cell.spoke < n {
      assert p.cell in CellsOf(blobs[id]);
    }
  }

  ghost function Only(blobs: Blobs, ids: set<nat>): Blobs {
    map id | id in blobs && id in ids :: blobs[id]
  }

  lemma StateAfterRemoval(n: nat, range: DopplerRange, blobs: Blobs, index: Index, nextId: nat, ids: set<nat>)
    requires StateOk(n, range, blobs, index, nextId) && ids <= blobs.Keys
    ensures StateOk(n, range, blobs - ids, index - Owned(blobs, ids), nextId)
  {
    hide RingNear, BlobOk, Union, Connected, Apart;
    var left, leftIndex := blobs - ids, index - Owned(blobs, ids);
    assert Agree(left, leftIndex) by {
      AgreeAfterRemoval(blobs, index, ids);
    }
    CellsNotEmpty(blobs, nextId, range);
    assert Parts(left) == Parts(blobs) - PartsOf(blobs, ids) by {
      PartsAfterRemoval(blobs, index, ids);
    }
    OwnedIsUnion(blobs, ids);
    assert leftIndex.Keys == index.Keys - Owned(blobs, ids);
    RingNearIsNearness(n);
    RemoveParts(RingNear(n), index.Keys, Parts(blobs), PartsOf(blobs, ids));
  }

  lemma AgreeAfterRemoval(blobs: Blobs, index: Index, ids: set<nat>)
    requires Agree(blobs, index)
    ensures Agree(blobs - ids, index - Owned(blobs, ids))
  {
    hide CellsOf;
    var left, leftIndex := blobs - ids, index - Owned(blobs, ids);
    forall q | q in leftIndex ensures leftIndex[q] in left && q in CellsOf(left[leftIndex[q]]) {
      assert q in CellsOf(blobs[index[q]]);
      assert index[q] !in ids;
    }
    forall id, q | id in left && q in CellsOf(left[id]) ensures q in leftIndex && leftIndex[q] == id {
      assert index[q] == id;
      assert q !in Owned(blobs, ids);
    }
  }

  lemma PartsAfterRemoval(blobs: Blobs, index: Index, ids: set<nat>)
    requires Agree(blobs, index) && forall id :: id in blobs ==> CellsOf(blobs[id]) != {}
    ensures Parts(blobs - ids) == Parts(blobs) - PartsOf(blobs, ids)
  {
    hide CellsOf, Agree;
    forall id | id in blobs - ids ensures CellsOf(blobs[id]) !in PartsOf(blobs, ids) {
      OtherPartStays(blobs, index, ids, id);
    }
    forall part | part in Parts(blobs) - PartsOf(blobs, ids) ensures part in Parts(blobs - ids) {
      var id :| id in blobs && CellsOf(blobs[id]) == part;
      assert id in blobs - ids;
    }
  }

  lemma HandedOver(blobs: Blobs, ids: seq<nat>, completed: seq<Blob>)
    requires SetOf(ids) <= blobs.Keys
    requires |completed| == |ids| && forall i :: 0 <= i < |ids| ==> completed[i] == blobs[ids[i]]
    ensures Completed(completed) == Snapshot(Only(blobs, SetOf(ids)))
  {
    hide CellsOf;
    var only := Only(blobs, SetOf(ids));
    forall id | id in only ensures only[id] in completed {
      var i :| 0 <= i < |ids| && ids[i] == id;
      assert completed[i] == only[id];
    }
    forall b | b in completed ensures Part(CellsOf(b), b.last) in Snapshot(only) {
      var i :| 0 <= i < |completed| && completed[i] == b;
      assert ids[i] in only;
    }
  }

  lemma KeysAreCells(n: nat, range: DopplerRange, blobs: Blobs, index: Index, nextId: nat)
    requires StateOk(n, range, blobs, index, nextId)
    ensures Bodies(Snapshot(blobs)) == Parts(blobs) && Union(Parts(blobs)) == index.Keys
    ensures IsComponents(RingNear(n), index.Keys, Parts(blobs))
  {
    hide CellsOf, Union;
    forall id | id in blobs ensures CellsOf(blobs[id]) in Bodies(Snapshot(blobs)) {
      assert Part(CellsOf(blobs[id]), blobs[id].last) in Snapshot(blobs);
    }
  }

  lemma SplitIsRingStep(n: nat, start: Blobs, angle: nat, news: set<Cell>, middle: Blobs, ids: set<nat>)
    requires n > 0 && ids == set id | id in middle && !IsRecent(n, middle[id], angle)
    requires Advanced(start, news, angle, middle) && Distinct(middle)
    requires IsComponents(RingNear(n), Union(Bodies(Snapshot(start))) + news, Parts(middle))
    ensures RingStep(n, Snapshot(start), angle, news, Snapshot(middle - ids), Snapshot(Only(middle, ids)))
  {
    hide CellsOf, Union, IsComponents, RingNear;
    var kept, gone := Snapshot(middle - ids), Snapshot(Only(middle, ids));
    assert Bodies(kept) + Bodies(gone) == Parts(middle) by {
      forall id | id in middle ensures CellsOf(middle[id]) in Bodies(kept) + Bodies(gone) {
        var part := Part(CellsOf(middle[id]), middle[id].last);
        if id in ids {
          assert id in Only(middle, ids) && part in gone && part.cells in Bodies(gone);
        } else {
          assert id in middle - ids && part in kept && part.cells in Bodies(kept);
        }
      }
    }
    forall p: Part | p in kept + gone ensures if p.cells * news != {} then p.last == angle else p in Snapshot(start) {
      var id :| id in middle && p == Part(CellsOf(middle[id]), middle[id].last);
    }
    forall p: Part, q: Part | p in kept + gone && q in kept + gone && p.cells == q.cells ensures p == q {
      var id :| id in middle && p == Part(CellsOf(middle[id]), middle[id].last);
      var other :| other in middle && q == Part(CellsOf(middle[other]), middle[other].last);
      assert id == other;
    }
  }

  predicate IsStrong(intensity: nat, threshold: nat, range: DopplerRange) {
    intensity >= threshold || IsDoppler(range, intensity)
  }

  ghost function StrongCells(angle: nat, data: seq<nat>, threshold: nat, range: DopplerRange): set<Cell> {
    set i | 0 <= i < |data| &&
            (data[i] >= threshold || (range.Some? && range.value.0 <= data[i] <= range.value.1)) :: Cell(angle, i)
  }

  lemma StrongCellsGrow(angle: nat, data: seq<nat>, i: nat, threshold: nat, range: DopplerRange)
    requires i < |data|
    ensures StrongCells(angle, data[..i + 1], threshold, range) ==
            StrongCells(angle, data[..i], threshold, range) +
            if IsStrong(data[i], threshold, range) then {Cell(angle, i)} else {}
  {
    var longer, shorter := data[..i + 1], data[..i];
    forall k | 0 <= k < i ensures longer[k] == shorter[k] { }
    assert longer[i] == data[i];
  }

  predicate IsRecent(n: nat, b: Blob, angle: nat)
    requires n > 0
  {
    b.last == angle || b.last == PrevSpoke(n, angle)
  }

  /** A blob with a pixel of this spoke was last extended by it; any other blob is as it was. */
  ghost predicate Advanced(before: Blobs, news: set<Cell>, angle: nat, after: Blobs) {
    forall id :: id in after ==>
      if CellsOf(after[id]) * news != {} then after[id].last == angle
      else id in before && after[id] == before[id]
  }

  lemma NoCells()
    ensures CellsAt([]) == {}
  {
  }

  lemma AdvancedNone(blobs: Blobs, angle: nat)
    ensures Advanced(blobs, {}, angle, blobs)
  {
  }

  lemma AdvancedMore(before: Blobs, news: set<Cell>, angle: nat, middle: Blobs, target: nat, c: Cell, after: Blobs)
    requires Advanced(before, news, angle, middle)
    requires target in after && c in CellsOf(after[target]) && after[target].last == angle
    requires forall id :: id in after && id != target ==>
               id in middle && after[id] == middle[id] && c !in CellsOf(after[id])
    ensures Advanced(before, news + {c}, angle, after)
  {
    hide CellsOf;
    forall id | id in after
      ensures if CellsOf(after[id]) * (news + {c}) != {} then after[id].last == angle
              else id in before && after[id] == before[id]
    {
      if id == target {
        assert c in CellsOf(after[id]) * (news + {c});
      } else {
        assert CellsOf(after[id]) * (news + {c}) == CellsOf(after[id]) * news;
      }
    }
  }

  /** What an observer sees of a blob: its cells and the spoke that last extended it. */
  datatype Part = Part(cells: set<Cell>, last: nat)

  ghost function Snapshot(blobs: Blobs): set<Part> {
    set id | id in blobs :: Part(CellsOf(blobs[id]), blobs[id].last)
  }

  ghost function Completed(blobs: seq<Blob>): set<Part> {
    set b | b in blobs :: Part(CellsOf(b), b.last)
  }

  ghost function Bodies(parts: set<Part>): set<set<Cell>> {
    set p | p in parts :: p.cells
  }

  /**
   One spoke, seen from outside: the blobs kept and the blobs handed over are
   together the components of the cells held before and the new ones, and a
   blob is handed over when it was not extended by this spoke or the last. No
   two blobs have the same cells.
   */
  ghost predicate RingStep(n: nat, before: set<Part>, angle: nat, news: set<Cell>, after: set<Part>, done: set<Part>) {
    && n > 0
    && IsComponents(RingNear(n), Union(Bodies(before)) + news, Bodies(after) + Bodies(done))
    && (forall p :: p in after + done ==> if p.cells * news != {} then p.last == angle else p in before)
    && (forall p :: p in after ==> p.last == angle || p.last == PrevSpoke(n, angle))
    && (forall p :: p in done ==> p.last != angle && p.last != PrevSpoke(n, angle))
    && (forall p, q :: p in after + done && q in after + done && p.cells == q.cells ==> p == q)
  }

  lemma OwnedByNone(blobs: Blobs, index: Index)
    ensures Owned(blobs, {}) == {} && forall id :: Relabel(index, {}, id) == index
  {
  }

  lemma RelabelOneMore(index: Index, cells: set<Cell>, c: Cell, id: nat)
    ensures Relabel(index, cells + {c}, id) == Relabel(index, cells, id)[c := id]
  {
  }

  /** Part way through merging: the blobs of `done` have gone into the survivor. */
  ghost predicate Absorbed(start: Blobs, startIndex: Index, done: set<nat>, survivor: nat, blobs: Blobs, index: Index) {
    && survivor in start && survivor in blobs
    && blobs.Keys == start.Keys - done + {survivor}
    && (forall id :: id in blobs && id != survivor ==> blobs[id] == start[id])
    && CellsOf(blobs[survivor]) == Owned(start, done + {survivor})
    && index == Relabel(startIndex, Owned(start, done + {survivor}), survivor)
  }

  lemma OwnedAlone(blobs: Blobs, index: Index, id: nat)
    requires id in blobs && Agree(blobs, index)
    ensures Owned(blobs, {id}) == CellsOf(blobs[id])
    ensures Relabel(index, CellsOf(blobs[id]), id) == index
  {
  }

  lemma OwnedMore(blobs: Blobs, ids: set<nat>, id: nat)
    requires id in blobs
    ensures Owned(blobs, ids + {id}) == Owned(blobs, ids) + CellsOf(blobs[id])
  {
  }

  lemma RelabelNothing(start: Blobs, startIndex: Index, survivor: nat)
    requires survivor in start && Agree(start, startIndex)
    ensures Absorbed(start, startIndex, {}, survivor, start, startIndex)
  {
    OwnedAlone(start, startIndex, survivor);
    assert {} + {survivor} == {survivor};
  }

  lemma AbsorbOne(start: Blobs, startIndex: Index, done: set<nat>, survivor: nat,
                  blobs: Blobs, index: Index, id: nat, blobs': Blobs, index': Index)
    requires Absorbed(start, startIndex, done, survivor, blobs, index)
    requires id in start && id !in done && id != survivor
    requires blobs'.Keys == blobs.Keys - {id}
    requires forall i :: i in blobs' && i != survivor ==> blobs'[i] == blobs[i]
    requires survivor in blobs' && CellsOf(blobs'[survivor]) == CellsOf(blobs[survivor]) + CellsOf(start[id])
    requires index' == Relabel(index, CellsOf(start[id]), survivor)
    ensures Absorbed(start, startIndex, done + {id}, survivor, blobs', index')
  {
    hide CellsOf, Owned;
    OwnedMore(start, done + {survivor}, id);
    assert done + {id} + {survivor} == done + {survivor} + {id};
    assert blobs'.Keys == start.Keys - (done + {id}) + {survivor};
  }

  lemma AbsorbSelf(start: Blobs, startIndex: Index, done: set<nat>, survivor: nat, blobs: Blobs, index: Index)
    requires Absorbed(start, startIndex, done, survivor, blobs, index)
    ensures Absorbed(start, startIndex, done + {survivor}, survivor, blobs, index)
  {
    hide CellsOf, Owned;
    assert done + {survivor} + {survivor} == done + {survivor};
    assert blobs.Keys == start.Keys - (done + {survivor}) + {survivor};
  }

  lemma AbsorbedAll(start: Blobs, startIndex: Index, done: set<nat>, survivor: nat, blobs: Blobs, index: Index)
    requires Absorbed(start, startIndex, done, survivor, blobs, index) && survivor in done
    ensures CellsOf(blobs[survivor]) == Owned(start, done)
    ensures index == Relabel(startIndex, Owned(start, done), survivor)
  {
    hide CellsOf, Owned;
    assert done + {survivor} == done;
  }

  /** An id found among the three pixels of spoke s around c. */
  ghost predicate FoundOn(index: Index, c: Cell, s: nat, id: nat) {
    exists p: nat :: c.pixel - 1 <= p < c.pixel + 2 && Cell(s, p) in index && index[Cell(s, p)] == id
  }

  ghost predicate Found(index: Index, c: Cell, near: seq<nat>, id: nat) {
    exists s :: s in near && FoundOn(index, c, s, id)
  }

  lemma FoundIsNeighbour(n: nat, index: Index, c: Cell, id: nat)
    requires n > 0 && c.spoke < n && InRing(n, index)
    ensures Found(index, c, [PrevSpoke(n, c.spoke), c.spoke, NextSpoke(n, c.spoke)], id) <==>
            IsNeighbour(n, index, c, id)
  {
    var near := [PrevSpoke(n, c.spoke), c.spoke, NextSpoke(n, c.spoke)];
    if IsNeighbour(n, index, c, id) {
      var q :| q in index && index[q] == id && IsNear(n, q, c);
      PrevIsNear(n, c.spoke, q.spoke);
      assert q == Cell(q.spoke, q.pixel);
      assert q.spoke in near;
      assert FoundOn(index, c, q.spoke, id);
    }
    if Found(index, c, near, id) {
      var s :| s in near && FoundOn(index, c, s, id);
      var p: nat :| c.pixel - 1 <= p < c.pixel + 2 && Cell(s, p) in index && index[Cell(s, p)] == id;
      PrevIsNear(n, c.spoke, s);
      assert IsNear(n, Cell(s, p), c);
    }
  }
}
