/**
 Rescaling relative trails when the range changes.

 The zoom factor is the exact fraction p/q, the previous range over the new one.
 Old cell j reaches up to new cell j*p/q, rounded down, so each new cell shows
 the first old cell that reaches it.
 */
module TrailZoom {
  import opened Floors

  /** The last new cell that old cell j reaches. */
  function Image(j: nat, p: nat, q: nat): nat
    requires q > 0
  {
    j * p / q
  }

  /** The first old cell that reaches new cell k. */
  function Origin(k: nat, p: nat, q: nat): nat
    requires p > 0
  {
    (k * q + p - 1) / p
  }

  /** Origin is the least old cell whose image is at least k. */
  lemma OriginIsLeast(j: nat, k: nat, p: nat, q: nat)
    requires p > 0 && q > 0
    ensures Image(j, p, q) >= k <==> j >= Origin(k, p, q)
  {
    FloorAtLeast(j * p, q, k);
    FloorAtLeast(k * q + p - 1, p, j + 1);
    assert (j + 1) * p == j * p + p;
  }

  lemma ImageMonotone(i: nat, j: nat, p: nat, q: nat)
    requires i <= j && p > 0 && q > 0
    ensures Image(i, p, q) <= Image(j, p, q)
  {
    OriginIsLeast(i, Image(i, p, q), p, q);
    OriginIsLeast(j, Image(i, p, q), p, q);
  }

  /** What cell k becomes. Only the first spoke keeps radius 0. */
  function ZoomedCell(row: seq<nat>, first: bool, k: nat, p: nat, q: nat): nat
    requires p > 0 && q > 0
  {
    var j := Origin(k, p, q);
    if (k == 0 && !first) || j >= |row| || Image(j, p, q) >= |row| then 0 else row[j]
  }

  function ZoomedRow(row: seq<nat>, first: bool, p: nat, q: nat): (r: seq<nat>)
    requires p > 0 && q > 0
    ensures |r| == |row| && forall k :: 0 <= k < |r| ==> r[k] == ZoomedCell(row, first, k, p, q)
  {
    seq(|row|, k requires 0 <= k < |row| => ZoomedCell(row, first, k, p, q))
  }

  /** Cells below this are settled once j old cells have been placed. */
  function Settled(j: nat, p: nat, q: nat): nat
    requires q > 0
  {
    if j == 0 then 0 else Image(j - 1, p, q) + 1
  }

  lemma PlacedCell(row: seq<nat>, first: bool, j: nat, k: nat, p: nat, q: nat)
    requires p > 0 && q > 0 && j < |row| && Image(j, p, q) < |row| && Settled(j, p, q) <= k <= Image(j, p, q)
    ensures ZoomedCell(row, first, k, p, q) == if k == 0 && !first then 0 else row[j]
  {
    OriginIsLeast(j, k, p, q);
    if j > 0 {
      OriginIsLeast(j - 1, k, p, q);
    }
  }

  lemma UnplacedCell(row: seq<nat>, first: bool, j: nat, k: nat, p: nat, q: nat)
    requires p > 0 && q > 0 && j <= |row| && Settled(j, p, q) <= k
    requires j < |row| ==> Image(j, p, q) >= |row|
    ensures ZoomedCell(row, first, k, p, q) == 0
  {
    var o := Origin(k, p, q);
    if j > 0 {
      OriginIsLeast(j - 1, k, p, q);
    }
    if j < |row| {
      ImageMonotone(j, o, p, q);
    }
  }

  lemma SettledGrows(j: nat, p: nat, q: nat)
    requires p > 0 && q > 0
    ensures Settled(j, p, q) <= Image(j, p, q) + 1 == Settled(j + 1, p, q)
  {
    if j > 0 {
      ImageMonotone(j - 1, j, p, q);
    }
  }

  /** Rescales one spoke into a cleared buffer; the running index is handed on to the next spoke. */
  method ZoomSpoke(row: seq<nat>, newTrail: array<nat>, indexPrev: nat, p: nat, q: nat) returns (next: nat)
    requires p > 0 && q > 0 && newTrail.Length == |row| && forall k :: 0 <= k < |row| ==> newTrail[k] == 0
    modifies newTrail
    ensures newTrail[..] == ZoomedRow(row, indexPrev == 0, p, q)
    ensures |row| > 0 ==> next > 0
  {
    hide Image, Origin, ZoomedCell;
    ghost var first := indexPrev == 0;
    next := indexPrev;
    var j := 0;
    while j < |row|
      invariant 0 <= j <= |row| && next == if j == 0 then indexPrev else Settled(j, p, q)
      invariant Settled(j, p, q) <= |row|
      invariant forall k :: 0 <= k < |row| ==>
                  newTrail[k] == if k < Settled(j, p, q) then ZoomedCell(row, first, k, p, q) else 0
    {
      var indexNew := Image(j, p, q);
      if indexNew >= |row| {
        break;
      }
      SettledGrows(j, p, q);
      forall k: nat | Settled(j, p, q) <= k <= indexNew
        ensures ZoomedCell(row, first, k, p, q) == if k == 0 && !first then 0 else row[j]
      {
        PlacedCell(row, first, j, k, p, q);
      }
      ImageOfZero(p, q);
      if row[j] != 0 {
        var k := next;
        while k <= indexNew
          invariant next <= k && forall i :: 0 <= i < |row| ==>
                                   newTrail[i] == if i < Settled(j, p, q) then ZoomedCell(row, first, i, p, q)
                                                  else if next <= i < k && i <= indexNew then row[j] else 0
        {
          newTrail[k] := row[j];
          k := k + 1;
        }
      }
      next := indexNew + 1;
      j := j + 1;
    }
    forall k: nat | Settled(j, p, q) <= k < |row| ensures ZoomedCell(row, first, k, p, q) == 0 {
      UnplacedCell(row, first, j, k, p, q);
    }
    ImageOfZero(p, q);
    assert newTrail[..] == ZoomedRow(row, first, p, q);
  }

  lemma ImageOfZero(p: nat, q: nat)
    requires q > 0
    ensures Image(0, p, q) == 0
  {
  }
}
