/** The smallest arc of a ring of n spokes that covers the spokes a blob touches. */
module SpokeArc {
  import Sorting

  datatype Arc = Arc(start: nat, extent: nat, center: nat)

  /** Steps forward from one spoke to another. */
  function Forward(n: nat, from: nat, to: nat): nat
    requires from < n && to < n
  {
    if from <= to then to - from else to + n - from
  }

  ghost predicate Covers(n: nat, start: nat, extent: nat, spokes: seq<nat>)
    requires start < n && forall i :: 0 <= i < |spokes| ==> spokes[i] < n
  {
    forall i :: 0 <= i < |spokes| ==> Forward(n, start, spokes[i]) < extent
  }

  /** The blob's spokes, sorted and without repeats. */
  ghost predicate SpokeList(n: nat, spokes: seq<nat>) {
    && spokes != []
    && (forall i :: 0 <= i < |spokes| ==> spokes[i] < n)
    && (forall i, j :: 0 <= i < j < |spokes| ==> spokes[i] < spokes[j])
  }

  /** The empty positions between the i-th spoke and the next one round the ring. */
  function Gap(n: nat, spokes: seq<nat>, i: nat): int
    requires i < |spokes|
  {
    if i + 1 < |spokes| then spokes[i + 1] - spokes[i] - 1 else n - spokes[i] + spokes[0] - 1
  }

  /** Position in the list after the i-th, going round. */
  function After(spokes: seq<nat>, i: nat): nat
    requires i < |spokes|
  {
    if i + 1 < |spokes| then i + 1 else 0
  }

  /** No gap before this one is as wide. */
  ghost predicate IsFirstWidest(n: nat, spokes: seq<nat>, i: nat, gap: nat) {
    i < |spokes| && Gap(n, spokes, i) == gap && forall k: nat :: k < i ==> Gap(n, spokes, k) < gap
  }

  /** The first of the widest gaps, and where the arc after it starts. */
  method WidestGap(spokes: seq<nat>, n: nat) returns (largestGap: nat, startIndex: nat)
    requires SpokeList(n, spokes)
    ensures forall i: nat :: i < |spokes| ==> Gap(n, spokes, i) <= largestGap
    ensures exists i: nat :: i < |spokes| && startIndex == After(spokes, i) && Gap(n, spokes, i) == largestGap
    ensures largestGap == 0 ==> startIndex == 0
    ensures largestGap > 0 ==>
              exists i: nat :: IsFirstWidest(n, spokes, i, largestGap) && startIndex == After(spokes, i)
  {
    largestGap, startIndex := 0, 0;
    ghost var widest: nat := |spokes| - 1;
    for i := 0 to |spokes| - 1
      invariant widest < |spokes| && startIndex == After(spokes, widest)
      invariant forall k: nat :: k < i ==> Gap(n, spokes, k) <= largestGap
      invariant largestGap > 0 ==> Gap(n, spokes, widest) == largestGap
      invariant largestGap > 0 ==> IsFirstWidest(n, spokes, widest, largestGap)
      invariant largestGap == 0 ==> widest == |spokes| - 1
    {
      var gap := spokes[i + 1] - spokes[i] - 1;
      if gap > largestGap {
        largestGap, startIndex, widest := gap, i + 1, i;
      }
    }
    var wrapGap := n - spokes[|spokes| - 1] + spokes[0] - 1;
    if wrapGap > largestGap {
      largestGap, startIndex, widest := wrapGap, 0, |spokes| - 1;
    }
    assert Gap(n, spokes, |spokes| - 1) == wrapGap;
  }

  /** An arc over all the spokes, no longer than any other, and the spoke half way along it. */
  method FromSpokes(spokes: seq<nat>, n: nat) returns (arc: Arc)
    requires SpokeList(n, spokes)
    ensures arc.start in spokes && 1 <= arc.extent <= n && arc.center < n
    ensures Covers(n, arc.start, arc.extent, spokes)
    ensures forall start: nat, extent: nat :: start < n && Covers(n, start, extent, spokes) ==> arc.extent <= extent
    ensures Forward(n, arc.start, arc.center) == arc.extent / 2
  {
    if |spokes| == 1 {
      arc := Arc(spokes[0], 1, spokes[0]);
      forall start: nat, extent: nat | start < n && Covers(n, start, extent, spokes) ensures 1 <= extent {
        assert Forward(n, start, spokes[0]) < extent;
      }
      return;
    }
    var largestGap, startIndex := WidestGap(spokes, n);
    ghost var i: nat :| i < |spokes| && startIndex == After(spokes, i) && Gap(n, spokes, i) == largestGap;
    ComplementCovers(n, spokes, i);
    forall start: nat, extent: nat | start < n && Covers(n, start, extent, spokes) ensures n - largestGap <= extent {
      NoSmallerArc(n, spokes, largestGap, start, extent);
    }
    var extent, start := n - largestGap, spokes[startIndex];
    Halfway(n, start, extent / 2);
    arc := Arc(start, extent, (start + extent / 2) % n);
  }

  /** No arc over the spokes is shorter than this. */
  ghost predicate SmallestExtent(n: nat, spokes: seq<nat>, extent: nat)
    requires forall i :: 0 <= i < |spokes| ==> spokes[i] < n
  {
    && (exists start: nat :: start < n && Covers(n, start, extent, spokes))
    && (forall start: nat, e: nat :: start < n && Covers(n, start, e, spokes) ==> extent <= e)
  }

  /** The spokes of a blob's pixels, in whatever order and however often, are sorted and repeats dropped first. */
  method FromBlob(spokes: seq<nat>, n: nat) returns (arc: Arc)
    requires spokes != [] && forall i :: 0 <= i < |spokes| ==> spokes[i] < n
    ensures arc.start in spokes && 1 <= arc.extent <= n && arc.center < n
    ensures Covers(n, arc.start, arc.extent, spokes) && SmallestExtent(n, spokes, arc.extent)
    ensures Forward(n, arc.start, arc.center) == arc.extent / 2
  {
    hide Sorting.Sort, Sorting.Dedup;
    Sorting.SortSorts(spokes);
    Sorting.DedupIncreases(Sorting.Sort(spokes));
    var sorted := Sorting.Dedup(Sorting.Sort(spokes));
    assert forall s :: s in sorted <==> s in spokes;
    forall i | 0 <= i < |sorted| ensures 0 <= sorted[i] < n {
      assert sorted[i] in spokes;
    }
    var distinct: seq<nat> := sorted;
    assert spokes[0] in distinct;
    arc := FromSpokes(distinct, n);
    forall start: nat, extent: nat | start < n
      ensures Covers(n, start, extent, spokes) <==> Covers(n, start, extent, distinct)
    {
      SameCover(n, start, extent, spokes, distinct);
    }
  }

  lemma SameCover(n: nat, start: nat, extent: nat, a: seq<nat>, b: seq<nat>)
    requires start < n && (forall i :: 0 <= i < |a| ==> a[i] < n) && (forall i :: 0 <= i < |b| ==> b[i] < n)
    requires forall s :: s in a <==> s in b
    ensures Covers(n, start, extent, a) <==> Covers(n, start, extent, b)
  {
    forall i | 0 <= i < |a| ensures exists j :: 0 <= j < |b| && b[j] == a[i] { assert a[i] in b; }
    forall i | 0 <= i < |b| ensures exists j :: 0 <= j < |a| && a[j] == b[i] { assert b[i] in a; }
  }

  lemma Halfway(n: nat, start: nat, half: nat)
    requires start < n && half < n
    ensures (start + half) % n == if start + half < n then start + half else start + half - n
  {
    if start + half >= n {
      assert (start + half) == n * 1 + (start + half - n);
    }
  }

  /** Leaving out the gap after the i-th spoke leaves an arc over all spokes. */
  lemma ComplementCovers(n: nat, spokes: seq<nat>, i: nat)
    requires SpokeList(n, spokes) && i < |spokes|
    ensures 0 <= Gap(n, spokes, i) < n
    ensures Covers(n, spokes[After(spokes, i)], n - Gap(n, spokes, i), spokes)
  {
    var start := After(spokes, i);
    forall k | 0 <= k < |spokes| ensures Forward(n, spokes[start], spokes[k]) < n - Gap(n, spokes, i) {
      if i + 1 < |spokes| {
        assert k <= i ==> spokes[k] <= spokes[i];
        assert k > i ==> spokes[k] >= spokes[i + 1];
      } else {
        assert spokes[0] <= spokes[k] <= spokes[i];
      }
    }
  }

  /** The last spoke before a position, if any. */
  lemma {:induction false} SpokeBefore(spokes: seq<nat>, b: nat, n: nat) returns (i: nat)
    requires SpokeList(n, spokes) && spokes[0] < b
    ensures i < |spokes| && spokes[i] < b && (i + 1 < |spokes| ==> b <= spokes[i + 1])
  {
    i := 0;
    while i + 1 < |spokes| && spokes[i + 1] < b
      invariant i < |spokes| && spokes[i] < b
    {
      i := i + 1;
    }
  }

  /** An arc that covers all spokes leaves out at most the largest gap. */
  lemma NoSmallerArc(n: nat, spokes: seq<nat>, largest: nat, start: nat, extent: nat)
    requires SpokeList(n, spokes) && start < n
    requires forall i: nat :: i < |spokes| ==> Gap(n, spokes, i) <= largest
    requires Covers(n, start, extent, spokes)
    ensures n - largest <= extent
  {
    if extent < n {
      // the positions left out run from b on
      var b := if start + extent < n then start + extent else start + extent - n;
      var last := |spokes| - 1;
      assert Forward(n, start, spokes[0]) < extent && Forward(n, start, spokes[last]) < extent;
      if b <= spokes[0] {
        assert Gap(n, spokes, last) <= largest;
      } else {
        var i := SpokeBefore(spokes, b, n);
        assert Gap(n, spokes, i) <= largest;
        assert Forward(n, start, spokes[i]) < extent;
        if i + 1 < |spokes| {
          assert Forward(n, start, spokes[i + 1]) < extent;
        }
      }
    }
  }
}
