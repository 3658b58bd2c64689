/**
 Range tables: the distances a radar supports, and their metric, nautical and
 mixed sublists, whose entries carry a position in the whole table.
 */
module Ranges {
  import Sorting

  datatype Range = Range(distance: int, index: nat)

  // ----- Which distances are metric

  /** The source's remainder has the sign of the dividend. */
  function Remainder(a: int, b: int): int
    requires b > 0
  {
    if a >= 0 then a % b else -((-a) % b)
  }

  predicate Near(a: int, b: int)
    requires b > 0
  {
    Remainder(a, b) == 0 || Remainder(a, b) == 1 || Remainder(a, b) == b - 1
  }

  predicate Metric(d: int) {
    d == 125 || if d <= 100 then Near(d, 25) else if d <= 750 then Near(d, 50) else Near(d, 500)
  }

  predicate WithinOne(a: int, k: int, b: int) {
    k * b - 1 <= a <= k * b + 1
  }

  /** Near means within one of a multiple; below zero only the multiples themselves are near. */
  lemma NearMeans(a: int, b: int)
    requires b >= 2
    ensures a >= 0 ==> (Near(a, b) <==> exists k: int :: WithinOne(a, k, b))
    ensures a < 0 ==> (Near(a, b) <==> exists k: int :: k * b == a)
  {
    if a >= 0 {
      var q, m := a / b, a % b;
      assert a == q * b + m;
      if Near(a, b) {
        if m == b - 1 && m != 0 && m != 1 {
          assert (q + 1) * b == q * b + b;
          assert WithinOne(a, q + 1, b);
        } else {
          assert WithinOne(a, q, b);
        }
      }
      if k: int :| WithinOne(a, k, b) {
        Nearest(q, m, k, b);
      }
    } else {
      var q, m := (-a) / b, (-a) % b;
      assert -a == q * b + m;
      if m == 0 {
        assert (-q) * b == a;
      }
      if k: int :| k * b == a {
        Nearest(q, m, -k, b);
        assert (-k) * b == -a;
        Multiple(q, m, -k, b);
      }
    }
  }

  /** Within one of a multiple of b. */
  ghost predicate NearMultiple(d: int, b: int) {
    exists k: int :: WithinOne(d, k, b)
  }

  /** The metric distances: near multiples of 25 up to 100, of 50 up to 750 and of 500 beyond, and 125. */
  lemma MetricMeans(d: int)
    ensures d < 0 ==> (Metric(d) <==> exists k: int :: k * 25 == d)
    ensures 0 <= d <= 100 ==> (Metric(d) <==> NearMultiple(d, 25))
    ensures 100 < d <= 750 ==> (Metric(d) <==> d == 125 || NearMultiple(d, 50))
    ensures 750 < d ==> (Metric(d) <==> NearMultiple(d, 500))
  {
    hide Near;
    NearMeans(d, 25);
    NearMeans(d, 50);
    NearMeans(d, 500);
  }

  lemma Nearest(q: int, m: int, k: int, b: int)
    requires b >= 2 && 0 <= m < b && WithinOne(q * b + m, k, b)
    ensures m == 0 || m == 1 || m == b - 1
  {
    GapTimes(k - q, b);
    assert k * b == q * b + (k - q) * b;
  }

  lemma Multiple(q: int, m: int, k: int, b: int)
    requires b >= 2 && 0 <= m < b && k * b == q * b + m
    ensures m == 0
  {
    GapTimes(k - q, b);
    assert k * b == q * b + (k - q) * b;
  }

  lemma GapTimes(gap: int, b: int)
    requires b >= 2
    ensures gap >= 2 ==> gap * b >= 2 * b
    ensures gap == 1 ==> gap * b == b
    ensures gap == 0 ==> gap * b == 0
    ensures gap <= -1 ==> gap * b <= -b
  {
    if gap >= 2 {
      assert gap * b == (gap - 2) * b + 2 * b;
    } else if gap <= -1 {
      assert gap * b == -((-1 - gap) * b) - b;
    }
  }

  // ----- Sublists

  datatype List = MetricList | NauticalList | MixedList

  /** Mixed is the metric distances up to 1000 and the nautical ones beyond 1500. */
  predicate Belongs(d: int, list: List) {
    match list
    case MetricList => Metric(d)
    case NauticalList => !Metric(d)
    case MixedList => if Metric(d) then d <= 1000 else d > 1500
  }

  function Distances(rs: seq<Range>): (ds: seq<int>)
    ensures |ds| == |rs| && forall i :: 0 <= i < |rs| ==> ds[i] == rs[i].distance
  {
    seq(|rs|, i requires 0 <= i < |rs| => rs[i].distance)
  }

  function Entry(d: int, index: nat, list: List): seq<Range> {
    if Belongs(d, list) then [Range(d, index)] else []
  }

  /** The distances that belong to a list, in order, each with its position. */
  function Listed(ds: seq<int>, list: List): seq<Range> {
    if ds == [] then []
    else
      var last := |ds| - 1;
      Listed(ds[..last], list) + Entry(ds[last], last, list)
  }

  /** A list holds exactly the positions that belong to it, each with the distance found there. */
  lemma {:induction false} ListedExactly(ds: seq<int>, list: List, r: Range)
    ensures r in Listed(ds, list) <==> r.index < |ds| && r.distance == ds[r.index] && Belongs(r.distance, list)
  {
    hide Belongs;
    if ds != [] {
      ListedExactly(ds[..|ds| - 1], list, r);
    }
  }

  /** Positions increase along a list, so that none is listed twice. */
  lemma {:induction false} ListedIncreasing(ds: seq<int>, list: List, i: nat, j: nat)
    requires i < j < |Listed(ds, list)|
    ensures Listed(ds, list)[i].index < Listed(ds, list)[j].index
  {
    var rest := ds[..|ds| - 1];
    if j < |Listed(rest, list)| {
      ListedIncreasing(rest, list, i, j);
    } else {
      ListedExactly(rest, list, Listed(ds, list)[i]);
    }
  }

  /** Every position is in exactly one of the metric and the nautical list. */
  lemma Partition(ds: seq<int>, i: nat)
    requires i < |ds|
    ensures Range(ds[i], i) in Listed(ds, MetricList) <==> Range(ds[i], i) !in Listed(ds, NauticalList)
    ensures forall r <- Listed(ds, MetricList) :: r.index != i || r == Range(ds[i], i)
    ensures forall r <- Listed(ds, NauticalList) :: r.index != i || r == Range(ds[i], i)
  {
    ListedExactly(ds, MetricList, Range(ds[i], i));
    ListedExactly(ds, NauticalList, Range(ds[i], i));
    forall r: Range, list: List | r in Listed(ds, list) ensures r.index != i || r == Range(ds[i], i) {
      ListedExactly(ds, list, r);
    }
  }

  /** The mixed list takes its entries from the other two. */
  lemma MixedMeans(ds: seq<int>, r: Range)
    ensures r in Listed(ds, MixedList) <==>
            (r in Listed(ds, MetricList) && r.distance <= 1000) || (r in Listed(ds, NauticalList) && r.distance > 1500)
  {
    ListedExactly(ds, MixedList, r);
    ListedExactly(ds, MetricList, r);
    ListedExactly(ds, NauticalList, r);
  }

  // ----- The stable sort

  function Insert(r: Range, rs: seq<Range>): seq<Range> {
    if rs == [] then [r]
    else if r.distance < rs[0].distance then [r] + rs
    else [rs[0]] + Insert(r, rs[1..])
  }

  function Sort(rs: seq<Range>): seq<Range> {
    if rs == [] then [] else Insert(rs[|rs| - 1], Sort(rs[..|rs| - 1]))
  }

  ghost predicate Ascending(rs: seq<Range>) {
    forall i, j :: 0 <= i < j < |rs| ==> rs[i].distance <= rs[j].distance
  }

  /** Insertion goes after everything not above. */
  lemma {:induction false} InsertSplit(r: Range, a: seq<Range>, b: seq<Range>)
    requires forall x <- a :: x.distance <= r.distance
    requires forall x <- b :: r.distance < x.distance
    ensures Insert(r, a + b) == a + [r] + b
  {
    if a == [] {
      assert a + b == b;
    } else {
      assert (a + b)[1..] == a[1..] + b;
      InsertSplit(r, a[1..], b);
    }
  }

  lemma {:induction false} SplitAt(d: int, rs: seq<Range>) returns (k: nat)
    requires Ascending(rs)
    ensures k <= |rs|
    ensures forall x <- rs[..k] :: x.distance <= d
    ensures forall x <- rs[k..] :: d < x.distance
  {
    k := |rs|;
    while k > 0 && rs[k - 1].distance > d
      invariant 0 <= k <= |rs| && forall x <- rs[k..] :: d < x.distance
    {
      k := k - 1;
    }
  }

  lemma InsertSorts(r: Range, rs: seq<Range>)
    requires Ascending(rs)
    ensures Ascending(Insert(r, rs)) && multiset(Insert(r, rs)) == multiset(rs) + multiset{r}
  {
    hide Insert;
    var k := SplitAt(r.distance, rs);
    assert rs == rs[..k] + rs[k..];
    InsertSplit(r, rs[..k], rs[k..]);
    var after := rs[..k] + [r] + rs[k..];
    forall i, j | 0 <= i < j < |after| ensures after[i].distance <= after[j].distance {
      assert i < k ==> after[i] in rs[..k];
      assert j > k ==> after[j] in rs[k..];
    }
  }

  /** The sort orders by distance and loses nothing. */
  lemma {:induction false} SortSorts(rs: seq<Range>)
    ensures Ascending(Sort(rs)) && multiset(Sort(rs)) == multiset(rs)
  {
    if rs != [] {
      var last := |rs| - 1;
      SortSorts(rs[..last]);
      InsertSorts(rs[last], Sort(rs[..last]));
      assert rs == rs[..last] + [rs[last]];
    }
  }

  lemma {:induction false} SortedIsFixed(rs: seq<Range>)
    requires Ascending(rs)
    ensures Sort(rs) == rs
  {
    if rs != [] {
      var last := |rs| - 1;
      SortedIsFixed(rs[..last]);
      InsertSplit(rs[last], rs[..last], []);
      assert rs == rs[..last] + [rs[last]] && rs[..last] + [] == rs[..last];
    }
  }

  // ----- Rebuilding from persisted distances

  function Numbered(ds: seq<int>): (rs: seq<Range>)
    ensures |rs| == |ds| && forall i :: 0 <= i < |ds| ==> rs[i] == Range(ds[i], i)
  {
    seq(|ds|, i requires 0 <= i < |ds| => Range(ds[i], i))
  }

  /** The index that a table's entries carry themselves is their position exactly when the distances came in order. */
  lemma OwnIndexIsPosition(ds: seq<int>)
    ensures |Sort(Numbered(ds))| == |ds|
    ensures (forall i :: 0 <= i < |ds| ==> Sort(Numbered(ds))[i].index == i) <==>
            Sorting.NonDecreasing(ds)
  {
    var all := Sort(Numbered(ds));
    SortSorts(Numbered(ds));
    assert |multiset(all)| == |all|;
    if Sorting.NonDecreasing(ds) {
      SortedIsFixed(Numbered(ds));
    }
    if forall i :: 0 <= i < |ds| ==> all[i].index == i {
      forall i | 0 <= i < |ds| ensures all[i].distance == ds[i] {
        assert all[i] in multiset(all);
        assert all[i] in Numbered(ds);
      }
    }
  }

  /** A choice of entries by their distance. */
  datatype Choice = OfList(list: List) | AtDistance(d: int)

  predicate Chosen(r: Range, choice: Choice) {
    match choice
    case OfList(list) => Belongs(r.distance, list)
    case AtDistance(d) => r.distance == d
  }

  function Select(rs: seq<Range>, choice: Choice): seq<Range> {
    if rs == [] then []
    else Select(rs[..|rs| - 1], choice) + if Chosen(rs[|rs| - 1], choice) then [rs[|rs| - 1]] else []
  }

  lemma {:induction false} SelectConcat(a: seq<Range>, b: seq<Range>, choice: Choice)
    ensures Select(a + b, choice) == Select(a, choice) + Select(b, choice)
  {
    hide Chosen;
    if b == [] {
      assert a + b == a;
    } else {
      assert (a + b)[..|a + b| - 1] == a + b[..|b| - 1];
      SelectConcat(a, b[..|b| - 1], choice);
    }
  }

  lemma {:induction false} SelectFrom(rs: seq<Range>, choice: Choice, r: Range)
    requires r in Select(rs, choice)
    ensures r in rs && Chosen(r, choice)
  {
    hide Chosen;
    if r in Select(rs[..|rs| - 1], choice) {
      SelectFrom(rs[..|rs| - 1], choice, r);
    }
  }

  lemma SelectInsert(r: Range, rs: seq<Range>, choice: Choice)
    requires Ascending(rs)
    ensures Select(Insert(r, rs), choice) ==
            if Chosen(r, choice) then Insert(r, Select(rs, choice)) else Select(rs, choice)
  {
    hide Chosen, Insert, Select;
    var k := SplitAt(r.distance, rs);
    var a, b := rs[..k], rs[k..];
    assert rs == a + b;
    InsertSplit(r, a, b);
    SelectConcat(a, b, choice);
    SelectConcat(a + [r], b, choice);
    SelectConcat(a, [r], choice);
    SelectOne(r, choice);
    forall x | x in Select(a, choice) ensures x.distance <= r.distance { SelectFrom(a, choice, x); }
    forall x | x in Select(b, choice) ensures r.distance < x.distance { SelectFrom(b, choice, x); }
    InsertSplit(r, Select(a, choice), Select(b, choice));
  }

  lemma SelectOne(r: Range, choice: Choice)
    ensures Select([r], choice) == if Chosen(r, choice) then [r] else []
  {
    assert [r][..0] == [];
  }

  /** Choosing from a sorted table is sorting what was chosen. */
  lemma {:induction false} SelectSort(rs: seq<Range>, choice: Choice)
    ensures Select(Sort(rs), choice) == Sort(Select(rs, choice))
  {
    hide Chosen, Insert;
    if rs != [] {
      var last := |rs| - 1;
      var before := Select(rs[..last], choice);
      SelectSort(rs[..last], choice);
      SortSorts(rs[..last]);
      SelectInsert(rs[last], Sort(rs[..last]), choice);
      SortMore(before, rs[last]);
      assert before + [] == before;
    }
  }

  lemma SortMore(rs: seq<Range>, r: Range)
    ensures Sort(rs + [r]) == Insert(r, Sort(rs))
  {
    assert (rs + [r])[..|rs + [r]| - 1] == rs;
  }

  /** The sort is stable. */
  lemma SortStable(rs: seq<Range>, d: int)
    ensures Select(Sort(rs), AtDistance(d)) == Select(rs, AtDistance(d))
  {
    SelectSort(rs, AtDistance(d));
    var chosen := Select(rs, AtDistance(d));
    forall r | r in chosen ensures r.distance == d { SelectFrom(rs, AtDistance(d), r); }
    SortedIsFixed(chosen);
  }

  lemma {:induction false} ListedSelects(rs: seq<Range>, list: List)
    ensures Distances(Listed(Distances(rs), list)) == Distances(Select(rs, OfList(list)))
  {
    hide Belongs;
    if rs != [] {
      var last := |rs| - 1;
      assert Distances(rs)[..last] == Distances(rs[..last]);
      ListedSelects(rs[..last], list);
    }
  }

  lemma {:induction false} SameInsert(r: Range, rs: seq<Range>, q: Range, qs: seq<Range>)
    requires r.distance == q.distance && Distances(rs) == Distances(qs)
    ensures Distances(Insert(r, rs)) == Distances(Insert(q, qs))
  {
    if rs != [] {
      assert rs[0].distance == Distances(rs)[0] == Distances(qs)[0] == qs[0].distance;
      assert Distances(rs[1..]) == Distances(rs)[1..] == Distances(qs[1..]);
      SameInsert(r, rs[1..], q, qs[1..]);
    }
  }

  /** The order depends on the distances alone. */
  lemma {:induction false} SameSort(rs: seq<Range>, qs: seq<Range>)
    requires Distances(rs) == Distances(qs)
    ensures Distances(Sort(rs)) == Distances(Sort(qs))
  {
    assert |rs| == |Distances(rs)| == |qs|;
    if rs != [] {
      var last := |rs| - 1;
      assert Distances(rs[..last]) == Distances(rs)[..last] == Distances(qs[..last]);
      assert rs[last].distance == Distances(rs)[last] == Distances(qs)[last] == qs[last].distance;
      SameSort(rs[..last], qs[..last]);
      SameInsert(rs[last], Sort(rs[..last]), qs[last], Sort(qs[..last]));
    }
  }

  /** A table rebuilt from its distances has the same lists as before, each put in ascending order. */
  lemma RebuildKeepsLists(all: seq<Range>, list: List)
    ensures Distances(Listed(Distances(Sort(Numbered(Distances(all)))), list)) ==
            Distances(Sort(Listed(Distances(all), list)))
  {
    hide Sort, Listed, Select;
    SameSort(Numbered(Distances(all)), all);
    ListedSelects(Sort(all), list);
    ListedSelects(all, list);
    SelectSort(all, OfList(list));
    SameSort(Listed(Distances(all), list), Select(all, OfList(list)));
  }

  // ----- The tables

  class RangeTable {
    var all: seq<Range>
    var metric: seq<Range>
    var nautical: seq<Range>
    var mixed: seq<Range>

    /** The lists are what the distances say they are. */
    ghost predicate Valid()
      reads this
    {
      && metric == Listed(Distances(all), MetricList)
      && nautical == Listed(Distances(all), NauticalList)
      && mixed == Listed(Distances(all), MixedList)
    }

    /** The entries of the whole table keep the index they came with. */
    constructor (ranges: seq<Range>)
      ensures Valid() && all == Sort(ranges)
    {
      var sorted := Sort(ranges);
      all, metric, nautical, mixed := sorted, [], [], [];
      new;
      for i := 0 to |sorted|
        invariant all == sorted
        invariant metric == Listed(Distances(sorted[..i]), MetricList)
        invariant nautical == Listed(Distances(sorted[..i]), NauticalList)
        invariant mixed == Listed(Distances(sorted[..i]), MixedList)
      {
        ListedMore(sorted, i);
        ListDistance(sorted[i].distance, i);
      }
      assert sorted[..|sorted|] == sorted;
    }

    /** Enters one distance, with its position, in the lists it belongs to. */
    method ListDistance(distance: int, index: nat)
      modifies this`metric, this`nautical, this`mixed
      ensures metric == old(metric) + Entry(distance, index, MetricList)
      ensures nautical == old(nautical) + Entry(distance, index, NauticalList)
      ensures mixed == old(mixed) + Entry(distance, index, MixedList)
    {
      if Metric(distance) {
        metric := metric + [Range(distance, index)];
        if distance <= 1000 {
          mixed := mixed + [Range(distance, index)];
        }
      } else {
        nautical := nautical + [Range(distance, index)];
        if distance > 1500 {
          mixed := mixed + [Range(distance, index)];
        }
      }
    }

    /** Adds a distance at the end unless the table has it. */
    method Push(range: Range) returns (added: bool)
      requires Valid()
      modifies this
      ensures Valid()
      ensures added <==> forall r <- old(all) :: r.distance != range.distance
      ensures all == if added then old(all) + [range] else old(all)
    {
      for i := 0 to |all|
        invariant forall j :: 0 <= j < i ==> all[j].distance != range.distance
        invariant Valid() && all == old(all)
      {
        if all[i].distance == range.distance {
          return false;
        }
      }
      var index := |all|;
      all := all + [range];
      assert all[..index] == old(all);
      assert all[..index + 1] == all;
      ListedMore(all, index);
      ListDistance(range.distance, index);
      return true;
    }

    /** The distance at a position, or 0 beyond the table. */
    function GetDistance(index: nat): int
      reads this
    {
      if index < |all| then all[index].distance else 0
    }

    /** Every entry of every list leads back to its own distance. */
    lemma ListsLeadBack(list: List, r: Range)
      requires Valid()
      requires r in (match list case MetricList => metric case NauticalList => nautical case MixedList => mixed)
      ensures r.index < |all| && GetDistance(r.index) == r.distance && Belongs(r.distance, list)
      ensures forall i: nat :: i >= |all| ==> GetDistance(i) == 0
    {
      ListedExactly(Distances(all), list, r);
    }
  }

  lemma ListedMore(rs: seq<Range>, i: nat)
    requires i < |rs|
    ensures forall list: List :: Listed(Distances(rs[..i + 1]), list)
                              == Listed(Distances(rs[..i]), list) + Entry(rs[i].distance, i, list)
  {
    assert Distances(rs[..i + 1])[..i] == Distances(rs[..i]);
  }

  /** The table of a list of distances. */
  method NewByDistance(distances: seq<int>) returns (table: RangeTable)
    ensures fresh(table) && table.Valid() && table.all == Sort(Numbered(distances))
  {
    var ranges := [];
    for i := 0 to |distances|
      invariant ranges == Numbered(distances[..i])
    {
      ranges := ranges + [Range(distances[i], i)];
    }
    assert distances[..|distances|] == distances;
    table := new RangeTable(ranges);
  }

  // ----- Known distances within bounds

  /** The known distances within bounds, once each and in order; their entries carry their own position. */
  method FromRange(known: seq<int>, min: int, max: int) returns (table: RangeTable)
    ensures fresh(table) && table.Valid()
    ensures Sorting.Increasing(Distances(table.all))
    ensures forall d :: d in Distances(table.all) <==> d in known && min <= d <= max
    ensures forall i :: 0 <= i < |table.all| ==> table.all[i].index == i
  {
    hide Sort, Sorting.Sort, Sorting.Increasing, Sorting.NonDecreasing, Sorting.SameElements;
    var within := Within(known, min, max);
    var sorted := Sorting.Sort(within);
    Sorting.SortSorts(within);
    Sorting.DedupIncreases(sorted);
    var distances := Sorting.Dedup(sorted);
    IncreasingIsFixed(distances);
    table := NewByDistance(distances);
    assert Distances(table.all) == distances;
    forall d ensures d in distances <==> d in known && min <= d <= max {
      Sorting.SameMember(distances, sorted, d);
      Sorting.SameMember(sorted, within, d);
    }
  }

  method Within(known: seq<int>, min: int, max: int) returns (within: seq<int>)
    ensures forall d :: d in within <==> d in known && min <= d <= max
  {
    within := [];
    for i := 0 to |known|
      invariant forall d :: d in within <==> d in known[..i] && min <= d <= max
    {
      if min <= known[i] <= max {
        within := within + [known[i]];
      }
    }
    assert known[..|known|] == known;
  }

  lemma IncreasingIsFixed(ds: seq<int>)
    requires Sorting.Increasing(ds)
    ensures Sort(Numbered(ds)) == Numbered(ds)
  {
    SortedIsFixed(Numbered(ds));
  }
}
