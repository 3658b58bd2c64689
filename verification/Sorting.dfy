/** Sorting integers and dropping repeats. */
module Sorting {
  ghost predicate NonDecreasing(ds: seq<int>) {
    forall i, j :: 0 <= i < j < |ds| ==> ds[i] <= ds[j]
  }

  ghost predicate Increasing(ds: seq<int>) {
    forall i, j :: 0 <= i < j < |ds| ==> ds[i] < ds[j]
  }

  ghost predicate SameElements(ds: seq<int>, es: seq<int>) {
    forall d :: d in ds <==> d in es
  }

  lemma SameMember(ds: seq<int>, es: seq<int>, d: int)
    requires SameElements(ds, es)
    ensures d in ds <==> d in es
  {
  }

  function Insert(d: int, ds: seq<int>): seq<int> {
    if ds == [] then [d]
    else if d < ds[0] then [d] + ds
    else [ds[0]] + Insert(d, ds[1..])
  }

  function Sort(ds: seq<int>): seq<int> {
    if ds == [] then [] else Insert(ds[0], Sort(ds[1..]))
  }

  lemma {:induction false} InsertSorts(d: int, ds: seq<int>)
    requires NonDecreasing(ds)
    ensures NonDecreasing(Insert(d, ds)) && forall x :: x in Insert(d, ds) <==> x == d || x in ds
  {
    if ds != [] {
      assert ds == [ds[0]] + ds[1..];
      if d >= ds[0] {
        var rest := Insert(d, ds[1..]);
        InsertSorts(d, ds[1..]);
        assert forall i :: 0 <= i < |rest| ==> rest[i] in rest;
      }
    }
  }

  lemma {:induction false} SortSorts(ds: seq<int>)
    ensures NonDecreasing(Sort(ds)) && SameElements(Sort(ds), ds)
  {
    if ds != [] {
      assert ds == [ds[0]] + ds[1..];
      SortSorts(ds[1..]);
      InsertSorts(ds[0], Sort(ds[1..]));
    }
  }

  /** Drops each entry that equals the one before it. */
  function Dedup(ds: seq<int>): seq<int> {
    if |ds| < 2 then ds
    else if ds[|ds| - 1] == ds[|ds| - 2] then Dedup(ds[..|ds| - 1])
    else Dedup(ds[..|ds| - 1]) + [ds[|ds| - 1]]
  }

  lemma {:induction false} DedupIncreases(ds: seq<int>)
    requires NonDecreasing(ds)
    ensures Increasing(Dedup(ds)) && SameElements(Dedup(ds), ds)
    ensures ds != [] ==> Dedup(ds) != [] && Dedup(ds)[|Dedup(ds)| - 1] == ds[|ds| - 1]
  {
    hide Increasing, SameElements;
    if |ds| < 2 {
      ShortIncreases(ds);
    } else {
      var last := |ds| - 1;
      DedupIncreases(ds[..last]);
      assert ds == ds[..last] + [ds[last]];
      if ds[last] == ds[last - 1] {
        RepeatAdds(Dedup(ds[..last]), ds[..last], ds[last]);
      } else {
        LargerAdds(Dedup(ds[..last]), ds[..last], ds[last]);
      }
    }
  }

  lemma ShortIncreases(ds: seq<int>)
    requires |ds| < 2
    ensures Increasing(ds) && SameElements(ds, ds)
  {
  }

  lemma RepeatAdds(es: seq<int>, ds: seq<int>, d: int)
    requires SameElements(es, ds) && ds != [] && ds[|ds| - 1] == d
    ensures SameElements(es, ds + [d])
  {
    assert d in ds;
  }

  lemma LargerAdds(es: seq<int>, ds: seq<int>, d: int)
    requires Increasing(es) && SameElements(es, ds) && es != [] && es[|es| - 1] < d
    ensures Increasing(es + [d]) && SameElements(es + [d], ds + [d])
  {
  }
}
