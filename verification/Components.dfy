/**
 Connected components of a finite set of points under a nearness relation.

 A set is connected when every way of cutting it in two is bridged. The
 components of a set are the only partition of it into connected parts no two
 of which are near each other.
 */
module Components {

  ghost predicate Nearness<T(!new)>(near: (T, T) -> bool) {
    (forall p :: near(p, p)) && (forall p, q :: near(p, q) ==> near(q, p))
  }

  ghost predicate Splits<T>(t: set<T>, s: set<T>) {
    t != {} && t < s
  }

  ghost predicate Bridged<T(!new)>(near: (T, T) -> bool, t: set<T>, s: set<T>) {
    exists p, q :: p in t && q in s - t && near(p, q)
  }

  ghost predicate Connected<T(!new)>(near: (T, T) -> bool, s: set<T>) {
    s != {} && forall t :: Splits(t, s) ==> Bridged(near, t, s)
  }

  ghost predicate Apart<T>(near: (T, T) -> bool, a: set<T>, b: set<T>) {
    forall p, q :: p in a && q in b ==> !near(p, q)
  }

  ghost function Union<T>(parts: set<set<T>>): set<T> {
    set part, c | part in parts && c in part :: c
  }

  ghost predicate IsComponents<T(!new)>(near: (T, T) -> bool, cells: set<T>, parts: set<set<T>>) {
    && Union(parts) == cells
    && (forall part :: part in parts ==> Connected(near, part))
    && (forall a, b :: a in parts && b in parts && a != b ==> Apart(near, a, b))
  }

  ghost predicate Touches<T(!new)>(near: (T, T) -> bool, part: set<T>, x: T) {
    exists q :: q in part && near(q, x)
  }

  ghost function Touching<T(!new)>(near: (T, T) -> bool, parts: set<set<T>>, x: T): set<set<T>> {
    set part | part in parts && Touches(near, part, x)
  }

  /** The parts that touch a point, and the point, become one part. */
  ghost function Merge<T(!new)>(near: (T, T) -> bool, parts: set<set<T>>, x: T): set<set<T>> {
    parts - Touching(near, parts, x) + {Union(Touching(near, parts, x)) + {x}}
  }

  // ----- Uniqueness

  /** A connected set that meets one of several parts that are apart lies in it. */
  lemma ConnectedWithin<T(!new)>(near: (T, T) -> bool, parts: set<set<T>>, a: set<T>, b: set<T>)
    requires forall x, y :: x in parts && y in parts && x != y ==> Apart(near, x, y)
    requires Connected(near, a) && a <= Union(parts) && b in parts && a * b != {}
    ensures a <= b
  {
    if !(a <= b) {
      assert Splits(a * b, a);
      assert Bridged(near, a * b, a);
      var p, q :| p in a * b && q in a - a * b && near(p, q);
      assert q in Union(parts);
      var c :| c in parts && q in c;
      NearMeansSamePart(near, parts, b, c, p, q);
    }
  }

  lemma PartWithin<T(!new)>(near: (T, T) -> bool, cells: set<T>, xs: set<set<T>>, ys: set<set<T>>, a: set<T>, b: set<T>)
    requires IsComponents(near, cells, xs) && IsComponents(near, cells, ys)
    requires a in xs && b in ys && a * b != {}
    ensures a <= b
  {
    PartInUnion(xs, a);
    ConnectedWithin(near, ys, a, b);
  }

  lemma NearMeansSamePart<T(!new)>(near: (T, T) -> bool, parts: set<set<T>>, a: set<T>, b: set<T>, p: T, q: T)
    requires forall a, b :: a in parts && b in parts && a != b ==> Apart(near, a, b)
    requires a in parts && b in parts && p in a && q in b && near(p, q)
    ensures a == b
  {
  }

  lemma PartsIncluded<T(!new)>(near: (T, T) -> bool, cells: set<T>, xs: set<set<T>>, ys: set<set<T>>)
    requires IsComponents(near, cells, xs) && IsComponents(near, cells, ys)
    ensures xs <= ys
  {
    forall a | a in xs ensures a in ys {
      var p :| p in a;
      assert p in Union(xs);
      var b :| b in ys && p in b;
      assert p in a * b && p in b * a;
      PartWithin(near, cells, xs, ys, a, b);
      PartWithin(near, cells, ys, xs, b, a);
      assert a == b;
    }
  }

  /** A set has one partition into components. */
  lemma ComponentsUnique<T(!new)>(near: (T, T) -> bool, cells: set<T>, xs: set<set<T>>, ys: set<set<T>>)
    requires IsComponents(near, cells, xs) && IsComponents(near, cells, ys)
    ensures xs == ys
  {
    PartsIncluded(near, cells, xs, ys);
    PartsIncluded(near, cells, ys, xs);
  }

  /** A point of a connected set that is near no other point of it is all of it. */
  lemma AloneIsAll<T(!new)>(near: (T, T) -> bool, part: set<T>, x: T)
    requires Connected(near, part) && x in part && forall q :: q in part && near(x, q) ==> q == x
    ensures part == {x}
  {
    assert !Bridged(near, {x}, part);
    assert !Splits({x}, part);
  }

  // ----- Adding a point

  lemma BridgeWithin<T(!new)>(near: (T, T) -> bool, t: set<T>, part: set<T>, s: set<T>)
    requires Connected(near, part) && part <= s
    requires t * part != {} && !(part <= t)
    ensures Bridged(near, t, s)
  {
    assert Splits(t * part, part);
    assert Bridged(near, t * part, part);
    var p, q :| p in t * part && q in part - t * part && near(p, q);
    assert p in t && q in s - t;
  }

  /** Connected parts that all touch a point form, with it, a connected set. */
  lemma StarIsConnected<T(!new)>(near: (T, T) -> bool, parts: set<set<T>>, x: T)
    requires Nearness(near)
    requires forall part :: part in parts ==> Connected(near, part) && Touches(near, part, x)
    ensures Connected(near, Union(parts) + {x})
  {
    var s := Union(parts) + {x};
    assert x in s;
    forall t | Splits(t, s) ensures Bridged(near, t, s) {
      var y :| if x in t then y in s - t else y in t;
      var part :| part in parts && y in part;
      var b :| b in part && near(b, x);
      assert part <= s;
      if (b in t) == (x in t) {
        assert (if x in t then b else y) in t * part;
        assert (if x in t then y else b) in part - t;
        BridgeWithin(near, t, part, s);
      } else if x in t {
        assert x in t && b in s - t && near(x, b);
      } else {
        assert b in t && x in s - t && near(b, x);
      }
    }
  }

  /** Merging keeps a partition into components. */
  lemma MergeKeepsComponents<T(!new)>(near: (T, T) -> bool, cells: set<T>, parts: set<set<T>>, x: T)
    requires Nearness(near) && IsComponents(near, cells, parts)
    ensures IsComponents(near, cells + {x}, Merge(near, parts, x))
  {
    var touching := Touching(near, parts, x);
    var star := Union(touching) + {x};
    var merged := Merge(near, parts, x);
    StarIsConnected(near, touching, x);
    assert Union(merged) == cells + {x} by {
      forall c | c in cells ensures c in Union(merged) {
        var part :| part in parts && c in part;
        assert part in touching ==> c in star;
      }
      assert star in merged;
    }
    forall a, b | a in merged && b in merged && a != b ensures Apart(near, a, b) {
      if b == star {
        StarApart(near, parts, x, a);
      } else if a == star {
        StarApart(near, parts, x, b);
      }
    }
  }

  lemma StarApart<T(!new)>(near: (T, T) -> bool, parts: set<set<T>>, x: T, a: set<T>)
    requires Nearness(near) && a in parts && !Touches(near, a, x)
    requires forall a, b :: a in parts && b in parts && a != b ==> Apart(near, a, b)
    ensures var star := Union(Touching(near, parts, x)) + {x};
            Apart(near, a, star) && Apart(near, star, a)
  {
    var star := Union(Touching(near, parts, x)) + {x};
    forall p, q | p in a && q in star ensures !near(p, q) {
      if q != x {
        var b :| b in Touching(near, parts, x) && q in b;
        assert Apart(near, a, b);
      }
    }
  }

  /** The components of a set, found by adding its points one by one. */
  ghost function ComponentsOf<T(!new)>(near: (T, T) -> bool, cells: set<T>): set<set<T>> {
    if cells == {} then {}
    else
      var x :| x in cells;
      Merge(near, ComponentsOf(near, cells - {x}), x)
  }

  lemma {:induction false} ComponentsOfIsComponents<T(!new)>(near: (T, T) -> bool, cells: set<T>)
    requires Nearness(near)
    ensures IsComponents(near, cells, ComponentsOf(near, cells))
  {
    if cells != {} {
      var x :| x in cells && ComponentsOf(near, cells) == Merge(near, ComponentsOf(near, cells - {x}), x);
      ComponentsOfIsComponents(near, cells - {x});
      MergeKeepsComponents(near, cells - {x}, ComponentsOf(near, cells - {x}), x);
      assert cells - {x} + {x} == cells;
    }
  }

  /** Components of two sets that are apart make up the components of their union. */
  lemma ComponentsOfApart<T(!new)>(near: (T, T) -> bool, a: set<T>, xs: set<set<T>>, b: set<T>, ys: set<set<T>>)
    requires Nearness(near) && IsComponents(near, a, xs) && IsComponents(near, b, ys) && Apart(near, a, b)
    ensures IsComponents(near, a + b, xs + ys)
  {
    forall c | c in a + b ensures c in Union(xs + ys) {
      if c in a {
        var part :| part in xs && c in part;
      } else {
        var part :| part in ys && c in part;
      }
    }
    forall p, q | p in xs + ys && q in xs + ys && p != q ensures Apart(near, p, q) {
      if p in xs {
        PartInUnion(xs, p);
      } else {
        PartInUnion(ys, p);
      }
      if q in xs {
        PartInUnion(xs, q);
      } else {
        PartInUnion(ys, q);
      }
    }
  }

  /** Taking whole parts away leaves the components of the rest. */
  lemma RemoveParts<T(!new)>(near: (T, T) -> bool, cells: set<T>, parts: set<set<T>>, gone: set<set<T>>)
    requires Nearness(near) && IsComponents(near, cells, parts) && gone <= parts
    ensures IsComponents(near, cells - Union(gone), parts - gone)
  {
    forall c | c in cells - Union(gone) ensures c in Union(parts - gone) {
      var part :| part in parts && c in part;
      assert part in parts - gone;
    }
    forall c | c in Union(parts - gone) ensures c in cells - Union(gone) {
      var part :| part in parts - gone && c in part;
      if c in Union(gone) {
        var other :| other in gone && c in other;
        NearMeansSamePart(near, parts, part, other, c, c);
      }
    }
    assert Union(parts - gone) == cells - Union(gone);
  }

  // ----- Moving a partition along a map that keeps nearness

  ghost function Image<T(!new), U>(f: T -> U, s: set<T>): set<U> {
    set c | c in s :: f(c)
  }

  ghost function Images<T(!new), U>(f: T -> U, parts: set<set<T>>): set<set<U>> {
    set part | part in parts :: Image(f, part)
  }

  ghost predicate KeepsNearness<T(!new), U(!new)>(f: T -> U, near: (T, T) -> bool, near': (U, U) -> bool) {
    forall p, q :: near(p, q) ==> near'(f(p), f(q))
  }

  /** Different parts stay apart. */
  ghost predicate ImagesApart<T(!new), U(!new)>(f: T -> U, near': (U, U) -> bool, parts: set<set<T>>) {
    forall a, b :: a in parts && b in parts && a != b ==> Apart(near', Image(f, a), Image(f, b))
  }

  /** The same, but different parts may have one image. */
  ghost predicate ImagesApartOrSame<T(!new), U(!new)>(f: T -> U, near': (U, U) -> bool, parts: set<set<T>>) {
    forall a, b :: a in parts && b in parts && Image(f, a) != Image(f, b) ==> Apart(near', Image(f, a), Image(f, b))
  }

  lemma ImageIsConnected<T(!new), U(!new)>(f: T -> U, near: (T, T) -> bool, near': (U, U) -> bool, part: set<T>)
    requires KeepsNearness(f, near, near') && Connected(near, part)
    ensures Connected(near', Image(f, part))
  {
    var c :| c in part;
    assert f(c) in Image(f, part);
    forall t | Splits(t, Image(f, part)) ensures Bridged(near', t, Image(f, part)) {
      var s := set c | c in part && f(c) in t;
      var u :| u in t;
      assert !(Image(f, part) <= t);
      var v :| v in Image(f, part) && v !in t;
      assert Splits(s, part) by {
        var cu :| cu in part && f(cu) == u;
        var cv :| cv in part && f(cv) == v;
        assert cu in s && cv !in s;
      }
      assert Bridged(near, s, part);
      var p, q :| p in s && q in part - s && near(p, q);
      assert f(p) in t && f(q) in Image(f, part) - t;
    }
  }

  lemma UnionOfImages<T(!new), U>(f: T -> U, parts: set<set<T>>)
    ensures Union(Images(f, parts)) == Image(f, Union(parts))
  {
    forall c | c in Union(parts) ensures f(c) in Union(Images(f, parts)) {
      var part :| part in parts && c in part;
      assert f(c) in Image(f, part) && Image(f, part) in Images(f, parts);
    }
    forall c' | c' in Union(Images(f, parts)) ensures c' in Image(f, Union(parts)) {
      var part' :| part' in Images(f, parts) && c' in part';
      var part :| part in parts && Image(f, part) == part';
      var c :| c in part && f(c) == c';
      assert c in Union(parts);
    }
  }

  lemma PartInUnion<T>(parts: set<set<T>>, part: set<T>)
    requires part in parts
    ensures part <= Union(parts)
  {
  }

  /** The images of components are the components of the image exactly when no two different ones come near. */
  lemma ImagesAreComponents<T(!new), U(!new)>(
    f: T -> U, near: (T, T) -> bool, near': (U, U) -> bool, cells: set<T>, parts: set<set<T>>)
    requires KeepsNearness(f, near, near') && IsComponents(near, cells, parts)
    ensures IsComponents(near', Image(f, cells), Images(f, parts)) <==> ImagesApartOrSame(f, near', parts)
  {
    hide KeepsNearness, Union, Connected, Apart;
    UnionOfImages(f, parts);
    forall part' | part' in Images(f, parts) ensures Connected(near', part') {
      var part :| part in parts && Image(f, part) == part';
      ImageIsConnected(f, near, near', part);
    }
    if ImagesApartOrSame(f, near', parts) {
      forall a', b' | a' in Images(f, parts) && b' in Images(f, parts) && a' != b' ensures Apart(near', a', b') {
        var a :| a in parts && Image(f, a) == a';
        var b :| b in parts && Image(f, b) == b';
      }
    }
    if IsComponents(near', Image(f, cells), Images(f, parts)) {
      forall a, b | a in parts && b in parts && Image(f, a) != Image(f, b)
        ensures Apart(near', Image(f, a), Image(f, b))
      {
        assert Image(f, a) in Images(f, parts) && Image(f, b) in Images(f, parts);
      }
    }
  }
}
