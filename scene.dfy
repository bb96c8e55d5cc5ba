/**
 * What World.draw selects and in which order: markings filtered by kind, and
 * buildings and trees culled by distance to the viewpoint and drawn farthest
 * first (painter's algorithm).
 */
module Scene {
  import opened Seqs
  import opened Geometry

  /** A drawable with a footprint: a building or a tree. */
  datatype Item = Building(base: Polygon) | Tree(base: Polygon)

  /** A road marking; only the start marking is told apart by the draw loop. */
  datatype Marking = Start(center: Point, direction: Point) | Other(kind: string, center: Point, direction: Point)

  /** The draw loop's test: a start marking is drawn only when start markings are shown. */
  function Shown(showStartMarkings: bool): (shown: Marking -> bool)
  {
    (m: Marking) => !m.Start? || showStartMarkings
  }

  /** The markings the draw loop draws, in order. */
  lemma ShownMarkings(markings: seq<Marking>, showStartMarkings: bool, m: Marking)
    ensures m in Filter(markings, Shown(showStartMarkings))
        <==> m in markings && (!m.Start? || showStartMarkings)
  {
    FilterMembers(markings, Shown(showStartMarkings), m);
  }

  /** The culling test: strictly closer than `renderRadius`. */
  function Closer<T>(dist: T -> real, renderRadius: real): (closer: T -> bool)
  {
    x => dist(x) < renderRadius
  }

  /** Distances never increase along `s`. */
  ghost predicate FarthestFirst<T>(s: seq<T>, dist: T -> real)
  {
    forall i, j :: 0 <= i < j < |s| ==> dist(s[i]) >= dist(s[j])
  }

  /** Insert `x` before the first element that is not farther away than it. */
  function Insert<T>(x: T, s: seq<T>, dist: T -> real): (inserted: seq<T>)
  {
    if s == [] then [x]
    else if dist(x) >= dist(s[0]) then [x] + s
    else [s[0]] + Insert(x, s[1..], dist)
  }

  /** Insertion sort by descending distance: the ordering `sort((a, b) => d(b) - d(a))` gives. */
  function SortFarthestFirst<T>(s: seq<T>, dist: T -> real): (sorted: seq<T>)
  {
    if s == [] then [] else Insert(s[0], SortFarthestFirst(s[1..], dist), dist)
  }

  lemma {:induction false} InsertPermutes<T>(x: T, s: seq<T>, dist: T -> real)
    ensures multiset(Insert(x, s, dist)) == multiset(s) + multiset{x}
  {
    if s != [] && dist(x) < dist(s[0]) {
      InsertPermutes(x, s[1..], dist);
      assert s == [s[0]] + s[1..];
    }
  }

  /** Inserting an element nearer than `bound` among elements no farther than `bound` keeps them all within it. */
  lemma InsertWithin<T>(x: T, s: seq<T>, dist: T -> real, bound: real)
    requires dist(x) <= bound
    requires forall k :: 0 <= k < |s| ==> dist(s[k]) <= bound
    ensures forall j :: 0 <= j < |Insert(x, s, dist)| ==> dist(Insert(x, s, dist)[j]) <= bound
  {
    var r := Insert(x, s, dist);
    InsertPermutes(x, s, dist);
    forall j | 0 <= j < |r| ensures dist(r[j]) <= bound {
      assert r[j] in multiset(s) + multiset{x};
      if r[j] != x {
        var m :| 0 <= m < |s| && s[m] == r[j];
      }
    }
  }

  /** Putting an element no nearer than all of `s` in front of sorted `s` keeps it sorted. */
  lemma ConsFarthestFirst<T>(y: T, s: seq<T>, dist: T -> real)
    requires FarthestFirst(s, dist)
    requires forall k :: 0 <= k < |s| ==> dist(s[k]) <= dist(y)
    ensures FarthestFirst([y] + s, dist)
  {
    var out := [y] + s;
    forall i, j | 0 <= i < j < |out| ensures dist(out[i]) >= dist(out[j]) {
      assert out[j] == s[j - 1];
      if i > 0 {
        assert out[i] == s[i - 1];
      }
    }
  }

  lemma {:induction false} InsertKeepsOrder<T>(x: T, s: seq<T>, dist: T -> real)
    requires FarthestFirst(s, dist)
    ensures FarthestFirst(Insert(x, s, dist), dist)
  {
    if s != [] {
      if dist(x) >= dist(s[0]) {
        ConsFarthestFirst(x, s, dist);
      } else {
        var tail := s[1..];
        assert forall k :: 0 <= k < |tail| ==> tail[k] == s[k + 1];
        InsertKeepsOrder(x, tail, dist);
        InsertWithin(x, tail, dist, dist(s[0]));
        ConsFarthestFirst(s[0], Insert(x, tail, dist), dist);
      }
    }
  }

  /** The sort orders by descending distance and is a permutation of its input. */
  lemma {:induction false} SortedFarthestFirst<T>(s: seq<T>, dist: T -> real)
    ensures FarthestFirst(SortFarthestFirst(s, dist), dist)
    ensures multiset(SortFarthestFirst(s, dist)) == multiset(s)
  {
    if s != [] {
      SortedFarthestFirst(s[1..], dist);
      InsertKeepsOrder(s[0], SortFarthestFirst(s[1..], dist), dist);
      InsertPermutes(s[0], SortFarthestFirst(s[1..], dist), dist);
      assert s == [s[0]] + s[1..];
    }
  }

  /** Equal distances stay in input order, as with the stable `Array.prototype.sort`. */
  lemma {:induction false} EqualDistancesKeepOrder<T>(s: seq<T>, dist: T -> real)
    requires forall i, j :: 0 <= i < j < |s| ==> dist(s[i]) == dist(s[j])
    ensures SortFarthestFirst(s, dist) == s
  {
    if s != [] {
      var tail := s[1..];
      assert forall k :: 0 <= k < |tail| ==> tail[k] == s[k + 1];
      EqualDistancesKeepOrder(tail, dist);
      if tail != [] {
        assert dist(s[0]) == dist(tail[0]);
      }
      assert s == [s[0]] + tail;
    }
  }

  /** The draw list: the items closer than `renderRadius`, farthest first. */
  function DrawOrder<T>(items: seq<T>, dist: T -> real, renderRadius: real): (drawn: seq<T>)
  {
    SortFarthestFirst(Filter(items, Closer(dist, renderRadius)), dist)
  }

  /**
   * The items drawn are exactly those strictly within `renderRadius`, each as
   * often as it occurs among the visible items, in non-increasing distance.
   */
  lemma DrawOrderSpec<T>(items: seq<T>, dist: T -> real, renderRadius: real)
    ensures var r := DrawOrder(items, dist, renderRadius);
            FarthestFirst(r, dist)
            && multiset(r) == multiset(Filter(items, Closer(dist, renderRadius)))
            && forall x :: x in r <==> x in items && dist(x) < renderRadius
  {
    var visible := Filter(items, Closer(dist, renderRadius));
    SortedFarthestFirst(visible, dist);
    var r := DrawOrder(items, dist, renderRadius);
    forall x ensures x in r <==> x in items && dist(x) < renderRadius {
      assert x in r <==> x in multiset(r);
      assert x in visible <==> x in multiset(visible);
      FilterMembers(items, Closer(dist, renderRadius), x);
    }
  }
}
