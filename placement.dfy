/**
 * Building placement along the road frontage: the three sequential steps of
 * World.#generateBuildings (world/js/world.js), stated over abstract geometry.
 *
 *  1. the length filter that drops frontage guides too short for one building;
 *  2. the subdivision of each surviving guide into evenly spaced support segments;
 *  3. the greedy pairwise pruning of candidate footprints.
 *
 * Everything here is generic: a guide or footprint is any `T`, a point any `P`,
 * and the geometric queries the source takes from classes not part of this model
 * (segment length, vector addition and scaling, the footprint conflict test)
 * are function parameters.
 */
module Placement {

  import opened Seqs

  // ---------------------------------------------------------------------------
  // 1. Length filter
  // ---------------------------------------------------------------------------

  /** The filter's test: a guide at least `minWidth` long can host a building. */
  function AtLeast<T>(length: T -> real, minWidth: real): (keep: T -> bool)
  {
    g => !(length(g) < minWidth)
  }

  /** No guide that survives the filter is shorter than `minWidth`. */
  lemma SurvivorsLongEnough<T>(guides: seq<T>, length: T -> real, minWidth: real)
    ensures forall k :: 0 <= k < |Filter(guides, AtLeast(length, minWidth))| ==>
              length(Filter(guides, AtLeast(length, minWidth))[k]) >= minWidth
  {
    var kept := Filter(guides, AtLeast(length, minWidth));
    forall k | 0 <= k < |kept| ensures length(kept[k]) >= minWidth {
      FilterMembers(guides, AtLeast(length, minWidth), kept[k]);
    }
  }

  /**
   * The filter loop of #generateBuildings: walk the list with index `i` and, when
   * the guide at `i` is too short, splice it out and step `i` back so that the
   * guide moving into position `i` is examined next.
   */
  method DropShortGuides<T>(guides: seq<T>, length: T -> real, minWidth: real) returns (kept: seq<T>)
    ensures kept == Filter(guides, AtLeast(length, minWidth))
  {
    kept := guides;
    var i: int := 0;
    ghost var seen := 0;  // how many input guides have been examined
    while i < |kept|
      invariant 0 <= i <= |kept| && 0 <= seen <= |guides|
      invariant kept[i..] == guides[seen..]
      invariant kept[..i] == Filter(guides[..seen], AtLeast(length, minWidth))
      decreases |kept| - i
    {
      assert guides[..seen + 1][..seen] == guides[..seen];
      assert guides[..seen + 1][seen] == kept[i];
      if length(kept[i]) < minWidth {
        kept := kept[..i] + kept[i + 1..];
        i := i - 1;
      }
      i := i + 1;
      seen := seen + 1;
    }
    assert guides[..seen] == guides;
  }

  // ---------------------------------------------------------------------------
  // 2. Slot subdivision
  // ---------------------------------------------------------------------------

  /** buildingCount: how many slots of at least `minWidth`, `spacing` apart, fit on a guide. */
  function SlotCount(guideLength: real, minWidth: real, spacing: real): (n: int)
    requires minWidth + spacing > 0.0 && guideLength >= minWidth
    ensures n >= 1
    ensures n as real * (minWidth + spacing) <= guideLength + spacing
  {
    var q := (guideLength + spacing) / (minWidth + spacing);
    assert q >= 1.0;
    q.Floor
  }

  /** buildingLength: the length of each slot once the guide is shared among SlotCount slots. */
  function SlotLength(guideLength: real, minWidth: real, spacing: real): (len: real)
    requires minWidth + spacing > 0.0 && guideLength >= minWidth
  {
    (guideLength + spacing) / SlotCount(guideLength, minWidth, spacing) as real - spacing
  }

  /**
   * The slots tile the guide exactly (count slots and count-1 gaps add up to the
   * guide's length) and no slot is shorter than `minWidth`.
   */
  lemma SlotsFillGuide(guideLength: real, minWidth: real, spacing: real)
    requires minWidth + spacing > 0.0 && guideLength >= minWidth
    ensures var n := SlotCount(guideLength, minWidth, spacing) as real;
            var len := SlotLength(guideLength, minWidth, spacing);
            n * len + (n - 1.0) * spacing == guideLength && len >= minWidth
  {
    var n := SlotCount(guideLength, minWidth, spacing) as real;
    var total := guideLength + spacing;
    assert (total / n) * n == total;
    assert total / n >= minWidth + spacing by {
      assert n * (minWidth + spacing) <= total;
    }
  }

  /**
   * The support segments the subdivision loop lays along one guide, as endpoint
   * pairs: `count` segments of length `len` in direction `dir`, the first starting
   * at `start`, each next one starting `spacing` beyond the previous one's end.
   */
  function Supports<P>(start: P, dir: P, count: nat, len: real, spacing: real,
                       add: (P, P) -> P, scale: (P, real) -> P): (supports: seq<(P, P)>)
    decreases count
  {
    if count == 0 then []
    else
      var stop := add(start, scale(dir, len));
      [(start, stop)] + Supports(add(stop, scale(dir, spacing)), dir, count - 1, len, spacing, add, scale)
  }

  lemma {:induction false} SupportsLength<P>(start: P, dir: P, count: nat, len: real, spacing: real,
                                            add: (P, P) -> P, scale: (P, real) -> P)
    ensures |Supports(start, dir, count, len, spacing, add, scale)| == count
  {
    if count > 0 {
      var stop := add(start, scale(dir, len));
      SupportsLength(add(stop, scale(dir, spacing)), dir, count - 1, len, spacing, add, scale);
    }
  }

  /**
   * The supports form a chain: the first starts at `start`, each ends `len` along
   * `dir` from where it starts, and each next one starts `spacing` along `dir`
   * from where the previous one ends.
   */
  lemma {:induction false} SupportsChained<P>(start: P, dir: P, count: nat, len: real, spacing: real,
                                             add: (P, P) -> P, scale: (P, real) -> P)
    requires count >= 1
    ensures var s := Supports(start, dir, count, len, spacing, add, scale);
            |s| == count && s[0].0 == start
            && (forall k :: 0 <= k < count ==> s[k].1 == add(s[k].0, scale(dir, len)))
            && (forall k :: 0 <= k < count - 1 ==> s[k + 1].0 == add(s[k].1, scale(dir, spacing)))
  {
    SupportsLength(start, dir, count, len, spacing, add, scale);
    if count > 1 {
      var stop := add(start, scale(dir, len));
      var next := add(stop, scale(dir, spacing));
      SupportsChained(next, dir, count - 1, len, spacing, add, scale);
    }
  }

  /**
   * The subdivision loop of #generateBuildings for one guide: the first support
   * runs from the guide's first endpoint, and from the second one on each starts
   * `spacing` past the previous end (`for (i = 2; i <= buildingCount; i++)`).
   */
  method LaySupports<P>(start: P, dir: P, count: int, len: real, spacing: real,
                        add: (P, P) -> P, scale: (P, real) -> P) returns (supports: seq<(P, P)>)
    requires count >= 1
    ensures supports == Supports(start, dir, count, len, spacing, add, scale)
  {
    var q1 := start;
    var q2 := add(q1, scale(dir, len));
    supports := [(q1, q2)];
    var i := 2;
    while i <= count
      invariant 2 <= i <= count + 1
      invariant supports + Supports(add(q2, scale(dir, spacing)), dir, count - i + 1, len, spacing, add, scale)
             == Supports(start, dir, count, len, spacing, add, scale)
    {
      q1 := add(q2, scale(dir, spacing));
      q2 := add(q1, scale(dir, len));
      supports := supports + [(q1, q2)];
      i := i + 1;
    }
  }

  /** Real addition and scaling: the geometry of a single guide seen as the real line. */
  function Plus(a: real, b: real): (sum: real) { a + b }
  function Times(a: real, b: real): (product: real) { a * b }

  /**
   * Along the guide's own direction (offsets from its first endpoint, unit
   * direction 1), support `k` occupies [k*(len+spacing), k*(len+spacing)+len].
   */
  lemma {:induction false} SupportsOnLine(start: real, count: nat, len: real, spacing: real, k: nat)
    requires k < count
    ensures |Supports(start, 1.0, count, len, spacing, Plus, Times)| == count
    ensures Supports(start, 1.0, count, len, spacing, Plus, Times)[k]
         == (start + k as real * (len + spacing), start + k as real * (len + spacing) + len)
    decreases k
  {
    var s := Supports(start, 1.0, count, len, spacing, Plus, Times);
    SupportsLength(start, 1.0, count, len, spacing, Plus, Times);
    var next := start + len + spacing;
    var rest := Supports(next, 1.0, count - 1, len, spacing, Plus, Times);
    assert s == [(start, start + len)] + rest;
    if k == 0 {
      assert s[0] == (start, start + len);
      assert k as real * (len + spacing) == 0.0;
    } else {
      assert s[k] == rest[k - 1];
      SupportsOnLine(next, count - 1, len, spacing, k - 1);
      var m := (k - 1) as real;
      var offset := next + m * (len + spacing);
      assert rest[k - 1].0 == offset && rest[k - 1].1 == offset + len;
      OneStepFurther(start, k, len + spacing);
      var here := start + k as real * (len + spacing);
      assert offset == here;
      assert s[k] == (here, here + len);
    }
  }

  /** One step of `step` past `start + (k-1)*step` is `start + k*step`. */
  lemma OneStepFurther(start: real, k: nat, step: real)
    requires k > 0
    ensures start + step + (k - 1) as real * step == start + k as real * step
  {
    assert (k - 1) as real == k as real - 1.0;
  }

  /** From the end of slot k to the start of slot k+1 is one gap. */
  lemma GapBetween(k: real, len: real, spacing: real)
    ensures (k + 1.0) * (len + spacing) - (k * (len + spacing) + len) == spacing
  {
  }

  /** The end of the last of n slots. */
  lemma LastSlotEnd(n: real, len: real, spacing: real)
    ensures (n - 1.0) * (len + spacing) + len == n * len + (n - 1.0) * spacing
  {
  }

  /** Along the line every support is `len` long. */
  lemma SupportLengthsOnLine(n: nat, len: real, spacing: real)
    ensures var s := Supports(0.0, 1.0, n, len, spacing, Plus, Times);
            |s| == n && forall k :: 0 <= k < n ==> s[k].1 - s[k].0 == len
  {
    SupportsLength(0.0, 1.0, n, len, spacing, Plus, Times);
    var s := Supports(0.0, 1.0, n, len, spacing, Plus, Times);
    forall k | 0 <= k < n
      ensures s[k].1 - s[k].0 == len
    {
      SupportsOnLine(0.0, n, len, spacing, k);
    }
  }

  /** Along the line consecutive supports are exactly `spacing` apart. */
  lemma SupportGapsOnLine(n: nat, len: real, spacing: real)
    ensures var s := Supports(0.0, 1.0, n, len, spacing, Plus, Times);
            |s| == n && forall k :: 0 <= k < n - 1 ==> s[k + 1].0 - s[k].1 == spacing
  {
    SupportsLength(0.0, 1.0, n, len, spacing, Plus, Times);
    var s := Supports(0.0, 1.0, n, len, spacing, Plus, Times);
    forall k | 0 <= k < n - 1
      ensures s[k + 1].0 - s[k].1 == spacing
    {
      SupportsOnLine(0.0, n, len, spacing, k);
      SupportsOnLine(0.0, n, len, spacing, k + 1);
      assert (k + 1) as real == k as real + 1.0;
      GapBetween(k as real, len, spacing);
    }
  }

  /** Along the line the first support starts at 0 and the last ends after n lengths and n-1 gaps. */
  lemma SupportEndsOnLine(n: nat, len: real, spacing: real)
    requires n >= 1
    ensures var s := Supports(0.0, 1.0, n, len, spacing, Plus, Times);
            |s| == n && s[0].0 == 0.0 && s[n - 1].1 == n as real * len + (n as real - 1.0) * spacing
  {
    SupportsOnLine(0.0, n, len, spacing, 0);
    SupportsOnLine(0.0, n, len, spacing, n - 1);
    assert (n - 1) as real == n as real - 1.0;
    LastSlotEnd(n as real, len, spacing);
  }

  /**
   * The layout of one guide of length `guideLength`, seen along the guide: there
   * are SlotCount supports, each SlotLength long (at least `minWidth`); the first
   * starts at the guide's first endpoint, consecutive ones are exactly `spacing`
   * apart, and the last one ends exactly at the guide's far end.
   */
  lemma GuideLayout(guideLength: real, minWidth: real, spacing: real)
    requires minWidth + spacing > 0.0 && guideLength >= minWidth
    ensures var n := SlotCount(guideLength, minWidth, spacing);
            var len := SlotLength(guideLength, minWidth, spacing);
            var s := Supports(0.0, 1.0, n, len, spacing, Plus, Times);
            |s| == n >= 1
            && s[0].0 == 0.0
            && (forall k :: 0 <= k < n ==> s[k].1 - s[k].0 == len >= minWidth)
            && (forall k :: 0 <= k < n - 1 ==> s[k + 1].0 - s[k].1 == spacing)
            && s[n - 1].1 == guideLength
  {
    var n := SlotCount(guideLength, minWidth, spacing);
    var len := SlotLength(guideLength, minWidth, spacing);
    SlotsFillGuide(guideLength, minWidth, spacing);
    SupportLengthsOnLine(n, len, spacing);
    SupportGapsOnLine(n, len, spacing);
    SupportEndsOnLine(n, len, spacing);
  }

  /** A guide of length 500 with minimum width 50 and spacing 50 takes five buildings of length 60. */
  lemma FiveSlotsOnFiveHundred()
    ensures SlotCount(500.0, 50.0, 50.0) == 5 && SlotLength(500.0, 50.0, 50.0) == 60.0
  {
    assert (500.0 + 50.0) / (50.0 + 50.0) == 5.5;
  }

  // ---------------------------------------------------------------------------
  // 3. Greedy pairwise pruning
  // ---------------------------------------------------------------------------

  /** Some footprint already kept conflicts with `x`. */
  predicate Blocked<T>(kept: seq<T>, x: T, conflict: (T, T) -> bool)
  {
    exists k :: 0 <= k < |kept| && conflict(kept[k], x)
  }

  /**
   * Earliest-first greedy selection: scan `rest` left to right and keep each
   * candidate unless a footprint kept before it conflicts with it.
   */
  function Greedy<T>(kept: seq<T>, rest: seq<T>, conflict: (T, T) -> bool): (survivors: seq<T>)
    decreases |rest|
  {
    if rest == [] then kept
    else if Blocked(kept, rest[0], conflict) then Greedy(kept, rest[1..], conflict)
    else Greedy(kept + [rest[0]], rest[1..], conflict)
  }

  /** The footprints that survive pruning, from the candidates in generation order. */
  function Pruned<T>(candidates: seq<T>, conflict: (T, T) -> bool): (survivors: seq<T>)
  {
    Greedy([], candidates, conflict)
  }

  lemma {:induction false} GreedySnoc<T>(kept: seq<T>, rest: seq<T>, x: T, conflict: (T, T) -> bool)
    ensures Greedy(kept, rest + [x], conflict)
         == var p := Greedy(kept, rest, conflict);
            if Blocked(p, x, conflict) then p else p + [x]
    decreases |rest|
  {
    if rest == [] {
      assert rest + [x] == [x];
    } else {
      assert (rest + [x])[0] == rest[0];
      assert (rest + [x])[1..] == rest[1..] + [x];
      if Blocked(kept, rest[0], conflict) {
        GreedySnoc(kept, rest[1..], x, conflict);
      } else {
        GreedySnoc(kept + [rest[0]], rest[1..], x, conflict);
      }
    }
  }

  /**
   * Greedy and earliest-first: the last candidate is removed if and only if it
   * conflicts with some footprint that survived among the earlier candidates.
   */
  lemma PrunedSnoc<T>(candidates: seq<T>, x: T, conflict: (T, T) -> bool)
    ensures Pruned(candidates + [x], conflict)
         == var p := Pruned(candidates, conflict);
            if Blocked(p, x, conflict) then p else p + [x]
  {
    GreedySnoc([], candidates, x, conflict);
  }

  lemma {:induction false} GreedyKeepsKept<T>(kept: seq<T>, rest: seq<T>, conflict: (T, T) -> bool)
    ensures |kept| <= |Greedy(kept, rest, conflict)|
    ensures Greedy(kept, rest, conflict)[..|kept|] == kept
    decreases |rest|
  {
    if rest != [] {
      if Blocked(kept, rest[0], conflict) {
        GreedyKeepsKept(kept, rest[1..], conflict);
      } else {
        GreedyKeepsKept(kept + [rest[0]], rest[1..], conflict);
        var g := Greedy(kept, rest, conflict);
        assert g[..|kept|] == g[..|kept| + 1][..|kept|];
      }
    }
  }

  /** The first candidate always survives. */
  lemma PrunedFirst<T>(candidates: seq<T>, conflict: (T, T) -> bool)
    requires candidates != []
    ensures var p := Pruned(candidates, conflict); p != [] && p[0] == candidates[0]
  {
    assert !Blocked([], candidates[0], conflict);
    assert [] + [candidates[0]] == [candidates[0]];
    GreedyKeepsKept([candidates[0]], candidates[1..], conflict);
  }

  /** No two survivors conflict (earlier against later). */
  lemma {:induction false} PrunedSpaced<T>(candidates: seq<T>, conflict: (T, T) -> bool)
    ensures var p := Pruned(candidates, conflict);
            forall i, j :: 0 <= i < j < |p| ==> !conflict(p[i], p[j])
  {
    if candidates != [] {
      var init := candidates[..|candidates| - 1];
      var x := candidates[|candidates| - 1];
      assert candidates == init + [x];
      PrunedSpaced(init, conflict);
      PrunedSnoc(init, x, conflict);
    }
  }

  /** The survivors are the candidates with some deleted, in generation order. */
  lemma {:induction false} PrunedSubseq<T>(candidates: seq<T>, conflict: (T, T) -> bool)
    ensures IsSubseq(Pruned(candidates, conflict), candidates)
  {
    if candidates != [] {
      var init := candidates[..|candidates| - 1];
      var x := candidates[|candidates| - 1];
      assert candidates == init + [x];
      PrunedSubseq(init, conflict);
      PrunedSnoc(init, x, conflict);
      var p := Pruned(init, conflict);
      if !Blocked(p, x, conflict) {
        assert (p + [x])[..|p|] == p;
      }
    }
  }

  /** The candidates after `x` is compared against each of them and the conflicting ones removed. */
  function Drop<T>(x: T, rest: seq<T>, conflict: (T, T) -> bool): (remaining: seq<T>)
  {
    if rest == [] then []
    else (if conflict(x, rest[0]) then [] else [rest[0]]) + Drop(x, rest[1..], conflict)
  }

  /** Every candidate the inner loop leaves in place was there before and does not conflict with `x`. */
  lemma {:induction false} DropAt<T>(x: T, rest: seq<T>, conflict: (T, T) -> bool, n: nat)
    requires n < |Drop(x, rest, conflict)|
    ensures exists m :: 0 <= m < |rest| && rest[m] == Drop(x, rest, conflict)[n]
    ensures !conflict(x, Drop(x, rest, conflict)[n])
  {
    var d := Drop(x, rest[1..], conflict);
    if conflict(x, rest[0]) {
      DropAt(x, rest[1..], conflict, n);
      var m :| 0 <= m < |rest[1..]| && rest[1..][m] == d[n];
      assert rest[m + 1] == d[n];
    } else if n > 0 {
      DropAt(x, rest[1..], conflict, n - 1);
      var m :| 0 <= m < |rest[1..]| && rest[1..][m] == d[n - 1];
      assert rest[m + 1] == d[n - 1];
    }
  }

  /** Removing the candidates that a kept footprint conflicts with does not change the greedy outcome. */
  lemma {:induction false} GreedyIgnoresDropped<T>(kept: seq<T>, x: T, rest: seq<T>, conflict: (T, T) -> bool)
    requires x in kept
    ensures Greedy(kept, rest, conflict) == Greedy(kept, Drop(x, rest, conflict), conflict)
    decreases |rest|
  {
    if rest != [] {
      var r0 := rest[0];
      var d := Drop(x, rest, conflict);
      var k :| 0 <= k < |kept| && kept[k] == x;
      if conflict(x, r0) {
        assert Blocked(kept, r0, conflict);
        assert d == Drop(x, rest[1..], conflict);
        GreedyIgnoresDropped(kept, x, rest[1..], conflict);
      } else {
        assert d[0] == r0 && d[1..] == Drop(x, rest[1..], conflict);
        if Blocked(kept, r0, conflict) {
          GreedyIgnoresDropped(kept, x, rest[1..], conflict);
        } else {
          assert (kept + [r0])[k] == x;
          GreedyIgnoresDropped(kept + [r0], x, rest[1..], conflict);
        }
      }
    }
  }

  /**
   * The pruning loop of #generateBuildings, in place: for each footprint `i` that
   * is still present, remove every later footprint that conflicts with it.
   */
  method PruneConflicting<T>(candidates: seq<T>, conflict: (T, T) -> bool) returns (bases: seq<T>)
    ensures bases == Pruned(candidates, conflict)
  {
    bases := candidates;
    var i: int := 0;
    while i < |bases| - 1
      invariant 0 <= i <= |bases|
      invariant Greedy(bases[..i], bases[i..], conflict) == Pruned(candidates, conflict)
      invariant forall k, m :: 0 <= k < i <= m < |bases| ==> !conflict(bases[k], bases[m])
      decreases |bases| - i
    {
      ghost var before := bases;
      bases := RemoveConflictsWith(bases, i, conflict);
      ProceedPast(before, i, bases, conflict, candidates);
      i := i + 1;
    }
    if i == |bases| {
      assert bases[..i] == bases;
    } else {
      assert bases[i..] == [bases[i]] && bases[..i] + [bases[i]] == bases;
      assert !Blocked(bases[..i], bases[i], conflict);
    }
  }

  /**
   * The inner pruning loop: compare footprint `i` with each later one and splice
   * out (stepping `j` back) each that conflicts with it.
   */
  method RemoveConflictsWith<T>(bases: seq<T>, i: int, conflict: (T, T) -> bool) returns (rest: seq<T>)
    requires 0 <= i < |bases|
    ensures i < |rest| <= |bases|
    ensures rest[..i + 1] == bases[..i + 1]
    ensures rest[i + 1..] == Drop(bases[i], bases[i + 1..], conflict)
  {
    ghost var x := bases[i];
    rest := bases;
    var j: int := i + 1;
    while j < |rest|
      invariant i + 1 <= j <= |rest| <= |bases|
      invariant rest[..i + 1] == bases[..i + 1]
      invariant rest[i + 1..j] + Drop(x, rest[j..], conflict) == Drop(x, bases[i + 1..], conflict)
      decreases |rest| - j
    {
      assert rest[i] == bases[..i + 1][i];
      if conflict(rest[i], rest[j]) {
        SpliceConflicting(x, rest, i + 1, j, conflict);
        rest := rest[..j] + rest[j + 1..];
        j := j - 1;
      } else {
        KeepFitting(x, rest, i + 1, j, conflict);
      }
      j := j + 1;
    }
    assert rest[j..] == [];
  }

  /** Splicing out a footprint that conflicts with `x` leaves what is still to be kept unchanged. */
  lemma SpliceConflicting<T>(x: T, rest: seq<T>, lo: nat, j: nat, conflict: (T, T) -> bool)
    requires lo <= j < |rest| && conflict(x, rest[j])
    ensures var r := rest[..j] + rest[j + 1..];
            |r| == |rest| - 1 && r[..lo] == rest[..lo]
            && r[lo..j] + Drop(x, r[j..], conflict) == rest[lo..j] + Drop(x, rest[j..], conflict)
  {
    var r := rest[..j] + rest[j + 1..];
    assert rest[j..] == [rest[j]] + rest[j + 1..];
    assert r[lo..j] == rest[lo..j] && r[j..] == rest[j + 1..];
  }

  /** Stepping past a footprint that does not conflict with `x` keeps it. */
  lemma KeepFitting<T>(x: T, rest: seq<T>, lo: nat, j: nat, conflict: (T, T) -> bool)
    requires lo <= j < |rest| && !conflict(x, rest[j])
    ensures rest[lo..j + 1] + Drop(x, rest[j + 1..], conflict) == rest[lo..j] + Drop(x, rest[j..], conflict)
  {
    assert rest[j..] == [rest[j]] + rest[j + 1..];
    assert rest[lo..j + 1] == rest[lo..j] + [rest[j]];
  }

  /** One step of the outer pruning loop keeps its invariant. */
  lemma ProceedPast<T>(before: seq<T>, i: nat, after: seq<T>, conflict: (T, T) -> bool, candidates: seq<T>)
    requires i < |before|
    requires Greedy(before[..i], before[i..], conflict) == Pruned(candidates, conflict)
    requires forall k, m :: 0 <= k < i <= m < |before| ==> !conflict(before[k], before[m])
    requires i + 1 <= |after| && after[..i + 1] == before[..i + 1]
    requires after[i + 1..] == Drop(before[i], before[i + 1..], conflict)
    ensures Greedy(after[..i + 1], after[i + 1..], conflict) == Pruned(candidates, conflict)
    ensures forall k, m :: 0 <= k < i + 1 <= m < |after| ==> !conflict(after[k], after[m])
  {
    var s, x, r := before[..i], before[i], before[i + 1..];
    assert before[i..][0] == x && before[i..][1..] == r;
    assert !Blocked(s, x, conflict);
    assert after[..i + 1] == s + [x];
    assert (s + [x])[i] == x;
    GreedyIgnoresDropped(s + [x], x, r, conflict);
    forall k, m | 0 <= k < i + 1 <= m < |after|
      ensures !conflict(after[k], after[m])
    {
      var n := m - (i + 1);
      assert after[m] == Drop(x, r, conflict)[n];
      DropAt(x, r, conflict, n);
      if k < i {
        var m' :| 0 <= m' < |r| && r[m'] == after[m];
        assert before[i + 1 + m'] == after[m];
      }
    }
  }
}
