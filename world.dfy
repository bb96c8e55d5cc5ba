/**
 * The World aggregate of world/js/world.js: it owns the road graph and the
 * generation parameters, rebuilds the derived road geometry in `Generate`,
 * computes building footprints in `GenerateBuildings` and decides what `Draw`
 * draws and in which order.
 */
module Worlds {
  import opened Seqs
  import opened Geometry
  import opened Placement
  import opened Scene

  /** The road network: nodes and the centerline segments between them. */
  datatype Graph = Graph(points: seq<Point>, segments: seq<Segment>)

  /** The tolerance below `spacing` at which two footprints count as too close. */
  const Eps: real := 0.001

  /** The lane guides: the union of the envelopes at half the road width. */
  function LaneGuides(kernel: Kernel, segments: seq<Segment>, roadWidth: real, roadRoundness: real): (guides: seq<Segment>)
  {
    kernel.union(Polys(Envelopes(kernel, segments, roadWidth / 2.0, roadRoundness)))
  }

  /** The frontage guides: the union of the envelopes wide enough to reach past a building. */
  function FrontageGuides(kernel: Kernel, segments: seq<Segment>, roadWidth: real, roadRoundness: real,
                          buildingWidth: real, spacing: real): (guides: seq<Segment>)
  {
    kernel.union(Polys(Envelopes(kernel, segments, roadWidth + buildingWidth + spacing * 2.0, roadRoundness)))
  }

  /** The support segments laid along one (long enough) guide, starting from its first endpoint. */
  function GuideSupports(kernel: Kernel, guide: Segment, minWidth: real, spacing: real): (supports: seq<Segment>)
    requires minWidth + spacing > 0.0 && kernel.length(guide) >= minWidth
  {
    var pairs := Supports(guide.p1, kernel.directionVector(guide),
                          SlotCount(kernel.length(guide), minWidth, spacing),
                          SlotLength(kernel.length(guide), minWidth, spacing),
                          spacing, kernel.add, kernel.scale);
    seq(|pairs|, k requires 0 <= k < |pairs| => Segment(pairs[k].0, pairs[k].1))
  }

  /** The supports of all guides, guide after guide. */
  function AllSupports(kernel: Kernel, guides: seq<Segment>, minWidth: real, spacing: real): (supports: seq<Segment>)
    requires minWidth + spacing > 0.0
    requires forall k :: 0 <= k < |guides| ==> kernel.length(guides[k]) >= minWidth
  {
    if guides == [] then []
    else AllSupports(kernel, guides[..|guides| - 1], minWidth, spacing)
         + GuideSupports(kernel, guides[|guides| - 1], minWidth, spacing)
  }

  /** Each support's footprint: an envelope of `buildingWidth` with the default roundness. */
  function Footprints(kernel: Kernel, supports: seq<Segment>, buildingWidth: real): (footprints: seq<Polygon>)
  {
    seq(|supports|, k requires 0 <= k < |supports|
                      => kernel.envelopePoly(supports[k], buildingWidth, kernel.defaultRoundness))
  }

  /** Two footprints conflict when they intersect or are closer than `spacing - Eps`. */
  function Conflict(kernel: Kernel, spacing: real): (conflict: (Polygon, Polygon) -> bool)
  {
    (a, b) => kernel.intersectsPoly(a, b) || kernel.distanceToPoly(a, b) < spacing - Eps
  }

  /** The candidate footprints of #generateBuildings, before pruning. */
  function CandidateFootprints(kernel: Kernel, segments: seq<Segment>, roadWidth: real, roadRoundness: real,
                               buildingWidth: real, buildingMinWidth: real, spacing: real): (footprints: seq<Polygon>)
    requires buildingMinWidth + spacing > 0.0
  {
    var all := FrontageGuides(kernel, segments, roadWidth, roadRoundness, buildingWidth, spacing);
    SurvivorsLongEnough(all, kernel.length, buildingMinWidth);
    var guides := Filter(all, AtLeast(kernel.length, buildingMinWidth));
    Footprints(kernel, AllSupports(kernel, guides, buildingMinWidth, spacing), buildingWidth)
  }

  /** The footprints that #generateBuildings turns into buildings. */
  function PlacedFootprints(kernel: Kernel, segments: seq<Segment>, roadWidth: real, roadRoundness: real,
                            buildingWidth: real, buildingMinWidth: real, spacing: real): (placed: seq<Polygon>)
    requires buildingMinWidth + spacing > 0.0
  {
    Pruned(CandidateFootprints(kernel, segments, roadWidth, roadRoundness, buildingWidth, buildingMinWidth, spacing),
           Conflict(kernel, spacing))
  }

  /**
   * Any two buildings placed (earlier against later) neither intersect nor stand
   * closer than `spacing - Eps`.
   */
  lemma BuildingsKeepApart(kernel: Kernel, segments: seq<Segment>, roadWidth: real, roadRoundness: real,
                           buildingWidth: real, buildingMinWidth: real, spacing: real)
    requires buildingMinWidth + spacing > 0.0
    ensures var p := PlacedFootprints(kernel, segments, roadWidth, roadRoundness, buildingWidth, buildingMinWidth, spacing);
            forall i, j :: 0 <= i < j < |p| ==>
              !kernel.intersectsPoly(p[i], p[j]) && kernel.distanceToPoly(p[i], p[j]) >= spacing - Eps
  {
    var c := CandidateFootprints(kernel, segments, roadWidth, roadRoundness, buildingWidth, buildingMinWidth, spacing);
    PrunedSpaced(c, Conflict(kernel, spacing));
  }

  /**
   * The buildings are candidate footprints kept in generation order; the first
   * candidate is always kept, and a later one is dropped exactly when it
   * conflicts with a footprint kept among the candidates before it.
   */
  lemma BuildingsGreedy(kernel: Kernel, segments: seq<Segment>, roadWidth: real, roadRoundness: real,
                        buildingWidth: real, buildingMinWidth: real, spacing: real)
    requires buildingMinWidth + spacing > 0.0
    ensures var c := CandidateFootprints(kernel, segments, roadWidth, roadRoundness, buildingWidth, buildingMinWidth, spacing);
            var p := PlacedFootprints(kernel, segments, roadWidth, roadRoundness, buildingWidth, buildingMinWidth, spacing);
            IsSubseq(p, c)
            && (c != [] ==> p != [] && p[0] == c[0])
            && forall n :: 0 < n <= |c| ==>
                 Pruned(c[..n], Conflict(kernel, spacing))
                 == var earlier := Pruned(c[..n - 1], Conflict(kernel, spacing));
                    if Blocked(earlier, c[n - 1], Conflict(kernel, spacing)) then earlier else earlier + [c[n - 1]]
  {
    var c := CandidateFootprints(kernel, segments, roadWidth, roadRoundness, buildingWidth, buildingMinWidth, spacing);
    PrunedSubseq(c, Conflict(kernel, spacing));
    if c != [] {
      PrunedFirst(c, Conflict(kernel, spacing));
    }
    forall n | 0 < n <= |c|
      ensures Pruned(c[..n], Conflict(kernel, spacing))
           == var earlier := Pruned(c[..n - 1], Conflict(kernel, spacing));
              if Blocked(earlier, c[n - 1], Conflict(kernel, spacing)) then earlier else earlier + [c[n - 1]]
    {
      assert c[..n] == c[..n - 1] + [c[n - 1]];
      PrunedSnoc(c[..n - 1], c[n - 1], Conflict(kernel, spacing));
    }
  }

  /** Of two candidates 40 apart with spacing 50, the second is pruned. */
  lemma TooCloseIsPruned(kernel: Kernel, a: Polygon, b: Polygon)
    requires kernel.distanceToPoly(a, b) == 40.0
    ensures Pruned([a, b], Conflict(kernel, 50.0)) == [a]
  {
    var conflict := Conflict(kernel, 50.0);
    assert conflict(a, b);
    assert !Blocked([], a, conflict);
    assert Blocked([a], b, conflict) by {
      assert [a][0] == a;
    }
    calc {
      Pruned([a, b], conflict);
      Greedy([] + [a], [a, b][1..], conflict);
      { assert [] + [a] == [a] && [a, b][1..] == [b]; }
      Greedy([a], [b], conflict);
      { assert [b][1..] == []; }
      Greedy([a], [], conflict);
    }
  }

  /** How far an item's footprint is from the viewpoint. */
  function DistanceFrom(kernel: Kernel, viewPoint: Point): (dist: Item -> real)
  {
    (i: Item) => kernel.distanceToPoint(i.base, viewPoint)
  }

  /** The loop `for (const seg of segments) tmp.push(new Envelope(seg, width, roundness))`. */
  method BuildEnvelopes(kernel: Kernel, segments: seq<Segment>, width: real, roundness: real)
    returns (envelopes: seq<Envelope>)
    ensures envelopes == Envelopes(kernel, segments, width, roundness)
  {
    envelopes := [];
    for k := 0 to |segments|
      invariant envelopes == Envelopes(kernel, segments[..k], width, roundness)
    {
      assert segments[..k + 1][..k] == segments[..k];
      envelopes := envelopes + [MakeEnvelope(kernel, segments[k], width, roundness)];
    }
    assert segments[..|segments|] == segments;
  }

  /**
   * The subdivision loop of #generateBuildings over all surviving guides:
   * buildingCount = floor((length + spacing) / (minWidth + spacing)) supports of
   * buildingLength = (length + spacing) / buildingCount - spacing per guide.
   */
  method LayAllSupports(kernel: Kernel, guides: seq<Segment>, minWidth: real, spacing: real)
    returns (supports: seq<Segment>)
    requires minWidth + spacing > 0.0
    requires forall k :: 0 <= k < |guides| ==> kernel.length(guides[k]) >= minWidth
    ensures supports == AllSupports(kernel, guides, minWidth, spacing)
  {
    supports := [];
    for k := 0 to |guides|
      invariant supports == AllSupports(kernel, guides[..k], minWidth, spacing)
    {
      assert guides[..k + 1][..k] == guides[..k];
      var seg := guides[k];
      var len := kernel.length(seg) + spacing;
      var buildingCount := (len / (minWidth + spacing)).Floor;
      assert buildingCount == SlotCount(kernel.length(seg), minWidth, spacing);
      var buildingLength := len / buildingCount as real - spacing;
      var dir := kernel.directionVector(seg);
      var pairs := LaySupports(seg.p1, dir, buildingCount, buildingLength, spacing, kernel.add, kernel.scale);
      supports := supports + seq(|pairs|, i requires 0 <= i < |pairs| => Segment(pairs[i].0, pairs[i].1));
    }
    assert guides[..|guides|] == guides;
  }

  /** The loop `for (const seg of supports) bases.push(new Envelope(seg, buildingWidth).poly)`. */
  method BuildFootprints(kernel: Kernel, supports: seq<Segment>, buildingWidth: real)
    returns (bases: seq<Polygon>)
    ensures bases == Footprints(kernel, supports, buildingWidth)
  {
    bases := [];
    for k := 0 to |supports|
      invariant bases == Footprints(kernel, supports[..k], buildingWidth)
    {
      bases := bases + [kernel.envelopePoly(supports[k], buildingWidth, kernel.defaultRoundness)];
    }
  }

  class World {
    const kernel: Kernel
    var graph: Graph
    var roadWidth: real
    var roadRoundness: real
    var buildingWidth: real
    var buildingMinWidth: real
    var spacing: real
    var treeSize: real

    var envelopes: seq<Envelope>
    var roadBorders: seq<Segment>
    var buildings: seq<Item>
    var trees: seq<Item>
    var laneGuides: seq<Segment>
    var markings: seq<Marking>

    /** A world over `graph` with the source's default parameters, generated once. */
    constructor(kernel: Kernel, graph: Graph,
                roadWidth: real := 100.0, roadRoundness: real := 10.0, buildingWidth: real := 150.0,
                buildingMinWidth: real := 50.0, spacing: real := 50.0, treeSize: real := 160.0)
      ensures this.kernel == kernel && this.graph == graph
      ensures this.roadWidth == roadWidth && this.roadRoundness == roadRoundness
      ensures this.buildingWidth == buildingWidth && this.buildingMinWidth == buildingMinWidth
      ensures this.spacing == spacing && this.treeSize == treeSize
      ensures buildings == [] && trees == [] && markings == []
      ensures envelopes == Envelopes(kernel, graph.segments, roadWidth, roadRoundness)
      ensures roadBorders == kernel.union(Polys(envelopes))
      ensures laneGuides == LaneGuides(kernel, graph.segments, roadWidth, roadRoundness)
    {
      this.kernel := kernel;
      this.graph := graph;
      this.roadWidth := roadWidth;
      this.roadRoundness := roadRoundness;
      this.buildingWidth := buildingWidth;
      this.buildingMinWidth := buildingMinWidth;
      this.spacing := spacing;
      this.treeSize := treeSize;
      envelopes := [];
      roadBorders := [];
      buildings := [];
      trees := [];
      laneGuides := [];
      markings := [];
      new;
      Generate();
    }

    /**
     * Full rebuild of the road geometry: one envelope per graph segment at the
     * road width, the road borders as their union, and the lane guides. Nothing
     * else in the world changes.
     */
    method Generate()
      modifies this`envelopes, this`roadBorders, this`laneGuides
      ensures envelopes == Envelopes(kernel, graph.segments, roadWidth, roadRoundness)
      ensures roadBorders == kernel.union(Polys(envelopes))
      ensures laneGuides == LaneGuides(kernel, graph.segments, roadWidth, roadRoundness)
    {
      envelopes := [];
      envelopes := BuildEnvelopes(kernel, graph.segments, roadWidth, roadRoundness);
      roadBorders := kernel.union(Polys(envelopes));
      laneGuides := [];
      var guides := GenerateLaneGuides();
      laneGuides := laneGuides + guides;
    }

    /** The union of the envelopes of every graph segment at half the road width. */
    method GenerateLaneGuides() returns (segments: seq<Segment>)
      ensures segments == LaneGuides(kernel, graph.segments, roadWidth, roadRoundness)
    {
      var tmpEnvelopes := BuildEnvelopes(kernel, graph.segments, roadWidth / 2.0, roadRoundness);
      segments := kernel.union(Polys(tmpEnvelopes));
    }

    /**
     * Building placement: frontage guides from wide envelopes, dropping the short
     * ones, subdividing the rest into supports, a footprint per support, and
     * greedy pruning of footprints that conflict with an earlier one.
     */
    method GenerateBuildings() returns (result: seq<Item>)
      requires buildingMinWidth + spacing > 0.0
      ensures var p := PlacedFootprints(kernel, graph.segments, roadWidth, roadRoundness,
                                        buildingWidth, buildingMinWidth, spacing);
              |result| == |p| && forall k :: 0 <= k < |result| ==> result[k] == Building(p[k])
    {
      var tmpEnvelopes := BuildEnvelopes(kernel, graph.segments,
                                         roadWidth + buildingWidth + spacing * 2.0, roadRoundness);
      var all := kernel.union(Polys(tmpEnvelopes));
      var guides := DropShortGuides(all, kernel.length, buildingMinWidth);
      SurvivorsLongEnough(all, kernel.length, buildingMinWidth);
      var supports := LayAllSupports(kernel, guides, buildingMinWidth, spacing);
      var bases := BuildFootprints(kernel, supports, buildingWidth);
      bases := PruneConflicting(bases, Conflict(kernel, spacing));
      result := seq(|bases|, k requires 0 <= k < |bases| => Building(bases[k]));
    }

    /**
     * The selection `draw` makes: the markings it draws, in order, and the
     * buildings and trees it draws, in order. Canvas styling and the drawing of
     * envelopes, segments, borders and cars are not modelled.
     */
    method Draw(viewPoint: Point, showStartMarkings: bool := true, renderRadius: real := 1000.0)
      returns (drawnMarkings: seq<Marking>, drawnItems: seq<Item>)
      ensures drawnMarkings == Filter(markings, Shown(showStartMarkings))
      ensures drawnItems == DrawOrder(buildings + trees, DistanceFrom(kernel, viewPoint), renderRadius)
    {
      drawnMarkings := [];
      for k := 0 to |markings|
        invariant drawnMarkings == Filter(markings[..k], Shown(showStartMarkings))
      {
        assert markings[..k + 1][..k] == markings[..k];
        var marking := markings[k];
        if !marking.Start? || showStartMarkings {
          drawnMarkings := drawnMarkings + [marking];
        }
      }
      assert markings[..|markings|] == markings;
      var dist := DistanceFrom(kernel, viewPoint);
      var items := Filter(buildings + trees, Closer(dist, renderRadius));
      drawnItems := SortFarthestFirst(items, dist);
    }
  }
}
