# World geometry generation: a verified Dafny model

This project models the core of the world editor's `World` class
(`world/js/world.js`). That core turns a road graph into scene geometry:

- **Road geometry (`generate`).** It builds one road envelope per graph segment,
  takes the road borders as the union of those envelopes, and takes the lane
  guides as the union of a second set of envelopes at half the road width.
- **Building placement (`#generateBuildings`).**
  - It builds frontage guides from wide envelopes.
  - It drops guides shorter than `buildingMinWidth`.
  - It cuts each remaining guide into evenly spaced support segments.
  - It puts a footprint on each support.
  - It greedily prunes every footprint that intersects an earlier survivor or is closer to it than `spacing - 0.001`.
- **Draw selection (`draw`).** A start marking is drawn only when start
  markings are shown. Buildings and trees are drawn only when their distance
  to the viewpoint is below `renderRadius`, and the farthest are drawn first.

The polygon and segment classes this code relies on are not part of this
model. They appear as the `Kernel` datatype (`geometry.dfy`), a record of
uninterpreted functions that the world receives at construction: envelope
construction, the envelope's default roundness, `Polygon.union`, segment length,
`directionVector`, `add`, `scale`, `intersectsPoly`, `distanceToPoly` and
`distanceToPoint`.

Files:

- `seqs.dfy`: the order-preserving `Filter`, shared by the length filter, the
  marking test and the render-radius cull, with the `IsSubseq` relation.
- `placement.dfy`: the three placement steps, written generically.
  - `DropShortGuides` is the `splice`/`i--` filter loop.
  - `LaySupports` is the subdivision loop. It is generic over the point type.
    With the point type taken as the real line, it gives the offsets of the
    supports along the guide.
  - `PruneConflicting` and `RemoveConflictsWith` are the nested in-place pruning
    loop. They are proved equal to the earliest-first greedy definition
    `Pruned`.
- `geometry.dfy`: points, segments, polygons, envelopes and the kernel.
- `scene.dfy`: items, markings, and an insertion sort by descending distance.
- `world.dfy`: the `World` class (`Generate`, `GenerateLaneGuides`,
  `GenerateBuildings`, `Draw`) and the lemmas about placed buildings.

Behaviour the model keeps as the code has it:

- The code never rejects non-positive parameters. The constructor accepts any values.
- A degenerate slot count is not skipped with an error. It cannot happen
  once `buildingMinWidth + spacing > 0`: see `SlotCount`.
- `generate` never calls `#generateBuildings`, and `buildings` and `trees` are
  never filled in this file. `GenerateBuildings` is modelled on its own.

## Model

| member | source | states |
|---|---|---|
| `Seqs.FilterMembers` | world/js/world.js:157-159 | an element is selected exactly when it is in the input and passes the test |
| `Seqs.FilterSubseq` | world/js/world.js:88-94 | the selected elements keep their original relative order |
| `Placement.DropShortGuides` | world/js/world.js:88-94 | the `splice`/`i--` loop leaves exactly the guides whose length is not below `buildingMinWidth`, in input order, skipping none |
| `Placement.SurvivorsLongEnough` | world/js/world.js:88-94 | no guide that survives the filter is shorter than `buildingMinWidth` |
| `Placement.SlotCount` | world/js/world.js:98-101 | for a surviving guide with `buildingMinWidth + spacing > 0`, buildingCount is at least 1 (so the division at line 102 is defined) and that many slots plus gaps fit in `length + spacing` |
| `Placement.SlotsFillGuide` | world/js/world.js:98-102 | `buildingCount*buildingLength + (buildingCount-1)*spacing` equals the guide length, and `buildingLength >= buildingMinWidth` |
| `Placement.FiveSlotsOnFiveHundred` | world/js/world.js:98-102 | a 500-long guide with minimum width 50 and spacing 50 takes 5 buildings of length 60 |
| `Placement.SupportsLength` | world/js/world.js:103-111 | a guide yields exactly buildingCount supports |
| `Placement.SupportsChained` | world/js/world.js:103-111 | the first support starts at `seg.p1`; each ends `buildingLength` along the direction from its start; each next one starts `spacing` along the direction from the previous end |
| `Placement.LaySupports` | world/js/world.js:103-111 | the first push followed by the loop from `i = 2` to `buildingCount` produces exactly that chain of supports |
| `Placement.SupportsOnLine` | world/js/world.js:103-111 | measured along the guide, support k spans `[k*(len+spacing), k*(len+spacing)+len]` |
| `Placement.GuideLayout` | world/js/world.js:96-112 | along a guide there are buildingCount ≥ 1 supports; the first starts at the guide's first endpoint; each is buildingLength ≥ buildingMinWidth long; consecutive ones are exactly `spacing` apart; the last ends at the guide's far end |
| `Placement.GreedySnoc` | world/js/world.js:121-129 | greedy selection with an initial survivor list extends by one candidate as the earliest-first rule says |
| `Placement.PrunedSnoc` | world/js/world.js:122-128 | a candidate is removed if and only if it conflicts with some survivor among the candidates before it |
| `Placement.PrunedFirst` | world/js/world.js:122-128 | the first candidate always survives |
| `Placement.PrunedSpaced` | world/js/world.js:121-129 | no surviving pair (earlier, later) conflicts |
| `Placement.PrunedSubseq` | world/js/world.js:121-129 | the survivors are the candidates with some deleted, in generation order |
| `Placement.RemoveConflictsWith` | world/js/world.js:123-128 | the inner loop keeps the list up to `i` and removes exactly the later footprints that conflict with footprint `i`, keeping the order |
| `Placement.PruneConflicting` | world/js/world.js:121-129 | the nested in-place loop leaves exactly the earliest-first greedy survivors `Pruned(candidates)` |
| `Geometry.EnvelopesPerSegment` | world/js/world.js:50-55 | one envelope per graph segment, in order, each around its own segment, at the given width and roundness |
| `Worlds.BuildEnvelopes` | world/js/world.js:51-55 | the push loop collects exactly `Envelopes(segments, width, roundness)` |
| `Worlds.LayAllSupports` | world/js/world.js:96-112 | the subdivision loop over all guides yields, guide after guide, each guide's chain of buildingCount supports of buildingLength |
| `Worlds.BuildFootprints` | world/js/world.js:115-119 | one footprint per support, in order: the envelope at `buildingWidth` with the default roundness |
| `Worlds.BuildingsKeepApart` | world/js/world.js:121-129 | each placed building, tested against every later one, neither intersects it nor stands closer to it than `spacing - 0.001` |
| `Worlds.BuildingsGreedy` | world/js/world.js:121-129 | the placed footprints keep the candidates' order; the first candidate is placed; each candidate is dropped exactly when it conflicts with an earlier placed one |
| `Worlds.TooCloseIsPruned` | world/js/world.js:121-126 | of two candidates 40 apart with spacing 50, only the first survives |
| `Worlds.World.constructor` | world/js/world.js:2-29 | stores the graph and parameters (defaults 100, 10, 150, 50, 50, 160), starts with no buildings, trees or markings, and generates |
| `Worlds.World.Generate` | world/js/world.js:49-59 | `envelopes` is replaced by one road-width envelope per graph segment, with no stale entries; `roadBorders` is their union; `laneGuides` is replaced by the half-width union; nothing else changes |
| `Worlds.World.GenerateLaneGuides` | world/js/world.js:61-74 | returns the union of the envelopes of every graph segment at `roadWidth/2` |
| `Worlds.World.GenerateBuildings` | world/js/world.js:76-132 | returns one building per footprint surviving the filter, subdivision and pruning pipeline, in order |
| `Worlds.World.Draw` | world/js/world.js:134-168 | draws exactly the markings that are not a start marking, or all of them when `showStartMarkings`, in order; then the items given by `DrawOrder` |
| `Scene.ShownMarkings` | world/js/world.js:138-142 | a marking is drawn if and only if it is not a start marking or `showStartMarkings` is true |
| `Scene.SortedFarthestFirst` | world/js/world.js:160-164 | the sort orders by non-increasing distance and is a permutation of its input |
| `Scene.EqualDistancesKeepOrder` | world/js/world.js:160-164 | when all distances are equal, the sort returns its input in the same order |
| `Scene.DrawOrderSpec` | world/js/world.js:157-167 | the items drawn are exactly the buildings and trees strictly within `renderRadius`, with the same multiplicities, in non-increasing distance |

## Left out

- `World.load` (lines 31-47) is deserialisation glue over `load` functions that are not part of this model.
- `Envelope`, `Polygon.union`, `Segment.length`, `directionVector`, `add`, `scale`, `intersectsPoly`, `distanceToPoly` and `distanceToPoint` are not part of this model. They are uninterpreted fields of `Kernel`, so nothing is proved about union or envelope shapes.
- Floating point: lengths are exact `real`, and `Math.floor` is `.Floor`.
- Placement.SupportsOnLine: support positions are proved as offsets along the guide. This holds when `add` and `scale` act on the guide's line. In the plane the model proves only the chaining of `SupportsChained`, because `add` and `scale` are uninterpreted there. Rounding drift from stepping `q1`/`q2` is not modelled.
- Placement.SlotCount: requires `buildingMinWidth + spacing > 0`, which the source does not check. Outside it the source does not stop with an error: when the sum is 0 and a guide is longer than `buildingMinWidth`, `len/0` is `Infinity`, `Math.floor` keeps it, and the loop at lines 107-111 never ends, pushing supports until memory runs out; a guide exactly `buildingMinWidth` long gives `0/0 = NaN` and line 106 pushes one support with NaN coordinates; when the sum is negative the count can be 0 or negative and line 106 still pushes one support. The model covers none of these cases.
- Scene.SortFarthestFirst: this is an insertion sort written for the model, not `Array.prototype.sort`. The resulting order and the permutation are proved, and `EqualDistancesKeepOrder` proves that an input whose distances are all equal comes back unchanged; stability for mixed inputs is not proved. NaN distances are not modelled.
- Worlds.World.Draw: all canvas side effects are not modelled. That covers drawing envelopes, graph segments, road borders, cars and `bestCar`, and setting `globalAlpha`. The method returns the sequence of markings and items drawn, in order.
- Worlds.World.Generate: the source clears and refills the same `envelopes` and `laneGuides` arrays in place (lines 50 and 57-58), so a holder of those arrays sees the new geometry, while `roadBorders` gets a fresh array (line 56). The model's fields are values, so this aliasing difference is not captured.
- `cars`, `bestCar`, `zoom` and `offset` are not modelled. They are not used by the geometry core.
