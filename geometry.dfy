/**
 * The geometric vocabulary of the world: points, segments, polygons and road
 * envelopes. The primitives themselves (Segment, Polygon, Envelope and the
 * vector helpers) live in classes that are not part of this model; their
 * operations are gathered in a `Kernel` of uninterpreted functions that the
 * world is given at construction.
 */
module Geometry {

  datatype Point = Point(x: real, y: real)

  datatype Segment = Segment(p1: Point, p2: Point)

  datatype Polygon = Polygon(points: seq<Point>)

  /** A buffered polygon around `skeleton`, built at `width` with `roundness` cap steps. */
  datatype Envelope = Envelope(skeleton: Segment, width: real, roundness: real, poly: Polygon)

  /** The geometric operations the world calls but does not define. */
  datatype Kernel = Kernel(
    envelopePoly: (Segment, real, real) -> Polygon,   // new Envelope(seg, width, roundness).poly
    defaultRoundness: real,                           // Envelope's roundness when none is passed
    union: seq<Polygon> -> seq<Segment>,              // Polygon.union
    length: Segment -> real,                          // seg.length()
    directionVector: Segment -> Point,                // seg.directionVector()
    add: (Point, Point) -> Point,                     // add(p, q)
    scale: (Point, real) -> Point,                    // scale(p, s)
    intersectsPoly: (Polygon, Polygon) -> bool,       // a.intersectsPoly(b)
    distanceToPoly: (Polygon, Polygon) -> real,       // a.distanceToPoly(b)
    distanceToPoint: (Polygon, Point) -> real)        // a.distanceToPoint(p)

  /** `new Envelope(seg, width, roundness)`. */
  function MakeEnvelope(kernel: Kernel, seg: Segment, width: real, roundness: real): (env: Envelope)
  {
    Envelope(seg, width, roundness, kernel.envelopePoly(seg, width, roundness))
  }

  /** The envelopes a `for (const seg of segments) push(new Envelope(...))` loop collects. */
  function Envelopes(kernel: Kernel, segments: seq<Segment>, width: real, roundness: real): (envs: seq<Envelope>)
  {
    if segments == [] then []
    else Envelopes(kernel, segments[..|segments| - 1], width, roundness)
         + [MakeEnvelope(kernel, segments[|segments| - 1], width, roundness)]
  }

  /**
   * One envelope per segment, in segment order, each around its own segment and
   * built with the given width and roundness.
   */
  lemma {:induction false} EnvelopesPerSegment(kernel: Kernel, segments: seq<Segment>, width: real, roundness: real)
    ensures var es := Envelopes(kernel, segments, width, roundness);
            |es| == |segments|
            && forall k :: 0 <= k < |es| ==>
                 es[k].skeleton == segments[k] && es[k].width == width && es[k].roundness == roundness
                 && es[k].poly == kernel.envelopePoly(segments[k], width, roundness)
  {
    if segments != [] {
      EnvelopesPerSegment(kernel, segments[..|segments| - 1], width, roundness);
    }
  }

  /** `envelopes.map((e) => e.poly)`. */
  function Polys(envelopes: seq<Envelope>): (polys: seq<Polygon>)
  {
    seq(|envelopes|, k requires 0 <= k < |envelopes| => envelopes[k].poly)
  }
}
