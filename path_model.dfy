/**
 * Points, flattened path events and path-builder commands, as the path code
 * of the animation engine sees them. Coordinates are `f32` in the source and
 * `real` here; the Euclidean length of a segment is a parameter that is only
 * known to be non-negative.
 */
module PathModel {

  /** A point of the plane. */
  datatype Point = Point(x: real, y: real)

  /** Linear interpolation between two points (`from.lerp(to, t)`). */
  function Lerp(from: Point, to: Point, t: real): (p: Point)
    ensures t == 0.0 ==> p == from
    ensures t == 1.0 ==> p == to
  {
    Point(from.x + (to.x - from.x) * t, from.y + (to.y - from.y) * t)
  }

  /** An event of a path flattened into line segments: no curves remain. */
  datatype Event =
    | Begin(at: Point)
    | Line(from: Point, to: Point)
    | End

  /** A command given to the path builder. */
  datatype Command =
    | MoveTo(at: Point)
    | LineTo(to: Point)
    | QuadraticTo(ctrl: Point, to: Point)
    | CubicTo(ctrl1: Point, ctrl2: Point, to: Point)
    | Close

  /** A built path: the commands it was built from. */
  datatype Path = Path(commands: seq<Command>)

  /** The length of the segment between two points; never negative. */
  type SegmentLength = f: (Point, Point) -> real | forall p, q :: f(p, q) >= 0.0
    witness (p: Point, q: Point) => 0.0

  /** The length contributed by one event: a Line's segment length, otherwise nothing. */
  function EventLength(e: Event, segLen: SegmentLength): real
  {
    if e.Line? then segLen(e.from, e.to) else 0.0
  }

  /** Total length of the Line events of a flattened path. */
  function LineTotal(events: seq<Event>, segLen: SegmentLength): (total: real)
    ensures total >= 0.0
  {
    if events == [] then 0.0
    else EventLength(events[0], segLen) + LineTotal(events[1..], segLen)
  }

  /** Number of Line events of a flattened path. */
  function LineCount(events: seq<Event>): (n: nat)
    ensures n <= |events|
  {
    if events == [] then 0
    else (if events[0].Line? then 1 else 0) + LineCount(events[1..])
  }

  /**
   * The builder command for one flattened event. An `End` always becomes
   * `close`: whether its sub-path was closed is not part of the event here.
   */
  function Verbatim(e: Event): Command
  {
    match e
    case Begin(at) => MoveTo(at)
    case Line(_, to) => LineTo(to)
    case End => Close
  }

  /** The builder commands for the flattened events, one per event, in order. */
  function VerbatimAll(events: seq<Event>): (cmds: seq<Command>)
    ensures |cmds| == |events|
  {
    if events == [] then [] else [Verbatim(events[0])] + VerbatimAll(events[1..])
  }
}
