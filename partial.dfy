/**
 * `GetPartial::upto`: truncates a path at `ratio` of its length. The path is
 * flattened; a running length advances over the Line events, which are
 * copied while the running length stays within `stop_at`; the first segment
 * that would overshoot is cut at the exact crossing and the walk stops.
 */
module PartialPath {
  import opened PathModel

  /**
   * The result of walking flattened events: the commands emitted, the final
   * value of the running `length` (which a cut segment does not advance), and
   * whether a segment was cut.
   */
  datatype Walk = Walk(commands: seq<Command>, length: real, cut: bool)

  function Prepend(c: Command, w: Walk): Walk
  {
    w.(commands := [c] + w.commands)
  }

  /**
   * The walk, one event at a time, from running length `length`. The guard
   * `length > stopAt` is the early `break` at the head of the loop; in a Line
   * that overshoots, `seg` cannot be zero because `length <= stopAt < length + seg`.
   */
  function WalkUpto(events: seq<Event>, length: real, stopAt: real, segLen: SegmentLength): Walk
    decreases |events|
  {
    if events == [] || length > stopAt then Walk([], length, false)
    else match events[0]
      case Begin(at) => Prepend(MoveTo(at), WalkUpto(events[1..], length, stopAt, segLen))
      case Line(from, to) =>
        var seg := segLen(from, to);
        var newLength := length + seg;
        if newLength > stopAt then
          Walk([LineTo(Lerp(from, to, CutRatio(length, seg, stopAt)))], length, true)
        else
          Prepend(LineTo(to), WalkUpto(events[1..], newLength, stopAt, segLen))
      case End => Prepend(Close, WalkUpto(events[1..], length, stopAt, segLen))
  }

  /** `seg_ratio = 1.0 - (new_length - stop_at) / seg_length`. */
  function CutRatio(length: real, seg: real, stopAt: real): real
    requires seg != 0.0
  {
    1.0 - (length + seg - stopAt) / seg
  }

  /**
   * On the overshooting segment the length is positive (no division by zero),
   * the cut ratio lies in [0, 1), and the cut lands exactly on the stop.
   */
  lemma CutLandsOnStop(length: real, seg: real, stopAt: real)
    requires length <= stopAt < length + seg
    ensures seg > 0.0
    ensures 0.0 <= CutRatio(length, seg, stopAt) < 1.0
    ensures length + CutRatio(length, seg, stopAt) * seg == stopAt
  {
    var over := length + seg - stopAt;
    assert 0.0 < over <= seg;
    assert over / seg <= 1.0 by {
      assert over / seg * seg == over;
    }
    assert (1.0 - over / seg) * seg == seg - over;
  }

  /**
   * The library's `approximate_length` at the flattening tolerance: a length
   * of the whole path, only known to be non-negative.
   */
  type LengthMeasure = f: Path -> real | forall p :: f(p) >= 0.0
    witness (p: Path) => 0.0

  /** `stop_at = ratio.max(0.0) * full_length`. */
  function StopAt(ratio: real, fullLength: real): real
  {
    (if ratio > 0.0 then ratio else 0.0) * fullLength
  }

  /**
   * `upto(self, ratio, tolerance)`; `flatten` stands for flattening at
   * `tolerance` and `measure` for `approximate_length` at `tolerance`. A ratio
   * of 1 or more returns the path itself without flattening it.
   */
  method Upto(path: Path, ratio: real, flatten: Path -> seq<Event>, measure: LengthMeasure, segLen: SegmentLength)
    returns (r: Path)
    ensures ratio >= 1.0 ==> r == path
    ensures ratio < 1.0 ==>
      var events := flatten(path);
      r == Path(WalkUpto(events, 0.0, StopAt(ratio, measure(path)), segLen).commands)
  {
    if ratio >= 1.0 {
      return path;
    }
    var fullLength := measure(path);
    var events := flatten(path);
    var stopAt := StopAt(ratio, fullLength);
    ghost var whole := WalkUpto(events, 0.0, stopAt, segLen).commands;

    var builder: seq<Command> := [];
    var length := 0.0;
    var i := 0;
    while i < |events|
      invariant 0 <= i <= |events|
      invariant 0.0 <= length <= stopAt
      invariant builder + WalkUpto(events[i..], length, stopAt, segLen).commands == whole
    {
      if length > stopAt {
        break;
      }
      WalkStep(events, i, length, stopAt, segLen, builder, whole);
      match events[i] {
        case Begin(at) =>
          builder := builder + [MoveTo(at)];
        case Line(from, to) =>
          var segLength := segLen(from, to);
          var newLength := length + segLength;
          if newLength > stopAt {
            var segRatio := 1.0 - (newLength - stopAt) / segLength;
            assert segRatio == CutRatio(length, segLength, stopAt);
            builder := builder + [LineTo(Lerp(from, to, segRatio))];
            break;
          } else {
            length := newLength;
            builder := builder + [LineTo(to)];
          }
        case End =>
          builder := builder + [Close];
      }
      i := i + 1;
    }
    assert i == |events| ==> events[i..] == [];
    r := Path(builder);
  }

  /**
   * One step of the walk from event `i`, with the running length within the
   * stop: the commands emitted so far, `done`, followed by the walk from `i`
   * make up `whole`, and so do `done` with event `i`'s command followed by the
   * walk from `i + 1`, or `done` with the cut segment alone.
   */
  lemma WalkStep(events: seq<Event>, i: nat, length: real, stopAt: real, segLen: SegmentLength,
                 done: seq<Command>, whole: seq<Command>)
    requires i < |events| && length <= stopAt
    requires done + WalkUpto(events[i..], length, stopAt, segLen).commands == whole
    ensures events[i].Begin? ==>
      (done + [MoveTo(events[i].at)]) + WalkUpto(events[i + 1..], length, stopAt, segLen).commands == whole
    ensures events[i].End? ==>
      (done + [Close]) + WalkUpto(events[i + 1..], length, stopAt, segLen).commands == whole
    ensures events[i].Line? ==>
      var seg := segLen(events[i].from, events[i].to);
      if length + seg > stopAt then
        done + [LineTo(Lerp(events[i].from, events[i].to, CutRatio(length, seg, stopAt)))] == whole
      else
        (done + [LineTo(events[i].to)]) + WalkUpto(events[i + 1..], length + seg, stopAt, segLen).commands == whole
  {
    assert events[i..][1..] == events[i + 1..];
    var rest := WalkUpto(events[i..], length, stopAt, segLen).commands;
    match events[i]
    case Begin(at) =>
      assert rest == [MoveTo(at)] + WalkUpto(events[i + 1..], length, stopAt, segLen).commands;
      assert (done + [MoveTo(at)]) + WalkUpto(events[i + 1..], length, stopAt, segLen).commands == done + rest;
    case End =>
      assert rest == [Close] + WalkUpto(events[i + 1..], length, stopAt, segLen).commands;
      assert (done + [Close]) + WalkUpto(events[i + 1..], length, stopAt, segLen).commands == done + rest;
    case Line(from, to) =>
      var seg := segLen(from, to);
      if length + seg <= stopAt {
        assert rest == [LineTo(to)] + WalkUpto(events[i + 1..], length + seg, stopAt, segLen).commands;
        assert (done + [LineTo(to)]) + WalkUpto(events[i + 1..], length + seg, stopAt, segLen).commands == done + rest;
      }
  }

  /**
   * When the whole remaining length fits within the stop, every event is
   * reproduced verbatim, no segment is cut, and the running length ends at the
   * start plus the total length.
   */
  lemma {:induction false} WalkComplete(events: seq<Event>, length: real, stopAt: real, segLen: SegmentLength)
    requires length + LineTotal(events, segLen) <= stopAt
    ensures WalkUpto(events, length, stopAt, segLen)
         == Walk(VerbatimAll(events), length + LineTotal(events, segLen), false)
  {
    if events != [] {
      var e := events[0];
      WalkComplete(events[1..], length + EventLength(e, segLen), stopAt, segLen);
    }
  }

  /**
   * When the stop lies within the remaining length, the walk cuts the Line
   * event `k` on which the running length crosses the stop: the events before
   * it are reproduced verbatim, then one `line_to` to the point at fraction
   * `t` of that segment, where `0 <= t < 1` is the cut ratio, which lands
   * exactly on the stop (`CutLandsOnStop`); the running length stays at the
   * length before the cut.
   */
  lemma {:induction false} WalkCutPoint(events: seq<Event>, length: real, stopAt: real, segLen: SegmentLength)
    returns (k: nat, t: real)
    requires length <= stopAt < length + LineTotal(events, segLen)
    ensures k < |events| && events[k].Line?
    ensures length + LineTotal(events[..k], segLen) <= stopAt
    ensures stopAt < length + LineTotal(events[..k], segLen) + segLen(events[k].from, events[k].to)
    ensures 0.0 <= t < 1.0
    ensures t == CutRatio(length + LineTotal(events[..k], segLen), segLen(events[k].from, events[k].to), stopAt)
    ensures WalkUpto(events, length, stopAt, segLen)
         == Walk(VerbatimAll(events[..k]) + [LineTo(Lerp(events[k].from, events[k].to, t))],
                 length + LineTotal(events[..k], segLen), true)
  {
    var e := events[0];
    var rest := events[1..];
    assert events[..1] == [e];
    assert events[..1][1..] == [];
    if e.Line? {
      var seg := segLen(e.from, e.to);
      if length + seg > stopAt {
        k := 0;
        CutLandsOnStop(length, seg, stopAt);
        t := CutRatio(length, seg, stopAt);
        assert events[..0] == [];
        assert LineTotal(events[..0], segLen) == 0.0;
        assert segLen(events[k].from, events[k].to) == seg;
      } else {
        var k', t' := WalkCutPoint(rest, length + seg, stopAt, segLen);
        k, t := k' + 1, t';
        CutPointShift(events, k', seg, segLen);
      }
    } else {
      var k', t' := WalkCutPoint(rest, length, stopAt, segLen);
      k, t := k' + 1, t';
      CutPointShift(events, k', 0.0, segLen);
    }
  }

  /** Moving the cut one event along: the prefix before it gains the first event's length. */
  lemma CutPointShift(events: seq<Event>, k': nat, first: real, segLen: SegmentLength)
    requires k' + 1 < |events| && first == EventLength(events[0], segLen)
    ensures events[1..][k'] == events[k' + 1]
    ensures LineTotal(events[..k' + 1], segLen) == first + LineTotal(events[1..][..k'], segLen)
    ensures VerbatimAll(events[..k' + 1]) == [Verbatim(events[0])] + VerbatimAll(events[1..][..k'])
  {
    assert events[..k' + 1][1..] == events[1..][..k'];
  }

  /**
   * The loop invariant: from a running length within the stop, the running
   * length never exceeds the stop, so the early `break` at the head of the
   * loop never fires; a segment is cut exactly when the path is longer than
   * what remains up to the stop.
   */
  lemma WalkWithinStop(events: seq<Event>, length: real, stopAt: real, segLen: SegmentLength)
    requires length <= stopAt
    ensures var w := WalkUpto(events, length, stopAt, segLen);
      && length <= w.length <= stopAt
      && (w.cut <==> stopAt < length + LineTotal(events, segLen))
  {
    if stopAt < length + LineTotal(events, segLen) {
      var k, t := WalkCutPoint(events, length, stopAt, segLen);
    } else {
      WalkComplete(events, length, stopAt, segLen);
    }
  }

  /**
   * For `0 <= ratio < 1` and a path of positive length the stop is `ratio` of
   * the length and lies strictly inside the path.
   */
  lemma StopInside(ratio: real, total: real)
    requires 0.0 <= ratio < 1.0 && total > 0.0
    ensures StopAt(ratio, total) == ratio * total
    ensures 0.0 <= StopAt(ratio, total) < total
  {
  }

  /** A non-negative full length gives a non-negative stop, whatever the ratio. */
  lemma StopNonNegative(ratio: real, fullLength: real)
    requires fullLength >= 0.0
    ensures StopAt(ratio, fullLength) >= 0.0
  {
    var clamped := if ratio > 0.0 then ratio else 0.0;
    assert clamped >= 0.0;
  }

  /**
   * Whatever the full length, when the stop lies below the flattened Line
   * total the walk cuts the Line event `k` on which the running length
   * crosses the stop, at the cut ratio `t`, which lands exactly on the stop.
   */
  lemma UptoCutsBelowTotal(events: seq<Event>, ratio: real, fullLength: real, segLen: SegmentLength)
    returns (k: nat, t: real)
    requires fullLength >= 0.0 && StopAt(ratio, fullLength) < LineTotal(events, segLen)
    ensures k < |events| && events[k].Line? && 0.0 <= t < 1.0
    ensures var stopAt := StopAt(ratio, fullLength);
      var prefix := LineTotal(events[..k], segLen);
      var seg := segLen(events[k].from, events[k].to);
      && prefix <= stopAt < prefix + seg
      && prefix + t * seg == stopAt
      && WalkUpto(events, 0.0, stopAt, segLen)
         == Walk(VerbatimAll(events[..k]) + [LineTo(Lerp(events[k].from, events[k].to, t))], prefix, true)
  {
    var stopAt := StopAt(ratio, fullLength);
    StopNonNegative(ratio, fullLength);
    k, t := WalkCutPoint(events, 0.0, stopAt, segLen);
    var prefix := LineTotal(events[..k], segLen);
    assert 0.0 + prefix == prefix;
    CutLandsOnStop(prefix, segLen(events[k].from, events[k].to), stopAt);
  }

  /**
   * Whatever the full length, when the stop reaches the flattened Line total
   * nothing is cut: every event is reproduced verbatim, `close` included.
   */
  lemma UptoKeepsAll(events: seq<Event>, ratio: real, fullLength: real, segLen: SegmentLength)
    requires fullLength >= 0.0 && LineTotal(events, segLen) <= StopAt(ratio, fullLength)
    ensures WalkUpto(events, 0.0, StopAt(ratio, fullLength), segLen)
         == Walk(VerbatimAll(events), LineTotal(events, segLen), false)
  {
    WalkComplete(events, 0.0, StopAt(ratio, fullLength), segLen);
    assert 0.0 + LineTotal(events, segLen) == LineTotal(events, segLen);
  }

  /**
   * When the full length is the flattened Line total, as the commented-out
   * loop beside `approximate_length` computes it, a ratio in `[0, 1)` on a
   * path of positive length always cuts a Line, at the cut ratio that lands
   * on the stop, which is `ratio` of the length (`StopInside`).
   */
  lemma UptoCutsAtRatio(events: seq<Event>, ratio: real, segLen: SegmentLength) returns (k: nat, t: real)
    requires 0.0 <= ratio < 1.0 && LineTotal(events, segLen) > 0.0
    ensures k < |events| && events[k].Line? && 0.0 <= t < 1.0
    ensures var stopAt := StopAt(ratio, LineTotal(events, segLen));
      var prefix := LineTotal(events[..k], segLen);
      var seg := segLen(events[k].from, events[k].to);
      && prefix <= stopAt < prefix + seg
      && prefix + t * seg == stopAt
      && WalkUpto(events, 0.0, stopAt, segLen)
         == Walk(VerbatimAll(events[..k]) + [LineTo(Lerp(events[k].from, events[k].to, t))], prefix, true)
  {
    var total := LineTotal(events, segLen);
    StopInside(ratio, total);
    k, t := UptoCutsBelowTotal(events, ratio, total, segLen);
  }

  /**
   * The source's `flatten` test: `move_to(p)`, `line_to(q)`, `close` with a
   * segment of length 10, cut at ratio 0.5. With a full length of 10 the walk
   * ends at the midpoint of the segment; with a full length of 20 (a measure
   * that also counted the closing side) nothing is cut.
   */
  lemma FlattenTest(p: Point, q: Point, segLen: SegmentLength)
    requires segLen(p, q) == 10.0
    ensures WalkUpto([Begin(p), Line(p, q), End], 0.0, StopAt(0.5, 10.0), segLen).commands
         == [MoveTo(p), LineTo(Lerp(p, q, 0.5))]
    ensures WalkUpto([Begin(p), Line(p, q), End], 0.0, StopAt(0.5, 20.0), segLen).commands
         == [MoveTo(p), LineTo(q), Close]
  {
    var events := [Begin(p), Line(p, q), End];
    assert events[1..] == [Line(p, q), End];
    assert events[1..][1..] == [End];
    assert StopAt(0.5, 10.0) == 5.0 && CutRatio(0.0, 10.0, 5.0) == 0.5;
    assert StopAt(0.5, 20.0) == 10.0;
    assert WalkUpto([End], 10.0, 10.0, segLen).commands == [Close];
    assert WalkUpto(events[1..], 0.0, 10.0, segLen).commands == [LineTo(q), Close];
  }
}
