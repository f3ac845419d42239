/**
 * The parts of path morphing (`Interpolate for Path`) that are not library
 * calls: clamping of the progress and the two boundary short-cuts, the
 * running "line lengths" of a flattened path, the interval vectors derived
 * from the combined ratios, and the shape of the built result. Flattening,
 * walking a path at given intervals and interpolating two points are library
 * code and enter as function parameters.
 */
module PathInterp {
  import opened PathModel
  import opened CombineVectors

  function Min(a: int, b: int): int
  {
    if a <= b then a else b
  }

  /** `progress.min(1.0).max(0.0)`. */
  function Clamp(progress: real): (t: real)
    ensures 0.0 <= t <= 1.0
    ensures 0.0 <= progress <= 1.0 ==> t == progress
    ensures progress > 1.0 ==> t == 1.0
    ensures progress < 0.0 ==> t == 0.0
  {
    var upper := if progress < 1.0 then progress else 1.0;
    if upper > 0.0 then upper else 0.0
  }

  /** The lengths of the Line events, in order. */
  function SegmentLengths(events: seq<Event>, segLen: SegmentLength): (lens: seq<real>)
    ensures |lens| == LineCount(events)
    ensures forall i :: 0 <= i < |lens| ==> lens[i] >= 0.0
  {
    if events == [] then []
    else if events[0].Line? then [segLen(events[0].from, events[0].to)] + SegmentLengths(events[1..], segLen)
    else SegmentLengths(events[1..], segLen)
  }

  /** `scan(start, |d, l| { *d += l; Some(*d) })`. */
  function RunningSums(start: real, lens: seq<real>): seq<real>
    decreases |lens|
  {
    if lens == [] then [] else [start + lens[0]] + RunningSums(start + lens[0], lens[1..])
  }

  /** `get_line_lengths`: the running sums of the Line lengths of a flattened path. */
  function LineLengths(events: seq<Event>, segLen: SegmentLength): seq<real>
  {
    RunningSums(0.0, SegmentLengths(events, segLen))
  }

  function Sum(s: seq<real>): real
  {
    if s == [] then 0.0 else s[0] + Sum(s[1..])
  }

  /** Each running sum is the start plus the sum of the lengths up to and including its own. */
  lemma {:induction false} RunningSumsAt(start: real, lens: seq<real>)
    ensures |RunningSums(start, lens)| == |lens|
    ensures forall i :: 0 <= i < |lens| ==> RunningSums(start, lens)[i] == start + Sum(lens[..i + 1])
    decreases |lens|
  {
    if lens != [] {
      var rest := RunningSums(start + lens[0], lens[1..]);
      RunningSumsAt(start + lens[0], lens[1..]);
      forall i | 0 <= i < |lens|
        ensures RunningSums(start, lens)[i] == start + Sum(lens[..i + 1])
      {
        if i == 0 {
          assert lens[..1][1..] == [];
        } else {
          assert lens[..i + 1][1..] == lens[1..][..i];
          assert RunningSums(start, lens)[i] == rest[i - 1];
        }
      }
    }
  }

  /** With non-negative lengths the running sums never fall below the start and never decrease. */
  lemma {:induction false} RunningSumsSorted(start: real, lens: seq<real>)
    requires forall i :: 0 <= i < |lens| ==> lens[i] >= 0.0
    ensures Sorted(RunningSums(start, lens))
    ensures forall i :: 0 <= i < |RunningSums(start, lens)| ==> RunningSums(start, lens)[i] >= start
    decreases |lens|
  {
    if lens != [] {
      RunningSumsSorted(start + lens[0], lens[1..]);
      var rest := RunningSums(start + lens[0], lens[1..]);
      assert RunningSums(start, lens) == [start + lens[0]] + rest;
    }
  }

  /** The Line lengths of a flattened path add up to its total length. */
  lemma {:induction false} SumSegmentLengths(events: seq<Event>, segLen: SegmentLength)
    ensures Sum(SegmentLengths(events, segLen)) == LineTotal(events, segLen)
  {
    if events != [] {
      SumSegmentLengths(events[1..], segLen);
    }
  }

  /**
   * `get_line_lengths` yields one entry per Line event; entry `i` is the sum of
   * the first `i + 1` Line lengths; the entries never decrease, and the last is
   * the total length of the path.
   */
  lemma LineLengthsProperties(events: seq<Event>, segLen: SegmentLength)
    ensures var l := LineLengths(events, segLen);
      && |l| == LineCount(events)
      && (forall i :: 0 <= i < |l| ==> l[i] == Sum(SegmentLengths(events, segLen)[..i + 1]))
      && Sorted(l)
      && (|l| > 0 ==> Last(l) == LineTotal(events, segLen))
  {
    var lens := SegmentLengths(events, segLen);
    RunningSumsAt(0.0, lens);
    RunningSumsSorted(0.0, lens);
    SumSegmentLengths(events, segLen);
    assert |lens| > 0 ==> lens[..|lens|] == lens;
  }

  /**
   * `lengths_1` / `lengths_2`: consecutive differences of the ratios, scaled by
   * a path's total length (the `zip` with `skip(1)` yields one fewer entry).
   */
  function Intervals(ratios: seq<real>, len: real): (r: seq<real>)
    ensures |r| == if |ratios| == 0 then 0 else |ratios| - 1
  {
    if |ratios| < 2 then []
    else [(ratios[1] - ratios[0]) * len] + Intervals(ratios[1..], len)
  }

  /** Entry `i` of the interval vector is the `i`-th ratio difference times the length. */
  lemma {:induction false} IntervalsAt(ratios: seq<real>, len: real)
    ensures forall i :: 0 <= i < |ratios| - 1 ==> Intervals(ratios, len)[i] == (ratios[i + 1] - ratios[i]) * len
  {
    if |ratios| >= 2 {
      IntervalsAt(ratios[1..], len);
    }
  }

  /** Non-decreasing ratios and a non-negative length give non-negative intervals. */
  lemma IntervalsNonNegative(ratios: seq<real>, len: real)
    requires Sorted(ratios) && len >= 0.0
    ensures forall i :: 0 <= i < |Intervals(ratios, len)| ==> Intervals(ratios, len)[i] >= 0.0
  {
    IntervalsAt(ratios, len);
    forall i | 0 <= i < |Intervals(ratios, len)| ensures Intervals(ratios, len)[i] >= 0.0 {
      assert ratios[i] <= ratios[i + 1];
    }
  }

  /** The intervals telescope: together they span from the first ratio to the last. */
  lemma {:induction false} IntervalsTelescope(ratios: seq<real>, len: real)
    requires |ratios| > 0
    ensures Sum(Intervals(ratios, len)) == (Last(ratios) - ratios[0]) * len
  {
    if |ratios| >= 2 {
      IntervalsTelescope(ratios[1..], len);
    }
  }

  /** What the morph needs: both paths have a Line and a non-zero total (the `unwrap`s and divisions). */
  predicate MorphDefined(e1: seq<Event>, e2: seq<Event>, segLen: SegmentLength)
  {
    var l1 := LineLengths(e1, segLen);
    var l2 := LineLengths(e2, segLen);
    |l1| > 0 && |l2| > 0 && Last(l1) != 0.0 && Last(l2) != 0.0
  }

  /** The combined, normalised breakpoints of two flattened paths. */
  function MorphRatios(e1: seq<Event>, e2: seq<Event>, segLen: SegmentLength): seq<real>
    requires MorphDefined(e1, e2, segLen)
  {
    Combined(LineLengths(e1, segLen), LineLengths(e2, segLen))
  }

  /** One `line_to` per pair of the zipped point sequences, in order. */
  function ZipLines(p1: seq<Point>, p2: seq<Point>, t: real, blend: (Point, Point, real) -> Point): (cmds: seq<Command>)
    ensures |cmds| == Min(|p1|, |p2|)
    ensures forall i :: 0 <= i < |cmds| ==> cmds[i] == LineTo(blend(p1[i], p2[i], t))
  {
    if p1 == [] || p2 == [] then []
    else [LineTo(blend(p1[0], p2[0], t))] + ZipLines(p1[1..], p2[1..], t, blend)
  }

  /** The built morph: the zipped `line_to`s followed by one `close`. */
  function Morphed(p1: seq<Point>, p2: seq<Point>, t: real, blend: (Point, Point, real) -> Point): Path
  {
    Path(ZipLines(p1, p2, t, blend) + [Close])
  }

  /**
   * `interp(self, other, progress)`. `flatten` stands for flattening at the
   * fixed tolerance 0.5, `walk` for walking a flattened path at the given
   * intervals and collecting the positions reached, `blend` for point
   * interpolation.
   */
  function Interp(self: Path, other: Path, progress: real,
                  flatten: Path -> seq<Event>, segLen: SegmentLength,
                  walk: (seq<Event>, seq<real>) -> seq<Point>,
                  blend: (Point, Point, real) -> Point): (r: Path)
    requires 0.001 < Clamp(progress) < 0.999 ==> MorphDefined(flatten(self), flatten(other), segLen)
    ensures Clamp(progress) <= 0.001 ==> r == self
    ensures Clamp(progress) >= 0.999 ==> r == other
    ensures 0.001 < Clamp(progress) < 0.999 ==>
      var e1 := flatten(self);
      var e2 := flatten(other);
      var ratios := MorphRatios(e1, e2, segLen);
      var p1 := walk(e1, Intervals(ratios, Last(LineLengths(e1, segLen))));
      var p2 := walk(e2, Intervals(ratios, Last(LineLengths(e2, segLen))));
      && |r.commands| == Min(|p1|, |p2|) + 1
      && r.commands[|r.commands| - 1] == Close
      && forall i :: 0 <= i < |r.commands| - 1 ==> r.commands[i] == LineTo(blend(p1[i], p2[i], Clamp(progress)))
  {
    var t := Clamp(progress);
    if t <= 0.001 then self
    else if t >= 0.999 then other
    else
      var e1 := flatten(self);
      var e2 := flatten(other);
      var len1 := Last(LineLengths(e1, segLen));
      var len2 := Last(LineLengths(e2, segLen));
      var ratios := MorphRatios(e1, e2, segLen);
      var p1 := walk(e1, Intervals(ratios, len1));
      var p2 := walk(e2, Intervals(ratios, len2));
      Morphed(p1, p2, t, blend)
  }

  /**
   * For two flattened paths the morph can work on, the combined ratios never
   * decrease and end at 1, and there is at least one per Line of the first path.
   */
  lemma MorphRatiosProperties(e1: seq<Event>, e2: seq<Event>, segLen: SegmentLength)
    requires MorphDefined(e1, e2, segLen)
    ensures var ratios := MorphRatios(e1, e2, segLen);
      && Sorted(ratios) && |ratios| > 0 && Last(ratios) == 1.0
      && |ratios| >= LineCount(e1)
  {
    var l1 := LineLengths(e1, segLen);
    var l2 := LineLengths(e2, segLen);
    LineLengthsProperties(e1, segLen);
    LineLengthsProperties(e2, segLen);
    assert Last(l1) > 0.0 && Last(l2) > 0.0;
    CombinedProperties(l1, l2);
  }

  /**
   * The interval vector of non-decreasing ratios ending at 1, scaled by a
   * non-negative length: one entry fewer than the ratios, non-negative, and
   * spanning the length from the first ratio on.
   */
  lemma IntervalsOfRatios(ratios: seq<real>, len: real)
    requires Sorted(ratios) && |ratios| > 0 && Last(ratios) == 1.0 && len >= 0.0
    ensures |Intervals(ratios, len)| == |ratios| - 1
    ensures forall i :: 0 <= i < |ratios| - 1 ==> Intervals(ratios, len)[i] >= 0.0
    ensures Sum(Intervals(ratios, len)) == (1.0 - ratios[0]) * len
  {
    IntervalsNonNegative(ratios, len);
    IntervalsTelescope(ratios, len);
  }

  /**
   * Both interval vectors of the morph have one entry fewer than the ratios
   * and no negative entry. (How much of each path they span is
   * `IntervalsOfRatios`, whose requires `MorphRatiosProperties` establishes.)
   */
  lemma MorphIntervals(e1: seq<Event>, e2: seq<Event>, segLen: SegmentLength)
    requires MorphDefined(e1, e2, segLen)
    ensures var ratios := MorphRatios(e1, e2, segLen);
      var len1 := LineTotal(e1, segLen);
      var len2 := LineTotal(e2, segLen);
      && |ratios| > 0
      && |Intervals(ratios, len1)| == |ratios| - 1
      && |Intervals(ratios, len2)| == |ratios| - 1
      && (forall i :: 0 <= i < |ratios| - 1 ==> Intervals(ratios, len1)[i] >= 0.0 && Intervals(ratios, len2)[i] >= 0.0)
  {
    MorphRatiosProperties(e1, e2, segLen);
    var ratios := MorphRatios(e1, e2, segLen);
    IntervalsNonNegative(ratios, LineTotal(e1, segLen));
    IntervalsNonNegative(ratios, LineTotal(e2, segLen));
  }
}
