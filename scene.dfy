/**
 * The scene of the animation engine: its window bounds, its event clock (the
 * time at which the next scripted animation starts), its wall clock, and the
 * running count of created objects from which each object's depth is derived.
 * The ECS world and its schedules are reduced to the two resources the scene
 * writes: the window `Bounds` and the `seconds` of the `Time` resource.
 */
module SceneState {

  /** An interval of one axis (`nannou::geom::Range`). */
  datatype Range = Range(start: real, end: real)

  /** An axis-aligned rectangle (`nannou::geom::Rect`). */
  datatype Rect = Rect(x: Range, y: Range)

  /** The window rectangle, stored as a resource of the world. */
  datatype Bounds = Bounds(rect: Rect)
  {
    function EdgeUpper(): real { rect.y.end }
    function EdgeLower(): real { rect.y.start }
    function EdgeLeft(): real { rect.x.start }
    function EdgeRight(): real { rect.x.end }
  }

  /**
   * The four edges are exactly the four ends of the rectangle's ranges: the
   * bounds can be rebuilt from them, so no accessor loses or mixes up an end.
   */
  lemma EdgesRebuildBounds(b: Bounds)
    ensures Bounds(Rect(Range(b.EdgeLeft(), b.EdgeRight()), Range(b.EdgeLower(), b.EdgeUpper()))) == b
  {
  }

  /** The edges of bounds built from a rectangle are that rectangle's range ends. */
  lemma EdgesOfRect(r: Rect)
    ensures Bounds(r).EdgeUpper() == r.y.end && Bounds(r).EdgeLower() == r.y.start
    ensures Bounds(r).EdgeLeft() == r.x.start && Bounds(r).EdgeRight() == r.x.end
  {
  }

  /** The width of an unsigned 32-bit counter. */
  const U32Limit: int := 0x1_0000_0000

  newtype u32 = x: int | 0 <= x < U32Limit

  /** The z value of an object, which orders occlusion. */
  datatype Depth = Depth(z: real)

  /** The depth given to the `count`-th created object: `count / 10`. */
  function DepthOf(count: u32): (d: Depth)
    ensures d.z * 10.0 == count as real
  {
    Depth(count as real / 10.0)
  }

  /** Later objects get strictly greater depths. */
  lemma DepthOfIncreasing(m: u32, n: u32)
    requires m < n
    ensures DepthOf(m).z < DepthOf(n).z
  {
    var dm, dn := DepthOf(m), DepthOf(n);
    assert dm.z * 10.0 < dn.z * 10.0;
  }

  class Scene {
    var bounds: Bounds
    /** `seconds` of the world's `Time` resource. */
    var timeSeconds: real
    var eventTime: real
    var clockTime: real
    var creationCount: u32
    /** The depths handed out so far, in order of creation. */
    ghost var issued: seq<Depth>

    /**
     * One depth was handed out per created object, the `i`-th one being
     * `DepthOf(i + 1)`.
     */
    ghost predicate Valid()
      reads this
    {
      && |issued| == creationCount as int
      && forall i :: 0 <= i < |issued| ==> issued[i] == DepthOf((i + 1) as u32)
    }

    /**
     * `Scene::new`: the window becomes the `Bounds` resource, a default `Time`
     * resource is inserted, the event clock starts at half a second and the
     * wall clock and the creation count at zero.
     */
    constructor(window: Rect)
      ensures Valid()
      ensures bounds == Bounds(window) && timeSeconds == 0.0
      ensures eventTime == 0.5 && clockTime == 0.0 && creationCount == 0
      ensures issued == []
    {
      bounds := Bounds(window);
      timeSeconds := 0.0;
      eventTime := 0.5;
      clockTime := 0.0;
      creationCount := 0;
      issued := [];
    }

    /**
     * `increment_counter`: counts one more created object and returns its
     * depth, which lies strictly above every depth handed out before.
     */
    method IncrementCounter() returns (d: Depth)
      requires Valid()
      requires creationCount as int < U32Limit - 1
      modifies this
      ensures Valid()
      ensures creationCount as int == old(creationCount) as int + 1
      ensures d == DepthOf(creationCount) && issued == old(issued) + [d]
      ensures forall i :: 0 <= i < |old(issued)| ==> old(issued)[i].z < d.z
      ensures bounds == old(bounds) && timeSeconds == old(timeSeconds)
      ensures eventTime == old(eventTime) && clockTime == old(clockTime)
    {
      creationCount := creationCount + 1;
      d := Depth(creationCount as real / 10.0);
      forall i | 0 <= i < |issued|
        ensures issued[i].z < d.z
      {
        DepthOfIncreasing((i + 1) as u32, creationCount);
      }
      issued := issued + [d];
    }

    /** `update(now)`: the `Time` resource and the wall clock are both set to `now`. */
    method Update(now: real)
      requires Valid()
      modifies this
      ensures Valid()
      ensures timeSeconds == now && clockTime == now
      ensures bounds == old(bounds) && eventTime == old(eventTime)
      ensures creationCount == old(creationCount) && issued == old(issued)
    {
      timeSeconds := now;
      clockTime := now;
    }

    /** `wait`: the event clock moves one second on. */
    method Wait()
      requires Valid()
      modifies this
      ensures Valid()
      ensures eventTime == old(eventTime) + 1.0
      ensures bounds == old(bounds) && timeSeconds == old(timeSeconds) && clockTime == old(clockTime)
      ensures creationCount == old(creationCount) && issued == old(issued)
    {
      eventTime := eventTime + 1.0;
    }

    /** `wait_for(time)`: the event clock moves `time` seconds on. */
    method WaitFor(time: real)
      requires Valid()
      modifies this
      ensures Valid()
      ensures eventTime == old(eventTime) + time
      ensures bounds == old(bounds) && timeSeconds == old(timeSeconds) && clockTime == old(clockTime)
      ensures creationCount == old(creationCount) && issued == old(issued)
    {
      eventTime := eventTime + time;
    }
  }

  /**
   * All depths handed out by a scene are distinct and increase with the order
   * of creation, so a later object always lies above an earlier one.
   */
  lemma IssuedDepthsIncrease(s: Scene, i: int, j: int)
    requires s.Valid()
    requires 0 <= i < j < |s.issued|
    ensures s.issued[i].z < s.issued[j].z
  {
    DepthOfIncreasing((i + 1) as u32, (j + 1) as u32);
  }

  /**
   * Two objects created one after the other, with waits and updates in
   * between, get strictly increasing depths, and the waits add up on the
   * event clock.
   */
  method CreateTwo(s: Scene, pause: real, now: real) returns (first: Depth, second: Depth)
    requires s.Valid() && s.creationCount as int < U32Limit - 2
    modifies s
    ensures s.Valid()
    ensures first.z < second.z
    ensures s.creationCount as int == old(s.creationCount) as int + 2
    ensures s.eventTime == old(s.eventTime) + 1.0 + pause && s.clockTime == now
  {
    first := s.IncrementCounter();
    s.Wait();
    s.Update(now);
    s.WaitFor(pause);
    second := s.IncrementCounter();
  }
}
