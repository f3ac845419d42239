/**
 * The "update" stage of the scene's schedule: a parallel stage whose systems
 * may run in any order, or at the same time, except where a system is
 * ordered against the single label `Regular` (`.before(Label::Regular)`,
 * `.after(Label::Regular)`). The model keeps the systems and their ordering
 * constraints and describes which executions the stage admits; the systems'
 * bodies and the executor itself are not modelled.
 */
module UpdateStage {

  /** The animated component types the generic systems are instantiated at. */
  datatype Attribute =
    | Position | FillColor | StrokeColor | StrokeWeight | Size
    | Angle | Opacity | Path | PathCompletion | FontSize

  datatype System =
    | UpdatePrevious(a: Attribute)
    | InitFromTarget(a: Attribute)
    | Animate(a: Attribute)
    | AnimatePosition
    | UpdatePathFromSizeChange
    | Print

  /**
   * The systems added to the update stage (scene.rs, lines 104-128):
   * `update_previous::<Size>`, `init_from_target` at every attribute,
   * `animate_position`, `animate` at every attribute but `Position`,
   * `update_path_from_size_change` and `print`.
   */
  predicate InUpdateStage(s: System)
  {
    match s
    case UpdatePrevious(a) => a == Size
    case InitFromTarget(_) => true
    case Animate(a) => a != Position
    case _ => true
  }

  /** How a system is placed against the `Regular` label. */
  datatype Ordering = Unordered | Labelled | BeforeLabel | AfterLabel

  /** A stage's placement of each system against the label. */
  type Placement = System -> Ordering

  /**
   * One execution of the stage: the step at which each system runs. Systems
   * given the same step run in parallel.
   */
  type Execution = System -> int

  /**
   * `s` must finish before `t` starts: `s` is ordered before the label and
   * `t` carries it, or `s` carries the label and `t` is ordered after it.
   */
  predicate MustPrecede(place: Placement, s: System, t: System)
  {
    || (place(s) == BeforeLabel && place(t) == Labelled)
    || (place(s) == Labelled && place(t) == AfterLabel)
  }

  /** An execution the stage admits: every ordering constraint between its systems is kept. */
  ghost predicate Admits(place: Placement, run: Execution)
  {
    forall s, t :: InUpdateStage(s) && InUpdateStage(t) && MustPrecede(place, s, t) ==> run(s) < run(t)
  }

  /**
   * The placements `Scene::new` gives: only `init_from_target::<Size>` and
   * `animate::<Size>` carry the label, `update_previous::<Size>` is ordered
   * before it, and the three Path systems after it.
   */
  function AsWrittenPlacement(s: System): Ordering
  {
    match s
    case UpdatePrevious(Size) => BeforeLabel
    case InitFromTarget(Size) => Labelled
    case Animate(Size) => Labelled
    case InitFromTarget(Path) => AfterLabel
    case Animate(Path) => AfterLabel
    case UpdatePathFromSizeChange => AfterLabel
    case _ => Unordered
  }

  /**
   * The systems between the stage's two comments, which the comments call
   * the Regular systems: every `init_from_target` and `animate` except the
   * Path ones, and `animate_position`.
   */
  predicate InRegularGroup(s: System)
  {
    match s
    case InitFromTarget(a) => a != Path
    case Animate(a) => a != Path && a != Position
    case AnimatePosition => true
    case _ => false
  }

  /** The systems the comment at scene.rs, line 124 says must run after the Regular ones. */
  predicate PathSystem(s: System)
  {
    s == InitFromTarget(Path) || s == Animate(Path) || s == UpdatePathFromSizeChange
  }

  /**
   * The placements with the label on every system of the Regular group, so
   * that the Path systems, ordered after the label, wait for all of them.
   */
  function IntendedPlacement(s: System): Ordering
  {
    if s == UpdatePrevious(Size) then BeforeLabel
    else if InRegularGroup(s) then Labelled
    else if PathSystem(s) then AfterLabel
    else Unordered
  }

  /**
   * The two placements agree on every system of the stage except the Regular
   * systems other than the two Size ones, which the as-written stage leaves
   * unlabelled.
   */
  lemma PlacementsDiffer(s: System)
    requires InUpdateStage(s)
    ensures AsWrittenPlacement(s) != IntendedPlacement(s)
      <==> InRegularGroup(s) && s != InitFromTarget(Size) && s != Animate(Size)
    ensures AsWrittenPlacement(s) != IntendedPlacement(s) ==> AsWrittenPlacement(s) == Unordered
  {
  }

  /**
   * In every execution the as-written stage admits, `update_previous::<Size>`
   * runs before both Size systems, and each Path system runs after both.
   */
  lemma AsWrittenSizeOrdering(run: Execution, s: System)
    requires Admits(AsWrittenPlacement, run)
    requires s == InitFromTarget(Size) || s == Animate(Size)
    ensures run(UpdatePrevious(Size)) < run(s)
    ensures forall p :: PathSystem(p) ==> run(s) < run(p)
  {
    assert MustPrecede(AsWrittenPlacement, UpdatePrevious(Size), s);
    forall p | PathSystem(p)
      ensures run(s) < run(p)
    {
      assert MustPrecede(AsWrittenPlacement, s, p);
    }
  }

  /**
   * As written, a Regular system other than the two Size ones, such as
   * `animate::<PathCompletion>`, is ordered against no system at all.
   */
  lemma AsWrittenUnconstrained(s: System, t: System)
    requires InRegularGroup(s) && s != InitFromTarget(Size) && s != Animate(Size)
    ensures !MustPrecede(AsWrittenPlacement, s, t) && !MustPrecede(AsWrittenPlacement, t, s)
  {
  }

  /**
   * An execution in three steps: `update_previous::<Size>`, then the two
   * Size systems, then the Path systems; every other system runs last.
   */
  function PathFirstRun(s: System): int
  {
    if s == UpdatePrevious(Size) then 0
    else if s == InitFromTarget(Size) || s == Animate(Size) then 1
    else if PathSystem(s) then 2
    else 3
  }

  /**
   * As written, the stage admits `PathFirstRun`, which runs every Path system
   * before `animate::<PathCompletion>`; the intended placements rule it out.
   */
  lemma AsWrittenAllowsPathFirst()
    ensures Admits(AsWrittenPlacement, PathFirstRun)
    ensures PathFirstRun(InitFromTarget(Path)) < PathFirstRun(Animate(PathCompletion))
    ensures !Admits(IntendedPlacement, PathFirstRun)
  {
    assert MustPrecede(IntendedPlacement, Animate(PathCompletion), InitFromTarget(Path));
  }

  /**
   * In every execution the intended stage admits, every system of the
   * Regular group runs after `update_previous::<Size>` and before each Path
   * system.
   */
  lemma IntendedRegularBeforePath(run: Execution, s: System)
    requires Admits(IntendedPlacement, run)
    requires InRegularGroup(s)
    ensures run(UpdatePrevious(Size)) < run(s)
    ensures forall p :: PathSystem(p) ==> run(s) < run(p)
  {
    assert InUpdateStage(s);
    assert MustPrecede(IntendedPlacement, UpdatePrevious(Size), s);
    forall p | PathSystem(p)
      ensures run(s) < run(p)
    {
      assert MustPrecede(IntendedPlacement, s, p);
    }
  }

  /** Every execution the intended stage admits is one the as-written stage admits too. */
  lemma IntendedNarrowsAsWritten(run: Execution)
    requires Admits(IntendedPlacement, run)
    ensures Admits(AsWrittenPlacement, run)
  {
    forall s, t | InUpdateStage(s) && InUpdateStage(t) && MustPrecede(AsWrittenPlacement, s, t)
      ensures run(s) < run(t)
    {
      assert MustPrecede(IntendedPlacement, s, t);
    }
  }

  /**
   * An execution in three steps: `print` and `update_previous::<Size>`, then
   * the Regular group, then the Path systems.
   */
  function LayeredRun(s: System): int
  {
    if InRegularGroup(s) then 1 else if PathSystem(s) then 2 else 0
  }

  /** The intended placements can be met: they admit `LayeredRun`. */
  lemma IntendedAdmitsLayered()
    ensures Admits(IntendedPlacement, LayeredRun)
  {
  }
}
